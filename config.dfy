/**
 * The configuration object: the registry of option records copied in at
 * construction, the operands collected so far, the argument parser that
 * updates both in place, and the read-only queries.
 */
module Cfg {
  import opened Wrappers
  import opened Descriptor
  import opened Registry
  import opened Scanner

  /** An argument vector entry is a C string: a sequence of bytes (each
      `char` here stands for one byte) that holds no NUL byte. */
  predicate IsCString(s: string)
  {
    forall k | 0 <= k < |s| :: '\0' < s[k] <= '\U{FF}'
  }

  class Config {
    var options: seq<OptionRecord>
    var operands: seq<string>

    ghost predicate Valid()
      reads this
    {
      AllWellFormed(options)
    }

    /** Builds a registry from its declarations, in declaration order. */
    constructor (decls: seq<OptionRecord>)
      requires AllWellFormed(decls)
      ensures Valid()
      ensures options == decls && operands == []
    {
      options := decls;
      operands := [];
    }

    /** Linear first-match search by long name. */
    method GetOption(name: string) returns (r: Option<nat>)
      ensures r == FindByName(options, name)
      ensures r.Some? ==> FirstNamed(options, name, r.value)
      ensures r.None? ==> forall k | 0 <= k < |options| :: options[k].name != name
    {
      var k := 0;
      while k < |options|
        invariant 0 <= k <= |options|
        invariant forall m | 0 <= m < k :: options[m].name != name
      {
        if options[k].name == name {
          FirstNamedUnique(options, name, k);
          return Some(k);
        }
        k := k + 1;
      }
      return None;
    }

    /** Linear first-match search by short character. */
    method GetOptionByShort(c: char) returns (r: Option<nat>)
      ensures r == FindByShort(options, c)
      ensures r.Some? ==> FirstShort(options, c, r.value)
      ensures r.None? ==> forall k | 0 <= k < |options| :: options[k].shortName != c
    {
      var k := 0;
      while k < |options|
        invariant 0 <= k <= |options|
        invariant forall m | 0 <= m < k :: options[m].shortName != c
      {
        if options[k].shortName == c {
          FirstShortUnique(options, c, k);
          return Some(k);
        }
        k := k + 1;
      }
      return None;
    }

    /** True when the option is declared and was seen or has a default. */
    function Has(name: string): (r: bool)
      reads this
      ensures r <==> exists j :: FirstNamed(options, name, j) && (options[j].seen > 0 || options[j].hasDefault)
    {
      match FindByName(options, name)
      case None => false
      case Some(j) =>
        FirstNamedUnique(options, name, j);
        options[j].seen > 0 || options[j].hasDefault
    }

    /** How often the option was seen; 0 for an undeclared name. */
    function Count(name: string): (r: nat)
      reads this
      ensures (forall k | 0 <= k < |options| :: options[k].name != name) ==> r == 0
      ensures forall j :: FirstNamed(options, name, j) ==> r == options[j].seen
    {
      match FindByName(options, name)
      case None => 0
      case Some(j) =>
        FirstNamedUnique(options, name, j);
        options[j].seen
    }

    /** The value held by the option: unknown_option when it is not declared,
        option_not_specified when it holds no value. */
    function Get(name: string): (r: Result<Value, ConfigError>)
      reads this
      ensures r == Err(UnknownOption) <==> forall k | 0 <= k < |options| :: options[k].name != name
      ensures forall j :: FirstNamed(options, name, j) ==>
        r == (if options[j].value.Some? then Ok(options[j].value.value) else Err(OptionNotSpecified))
    {
      match FindByName(options, name)
      case None => Err(UnknownOption)
      case Some(j) =>
        FirstNamedUnique(options, name, j);
        match options[j].value
        case None => Err(OptionNotSpecified)
        case Some(v) => Ok(v)
    }

    /** Parses an argument vector whose first entry is the program name.
        `ecIn` is the caller's error code: when it is already set nothing is
        read. Occurrence counts and operands accumulate over calls. */
    method Parse(args: seq<string>, ignoreUnknown: bool, parse: NumberParser, ecIn: Option<ConfigError>)
      returns (ec: Option<ConfigError>)
      requires Valid()
      requires forall k | 0 <= k < |args| :: IsCString(args[k])
      modifies this
      ensures Valid()
      ensures var r := Run(ScanState(old(options), old(operands), ScanningOptions, ecIn), From(args, 1), ignoreUnknown, parse);
        options == r.options && operands == r.operands && ec == r.ec
    {
      ec := ecIn;
      var mode := ScanningOptions;
      ghost var goal := Run(ScanState(options, operands, mode, ec), From(args, 1), ignoreUnknown, parse);
      RunKeeps(ScanState(options, operands, mode, ec), From(args, 1), ignoreUnknown, parse);
      var i: nat := 1;
      while i < |args| && ec.None?
        invariant 1 <= i
        invariant Run(ScanState(options, operands, mode, ec), From(args, i), ignoreUnknown, parse) == goal
        decreases |args| - i
      {
        var last;
        mode, last, ec := ParseNext(args, i, mode, ignoreUnknown, parse, goal);
        i := last + 1;
      }
      RunDone(ScanState(options, operands, mode, ec), From(args, i), ignoreUnknown, parse);
    }

    /** One turn of the parsing loop: the run from args[i] on is the run,
        from the new state, over the tokens after the last one read. */
    method ParseNext(args: seq<string>, i: nat, mode0: Mode, ignoreUnknown: bool, parse: NumberParser, ghost goal: ScanState)
      returns (mode: Mode, last: nat, ec: Option<ConfigError>)
      requires i < |args|
      requires Run(ScanState(options, operands, mode0, None), From(args, i), ignoreUnknown, parse) == goal
      modifies this
      ensures i <= last < |args|
      ensures Run(ScanState(options, operands, mode, ec), From(args, last + 1), ignoreUnknown, parse) == goal
    {
      ghost var st := ScanState(options, operands, mode0, None);
      mode, last, ec := ParseToken(args, i, mode0, ignoreUnknown, parse);
      RunUnfold(st, args[i..], ignoreUnknown, parse);
      RunAdvance(st, args, i, ScanState(options, operands, mode, ec), last, ignoreUnknown, parse);
    }

    /** Reads the token args[i] (and the next one when it is an option
        argument); returns the new state and the index of the last token read. */
    method ParseToken(args: seq<string>, i: nat, mode0: Mode, ignoreUnknown: bool, parse: NumberParser)
      returns (mode: Mode, last: nat, ec: Option<ConfigError>)
      requires i < |args|
      modifies this
      ensures (ScanState(options, operands, mode, ec), last - i + 1)
        == Step(ScanState(old(options), old(operands), mode0, None), args[i..], ignoreUnknown, parse)
    {
      ghost var st := ScanState(options, operands, mode0, None);
      ghost var rest := args[i..];
      mode, last, ec := mode0, i, None;
      var arg := args[i];
      assert rest != [] && rest[0] == arg;
      // after "--" every token is an operand; before it, so is every token
      // that does not start with '-' (options and operands may be mixed)
      if mode == ScanningOperands || arg == [] || arg[0] != '-' {
        operands := operands + [arg];
      } else if arg == "--" {
        mode := ScanningOperands;
      } else {
        if |arg| >= 2 && arg[1] == '-' {
          StepLong(st, rest, ignoreUnknown, parse);
          last, ec := ParseLong(args, i, ignoreUnknown, parse);
        } else {
          StepShort(st, rest, ignoreUnknown, parse);
          last, ec := ParseShort(args, i, ignoreUnknown, parse);
        }
      }
    }

    /** Reads the long option token args[i] = "--body", and its argument when
        it takes one. */
    method ParseLong(args: seq<string>, i: nat, ignoreUnknown: bool, parse: NumberParser)
      returns (last: nat, ec: Option<ConfigError>)
      requires i < |args| && |args[i]| >= 2
      modifies this
      ensures (ScanState(options, operands, ScanningOptions, ec), last - i + 1)
        == LongOption(ScanState(old(options), old(operands), ScanningOptions, None), args[i][2..], args[i..], ignoreUnknown, parse)
    {
      last := i;
      var expectArgument, optIndex, optArg;
      ec, expectArgument, optIndex, optArg := ScanLong(args[i][2..], ignoreUnknown, parse, ScanningOptions, args[i..]);
      if expectArgument {
        last, ec := ConsumeArgument(args, i, optIndex, optArg, parse, ScanningOptions);
      }
    }

    /** Reads the short cluster token args[i] = "-chars", and the argument of
        its value-bearing option when it has one. */
    method ParseShort(args: seq<string>, i: nat, ignoreUnknown: bool, parse: NumberParser)
      returns (last: nat, ec: Option<ConfigError>)
      requires i < |args| && |args[i]| >= 1
      modifies this
      ensures (ScanState(options, operands, ScanningOptions, ec), last - i + 1)
        == ShortOptions(ScanState(old(options), old(operands), ScanningOptions, None), args[i][1..], args[i..], ignoreUnknown, parse)
    {
      ghost var st := ScanState(options, operands, ScanningOptions, None);
      last := i;
      var expectArgument, optIndex, optArg;
      ec, expectArgument, optIndex, optArg := ScanCluster(args[i][1..], ignoreUnknown);
      if expectArgument {
        ShortPending(st, args[i][1..], args[i..], ignoreUnknown, parse, options, optIndex, optArg);
        last, ec := ConsumeArgument(args, i, optIndex, optArg, parse, ScanningOptions);
      } else {
        ShortDone(st, args[i][1..], args[i..], ignoreUnknown, parse, options, ec);
      }
    }

    /** The text after "--": the name before the first '=' is looked up, a
        flag is counted (and refuses a non-empty inline argument), and a
        value-bearing option is counted and waits for its argument. */
    method ScanLong(body: string, ignoreUnknown: bool, parse: NumberParser, ghost mode: Mode, ghost rest: seq<string>)
      returns (ec: Option<ConfigError>, expectArgument: bool, optIndex: nat, optArg: string)
      requires |rest| >= 1
      modifies this
      ensures operands == old(operands)
      ensures expectArgument ==> optIndex < |options| && options[optIndex].kind.Valued? && ec.None?
      // a value-bearing option was found under the name before '=', it was
      // counted, and the text after '=' is its inline argument
      ensures expectArgument ==>
        var (name, inline) := SplitAtEq(body);
        && FindByName(old(options), name) == Some(optIndex)
        && optArg == inline
        && options == old(options)[optIndex := Bump(old(options)[optIndex])]
      ensures var st := ScanState(old(options), operands, mode, None);
        if expectArgument
        then LongOption(st, body, rest, ignoreUnknown, parse) == TakeArgument(ScanState(options, operands, mode, ec), optIndex, optArg, rest, parse)
        else LongOption(st, body, rest, ignoreUnknown, parse) == (ScanState(options, operands, mode, ec), 1)
    {
      ec, expectArgument, optIndex, optArg := None, false, 0, [];
      var (name, inline) := SplitAtEq(body);
      var found := GetOption(name);
      if found == None {
        if !ignoreUnknown {
          ec := Some(UnknownOption);
        }
        return;
      }
      var j := found.value;
      if options[j].kind == Flag {
        if inline != [] {
          ec := Some(OptionDoesNotAcceptArgument);
        }
        options := options[j := Bump(options[j])];
        return;
      }
      options := options[j := Bump(options[j])];
      expectArgument, optIndex, optArg := true, j, inline;
    }

    /** The characters after a single '-', resolved left to right until the
        first value-bearing option, which waits for its argument. */
    method ScanCluster(chars: string, ignoreUnknown: bool)
      returns (ec: Option<ConfigError>, expectArgument: bool, optIndex: nat, optArg: string)
      modifies this
      ensures operands == old(operands)
      ensures expectArgument ==> optIndex < |options| && options[optIndex].kind.Valued? && ec.None?
      // the options after the cluster are those Cluster computes, with the
      // value-bearing option and the rest of the token pending
      ensures expectArgument ==>
        Cluster(old(options), chars, ignoreUnknown) == ClusterOutcome(options, None, Some(Pending(optIndex, optArg)))
      ensures !expectArgument ==>
        Cluster(old(options), chars, ignoreUnknown) == ClusterOutcome(options, ec, None)
    {
      ec, expectArgument, optIndex, optArg := None, false, 0, [];
      var k := 0;
      while k < |chars| && ec.None? && !expectArgument
        invariant 0 <= k <= |chars|
        invariant Grown(old(options), options)
        invariant operands == old(operands)
        invariant expectArgument ==> optIndex < |options| && options[optIndex].kind.Valued?
        invariant !expectArgument && ec.None? ==>
          Cluster(options, chars[k..], ignoreUnknown) == Cluster(old(options), chars, ignoreUnknown)
        invariant ec.Some? ==>
          !expectArgument && Cluster(old(options), chars, ignoreUnknown) == ClusterOutcome(options, ec, None)
        invariant expectArgument ==>
          ec.None? && Cluster(old(options), chars, ignoreUnknown) == ClusterOutcome(options, None, Some(Pending(optIndex, optArg)))
        decreases |chars| - k
      {
        ec, expectArgument, optIndex, optArg := ScanChar(chars, k, ignoreUnknown);
        k := k + 1;
      }
    }

    /** One character of a short cluster: an unknown one is an error unless
        unknown options are ignored, a known one is counted, and a
        value-bearing one takes the rest of the token as its argument. */
    method ScanChar(chars: string, k: nat, ignoreUnknown: bool)
      returns (ec: Option<ConfigError>, expectArgument: bool, optIndex: nat, optArg: string)
      requires k < |chars|
      modifies this
      ensures Grown(old(options), options)
      ensures operands == old(operands)
      ensures expectArgument ==> optIndex < |options| && options[optIndex].kind.Valued?
      ensures !expectArgument && ec.None? ==>
        Cluster(old(options), chars[k..], ignoreUnknown) == Cluster(options, chars[k + 1..], ignoreUnknown)
      ensures ec.Some? ==>
        !expectArgument && Cluster(old(options), chars[k..], ignoreUnknown) == ClusterOutcome(options, ec, None)
      ensures expectArgument ==>
        ec.None? && Cluster(old(options), chars[k..], ignoreUnknown) == ClusterOutcome(options, None, Some(Pending(optIndex, optArg)))
    {
      ec, expectArgument, optIndex, optArg := None, false, 0, [];
      assert chars[k..][0] == chars[k] && chars[k..][1..] == chars[k + 1..];
      var found := GetOptionByShort(chars[k]);
      if found == None {
        if !ignoreUnknown {
          ec := Some(UnknownOption);
        }
      } else {
        var j := found.value;
        options := options[j := Bump(options[j])];
        if options[j].kind != Flag {
          expectArgument, optIndex, optArg := true, j, chars[k + 1..];
        }
      }
    }

    /** The argument of a value-bearing option: the inline one, or when that is
        empty the next token if there is one. An empty argument is missing;
        any other is converted and stored. Returns the index of the last token
        read. */
    method ConsumeArgument(args: seq<string>, i: nat, optIndex: nat, optArg: string, parse: NumberParser, ghost mode: Mode)
      returns (last: nat, ec: Option<ConfigError>)
      requires i < |args|
      requires optIndex < |options| && options[optIndex].kind.Valued?
      modifies this
      ensures (ScanState(options, operands, mode, ec), last - i + 1)
        == TakeArgument(ScanState(old(options), old(operands), mode, None), optIndex, optArg, args[i..], parse)
    {
      last, ec := i, None;
      var argument := optArg;
      if argument == [] && i + 1 < |args| {
        last := i + 1;
        argument := args[last];
      }
      if argument == [] {
        ec := Some(MissingArgumentForOption);
      } else {
        var (o, e) := SetValue(options[optIndex], argument, parse);
        options := options[optIndex := o];
        if e.Some? {
          ec := Some(Conversion(e.value));
        }
      }
    }
  }

  /** An option declared with a default is always present and always yields
      a value, whether or not it was given on the command line. */
  lemma DefaultAlwaysAvailable(c: Config, name: string, j: nat)
    requires c.Valid()
    requires FirstNamed(c.options, name, j) && c.options[j].hasDefault
    ensures c.Has(name) && c.Get(name).Ok?
    ensures TypeOf(c.Get(name).value) == c.options[j].kind.vt
  {
    assert WellFormed(c.options[j]);
  }

  /** A flag is only ever counted: asking for its value reports
      option_not_specified however often it was given. */
  lemma FlagHasNoValue(c: Config, name: string, j: nat)
    requires c.Valid()
    requires FirstNamed(c.options, name, j) && c.options[j].kind == Flag
    ensures c.Get(name) == Err(OptionNotSpecified)
    ensures c.Has(name) <==> c.Count(name) > 0
  {
    assert WellFormed(c.options[j]);
  }
}
