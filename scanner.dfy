/**
 * The argument scanner as a pure state machine over the tokens that remain
 * to be read. One step reads one token, and a value-bearing option may also
 * consume the token after it as its argument.
 */
module Scanner {
  import opened Wrappers
  import opened Descriptor
  import opened Registry

  /** Options are recognised until a bare "--"; after it every token is an operand. */
  datatype Mode = ScanningOptions | ScanningOperands

  datatype ScanState = ScanState(
    options: seq<OptionRecord>,
    operands: seq<string>,
    mode: Mode,
    ec: Option<ConfigError>)

  /** A value-bearing option found in a short cluster, with the rest of the
      token that follows its character. */
  datatype Pending = Pending(index: nat, argument: string)

  datatype ClusterOutcome = ClusterOutcome(
    options: seq<OptionRecord>,
    ec: Option<ConfigError>,
    pending: Option<Pending>)

  /** Parsing only counts occurrences and stores values: declarations stay,
      and occurrence counts never go down. */
  predicate Grown(a: seq<OptionRecord>, b: seq<OptionRecord>)
  {
    && SameDeclarations(a, b)
    && forall k | 0 <= k < |a| :: a[k].seen <= b[k].seen
  }

  /** The tokens from position i on (an argument vector of length 0 has none). */
  function From(args: seq<string>, i: nat): (r: seq<string>)
    ensures i <= |args| ==> r == args[i..]
    ensures |args| <= i ==> r == []
  {
    if i <= |args| then args[i..] else []
  }

  /** Splits the text after "--" at its first '=' into the name and the inline
      argument; without '=' the inline argument is empty. */
  function SplitAtEq(s: string): (r: (string, string))
    ensures '=' !in r.0
    ensures '=' in s ==> s == r.0 + ['='] + r.1
    ensures '=' !in s ==> r == (s, [])
    decreases |s|
  {
    if s == [] then ([], [])
    else if s[0] == '=' then ([], s[1..])
    else
      var t := SplitAtEq(s[1..]);
      assert s == [s[0]] + s[1..];
      ([s[0]] + t.0, t.1)
  }

  /** Counts one occurrence of option j. */
  function Occur(st: ScanState, j: nat): (r: ScanState)
    requires j < |st.options|
    ensures r.options == st.options[j := Bump(st.options[j])]
    ensures r.operands == st.operands && r.mode == st.mode && r.ec == st.ec
    ensures Grown(st.options, r.options)
    ensures AllWellFormed(st.options) ==> AllWellFormed(r.options)
  {
    st.(options := st.options[j := Bump(st.options[j])])
  }

  /** Hands an argument to value-bearing option j: an empty argument is
      missing; any other is stored, and a conversion error is reported. */
  function Assign(st: ScanState, j: nat, argument: string, parse: NumberParser): (r: ScanState)
    requires j < |st.options| && st.options[j].kind.Valued?
    ensures r.operands == st.operands && r.mode == st.mode
    ensures argument == [] ==> r == st.(ec := Some(MissingArgumentForOption))
    ensures argument != [] ==>
      var (o, e) := SetValue(st.options[j], argument, parse);
      r.options == st.options[j := o] && r.ec == (if e.Some? then Some(Conversion(e.value)) else st.ec)
    ensures Grown(st.options, r.options)
    ensures AllWellFormed(st.options) ==> AllWellFormed(r.options)
  {
    if argument == [] then st.(ec := Some(MissingArgumentForOption))
    else
      var (o, e) := SetValue(st.options[j], argument, parse);
      st.(options := st.options[j := o], ec := if e.Some? then Some(Conversion(e.value)) else st.ec)
  }

  /** A value-bearing option takes its inline argument, or, when that is
      empty and another token follows, the whole next token. Returns the new
      state and how many tokens were read. */
  function TakeArgument(st: ScanState, j: nat, inline: string, rest: seq<string>, parse: NumberParser): (r: (ScanState, nat))
    requires |rest| >= 1 && j < |st.options| && st.options[j].kind.Valued?
    ensures r.1 == 1 || r.1 == 2
  {
    if inline == [] && |rest| > 1 then (Assign(st, j, rest[1], parse), 2)
    else (Assign(st, j, inline, parse), 1)
  }

  /** What taking an argument does: the chosen argument is the next token
      when it was consumed and the inline one otherwise; an empty one is
      missing, any other overwrites only option j's value with its
      conversion, and a conversion error becomes the parse error. */
  lemma TakeArgumentStores(st: ScanState, j: nat, inline: string, rest: seq<string>, parse: NumberParser)
    requires |rest| >= 1 && j < |st.options| && st.options[j].kind.Valued?
    // the next token is consumed exactly when the inline argument is empty and one follows
    ensures TakeArgument(st, j, inline, rest, parse).1 == 2 <==> inline == [] && |rest| > 1
    ensures var r := TakeArgument(st, j, inline, rest, parse);
      var a := if r.1 == 2 then rest[1] else inline;
      && r.0.operands == st.operands && r.0.mode == st.mode
      && (a == [] ==> r.0 == st.(ec := Some(MissingArgumentForOption)))
      && (a != [] ==>
            var (v, e) := Convert(st.options[j].kind.vt, a, parse);
            && r.0.options == st.options[j := st.options[j].(value := Some(v))]
            && r.0.ec == (if e.Some? then Some(Conversion(e.value)) else st.ec))
  {
  }

  /** Resolves the characters of a short cluster left to right. Each known
      flag is counted; the first value-bearing option is counted and ends the
      cluster, leaving the rest of the token as its argument; an unknown
      character is an error unless unknown options are ignored. */
  function Cluster(opts: seq<OptionRecord>, s: string, ignoreUnknown: bool): (r: ClusterOutcome)
    ensures Grown(opts, r.options)
    ensures AllWellFormed(opts) ==> AllWellFormed(r.options)
    ensures r.pending.Some? ==> r.ec.None? && r.pending.value.index < |opts| && opts[r.pending.value.index].kind.Valued?
    ensures r.ec.Some? ==> r.ec == Some(UnknownOption) && !ignoreUnknown
    decreases |s|
  {
    if s == [] then ClusterOutcome(opts, None, None)
    else match FindByShort(opts, s[0])
      case None =>
        if ignoreUnknown then Cluster(opts, s[1..], ignoreUnknown)
        else ClusterOutcome(opts, Some(UnknownOption), None)
      case Some(j) =>
        var bumped := opts[j := Bump(opts[j])];
        if opts[j].kind == Flag then
          var r := Cluster(bumped, s[1..], ignoreUnknown);
          assert Grown(opts, bumped);
          r
        else
          ClusterOutcome(bumped, None, Some(Pending(j, s[1..])))
  }

  /** A token "--body": the name before the first '=' is looked up by long name. */
  function LongOption(st: ScanState, body: string, rest: seq<string>, ignoreUnknown: bool, parse: NumberParser): (r: (ScanState, nat))
    requires |rest| >= 1
    ensures 1 <= r.1 <= |rest| && r.1 <= 2
    ensures r.0.operands == st.operands && r.0.mode == st.mode
    ensures Grown(st.options, r.0.options)
    ensures AllWellFormed(st.options) ==> AllWellFormed(r.0.options)
  {
    var (name, inline) := SplitAtEq(body);
    match FindByName(st.options, name)
    case None => (if ignoreUnknown then st else st.(ec := Some(UnknownOption)), 1)
    case Some(j) =>
      var counted := Occur(st, j);
      if st.options[j].kind == Flag then
        (if inline != [] then counted.(ec := Some(OptionDoesNotAcceptArgument)) else counted, 1)
      else
        TakeArgument(counted, j, inline, rest, parse)
  }

  /** A token "-chars": a cluster of short options. */
  function ShortOptions(st: ScanState, chars: string, rest: seq<string>, ignoreUnknown: bool, parse: NumberParser): (r: (ScanState, nat))
    requires |rest| >= 1
    ensures 1 <= r.1 <= |rest| && r.1 <= 2
    ensures r.0.operands == st.operands && r.0.mode == st.mode
    ensures Grown(st.options, r.0.options)
    ensures AllWellFormed(st.options) ==> AllWellFormed(r.0.options)
  {
    var c := Cluster(st.options, chars, ignoreUnknown);
    var st1 := st.(options := c.options, ec := if c.ec.Some? then c.ec else st.ec);
    match c.pending
    case None => (st1, 1)
    case Some(p) => TakeArgument(st1, p.index, p.argument, rest, parse)
  }

  /** Reads the token rest[0] (and perhaps rest[1] as an option argument).
      Returns the new state and how many tokens were read. */
  function Step(st: ScanState, rest: seq<string>, ignoreUnknown: bool, parse: NumberParser): (r: (ScanState, nat))
    requires |rest| >= 1
    ensures 1 <= r.1 <= |rest| && r.1 <= 2
    // a token is either emitted as an operand on its own or not emitted at all
    ensures r.0.operands == st.operands || (r.0.operands == st.operands + [rest[0]] && r.1 == 1)
    // the only change of mode is the one into operands
    ensures st.mode == ScanningOperands ==> r.0.mode == ScanningOperands
    ensures Grown(st.options, r.0.options)
    ensures AllWellFormed(st.options) ==> AllWellFormed(r.0.options)
  {
    var arg := rest[0];
    if st.mode == ScanningOperands || arg == [] || arg[0] != '-' then
      (st.(operands := st.operands + [arg]), 1)
    else if arg == "--" then
      (st.(mode := ScanningOperands), 1)
    else if |arg| >= 2 && arg[1] == '-' then
      LongOption(st, arg[2..], rest, ignoreUnknown, parse)
    else
      ShortOptions(st, arg[1..], rest, ignoreUnknown, parse)
  }

  /** Reads tokens until none remain or an error is set. */
  function Run(st: ScanState, rest: seq<string>, ignoreUnknown: bool, parse: NumberParser): ScanState
    decreases |rest|, 2
  {
    RunFrom(st, rest, ignoreUnknown, parse)
  }

  /** The run stops once no token remains or an error is set. */
  function RunFrom(st: ScanState, rest: seq<string>, ignoreUnknown: bool, parse: NumberParser): ScanState
    decreases |rest|, 1
  {
    if rest == [] || st.ec.Some? then st
    else RunStep(st, rest, ignoreUnknown, parse)
  }

  /** One step, then the run over the tokens the step did not read. */
  function RunStep(st: ScanState, rest: seq<string>, ignoreUnknown: bool, parse: NumberParser): ScanState
    requires rest != []
    decreases |rest|, 0
  {
    var step := Step(st, rest, ignoreUnknown, parse);
    Run(step.0, rest[step.1..], ignoreUnknown, parse)
  }

  /** The whole scan keeps the declarations, never lowers a count, keeps
      every record well formed, and never leaves operand mode. */
  lemma {:induction false} RunKeeps(st: ScanState, rest: seq<string>, ignoreUnknown: bool, parse: NumberParser)
    ensures var r := Run(st, rest, ignoreUnknown, parse);
      && Grown(st.options, r.options)
      && (AllWellFormed(st.options) ==> AllWellFormed(r.options))
      && (st.mode == ScanningOperands ==> r.mode == ScanningOperands)
    decreases |rest|
  {
    if rest == [] || st.ec.Some? {
      RunDone(st, rest, ignoreUnknown, parse);
    } else {
      var step := Step(st, rest, ignoreUnknown, parse);
      RunUnfold(st, rest, ignoreUnknown, parse);
      RunKeeps(step.0, rest[step.1..], ignoreUnknown, parse);
    }
  }

  /** One step of the run, when a token remains and no error is set. */
  lemma RunUnfold(st: ScanState, rest: seq<string>, ignoreUnknown: bool, parse: NumberParser)
    requires rest != [] && st.ec.None?
    ensures Run(st, rest, ignoreUnknown, parse)
      == Run(Step(st, rest, ignoreUnknown, parse).0, rest[Step(st, rest, ignoreUnknown, parse).1..], ignoreUnknown, parse)
  {
    assert Run(st, rest, ignoreUnknown, parse) == RunFrom(st, rest, ignoreUnknown, parse) == RunStep(st, rest, ignoreUnknown, parse);
  }

  /** With no token left, or an error set, the run stops where it is. */
  lemma RunDone(st: ScanState, rest: seq<string>, ignoreUnknown: bool, parse: NumberParser)
    requires rest == [] || st.ec.Some?
    ensures Run(st, rest, ignoreUnknown, parse) == st
  {
  }

  /** The run from index i of an argument vector goes on from the index
      after the last token a step read. */
  lemma RunAdvance(st: ScanState, args: seq<string>, i: nat, next: ScanState, last: nat, ignoreUnknown: bool, parse: NumberParser)
    requires i <= last < |args|
    requires Run(st, args[i..], ignoreUnknown, parse) == Run(next, args[i..][last - i + 1..], ignoreUnknown, parse)
    ensures Run(st, From(args, i), ignoreUnknown, parse) == Run(next, From(args, last + 1), ignoreUnknown, parse)
  {
    assert From(args, i) == args[i..];
    assert From(args, last + 1) == args[i..][last - i + 1..];
  }

  /** A token "--..." other than "--" itself is read as a long option. */
  lemma StepLong(st: ScanState, rest: seq<string>, ignoreUnknown: bool, parse: NumberParser)
    requires rest != [] && st.mode == ScanningOptions
    requires |rest[0]| > 2 && rest[0][0] == '-' && rest[0][1] == '-'
    ensures Step(st, rest, ignoreUnknown, parse) == LongOption(st, rest[0][2..], rest, ignoreUnknown, parse)
  {
  }

  /** A token "-..." whose second character is not '-' is a short cluster. */
  lemma StepShort(st: ScanState, rest: seq<string>, ignoreUnknown: bool, parse: NumberParser)
    requires rest != [] && st.mode == ScanningOptions
    requires |rest[0]| >= 1 && rest[0][0] == '-' && (|rest[0]| == 1 || rest[0][1] != '-')
    ensures Step(st, rest, ignoreUnknown, parse) == ShortOptions(st, rest[0][1..], rest, ignoreUnknown, parse)
  {
  }

  /** A cluster that leaves a value-bearing option pending goes on to take
      that option's argument. */
  lemma ShortPending(st: ScanState, chars: string, rest: seq<string>, ignoreUnknown: bool, parse: NumberParser,
                     opts: seq<OptionRecord>, j: nat, a: string)
    requires |rest| >= 1
    requires Cluster(st.options, chars, ignoreUnknown) == ClusterOutcome(opts, None, Some(Pending(j, a)))
    ensures j < |opts| && opts[j].kind.Valued?
    ensures ShortOptions(st, chars, rest, ignoreUnknown, parse) == TakeArgument(st.(options := opts), j, a, rest, parse)
  {
  }

  /** A cluster with nothing pending reads its token alone. */
  lemma ShortDone(st: ScanState, chars: string, rest: seq<string>, ignoreUnknown: bool, parse: NumberParser,
                  opts: seq<OptionRecord>, e: Option<ConfigError>)
    requires |rest| >= 1
    requires Cluster(st.options, chars, ignoreUnknown) == ClusterOutcome(opts, e, None)
    ensures ShortOptions(st, chars, rest, ignoreUnknown, parse) == (st.(options := opts, ec := if e.Some? then e else st.ec), 1)
  {
  }
}
