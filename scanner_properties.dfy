/**
 * What the scanner promises, stated over the pure state machine Scanner.Run:
 * how operands are collected, how long options and short clusters resolve,
 * and where scanning stops.
 */
module ScannerProperties {
  import opened Wrappers
  import opened Descriptor
  import opened Registry
  import opened Scanner

  // ------------------------------------------------------------------
  // Splitting "--name=value"

  /** The split happens at the first '=', so a name without '=' comes back
      whole and everything after that '=' is the inline argument. */
  lemma {:induction false} SplitAtFirstEq(name: string, v: string)
    requires '=' !in name
    ensures SplitAtEq(name + ['='] + v) == (name, v)
    decreases |name|
  {
    if name == [] {
      assert name + ['='] + v == ['='] + v;
    } else {
      var s := name + ['='] + v;
      SplitAtFirstEq(name[1..], v);
      assert s[0] == name[0] && s[0] != '=';
      assert s[1..] == name[1..] + ['='] + v;
      assert [name[0]] + name[1..] == name;
    }
  }

  // ------------------------------------------------------------------
  // Operands

  /** Once "--" has been read, every remaining token is appended to the
      operands in order, and nothing else changes. */
  lemma {:induction false} OperandModeAppendsRest(st: ScanState, rest: seq<string>, ignoreUnknown: bool, parse: NumberParser)
    requires st.mode == ScanningOperands && st.ec.None?
    ensures Run(st, rest, ignoreUnknown, parse) == st.(operands := st.operands + rest)
    decreases |rest|
  {
    if rest == [] {
      RunDone(st, rest, ignoreUnknown, parse);
    } else {
      var next := st.(operands := st.operands + [rest[0]]);
      assert Step(st, rest, ignoreUnknown, parse) == (next, 1);
      RunUnfold(st, rest, ignoreUnknown, parse);
      OperandModeAppendsRest(next, rest[1..], ignoreUnknown, parse);
      assert st.operands + [rest[0]] + rest[1..] == st.operands + rest;
    }
  }

  /** A bare "--" is consumed without being emitted; it switches to operand
      mode for good, and every later token, whatever it looks like, becomes
      an operand. */
  lemma DoubleDashEndsOptions(st: ScanState, post: seq<string>, ignoreUnknown: bool, parse: NumberParser)
    requires st.mode == ScanningOptions && st.ec.None?
    ensures Run(st, ["--"] + post, ignoreUnknown, parse)
      == st.(mode := ScanningOperands, operands := st.operands + post)
  {
    var rest := ["--"] + post;
    assert rest[0] == "--" && rest[1..] == post;
    RunUnfold(st, rest, ignoreUnknown, parse);
    OperandModeAppendsRest(st.(mode := ScanningOperands), post, ignoreUnknown, parse);
  }

  /** A token that does not start with '-' (the empty token included) is an
      operand even between options. */
  lemma PlainTokenIsOperand(st: ScanState, arg: string, post: seq<string>, ignoreUnknown: bool, parse: NumberParser)
    requires st.mode == ScanningOptions && st.ec.None?
    requires arg == [] || arg[0] != '-'
    ensures Run(st, [arg] + post, ignoreUnknown, parse)
      == Run(st.(operands := st.operands + [arg]), post, ignoreUnknown, parse)
  {
    assert ([arg] + post)[1..] == post;
    RunUnfold(st, [arg] + post, ignoreUnknown, parse);
  }

  /** A lone "-" is neither an operand nor an option: it is dropped. */
  lemma LoneDashDropped(st: ScanState, post: seq<string>, ignoreUnknown: bool, parse: NumberParser)
    requires st.mode == ScanningOptions && st.ec.None?
    ensures Run(st, ["-"] + post, ignoreUnknown, parse) == Run(st, post, ignoreUnknown, parse)
  {
    var rest := ["-"] + post;
    assert rest[0] == "-" && rest[0][1..] == [] && rest[1..] == post;
    assert Step(st, rest, ignoreUnknown, parse) == (st, 1);
    RunUnfold(st, rest, ignoreUnknown, parse);
  }

  /** xs can be obtained from ys by deleting elements. */
  predicate IsSubsequence(xs: seq<string>, ys: seq<string>)
    decreases |ys|
  {
    || xs == []
    || (ys != [] && ((xs[0] == ys[0] && IsSubsequence(xs[1..], ys[1..])) || IsSubsequence(xs, ys[1..])))
  }

  lemma {:induction false} SubsequenceOfSuffix(xs: seq<string>, ys: seq<string>, n: nat)
    requires n <= |ys| && IsSubsequence(xs, ys[n..])
    ensures IsSubsequence(xs, ys)
    decreases n
  {
    if n > 0 {
      assert ys[1..][n - 1..] == ys[n..];
      SubsequenceOfSuffix(xs, ys[1..], n - 1);
    }
  }

  /** Operands already collected are kept, and the new ones are tokens of the
      input in the order they were encountered. */
  lemma {:induction false} OperandsInOrder(st: ScanState, rest: seq<string>, ignoreUnknown: bool, parse: NumberParser)
    ensures var r := Run(st, rest, ignoreUnknown, parse);
      st.operands <= r.operands && IsSubsequence(r.operands[|st.operands|..], rest)
    decreases |rest|
  {
    if rest == [] || st.ec.Some? {
      RunDone(st, rest, ignoreUnknown, parse);
    } else {
      var step := Step(st, rest, ignoreUnknown, parse);
      var next, n := step.0, step.1;
      OperandsInOrder(next, rest[n..], ignoreUnknown, parse);
      var r := Run(next, rest[n..], ignoreUnknown, parse);
      RunUnfold(st, rest, ignoreUnknown, parse);
      var added := r.operands[|next.operands|..];
      if next.operands == st.operands {
        SubsequenceOfSuffix(added, rest, n);
      } else {
        var xs := r.operands[|st.operands|..];
        assert n == 1 && next.operands == st.operands + [rest[0]];
        assert xs[0] == rest[0] && xs[1..] == added;
        assert IsSubsequence(xs[1..], rest[1..]);
      }
    }
  }

  // ------------------------------------------------------------------
  // Long options

  /** Counting option j and handing it a non-empty argument raises its count
      by one, stores the converted argument, and leaves every other option as
      it was. */
  lemma CountAndAssign(st: ScanState, j: nat, v: string, parse: NumberParser)
    requires j < |st.options| && st.options[j].kind.Valued? && v != []
    ensures var after := Assign(Occur(st, j), j, v, parse);
      && after.options[j].seen == st.options[j].seen + 1
      && after.options[j].value == Some(Convert(st.options[j].kind.vt, v, parse).0)
      && SameDeclaration(after.options[j], st.options[j])
      && (forall k | 0 <= k < |st.options| && k != j :: after.options[k] == st.options[k])
  {
  }

  /** The text after "--" in "--name" and in "--name=" + inline. */
  lemma LongToken(name: string, inline: string, tok: string)
    requires '=' !in name
    requires tok == "--" + name + "=" + inline || (inline == [] && tok == "--" + name)
    ensures |tok| >= 2 && tok[0] == '-' && tok[1] == '-'
    ensures SplitAtEq(tok[2..]) == (name, inline)
  {
    if tok == "--" + name + "=" + inline {
      assert tok[2..] == name + ['='] + inline;
      SplitAtFirstEq(name, inline);
    } else {
      assert tok[2..] == name;
    }
  }

  /** Reading "--name" or "--name=inline" for a declared value-bearing
      option counts it and takes its argument. */
  lemma LongValuedStep(st: ScanState, name: string, inline: string, rest: seq<string>, ignoreUnknown: bool, parse: NumberParser)
    requires st.mode == ScanningOptions
    requires name != [] && '=' !in name
    requires FindByName(st.options, name).Some?
    requires st.options[FindByName(st.options, name).value].kind.Valued?
    requires rest != [] && (rest[0] == "--" + name + "=" + inline || (inline == [] && rest[0] == "--" + name))
    ensures var j := FindByName(st.options, name).value;
      Step(st, rest, ignoreUnknown, parse) == TakeArgument(Occur(st, j), j, inline, rest, parse)
  {
    LongToken(name, inline, rest[0]);
    StepLong(st, rest, ignoreUnknown, parse);
  }

  /** Reading "--name" or "--name=inline" for a declared flag counts it, and
      refuses a non-empty inline argument. */
  lemma LongFlagStep(st: ScanState, name: string, inline: string, rest: seq<string>, ignoreUnknown: bool, parse: NumberParser)
    requires st.mode == ScanningOptions
    requires name != [] && '=' !in name
    requires FindByName(st.options, name).Some?
    requires st.options[FindByName(st.options, name).value].kind == Flag
    requires rest != [] && (rest[0] == "--" + name + "=" + inline || (inline == [] && rest[0] == "--" + name))
    ensures var counted := Occur(st, FindByName(st.options, name).value);
      Step(st, rest, ignoreUnknown, parse)
        == (if inline != [] then counted.(ec := Some(OptionDoesNotAcceptArgument)) else counted, 1)
  {
    LongToken(name, inline, rest[0]);
    StepLong(st, rest, ignoreUnknown, parse);
  }

  /** "--name=value" for a value-bearing option counts it and stores the
      converted value. */
  lemma LongInline(st: ScanState, name: string, v: string, post: seq<string>, ignoreUnknown: bool, parse: NumberParser)
    requires st.mode == ScanningOptions && st.ec.None?
    requires name != [] && '=' !in name && v != []
    requires FindByName(st.options, name).Some?
    requires st.options[FindByName(st.options, name).value].kind.Valued?
    ensures var j := FindByName(st.options, name).value;
      Run(st, ["--" + name + "=" + v] + post, ignoreUnknown, parse) == Run(Assign(Occur(st, j), j, v, parse), post, ignoreUnknown, parse)
  {
    var rest := ["--" + name + "=" + v] + post;
    LongValuedStep(st, name, v, rest, ignoreUnknown, parse);
    RunUnfold(st, rest, ignoreUnknown, parse);
    assert rest[1..] == post;
  }

  /** "--name value" for a value-bearing option takes the next token whole,
      even when it starts with '-'. */
  lemma LongSeparate(st: ScanState, name: string, v: string, post: seq<string>, ignoreUnknown: bool, parse: NumberParser)
    requires st.mode == ScanningOptions && st.ec.None?
    requires name != [] && '=' !in name
    requires FindByName(st.options, name).Some?
    requires st.options[FindByName(st.options, name).value].kind.Valued?
    ensures var j := FindByName(st.options, name).value;
      Run(st, ["--" + name, v] + post, ignoreUnknown, parse) == Run(Assign(Occur(st, j), j, v, parse), post, ignoreUnknown, parse)
  {
    var rest := ["--" + name, v] + post;
    LongValuedStep(st, name, [], rest, ignoreUnknown, parse);
    RunUnfold(st, rest, ignoreUnknown, parse);
    assert rest[1] == v && rest[2..] == post;
  }

  /** "--name=" with an empty inline argument behaves as "--name": it too
      takes the next token as the argument. */
  lemma LongEmptyInlineTakesNext(st: ScanState, name: string, v: string, post: seq<string>, ignoreUnknown: bool, parse: NumberParser)
    requires st.mode == ScanningOptions && st.ec.None?
    requires name != [] && '=' !in name
    requires FindByName(st.options, name).Some?
    requires st.options[FindByName(st.options, name).value].kind.Valued?
    ensures var j := FindByName(st.options, name).value;
      Run(st, ["--" + name + "=", v] + post, ignoreUnknown, parse) == Run(Assign(Occur(st, j), j, v, parse), post, ignoreUnknown, parse)
  {
    var rest := ["--" + name + "=", v] + post;
    assert rest[0] == "--" + name + "=" + [];
    LongValuedStep(st, name, [], rest, ignoreUnknown, parse);
    RunUnfold(st, rest, ignoreUnknown, parse);
    assert rest[1] == v && rest[2..] == post;
  }

  /** For a value-bearing option, "--name=value" and "--name value" lead to
      the same state, the one CountAndAssign describes: one more occurrence
      and the converted value stored. */
  lemma LongInlineEqualsSeparate(st: ScanState, name: string, v: string, post: seq<string>, ignoreUnknown: bool, parse: NumberParser)
    requires st.mode == ScanningOptions && st.ec.None?
    requires name != [] && '=' !in name && v != []
    requires FindByName(st.options, name).Some?
    requires st.options[FindByName(st.options, name).value].kind.Valued?
    ensures Run(st, ["--" + name + "=" + v] + post, ignoreUnknown, parse) == Run(st, ["--" + name, v] + post, ignoreUnknown, parse)
  {
    LongInline(st, name, v, post, ignoreUnknown, parse);
    LongSeparate(st, name, v, post, ignoreUnknown, parse);
  }

  /** "--flag" and "--flag=" with an empty inline argument both count the
      flag once and go on. */
  lemma LongFlag(st: ScanState, name: string, post: seq<string>, ignoreUnknown: bool, parse: NumberParser)
    requires st.mode == ScanningOptions && st.ec.None?
    requires name != [] && '=' !in name
    requires FindByName(st.options, name).Some?
    requires st.options[FindByName(st.options, name).value].kind == Flag
    ensures var counted := Occur(st, FindByName(st.options, name).value);
      && Run(st, ["--" + name] + post, ignoreUnknown, parse) == Run(counted, post, ignoreUnknown, parse)
      && Run(st, ["--" + name + "="] + post, ignoreUnknown, parse) == Run(counted, post, ignoreUnknown, parse)
  {
    var rest1 := ["--" + name] + post;
    LongFlagStep(st, name, [], rest1, ignoreUnknown, parse);
    RunUnfold(st, rest1, ignoreUnknown, parse);
    assert rest1[1..] == post;
    var rest2 := ["--" + name + "="] + post;
    assert rest2[0] == "--" + name + "=" + [];
    LongFlagStep(st, name, [], rest2, ignoreUnknown, parse);
    RunUnfold(st, rest2, ignoreUnknown, parse);
    assert rest2[1..] == post;
  }

  /** A flag given a non-empty inline argument is still counted, and the
      scan stops with option_does_not_accept_argument. */
  lemma LongFlagWithArgument(st: ScanState, name: string, v: string, post: seq<string>, ignoreUnknown: bool, parse: NumberParser)
    requires st.mode == ScanningOptions && st.ec.None?
    requires name != [] && '=' !in name && v != []
    requires FindByName(st.options, name).Some?
    requires st.options[FindByName(st.options, name).value].kind == Flag
    ensures Run(st, ["--" + name + "=" + v] + post, ignoreUnknown, parse)
      == Occur(st, FindByName(st.options, name).value).(ec := Some(OptionDoesNotAcceptArgument))
  {
    var rest := ["--" + name + "=" + v] + post;
    LongFlagStep(st, name, v, rest, ignoreUnknown, parse);
    RunUnfold(st, rest, ignoreUnknown, parse);
  }

  /** A value-bearing option with no inline argument and either no next
      token or an empty next token is counted, and the scan stops with
      missing_argument_for_option. */
  lemma LongMissingArgument(st: ScanState, name: string, post: seq<string>, ignoreUnknown: bool, parse: NumberParser)
    requires st.mode == ScanningOptions && st.ec.None?
    requires name != [] && '=' !in name
    requires FindByName(st.options, name).Some?
    requires st.options[FindByName(st.options, name).value].kind.Valued?
    ensures var missing := Occur(st, FindByName(st.options, name).value).(ec := Some(MissingArgumentForOption));
      && Run(st, ["--" + name], ignoreUnknown, parse) == missing
      && Run(st, ["--" + name + "="], ignoreUnknown, parse) == missing
      && Run(st, ["--" + name, ""] + post, ignoreUnknown, parse) == missing
  {
    var rest1 := ["--" + name];
    LongValuedStep(st, name, [], rest1, ignoreUnknown, parse);
    RunUnfold(st, rest1, ignoreUnknown, parse);
    var rest2 := ["--" + name + "="];
    assert rest2[0] == "--" + name + "=" + [];
    LongValuedStep(st, name, [], rest2, ignoreUnknown, parse);
    RunUnfold(st, rest2, ignoreUnknown, parse);
    var rest3 := ["--" + name, ""] + post;
    LongValuedStep(st, name, [], rest3, ignoreUnknown, parse);
    RunUnfold(st, rest3, ignoreUnknown, parse);
    assert rest3[1] == "";
  }

  /** An unknown long name stops the scan with unknown_option, or, when
      unknown options are ignored, the token is skipped without a trace. */
  lemma UnknownLongOption(st: ScanState, body: string, post: seq<string>, parse: NumberParser)
    requires st.mode == ScanningOptions && st.ec.None?
    requires body != []
    requires FindByName(st.options, SplitAtEq(body).0).None?
    ensures Run(st, ["--" + body] + post, false, parse) == st.(ec := Some(UnknownOption))
    ensures Run(st, ["--" + body] + post, true, parse) == Run(st, post, true, parse)
  {
    var tok := "--" + body;
    var rest := [tok] + post;
    assert tok[2..] == body && |tok| > 2;
    assert rest[0] == tok && rest[1..] == post;
    assert Step(st, rest, false, parse) == (st.(ec := Some(UnknownOption)), 1) by {
      StepLong(st, rest, false, parse);
    }
    RunUnfold(st, rest, false, parse);
    assert Step(st, rest, true, parse) == (st, 1) by {
      StepLong(st, rest, true, parse);
    }
    RunUnfold(st, rest, true, parse);
  }

  /** When reading a token sets an error, nothing after it is read. */
  lemma FirstErrorStops(st: ScanState, rest: seq<string>, ignoreUnknown: bool, parse: NumberParser)
    requires rest != [] && st.ec.None?
    requires Step(st, rest, ignoreUnknown, parse).0.ec.Some?
    ensures Run(st, rest, ignoreUnknown, parse) == Step(st, rest, ignoreUnknown, parse).0
  {
    RunUnfold(st, rest, ignoreUnknown, parse);
    var step := Step(st, rest, ignoreUnknown, parse);
    RunDone(step.0, rest[step.1..], ignoreUnknown, parse);
  }

  // ------------------------------------------------------------------
  // Short clusters

  /** c is the short name of a declared flag (the "no short name" character
      never is: it cannot occur in a C string). */
  predicate KnownFlag(opts: seq<OptionRecord>, c: char)
  {
    c != NoShort && FindByShort(opts, c).Some? && opts[FindByShort(opts, c).value].kind == Flag
  }

  predicate AllKnownFlags(opts: seq<OptionRecord>, s: string)
  {
    forall k | 0 <= k < |s| :: KnownFlag(opts, s[k])
  }

  /** How many characters of s resolve to option j. */
  function Hits(opts: seq<OptionRecord>, s: string, j: nat): nat
    decreases |s|
  {
    if s == [] then 0
    else (if FindByShort(opts, s[0]) == Some(j) then 1 else 0) + Hits(opts, s[1..], j)
  }

  lemma {:induction false} HitsStable(a: seq<OptionRecord>, b: seq<OptionRecord>, s: string, j: nat)
    requires SameDeclarations(a, b)
    ensures Hits(a, s, j) == Hits(b, s, j)
    decreases |s|
  {
    if s != [] {
      LookupStable(a, b, [], s[0]);
      HitsStable(a, b, s[1..], j);
    }
  }

  /** Counting one occurrence keeps what every character resolves to. */
  lemma BumpKeepsLookups(opts: seq<OptionRecord>, h: nat, s: string)
    requires h < |opts|
    ensures SameDeclarations(opts, opts[h := Bump(opts[h])])
    ensures AllKnownFlags(opts, s) ==> AllKnownFlags(opts[h := Bump(opts[h])], s)
  {
    var bumped := opts[h := Bump(opts[h])];
    assert SameDeclarations(opts, bumped);
    forall k | 0 <= k < |s|
      ensures FindByShort(opts, s[k]) == FindByShort(bumped, s[k])
    {
      LookupStable(opts, bumped, [], s[k]);
    }
  }

  /** A cluster starting with a known flag counts it and goes on with the
      rest, which is still made of known flags when the whole was. */
  lemma ClusterFlagStep(opts: seq<OptionRecord>, s: string, ignoreUnknown: bool)
    requires s != [] && KnownFlag(opts, s[0])
    ensures var h := FindByShort(opts, s[0]).value;
      && h < |opts|
      && Cluster(opts, s, ignoreUnknown) == Cluster(opts[h := Bump(opts[h])], s[1..], ignoreUnknown)
      && SameDeclarations(opts, opts[h := Bump(opts[h])])
      && (AllKnownFlags(opts, s) ==> AllKnownFlags(opts[h := Bump(opts[h])], s[1..]))
  {
    var h := FindByShort(opts, s[0]).value;
    if AllKnownFlags(opts, s) {
      assert AllKnownFlags(opts, s[1..]) by {
        forall k | 0 <= k < |s| - 1 ensures KnownFlag(opts, s[1..][k]) {
          assert s[1..][k] == s[k + 1];
        }
      }
    }
    BumpKeepsLookups(opts, h, s[1..]);
  }

  /** Splitting off the first character of a cluster built by concatenation. */
  lemma ConsFront(flags: string, mid: string, tail: string)
    requires flags != []
    ensures (flags + mid + tail)[0] == flags[0]
    ensures (flags + mid + tail)[1..] == flags[1..] + mid + tail
  {
  }

  /** A cluster of known flags counts each flag once per occurrence of its
      character, and changes nothing else. */
  lemma {:induction false} ClusterCountsFlags(opts: seq<OptionRecord>, s: string, ignoreUnknown: bool, j: nat)
    requires AllKnownFlags(opts, s)
    requires j < |opts|
    ensures var r := Cluster(opts, s, ignoreUnknown);
      && r.ec.None? && r.pending.None? && |r.options| == |opts|
      && r.options[j] == opts[j].(seen := opts[j].seen + Hits(opts, s, j))
    decreases |s|
  {
    if s != [] {
      assert KnownFlag(opts, s[0]);
      var h := FindByShort(opts, s[0]).value;
      var bumped := opts[h := Bump(opts[h])];
      ClusterFlagStep(opts, s, ignoreUnknown);
      HitsStable(opts, bumped, s[1..], j);
      ClusterCountsFlags(bumped, s[1..], ignoreUnknown, j);
    }
  }

  /** The first value-bearing option ends the cluster: the flags before it
      are counted, it is counted, and the rest of the token is its argument;
      the characters after it are not looked up. */
  lemma {:induction false} ClusterStopsAtValue(opts: seq<OptionRecord>, flags: string, c: char, tail: string, ignoreUnknown: bool)
    requires AllKnownFlags(opts, flags)
    requires c != NoShort && FindByShort(opts, c).Some? && opts[FindByShort(opts, c).value].kind.Valued?
    ensures var before := Cluster(opts, flags, ignoreUnknown).options;
      var j := FindByShort(opts, c).value;
      && j < |before|
      && Cluster(opts, flags + [c] + tail, ignoreUnknown)
         == ClusterOutcome(before[j := Bump(before[j])], None, Some(Pending(j, tail)))
    decreases |flags|
  {
    var s := flags + [c] + tail;
    if flags == [] {
      assert s[0] == c && s[1..] == tail;
    } else {
      assert KnownFlag(opts, flags[0]);
      var h := FindByShort(opts, flags[0]).value;
      var bumped := opts[h := Bump(opts[h])];
      var j := FindByShort(opts, c).value;
      ConsFront(flags, [c], tail);
      ClusterFlagStep(opts, flags, ignoreUnknown);
      ClusterFlagStep(opts, s, ignoreUnknown);
      LookupStable(opts, bumped, [], c);
      assert SameDeclaration(bumped[j], opts[j]);
      ClusterStopsAtValue(bumped, flags[1..], c, tail, ignoreUnknown);
    }
  }

  /** When unknown options are ignored, an unknown character in a cluster
      is skipped as if absent. */
  lemma {:induction false} ClusterSkipsUnknown(opts: seq<OptionRecord>, flags: string, c: char, post: string)
    requires AllKnownFlags(opts, flags)
    requires FindByShort(opts, c).None?
    ensures Cluster(opts, flags + [c] + post, true) == Cluster(opts, flags + post, true)
    decreases |flags|
  {
    var s := flags + [c] + post;
    if flags == [] {
      assert s[0] == c && s[1..] == post;
      assert Cluster(opts, s, true) == Cluster(opts, post, true);
      assert flags + post == post;
    } else {
      assert KnownFlag(opts, flags[0]);
      var h := FindByShort(opts, flags[0]).value;
      var bumped := opts[h := Bump(opts[h])];
      var joined := flags + post;
      ConsFront(flags, [c], post);
      assert joined[0] == flags[0] && joined[1..] == flags[1..] + post;
      ClusterFlagStep(opts, flags, true);
      assert Cluster(opts, s, true) == Cluster(bumped, flags[1..] + [c] + post, true) by {
        ClusterFlagStep(opts, s, true);
      }
      assert Cluster(opts, joined, true) == Cluster(bumped, flags[1..] + post, true) by {
        ClusterFlagStep(opts, joined, true);
      }
      LookupStable(opts, bumped, [], c);
      ClusterSkipsUnknown(bumped, flags[1..], c, post);
    }
  }

  /** Otherwise an unknown character after known flags stops the cluster
      with unknown_option, and the flags before it stay counted. */
  lemma {:induction false} ClusterUnknownStops(opts: seq<OptionRecord>, flags: string, c: char, post: string)
    requires AllKnownFlags(opts, flags)
    requires FindByShort(opts, c).None?
    ensures Cluster(opts, flags + [c] + post, false)
      == ClusterOutcome(Cluster(opts, flags, false).options, Some(UnknownOption), None)
    decreases |flags|
  {
    var s := flags + [c] + post;
    if flags == [] {
      assert s[0] == c;
    } else {
      assert KnownFlag(opts, flags[0]);
      var h := FindByShort(opts, flags[0]).value;
      var bumped := opts[h := Bump(opts[h])];
      ConsFront(flags, [c], post);
      ClusterFlagStep(opts, flags, false);
      ClusterFlagStep(opts, s, false);
      LookupStable(opts, bumped, [], c);
      ClusterUnknownStops(bumped, flags[1..], c, post);
    }
  }

  /** The shape of a short-cluster token "-" + flags + c + a. */
  lemma DashToken(flags: string, c: char, a: string)
    requires (flags + [c])[0] != '-'
    ensures var tok := ['-'] + flags + [c] + a;
      tok[0] == '-' && tok[1] != '-' && tok[1..] == flags + [c] + a
  {
    var tok := ['-'] + flags + [c] + a;
    assert tok == ['-'] + (flags + [c] + a);
    assert tok[1] == (flags + [c])[0];
  }

  /** The state after "-" + flags + c, with the flags before c counted and c
      counted, and the step that reads that token when c has argument a. */
  lemma ShortStep(st: ScanState, flags: string, c: char, a: string, rest: seq<string>, ignoreUnknown: bool, parse: NumberParser)
    requires st.mode == ScanningOptions
    requires AllKnownFlags(st.options, flags)
    requires c != NoShort && FindByShort(st.options, c).Some? && st.options[FindByShort(st.options, c).value].kind.Valued?
    requires (flags + [c])[0] != '-'
    requires rest != [] && rest[0] == ['-'] + flags + [c] + a
    ensures var before := Cluster(st.options, flags, ignoreUnknown).options;
      var j := FindByShort(st.options, c).value;
      && j < |before| && before[j].kind.Valued?
      && Step(st, rest, ignoreUnknown, parse)
         == TakeArgument(st.(options := before[j := Bump(before[j])]), j, a, rest, parse)
  {
    var j := FindByShort(st.options, c).value;
    ClusterStopsAtValue(st.options, flags, c, a, ignoreUnknown);
    var before := Cluster(st.options, flags, ignoreUnknown).options;
    assert SameDeclaration(before[j], st.options[j]);
    var counted := st.(options := before[j := Bump(before[j])]);
    var tok := rest[0];
    DashToken(flags, c, a);
    assert ShortOptions(st, tok[1..], rest, ignoreUnknown, parse) == TakeArgument(counted, j, a, rest, parse) by {
      assert Cluster(st.options, tok[1..], ignoreUnknown) == ClusterOutcome(counted.options, None, Some(Pending(j, a)));
    }
    StepShort(st, rest, ignoreUnknown, parse);
  }

  /** "-abcARG", with a and b flags and c value-bearing: a and b counted, c
      counted and given ARG. */
  lemma ShortInline(st: ScanState, flags: string, c: char, a: string, post: seq<string>, ignoreUnknown: bool, parse: NumberParser)
    requires st.mode == ScanningOptions && st.ec.None?
    requires AllKnownFlags(st.options, flags)
    requires c != NoShort && FindByShort(st.options, c).Some? && st.options[FindByShort(st.options, c).value].kind.Valued?
    requires (flags + [c])[0] != '-'
    requires a != []
    ensures var before := Cluster(st.options, flags, ignoreUnknown).options;
      var j := FindByShort(st.options, c).value;
      j < |before| && before[j].kind.Valued? &&
      var counted := st.(options := before[j := Bump(before[j])]);
      Run(st, [['-'] + flags + [c] + a] + post, ignoreUnknown, parse) == Run(Assign(counted, j, a, parse), post, ignoreUnknown, parse)
  {
    var rest := [['-'] + flags + [c] + a] + post;
    ShortStep(st, flags, c, a, rest, ignoreUnknown, parse);
    RunUnfold(st, rest, ignoreUnknown, parse);
    assert rest[1..] == post;
  }

  /** "-abc ARG" leads to the same state as "-abcARG"; the next token is
      taken even when it starts with '-'. */
  lemma ShortSeparate(st: ScanState, flags: string, c: char, a: string, post: seq<string>, ignoreUnknown: bool, parse: NumberParser)
    requires st.mode == ScanningOptions && st.ec.None?
    requires AllKnownFlags(st.options, flags)
    requires c != NoShort && FindByShort(st.options, c).Some? && st.options[FindByShort(st.options, c).value].kind.Valued?
    requires (flags + [c])[0] != '-'
    ensures var before := Cluster(st.options, flags, ignoreUnknown).options;
      var j := FindByShort(st.options, c).value;
      j < |before| && before[j].kind.Valued? &&
      var counted := st.(options := before[j := Bump(before[j])]);
      Run(st, [['-'] + flags + [c], a] + post, ignoreUnknown, parse) == Run(Assign(counted, j, a, parse), post, ignoreUnknown, parse)
  {
    var rest := [['-'] + flags + [c], a] + post;
    assert rest[0] == ['-'] + flags + [c] + [];
    ShortStep(st, flags, c, [], rest, ignoreUnknown, parse);
    RunUnfold(st, rest, ignoreUnknown, parse);
    assert rest[1] == a && rest[2..] == post;
  }

  /** "-abc" as the last token leaves c missing its argument. */
  lemma ShortMissingArgument(st: ScanState, flags: string, c: char, ignoreUnknown: bool, parse: NumberParser)
    requires st.mode == ScanningOptions && st.ec.None?
    requires AllKnownFlags(st.options, flags)
    requires c != NoShort && FindByShort(st.options, c).Some? && st.options[FindByShort(st.options, c).value].kind.Valued?
    requires (flags + [c])[0] != '-'
    ensures var before := Cluster(st.options, flags, ignoreUnknown).options;
      var j := FindByShort(st.options, c).value;
      j < |before| &&
      Run(st, [['-'] + flags + [c]], ignoreUnknown, parse)
        == st.(options := before[j := Bump(before[j])], ec := Some(MissingArgumentForOption))
  {
    var rest := [['-'] + flags + [c]];
    assert rest[0] == ['-'] + flags + [c] + [];
    ShortStep(st, flags, c, [], rest, ignoreUnknown, parse);
    RunUnfold(st, rest, ignoreUnknown, parse);
  }

  // ------------------------------------------------------------------
  // Counting a flag

  /** t spells flag `name`/`c` in long form, or in short form when the
      flag has a short character. */
  predicate FlagSpelling(t: string, name: string, c: char)
  {
    t == "--" + name || (c != NoShort && t == ['-', c])
  }

  /** How many tokens spell the flag. */
  function FlagOccurrences(rest: seq<string>, name: string, c: char): nat
    decreases |rest|
  {
    if rest == [] then 0
    else (if FlagSpelling(rest[0], name, c) then 1 else 0) + FlagOccurrences(rest[1..], name, c)
  }

  /** One token of such a vector: a spelling of the flag counts it once,
      anything else is an operand. */
  lemma FlagCountStep(st: ScanState, rest: seq<string>, name: string, c: char, j: nat, ignoreUnknown: bool, parse: NumberParser)
    requires st.mode == ScanningOptions
    requires FirstNamed(st.options, name, j) && st.options[j].kind == Flag && st.options[j].shortName == c
    requires name != [] && '=' !in name
    requires c != NoShort ==> FirstShort(st.options, c, j) && c != '-'
    requires rest != [] && (FlagSpelling(rest[0], name, c) || rest[0] == [] || rest[0][0] != '-')
    ensures Step(st, rest, ignoreUnknown, parse)
      == (if FlagSpelling(rest[0], name, c) then Occur(st, j) else st.(operands := st.operands + [rest[0]]), 1)
  {
    var t := rest[0];
    if FlagSpelling(t, name, c) {
      FirstNamedUnique(st.options, name, j);
      var next := Occur(st, j);
      if t == "--" + name {
        assert t[2..] == name;
        assert '=' !in name;
        StepLong(st, rest, ignoreUnknown, parse);
      } else {
        FirstShortUnique(st.options, c, j);
        assert t[1..] == [c] && t != "--" && t[1] != '-';
        assert Cluster(st.options, [c], ignoreUnknown) == Cluster(next.options, [], ignoreUnknown);
        StepShort(st, rest, ignoreUnknown, parse);
      }
    }
  }

  /** Over a vector holding only operands and the flag's own spellings, in
      any mix of long and short form, the flag's count goes up by the number
      of its spellings and no error is raised. */
  lemma {:induction false} FlagCount(st: ScanState, rest: seq<string>, name: string, c: char, j: nat, ignoreUnknown: bool, parse: NumberParser)
    requires st.mode == ScanningOptions && st.ec.None?
    requires FirstNamed(st.options, name, j) && st.options[j].kind == Flag && st.options[j].shortName == c
    requires name != [] && '=' !in name
    requires c != NoShort ==> FirstShort(st.options, c, j) && c != '-'
    requires forall k | 0 <= k < |rest| :: FlagSpelling(rest[k], name, c) || rest[k] == [] || rest[k][0] != '-'
    ensures var r := Run(st, rest, ignoreUnknown, parse);
      j < |r.options| && r.ec.None? && r.mode == ScanningOptions && r.options[j].seen == st.options[j].seen + FlagOccurrences(rest, name, c)
    decreases |rest|
  {
    if rest == [] {
      RunDone(st, rest, ignoreUnknown, parse);
    } else {
      var next := if FlagSpelling(rest[0], name, c) then Occur(st, j) else st.(operands := st.operands + [rest[0]]);
      assert Run(st, rest, ignoreUnknown, parse) == Run(next, rest[1..], ignoreUnknown, parse) by {
        FlagCountStep(st, rest, name, c, j, ignoreUnknown, parse);
        RunUnfold(st, rest, ignoreUnknown, parse);
      }
      assert next.options[j].seen == st.options[j].seen + (if FlagSpelling(rest[0], name, c) then 1 else 0);
      assert FirstNamed(next.options, name, j) && next.options[j].shortName == c;
      assert c != NoShort ==> FirstShort(next.options, c, j);
      assert forall k | 0 <= k < |rest[1..]| :: rest[1..][k] == rest[k + 1];
      FlagCount(next, rest[1..], name, c, j, ignoreUnknown, parse);
    }
  }
}
