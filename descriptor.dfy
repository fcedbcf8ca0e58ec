/**
 * One declared option: its spelling (long name and optional short character),
 * its kind (flag or value-bearing, and then of which value type), its default,
 * how often it was seen, and the value it currently holds.
 * Also the per-type conversion of an argument string into a value.
 */
module Descriptor {
  import opened Wrappers

  /** The value types an option may be declared with (arithmetic, string, path). */
  datatype ValueType = Numeric | Text | FilePath

  /** A flag takes no argument; any other option takes one of a value type. */
  datatype Kind = Flag | Valued(vt: ValueType)

  /** A closed tagged value, one constructor per value type. */
  datatype Value = Int(i: int) | Str(s: string) | Path(p: string)

  function TypeOf(v: Value): ValueType
  {
    match v
    case Int(_) => Numeric
    case Str(_) => Text
    case Path(_) => FilePath
  }

  /** The standard error codes that numeric conversion can report. */
  datatype Errc = InvalidArgument | ResultOutOfRange

  /** The error codes of the configuration category, plus a conversion
      error carrying the standard code. */
  datatype ConfigError =
    | UnknownOption
    | OptionDoesNotAcceptArgument
    | MissingArgumentForOption
    | OptionNotSpecified
    | Conversion(errc: Errc)

  /** What the numeric parser reports: a value (indeterminate when `ec` is set)
      and an error code. Where the parse stopped is not part of the result,
      because the caller never looks at it. */
  datatype FromChars = FromChars(value: int, ec: Option<Errc>)

  /** The numeric text-to-value parser, which lives outside this model. */
  type NumberParser = string -> FromChars

  /** The "no short name" character. */
  const NoShort: char := '\0'

  datatype OptionRecord = OptionRecord(
    name: string,
    desc: string,
    shortName: char,
    kind: Kind,
    hasDefault: bool,
    hidden: bool,
    seen: nat,
    value: Option<Value>)

  /** A flag never holds a value and has no default; a held value has the
      declared type; an option with a default always holds a value. */
  predicate WellFormed(o: OptionRecord)
  {
    && (o.kind == Flag ==> o.value == None && !o.hasDefault)
    && (o.value.Some? ==> o.kind == Valued(TypeOf(o.value.value)))
    && (o.hasDefault ==> o.value.Some?)
  }

  predicate AllWellFormed(opts: seq<OptionRecord>)
  {
    forall k | 0 <= k < |opts| :: WellFormed(opts[k])
  }

  /** Two records agree on their declaration: everything parsing never
      changes (all but the occurrence count and the held value). */
  predicate SameDeclaration(o: OptionRecord, p: OptionRecord)
  {
    && o.name == p.name && o.desc == p.desc && o.shortName == p.shortName
    && o.kind == p.kind && o.hasDefault == p.hasDefault && o.hidden == p.hidden
  }

  /** Splits a spelling "x", "long" or "long,x" into the long name and the
      short character. */
  function SplitName(spelling: string): (r: (string, char))
    // the long name is the spelling itself, or the spelling minus ",x"
    ensures spelling == r.0 || spelling == r.0 + [',', r.1]
    // a one-character spelling is its own short name and keeps its name
    ensures |spelling| == 1 ==> r == (spelling, spelling[0])
    // a suffix is cut exactly when ",x" follows at least one character
    ensures r.0 != spelling <==> |spelling| > 2 && spelling[|spelling| - 2] == ','
    ensures r.0 != spelling ==> |r.0| == |spelling| - 2 && r.1 == spelling[|spelling| - 1]
    // every other spelling has no short name
    ensures r.0 == spelling && |spelling| != 1 ==> r.1 == NoShort
  {
    var n := |spelling|;
    if n == 1 then (spelling, spelling[0])
    else if n > 2 && spelling[n - 2] == ',' then (spelling[..n - 2], spelling[n - 1])
    else (spelling, NoShort)
  }

  /** Spellings are byte strings: a non-ASCII character is given as its UTF-8
      bytes, so "é" (0xC3 0xA9) is two characters long and names no short
      option, and in "long,é" the byte before the last is not ','. */
  lemma SplitNameOnBytes()
    ensures SplitName("\U{C3}\U{A9}") == ("\U{C3}\U{A9}", NoShort)
    ensures SplitName("long,\U{C3}\U{A9}") == ("long,\U{C3}\U{A9}", NoShort)
    ensures SplitName("long,x") == ("long", 'x')
  {
    assert "long,x"[..4] == "long";
  }

  /** An option declared without a default: a flag, or a value-bearing option
      of the given type that holds no value yet. */
  function Declare(spelling: string, desc: string, hidden: bool, kind: Kind): (o: OptionRecord)
    ensures WellFormed(o)
    ensures (o.name, o.shortName) == SplitName(spelling)
    ensures o.kind == kind && !o.hasDefault && o.seen == 0 && o.value == None
    ensures o.desc == desc && o.hidden == hidden
  {
    var (name, short) := SplitName(spelling);
    OptionRecord(name, desc, short, kind, false, hidden, 0, None)
  }

  /** A value-bearing option declared with a default, whose type is the
      default's type; it holds the default from the start. */
  function DeclareWithDefault(spelling: string, default: Value, desc: string, hidden: bool): (o: OptionRecord)
    ensures WellFormed(o)
    ensures (o.name, o.shortName) == SplitName(spelling)
    ensures o.kind == Valued(TypeOf(default)) && o.hasDefault && o.seen == 0
    ensures o.value == Some(default)
    ensures o.desc == desc && o.hidden == hidden
  {
    var (name, short) := SplitName(spelling);
    OptionRecord(name, desc, short, Valued(TypeOf(default)), true, hidden, 0, Some(default))
  }

  /** Converts an argument string to a value of type vt. Strings and paths are
      taken verbatim and never fail; numbers go through the parser, whose
      value is used even when it reports an error. */
  function Convert(vt: ValueType, argument: string, parse: NumberParser): (r: (Value, Option<Errc>))
    ensures TypeOf(r.0) == vt
    ensures vt == Text ==> r == (Str(argument), None)
    ensures vt == FilePath ==> r == (Path(argument), None)
    ensures vt == Numeric ==> r.0 == Int(parse(argument).value) && r.1 == parse(argument).ec
  {
    match vt
    case Numeric =>
      var fc := parse(argument);
      (Int(fc.value), fc.ec)
    case Text => (Str(argument), None)
    case FilePath => (Path(argument), None)
  }

  /** Records one more occurrence. */
  function Bump(o: OptionRecord): (r: OptionRecord)
    ensures SameDeclaration(r, o) && r.value == o.value
    ensures r.seen == o.seen + 1
    ensures WellFormed(o) ==> WellFormed(r)
  {
    o.(seen := o.seen + 1)
  }

  /** Stores the converted argument in a value-bearing option. The stored value
      is overwritten whether or not the conversion reports an error. */
  function SetValue(o: OptionRecord, argument: string, parse: NumberParser): (r: (OptionRecord, Option<Errc>))
    requires o.kind.Valued?
    ensures SameDeclaration(r.0, o) && r.0.seen == o.seen
    ensures r.0.value.Some? && TypeOf(r.0.value.value) == o.kind.vt
    ensures (r.0.value.value, r.1) == Convert(o.kind.vt, argument, parse)
    ensures WellFormed(o) ==> WellFormed(r.0)
  {
    var (v, e) := Convert(o.kind.vt, argument, parse);
    (o.(value := Some(v)), e)
  }
}
