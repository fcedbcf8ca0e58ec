/**
 * The column width an option asks for in the help listing. The listing
 * itself is not modelled; only how wide the label of an option is and how
 * wide its column is reserved.
 */
module Help {
  import opened Descriptor

  /** Width of the label the listing prints for an option: "  ", then "-x"
      (with " [ --name ]" when the long name is longer than one character)
      or "--name", then " arg" for a value-bearing option and " (=default)"
      when it has a default. `defaultText` is the default rendered as text. */
  function LabelWidth(o: OptionRecord, defaultText: string): nat
  {
    var spelling :=
      if o.shortName != NoShort then 2 + (if |o.name| > 1 then 7 + |o.name| else 0)
      else 2 + |o.name|;
    var argument :=
      if o.kind.Valued? then 4 + (if o.hasDefault then 4 + |defaultText| else 0) else 0;
    2 + spelling + argument
  }

  /** The width reserved for an option's column. It always leaves room for
      the label plus the two spaces the listing requires before the
      description starts on the same line. */
  function Width(o: OptionRecord, defaultText: string): (r: nat)
    ensures r >= 8
    ensures r >= LabelWidth(o, defaultText) + 2
    ensures |o.name| > 1 && o.shortName == NoShort ==> r == LabelWidth(o, defaultText) + 2
  {
    var base :=
      if |o.name| <= 1 then 2
      else if o.shortName != NoShort then |o.name| + 7
      else |o.name|;
    var argument :=
      if o.kind.Valued? then 4 + (if o.hasDefault then 4 + |defaultText| else 0) else 0;
    base + argument + 6
  }
}
