/**
 * Name lookup in the ordered list of option records: a linear first-match
 * search by long name or by short character.
 */
module Registry {
  import opened Wrappers
  import opened Descriptor

  /** j is the first position whose long name is `name`. */
  predicate FirstNamed(opts: seq<OptionRecord>, name: string, j: int)
  {
    && 0 <= j < |opts|
    && opts[j].name == name
    && forall k | 0 <= k < j :: opts[k].name != name
  }

  /** j is the first position whose short character is `c`. */
  predicate FirstShort(opts: seq<OptionRecord>, c: char, j: int)
  {
    && 0 <= j < |opts|
    && opts[j].shortName == c
    && forall k | 0 <= k < j :: opts[k].shortName != c
  }

  /** The position of the first option whose long name is `name`, if any. */
  function FindByName(opts: seq<OptionRecord>, name: string): (r: Option<nat>)
    ensures r.Some? ==> FirstNamed(opts, name, r.value)
    ensures r.None? <==> forall k | 0 <= k < |opts| :: opts[k].name != name
    decreases |opts|
  {
    if opts == [] then None
    else if opts[0].name == name then Some(0)
    else match FindByName(opts[1..], name)
      case None => None
      case Some(j) => Some(j + 1)
  }

  /** The position of the first option whose short character is `c`, if any. */
  function FindByShort(opts: seq<OptionRecord>, c: char): (r: Option<nat>)
    ensures r.Some? ==> FirstShort(opts, c, r.value)
    ensures r.None? <==> forall k | 0 <= k < |opts| :: opts[k].shortName != c
    decreases |opts|
  {
    if opts == [] then None
    else if opts[0].shortName == c then Some(0)
    else match FindByShort(opts[1..], c)
      case None => None
      case Some(j) => Some(j + 1)
  }

  /** The first match is the only position that is a first match (by name
      and by short character). */
  lemma FirstNamedUnique(opts: seq<OptionRecord>, name: string, j: int)
    requires FirstNamed(opts, name, j)
    ensures FindByName(opts, name) == Some(j)
  {
  }

  lemma FirstShortUnique(opts: seq<OptionRecord>, c: char, j: int)
    requires FirstShort(opts, c, j)
    ensures FindByShort(opts, c) == Some(j)
  {
  }

  /** Two records lists that agree on their declarations. */
  predicate SameDeclarations(a: seq<OptionRecord>, b: seq<OptionRecord>)
  {
    |a| == |b| && forall k | 0 <= k < |a| :: SameDeclaration(a[k], b[k])
  }

  /** Lookups depend only on the declarations, so counting occurrences and
      storing values never changes what a name or character resolves to. */
  lemma {:induction false} LookupStable(a: seq<OptionRecord>, b: seq<OptionRecord>, name: string, c: char)
    requires SameDeclarations(a, b)
    ensures FindByName(a, name) == FindByName(b, name)
    ensures FindByShort(a, c) == FindByShort(b, c)
    decreases |a|
  {
    if a != [] {
      assert SameDeclaration(a[0], b[0]);
      assert SameDeclarations(a[1..], b[1..]) by {
        forall k | 0 <= k < |a| - 1
          ensures SameDeclaration(a[1..][k], b[1..][k])
        {
          assert SameDeclaration(a[k + 1], b[k + 1]);
        }
      }
      LookupStable(a[1..], b[1..], name, c);
    }
  }
}
