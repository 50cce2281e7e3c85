/** The optional value used wherever the app returns `nil` or an optional case. */
module Wrappers {
  datatype Option<+T> = None | Some(value: T)
}

/**
 * The closed enumeration of photo groups.
 *
 * The app declares `PhotoGroup` as a `String`-backed enumeration with
 * `allCases`, `rawValue` and `init?(rawValue:)`. Its declaration is not part
 * of this model, so the model uses a stand-in with four cases whose raw values
 * are distinct one-letter lower-case names. Apart from the distinctness of
 * the labels the main screen lists, nothing proved elsewhere depends on the
 * number or the names of the cases: only on `AllCases` listing every case
 * exactly once and on `FromRawValue` inverting `RawValue`.
 */
module PhotoGroups {
  import opened Wrappers

  datatype PhotoGroup = A | B | C | D

  /** `PhotoGroup.allCases`, in declaration order. */
  const AllCases: seq<PhotoGroup> := [A, B, C, D]

  /** `group.rawValue`. */
  function RawValue(g: PhotoGroup): string
  {
    match g
    case A => "a"
    case B => "b"
    case C => "c"
    case D => "d"
  }

  /** `PhotoGroup(rawValue:)`: the case with that raw value, if any. */
  function FromRawValue(s: string): (r: Option<PhotoGroup>)
    ensures r.Some? ==> RawValue(r.value) == s
    ensures r.None? ==> forall g :: RawValue(g) != s
  {
    if s == "a" then Some(A)
    else if s == "b" then Some(B)
    else if s == "c" then Some(C)
    else if s == "d" then Some(D)
    else None
  }

  /** The position of a case in `allCases`. */
  function CaseIndex(g: PhotoGroup): (i: nat)
    ensures i < |AllCases| && AllCases[i] == g
  {
    match g
    case A => 0
    case B => 1
    case C => 2
    case D => 3
  }

  lemma AllCasesComplete(g: PhotoGroup)
    ensures g in AllCases
  {
    assert AllCases[CaseIndex(g)] == g;
  }

  /** Every case occurs in `allCases` exactly once. */
  lemma AllCasesDistinct(i: int, j: int)
    requires 0 <= i < j < |AllCases|
    ensures AllCases[i] != AllCases[j]
  {
  }

  /** Initialising from the raw value gives the case back. */
  lemma RawValueRoundTrip(g: PhotoGroup)
    ensures FromRawValue(RawValue(g)) == Some(g)
  {
  }

  lemma RawValueInjective(g: PhotoGroup, h: PhotoGroup)
    requires RawValue(g) == RawValue(h)
    ensures g == h
  {
    RawValueRoundTrip(g);
    RawValueRoundTrip(h);
  }
}
