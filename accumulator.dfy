/**
 * The in-memory accumulator of a scan, `groups` plus `others`, as the
 * identifiers of the photos it holds, and what the classify loop of
 * `scanAndGroupAllPhotos` does to it.
 */
module Accumulator {
  import opened Wrappers
  import opened PhotoGroups

  /** A photo's `localIdentifier`. */
  type Id = string

  /**
   * `reliableHash()` followed by `PhotoGroup.group(for:)`: a deterministic
   * function from a photo to a group, or to no group.
   */
  type Classifier = Id -> Option<PhotoGroup>

  /** `ScanResult`, and the `groups`/`others` pair the scan mutates. */
  datatype ScanResult = ScanResult(groups: map<PhotoGroup, seq<Id>>, others: seq<Id>)

  /** Every case of the enumeration is a key of `groups`. */
  predicate HasAllKeys(r: ScanResult)
  {
    forall g :: g in r.groups
  }

  /** The accumulator a fresh scan builds: one empty list per case, no others. */
  function Fresh(): (r: ScanResult)
    ensures HasAllKeys(r)
    ensures forall g :: r.groups[g] == []
    ensures r.others == []
  {
    var r := ScanResult(map g | g in AllCases :: [], []);
    assert forall g :: g in r.groups by {
      forall g ensures g in r.groups { AllCasesComplete(g); }
    }
    r
  }

  /**
   * One iteration of the classify loop: the identifier goes to the end of the
   * list of its group, or of `others` when it matches no group. Optional
   * chaining on `groups[group]?.append` does nothing when the key is absent.
   */
  function Step(acc: ScanResult, id: Id, classify: Classifier): (r: ScanResult)
    ensures r.groups.Keys == acc.groups.Keys
  {
    match classify(id)
    case Some(g) =>
      if g in acc.groups then acc.(groups := acc.groups[g := acc.groups[g] + [id]]) else acc
    case None => acc.(others := acc.others + [id])
  }

  /** The accumulator after the loop has processed `ids` in order, starting from `acc`. */
  function Accumulate(acc: ScanResult, ids: seq<Id>, classify: Classifier): ScanResult
    decreases |ids|
  {
    if ids == [] then acc
    else Step(Accumulate(acc, ids[..|ids| - 1], classify), ids[|ids| - 1], classify)
  }

  /** The identifiers of `ids`, in order, whose classification is `target`. */
  function Select(ids: seq<Id>, classify: Classifier, target: Option<PhotoGroup>): seq<Id>
    decreases |ids|
  {
    if ids == [] then []
    else Select(ids[..|ids| - 1], classify, target)
         + (if classify(ids[|ids| - 1]) == target then [ids[|ids| - 1]] else [])
  }

  /** The number of photos a result lists for a group; an absent key counts 0. */
  function CountOf(r: ScanResult, g: PhotoGroup): (n: nat)
    ensures n > 0 ==> g in r.groups
  {
    if g in r.groups then |r.groups[g]| else 0
  }

  /** The sum of `CountOf` over a list of cases. */
  function CountOver(r: ScanResult, cases: seq<PhotoGroup>): nat
    decreases |cases|
  {
    if cases == [] then 0
    else CountOver(r, cases[..|cases| - 1]) + CountOf(r, cases[|cases| - 1])
  }

  /** The number of identifiers a result holds, over every group and `others`. */
  function Size(r: ScanResult): nat
  {
    CountOver(r, AllCases) + |r.others|
  }

  /** Membership in a selection: exactly the listed identifiers with that classification. */
  lemma {:induction false} SelectMembers(ids: seq<Id>, classify: Classifier, target: Option<PhotoGroup>, x: Id)
    ensures x in Select(ids, classify, target) <==> x in ids && classify(x) == target
    decreases |ids|
  {
    if ids != [] {
      var init := ids[..|ids| - 1];
      SelectMembers(init, classify, target, x);
      assert ids == init + [ids[|ids| - 1]];
    }
  }

  /**
   * The loop invariant of the classify loop: while every key is present, each
   * group's list grows by exactly the processed identifiers of that group, and
   * `others` by exactly the unmatched ones, both in processing order.
   */
  lemma {:induction false} AccumulateAppends(acc: ScanResult, ids: seq<Id>, classify: Classifier)
    requires HasAllKeys(acc)
    ensures HasAllKeys(Accumulate(acc, ids, classify))
    ensures forall g :: Accumulate(acc, ids, classify).groups[g]
                        == acc.groups[g] + Select(ids, classify, Some(g))
    ensures Accumulate(acc, ids, classify).others == acc.others + Select(ids, classify, None)
    decreases |ids|
  {
    if ids != [] {
      var init, x := ids[..|ids| - 1], ids[|ids| - 1];
      AccumulateAppends(acc, init, classify);
      var prev := Accumulate(acc, init, classify);
      var next := Accumulate(acc, ids, classify);
      assert next == Step(prev, x, classify);
      StepOthers(prev, x, classify);
      forall g ensures next.groups[g] == acc.groups[g] + Select(ids, classify, Some(g)) {
        StepGroup(prev, x, classify, g);
        assert Select(ids, classify, Some(g))
               == Select(init, classify, Some(g)) + (if classify(x) == Some(g) then [x] else []);
      }
    }
  }

  /** One step appends the identifier to its own group's list and leaves the others alone. */
  lemma StepGroup(acc: ScanResult, id: Id, classify: Classifier, g: PhotoGroup)
    requires g in acc.groups
    ensures Step(acc, id, classify).groups[g] == acc.groups[g] + (if classify(id) == Some(g) then [id] else [])
  {
  }

  /** One step appends the identifier to `others` exactly when it matches no group. */
  lemma StepOthers(acc: ScanResult, id: Id, classify: Classifier)
    ensures Step(acc, id, classify).others == acc.others + (if classify(id) == None then [id] else [])
  {
  }

  /**
   * From a fresh accumulator, each group's list is exactly the processed
   * identifiers classified into it and `others` exactly the unmatched ones.
   */
  lemma FreshAccumulatePartition(ids: seq<Id>, classify: Classifier)
    ensures HasAllKeys(Accumulate(Fresh(), ids, classify))
    ensures forall g :: Accumulate(Fresh(), ids, classify).groups[g] == Select(ids, classify, Some(g))
    ensures Accumulate(Fresh(), ids, classify).others == Select(ids, classify, None)
  {
    AccumulateAppends(Fresh(), ids, classify);
  }

  /**
   * After a fresh scan, every processed identifier is in the list of its own
   * group, or in `others` when it matched no group, and in no other list.
   */
  lemma FreshAccumulatePlacesEachId(ids: seq<Id>, classify: Classifier, x: Id)
    requires x in ids
    ensures HasAllKeys(Accumulate(Fresh(), ids, classify))
    ensures forall g :: x in Accumulate(Fresh(), ids, classify).groups[g] <==> classify(x) == Some(g)
    ensures x in Accumulate(Fresh(), ids, classify).others <==> classify(x) == None
  {
    FreshAccumulatePartition(ids, classify);
    SelectMembers(ids, classify, None, x);
    forall g ensures x in Accumulate(Fresh(), ids, classify).groups[g] <==> classify(x) == Some(g) {
      SelectMembers(ids, classify, Some(g), x);
    }
  }

  /** Processing `xs` and then `ys` is processing `xs + ys`: what makes resuming sound. */
  lemma {:induction false} AccumulateConcat(acc: ScanResult, xs: seq<Id>, ys: seq<Id>, classify: Classifier)
    ensures Accumulate(Accumulate(acc, xs, classify), ys, classify) == Accumulate(acc, xs + ys, classify)
    decreases |ys|
  {
    if ys == [] {
      assert xs + ys == xs;
    } else {
      var init := ys[..|ys| - 1];
      AccumulateConcat(acc, xs, init, classify);
      assert (xs + ys)[..|xs + ys| - 1] == xs + init;
    }
  }

  /** A group whose key is absent swallows the identifiers classified into it. */
  lemma MissingKeyDropsId(acc: ScanResult, id: Id, classify: Classifier)
    requires classify(id).Some? && classify(id).value !in acc.groups
    ensures Step(acc, id, classify) == acc
    ensures Size(Step(acc, id, classify)) == Size(acc)
  {
  }

  /** Adding one identifier to a key present once in `cases` raises the sum by one. */
  lemma {:induction false} CountOverAppend(r: ScanResult, g: PhotoGroup, id: Id, cases: seq<PhotoGroup>)
    requires g in r.groups
    requires forall i, j :: 0 <= i < j < |cases| ==> cases[i] != cases[j]
    ensures CountOver(r.(groups := r.groups[g := r.groups[g] + [id]]), cases)
            == CountOver(r, cases) + (if g in cases then 1 else 0)
    decreases |cases|
  {
    if cases != [] {
      var init := cases[..|cases| - 1];
      CountOverAppend(r, g, id, init);
      assert cases == init + [cases[|cases| - 1]];
    }
  }

  /** `groups` and `others` are untouched except where the identifier goes. */
  lemma CountOverSameGroups(r: ScanResult, s: ScanResult, cases: seq<PhotoGroup>)
    requires r.groups == s.groups
    ensures CountOver(r, cases) == CountOver(s, cases)
  {
  }

  /** While every key is present, each step adds exactly one identifier. */
  lemma StepSize(acc: ScanResult, id: Id, classify: Classifier)
    requires HasAllKeys(acc)
    ensures Size(Step(acc, id, classify)) == Size(acc) + 1
  {
    match classify(id)
    case None =>
      CountOverSameGroups(Step(acc, id, classify), acc, AllCases);
    case Some(g) =>
      AllCasesComplete(g);
      forall i, j | 0 <= i < j < |AllCases| ensures AllCases[i] != AllCases[j] {
        AllCasesDistinct(i, j);
      }
      CountOverAppend(acc, g, id, AllCases);
  }

  /** While every key is present, the accumulator grows by one per processed photo. */
  lemma {:induction false} AccumulateSize(acc: ScanResult, ids: seq<Id>, classify: Classifier)
    requires HasAllKeys(acc)
    ensures Size(Accumulate(acc, ids, classify)) == Size(acc) + |ids|
    decreases |ids|
  {
    if ids != [] {
      var init := ids[..|ids| - 1];
      AccumulateSize(acc, init, classify);
      AccumulateAppends(acc, init, classify);
      StepSize(Accumulate(acc, init, classify), ids[|ids| - 1], classify);
    }
  }

  /** From a fresh start, the group sizes plus the size of `others` equal the number processed. */
  lemma FreshAccumulateSize(ids: seq<Id>, classify: Classifier)
    ensures Size(Accumulate(Fresh(), ids, classify)) == |ids|
  {
    AccumulateSize(Fresh(), ids, classify);
    assert CountOver(Fresh(), AllCases) == 0 by {
      assert forall k | 0 <= k <= |AllCases| :: CountOver(Fresh(), AllCases[..k]) == 0 by {
        forall k | 0 <= k <= |AllCases| ensures CountOver(Fresh(), AllCases[..k]) == 0 {
          FreshCountPrefix(k);
        }
      }
      assert AllCases[..|AllCases|] == AllCases;
    }
  }

  lemma {:induction false} FreshCountPrefix(k: nat)
    requires k <= |AllCases|
    ensures CountOver(Fresh(), AllCases[..k]) == 0
  {
    if k > 0 {
      FreshCountPrefix(k - 1);
      assert AllCases[..k][..k - 1] == AllCases[..k - 1];
    }
  }
}
