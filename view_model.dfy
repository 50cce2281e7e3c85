/**
 * `PhotoGroupsViewModel`: what the view model publishes once a scan completes,
 * a `(group, count)` entry for every group that holds photos, in `allCases`
 * order, the number of unmatched photos, and the loaded flag.
 */
module GroupsViewModel {
  import opened Wrappers
  import opened PhotoGroups
  import opened Accumulator
  import opened ScanSpec

  /** The `(group, count)` entries of `cases` whose count in `result` is positive, in order. */
  function SummaryOf(result: ScanResult, cases: seq<PhotoGroup>): seq<(PhotoGroup, nat)>
    decreases |cases|
  {
    if cases == [] then []
    else
      var g := cases[|cases| - 1];
      SummaryOf(result, cases[..|cases| - 1]) + (if CountOf(result, g) > 0 then [(g, CountOf(result, g))] else [])
  }

  /** What the completion handler publishes as `groups`. */
  function GroupSummary(result: ScanResult): seq<(PhotoGroup, nat)>
  {
    SummaryOf(result, AllCases)
  }

  /** The sum of the counts of a summary. */
  function Total(summary: seq<(PhotoGroup, nat)>): nat
    decreases |summary|
  {
    if summary == [] then 0 else Total(summary[..|summary| - 1]) + summary[|summary| - 1].1
  }

  /**
   * The summary of the first `k` cases: an entry for exactly the groups among
   * them with a positive count, carrying that count, in `allCases` order.
   */
  lemma {:induction false} SummaryPrefix(result: ScanResult, k: nat)
    requires k <= |AllCases|
    ensures |SummaryOf(result, AllCases[..k])| <= k
    ensures forall g, n :: (g, n) in SummaryOf(result, AllCases[..k])
                           <==> CaseIndex(g) < k && n == CountOf(result, g) && n > 0
    ensures forall i, j :: 0 <= i < j < |SummaryOf(result, AllCases[..k])| ==>
              CaseIndex(SummaryOf(result, AllCases[..k])[i].0) < CaseIndex(SummaryOf(result, AllCases[..k])[j].0)
  {
    if k > 0 {
      SummaryPrefix(result, k - 1);
      var prev := SummaryOf(result, AllCases[..k - 1]);
      var s := SummaryOf(result, AllCases[..k]);
      var g := AllCases[k - 1];
      assert AllCases[..k][..k - 1] == AllCases[..k - 1];
      assert s == prev + (if CountOf(result, g) > 0 then [(g, CountOf(result, g))] else []);
      assert CaseIndex(g) == k - 1 by {
        if CaseIndex(g) != k - 1 {
          if CaseIndex(g) < k - 1 {
            AllCasesDistinct(CaseIndex(g), k - 1);
          } else {
            AllCasesDistinct(k - 1, CaseIndex(g));
          }
        }
      }
      forall h, n ensures (h, n) in s <==> CaseIndex(h) < k && n == CountOf(result, h) && n > 0 {
        if CaseIndex(h) == k - 1 {
          assert h == g;
        }
      }
      forall i, j | 0 <= i < j < |s| ensures CaseIndex(s[i].0) < CaseIndex(s[j].0) {
        if j < |prev| {
          assert s[i] == prev[i] && s[j] == prev[j];
        } else {
          assert s[i] == prev[i] && prev[i] in prev;
        }
      }
    }
  }

  /**
   * The published `groups`: at most one entry per case; `(g, n)` is an entry
   * exactly when the result lists `n > 0` photos for `g`; entries follow
   * `allCases` order; a group whose key is absent from the result has none.
   */
  lemma GroupSummaryCorrect(result: ScanResult)
    ensures |GroupSummary(result)| <= |AllCases|
    ensures forall g, n :: (g, n) in GroupSummary(result) <==> n == CountOf(result, g) && n > 0
    ensures forall i, j :: 0 <= i < j < |GroupSummary(result)| ==>
              CaseIndex(GroupSummary(result)[i].0) < CaseIndex(GroupSummary(result)[j].0)
    ensures forall g, n :: g !in result.groups ==> (g, n) !in GroupSummary(result)
  {
    SummaryPrefix(result, |AllCases|);
    assert AllCases[..|AllCases|] == AllCases;
  }

  /** The counts of a summary add up to the photos the result lists under its cases. */
  lemma {:induction false} SummaryTotal(result: ScanResult, cases: seq<PhotoGroup>)
    ensures Total(SummaryOf(result, cases)) == CountOver(result, cases)
    decreases |cases|
  {
    if cases != [] {
      var init := cases[..|cases| - 1];
      var g := cases[|cases| - 1];
      SummaryTotal(result, init);
      var extra := if CountOf(result, g) > 0 then [(g, CountOf(result, g))] else [];
      TotalAppend(SummaryOf(result, init), extra);
    }
  }

  lemma TotalAppend(a: seq<(PhotoGroup, nat)>, b: seq<(PhotoGroup, nat)>)
    requires |b| <= 1
    ensures Total(a + b) == Total(a) + Total(b)
  {
    if |b| == 1 {
      assert (a + b)[..|a + b| - 1] == a;
      assert b[..0] == [];
    } else {
      assert a + b == a;
    }
  }

  /**
   * After a fresh scan, the view model shows for each group the number of
   * photos classified into it, and the shown counts plus `othersCount` add
   * up to the number of photos scanned.
   */
  lemma FreshScanSummary(items: seq<Id>, classify: Classifier)
    ensures var r := CompletedResult(false, None, items, classify);
            && (forall g, n :: (g, n) in GroupSummary(r) <==> n == |Select(items, classify, Some(g))| && n > 0)
            && Total(GroupSummary(r)) + |r.others| == |items|
  {
    var r := CompletedResult(false, None, items, classify);
    FreshScanResult(false, None, items, classify);
    GroupSummaryCorrect(r);
    SummaryTotal(r, AllCases);
  }

  /** One more case extends the summary by that case's entry, if it has photos. */
  lemma SummaryStep(result: ScanResult, i: nat)
    requires i < |AllCases|
    ensures SummaryOf(result, AllCases[..i + 1])
            == SummaryOf(result, AllCases[..i])
               + (if CountOf(result, AllCases[i]) > 0 then [(AllCases[i], CountOf(result, AllCases[i]))] else [])
  {
    assert AllCases[..i + 1][..i] == AllCases[..i];
  }

  /** The completion handler's loop over `PhotoGroup.allCases`. */
  method CollectGroupCounts(result: ScanResult) returns (temp: seq<(PhotoGroup, nat)>)
    ensures temp == GroupSummary(result)
  {
    temp := [];
    var i := 0;
    while i < |AllCases|
      invariant 0 <= i <= |AllCases|
      invariant temp == SummaryOf(result, AllCases[..i])
    {
      var group := AllCases[i];
      var count := if group in result.groups then |result.groups[group]| else 0;
      SummaryStep(result, i);
      if count > 0 {
        temp := temp + [(group, count)];
      }
      i := i + 1;
    }
    assert AllCases[..|AllCases|] == AllCases;
  }

  class PhotoGroupsViewModel {
    var groups: seq<(PhotoGroup, nat)>
    var othersCount: nat
    var isLoaded: bool

    /** Nothing loaded yet. */
    constructor ()
      ensures groups == [] && othersCount == 0 && !isLoaded
    {
      groups := [];
      othersCount := 0;
      isLoaded := false;
    }

    /** The `completion` closure of `startScanning`: publish the summary and mark loaded. */
    method OnScanCompleted(result: ScanResult)
      modifies this
      ensures groups == GroupSummary(result)
      ensures othersCount == |result.others|
      ensures isLoaded
    {
      var temp := CollectGroupCounts(result);
      groups := temp;
      othersCount := |result.others|;
      isLoaded := true;
    }
  }
}
