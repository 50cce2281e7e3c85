/**
 * `ContentView`: the permission and scan state of the main screen, and the
 * labelled counts it lists when a scan completes: the upper-cased raw value
 * of every group holding photos, in `allCases` order, then `"Other"` when some
 * photos matched no group.
 */
module Content {
  import opened Wrappers
  import opened PhotoGroups
  import opened Accumulator
  import opened Persistence
  import opened ScanSpec
  import opened GroupsViewModel

  /** The label of the entry for unmatched photos. */
  const OtherLabel: string := "Other"

  /** Upper-casing of one character: the ASCII letters `a` to `z`; anything else is kept. */
  function UpperChar(c: char): char
  {
    if 'a' <= c <= 'z' then (c as int - 32) as char else c
  }

  /** `uppercased()`, character by character. */
  function Uppercased(s: string): (r: string)
    ensures |r| == |s|
    ensures forall i :: 0 <= i < |s| ==> r[i] == UpperChar(s[i])
  {
    seq(|s|, i requires 0 <= i < |s| => UpperChar(s[i]))
  }

  /** The label of a group: `group.rawValue.uppercased()`. */
  function Label(g: PhotoGroup): string
  {
    Uppercased(RawValue(g))
  }

  /** Distinct groups get distinct labels, none of them `"Other"`. */
  lemma LabelsDistinct(g: PhotoGroup, h: PhotoGroup)
    ensures Label(g) == Label(h) ==> g == h
    ensures Label(g) != OtherLabel
  {
    assert |Label(g)| == 1;
    assert Label(g)[0] == UpperChar(RawValue(g)[0]);
    assert Label(h)[0] == UpperChar(RawValue(h)[0]);
  }

  /** A summary with each group replaced by its label. */
  function Labelled(summary: seq<(PhotoGroup, nat)>): (r: seq<(string, nat)>)
    ensures |r| == |summary|
    ensures forall i :: 0 <= i < |summary| ==> r[i] == (Label(summary[i].0), summary[i].1)
  {
    seq(|summary|, i requires 0 <= i < |summary| => (Label(summary[i].0), summary[i].1))
  }

  /** What the completion handler assigns to `groupCounts`. */
  function GroupCounts(result: ScanResult): seq<(string, nat)>
  {
    Labelled(GroupSummary(result)) + (if |result.others| > 0 then [(OtherLabel, |result.others|)] else [])
  }

  /**
   * The listed counts: a group's label with `n` is listed exactly when the
   * result holds `n > 0` photos for it; `"Other"` is listed, last, exactly
   * when some photos matched no group, with their number; labels are
   * pairwise distinct; there are at most one entry per case plus one; and the
   * list is empty exactly when the result holds no photo.
   */
  lemma GroupCountsCorrect(result: ScanResult)
    ensures |GroupCounts(result)| <= |AllCases| + 1
    ensures forall g, n :: (Label(g), n) in GroupCounts(result) <==> n == CountOf(result, g) && n > 0
    ensures forall n :: (OtherLabel, n) in GroupCounts(result) <==> n == |result.others| && n > 0
    ensures |result.others| > 0 ==> GroupCounts(result)[|GroupCounts(result)| - 1] == (OtherLabel, |result.others|)
    ensures forall i, j :: 0 <= i < j < |GroupCounts(result)| ==> GroupCounts(result)[i].0 != GroupCounts(result)[j].0
    ensures GroupCounts(result) == [] <==> (forall g :: CountOf(result, g) == 0) && result.others == []
    ensures forall i, j, g, h :: 0 <= i < j < |GroupCounts(result)|
              && GroupCounts(result)[i].0 == Label(g) && GroupCounts(result)[j].0 == Label(h)
              ==> CaseIndex(g) < CaseIndex(h)
  {
    GroupCountsOrdered(result);
    GroupSummaryCorrect(result);
    forall g, n ensures (Label(g), n) in GroupCounts(result) <==> n == CountOf(result, g) && n > 0 {
      GroupEntry(result, g, n);
    }
    forall n ensures (OtherLabel, n) in GroupCounts(result) <==> n == |result.others| && n > 0 {
      OtherEntry(result, n);
    }
    GroupCountsDistinct(result);
    GroupCountsEmpty(result);
  }

  lemma GroupEntry(result: ScanResult, g: PhotoGroup, n: nat)
    ensures (Label(g), n) in GroupCounts(result) <==> n == CountOf(result, g) && n > 0
  {
    if (Label(g), n) in GroupCounts(result) {
      ListedGroupHasCount(result, g, n);
    }
    if n == CountOf(result, g) && n > 0 {
      CountedGroupIsListed(result, g);
    }
  }

  lemma ListedGroupHasCount(result: ScanResult, g: PhotoGroup, n: nat)
    requires (Label(g), n) in GroupCounts(result)
    ensures n == CountOf(result, g) && n > 0
  {
    var summary := GroupSummary(result);
    var labelled := Labelled(summary);
    var r := GroupCounts(result);
    var i :| 0 <= i < |r| && r[i] == (Label(g), n);
    LabelsDistinct(g, g);
    assert i < |labelled|;
    assert r[i] == labelled[i];
    LabelsDistinct(g, summary[i].0);
    GroupSummaryCorrect(result);
    assert summary[i] in summary;
  }

  lemma CountedGroupIsListed(result: ScanResult, g: PhotoGroup)
    requires CountOf(result, g) > 0
    ensures (Label(g), CountOf(result, g)) in GroupCounts(result)
  {
    var summary := GroupSummary(result);
    var labelled := Labelled(summary);
    GroupSummaryCorrect(result);
    assert (g, CountOf(result, g)) in summary;
    var i :| 0 <= i < |summary| && summary[i] == (g, CountOf(result, g));
    assert GroupCounts(result)[i] == labelled[i];
  }

  lemma OtherEntry(result: ScanResult, n: nat)
    ensures (OtherLabel, n) in GroupCounts(result) <==> n == |result.others| && n > 0
  {
    var summary := GroupSummary(result);
    var labelled := Labelled(summary);
    var r := GroupCounts(result);
    if (OtherLabel, n) in r {
      var i :| 0 <= i < |r| && r[i] == (OtherLabel, n);
      if i < |labelled| {
        assert r[i] == labelled[i];
        LabelsDistinct(summary[i].0, summary[i].0);
      }
    }
    if n == |result.others| && n > 0 {
      assert r[|r| - 1] == (OtherLabel, n);
    }
  }

  /** The group entries follow `allCases` order. */
  lemma GroupCountsOrdered(result: ScanResult)
    ensures forall i, j, g, h :: 0 <= i < j < |GroupCounts(result)|
              && GroupCounts(result)[i].0 == Label(g) && GroupCounts(result)[j].0 == Label(h)
              ==> CaseIndex(g) < CaseIndex(h)
  {
    var summary := GroupSummary(result);
    var labelled := Labelled(summary);
    var r := GroupCounts(result);
    GroupSummaryCorrect(result);
    forall i, j, g, h | 0 <= i < j < |r| && r[i].0 == Label(g) && r[j].0 == Label(h)
      ensures CaseIndex(g) < CaseIndex(h)
    {
      LabelsDistinct(h, h);
      forall k | |labelled| <= k < |r| ensures r[k].0 == OtherLabel { }
      assert j < |labelled|;
      assert r[i] == labelled[i] && r[j] == labelled[j];
      LabelsDistinct(summary[i].0, g);
      LabelsDistinct(summary[j].0, h);
    }
  }

  lemma GroupCountsDistinct(result: ScanResult)
    ensures forall i, j :: 0 <= i < j < |GroupCounts(result)| ==> GroupCounts(result)[i].0 != GroupCounts(result)[j].0
  {
    var summary := GroupSummary(result);
    var labelled := Labelled(summary);
    var r := GroupCounts(result);
    GroupSummaryCorrect(result);
    forall i, j | 0 <= i < j < |r| ensures r[i].0 != r[j].0 {
      assert r[i] == labelled[i];
      if j < |labelled| {
        assert r[j] == labelled[j];
        LabelsDistinct(summary[i].0, summary[j].0);
      } else {
        LabelsDistinct(summary[i].0, summary[i].0);
      }
    }
  }

  lemma GroupCountsEmpty(result: ScanResult)
    ensures GroupCounts(result) == [] <==> (forall g :: CountOf(result, g) == 0) && result.others == []
  {
    if (forall g :: CountOf(result, g) == 0) && result.others == [] {
      NoPhotosNoSummary(result);
    }
    forall g | CountOf(result, g) > 0 ensures GroupCounts(result) != [] {
      SomePhotosSomeSummary(result, g);
    }
  }

  lemma NoPhotosNoSummary(result: ScanResult)
    requires forall g :: CountOf(result, g) == 0
    ensures GroupSummary(result) == []
  {
    NoPhotosNoEntries(result, AllCases);
  }

  lemma {:induction false} NoPhotosNoEntries(result: ScanResult, cases: seq<PhotoGroup>)
    requires forall g :: CountOf(result, g) == 0
    ensures SummaryOf(result, cases) == []
    decreases |cases|
  {
    if cases != [] {
      NoPhotosNoEntries(result, cases[..|cases| - 1]);
    }
  }

  lemma SomePhotosSomeSummary(result: ScanResult, g: PhotoGroup)
    requires CountOf(result, g) > 0
    ensures GroupSummary(result) != []
  {
    GroupSummaryCorrect(result);
    assert (g, CountOf(result, g)) in GroupSummary(result);
  }

  lemma LabelledAppend(a: seq<(PhotoGroup, nat)>, x: (PhotoGroup, nat))
    ensures Labelled(a + [x]) == Labelled(a) + [(Label(x.0), x.1)]
  {
  }

  /** One more case extends the labelled summary by that case's labelled entry, if it has photos. */
  lemma LabelledStep(result: ScanResult, i: nat)
    requires i < |AllCases|
    ensures Labelled(SummaryOf(result, AllCases[..i + 1]))
            == Labelled(SummaryOf(result, AllCases[..i]))
               + (if CountOf(result, AllCases[i]) > 0 then [(Label(AllCases[i]), CountOf(result, AllCases[i]))] else [])
  {
    var prev := SummaryOf(result, AllCases[..i]);
    var g := AllCases[i];
    SummaryStep(result, i);
    if CountOf(result, g) > 0 {
      LabelledAppend(prev, (g, CountOf(result, g)));
    } else {
      assert prev + [] == prev;
    }
  }

  /** The completion handler's loops: the groups in `allCases` order, then `"Other"`. */
  method CollectLabelledCounts(result: ScanResult) returns (temp: seq<(string, nat)>)
    ensures temp == GroupCounts(result)
  {
    temp := [];
    var i := 0;
    while i < |AllCases|
      invariant 0 <= i <= |AllCases|
      invariant temp == Labelled(SummaryOf(result, AllCases[..i]))
    {
      var group := AllCases[i];
      var count := if group in result.groups then |result.groups[group]| else 0;
      LabelledStep(result, i);
      if count > 0 {
        temp := temp + [(Label(group), count)];
      }
      i := i + 1;
    }
    assert AllCases[..|AllCases|] == AllCases;

    var otherCount := |result.others|;
    if otherCount > 0 {
      temp := temp + [(OtherLabel, otherCount)];
    }
  }

  /** The result of the last `completion` among the events, if any. */
  function LastCompletion(es: seq<Event>): Option<ScanResult>
    decreases |es|
  {
    if es == [] then None
    else if es[|es| - 1].Completion? then Some(es[|es| - 1].result)
    else LastCompletion(es[..|es| - 1])
  }

  /** The counts of the last `progress` among the events, if any. */
  function LastProgress(es: seq<Event>): Option<(nat, nat)>
    decreases |es|
  {
    if es == [] then None
    else if es[|es| - 1].Progress? then Some((es[|es| - 1].processed, es[|es| - 1].total))
    else LastProgress(es[..|es| - 1])
  }

  lemma {:induction false} LastProgressConcat(a: seq<Event>, b: seq<Event>)
    ensures LastProgress(a + b) == if LastProgress(b).Some? then LastProgress(b) else LastProgress(a)
    decreases |b|
  {
    if b == [] {
      assert a + b == a;
    } else {
      LastProgressConcat(a, b[..|b| - 1]);
      assert (a + b)[..|a + b| - 1] == a + b[..|b| - 1];
    }
  }

  /** Every scan's last callback is `completion` with the result it completes with. */
  lemma ScanLastCompletion(resumeIfPossible: bool, stored: Option<ProgressSnapshot>, items: seq<Id>,
                           classify: Classifier, failedWrites: set<nat>)
    ensures LastCompletion(ScanTrace(resumeIfPossible, stored, items, classify, failedWrites))
            == Some(CompletedResult(resumeIfPossible, stored, items, classify))
  {
    ScanCompletesOnce(resumeIfPossible, stored, items, classify, failedWrites);
  }

  /**
   * A scan that classifies at least one photo reports, last, that all of
   * them are done.
   */
  lemma ScanLastProgress(resumeIfPossible: bool, stored: Option<ProgressSnapshot>, items: seq<Id>,
                         classify: Classifier, failedWrites: set<nat>)
    requires ResumeDecision(resumeIfPossible, stored, |items|).index < |items|
    ensures LastProgress(ScanTrace(resumeIfPossible, stored, items, classify, failedWrites)) == Some((|items|, |items|))
  {
    var s := ResumeDecision(resumeIfPossible, stored, |items|);
    ScanTraceCases(resumeIfPossible, stored, items, classify, failedWrites);
    LoopTraceLastProgress(OpeningEvents(s, |items|), s.acc, items, s.index, classify, failedWrites);
  }

  lemma LoopTraceLastProgress(open: seq<Event>, acc: ScanResult, items: seq<Id>, lo: nat,
                              classify: Classifier, failedWrites: set<nat>)
    requires lo < |items|
    ensures LastProgress(open + LoopEvents(acc, items, lo, |items|, classify, failedWrites)
                         + [ProgressCleared, Completion(Accumulate(acc, items[lo..|items|], classify))])
            == Some((|items|, |items|))
  {
    var n := |items|;
    var prev := LoopEvents(acc, items, lo, n - 1, classify, failedWrites);
    var step := StepEvents(acc, items, lo, n, classify, failedWrites);
    var result := Accumulate(acc, items[lo..n], classify);
    LoopEndsWithCheckpoint(acc, items, lo, classify, failedWrites);
    CheckpointLastProgress(result, n, n, n !in failedWrites);
    CloseLastProgress(result);
    LastProgressOfParts(open, prev, step, [ProgressCleared, Completion(result)]);
  }

  /** The loop's last iteration always takes a checkpoint. */
  lemma LoopEndsWithCheckpoint(acc: ScanResult, items: seq<Id>, lo: nat, classify: Classifier, failedWrites: set<nat>)
    requires lo < |items|
    ensures LoopEvents(acc, items, lo, |items|, classify, failedWrites)
            == LoopEvents(acc, items, lo, |items| - 1, classify, failedWrites)
               + StepEvents(acc, items, lo, |items|, classify, failedWrites)
    ensures StepEvents(acc, items, lo, |items|, classify, failedWrites)
            == CheckpointEvents(Accumulate(acc, items[lo..|items|], classify), |items|, |items|, |items| !in failedWrites)
  {
  }

  lemma LastProgressOfParts(open: seq<Event>, prev: seq<Event>, step: seq<Event>, close: seq<Event>)
    requires LastProgress(step).Some? && LastProgress(close).None?
    ensures LastProgress(open + (prev + step) + close) == LastProgress(step)
  {
    LastProgressConcat(prev, step);
    LastProgressConcat(open, prev + step);
    LastProgressConcat(open + (prev + step), close);
  }

  lemma CheckpointLastProgress(snapshot: ScanResult, processed: nat, total: nat, written: bool)
    ensures LastProgress(CheckpointEvents(snapshot, processed, total, written)) == Some((processed, total))
  {
    var b := CheckpointEvents(snapshot, processed, total, written);
    assert b[..2][1] == b[1];
  }

  lemma CloseLastProgress(result: ScanResult)
    ensures LastProgress([ProgressCleared, Completion(result)]) == None
  {
    var c := [ProgressCleared, Completion(result)];
    assert c[..1][..0] == [];
    assert LastProgress(c[..1]) == None;
  }

  class ContentView {
    var hasPermission: bool
    var permissionChecked: bool
    var isScanning: bool
    var processedCount: nat
    var totalCount: nat
    var groupCounts: seq<(string, nat)>

    /** The screen before the permission request returns. */
    constructor ()
      ensures !hasPermission && !permissionChecked && !isScanning
      ensures processedCount == 0 && totalCount == 0 && groupCounts == []
    {
      hasPermission := false;
      permissionChecked := false;
      isScanning := false;
      processedCount := 0;
      totalCount := 0;
      groupCounts := [];
    }

    /** `startScan`: reset the scan state before the scan begins. */
    method StartScan()
      modifies this`isScanning, this`processedCount, this`totalCount, this`groupCounts
      ensures isScanning && processedCount == 0 && totalCount == 0 && groupCounts == []
    {
      isScanning := true;
      processedCount := 0;
      totalCount := 0;
      groupCounts := [];
    }

    /** The `progress` closure: overwrite the two counts and nothing else. */
    method OnProgress(processed: nat, total: nat)
      modifies this`processedCount, this`totalCount
      ensures processedCount == processed && totalCount == total
    {
      processedCount := processed;
      totalCount := total;
    }

    /** The `completion` closure: stop scanning and list the labelled counts. */
    method OnCompletion(result: ScanResult)
      modifies this`isScanning, this`groupCounts
      ensures !isScanning && groupCounts == GroupCounts(result)
    {
      isScanning := false;
      var temp := CollectLabelledCounts(result);
      groupCounts := temp;
    }

    /**
     * The `requestPhotoAccess` closure of `requestPermissionIfNeeded`: record
     * the answer, and start a scan only when access was granted.
     */
    method OnPermissionResult(granted: bool)
      modifies this
      ensures hasPermission == granted && permissionChecked
      ensures granted ==> isScanning && processedCount == 0 && totalCount == 0 && groupCounts == []
      ensures !granted ==> isScanning == old(isScanning) && processedCount == old(processedCount)
                           && totalCount == old(totalCount) && groupCounts == old(groupCounts)
    {
      hasPermission := granted;
      permissionChecked := true;
      if granted {
        StartScan();
      }
    }

    /**
     * Delivering a scan's callbacks in order: the counts are those of the last
     * `progress`, and the scan state and list those of the last `completion`;
     * what no callback touched keeps its value.
     */
    method Observe(trace: seq<Event>)
      modifies this`isScanning, this`processedCount, this`totalCount, this`groupCounts
      ensures LastCompletion(trace).Some? ==> !isScanning && groupCounts == GroupCounts(LastCompletion(trace).value)
      ensures LastCompletion(trace).None? ==> isScanning == old(isScanning) && groupCounts == old(groupCounts)
      ensures LastProgress(trace).Some? ==> (processedCount, totalCount) == LastProgress(trace).value
      ensures LastProgress(trace).None? ==> processedCount == old(processedCount) && totalCount == old(totalCount)
    {
      var i := 0;
      while i < |trace|
        invariant 0 <= i <= |trace|
        invariant LastCompletion(trace[..i]).Some? ==>
                    !isScanning && groupCounts == GroupCounts(LastCompletion(trace[..i]).value)
        invariant LastCompletion(trace[..i]).None? ==> isScanning == old(isScanning) && groupCounts == old(groupCounts)
        invariant LastProgress(trace[..i]).Some? ==> (processedCount, totalCount) == LastProgress(trace[..i]).value
        invariant LastProgress(trace[..i]).None? ==>
                    processedCount == old(processedCount) && totalCount == old(totalCount)
      {
        match trace[i] {
          case Progress(processed, total) =>
            OnProgress(processed, total);
          case Completion(result) =>
            OnCompletion(result);
          case _ =>
        }
        assert trace[..i + 1][..i] == trace[..i];
        i := i + 1;
      }
      assert trace[..|trace|] == trace;
    }
  }
}
