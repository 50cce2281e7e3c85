/**
 * `PhotoScannerService`: the scan itself and the helpers that save, load and
 * clear the two records. The two files under the documents directory are the
 * service's state: each is absent, or holds a document the decoder accepts or
 * rejects. Writes replace a whole file atomically; a write that fails is only
 * logged by the app, so it leaves the file as it was.
 */
module Scanner {
  import opened Wrappers
  import opened PhotoGroups
  import opened Accumulator
  import opened Persistence
  import opened ScanSpec

  /** The `for group in PhotoGroup.allCases { groups[group] = [] }` loop. */
  method NewGroups() returns (groups: map<PhotoGroup, seq<Id>>)
    ensures forall g :: g in groups && groups[g] == []
    ensures ScanResult(groups, []) == Fresh()
  {
    groups := map[];
    var i := 0;
    while i < |AllCases|
      invariant 0 <= i <= |AllCases|
      invariant forall g :: g in groups <==> g in AllCases[..i]
      invariant forall g :: g in groups ==> groups[g] == []
    {
      groups := groups[AllCases[i] := []];
      i := i + 1;
    }
    forall g ensures g in groups {
      AllCasesComplete(g);
      assert AllCases[..|AllCases|] == AllCases;
    }
  }

  /**
   * The `for (group, assets) in groups { dict[group.rawValue] = ids }` loop of
   * the save helpers.
   */
  method EncodeGroupsLoop(groups: map<PhotoGroup, seq<Id>>) returns (dict: map<string, seq<Id>>)
    ensures dict == EncodeGroups(groups)
  {
    dict := map[];
    var pending := groups.Keys;
    while pending != {}
      invariant pending <= groups.Keys
      invariant forall g :: RawValue(g) in dict <==> g in groups && g !in pending
      invariant forall g :: RawValue(g) in dict ==> dict[RawValue(g)] == groups[g]
      invariant forall key :: key in dict ==> FromRawValue(key).Some?
      decreases pending
    {
      var g :| g in pending;
      RawValueRoundTrip(g);
      forall h | RawValue(h) == RawValue(g) ensures h == g {
        RawValueInjective(h, g);
      }
      dict := dict[RawValue(g) := groups[g]];
      pending := pending - {g};
    }
    EncodedKeysDetermineDictionary(dict, EncodeGroups(groups));
  }

  /** Two dictionaries holding only raw-value keys agree when they agree on every case. */
  lemma EncodedKeysDetermineDictionary(d: map<string, seq<Id>>, e: map<string, seq<Id>>)
    requires forall key :: key in d ==> FromRawValue(key).Some?
    requires forall key :: key in e ==> FromRawValue(key).Some?
    requires forall g :: RawValue(g) in d <==> RawValue(g) in e
    requires forall g :: RawValue(g) in d ==> d[RawValue(g)] == e[RawValue(g)]
    ensures d == e
  {
    forall key | key in d ensures key in e && d[key] == e[key] {
      assert RawValue(FromRawValue(key).value) == key;
    }
    forall key | key in e ensures key in d {
      assert RawValue(FromRawValue(key).value) == key;
    }
  }

  /**
   * The `for (key, idList) in persisted.groups` loop of the load helpers: a
   * key that is not the raw value of a case is skipped.
   */
  method DecodeGroupsLoop(dict: map<string, seq<Id>>) returns (groups: map<PhotoGroup, seq<Id>>)
    ensures groups == DecodeGroups(dict)
  {
    groups := map[];
    var pending := dict.Keys;
    while pending != {}
      invariant pending <= dict.Keys
      invariant forall g :: g in groups <==> RawValue(g) in dict && RawValue(g) !in pending
      invariant forall g :: g in groups ==> groups[g] == dict[RawValue(g)]
      decreases pending
    {
      var key :| key in pending;
      var group := FromRawValue(key);
      if group.Some? {
        groups := groups[group.value := dict[key]];
      }
      pending := pending - {key};
    }
  }

  class PhotoScannerService {
    /** `scanResult.json`. */
    var resultFile: Option<StoredFile<ResultRecord>>
    /** `scanProgress.json`. */
    var progressFile: Option<StoredFile<ProgressRecord>>

    /** A service over whatever the documents directory holds. */
    constructor (resultFile: Option<StoredFile<ResultRecord>>, progressFile: Option<StoredFile<ProgressRecord>>)
      ensures this.resultFile == resultFile && this.progressFile == progressFile
    {
      this.resultFile := resultFile;
      this.progressFile := progressFile;
    }

    /** `saveScanResult`: replaces the result record, unless the write fails. */
    method SaveScanResult(result: ScanResult, writeSucceeds: bool)
      modifies this`resultFile
      ensures resultFile == if writeSucceeds then Some(Decodable(EncodeResult(result))) else old(resultFile)
      ensures writeSucceeds ==> LoadResult(resultFile) == Some(result)
    {
      var dict := EncodeGroupsLoop(result.groups);
      var persisted := ResultRecord(dict, result.others);
      if writeSucceeds {
        resultFile := Some(Decodable(persisted));
      }
      ResultRoundTrip(result);
    }

    /** `loadPersistedScanResult`: `nil` for a missing or undecodable file. */
    method LoadPersistedScanResult() returns (r: Option<ScanResult>)
      ensures r == LoadResult(resultFile)
    {
      if resultFile.None? {
        return None;
      }
      match resultFile.value
      case Undecodable =>
        r := None;
      case Decodable(persisted) =>
        var groups := DecodeGroupsLoop(persisted.groups);
        r := Some(ScanResult(groups, persisted.others));
    }

    /** `saveScanProgress`: replaces the progress record, unless the write fails. */
    method SaveScanProgress(processedCount: nat, totalCount: nat,
                            groups: map<PhotoGroup, seq<Id>>, others: seq<Id>, writeSucceeds: bool)
      modifies this`progressFile
      ensures progressFile == if writeSucceeds
                              then Some(Decodable(EncodeProgress(processedCount, totalCount, ScanResult(groups, others))))
                              else old(progressFile)
    {
      var dict := EncodeGroupsLoop(groups);
      var persisted := ProgressRecord(processedCount, totalCount, dict, others);
      if writeSucceeds {
        progressFile := Some(Decodable(persisted));
      }
    }

    /** `loadPersistedScanProgress`: `nil` for a missing or undecodable file. */
    method LoadPersistedScanProgress() returns (r: Option<ProgressSnapshot>)
      ensures r == LoadProgress(progressFile)
    {
      if progressFile.None? {
        return None;
      }
      match progressFile.value
      case Undecodable =>
        r := None;
      case Decodable(persisted) =>
        var groups := DecodeGroupsLoop(persisted.groups);
        r := Some(ProgressSnapshot(persisted.processedCount, persisted.totalCount, groups, persisted.others));
    }

    /** `clearScanProgress`: removes the progress file if there is one. */
    method ClearScanProgress()
      modifies this`progressFile
      ensures progressFile == None
      ensures old(progressFile) == None ==> unchanged(this)
    {
      if progressFile.Some? {
        progressFile := None;
      }
    }

    /** `hasPendingScanProgress`: whether a progress file exists, readable or not. */
    method HasPendingScanProgress() returns (pending: bool)
      ensures pending <==> progressFile.Some?
      ensures pending && progressFile.value.Undecodable? ==> LoadProgress(progressFile).None?
    {
      pending := progressFile.Some?;
    }

    /**
     * `scanAndGroupAllPhotos` over the photos `items`, in library order.
     * The returned trace lists, in order, what the scan did to the progress
     * file and which callbacks it dispatched; a checkpoint write fails when its
     * processed count is in `failedWrites`. The progress file ends up as the
     * trace leaves it, which is absent, and the result file is not touched.
     */
    method ScanAndGroupAllPhotos(resumeIfPossible: bool, items: seq<Id>, classify: Classifier,
                                 failedWrites: set<nat>) returns (trace: seq<Event>)
      modifies this`progressFile
      ensures trace == ScanTrace(resumeIfPossible, LoadProgress(old(progressFile)), items, classify, failedWrites)
      ensures progressFile == ProgressFileAfter(old(progressFile), trace)
      ensures progressFile == None
    {
      ghost var initialFile := progressFile;
      ScanTraceCases(resumeIfPossible, LoadProgress(progressFile), items, classify, failedWrites);
      var total := |items|;
      var start;
      start, trace := BeginScan(resumeIfPossible, total);

      if total == 0 || start.index >= total {
        ClearScanProgress();
        ClosingFile(initialFile, trace, start.acc);
        trace := trace + [ProgressCleared, Completion(start.acc)];
        return;
      }

      var result, events := ClassifyRemaining(start, items, classify, failedWrites);
      ProgressFileAfterConcat(initialFile, trace, events);
      trace := trace + events;
      ClearScanProgress();
      ClosingFile(initialFile, trace, result);
      trace := trace + [ProgressCleared, Completion(result)];
    }

    /**
     * The part of `scanAndGroupAllPhotos` before the loop: it starts empty, or
     * from the loaded record when asked to resume and the record's total is
     * the current number of photos, reporting the restored state once when
     * some photos were already done; otherwise it clears the progress file.
     */
    method BeginScan(resumeIfPossible: bool, total: nat) returns (start: Start, trace: seq<Event>)
      modifies this`progressFile
      ensures start == ResumeDecision(resumeIfPossible, LoadProgress(old(progressFile)), total)
      ensures trace == OpeningEvents(start, total)
      ensures progressFile == ProgressFileAfter(old(progressFile), trace)
    {
      ghost var initialFile := progressFile;
      var groups := NewGroups();
      var others: seq<Id> := [];
      var startIndex: nat := 0;
      trace := [];

      var stored: Option<ProgressSnapshot> := None;
      if resumeIfPossible {
        stored := LoadPersistedScanProgress();
      }
      if resumeIfPossible && stored.Some? && stored.value.totalCount == total {
        groups := stored.value.groups;
        others := stored.value.others;
        startIndex := stored.value.processedCount;
        var processed := stored.value.processedCount;
        if processed > 0 {
          trace := trace + [Progress(processed, total), PartialUpdate(groups, others)];
        }
        start := Start(true, startIndex, ScanResult(groups, others));
      } else {
        ClearScanProgress();
        trace := trace + [ProgressCleared];
        start := Start(false, startIndex, ScanResult(groups, others));
      }
      OpeningFile(initialFile, start, total);
    }

    /**
     * The classify loop: each remaining photo goes into its group's list or
     * into `others`, and at every due checkpoint the record is saved and the
     * progress and a snapshot are reported.
     */
    method ClassifyRemaining(start: Start, items: seq<Id>, classify: Classifier, failedWrites: set<nat>)
      returns (result: ScanResult, events: seq<Event>)
      requires start.index < |items|
      modifies this`progressFile
      ensures result == Accumulate(start.acc, items[start.index..|items|], classify)
      ensures events == LoopEvents(start.acc, items, start.index, |items|, classify, failedWrites)
      ensures progressFile == ProgressFileAfter(old(progressFile), events)
    {
      ghost var entryFile := progressFile;
      var total := |items|;
      var groups, others := start.acc.groups, start.acc.others;
      events := [];
      var index := start.index;
      while index < total
        invariant start.index <= index <= total
        invariant ScanResult(groups, others) == Accumulate(start.acc, items[start.index..index], classify)
        invariant events == LoopEvents(start.acc, items, start.index, index, classify, failedWrites)
        invariant progressFile == ProgressFileAfter(entryFile, events)
      {
        var id := items[index];
        ghost var before := ScanResult(groups, others);
        groups, others := AddPhoto(groups, others, id, classify);
        var processed := index + 1;

        var block: seq<Event> := [];
        if processed % CheckpointInterval == 0 || processed == total {
          block := Checkpoint(processed, total, groups, others, processed !in failedWrites);
        }
        ProgressFileAfterConcat(entryFile, events, block);
        LoopInvariantStep(start.acc, items, start.index, index, classify, failedWrites,
                          before, ScanResult(groups, others), events, block);
        events := events + block;
        index := processed;
      }
      result := ScanResult(groups, others);
    }

    /**
     * A checkpoint of the loop: save the progress record, then report the
     * processed count and the snapshot it holds.
     */
    method Checkpoint(processed: nat, total: nat, groups: map<PhotoGroup, seq<Id>>, others: seq<Id>,
                      writeSucceeds: bool)
      returns (block: seq<Event>)
      modifies this`progressFile
      ensures block == CheckpointEvents(ScanResult(groups, others), processed, total, writeSucceeds)
      ensures progressFile == ProgressFileAfter(old(progressFile), block)
    {
      var snapshot := ScanResult(groups, others);
      SaveScanProgress(processed, total, groups, others, writeSucceeds);
      block := [ProgressSaved(EncodeProgress(processed, total, snapshot), writeSucceeds),
                Progress(processed, total),
                PartialUpdate(snapshot.groups, snapshot.others)];
      CheckpointFile(old(progressFile), snapshot, processed, total, writeSucceeds);
    }
  }

  /**
   * One iteration's update of the accumulator: the identifier goes to the
   * end of its group's list when that key is present, or to the end of
   * `others` when it matches no group.
   */
  method AddPhoto(groups: map<PhotoGroup, seq<Id>>, others: seq<Id>, id: Id, classify: Classifier)
    returns (groups': map<PhotoGroup, seq<Id>>, others': seq<Id>)
    ensures ScanResult(groups', others') == Step(ScanResult(groups, others), id, classify)
  {
    groups', others' := groups, others;
    match classify(id) {
      case Some(group) =>
        if group in groups' {
          groups' := groups'[group := groups'[group] + [id]];
        }
      case None =>
        others' := others' + [id];
    }
  }

  /**
   * One iteration keeps the loop invariant: the accumulator after the step is
   * that of one more photo, and the events with this iteration's block are
   * those of one more photo.
   */
  lemma LoopInvariantStep(acc: ScanResult, items: seq<Id>, lo: nat, i: nat, classify: Classifier,
                          failedWrites: set<nat>, before: ScanResult, after: ScanResult,
                          events: seq<Event>, block: seq<Event>)
    requires lo <= i < |items|
    requires before == Accumulate(acc, items[lo..i], classify)
    requires after == Step(before, items[i], classify)
    requires events == LoopEvents(acc, items, lo, i, classify, failedWrites)
    requires block == if IsCheckpoint(i + 1, |items|)
                      then CheckpointEvents(after, i + 1, |items|, i + 1 !in failedWrites)
                      else []
    ensures after == Accumulate(acc, items[lo..i + 1], classify)
    ensures events + block == LoopEvents(acc, items, lo, i + 1, classify, failedWrites)
  {
    AccumulateNext(acc, items, lo, i, classify);
    LoopEventsNext(acc, items, lo, i, classify, failedWrites);
  }

  lemma AccumulateNext(acc: ScanResult, items: seq<Id>, lo: nat, i: nat, classify: Classifier)
    requires lo <= i < |items|
    ensures Accumulate(acc, items[lo..i + 1], classify)
            == Step(Accumulate(acc, items[lo..i], classify), items[i], classify)
  {
    var ids := items[lo..i + 1];
    assert ids[..|ids| - 1] == items[lo..i];
    assert ids[|ids| - 1] == items[i];
  }

  lemma LoopEventsNext(acc: ScanResult, items: seq<Id>, lo: nat, i: nat, classify: Classifier, failedWrites: set<nat>)
    requires lo <= i < |items|
    ensures LoopEvents(acc, items, lo, i + 1, classify, failedWrites)
            == LoopEvents(acc, items, lo, i, classify, failedWrites) + StepEvents(acc, items, lo, i + 1, classify, failedWrites)
    ensures StepEvents(acc, items, lo, i + 1, classify, failedWrites)
            == if IsCheckpoint(i + 1, |items|)
               then CheckpointEvents(Accumulate(acc, items[lo..i + 1], classify), i + 1, |items|, i + 1 !in failedWrites)
               else []
  {
  }

  /** The file after one more event is that event applied to the file before it. */
  lemma ProgressFileAfterAppend(f: Option<StoredFile<ProgressRecord>>, es: seq<Event>, e: Event)
    ensures ProgressFileAfter(f, es + [e]) == ApplyToProgressFile(ProgressFileAfter(f, es), e)
  {
    assert (es + [e])[..|es|] == es;
  }

  /** The opening events leave the file cleared, or as it was when resuming. */
  lemma OpeningFile(f: Option<StoredFile<ProgressRecord>>, s: Start, total: nat)
    ensures ProgressFileAfter(f, OpeningEvents(s, total)) == if s.resumed then f else None
  {
    var open := OpeningEvents(s, total);
    if s.resumed && s.index > 0 {
      ProgressFileAfterAppend(f, [], open[0]);
      ProgressFileAfterAppend(f, [open[0]], open[1]);
      assert open == [] + [open[0]] + [open[1]];
    } else if !s.resumed {
      ProgressFileAfterAppend(f, [], open[0]);
      assert open == [] + [open[0]];
    }
  }

  /** A checkpoint leaves the file holding its record when the write succeeds. */
  lemma CheckpointFile(f: Option<StoredFile<ProgressRecord>>, snapshot: ScanResult, processed: nat, total: nat,
                       written: bool)
    ensures ProgressFileAfter(f, CheckpointEvents(snapshot, processed, total, written))
            == if written then Some(Decodable(EncodeProgress(processed, total, snapshot))) else f
  {
    var block := CheckpointEvents(snapshot, processed, total, written);
    ProgressFileAfterAppend(f, [], block[0]);
    ProgressFileAfterAppend(f, [block[0]], block[1]);
    ProgressFileAfterAppend(f, [block[0]] + [block[1]], block[2]);
    assert block == [] + [block[0]] + [block[1]] + [block[2]];
  }

  /** The final clear and completion leave no file. */
  lemma ClosingFile(f: Option<StoredFile<ProgressRecord>>, es: seq<Event>, result: ScanResult)
    ensures ProgressFileAfter(f, es + [ProgressCleared, Completion(result)]) == None
  {
    ProgressFileAfterAppend(f, es, ProgressCleared);
    ProgressFileAfterAppend(f, es + [ProgressCleared], Completion(result));
    assert es + [ProgressCleared, Completion(result)] == es + [ProgressCleared] + [Completion(result)];
  }
}
