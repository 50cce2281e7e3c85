/**
 * The two records the scanner persists, `PersistedScanResult` (the final
 * state) and `PersistedScanProgress` (the checkpoint), and the mapping between
 * the in-memory accumulator and their identifier-level form: a dictionary from
 * a group's raw value to the identifiers of its photos, plus `others`.
 */
module Persistence {
  import opened Wrappers
  import opened PhotoGroups
  import opened Accumulator

  /** `PersistedScanResult`. */
  datatype ResultRecord = ResultRecord(groups: map<string, seq<Id>>, others: seq<Id>)

  /** `PersistedScanProgress`: how far the scan got, out of how many, and what it had. */
  datatype ProgressRecord = ProgressRecord(
    processedCount: nat,
    totalCount: nat,
    groups: map<string, seq<Id>>,
    others: seq<Id>)

  /** What `loadPersistedScanProgress` hands back once the record is decoded. */
  datatype ProgressSnapshot = ProgressSnapshot(
    processedCount: nat,
    totalCount: nat,
    groups: map<PhotoGroup, seq<Id>>,
    others: seq<Id>)

  /**
   * The content of a record's file: a document the JSON decoder accepts, or
   * one it rejects (truncated, edited, of another shape).
   */
  datatype StoredFile<R> = Decodable(record: R) | Undecodable

  /** The dictionary the save helpers build: each group's list under its raw value. */
  function EncodeGroups(groups: map<PhotoGroup, seq<Id>>): (dict: map<string, seq<Id>>)
    ensures forall g :: RawValue(g) in dict <==> g in groups
    ensures forall g :: g in groups ==> dict[RawValue(g)] == groups[g]
    ensures forall key :: key in dict ==> FromRawValue(key).Some?
  {
    forall g, h | g in groups && h in groups && RawValue(g) == RawValue(h) ensures g == h {
      RawValueInjective(g, h);
    }
    var dict := map g | g in groups :: RawValue(g) := groups[g];
    assert forall g :: RawValue(g) in dict ==> g in groups by {
      forall g | RawValue(g) in dict ensures g in groups {
        var h :| h in groups && RawValue(h) == RawValue(g);
        RawValueInjective(g, h);
      }
    }
    assert forall key :: key in dict ==> FromRawValue(key).Some? by {
      forall key | key in dict ensures FromRawValue(key).Some? {
        var h :| h in groups && RawValue(h) == key;
        RawValueRoundTrip(h);
      }
    }
    dict
  }

  /**
   * The dictionary the load helpers rebuild: a key that is the raw value of a
   * case gives that case its list; any other key is skipped.
   */
  function DecodeGroups(dict: map<string, seq<Id>>): (groups: map<PhotoGroup, seq<Id>>)
    ensures forall g :: g in groups <==> RawValue(g) in dict
    ensures forall g :: g in groups ==> groups[g] == dict[RawValue(g)]
  {
    var groups := map g | g in AllCases && RawValue(g) in dict :: dict[RawValue(g)];
    assert forall g :: RawValue(g) in dict ==> g in groups by {
      forall g | RawValue(g) in dict ensures g in groups { AllCasesComplete(g); }
    }
    groups
  }

  function EncodeResult(result: ScanResult): ResultRecord
  {
    ResultRecord(EncodeGroups(result.groups), result.others)
  }

  function EncodeProgress(processedCount: nat, totalCount: nat, acc: ScanResult): ProgressRecord
  {
    ProgressRecord(processedCount, totalCount, EncodeGroups(acc.groups), acc.others)
  }

  /**
   * What `loadPersistedScanResult` returns for the content of its file: `nil`
   * for a missing file and for one the decoder rejects. The key-set clause
   * follows from the last one and `DecodeGroups`' contract; it is kept so
   * that callers get it without unfolding `DecodeGroups`.
   */
  function LoadResult(file: Option<StoredFile<ResultRecord>>): (r: Option<ScanResult>)
    ensures r.Some? <==> file.Some? && file.value.Decodable?
    ensures r.Some? ==> r.value.others == file.value.record.others
    ensures r.Some? ==> forall g :: g in r.value.groups <==> RawValue(g) in file.value.record.groups
    ensures r.Some? ==> r.value.groups == DecodeGroups(file.value.record.groups)
  {
    match file
    case None => None
    case Some(Undecodable) => None
    case Some(Decodable(rec)) => Some(ScanResult(DecodeGroups(rec.groups), rec.others))
  }

  /**
   * What `loadPersistedScanProgress` returns for the content of its file;
   * the key-set clause is kept as a corollary, as for `LoadResult`.
   */
  function LoadProgress(file: Option<StoredFile<ProgressRecord>>): (r: Option<ProgressSnapshot>)
    ensures r.Some? <==> file.Some? && file.value.Decodable?
    ensures r.Some? ==> r.value.processedCount == file.value.record.processedCount
    ensures r.Some? ==> r.value.totalCount == file.value.record.totalCount
    ensures r.Some? ==> r.value.others == file.value.record.others
    ensures r.Some? ==> forall g :: g in r.value.groups <==> RawValue(g) in file.value.record.groups
    ensures r.Some? ==> r.value.groups == DecodeGroups(file.value.record.groups)
  {
    match file
    case None => None
    case Some(Undecodable) => None
    case Some(Decodable(rec)) =>
      Some(ProgressSnapshot(rec.processedCount, rec.totalCount, DecodeGroups(rec.groups), rec.others))
  }

  /** Decoding what was encoded gives back the same groups, at the identifier level. */
  lemma DecodeEncodeGroups(groups: map<PhotoGroup, seq<Id>>)
    ensures DecodeGroups(EncodeGroups(groups)) == groups
  {
    var back := DecodeGroups(EncodeGroups(groups));
    assert back.Keys == groups.Keys;
  }

  /**
   * Encoding what was decoded gives back the dictionary without the keys that
   * are not the raw value of any case.
   */
  lemma EncodeDecodeGroups(dict: map<string, seq<Id>>)
    ensures EncodeGroups(DecodeGroups(dict)) == map key | key in dict && FromRawValue(key).Some? :: dict[key]
  {
    var kept := map key | key in dict && FromRawValue(key).Some? :: dict[key];
    var back := EncodeGroups(DecodeGroups(dict));
    forall key | key in back ensures key in kept && back[key] == kept[key] {
      var g := FromRawValue(key).value;
    }
    forall key | key in kept ensures key in back {
      var g := FromRawValue(key).value;
    }
  }

  /** A saved result loads back as the same result. */
  lemma ResultRoundTrip(result: ScanResult)
    ensures LoadResult(Some(Decodable(EncodeResult(result)))) == Some(result)
  {
    DecodeEncodeGroups(result.groups);
  }

  /** A saved checkpoint loads back with the same counts and the same accumulator. */
  lemma ProgressRoundTrip(processedCount: nat, totalCount: nat, acc: ScanResult)
    ensures LoadProgress(Some(Decodable(EncodeProgress(processedCount, totalCount, acc))))
            == Some(ProgressSnapshot(processedCount, totalCount, acc.groups, acc.others))
  {
    DecodeEncodeGroups(acc.groups);
  }
}
