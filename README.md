# Resumable photo-grouping scan

This project models the core of an iOS app that scans a photo library and sorts every photo into one of a fixed set of groups. Photos that match no group go into `others`. The model covers four pieces:

- `PhotoScannerService.scanAndGroupAllPhotos`, the scan itself. The model includes:
  - the resume decision;
  - the classify loop that appends each photo to exactly one list;
  - the checkpoint cadence: a progress record every 10 photos and on the last one;
  - the three ways the scan ends, each of which clears the progress record and calls `completion`.
- The two persisted records:
  - `scanProgress.json`, the checkpoint, with `saveScanProgress`, `loadPersistedScanProgress`, `clearScanProgress` and `hasPendingScanProgress`;
  - `scanResult.json`, the final result, with `saveScanResult` and `loadPersistedScanResult`.

  On disk each record keys its lists by a group's raw value.
- The `completion` handler of `PhotoGroupsViewModel.startScanning`, which builds a `(group, count)` summary.
- The `ContentView` state machine:
  - the permission callback;
  - `startScan`;
  - the `progress` and `completion` closures, which list upper-cased labels with their counts.

Photos are their `localIdentifier` strings (`Accumulator.Id`). The classifier (`reliableHash()` followed by `PhotoGroup.group(for:)`) is an arbitrary function from an identifier to a group or to none.

The two documents are fields of the `Scanner.PhotoScannerService` class. Each field is absent, a document the decoder accepts, or one it rejects.

A scan returns the ordered trace of what it did. The trace records:

- each clear of the progress record;
- each checkpoint save, and whether that write succeeded;
- the callbacks it dispatched to the main queue, in order.

`ScanSpec.ScanTrace` defines that trace as a function of the inputs. The imperative methods are proved to produce it, and the properties below are proved about it.

Modules, one per file:

| module | file |
|---|---|
| `PhotoGroups` (with `Wrappers`) | `groups.dfy` |
| `Accumulator` | `accumulator.dfy` |
| `Persistence` | `persistence.dfy` |
| `ScanSpec` | `scan_spec.dfy` |
| `Scanner` | `scanner_service.dfy` |
| `GroupsViewModel` | `view_model.dfy` |
| `Content` | `content_view.dfy` |

## Model

| member | source | states |
|---|---|---|
| PhotoGroups.AllCasesComplete | CodewayCaseStudy-iOS/Services/PhotoScannerService.swift:76-78 | every group case occurs in `allCases`, so the initial loop gives every case a key |
| PhotoGroups.RawValueRoundTrip | CodewayCaseStudy-iOS/Services/PhotoScannerService.swift:205-206 | `PhotoGroup(rawValue:)` of a case's raw value gives that case back |
| PhotoGroups.FromRawValue | CodewayCaseStudy-iOS/Services/PhotoScannerService.swift:206 | `PhotoGroup(rawValue:)`: the case whose raw value is the string, and none exactly when no case has that raw value |
| Accumulator.Fresh | CodewayCaseStudy-iOS/Services/PhotoScannerService.swift:75-79 | the accumulator a fresh scan starts from has every case as a key with an empty list, and empty `others` |
| Accumulator.Step | CodewayCaseStudy-iOS/Services/PhotoScannerService.swift:133-137 | one iteration of the classify loop; it never adds or removes a key (where the photo goes is stated by `StepGroup` and `StepOthers`) |
| Accumulator.Accumulate | CodewayCaseStudy-iOS/Services/PhotoScannerService.swift:127-137 | the accumulator after the loop has processed the given photos in order; characterised by `AccumulateAppends` and `AccumulateConcat` |
| Accumulator.CountOf | CodewayCaseStudy-iOS/ViewModels/PhotoGroupsViewModel.swift:30 | `result.groups[group]?.count ?? 0`, also at ContentView.swift line 120: a positive count only for a key that is present |
| Accumulator.StepGroup | CodewayCaseStudy-iOS/Services/PhotoScannerService.swift:133-134 | one iteration appends the photo at the end of a group's list exactly when the classifier picks that group, and leaves every other list as it was |
| Accumulator.StepOthers | CodewayCaseStudy-iOS/Services/PhotoScannerService.swift:135-137 | one iteration appends the photo at the end of `others` exactly when the classifier picks no group |
| Accumulator.MissingKeyDropsId | CodewayCaseStudy-iOS/Services/PhotoScannerService.swift:133-134 | when the chosen group's key is absent, `groups[group]?.append` changes nothing and the photo is lost |
| Accumulator.AccumulateAppends | CodewayCaseStudy-iOS/Services/PhotoScannerService.swift:127-137 | loop invariant: with all keys present, each group's list has grown by exactly the processed photos the classifier puts in it, in order, and `others` by the unmatched ones |
| Accumulator.AccumulateConcat | CodewayCaseStudy-iOS/Services/PhotoScannerService.swift:127-137 | processing a prefix and then the rest gives the same accumulator as processing all of it |
| Accumulator.FreshAccumulatePartition | CodewayCaseStudy-iOS/Services/PhotoScannerService.swift:75-79 | from a fresh accumulator, each group's list is exactly the photos classified into it, in library order, and `others` is exactly the unmatched photos |
| Accumulator.FreshAccumulatePlacesEachId | CodewayCaseStudy-iOS/Services/PhotoScannerService.swift:127-137 | from a fresh accumulator, a scanned photo is in a group's list exactly when the classifier picks that group, and in `others` exactly when it picks none |
| Accumulator.StepSize | CodewayCaseStudy-iOS/Services/PhotoScannerService.swift:133-137 | with all keys present, each iteration adds exactly one photo to the accumulator |
| Accumulator.AccumulateSize | CodewayCaseStudy-iOS/Services/PhotoScannerService.swift:127-137 | with all keys present, the accumulator grows by exactly the number of photos processed |
| Accumulator.FreshAccumulateSize | CodewayCaseStudy-iOS/Services/PhotoScannerService.swift:127-137 | from a fresh start, the group list sizes plus the size of `others` equal the number of photos |
| Persistence.EncodeGroups | CodewayCaseStudy-iOS/Services/PhotoScannerService.swift:173-178 | the saved dictionary has a key exactly for each group present, namely its raw value, holding that group's identifiers |
| Persistence.EncodeResult | CodewayCaseStudy-iOS/Services/PhotoScannerService.swift:173-182 | the `PersistedScanResult` built from a result: its encoded groups and the identifiers of `others` |
| Persistence.EncodeProgress | CodewayCaseStudy-iOS/Services/PhotoScannerService.swift:242-256 | the `PersistedScanProgress` built from the two counts and the accumulator |
| Persistence.DecodeGroups | CodewayCaseStudy-iOS/Services/PhotoScannerService.swift:205-216 | loading keeps exactly the keys that are a case's raw value, with their lists, and skips all others |
| Persistence.LoadResult | CodewayCaseStudy-iOS/Services/PhotoScannerService.swift:192-231 | a missing or undecodable result file gives `nil`; a decodable one gives its `others`, and its groups are exactly those decoded from the raw-value keys by `DecodeGroups` |
| Persistence.LoadProgress | CodewayCaseStudy-iOS/Services/PhotoScannerService.swift:266-315 | a missing or undecodable progress file gives `nil`; a decodable one gives its counts and its `others`, and its groups are exactly those decoded from the raw-value keys by `DecodeGroups` |
| Persistence.DecodeEncodeGroups | CodewayCaseStudy-iOS/Services/PhotoScannerService.swift:173-178 | decoding an encoded dictionary gives back the same groups |
| Persistence.EncodeDecodeGroups | CodewayCaseStudy-iOS/Services/PhotoScannerService.swift:205-206 | re-encoding a decoded dictionary gives it back minus the keys that are no case's raw value |
| Persistence.ResultRoundTrip | CodewayCaseStudy-iOS/Services/PhotoScannerService.swift:172-226 | a saved result loads back as the same result, at identifier level |
| Persistence.ProgressRoundTrip | CodewayCaseStudy-iOS/Services/PhotoScannerService.swift:236-310 | a saved checkpoint loads back with the same processed count, total and accumulator |
| Scanner.NewGroups | CodewayCaseStudy-iOS/Services/PhotoScannerService.swift:75-78 | the initialisation loop gives every case an empty list, which is the fresh accumulator |
| Scanner.EncodeGroupsLoop | CodewayCaseStudy-iOS/Services/PhotoScannerService.swift:242-247 | the save helpers' dictionary loop builds exactly the encoded dictionary |
| Scanner.DecodeGroupsLoop | CodewayCaseStudy-iOS/Services/PhotoScannerService.swift:284-296 | the load helpers' key loop builds exactly the decoded groups, skipping unknown keys |
| Scanner.AddPhoto | CodewayCaseStudy-iOS/Services/PhotoScannerService.swift:128-137 | the loop body's update of `groups` and `others` is one step of the accumulator |
| Scanner.PhotoScannerService.SaveScanResult | CodewayCaseStudy-iOS/Services/PhotoScannerService.swift:172-190 | a successful write replaces the result file with a record that loads back as the result; a failed write leaves the file as it was |
| Scanner.PhotoScannerService.LoadPersistedScanResult | CodewayCaseStudy-iOS/Services/PhotoScannerService.swift:192-232 | returns what the result file decodes to, or `nil` |
| Scanner.PhotoScannerService.SaveScanProgress | CodewayCaseStudy-iOS/Services/PhotoScannerService.swift:236-264 | a successful write replaces the progress file with the encoded checkpoint; a failed write leaves it as it was |
| Scanner.PhotoScannerService.LoadPersistedScanProgress | CodewayCaseStudy-iOS/Services/PhotoScannerService.swift:266-316 | returns what the progress file decodes to, or `nil` |
| Scanner.PhotoScannerService.ClearScanProgress | CodewayCaseStudy-iOS/Services/PhotoScannerService.swift:318-323 | afterwards no progress file exists; with none to begin with nothing changes, so clearing twice is clearing once |
| Scanner.PhotoScannerService.HasPendingScanProgress | CodewayCaseStudy-iOS/Services/PhotoScannerService.swift:340-343 | true exactly when a progress file exists, including one that will not load |
| Scanner.PhotoScannerService.BeginScan | CodewayCaseStudy-iOS/Services/PhotoScannerService.swift:81-102 | starts where the resume decision for the loaded progress says; emits the restored report or clears the record, as the decision requires |
| Scanner.PhotoScannerService.ClassifyRemaining | CodewayCaseStudy-iOS/Services/PhotoScannerService.swift:127-158 | the loop ends with the accumulator of all remaining photos; its events are `ScanSpec.LoopEvents` over its range, and the progress file is the one those events leave |
| Scanner.PhotoScannerService.Checkpoint | CodewayCaseStudy-iOS/Services/PhotoScannerService.swift:142-157 | saves the snapshot, then reports progress and the same snapshot |
| Scanner.PhotoScannerService.ScanAndGroupAllPhotos | CodewayCaseStudy-iOS/Services/PhotoScannerService.swift:66-168 | the scan produces exactly `ScanSpec.ScanTrace` for the progress record it finds, and leaves no progress file behind |
| ScanSpec.ResumeDecision | CodewayCaseStudy-iOS/Services/PhotoScannerService.swift:81-102 | resumes exactly when asked to, a record loads and its total equals the photo count; then restores its index and lists, otherwise starts at 0 from a fresh accumulator |
| ScanSpec.IsCheckpoint | CodewayCaseStudy-iOS/Services/PhotoScannerService.swift:142 | the cadence rule: a checkpoint is due when the processed count is a multiple of 10 or equals the total |
| ScanSpec.OpeningEvents | CodewayCaseStudy-iOS/Services/PhotoScannerService.swift:84-102 | a scan that does not resume clears the progress record and does nothing else first; one that resumes reports the restored state exactly when it resumes past zero |
| ScanSpec.CheckpointEvents | CodewayCaseStudy-iOS/Services/PhotoScannerService.swift:142-156 | a checkpoint: save the record of the snapshot, then report progress, then report the snapshot |
| ScanSpec.LoopEvents | CodewayCaseStudy-iOS/Services/PhotoScannerService.swift:127-158 | the loop's events over a range of photos, iteration by iteration; characterised by `LoopSavedCounts`, `LoopProgressValues`, `LoopCheckpointRecords`, `LoopPartialUpdates` and `LoopHasNoCompletion` |
| ScanSpec.StepEvents | CodewayCaseStudy-iOS/Services/PhotoScannerService.swift:139-157 | the events of one iteration: a checkpoint when one is due, otherwise nothing; characterised by `StepEventsShape` |
| ScanSpec.StepEventsShape | CodewayCaseStudy-iOS/Services/PhotoScannerService.swift:139-157 | an iteration emits nothing exactly when no checkpoint is due; otherwise three events, the first a save of that iteration's processed count, and only the third a snapshot |
| ScanSpec.BodyEvents | CodewayCaseStudy-iOS/Services/PhotoScannerService.swift:104-125 | the loop part of a scan: nothing when there are no photos or the start index has reached the total, otherwise the loop from the start index; characterised by `BodyEventsEmpty` |
| ScanSpec.BodyEventsEmpty | CodewayCaseStudy-iOS/Services/PhotoScannerService.swift:104-158 | the loop part of a scan is empty exactly when the start index has reached the photo count, because the last photo always completes a checkpoint |
| ScanSpec.CompletedResult | CodewayCaseStudy-iOS/Services/PhotoScannerService.swift:104-160 | the result passed to `completion` on each of the three ways out; characterised by `ScanTraceCases`, `FreshScanResult` and `Content.ScanLastCompletion` |
| ScanSpec.ApplyToProgressFile | CodewayCaseStudy-iOS/Services/PhotoScannerService.swift:258-263 | what one event does to the progress file, including the removal at lines 318-323; characterised by `ProgressFileEffect` |
| ScanSpec.ProgressFileEffect | CodewayCaseStudy-iOS/Services/PhotoScannerService.swift:258-263 | a clear leaves no progress file and nothing to load; a written save leaves a record that loads back as the saved checkpoint; a failed save and every report leave the file as it was |
| ScanSpec.ProgressFileAfter | CodewayCaseStudy-iOS/Services/PhotoScannerService.swift:127-166 | the progress file after a run of events; characterised by `ProgressFileAfterConcat`, `ScanLeavesNoProgress` and `ResumableAtEveryPoint` |
| ScanSpec.ProgressFileAfterConcat | CodewayCaseStudy-iOS/Services/PhotoScannerService.swift:127-166 | applying two runs of events one after the other is the same as applying them joined |
| ScanSpec.ScanTrace | CodewayCaseStudy-iOS/Services/PhotoScannerService.swift:66-168 | the whole trace of a scan: the opening events, the loop's checkpoints from the start index on, then a clear and `completion`; its properties are the `ScanSpec` lemmas below |
| ScanSpec.ScanTraceCases | CodewayCaseStudy-iOS/Services/PhotoScannerService.swift:104-166 | without photos, or from a finished checkpoint, the scan goes straight to clear-and-complete with the restored accumulator; otherwise it runs the loop and completes with the accumulator of the remaining photos |
| ScanSpec.ScanCompletesOnce | CodewayCaseStudy-iOS/Services/PhotoScannerService.swift:160-166 | on every path the last two events are a clear of the progress record and `completion` with the result; `completion` occurs nowhere else |
| ScanSpec.ScanLeavesNoProgress | CodewayCaseStudy-iOS/Services/PhotoScannerService.swift:105-124 | whatever the writes did, the progress file is gone once the scan has completed |
| ScanSpec.LoopHasNoCompletion | CodewayCaseStudy-iOS/Services/PhotoScannerService.swift:127-158 | the loop only saves, reports progress and reports snapshots |
| ScanSpec.FreshScanResult | CodewayCaseStudy-iOS/Services/PhotoScannerService.swift:75-79 | a scan that does not resume completes with all keys present, each group holding exactly its photos, `others` the unmatched ones, and sizes adding up to the photo count |
| ScanSpec.LoopProgressValues | CodewayCaseStudy-iOS/Services/PhotoScannerService.swift:139-157 | the loop reports progress exactly at the due checkpoints of its range |
| ScanSpec.CadencePointsSpec | CodewayCaseStudy-iOS/Services/PhotoScannerService.swift:142 | the due checkpoints of a range are exactly the counts in it that are a multiple of 10 or the total, in increasing order |
| ScanSpec.ScanProgressValues | CodewayCaseStudy-iOS/Services/PhotoScannerService.swift:92-98 | a scan's progress reports are the restored count, when it resumes past zero, followed by every due checkpoint after the start |
| ScanSpec.ScanProgressIncreasing | CodewayCaseStudy-iOS/Services/PhotoScannerService.swift:139-157 | the processed counts a scan reports strictly increase |
| ScanSpec.TwentyFivePhotos | CodewayCaseStudy-iOS/Services/PhotoScannerService.swift:141-142 | a fresh scan of 25 photos reports progress at 10, 20 and 25 |
| ScanSpec.LoopSavedCounts | CodewayCaseStudy-iOS/Services/PhotoScannerService.swift:142-151 | the loop saves a progress record exactly at the due checkpoints of its range, in order, and at no other count |
| ScanSpec.BodySavedCounts | CodewayCaseStudy-iOS/Services/PhotoScannerService.swift:127-158 | the loop part of a scan saves exactly at the due checkpoints after the start, and nothing when the start is already complete |
| ScanSpec.ScanSavedCounts | CodewayCaseStudy-iOS/Services/PhotoScannerService.swift:142-151 | a whole scan saves a progress record exactly at every due checkpoint after its start; resuming, clearing and finishing save nothing |
| ScanSpec.LoopCheckpointRecords | CodewayCaseStudy-iOS/Services/PhotoScannerService.swift:143-155 | every saved record is due, holds its processed count, the total and the accumulator at that point, and is followed by `progress` with those counts and by a snapshot equal to what the record loads back as |
| ScanSpec.CheckpointRecord | CodewayCaseStudy-iOS/Services/PhotoScannerService.swift:143-156 | a checkpoint saves the record of its snapshot, reports that count, and then reports a snapshot equal to what the record loads back as |
| ScanSpec.LoopPartialUpdates | CodewayCaseStudy-iOS/Services/PhotoScannerService.swift:142-157 | the loop reports a snapshot only straight after a save and the progress report of that save's count, never elsewhere |
| ScanSpec.ScanPartialUpdates | CodewayCaseStudy-iOS/Services/PhotoScannerService.swift:92-157 | every snapshot of a scan is either the restored accumulator, reported second after the restored count when the scan resumes past zero, or comes straight after a loop save and the progress report of that save's count |
| ScanSpec.ResumableAtEveryPoint | CodewayCaseStudy-iOS/Services/PhotoScannerService.swift:84-90 | if the process stops anywhere before the final clear, resuming from the file left behind completes with the same result, failed writes included |
| ScanSpec.ResumeReproducesFreshScan | CodewayCaseStudy-iOS/Services/PhotoScannerService.swift:84-90 | resuming from any checkpoint of a fresh scan completes with the fresh scan's result |
| GroupsViewModel.GroupSummaryCorrect | CodewayCaseStudy-iOS/ViewModels/PhotoGroupsViewModel.swift:27-34 | `(g, n)` is listed exactly when the result holds `n > 0` photos for `g`, in `allCases` order, at most one entry per case; an absent key gives no entry |
| GroupsViewModel.GroupSummary | CodewayCaseStudy-iOS/ViewModels/PhotoGroupsViewModel.swift:27-34 | the `(group, count)` list the closure builds; characterised by `GroupSummaryCorrect` |
| GroupsViewModel.SummaryTotal | CodewayCaseStudy-iOS/ViewModels/PhotoGroupsViewModel.swift:29-33 | the listed counts add up to the photos the result holds under its cases |
| GroupsViewModel.FreshScanSummary | CodewayCaseStudy-iOS/ViewModels/PhotoGroupsViewModel.swift:27-37 | after a fresh scan, each listed count is the number of photos classified into the group, and the counts plus `othersCount` add up to the photo count |
| GroupsViewModel.CollectGroupCounts | CodewayCaseStudy-iOS/ViewModels/PhotoGroupsViewModel.swift:27-34 | the closure's loop over `allCases` builds exactly the summary |
| GroupsViewModel.PhotoGroupsViewModel.constructor | CodewayCaseStudy-iOS/ViewModels/PhotoGroupsViewModel.swift:15-17 | starts with no groups, zero others and not loaded |
| GroupsViewModel.PhotoGroupsViewModel.OnScanCompleted | CodewayCaseStudy-iOS/ViewModels/PhotoGroupsViewModel.swift:24-39 | publishes the summary, the number of unmatched photos and the loaded flag |
| Content.Uppercased | CodewayCaseStudy-iOS/ContentView.swift:122 | upper-casing keeps the length and maps each character |
| Content.Label | CodewayCaseStudy-iOS/ContentView.swift:122 | the upper-cased raw value shown for a group; characterised by `Uppercased` and `LabelsDistinct` |
| Content.LabelsDistinct | CodewayCaseStudy-iOS/ContentView.swift:122-129 | distinct groups get distinct labels, and none is `"Other"` |
| Content.GroupCountsCorrect | CodewayCaseStudy-iOS/ContentView.swift:116-132 | a group's label with `n` is listed exactly when the result holds `n > 0` photos for it; `("Other", n)` is listed, last, exactly when `n` unmatched photos exist and `n > 0`; labels are distinct; the group entries follow `allCases` order; at most one entry per case plus one; empty exactly when the result holds no photo |
| Content.GroupCountsOrdered | CodewayCaseStudy-iOS/ContentView.swift:116-132 | the group entries of the main screen's list appear in `allCases` order |
| Content.GroupCounts | CodewayCaseStudy-iOS/ContentView.swift:116-132 | the labelled list the closure assigns to `groupCounts`; characterised by `GroupCountsCorrect` |
| Content.CollectLabelledCounts | CodewayCaseStudy-iOS/ContentView.swift:116-130 | the closure's two appending steps build exactly the labelled counts |
| Content.ContentView.constructor | CodewayCaseStudy-iOS/ContentView.swift:10-17 | the screen starts without permission, unchecked, not scanning, with zero counts and an empty list |
| Content.ContentView.OnPermissionResult | CodewayCaseStudy-iOS/ContentView.swift:91-99 | records the answer and marks it checked; starts a scan only when access was granted, and otherwise leaves the scan state alone |
| Content.ContentView.StartScan | CodewayCaseStudy-iOS/ContentView.swift:102-106 | scanning, with zero counts and an empty list |
| Content.ContentView.OnProgress | CodewayCaseStudy-iOS/ContentView.swift:109-112 | overwrites the two counts with the reported ones and touches nothing else |
| Content.ContentView.OnCompletion | CodewayCaseStudy-iOS/ContentView.swift:113-133 | stops scanning and lists the labelled counts of the result |
| Content.ContentView.Observe | CodewayCaseStudy-iOS/ContentView.swift:108-134 | after a scan's callbacks in order, the counts are those of the last `progress` and the list is that of the last `completion`; what no callback touched keeps its value |
| Content.ScanLastCompletion | CodewayCaseStudy-iOS/Services/PhotoScannerService.swift:160-166 | the last `completion` of every scan carries its result, so the screen ends up listing that result |
| Content.ScanLastProgress | CodewayCaseStudy-iOS/Services/PhotoScannerService.swift:139-157 | a scan that classifies at least one photo reports, last, that all photos are done |

## Left out

- Photos framework: fetching the assets, authorization, and re-fetching assets by identifier are not modelled.
  - A scan takes the identifiers in library order as a sequence.
  - Authorization is the boolean passed to the permission callback; `requestPhotoAccess` itself is not modelled.
  - Re-fetching by identifier at lines 208-216 and 287-303 can drop deleted photos or reorder them. The round trips therefore hold at the identifier level only.
- `reliableHash()` and `PhotoGroup.group(for:)` are not part of this model; the classifier is a parameter.
- The `PhotoGroup` enumeration's declaration is not part of this model.
  - A four-case stand-in with one-letter raw values is used.
  - `Content.LabelsDistinct` depends on those raw values, and so does `Content.GroupCountsCorrect` through it: its distinct-labels clause and both of its label equivalences.
  - Every other proof uses only that `allCases` lists each case exactly once and that `FromRawValue` inverts `RawValue`.
- Upper-casing is modelled for ASCII letters only; Unicode case mapping is not modelled.
- JSON encoding, `FileManager` and the document-directory URLs are not modelled.
  - Each write replaces a whole record atomically, and a write that fails is a parameter. The app only logs a failed write, so the file stays as it was.
  - A record that will not decode is a separate state.
  - Counts are natural numbers, so a hand-edited file with a negative count is not represented.
- Scanner.PhotoScannerService.ClearScanProgress: removal is taken to succeed. A `removeItem` failure swallowed by `try?` would leave the file in place.
- Scanner.PhotoScannerService.BeginScan: the restored report is idealised.
  - The model's `partialUpdate` carries the lists as restored.
  - In the code, the main-queue block at lines 94-97 captures the local `groups` and `others` variables without copying them. The worker closure at lines 114-137 appends to those same variables.
  - So the restored snapshot holds whatever the lists contain when the block runs. That can include photos the loop has already classified.
  - The checkpoint snapshots at lines 143-144 are copied first, and the model is exact for them.
- The dispatch hops, `[weak self]` and the timing of callbacks are not modelled.
  - Callbacks are events in dispatch order.
  - A released service is not modelled.
  - Delivery to the view is modelled only as a whole trace, by `Content.ContentView.Observe`.
- The percentage and `ProgressView` arithmetic in `ContentView.body` use floating point and are not modelled, nor is any layout.
- The code has no guard against a second concurrent scan, and `scanAndGroupAllPhotos` never calls `saveScanResult`, so a finished scan does not save its result. The model has neither.
- Both consumers call `scanAndGroupAllPhotos` without the `resumeIfPossible` and `partialUpdate` arguments its signature requires. The closures they pass are modelled as the handlers `GroupsViewModel.PhotoGroupsViewModel.OnScanCompleted`, `Content.ContentView.OnProgress` and `Content.ContentView.OnCompletion`.
