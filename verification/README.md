# Counter Cruiser: a verified model

Counter Cruiser keeps a dog off the kitchen counter. A client reads a camera, sends numbered frames to
an inference server over a WebSocket, classifies each answer as "elevated" or "floor" against polygon
zones, waits for two elevated frames close together, and then alerts a chain of handlers under a
per-zone cooldown. A dashboard shows the live picture and edits the zones.

This project models that client, the server's connection handler and the stores around them, and proves
what their runs guarantee. `dafny verify dfyconfig.toml` checks all of it.

| file | what it models |
|---|---|
| `Common`, `Sorting`, `Models` | options, results, Python's slices and `sorted`; zones, boxes, messages |
| `Geometry` | test points, zone containment, the classification of one frame |
| `Debounce` | the bounded detection history and its sorted gap test |
| `AlertManager` | the cooldown table, suppression, the isolated fan-out |
| `FpsTracker`, `Dashboard` | the windowed rate estimate; the shared dashboard state |
| `Pipeline` | the result callback, composed of the above, over all its runs |
| `ServerHandler`, `Transport`, `SessionProtocol` | the server's loop, the client session, and both together over two channels |
| `SessionProgress` | that a session gets on: what is due is sent, what is sent is answered, lost connections come back |
| `ClientRuns` | sessions and callback together |
| `ZoneDocument`, `ZoneStore` | the configuration document; the versioned store over list and file |
| `SnapshotNames`, `Snapshot`, `SnapshotRuns` | snapshot names; the handler; what its runs leave in the directory |
| `Mjpeg` | the rate-limited stream |

Objects that the program updates in place are classes whose methods carry loops and assignments. Each
such method is tied to a function of the old state, and the properties of whole runs are lemmas about
those functions. Concurrency is modelled by interleaving: `SessionProtocol.Step` takes one event at a
time (a pass of the send loop, a hand-over to the socket, a server reply, a receive, a drop, a
reconnect, a stop), in any order; `ZoneStore.Do` takes one critical section at a time, in the order of
the lock.

What stands outside enters as a parameter: clock readings (reals, never decreasing), the time an
iteration of the stream spends on work, consumer and waking up, the polygon test (any relation between
polygons and points), what the model finds in a captured frame (any function of the frame), whether an
inference, an encoding, a file write or a handler raises and at which stage, and the version a file write
receives.

## What the code does not do

The model follows the code. Where that falls short of what is documented, the point is proved:

- The repository's README.md:139 speaks of one shared per-zone cooldown. A call that names no zone is never on cooldown
  (`counter_cruiser/client/alerts/manager.py:39`), and the debouncer stays actionable after the dog has
  left, so after a trigger up to `max_size - 2` alerts without a zone go out, however long the cooldown
  is. `Pipeline.QuietBound` and `Pipeline.QuietBoundReached` give the exact number;
  `Pipeline.AlertsWithoutDog` is a run that reaches it.
- The cooldown is tested per call: a zone still on cooldown is alerted again exactly when the call also
  names a zone that is not (`AlertManager.RepeatIff`; `AlertManager.RepeatHappens` is a run where it is).
- A history of capacity 0 keeps everything; every other capacity keeps the most recent records
  (`Debounce.RetainedIsWindow`).
- The repository's README.md:99 calls the configuration file the single source of truth. A hand edit changes the version
  but not the list in memory; its zones survive the next creation exactly when they equal that list
  (`ZoneStore.HandEditSurvives`). `ZoneStore.HandEditLost` renames a zone by hand and loses the name.
- A rewrite that raises leaves the list changed under the old version, so a version no longer pins a
  list (`ZoneStore.FailedWriteBreaksSnapshot`). The next successful change brings list and file together
  again (`ZoneStore.SuccessSynchronises`).
- Snapshots are ranked by name, not by age. As long as no stamp repeats, after an alert that stored both
  files and pruned to the end an image is there exactly when fewer than `max_count` others have a later stamp
  (`SnapshotRuns.KeptByStamp`), so after the clock was set back the newest can be deleted by its own
  trigger (`SnapshotRuns.NewestLost`).
- The snapshot cap (`counter_cruiser/client/alerts/snapshot.py:1`) is enforced only after a sidecar was written. Until an alert
  completes again, and as long as no deletion fails, exactly the images written since stay as well (`SnapshotRuns.ImagesSincePrune`,
  `SnapshotRuns.KeptSincePrune`), and the cap is exceeded by up to their number
  (`SnapshotRuns.CapBound`), which has no limit (`SnapshotRuns.CapExceeded`). `SnapshotRuns.OlderStays`
  has two images with room for one.
- `counter_cruiser/client/web/mjpeg.py:88-89` promises to bound the emission rate. The loop spaces the
  starts of its iterations; two parts are an interval apart exactly when producing the first took no
  longer than producing the second and what the first iteration overran (`Mjpeg.ApartIff`).
  `Mjpeg.BunchedStream` is the loop emitting two parts at any smaller gap, and `Mjpeg.WindowBound` says how
  many parts a window can hold then.

## Model

The last ten rows, from `Geometry.TestPointsAre` on, are single steps that the others build on.

| member | source | states |
|---|---|---|
| `Sorting.SortedCorrect` | counter_cruiser/shared/debounce.py:37-40 | what the built-in sort gives: an ordered rearrangement |
| `Geometry.CheckZones` | counter_cruiser/shared/geometry.py:35-49 | the nested loop returns the ids of the enabled zones holding a test point, in zone order, once per zone |
| `Geometry.TouchedIdsAre` | counter_cruiser/shared/geometry.py:35-49 | an id is reported exactly when some enabled zone with that id holds a test point |
| `Geometry.TouchedIdsInOrder` | counter_cruiser/shared/geometry.py:35-49 | the ids come in zone order, one for each such zone |
| `Geometry.AnalyzeDogPosition` | counter_cruiser/shared/geometry.py:52-66 | a box is elevated exactly when it is tall and touches a zone |
| `Geometry.AnalyzeDetections` | counter_cruiser/shared/geometry.py:69-83 | the accumulating loop computes the order-free analysis: the zones touched by tall boxes, and no others |
| `Geometry.ElevatedIff` | counter_cruiser/shared/geometry.py:62-83 | elevated exactly when a zone is named, exactly when a tall box has a test point in an enabled zone |
| `Geometry.TriggeredIff` | counter_cruiser/shared/geometry.py:69-83 | a zone is named exactly when a tall box has a test point in an enabled zone with that id |
| `Geometry.MoreBoxesMoreZones` | counter_cruiser/shared/geometry.py:69-83 | adding boxes only adds zones; order and repetition of boxes do not matter |
| `Debounce.DetectionHistory.Add` | counter_cruiser/shared/debounce.py:29-33 | the in-place append and slice keep exactly the last `max_size` of all results ever added, for every capacity of at least 1 |
| `Debounce.DetectionHistory.IsConsecutiveElevated` | counter_cruiser/shared/debounce.py:35-46 | the answer is whether two of the last `max_size` results are elevated with ids within the gap, for every capacity of at least 1 |
| `Debounce.RetainedIsWindow` | counter_cruiser/shared/debounce.py:31-33 | over any adds the kept records are the most recent ones, if and only if the capacity is not 0 or nothing was added |
| `Debounce.AdjacentGapIffAnyTwo` | counter_cruiser/shared/debounce.py:35-46 | comparing sorted neighbours decides "any two within the gap", in any arrival order, with repeated ids, for any gap |
| `Debounce.QuietAdd` | counter_cruiser/shared/debounce.py:29-46 | a floor result never makes the history actionable |
| `Debounce.QuietTail` | counter_cruiser/shared/debounce.py:29-46 | after `max_size - 1` floor results the history is not actionable |
| `AlertManager.AlertManager.MaybeAlert` | counter_cruiser/client/alerts/manager.py:34-61 | suppressed exactly when every named zone was dispatched less than the cooldown ago; suppression changes nothing; a dispatch marks every zone and fans out |
| `AlertManager.AlertManager.DeterrentFirst` | counter_cruiser/client/alerts/manager.py:34-36 | the fan-out that a dispatch performs invokes each handler once, the deterrent before all others, the others in their order |
| `AlertManager.AlertManager.TriggerAll` | counter_cruiser/client/alerts/manager.py:57-61 | the loop invokes every handler, whichever of them raise: an exception is caught and logged, in order, and the loop goes on |
| `AlertManager.RaisingIs` | counter_cruiser/client/alerts/manager.py:57-61 | the failures logged are exactly the raising handlers, in order, each as often as it is registered |
| `AlertManager.TableAgreesWithLog` | counter_cruiser/client/alerts/manager.py:38-56 | the table holds each zone's latest dispatch time, and no other zone |
| `AlertManager.SuppressedIff` | counter_cruiser/client/alerts/manager.py:38-54 | the table test agrees with the full log of dispatches, and a suppressed call leaves the whole state alone |
| `AlertManager.DispatchesJustified` | counter_cruiser/client/alerts/manager.py:38-56 | over any run, every dispatch that names zones names one that was off cooldown |
| `AlertManager.RepeatIff` | counter_cruiser/client/alerts/manager.py:38-56 | a call naming a zone still on cooldown is dispatched exactly when it also names one that is not |
| `AlertManager.RepeatHappens` | counter_cruiser/client/alerts/manager.py:38-56 | such a run: the same zone alerted twice within a fifth of the cooldown |
| `AlertManager.RepeatNeedsAnother` | counter_cruiser/client/alerts/manager.py:38-56 | two dispatches of one zone less than a cooldown apart: the later names another zone, itself off cooldown; so dispatches of a zone alone are a cooldown apart |
| `AlertManager.RateBound` | counter_cruiser/client/alerts/manager.py:38-61 | in any half-open window of one cooldown, no more dispatches that name a zone than zones they name |
| `AlertManager.LongRunBound` | counter_cruiser/client/alerts/manager.py:38-61 | with n zones in all, m cooldowns of time hold at most n times m such dispatches |
| `FpsTracker.FpsTracker.Tick` | counter_cruiser/client/__main__.py:73-83 | evicting from the left leaves exactly the arrivals of the window; the estimate is gaps over span, positive exactly with two arrivals at different times, at least gaps over window |
| `FpsTracker.SinceIsTail` | counter_cruiser/client/__main__.py:73-83 | what remains is a tail of all arrivals: those at or after the cutoff, and no earlier one |
| `Dashboard.DashboardState.RecordAlert` | counter_cruiser/client/web/state.py:132-135 | the bounded deque keeps showing the newest entries ever recorded |
| `Dashboard.DashboardState.GetAlerts` | counter_cruiser/client/web/state.py:137-140 | the newest entries ever recorded, newest first, up to the capacity |
| `Pipeline.ResultHandler.OnResult` | counter_cruiser/client/__main__.py:137-182 | one result takes the collaborators' histories one step, shows frame, detection, latency, connection and the rate over the arrivals of the window on the dashboard, and fans out exactly when the step dispatches |
| `Pipeline.Assemble` | counter_cruiser/client/__main__.py:116-128 | the entry point's callback: 20 results, 5 seconds, 50 alerts, nothing handled yet |
| `Pipeline.RunRecords` | counter_cruiser/client/__main__.py:142-175 | over any run every result is recorded and the manager is called exactly for the actionable ones, in order |
| `Pipeline.RunShowsCalls` | counter_cruiser/client/__main__.py:175-182 | the dashboard's history has one entry per call of the manager, suppressed calls included, each about the result that made the call; every result ticks the rate |
| `Pipeline.DispatchedWhen` | counter_cruiser/client/__main__.py:142-175 | a result is dispatched exactly when it makes the last results actionable and the table built by all calls before does not suppress it |
| `Pipeline.LogIsDispatchedResults` | counter_cruiser/client/__main__.py:167-175 | the manager's log is the dispatched results, in order |
| `Pipeline.ActionableIff` | counter_cruiser/client/__main__.py:142-143 | the callback is actionable exactly when two of the last results show a dog up with ids at most 2 apart |
| `Pipeline.CooldownIff` | counter_cruiser/client/__main__.py:167-175 | an actionable result is dispatched exactly when it names no zone or one outside every dispatch of the last cooldown |
| `Pipeline.EndToEnd` | counter_cruiser/client/__main__.py:137-175 | an alert goes out at a result exactly when both conditions hold, from boxes and zone snapshots to dispatch |
| `Pipeline.QuietStretch` | counter_cruiser/client/__main__.py:142-175 | without a dog: actionability is not regained, is gone by result `max_size - 1`, dispatches name no zone and are never suppressed |
| `Pipeline.NotRegained` | counter_cruiser/shared/debounce.py:29-46 | once lost, actionability stays lost for the rest of a quiet stretch of any length |
| `Pipeline.QuietBound` | counter_cruiser/client/__main__.py:142-175 | at most `max_size - 2` dispatches in any quiet stretch |
| `Pipeline.QuietBoundReached` | counter_cruiser/client/alerts/manager.py:38-49 | that number is reached after every two neighbouring elevated results with ids at most 2 apart, whatever the cooldown |
| `Pipeline.AlertsWithoutDog` | counter_cruiser/client/__main__.py:142-175 | for every capacity of at least 2 and every cooldown, a run in which the dog leaves and exactly `max_size - 2` alerts without a zone follow |
| `ServerHandler.HandleConnection` | counter_cruiser/server/handler.py:25-54 | the receive loop sends the replies in order, up to the send that finds the peer gone |
| `ServerHandler.OneReplyPerFrame` | counter_cruiser/server/handler.py:29-52 | frames are answered one for one, in order, under their ids, by what the model finds in that frame or by an error |
| `ServerHandler.EveryMessageAnswered` | counter_cruiser/server/handler.py:29-52 | any messages: each ping, frame and unparsable message has its answer, in order, and there are no other replies |
| `Transport.ClientSession.SendPass` | counter_cruiser/client/transport.py:121-137 | one pass of the send loop: unreadable, skipped, unencodable and sendable frames |
| `Transport.ClientSession.ReceivePass` | counter_cruiser/client/transport.py:140-154 | a detection leaves the pending table and yields its latency; an error or pong changes nothing |
| `Transport.RetainKeepsNewest` | counter_cruiser/client/transport.py:131-134 | assign-then-evict keeps exactly the newest frames, for every capacity |
| `Transport.LookupNewest` | counter_cruiser/client/transport.py:156-158 | such a buffer finds the frame captured under an id when it is recent enough, else nothing |
| `Transport.LookupAfterPut` | counter_cruiser/client/transport.py:131-158 | an assigned frame is found under its id, every other as before |
| `SessionProtocol.StepConserved` | counter_cruiser/client/transport.py:82-154 | every step of client, server and channels keeps the conservation of ids |
| `SessionProtocol.Conservation` | counter_cruiser/client/transport.py:104-154 | received, returning, outgoing and registered ids are together the contiguous run of this connection; pending is what is under way plus what failed |
| `SessionProtocol.EveryNthIsNumbered` | counter_cruiser/client/transport.py:121-137 | over any run, of the frames the camera gave on a connection exactly every `frame_skip`-th is numbered, in order; unreadable ones do not count |
| `SessionProtocol.DeliveredInOrder` | counter_cruiser/client/transport.py:82-147 | over the whole session, reconnects included, the callback is given exactly the detections received, in order; ids strictly increase; the boxes are those found in the frame captured under the id |
| `SessionProtocol.ReceivesExactly` | counter_cruiser/client/transport.py:140-154 | in any run a received detection goes to the callback and the dashboard with the time from its frame's registration to this clock reading; an error goes to nobody and pops nothing |
| `SessionProtocol.StepGenuine` | counter_cruiser/client/transport.py:121-147 | every step keeps frames under way, answers and deliveries about the frame captured under their id |
| `SessionProtocol.NoFallback` | counter_cruiser/client/transport.py:145-147 | a received detection is always found in the pending table |
| `SessionProtocol.FrameBuffer` | counter_cruiser/client/transport.py:130-158 | after any run the buffer is exactly the last frames, and a lookup gives the very frame or nothing |
| `SessionProtocol.DetectionFindsFrame` | counter_cruiser/client/__main__.py:157-159 | the callback finds its frame exactly when fewer than the capacity are under way behind it |
| `SessionProtocol.ConnectionFlag` | counter_cruiser/client/transport.py:82-100 | the flag is up exactly through serving and down through connecting and waiting; connecting and losing the connection keep the other figures |
| `SessionProtocol.StopIsFinal` | counter_cruiser/client/transport.py:82-100 | after a stop no later pass numbers a frame and a waiting session does not come back |
| `SessionProgress.PassSends` | counter_cruiser/client/transport.py:121-137 | one pass in any run: an unreadable frame is nothing, one not due is counted, one due gets the next id and is at the socket, unless it cannot be encoded, which ends the session |
| `SessionProgress.EverythingIsAnswered` | counter_cruiser/client/transport.py:121-154 | from any point of any run, without another frame sent, every frame sent is answered and received in order, until nothing is under way |
| `SessionProgress.ConnectsAgain` | counter_cruiser/client/transport.py:82-106 | unless stopped, a session whose connection failed or dropped waits, tries again and serves again, with ids, frames and deliveries kept and nothing pending |
| `SessionProgress.EndsOnlyFor` | counter_cruiser/client/transport.py:82-100 | in any run a session that has ended was stopped or could not encode a frame |
| `SessionProgress.StopEnds` | counter_cruiser/client/transport.py:82-138 | after a stop the session ends, wherever it was |
| `ClientRuns.AlertsComeFromTwoFrames` | counter_cruiser/client/__main__.py:137-188 | under any interleaving an alert goes out exactly when two frames captured in the session, at most two numbers apart, show a dog up and were answered among the last `max_size` results, and a current zone is off cooldown or none is named |
| `ZoneDocument.WriteLoadAgree` | counter_cruiser/client/web/zone_store.py:136-150 | writer and loader agree on every document: what is written is loaded, all else is kept, a second write replaces the first |
| `ZoneDocument.LoaderReads` | counter_cruiser/config/loader.py:16-23 | by the keys of the file: zones under the wrapper or at the top, none when the key is absent, a failure for anything else or an invalid zone |
| `ZoneDocument.WriterKeeps` | counter_cruiser/client/web/zone_store.py:136-150 | every other key, outside and inside the wrapper, stays as it was |
| `ZoneDocument.UnusableWrapper` | counter_cruiser/client/web/zone_store.py:141-150 | a wrapper that is no table can be neither loaded nor written |
| `ZoneStore.ZoneStore.CreateZone` | counter_cruiser/client/web/zone_store.py:80-87 | checks, append and rewrite, with every failure |
| `ZoneStore.ZoneStore.EditZone` | counter_cruiser/client/web/zone_store.py:89-117 | a partial update of the first zone with the id, validated before anything changes |
| `ZoneStore.ZoneStore.DeleteZone` | counter_cruiser/client/web/zone_store.py:119-125 | removal of the first zone with the id |
| `ZoneStore.EqualIsFirst` | counter_cruiser/client/web/zone_store.py:106-124 | locating a found zone by value leads to the first one with its id, even with duplicates |
| `ZoneStore.AppliesIff` | counter_cruiser/client/web/zone_store.py:80-125 | a creation succeeds exactly with a new id, a deletion with a known one, an edit with a known one and at least three vertices afterwards; and the reason of each refusal |
| `ZoneStore.ChangedIff` | counter_cruiser/client/web/zone_store.py:64-160 | a call changes the store exactly when the file is there, the version is current, the mutation is possible and the rewrite goes through; each refusal has its reason, in that order |
| `ZoneStore.ApplyTouchesOne` | counter_cruiser/client/web/zone_store.py:80-125 | a change appends, replaces or removes one zone and leaves the others, field by field |
| `ZoneStore.NoLostUpdate` | counter_cruiser/client/web/zone_store.py:52-125 | a change that succeeds is applied to exactly the list read with its version, whatever calls and hand edits came between |
| `ZoneStore.OneSuccessPerVersion` | counter_cruiser/client/web/zone_store.py:64-125 | at most one change per version succeeds, hand edits or not |
| `ZoneStore.VersionPins` | counter_cruiser/client/web/zone_store.py:48-62 | equal versions mean equal list and file, hand edits or not, as long as versions are fresh and no rewrite fails |
| `ZoneStore.FinalIsFold` | counter_cruiser/client/web/zone_store.py:80-150 | the final list is the successful changes applied in order; the file holds it; everything else in the file is kept |
| `ZoneStore.RefusedChangesNothing` | counter_cruiser/client/web/zone_store.py:82-125 | a refused call changes neither list nor file, save that a failing rewrite leaves the list changed |
| `ZoneStore.SuccessSynchronises` | counter_cruiser/config/loader.py:16-23 | after any success a client started from the file gets the list in memory |
| `ZoneStore.RunKeepsWellFormed` | counter_cruiser/config/models.py:23-29 | unique ids and polygons of three points survive every run, hand edits and failing writes included |
| `ZoneStore.HandEditSurvives` | counter_cruiser/client/web/zone_store.py:61-62 | hand-edited zones survive the next creation exactly when they equal the list in memory |
| `ZoneStore.HandEditLost` | counter_cruiser/client/web/zone_store.py:61-87 | such a run: a zone renamed by hand has its old name again after the next creation |
| `ZoneStore.FailedWriteBreaksSnapshot` | counter_cruiser/client/web/zone_store.py:86-87 | after a failing rewrite one version shows two lists, exactly when the change changed something |
| `SnapshotNames.PadOrder` | counter_cruiser/client/alerts/snapshot.py:44 | zero-padded numbers of one width compare as numbers |
| `SnapshotNames.StampOrder` | counter_cruiser/client/alerts/snapshot.py:43-44 | the order of stamps is the order of times, both ways |
| `SnapshotNames.LaterNameIsGreater` | counter_cruiser/client/alerts/snapshot.py:43-46 | a later snapshot has the greater name, whatever the frame ids |
| `SnapshotNames.NameDetermines` | counter_cruiser/client/alerts/snapshot.py:43-46 | two snapshots have one name only if time and frame id are the same |
| `SnapshotNames.NameForm` | counter_cruiser/client/alerts/snapshot.py:44-46 | stamp, `_frame`, the frame id in decimal digits that read back as it, `.jpg` |
| `SnapshotNames.StampForm` | counter_cruiser/client/alerts/snapshot.py:44 | the digits of year, month and day read back as those numbers, before a T and the time of day |
| `SnapshotNames.ClockForm` | counter_cruiser/client/alerts/snapshot.py:44 | the digits of hour, minute, second and fraction read back as those numbers |
| `Snapshot.OneStem` | counter_cruiser/client/alerts/snapshot.py:44-46 | image and sidecar have one stem |
| `Snapshot.SnapshotHandler.Trigger` | counter_cruiser/client/alerts/snapshot.py:27-68 | the effect of every outcome of the two writes and of the deletions; after success at most `max_count` images, the new one among them exactly when fewer than that many names are greater |
| `Snapshot.SnapshotHandler.EnforceMaxCount` | counter_cruiser/client/alerts/snapshot.py:70-75 | sort-and-delete leaves exactly the greatest names, with the others' sidecars gone and all else kept; a deletion that raises leaves the rest undeleted |
| `SnapshotRuns.StuckPruning` | counter_cruiser/client/alerts/snapshot.py:70-75 | a deletion that raises leaves exactly the images from there on, all greater than those deleted |
| `SnapshotRuns.StuckSidecars` | counter_cruiser/client/alerts/snapshot.py:70-75 | and exactly the sidecars of the images before it are gone |
| `SnapshotRuns.HandleAll` | counter_cruiser/client/alerts/snapshot.py:27-75 | the handler run on one alert after another, from any directory, leaves the directory that the results below are about, whatever writes and deletions fail |
| `SnapshotRuns.RankedRetention` | counter_cruiser/client/alerts/snapshot.py:27-75 | after any run the `max_count` greatest of all images ever written are there; after an alert that completed they are the only ones |
| `SnapshotRuns.CapBound` | counter_cruiser/client/alerts/snapshot.py:53-75 | the cap is exceeded by at most the images written since an alert last completed |
| `SnapshotRuns.CapExceeded` | counter_cruiser/client/alerts/snapshot.py:53-68 | while sidecars cannot be written every image stays, without limit |
| `SnapshotRuns.ImagesSincePrune` | counter_cruiser/client/alerts/snapshot.py:53-75 | when no deletion fails, the images are those the last pruning kept and all written since |
| `SnapshotRuns.SidecarsOfKept` | counter_cruiser/client/alerts/snapshot.py:46-75 | an image among the greatest has its sidecar exactly when it was written, or there from the start, whatever failed |
| `SnapshotRuns.DirectoryExactly` | counter_cruiser/client/alerts/snapshot.py:27-75 | when no deletion fails, after an alert that completed: those images, their written sidecars, and nothing else |
| `SnapshotRuns.AscendingRetention` | counter_cruiser/client/alerts/snapshot.py:27-75 | when nothing fails and names ascend, the directory is exactly the last `max_count`, in pairs |
| `SnapshotRuns.KeptByStamp` | counter_cruiser/client/alerts/snapshot.py:43-75 | with any clock that never repeats a stamp, and whatever fails, an image is there while fewer than `max_count` have a later stamp, and after an alert that completed only then |
| `SnapshotRuns.KeptSincePrune` | counter_cruiser/client/alerts/snapshot.py:43-75 | when no deletion fails, after any alert: exactly when it was written since one last completed or had fewer than `max_count` later ones then |
| `SnapshotRuns.MostRecentKept` | counter_cruiser/client/alerts/snapshot.py:43-75 | with a clock that moves forward, after an alert that completed: exactly the most recent `max_count` images written, failed ones not counted |
| `SnapshotRuns.NewestLost` | counter_cruiser/client/alerts/snapshot.py:43-75 | such a run: after the clock was set back the newest image is gone and the older one stays |
| `SnapshotRuns.OlderStays` | counter_cruiser/client/alerts/snapshot.py:53-68 | such a run: after a failed sidecar two images are there with room for one |
| `Mjpeg.GenerateStream` | counter_cruiser/client/web/mjpeg.py:85-109 | the loop's parts begin and come out at exactly the times given by work, consumer and lateness; as many as the consumer takes, or the bound if that is less |
| `Mjpeg.NextStart` | counter_cruiser/client/web/mjpeg.py:106-109 | the loop waits for the interval when work and consumer fit in it, and not at all when they do not |
| `Mjpeg.FullRate` | counter_cruiser/client/web/mjpeg.py:85-109 | with laps that fit and prompt wake-ups part k is out exactly k intervals after the first start, and its own work |
| `Mjpeg.StartsSpread` | counter_cruiser/client/web/mjpeg.py:85-109 | iterations start at least an interval apart |
| `Mjpeg.NotEarly` | counter_cruiser/client/web/mjpeg.py:85-109 | part k is out no earlier than k intervals after the first start |
| `Mjpeg.RateBound` | counter_cruiser/client/web/mjpeg.py:85-109 | at most floor(T * fps) + 1 parts within T seconds of the first start |
| `Mjpeg.WindowBound` | counter_cruiser/client/web/mjpeg.py:85-109 | at most floor((T + W) * fps) + 1 parts in any window of T seconds, where W bounds the work of a part |
| `Mjpeg.BoundedStream` | counter_cruiser/client/web/mjpeg.py:85-109 | both bounds on the parts the loop hands out |
| `Mjpeg.ApartIff` | counter_cruiser/client/web/mjpeg.py:88-109 | two neighbouring parts are an interval apart exactly when the first took no more work than the second plus what the first iteration overran |
| `Mjpeg.SteadyWorkKeepsApart` | counter_cruiser/client/web/mjpeg.py:88-109 | over a whole run, parts j numbers apart are j intervals apart when work never shrinks from part to part |
| `Mjpeg.PartsBunch` | counter_cruiser/client/web/mjpeg.py:88-109 | a slow part and a quick one come out at any gap below the interval |
| `Mjpeg.BunchedStream` | counter_cruiser/client/web/mjpeg.py:88-109 | the loop itself emits two parts at that gap |
| `Geometry.TestPointsAre` | counter_cruiser/shared/geometry.py:22-32 | the test points are exactly the four corners and the centre |
| `Geometry.TallMeans` | counter_cruiser/shared/geometry.py:63-65 | the size test compares the box's pixel height with its share of the frame height |
| `Dashboard.DashboardState.UpdateStats` | counter_cruiser/client/web/state.py:103-110 | all three figures are replaced together |
| `Dashboard.DashboardState.SetServerConnected` | counter_cruiser/client/web/state.py:117-130 | only the flag changes |
| `Transport.ClientSession.BeginConnection` | counter_cruiser/client/transport.py:106-120 | a connection starts with nothing pending and a fresh read count; ids and buffer go on |
| `Transport.ClientSession.GetFrame` | counter_cruiser/client/transport.py:156-158 | a lookup in the ordered buffer |
| `ZoneStore.ZoneStore.ListZones` | counter_cruiser/client/web/zone_store.py:52-62 | list and version as one snapshot; a missing file is an error |
| `ZoneStore.ZoneStore.CheckVersion` | counter_cruiser/client/web/zone_store.py:64-71 | passes exactly for the version of the file |
| `ZoneStore.ZoneStore.Find` | counter_cruiser/client/web/zone_store.py:73-78 | the first zone with the id, or an error |
| `ZoneStore.ZoneStore.WriteToml` | counter_cruiser/client/web/zone_store.py:127-160 | document and version are replaced together by a full document, or, at whichever stage it fails, both stay |

## Left out

- The polygon test, JPEG and base64 codecs, JSON parsing, TOML syntax and comments: library calls.
- Camera, sockets and back-pressure: channels are FIFO and may be dropped whole. The closing handshake
  and a server that closes while the camera gives no frames are not distinguished from a connection that
  goes on.
- An exception the session does not catch, other than a failing encoding (which ends it), is not a step
  of its own. An `OSError` from the callback shows as a receive followed by a drop.
- A callback that does not run to its end: with no configuration file, which the loader accepts, reading
  the version raises in every callback, so nothing is recorded and the connection drops at every
  detection. `ClientRuns.Handled` and the runs of the callback assume that each ends.
- SessionProtocol.StopIsFinal: a pass of the send loop is one step, as it looks at the flag only where it
  begins. A stop that arrives during a pass counts as one after it, so that pass still numbers its frame.
- Floating-point rounding: times, ratios and coordinates are reals. Polygons converted to 32-bit floats
  keep their integer points.
- Aliasing of zone objects: lists and zones are values, so that a snapshot never changes is built in, as
  the code gets it from copying the list and replacing, never changing, a zone.
- A configuration file missing, replaced or edited in the middle of a rewrite, and a version that comes
  back (two writes with one modification time).
- A snapshot image or sidecar written in part, and files that others put into or take from the directory
  during a run.
- A generator that never ends: the stream is cut after any number of parts. The times between two clock
  readings with nothing in between are counted as part of the work, the consumer or the lateness.
- Handlers themselves (deterrent, log, notification, statistics): each is a name that may raise, which is
  modelled as an error returned to the loop. A `BaseException` that is no `Exception` is not modelled.
  `AlertManager.cleanup` has the same loop as the fan-out and is not repeated.
- Web routes, templates, annotation, logging, environment overrides and settings validators.
