# Catenary: verified models of the hull, realtime and assignment cores

Machine-checked Dafny models of the self-contained algorithms and shared-state protocols of the Catenary
transit backend: the concave hull, alert deduplication, the realtime trip-update store, trip
modifications, the submission gate and work queue, leased assignments, the compact feed codec, service
calendars, transfer lookup and lane offsets.

Check the whole project with `dafny verify dfyconfig.toml` (Dafny 4.11).

Code that updates things step by step is a method with loops and, where it owns shared fields, a class;
each such method is proved against a specification function or predicate, and the promises of the source
are lemmas about that specification, over every input, every run or every interleaving.

| file | models |
|---|---|
| Triangulation, Erosion, ErosionOrder, HullArea, ChiShape | concave hull by erosion of a half-edge triangulation, the order of its removals, and its outline |
| AlertDedup, AlertMerging | merging of equal alerts along chains of matches |
| StopCarryOver, RealtimeStore, TripIndex | carry-over of old stop updates, trip-update table and trip-id index over runs of imports |
| TripModifications, ModificationEffect, StopConservation | splicing trip modifications into a stop list, field by field and with every stop accounted for |
| WorkQueue | submission handlers and workers sharing a queue, a lock and a set, one access per step |
| SubmissionGate | the check for new data, recorded timestamps, stored messages and the wake-up of workers |
| LeasedWrites, Assignments, AssignmentRuns | round-robin assignment on leased keys with skip-if-equal writes |
| CompactCodec, ClosestStop | 24-bit wrapped times, the compact feed, and the selector that reads it |
| Calendars | two implementations of GTFS service calendars |
| Connections | clustered nearest-stop join |
| Lanes | direction-independent lane offsets |
| Wrappers, Counting, Ordering | options and results, finite sets and lists, orders on strings, stable sort |

Inputs the models take as given: the triangulation with its points and metric; the hash of alert
contents; the order of entity selectors; realtime entities of a chateau in the order in which the import
meets them, with their final trip descriptors; whether the grace period is on; the stop records found for
replacement stops; rows returned by database queries; snapping, cosine and hypotenuse of the lane
geometry. An absent previous store is the empty store. Times and delays wrap as in a release build.
Numbers that the source keeps in floating point are reals.

Where the code and its comments differ, the code is followed: alert periods are compared after a sort by
start only, so two alerts with the same periods in different orders of equal starts do not match
(AlertDedup.TiedDoNotMatch; Sorting.SortsAlike says exactly when two lists sort alike), although the
comment at backend/src/aspen/alerts_processing.rs:174-176 speaks of order-independent equality.

Some promises a reader might expect do not hold of the code. Each comes with a lemma at inputs that fail
and with the exact condition:

| expectation | fails at | holds exactly when |
|---|---|---|
| deduplicating alerts twice is the same as once | AlertDedup.SecondPassMerges, AlertDedup.TieOrderDecides | AlertDedup.AgainMergesMore |
| alert periods are compared without regard to order | AlertDedup.TiedDoNotMatch | Sorting.SortsAlike |
| the trip-id index is a table scan | TripIndex.LostNameDangles | TripIndex.IndexExactIff |
| a trip keeps its old stops over imports | TripIndex.OldStopLost | TripIndex.SoloIff |
| a replaced stop is served or cancelled | StopConservation.StopLost | StopConservation.LostIff |
| a stored submission is read in the end | WorkQueue.SubmissionLost, WorkQueue.SubmissionLeft, SubmissionGate.StoredUnqueued | WorkQueue.UnreadIffMissed |
| both calendar implementations agree | Calendars.TwoRangesDisagree | Calendars.AgreeIff |
| skip-if-equal writes equal rewriting | AssignmentRuns.SharedFeedMoves | AssignmentRuns.RoundIsRewrite |
| offsets do not depend on the direction of a line | Lanes.SameKeysBreakReversal | Lanes.ReversalCommutes |

## Model

| member | source | states |
|---|---|---|
| ChiShape.PopMax | backend/src/hull.rs:16-34 | The heap yields an entry no other one is longer than, and of the equally long ones the one with the greatest half-edge index; it loses exactly that entry. |
| ChiShape.InitBoundary | backend/src/hull.rs:76-104 | The initial boundary is the set of half-edges without opposite, every vertex's degree counts the boundary edges touching it, and every boundary edge is queued with the distance between its two end points. |
| ChiShape.RemoveTriangle | backend/src/hull.rs:147-197 | One removal marks the triangle, swaps the edge for its two inner neighbours, raises only the apex's degree (by two) and queues both neighbours, each with the distance between its own end points. |
| ChiShape.InvPeel | backend/src/hull.rs:147-197 | Boundary set, degree table, flags and heap stay in step through a removal. |
| ChiShape.Erode | backend/src/hull.rs:106-198 | The lazily cleaned heap removes exactly the triangles that rescanning the boundary for the greatest erodible edge after every removal would remove; boundary and flags agree with them. |
| ChiShape.BuildAdjacency | backend/src/hull.rs:205-216 | The start-to-end map exists exactly when no two boundary edges leave the same vertex, and maps each start to its end. |
| ChiShape.TraceLoop | backend/src/hull.rs:218-246 | On a cycle the trace never takes the broken-loop or infinite-loop exit and returns the whole cycle once, closed, from wherever it started. |
| ChiShape.ConcaveHull | backend/src/hull.rs:76-246 | The outline is the closed ring of the eroded boundary, every boundary vertex once; there is none exactly when the triangulation has no outer edge. |
| Erosion.ApexDecides | backend/src/hull.rs:129-145 | On a ring the third-vertex check alone decides, because an apex off the ring implies the ear check. |
| Erosion.PeelBoundary | backend/src/hull.rs:159-197 | For an edge that passes the checks both inner neighbours exist, are new to the boundary and differ, and the boundary changes by exactly this swap: the EMPTY guards never fire. |
| Erosion.PeelRing | backend/src/hull.rs:147-197 | Replacing u to v by u to apex to v turns a simple ring into a simple ring with one more vertex, the apex. |
| Erosion.RejectionLasts | backend/src/hull.rs:109-145 | After a removal only the two new edges can have become removable, so an edge once rejected stays rejected. |
| Erosion.ChosenIsUnique | backend/src/hull.rs:16-34 | The greatest erodible edge is unique, so the erosion is determined by its input. |
| Erosion.ErodedKeepsRing | backend/src/hull.rs:106-198 | Every erosion leaves one simple ring with hull edges plus removed triangles many edges, keeping all earlier ring vertices. |
| Erosion.ErodedIsMaximal | backend/src/hull.rs:109-145 | At the end every boundary edge longer than the threshold is blocked by the ear check or the third-vertex check. |
| Erosion.ErodedKeepsVertices | backend/src/hull.rs:147-197 | Every vertex of the triangulation is still a corner of some kept triangle. |
| ErosionOrder.CornersCycle | backend/src/hull.rs:86-93 | The corners of a triangle follow each other in a cycle of three within the triangle. |
| ErosionOrder.RemovalOrder | backend/src/hull.rs:106-198 | The triangles go one after another, each through an open edge whose end points are further apart than the threshold; no other edge that could be taken then has end points further apart, nor as far apart and a greater half-edge index; and all that go are listed. |
| ErosionOrder.RingIsTight | backend/src/hull.rs:82-93 | Wherever two consecutive vertices of the final ring are further apart than the threshold, the third corner of the kept triangle there lies on the ring. |
| HullArea.AreaIsConserved | backend/src/hull.rs:106-197 | The doubled signed area along the boundary ring equals the sum over the kept triangles, for every set of removed triangles. |
| HullArea.TwiceAreaIs | backend/src/hull.rs:106-197 | The doubled area of a right triangle is the product of its legs, and swapping two corners changes its sign. |
| AlertDedup.PrimaryOfClass | backend/src/aspen/alerts_processing.rs:233-250 | The least id of a class is its only primary. |
| AlertDedup.MatchMeans | backend/src/aspen/alerts_processing.rs:174-199 | Two alerts match exactly if for every start, or none, they list the same periods in the same order, or if they name the same entities. |
| AlertDedup.TidyMeans | backend/src/aspen/alerts_processing.rs:252-271 | In a tidy alert periods without a start come first, the others by start, and nothing is listed twice. |
| Strings.FirstDifferenceDecides | backend/src/aspen/alerts_processing.rs:249-249 | Of two ids the first character that differs decides which is less; if none does, the shorter one is. |
| AlertDedup.Home | backend/src/aspen/alerts_processing.rs:146-278 | Every alert is reported under exactly one output id linked to it. |
| AlertDedup.SharedHome | backend/src/aspen/alerts_processing.rs:155-227 | Two alerts share an output exactly when a chain of equal-period or equal-entity matches within one content hash links them. |
| AlertDedup.Lossless | backend/src/aspen/alerts_processing.rs:229-274 | Exactly the periods and entities of the input occur in the output. |
| AlertDedup.OrderDoesNotShow | backend/src/aspen/alerts_processing.rs:126-144 | Whatever the enumeration order of the input map, the output ids and their period and entity sets are the same. |
| AlertDedup.AgainMergesMore | backend/src/aspen/alerts_processing.rs:121-279 | Deduplicating a result again changes ids, periods or entities exactly when two classes of one content hash name the same entities in all, or the same periods with equal starts listed in the same order; the second result then has fewer alerts. |
| AlertDedup.RejoinsWithoutTies | backend/src/aspen/alerts_processing.rs:121-279 | Where no two periods of a class share a start, this is decided by the input: equal hash, and equal unions of entities or of periods. |
| AlertDedup.SomeResultRejoins | backend/src/aspen/alerts_processing.rs:252-260 | With equal unions some result of the first pass merges further, whatever the ties. |
| AlertDedup.SecondPassMerges | backend/src/aspen/alerts_processing.rs:121-279 | A three-alert input whose first result still contains a match, for every hash function: deduplication is not idempotent. |
| AlertDedup.TiedDoNotMatch | backend/src/aspen/alerts_processing.rs:178-184 | Two alerts with different entities and the periods (1,2),(1,3) against (1,3),(1,2) do not match. |
| AlertDedup.TieOrderDecides | backend/src/aspen/alerts_processing.rs:252-260 | One input, two possible results: one of them is merged further by a second pass, the other is not. |
| Sorting.SortsAlike | backend/src/aspen/alerts_processing.rs:178-184 | Two lists sort by start to the same list exactly when, for every start, they list the elements with that start in the same order. |
| AlertMerging.GroupByHash | backend/src/aspen/alerts_processing.rs:124-144 | Each group lists, once each, exactly the alerts whose content has its hash. |
| AlertMerging.BuildAdjacency | backend/src/aspen/alerts_processing.rs:155-205 | Each list holds exactly the other members that match, in both directions. |
| AlertMerging.ComponentIsClass | backend/src/aspen/alerts_processing.rs:207-227 | A linked set of members closed under matches is exactly a class. |
| AlertMerging.Component | backend/src/aspen/alerts_processing.rs:207-227 | The breadth-first search returns exactly the class of its start, each member once, and marks exactly these. |
| AlertMerging.MergeComponent | backend/src/aspen/alerts_processing.rs:229-272 | The merged alert carries exactly the periods and entities of the component without repetition, periods sorted by start, under the least id. |
| AlertMerging.MergeGroup | backend/src/aspen/alerts_processing.rs:148-276 | Every class of the group is filed once under its least id and no earlier output is overwritten. |
| AlertMerging.Deduplicate | backend/src/aspen/alerts_processing.rs:121-279 | The result has one output per class, under its least id, with exactly the class's periods and entities and one member's texts; nothing is listed twice and periods are sorted by start, except that an alert alone with its hash is passed on as it is. |
| StopCarryOver.CarryFor | backend/src/aspen/import_alpenrose.rs:1458-1546 | After one carry-over a stop has the new feed's entries if it is mentioned, else its old ones marked as old; entries without stop id come from the feed alone. |
| StopCarryOver.StoredFor | backend/src/aspen/import_alpenrose.rs:1458-1546 | After any run of feeds a stop has exactly the entries of the last feed that mentioned it, aged exactly if that is not the newest. |
| StopCarryOver.StaleMeansLeftOut | backend/src/aspen/import_alpenrose.rs:1516-1521 | An entry is flagged old exactly when a newer feed left its stop out. |
| StopCarryOver.StoredForNone | backend/src/aspen/import_alpenrose.rs:1458-1546 | A stop no feed mentioned has no entries. |
| StopCarryOver.StoredWithoutId | backend/src/aspen/import_alpenrose.rs:1504-1514 | Entries without a stop id are those of the newest feed. |
| StopCarryOver.CarryAgain | backend/src/aspen/import_alpenrose.rs:1458-1546 | Applying the same feed twice is the same as applying it once. |
| RealtimeStore.FileUpdate | backend/src/aspen/import_alpenrose.rs:1580-1606 | An update id is pushed once for every role in which the update names a trip id: afterwards it is listed exactly under its own, its properties' and its modified trip id and where it was before. |
| RealtimeStore.RolesAreFields | backend/src/aspen/import_alpenrose.rs:1580-1606 | An update names a trip id exactly if its own, its properties' or its modified trip id is that one. |
| RealtimeStore.BuildTable | backend/src/aspen/import_alpenrose.rs:1561-1653 | The table holds the last entity per id with its carried-over stops; an id is listed exactly under the three trip ids of every entity that has it. |
| RealtimeStore.DedupIndex | backend/src/aspen/import_alpenrose.rs:1862-1869 | Afterwards each listed id is listed exactly once per trip id. |
| RealtimeStore.GraceMerge | backend/src/aspen/import_alpenrose.rs:1892-1943 | Exactly the old updates missing from the new table are kept, each also listed under its own, its properties' and its modified trip id. |
| RealtimeStore.NewRtData | backend/src/aspen/import_alpenrose.rs:1464-1653 | One import leaves the table and listing counts of IsNext: an id is listed under a trip id exactly if an entity of the feed with that id has it in one of the three fields, or a kept old update has. |
| RealtimeStore.GetTripUpdates | backend/src/aspen/main.rs:1410-1454 | The lookup returns the listed updates in order, leaving out ids without a table entry; none exactly for an unlisted trip. |
| TripIndex.IndexSoundAndComplete | backend/src/aspen/import_alpenrose.rs:1580-1653 | After any import no listed id dangles and every update is listed under its own, its properties' and its modified trip id. |
| TripIndex.IndexByFields | backend/src/aspen/import_alpenrose.rs:1580-1653 | After any import every update of the table is listed under its own, its properties' and its modified trip id, and on an exact store, or with distinct entity ids, under no other. |
| TripIndex.TableByFields | backend/src/aspen/import_alpenrose.rs:1561-1653 | The last entity of an id is in the table with its descriptor, its data and the carried-over stops. |
| TripIndex.IndexExactIff | backend/src/aspen/import_alpenrose.rs:1580-1653 | The index equals a table scan exactly when no entity names a trip id that a later entity with the same id drops. |
| TripIndex.LostNameDangles | backend/src/aspen/import_alpenrose.rs:1561-1653 | Two entities with one id, the later of which drops a trip id: the lookup for that trip answers with an update that does not name it. |
| TripIndex.DistinctLosesNoName | backend/src/aspen/import_alpenrose.rs:1580-1653 | Distinct entity ids are enough for an exact index. |
| TripIndex.LookupIsScan | backend/src/aspen/main.rs:1410-1454 | On an exact index the lookup returns exactly the updates of the table that have the trip id in one of the three fields, and none exactly if there is no such update. |
| TripIndex.PreviousStopsSolo | backend/src/aspen/import_alpenrose.rs:1464-1535 | With one update of this descriptor in the store, listed once, its stop list is the one carried over. |
| TripIndex.SoloStep | backend/src/aspen/import_alpenrose.rs:1464-1653 | One import of a followed trip leaves a single update for it, with the carried-over stop list. |
| TripIndex.SoloIff | backend/src/aspen/import_alpenrose.rs:1464-1653 | An import leaves a single update of a trip exactly when, within the grace period, the feed overwrites the id it had before; otherwise the next import finds two matches and no stop list. |
| TripIndex.CarryOverLost | backend/src/aspen/import_alpenrose.rs:1464-1546 | After a change of id within the grace period the next import stores the feed's stops alone. |
| TripIndex.OldStopLost | backend/src/aspen/import_alpenrose.rs:1464-1546 | Three imports of one trip under the ids a, b, b, the last two within the grace period: an old stop that the second still holds is gone after the third. |
| TripIndex.StopsOverRun | backend/src/aspen/import_alpenrose.rs:1458-1653 | Over any run of imports in which one entity carries the descriptor, and in which a feed within the grace period overwrites the previous id, the stored list is the run's carry-over. |
| TripModifications.FindPosition | backend/src/trip_logic.rs:1564-1617 | The first stop matched by the selector, sequences compared modulo 2^16. |
| TripModifications.BuildReplacements | backend/src/trip_logic.rs:1667-1759 | The loop over the replacements computes the introduced stops. |
| TripModifications.IntroducedFrom | backend/src/trip_logic.rs:1667-1759 | The introduced stops stand for the replacements with a known stop, one each and in their order, under the record's id, without sequence and departure, arriving at reference plus travel time (the plain sum exactly when it fits). |
| TripModifications.PropagateDelay | backend/src/trip_logic.rs:1764-1775 | Every time of every following stop is moved by the delay with wrapping addition, in place. |
| TripModifications.CancelUnserved | backend/src/trip_logic.rs:1777-1785 | Exactly the replaced stops that no introduced stop serves, in order. |
| TripModifications.ApplyModifications | backend/src/trip_logic.rs:1541-1796 | The loop computes the fold of single splices, stopping with a panic on an inverted range or a reference stop without times. |
| TripModifications.PlusFits | backend/src/trip_logic.rs:1771-1773 | Adding a delay cast to u64 gives the plain sum exactly when that sum lies in range, negative delays included. |
| TripModifications.ShiftedTwice | backend/src/trip_logic.rs:1764-1775 | Delays of successive modifications add up. |
| ModificationEffect.MatchesByFields | backend/src/trip_logic.rs:1564-1609 | A selector with id and sequence needs both, one with either needs that one, an empty one matches nothing; sequences count modulo 2^16. |
| ModificationEffect.ApplyEffect | backend/src/trip_logic.rs:1541-1796 | With start p and end e the first stops selected: stops before p are unchanged; each introduced stop has its record's id and details and arrives its travel time after the arrival, or else departure, of stop p-1 (stop 0 if p is 0); exactly p to e, or p alone without an end, leave the list; later stops move by the delay; of p to e those are cancelled in order whose id no introduced stop has; it fails exactly if p > e + 1 or that stop has no time. |
| ModificationEffect.ApplySkips | backend/src/trip_logic.rs:1564-1597 | Without a start that matches a stop the lists do not change. |
| ModificationEffect.ApplyInOrder | backend/src/trip_logic.rs:1541-1562 | Modifications take effect one after another, each on what the earlier ones left. |
| ModificationEffect.DetourTimes | backend/src/trip_logic.rs:1541-1796 | Stops A, B, C at 100, 200, 300, with B replaced by X at travel time 30 and delay -5: X arrives at 130, C at 295 and B is cancelled. |
| StopConservation.SplitDecides | backend/src/trip_logic.rs:1777-1785 | Every replaced stop is either re-served under its id or cancelled, never both. |
| StopConservation.BooksDescribe | backend/src/trip_logic.rs:1541-1796 | The tagged bookkeeping ends in exactly the lists the program computes. |
| StopConservation.AlwaysBalanced | backend/src/trip_logic.rs:1541-1796 | After any number of modifications each scheduled stop is in exactly one place, and the served ones are in schedule order and shifted by their recorded delays. |
| StopConservation.StopsAreConserved | backend/src/trip_logic.rs:1541-1796 | Every scheduled stop ends up in one place: served, cancelled, replaced by an introduced stop with its id, or dropped; the visible lists are the first two. |
| StopConservation.OnePlaceEach | backend/src/trip_logic.rs:1541-1796 | A scheduled stop is in one of the four places and in no other. |
| StopConservation.DroppedIff | backend/src/trip_logic.rs:1629-1657 | A scheduled stop enters the dropped ones exactly when some modification starts at it, finds no end, and introduces no stop with its id. |
| StopConservation.LostIff | backend/src/trip_logic.rs:1629-1657 | A scheduled stop ends up neither served, re-served nor cancelled exactly then. |
| StopConservation.StopLost | backend/src/trip_logic.rs:1629-1657 | A schedule of one stop and a modification without an end that loses it from both lists. |
| StopConservation.ShiftIsDelaySum | backend/src/trip_logic.rs:1764-1775 | A served stop's recorded shift is the sum of the delays of the modifications that end before it. |
| StopConservation.SurvivorTimes | backend/src/trip_logic.rs:1764-1792 | A served stop differs from the schedule only by that sum on its arrival, departure and interpolated time, each exactly so when the sum stays in range. |
| WorkQueue.NextTokens | backend/src/aspen/main.rs:902-923 | Every step keeps queued tasks, busy workers and pushing handlers of a chateau equal to its membership in the shared set, up to panicked workers. |
| WorkQueue.NextData | backend/src/aspen/main.rs:852-923 | Every step leaves unread data on its way to a reader, unless it is a check that finds the chateau listed for a worker already past its read, or a handler leaves after storing, or a worker panicked. |
| WorkQueue.AlwaysInv | backend/src/aspen/async_threads_alpenrose.rs:103-141 | The invariants hold in every state of every interleaving of any number of handlers and workers. |
| WorkQueue.OneTokenEach | backend/src/aspen/async_threads_alpenrose.rs:103-136 | A chateau is in the shared set exactly when one task for it is queued, pushed or processed; no two workers hold the same chateau. |
| WorkQueue.QueuedDataIsRead | backend/src/aspen/async_threads_alpenrose.rs:105-123 | Over any execution: what is stored for a chateau while its task waits has been read as soon as no task for it has waited all the time since, unless its worker panicked. |
| WorkQueue.UnreadHow | backend/src/aspen/main.rs:852-923 | In every reachable state unread data of a chateau is about to be read, or on its way into the queue, or a check came too late for it, or a handler left after storing, or a worker panicked. |
| WorkQueue.UnreadIffMissed | backend/src/aspen/main.rs:852-923 | In a quiet state a chateau has unread data exactly in two cases, nobody having read it since: a worker read it, something was stored after that, and a check then found it listed while that worker was still processing it; or something was stored and a handler that had stored for it left without looking it up, for want of news or aborted. |
| WorkQueue.PanicIsForEver | backend/src/aspen/async_threads_alpenrose.rs:37-90 | After a worker panic its chateau stays listed and is never queued or processed again. |
| WorkQueue.SubmissionLost | backend/src/aspen/main.rs:902-923 | A reachable quiet state in which a submission is stored and will not be read, without any panic. |
| WorkQueue.SubmissionLeft | backend/src/aspen/main.rs:1140-1186 | A reachable quiet state in which a submission is stored and was never queued. |
| SubmissionGate.AspenServer.ContainsNewData | backend/src/aspen/main.rs:1943-1971 | A message is news exactly when it has no usable timestamp or one that differs from the recorded one. |
| SubmissionGate.AspenServer.SaveTimestamps | backend/src/aspen/main.rs:1921-1941 | Exactly a usable timestamp is recorded, under the feed and type. |
| SubmissionGate.AspenServer.Inspect | backend/src/aspen/main.rs:781-845 | The short-circuited check of three parts finds news exactly when some part is news, and records all parts. |
| SubmissionGate.AspenServer.Enqueue | backend/src/aspen/main.rs:907-922 | An unlisted chateau is listed and queued, a listed one changes nothing; no chateau is queued twice. |
| SubmissionGate.AspenServer.Submit | backend/src/aspen/main.rs:781-923 | Timestamps, stored messages, queue and set after one submission, for both handlers and their always-write and always-queue exceptions. |
| SubmissionGate.AlwaysConsistent | backend/src/aspen/main.rs:781-891 | Over any sequence of submissions a recorded timestamp implies a stored message that carries it, or carries none. |
| SubmissionGate.RepeatsChangeNothing | backend/src/aspen/main.rs:1943-1971 | There is no news exactly when all parts repeat recorded usable timestamps; such a submission changes no timestamp and, outside the exceptions, no message and neither the queue nor the set. |
| SubmissionGate.QueuedIff | backend/src/aspen/main.rs:902-923 | An unlisted chateau is queued exactly for news, or if the submission came compressed and its feed id contains 'unwire' or it is one of three chateaux. |
| SubmissionGate.StoredIff | backend/src/aspen/main.rs:847-891 | A part that is not stored yet is stored exactly for news, or if it came compressed with a feed id containing 'unwire' or for one of two chateaux, or plain for the one chateau that handler always writes. |
| SubmissionGate.ContainsMiddle | backend/src/aspen/main.rs:847-850 | A string contains any part of it, wherever it stands. |
| SubmissionGate.StoredUnqueuedIff | backend/src/aspen/main.rs:1140-1205 | A submission changes the stored messages of an unlisted chateau without queueing it exactly when it repeats recorded timestamps and came through the plain handler for the one chateau that handler always writes. |
| SubmissionGate.StoredUnqueued | backend/src/aspen/main.rs:1140-1205 | A repeated timestamp with a changed message for that chateau: stored, and no worker is woken. |
| LeasedWrites.DifferentialIff | backend/src/aspen/aspen_assignment.rs:187-240 | Skipping keys whose value agrees leaves the same store as rewriting everything exactly when no key is written twice with its stored value last. |
| LeasedWrites.LeaseIsKept | backend/src/aspen/aspen_assignment.rs:187-206 | A key keeps its entry with its old lease if every put for it has the stored value. |
| LeasedWrites.LeaseIsReplaced | backend/src/aspen/aspen_assignment.rs:187-206 | The last put for a key with a value other than the stored one gives it value and lease. |
| Assignments.Etcd.SortedWorkers | backend/src/aspen/aspen_assignment.rs:96-110 | The sorted list of exactly the registered workers. |
| Assignments.Etcd.AssignChateaus | backend/src/aspen/aspen_assignment.rs:112-249 | One round is the differential application of the round-robin plan to the snapshot; without workers nothing changes. |
| Assignments.Etcd.PerformLeaderJob | backend/src/alpenrose/leader_job.rs:79-169 | One reassignment is the differential application of its plan; it panics exactly with feeds but no workers. |
| AssignmentRuns.HangingLeasesAgree | backend/src/aspen/aspen_assignment.rs:187-206 | Comparing values without leases is enough while entries hang on the lease of the worker they name. |
| AssignmentRuns.RoundIsRewrite | backend/src/aspen/aspen_assignment.rs:165-242 | A round equals a full rewrite exactly when its plan is steady, which listing each feed once ensures. |
| AssignmentRuns.RoundAssigns | backend/src/aspen/aspen_assignment.rs:166-241 | Chateau i and each of its feeds end at worker i modulo the number of workers, with its socket and lease. |
| AssignmentRuns.SharedFeedRound | backend/src/aspen/aspen_assignment.rs:208-240 | A round leaves a feed listed under chateaux i and j, i before j, with j exactly when the store did not already have it with j, and with i otherwise; a full rewrite always leaves it with j. |
| AssignmentRuns.SharedFeedFlips | backend/src/aspen/aspen_assignment.rs:208-240 | So over two rounds with the same workers such a feed changes hands in the second, whatever the store held before the first. |
| AssignmentRuns.SharedFeedMoves | backend/src/aspen/aspen_assignment.rs:208-240 | One worker and one feed under two chateaux: a differential round and a full rewrite leave different stores. |
| AssignmentRuns.LoadsDifferByOne | backend/src/aspen/aspen_assignment.rs:174-178 | Of the positions of a round robin any two workers get as many, up to one. |
| AssignmentRuns.RoundServes | backend/src/aspen/aspen_assignment.rs:166-206 | A round leaves every chateau with the worker whose turn it is and with that worker's socket, also when feeds are shared. |
| AssignmentRuns.RoundIsBalanced | backend/src/aspen/aspen_assignment.rs:166-206 | In the store after a round the numbers of listed chateaux of any two registered workers differ by at most one. |
| AssignmentRuns.PollersAfterRound | backend/src/alpenrose/leader_job.rs:138-169 | Every feed has its instruction under the worker whose turn it is; besides it exactly the earlier pollers remain. |
| AssignmentRuns.NextHangs | backend/src/aspen/aspen_assignment.rs:195-240 | Registrations, expiries and rounds of both leaders keep every assignment on the lease of the worker it names. |
| AssignmentRuns.AlwaysHang | backend/src/aspen/aspen_assignment.rs:108-242 | Over any run no assignment outlives the worker it names. |
| CompactCodec.DecodedIsCongruent | backend/src/compact_formats.rs:222-256 | Every decoded time is congruent to the original modulo 2^24. |
| CompactCodec.TimeRoundTrip | backend/src/compact_formats.rs:222-256 | A time survives exactly when its offset from the epoch fits in 24 bits. |
| CompactCodec.PlainRoundTrip | backend/src/compact_formats.rs:222-256 | A time less than 2^63 from the epoch is encoded as its distance to it, and survives, exactly if that distance fits in 24 bits. |
| CompactCodec.EpochIs | backend/src/compact_formats.rs:68-72 | The reference epoch is the one multiple of 65536 within 65536 seconds up to the header timestamp, which counts as 0 if absent. |
| CompactCodec.WindowAroundTimestamp | backend/src/compact_formats.rs:68-72 | Times from 2^23 before to 2^23 - 65536 after the header timestamp survive, for every timestamp. |
| CompactCodec.StopRoundTrip | backend/src/compact_formats.rs:186-220 | A stop time update survives exactly when its sequence fits 16 bits and its times are in the window; a sequence that does not fit comes back congruent modulo 2^16. |
| CompactCodec.FeedRoundTrip | backend/src/compact_formats.rs:67-99 | Decoding a compacted feed returns it exactly when all its stop sequences and event times fit. |
| CompactCodec.FeedCompactAgain | backend/src/compact_formats.rs:67-99 | Compacting a decoded feed reproduces the compact feed, for every feed. |
| ClosestStop.FindClosestStopTimeUpdate | backend/src/aspen/stop_time_logic.rs:3-98 | The first active non-skipped update, else the earliest future one, else the latest timed one, first on ties; none exactly when no non-skipped update has a time. |
| ClosestStop.ClosestIsUnique | backend/src/aspen/stop_time_logic.rs:26-97 | This describes a single update. |
| ClosestStop.ClosestMeans | backend/src/aspen/stop_time_logic.rs:26-97 | In arrivals and departures, against any other call that counts: the chosen one is under way if that one is, and not later in the list; else it is the sooner future one, or else the later one. |
| ClosestStop.CallMeans | backend/src/aspen/stop_time_logic.rs:11-24 | The selector sees the plain event times within 2^23 seconds of the epoch, and relationship 1 as skipped. |
| ClosestStop.CompactionKeepsClosest | backend/src/aspen/stop_time_logic.rs:11-24 | On a compacted trip whose event times lie inside the window the same stop is chosen as on the original times. |
| Calendars.WeekdaysHold | backend/src/lib.rs:524-542 | A weekday is listed exactly when its column is set. |
| Calendars.ColumnsHold | backend/src/lib.rs:524-542 | Each of the seven weekdays is listed exactly when the column of its name is set, and the scan agrees. |
| Calendars.WeekdaysFollow | backend/src/lib.rs:693-694 | Weekdays follow one another, and 1 January 2024 is a Monday. |
| Calendars.FoldedCalendar | backend/src/lib.rs:550-563 | In the folded structure the last calendar row of a service decides. |
| Calendars.FoldedDates | backend/src/lib.rs:565-591 | A service keeps its general calendar, and its exception on a date is that of the last row for it. |
| Calendars.MakeCalendarStructure | backend/src/lib.rs:544-594 | The builder yields the folded structure, or panics on an exception type other than 1 and 2. |
| Calendars.ServiceActive | backend/src/trip_logic.rs:1142-1174 | The row scan: the last covering calendar row, overridden by the first row for the date. |
| Calendars.ScanAnswer | backend/src/trip_logic.rs:1142-1174 | The scan: type 1 or 2 of the first exception row on the date decides; otherwise the last calendar row whose range holds the date, by its weekday column. |
| Calendars.FoldedAnswer | backend/src/lib.rs:690-718 | The fold: the type of the last exception row on the date decides; otherwise the last calendar row of the service, by range and weekday column. |
| Calendars.AgreeIff | backend/src/lib.rs:690-718 | Fold and scan agree on a date exactly when, with exception rows on it, the first and the last of them have one type; without, when there is no calendar row, or the last one covers the date, or the scan says no. |
| Calendars.ImplementationsAgree | backend/src/lib.rs:690-718 | For rows unique per service and per service and date, fold and scan agree on every date. |
| Calendars.TwoRangesDisagree | backend/src/lib.rs:550-563 | A service with calendar rows for days 1 to 10 and 20 to 30, on day 5: the scan says yes and the fold no. |
| Calendars.MakeCalendarStructures | backend/src/lib.rs:884-966 | The builder for many chateaux folds group after group, or panics likewise. |
| Calendars.ManyIsSingleEach | backend/src/lib.rs:884-966 | Each chateau gets what the single builder gives for its own rows. |
| Connections.Cluster | backend/src/connections_lookup.rs:69-103 | The clusters concatenate to the input, stay below the extent limit, and none could have taken in the next stop. |
| Connections.ClusterIsSmall | backend/src/connections_lookup.rs:82-92 | Any two stops of a cluster are less than 0.02 degrees apart in both directions. |
| Connections.ClusterIsFull | backend/src/connections_lookup.rs:82-92 | The stop that begins the next cluster is at least 0.02 degrees, in one direction, from some stop of the cluster before it. |
| Connections.JoinCluster | backend/src/connections_lookup.rs:127-169 | The pairs of one cluster within the radius, whatever wider predicate the database uses. |
| Connections.JoinAll | backend/src/connections_lookup.rs:105-173 | The union over clusters is the all-pairs radius join. |
| Connections.BestAssignment | backend/src/connections_lookup.rs:175-274 | Each key of a connection stop keeps a base at minimum distance within the mode's limit over all stops with that key; stops of the trip keep themselves. |
| Connections.ConnectionsLookup | backend/src/connections_lookup.rs:57-274 | The assignment is right with respect to joining all stops with the whole table, for every table, also when rows share chateau and stop id: clustering does not show. |
| Connections.WithinInPlane | backend/src/connections_lookup.rs:154-158 | Longitude is compared with x and latitude with y: a stop within the radius differs by at most 0.006 degrees in each, and one that differs by at most 0.006 in sum is within it. |
| Connections.JoinedInPlane | backend/src/connections_lookup.rs:127-169 | A spatial table stop is joined with every base it differs from by at most 0.006 degrees in sum, and with none it differs from by more in longitude or latitude. |
| Connections.EntryExists | backend/src/connections_lookup.rs:175-274 | Every spatial table stop within 0.006 degrees, in sum, of a base has an entry: as itself at distance 0 if it is a stop of the trip, else at most at its distance from that base, if that is within its mode's limit. |
| Connections.EntryIsNear | backend/src/connections_lookup.rs:127-274 | Every entry's stop is a spatial table stop with some base at most 0.006 degrees away in longitude and in latitude; unless it is a stop of the trip, that base is the one entered, at its distance, within the limit. |
| Connections.LimitsByMode | backend/src/connections_lookup.rs:219-254 | The limits: 400 m from tram or subway to rail; 150 m to a bus, 200 m from rail; 200 m to tram or subway except from rail; else 300 m. |
| Lanes.OffsetLinestring | tools/gtfs_to_geojson.py:225-272 | Every point moves by the average push of the offset segments beside it. |
| Lanes.PushIsSideways | tools/gtfs_to_geojson.py:194-203 | Along the direction from the smaller grid key to the larger, in metres: the push is at right angles, exactly as long as the shift, to the left for a positive and to the right for a negative shift; there is none exactly under a centimetre of length or up to a millimetre of shift. |
| Lanes.EndsMove | tools/gtfs_to_geojson.py:206-272 | Each end of a line is displaced, in metres, by exactly the push of its one segment, and stays if that pushes nothing. |
| Lanes.InnerMoves | tools/gtfs_to_geojson.py:206-272 | A point between two segments is displaced, in metres, by the mean of their pushes, or by the only one, or not at all. |
| Lanes.NorthMovesWest | tools/gtfs_to_geojson.py:194-203 | A line due north with a shift of six metres moves six metres west. |
| Lanes.PushEitherWay | tools/gtfs_to_geojson.py:184-203 | A segment pushes its endpoints the same way in both directions of travel. |
| Lanes.PushFlips | tools/gtfs_to_geojson.py:184-203 | Where both endpoints have one key the push follows the direction of travel: reversed, it is the opposite vector and never zero. |
| Lanes.ReversalCommutes | tools/gtfs_to_geojson.py:184-272 | Offsetting a reversed line gives the reverse of the offset line exactly when every segment whose ends snap to one key pushes nothing; distinct keys at every step suffice. |
| Lanes.SameKeysBreakReversal | tools/gtfs_to_geojson.py:180-203 | With five-decimal rounding and any cosine: two points 0.000004 degrees apart for which the reversed line moves to the other side. |
| Lanes.AssignLanes | tools/gtfs_to_geojson.py:432-453 | On a segment with at least two colour groups every route of group k gets lane k's shift, and nothing else changes. |
| Lanes.LanesAreEven | tools/gtfs_to_geojson.py:449-453 | Neighbouring lanes are exactly one spacing apart and all lane shifts sum to zero. |
| Lanes.EveryRouteGrouped | tools/gtfs_to_geojson.py:437-444 | Every route of the segment stands in a group of its colour. |
| Lanes.GroupsAlternate | tools/gtfs_to_geojson.py:437-444 | Neighbouring groups have different colours. |
| Lanes.GroupsKeepOrder | tools/gtfs_to_geojson.py:437-444 | Read group after group, the routes of a segment are in their order. |
| Lanes.SpacingByRank | tools/gtfs_to_geojson.py:216-222 | Lanes are 9 m apart if some route ranks 320 or more, else 7 m if some ranks 200 or more, else 6 m. |

## Left out

- Sorting and near-duplicate removal of the hull's input points, the Delaunay algorithm and the Haversine distance (backend/src/hull.rs:47-73): the triangulation and the metric are inputs.
- Floating-point rounding, NaN and infinities: real numbers stand in for f64 in the hull, the transfer lookup and the lanes.
- Cleaning of alert texts and `index_alert` (backend/src/aspen/alerts_processing.rs:15-116): easy members beside the deduplication.
- The order of elements with equal sort keys in merged alerts: it depends on hash-set iteration in the source too.
- The by-route and by-stop indexes, vehicle positions, delays, headsigns and platform lookups of the import (backend/src/aspen/import_alpenrose.rs): not part of the trip-id lookup.
- Realtime overlay of stop times (backend/src/trip_logic.rs:1841-1905), shapes and stop metadata of introduced stops: copied fields only.
- WorkQueue.UnreadIffMissed: a worker reads all feeds of its chateau in one step, although the program reads them one after another; several writes of one submission are separate steps.
- Fairness and liveness of the queue: no claim that a queued task is eventually stolen.
- Concurrent or aborted submissions at the gate: SubmissionGate takes submissions one at a time and runs each to its end; WorkQueue interleaves them and lets them be aborted while they wait for the lock.
- Failing writes and leases that expire inside a round of a leader, and the hash-and-dice gate that decides whether the Alpenrose leader reassigns at all (backend/src/alpenrose/leader_job.rs:61-70).
- The `alpenrose_assignments_last_updated` keys (backend/src/alpenrose/leader_job.rs:170-183): a clock value per worker.
- Debug builds, in which the additions and subtractions modelled as wrapping would panic.
- `find_service_ranges` and time zones (backend/src/lib.rs:623-688).
- Building the connecting-route lists after the assignment (backend/src/connections_lookup.rs:276-378).
- Ordering of the routes of a segment (tools/gtfs_to_geojson.py:166-173, 433): the ordered list is an input of the lane grouping.
- Network transport, databases, etcd, Redis, HTTP and persistence: stores are maps, leases are numbers, query results are given rows.
