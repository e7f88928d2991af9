# IBVAP alert core: a verified model

IBVAP turns camera frames into alerts. This project models the parts of it that decide: which
face belongs to which tracked person, when a track's presence in a zone starts and ends, whether
two segments meet, when evidence and watchlist state are queued and saved, and how subjects and
plates are followed from camera to camera. Every file proves properties of one such part; run
`dafny verify dfyconfig.toml` to check them all.

| files | what they model |
|---|---|
| `Basics` | what several files share |
| `Matching`, `LinearSumAssignment` | the assignment engine with its potentials, and why its result is optimal |
| `Boxes`, `GatedMatching`, `FaceAssociation` | gates, pair costs, the maximum matching they yield, provenance links |
| `Geometry`, `Polygons`, `RayCasting` | exact segment tests, fence validation, both point-in-polygon variants |
| `Rules` | loitering, the dedup table, tripwires |
| `Presence`, `AlertPipeline`, `IdentitySweep` | the alert state machine of one track, the frame loop over all tracks, the identity sweep |
| `DetectorHandle`, `EvidenceOffload`, `WatchlistTimers` | three concurrent protocols as step systems, each with the class whose critical sections are the steps |
| `PacketRing`, `Handover`, `PlateVotes`, `PlateSightings` | bounded stores and the indexes that have to agree with them |

Conventions. Coordinates, costs and clocks are exact reals. Clock readings are inputs, and where a
result needs a clock that never steps back it says so. A method's contract ties its new state to a
specification function; the properties are proved of that function, over whole runs where the claim
is about runs. A parameter written `ghost u` (or `ghost t`) of a frame method stands for any track:
the contract holds whichever one is named.

How the alert results fit together: `MiniPipeline.AnalyseAll` says that, for any track, the fields
of the frame loop are the state of the one-track machine of `Presence` and the log holds exactly
that machine's events, and `TicksAreEpoch` says that what the frames say of a track is an epoch of
that machine. So each run theorem of `Presence` is a theorem about every track of the pipeline. It
says the same of the rule engine: the engine ends as `Rules.After` of the frames' looks and prunes,
and the loitering notices in the log are that run's reports, so the loitering theorems are theorems
about the log (`LoiteringSeparated`, and `AllOpsClocked` for `Rules.ReportsExactly`). The suspects
reported are `SuspectLog` of the frames, which `SuspectsSeparated` is about. `SweepAndAnalyseAll` is
the same loop with the identity sweep before each frame's sections.

## What the code does beyond its description

The model follows the code. Where a documented property fails, a lemma gives an input and another
one says exactly when the property holds.

- The watchlist's "single pending timer" (`src/ibvap/core/watchlist.py:158`) is not single: a timer
  that fired late clears the newer handle, so a second one can be armed (`TwoTimersArmed`). A run
  keeps to one timer exactly when no known sighting is recorded while the handle is gone and a timer
  is armed (`SingleTimerExactly`).
- `_save` swallows write errors and its callers then clear `_dirty`, so what a failed write had to
  write is forgotten: no timer and no flush writes it again (`FailedWriteForgets`, `SightingLost`). A
  clean store is saved exactly when the last write attempted succeeded or had nothing new to write
  (`CleanMeansSaved`).
- The assignment engine's potentials are feasible on the rows inserted so far. They are feasible on
  every row after every insertion exactly when no row but the first has a negative cost, which the
  lock bonus can produce (`InsertRows`, `EveryRowFeasible`, `NegativeCostInfeasible`). The result is
  optimal either way.
- The backend ray cast adds 1e-9 to a denominator. That can divide by zero, and can report a point
  to the right of a polygon that validation accepts as inside (`BackendEpsilonLeaks`). A point
  outside the bounding box is reported outside exactly when no straddling edge has a zero
  denominator and the stray edges, which fall to a vertex less than 1e-9 below the ray and have the
  stretched crossing on the other side of the point, are even in number (`BackendOutsideExact`); the
  frontend's variant is right about all such points (`OutsideBoxIsOutside`).
- `segment_intersects_bbox` on a box whose corners are swapped still tests the four sides, so a
  segment can touch the outline of a box that contains no point (`SwappedBoxTouched`). The test is
  exact when the corners are in order, and meets exactly the outline when not
  (`SegmentIntersectsBoxExact`).
- Of two equally locked claimants of a watchlist entry the later one wins on threat level *or* on
  score, so a lower threat level with a higher score can win (`ScoreBeatsThreat`). Of two it wins
  exactly when its score is higher (`PairSurvivor`); of any number, the survivor is critical exactly
  when some critical claimant is not outscored by a later one that is not (`SurvivorCritical`).
- Finishing one hot swap clears the writing flag for every other swapper that waits, so a reader can
  enter before those (`ReaderOvertakesSwapper`). A reader is kept out exactly when a swapper has
  announced itself since the last completed swap (`KeptOutExactly`).
- Evicting a plate sighting removes its index key even when a newer sighting holds it, so not every
  repeat within 30 s merges (`RepeatNotMerged`): exactly those do whose key has seen no eviction
  since its latest sighting was stored (`RepeatsExactly`).
- A presence can end without its end event even though the debounce has passed: when the frame that
  ends the track is also the fourth that does not show it, the visibility rule has stood it down by
  the time the safety net looks (`EndUntold`). That and the debounce are the only cases
  (`EndToldExactly`, `EndBetweenExactly`).
- A timestamp of 0.0 given to the sightings store counts as none (`SightingsStore.RecordSighting`).

## Model

| member | source | states |
|---|---|---|
| LinearSumAssignment.Assign | src/ibvap/core/association.py:20-93 | for every rectangular cost matrix, negative costs included, the result matches the smaller side completely with distinct rows and columns in row order, and no other complete matching of that side has a smaller total |
| LinearSumAssignment.Solve | src/ibvap/core/association.py:38-83 | the loops end with a matching of all rows and potentials that certify it: feasible, tight on the pairs, never positive and zero on unmatched columns |
| LinearSumAssignment.InsertRow | src/ibvap/core/association.py:42-77 | one outer iteration takes k matched rows with feasible, tight potentials to k+1, terminates, and leaves the potentials of later rows alone; the first one leaves the column potentials alone too |
| LinearSumAssignment.SearchRow | src/ibvap/core/association.py:43-72 | the inner while ends at an unmatched column reached by a path of tight edges from the new row, with potentials feasible on all rows so far |
| LinearSumAssignment.Grow | src/ibvap/core/association.py:48-72 | one inner pass always finds an unvisited column, keeps the tree of tight edges and the running minima, and leaves one column fewer unvisited |
| LinearSumAssignment.ScanAndShift | src/ibvap/core/association.py:49-69 | one scan and one shift take the minima to a least one on an unvisited column, which is finite, and shift potentials by it |
| LinearSumAssignment.ScanRow | src/ibvap/core/association.py:54-62 | the scan lowers exactly the minima its row improves and returns an unvisited column of least minimum |
| LinearSumAssignment.ShiftPotentials | src/ibvap/core/association.py:63-69 | delta moves onto the tree rows and off the visited columns and the minima of unvisited columns, and nothing else changes, although u is indexed through p |
| LinearSumAssignment.Augment | src/ibvap/core/association.py:74-77 | the walk along the links ends, re-matches its path so that exactly one more row is matched, along tight edges, and unmatches no column |
| LinearSumAssignment.SearchStep | src/ibvap/core/association.py:48-72 | scan, shift by the least minimum and visit keep potentials feasible on all rows so far, the row being inserted included, although the first shift can be negative |
| LinearSumAssignment.UnvisitedExists | src/ibvap/core/association.py:51-62 | as long as every visited column is matched, some column is unvisited |
| LinearSumAssignment.EveryRowFeasible | src/ibvap/core/association.py:38-77 | over a run of insertions from zero potentials, the potentials are feasible on every row after every insertion exactly when no row but the first has a negative cost |
| LinearSumAssignment.InsertRows | src/ibvap/core/association.py:42-77 | the outer loop matches every row, and the potentials it passes through are feasible on every row throughout exactly when no row but the first has a negative cost |
| LinearSumAssignment.NegativeCostInfeasible | src/ibvap/core/association.py:38-77 | on a matrix with a negative cost in its second row, the potentials the first insertion ends with are not feasible on that row |
| LinearSumAssignment.CertifiedOptimal | src/ibvap/core/association.py:20-24 | a certified matching costs no more than any matching of all rows |
| LinearSumAssignment.Collect | src/ibvap/core/association.py:79-84 | the pairs read off p are a matching of all rows, and every column left out is unmatched |
| LinearSumAssignment.SortPairs | src/ibvap/core/association.py:86-93 | both index lists are permuted alike into the order of the first |
| LinearSumAssignment.TransposeBack | src/ibvap/core/association.py:27-29 | optimality of the transposed problem is optimality of the original |
| Matching.DualBound | src/ibvap/core/association.py:38-77 | potentials feasible on a matching's pairs sum up to no more than its total, and to exactly its total when they are tight on all of them |
| Boxes.BoxIouMeaning | src/ibvap/core/association.py:96-108 | the intersection over union of any two boxes lies between 0 and 1, and is positive exactly when their open interiors meet |
| FaceAssociation.GateDistances | src/ibvap/core/association.py:198-229 | a face that passes the head gate lies within 0.32 widths and 0.48 heights of the head point |
| FaceAssociation.PairCostTiers | src/ibvap/core/association.py:220-248 | with any lock bonus a gate-passing pair costs between -0.3 and 0.7, well below the default cutoff of 0.75, and every other pair exactly 1e5 |
| FaceAssociation.GateExactly | src/ibvap/core/association.py:195-223 | the head gate in lengths: the face's centre in the middle 64% of the person's width, from 2% down to 42% of the height, or 60% when the face is at least 28% as tall, and the face 8% to 58% as tall as the person |
| FaceAssociation.PairCostIs | src/ibvap/core/association.py:225-248 | what a gate-passing pair costs in coordinates and flags: the distance from the head point in widths and heights, 0.32 per unit off the scale of 22%, less 0.30 for a critical lock or 0.18 for any other |
| FaceAssociation.NearerIsCheaper | src/ibvap/core/association.py:225-248 | of two persons equally locked and equally off the scale the cheaper is exactly the one whose head point is nearer |
| FaceAssociation.LockAndScaleAreWorth | src/ibvap/core/association.py:229-248 | equally near, what is left is the scale, and the locks, worth exactly 0.30, 0.18 and the difference 0.12 |
| GatedMatching.Extend | src/ibvap/core/association.py:248-250 | any matching extends to a complete one for at most 1e5 per added pair |
| GatedMatching.KeptIsMaximum | src/ibvap/core/association.py:248-256 | the pairs a cutoff keeps of a cheapest complete assignment of fewer than 100,000 pairs are a maximum matching of the permitted pairs, and among those a cheapest |
| FaceAssociation.KeptIsMaximumGate | src/ibvap/core/association.py:248-256 | what the cutoff keeps of a cheapest complete assignment of faces to persons is a maximum matching of the gate graph and a cheapest one of its size |
| FaceAssociation.FilterPairs | src/ibvap/core/association.py:251-256 | the loop builds the table of exactly the optimum's pairs below the cutoff |
| FaceAssociation.AssignedReads | src/ibvap/core/association.py:251-258 | that table maps only persons' ids to faces and, with unique ids, is the matching itself: one entry per pair, no face twice |
| FaceAssociation.AssociateFacesToTracks | src/ibvap/core/association.py:179-258 | with unique ids, a cutoff between the tiers and fewer than 100,000 pairs, the returned map is a maximum matching of the gate graph and a cheapest one of its size |
| FaceAssociation.NoCheaperExchange | src/ibvap/core/association.py:248-258 | no pair of the result can be exchanged for a cheaper one with an unmatched person or face |
| FaceAssociation.FaceGoesToNearer | src/ibvap/core/association.py:225-258 | a face never goes to the farther of two persons, equally locked and equally off its scale, while the nearer one has none |
| FaceAssociation.OneFaceTwoPersons | src/ibvap/core/association.py:225-258 | one face that exactly two such persons could have goes to the nearer, and to nobody else |
| FaceAssociation.ProjectedBoxInFrame | src/ibvap/core/association.py:111-142 | whatever the face box, a projected body box is a proper box inside the frame |
| FaceAssociation.ProjectedBoxHoldsFace | src/ibvap/core/association.py:111-142 | a face in the frame is projected exactly when it has an area; its body box contains the face, is six faces tall or fills the frame, and overlaps the face |
| FaceAssociation.ProjectedBoxIs | src/ibvap/core/association.py:126-142 | where a projected box is: 2.2 face widths about the face, cut off at the frame, from a tenth of a face above it, or higher where six faces do not fit below |
| FaceAssociation.GreedyLinks | src/ibvap/core/association.py:145-176 | provenance links share no face, whatever the ids, join only linkable pairs, and leave a synthetic track out only when every face it could take is used |
| FaceAssociation.LinkableExactly | src/ibvap/core/association.py:163-172 | a face is linkable exactly when its quality passed and it has a region in common with the track and with no real person |
| FaceAssociation.GreedyFair | src/ibvap/core/association.py:160-176 | with unique ids, a face that an earlier synthetic track could have goes to a later one, or stays free, only if the earlier one has a face before it in the list |
| FaceAssociation.LinkSyntheticTracks | src/ibvap/core/association.py:145-176 | the loops serve tracks first come first served, each with its first free face |
| FaceAssociation.FirstLinkable | src/ibvap/core/association.py:163-175 | the inner loop stops at the first unused linkable face |
| FaceAssociation.GateOverlaps | src/ibvap/core/association.py:198-226 | a face that passes a track's head gate overlaps the track's box exactly when the face has an area |
| FaceAssociation.GateHeight | src/ibvap/core/association.py:199-225 | the gate's scale bounds rule degenerate boxes out: no face passes the gate of a track at most 1e-5 tall |
| FaceAssociation.LinksSpareGatedFaces | src/ibvap/core/association.py:152-172 | no provenance link takes a face that passes the gate of a real person track, however small its box |
| FaceAssociation.FuseFaces | src/ibvap/core/pipeline.py:413-418 | both passes as the pipeline merges them: the first pass is a maximum and cheapest matching of the gate graph, and every real person track ends with exactly the face that one gave it, shared with nobody |
| Geometry.IntersectExact | src/ibvap/core/geometry.py:46-71 | the orientation test holds exactly when some parameters in [0,1] give the same point on both segments: crossing, touching, collinear and zero-length segments alike |
| Geometry.CrossingMeets | src/ibvap/core/geometry.py:59-64 | orientations of strictly opposite sign on both sides give a common point |
| Geometry.CollinearOn | src/ibvap/core/geometry.py:65-71 | zero orientation and the bounding range put a point on the segment |
| Geometry.MeetIntersects | src/ibvap/core/geometry.py:54-71 | two segments with a common point pass one of the five tests |
| Geometry.SegmentIntersectsBoxExact | src/ibvap/core/geometry.py:87-106 | on a proper box the test holds exactly when segment and closed box share a point, on a box with swapped corners exactly when the segment meets its outline |
| Geometry.SwappedBoxTouched | src/ibvap/core/geometry.py:87-106 | a box with swapped corners, which contains no point, and a segment the test says meets it |
| Polygons.ValidatePolygon | src/ibvap/core/geometry.py:125-168 | the verdict is Valid exactly when every check passes, and otherwise names the first that fails |
| Polygons.FindCrossing | src/ibvap/core/geometry.py:159-168 | the double loop finds a crossing exactly when two non-adjacent edges share a point |
| Polygons.AcceptedIsSimple | src/ibvap/core/geometry.py:125-168 | an accepted polygon has 3 to 32 vertices in the unit square, non-adjacent edges are disjoint, and adjacent edges share their common vertex only |
| Polygons.AcceptedExactly | src/ibvap/core/geometry.py:125-168 | what is accepted, in coordinates: 3 to 32 vertices, three different, in the unit square, a fan of at least 1e-6, no edge shorter than 0.005, and no common point of edges that do not follow each other |
| Polygons.ShoelaceIsFan | src/ibvap/core/geometry.py:143-149 | the shoelace sum is the sum over the fan of triangles about the first vertex |
| RayCasting.PointInPolygon | src/ibvap/core/geometry.py:182-193 | the toggling loop answers by the parity of the hit edges, or raises where a straddling edge has a zero denominator |
| RayCasting.IsPointInPolygon | frontend/src/components/useFenceDrawing.ts:22-37 | the loop with its trailing index answers by the parity of exact hits |
| RayCasting.StraddlesEven | src/ibvap/core/geometry.py:188-192 | every closed polygon crosses every horizontal line on an even number of edges |
| RayCasting.FrontendCounts | frontend/src/components/useFenceDrawing.ts:29-35 | walking the edges backwards, as the frontend does, counts the same hits as forwards |
| RayCasting.OutsideBoxIsOutside | frontend/src/components/useFenceDrawing.ts:22-37 | the frontend reports every point strictly beyond the vertex bounding box as outside |
| RayCasting.HitIsCrossing | frontend/src/components/useFenceDrawing.ts:31-34 | an edge is hit exactly when one of its ends is above the ray, the other not, and it has a point on the ray to the right |
| RayCasting.InsideIsOdd | frontend/src/components/useFenceDrawing.ts:22-37 | the frontend reports a point as inside exactly when an odd number of edges cross the ray to its right |
| RayCasting.InsideTriangle | frontend/src/components/useFenceDrawing.ts:22-37 | every point strictly inside a triangle, drawn either way round, is reported as inside |
| RayCasting.RotationInvariant | src/ibvap/core/geometry.py:182-193 | the backend's answer, the exception included, does not depend on which vertex the list starts with |
| RayCasting.BackendOutsideExact | src/ibvap/core/geometry.py:182-193 | the backend reports a point beyond the bounding box as outside exactly when no straddling edge has a zero denominator and an even number of edges are stray |
| RayCasting.BackendHitBeside | src/ibvap/core/geometry.py:188-192 | a point beside an edge hits it exactly when the edge straddles its ray, or does not, according to its side; a stray edge is the one exception |
| RayCasting.BackendAgreesExactly | src/ibvap/core/geometry.py:182-193 | how far the epsilon reaches: for every point the backend gives the frontend's answer exactly when no straddling edge has a zero denominator and the edges on which their tests differ are even in number |
| RayCasting.BackendOutsideBox | src/ibvap/core/geometry.py:182-193 | the backend reports points beyond the bounding box as outside when no vertex lies less than 1e-9 below, or on, the ray |
| RayCasting.BackendEpsilonLeaks | src/ibvap/core/geometry.py:191 | a triangle that validation accepts and a point to its right that the backend reports as inside |
| Rules.PruningIsInvisible | src/ibvap/core/rules.py:160-171 | for a clock that never steps back, the pruned dedup table decides every call of a list like one that is never pruned |
| Rules.EnginePruningIsInvisible | src/ibvap/core/rules.py:67-171 | in every run of looks, tripwire steps, prunes and resets with such a clock, an engine with the pruned table and one with the whole table report the same at every operation and remember the same of every track |
| Rules.StreakIsRun | src/ibvap/core/rules.py:131-152 | the stored outside streak is the number of consecutive outside looks since the last inside look, end of track or reset |
| Rules.ReportsSeparated | src/ibvap/core/rules.py:118-158 | in every run of looks, tripwire steps, prunes and resets, between two loitering reports of one track in one zone lie three consecutive outside looks, the track's end, or a reset |
| Rules.NoticesSeparated | src/ibvap/core/rules.py:118-158 | the same of any two loitering notices of one track in the log of a run over one zone |
| Rules.ReportHasDwelt | src/ibvap/core/rules.py:131-144 | in every such run a loitering report is backed by an inside look at least the loiter time earlier with no rearming in between |
| Rules.ReportsExactly | src/ibvap/core/rules.py:118-171 | in every run with a clock that never steps back, a look reports loitering exactly when it is an inside look, the track has dwelt for the loiter time without rearming, was not reported since it was last rearmed, and no report under the same dedup key less than the cooldown ago holds it back |
| Rules.DedupExactly | src/ibvap/core/rules.py:132-171 | the dedup table lets a loitering report through exactly when none under its key was made less than the cooldown ago since the last reset, tripwire reports notwithstanding |
| Rules.SameKeyExactly | src/ibvap/core/rules.py:102-106 | two events share a dedup key exactly when they are of one rule, item and track and fall into one time slot of the cooldown's length, or, without a cooldown, at one time |
| Rules.WatchMeaning | src/ibvap/core/rules.py:67-116 | an armed tripwire fires exactly when the two positions are strictly on opposite sides in its direction, the step between them meets the wire itself, and the dedup table agrees; it takes the new position, firing disarms it, and a wire that is not ready changes nothing |
| Rules.TripsConsistent | src/ibvap/core/rules.py:67-116 | in every run with wires of different ids each wire's record of each track is consistent, which is what `WatchMeaning` needs |
| Rules.CrossesExactly | src/ibvap/core/rules.py:67-116 | in every run with a clock that never steps back and wires of different ids, a walk reports a crossing exactly when it steps across the wire from the position held, has gone farther from there than the hysteresis if it last crossed there, and no report under the same dedup key holds it back |
| Rules.TripIsPosition | src/ibvap/core/rules.py:67-116 | in every such run the position a wire holds is that of the track's last walk, walks within the hysteresis of a reported crossing passed over |
| Rules.SideIs | src/ibvap/core/rules.py:23-24 | which side of a wire a point is on, from its coordinates and the end of the wire that comes first |
| Rules.EndpointOrderIrrelevant | src/ibvap/core/rules.py:78-81 | swapping a wire's drawn end points changes nothing, direction included |
| Rules.RuleEngine.ShouldEmitAt | src/ibvap/core/rules.py:160-171 | the method decides and prunes as the dedup specification does |
| Rules.RuleEngine.CheckZones | src/ibvap/core/rules.py:118-153 | the zone loop is the sequence of single looks, and remembers no track but the one looked at |
| Rules.RuleEngine.CheckZone | src/ibvap/core/rules.py:120-152 | the loop body is one observation |
| Rules.RuleEngine.CheckTripwires | src/ibvap/core/rules.py:67-116 | the wire loop is the sequence of single watches, and remembers no track but the one looked at |
| Rules.RuleEngine.PruneTrack | src/ibvap/core/rules.py:155-158 | the track is forgotten by both rule families and every other is kept |
| Rules.RuleEngine.ResetAll | src/ibvap/core/rules.py:59-65 | nothing is remembered |
| Presence.StepShape | src/ibvap/core/pipeline.py:537-681 | a frame gives a track at most one boundary event: an intrusion exactly when it becomes alerted, an end only when it stops being alerted, each only after its cooldown |
| Presence.EndHasIntrusion | src/ibvap/core/pipeline.py:537-681 | in every epoch each presence end has an intrusion before it with no other end in between, so the first boundary event is an intrusion and two ends never follow each other |
| Presence.IntrudesExactly | src/ibvap/core/pipeline.py:543-567 | in every epoch a frame reports an intrusion exactly when it looks at a track that is not alerted, the look is a hit, or is on a line hit before with at most four misses in a row since and no stand-down, and the track's last intrusion is 4 s ago or more |
| Presence.LatchReads | src/ibvap/core/pipeline.py:545-558 | the line latch is on exactly when the track has hit the line, missed it at most four times in a row since, and neither stood down nor ended |
| Presence.HitAlerts | src/ibvap/core/pipeline.py:560-567 | no hit goes unnoticed: after it the track is alerted, unless it intruded less than 4 s before or the clock reads under 4 |
| Presence.EndToldExactly | src/ibvap/core/pipeline.py:641-775 | a track that stands down gets its presence end exactly when its last one is 3 s ago or more and the frame did not both end it and leave it unseen for the fourth time |
| Presence.EndKindExactly | src/ibvap/core/pipeline.py:232-273 | in every epoch an end is zone_exit when the frame looked at the track; otherwise it is zone_exit when its last position, in the table or as it ended, is outside, and target_lost when that is inside |
| Presence.EndBetweenExactly | src/ibvap/core/pipeline.py:537-681 | between two intrusions in a row the track stands down in exactly one frame, and there is a presence end exactly when that is 3 s or more after the last one |
| Presence.EndUntold | src/ibvap/core/pipeline.py:645-764 | an epoch in which a presence ends without its event |
| Presence.IntrusionsSpaced | src/ibvap/core/pipeline.py:563-567 | two intrusions of one track are at least 4 s apart |
| Presence.EndsSpaced | src/ibvap/core/pipeline.py:239-242 | two presence ends of one track, by whichever path, are at least 3 s apart |
| Presence.SilentAfterEnd | src/ibvap/core/pipeline.py:750-810 | an ended track is back in its initial state and reports nothing more |
| Presence.LeavesAtLimit | src/ibvap/core/pipeline.py:543-606 | an alerted track that is looked at stands down exactly at its 15th consecutive geometric miss for a polygon and its 19th for a line |
| Presence.DarkStandsDown | src/ibvap/core/pipeline.py:645-657 | a track unseen on four consecutive sampled frames is not alerted |
| Presence.ShortDarknessKeeps | src/ibvap/core/pipeline.py:645-652 | an alerted track that was visible stays alerted through up to three unseen frames |
| AlertPipeline.ObsIsTrackerFrame | src/ibvap/core/pipeline.py:645-661 | what a tracker frame says of one track is a frame the one-track machine accepts |
| AlertPipeline.TicksAreEpoch | src/ibvap/core/pipeline.py:276-813 | what an epoch's frames say of any one track is an epoch of the one-track machine |
| AlertPipeline.MiniPipeline.Analyse | src/ibvap/core/pipeline.py:490-813 | one frame moves any track by exactly one step of the one-track machine and logs exactly its events; the rule engine takes exactly the frame's looks and prunes and its reports are the loitering notices; each due suspect is reported once; no set, map or clock, here or in the rule engine, holds an ended track afterwards, and every alerted suspect is a live track with an identity |
| AlertPipeline.MiniPipeline.SweepAndAnalyse | src/ibvap/core/pipeline.py:460-813 | one frame from the identity sweep on, over the claims of exactly the live tracks: what the sweep left of every claim is what the alert sections see, and the losers' alerts are given up with the unidentified ones |
| AlertPipeline.SweptFrameReads | src/ibvap/core/pipeline.py:460-494 | after the sweep a live track is identified, or a suspect, as the sweep left its claim |
| AlertPipeline.MiniPipeline.SweepAndAnalyseAll | src/ibvap/core/pipeline.py:276-813 | the frame loop with the sweep in every frame, over any claims, is the frame loop over the swept frames, and those are an epoch |
| AlertPipeline.MiniPipeline.AnalyseAll | src/ibvap/core/pipeline.py:276-813 | over an epoch the fields and the log are those of the one-track machine's run, for every track; the rule engine and the loitering notices are those of its run over the frames' looks and prunes; the alerted suspects and their notices are those due frame by frame; and all that is remembered at the end is of live tracks |
| AlertPipeline.LoiteringSeparated | src/ibvap/core/pipeline.py:506-535 | between two loitering notices of one track in an epoch's log, the frames show three consecutive looks at it outside the zone, or its end |
| AlertPipeline.AllOpsClocked | src/ibvap/core/pipeline.py:506-535 | an epoch's looks have a clock that never steps back, so the exact account of loitering reports applies to its frames |
| AlertPipeline.SuspectReportedExactly | src/ibvap/core/pipeline.py:490-731 | in every epoch a frame reports a track as a suspect exactly when it shows it as one and no earlier frame reported it since which it has kept an identity |
| AlertPipeline.SuspectsSeparated | src/ibvap/core/pipeline.py:490-731 | a suspect is reported once per identification: two notices of one track come from two frames, and in a frame after the first, up to the second, it had no identity or was gone |
| AlertPipeline.ExitsExactly | src/ibvap/core/pipeline.py:782-810 | over an epoch the target-exited notices are those of the tracks that end with three hits, a confidence of 0.45 and the clock past 3 |
| AlertPipeline.ExitOnce | src/ibvap/core/pipeline.py:782-810 | and no track has two |
| AlertPipeline.MiniPipeline.IntrusionSection | src/ibvap/core/pipeline.py:537-639 | the loop over visible tracks is the machine's first section for each of them and for nobody else |
| AlertPipeline.MiniPipeline.UpdateLatch | src/ibvap/core/pipeline.py:543-559 | the line latch with its five-miss expiry |
| AlertPipeline.MiniPipeline.WhileIntruding | src/ibvap/core/pipeline.py:560-596 | one alert per presence, after a cooldown, other tracks untouched |
| AlertPipeline.MiniPipeline.WhileOutside | src/ibvap/core/pipeline.py:597-639 | the exit count, the stand-down at 15 and its debounced event |
| AlertPipeline.MiniPipeline.VisibilitySection | src/ibvap/core/pipeline.py:645-681 | the loop over a snapshot of the alerted tracks is the machine's visibility section for each, although it removes tracks as it goes |
| AlertPipeline.MiniPipeline.TerminationSection | src/ibvap/core/pipeline.py:749-810 | every terminated track gets the end event it is owed and, if it was confirmed, its target-exited notice, and is forgotten everywhere |
| AlertPipeline.MiniPipeline.PruneTrack | src/ibvap/core/pipeline.py:198-213 | one track is forgotten in every set, map, clock and rule, all others are kept |
| AlertPipeline.MiniPipeline.SuspectSection | src/ibvap/core/pipeline.py:709-747 | the notices added are one for each suspect seen that was not alerted before, in order, and those seen are the ids added to the alerted set |
| AlertPipeline.MiniPipeline.LoiterSection | src/ibvap/core/pipeline.py:506-535 | the rule engine takes one look per visible track, and the notices added are exactly its reports |
| AlertPipeline.MiniPipeline.ResetEpoch | src/ibvap/core/pipeline.py:184-196 | a new epoch starts with nothing remembered |
| IdentitySweep.ChampionLocked | src/ibvap/core/pipeline.py:465-488 | the surviving claimant of an entry is locked whenever any claimant was |
| IdentitySweep.ChampionUnbeaten | src/ibvap/core/pipeline.py:465-488 | no claimant has a lock the survivor lacks, and none that comes after it beats it |
| IdentitySweep.PairExactly | src/ibvap/core/pipeline.py:465-488 | of two claimants the later wins exactly when it alone is locked, or they are locked alike and it is critical where the other is not, or its score is higher |
| IdentitySweep.SurvivorHighest | src/ibvap/core/pipeline.py:465-488 | of any number of claimants, if those with the best lock are all critical or all not, the survivor is the first of them with the highest score |
| IdentitySweep.PairSurvivor | src/ibvap/core/pipeline.py:465-488 | of two claimants equally locked, a later one that is not critical displaces a critical one exactly when its score is higher |
| IdentitySweep.ScoreBeatsThreat | src/ibvap/core/pipeline.py:474-482 | a critical claimant that loses its entry to one that is not |
| IdentitySweep.SurvivorCritical | src/ibvap/core/pipeline.py:465-488 | of any number of claimants the survivor is critical exactly when some critical claimant, locked if any is, is not outscored by a later one of the same lock that is not critical |
| IdentitySweep.OneHolderPerEntry | src/ibvap/core/pipeline.py:460-488 | after the sweep each claimed entry is held by exactly one track, a claimant with its identity intact, locked if any claimant was; an unclaimed entry by none |
| IdentitySweep.Sweep | src/ibvap/core/pipeline.py:460-494 | every track ends as its champion or cleared, in place, and the alerted ids that remain are exactly those of tracks that still have an identity |
| IdentitySweep.Resolve | src/ibvap/core/pipeline.py:461-488 | the pairwise loop clears every loser exactly once and discards exactly the losers' alerts |
| DetectorHandle.RunKeeps | src/ibvap/core/model_manager.py:101-136 | every interleaving of any readers and swappers keeps the invariant |
| DetectorHandle.NoReaderSeesASwap | src/ibvap/core/model_manager.py:101-136 | in every reachable state the counter is the number of readers in flight, each still using the current detector; a step replaces it only with none in flight; a waiting swapper has readers before it and a waiting reader a pending swapper |
| DetectorHandle.LastSwapIsInstalled | src/ibvap/core/model_manager.py:126-134 | in every run the detector is the one brought by the thread that completed the last swap, or the first one if none did |
| DetectorHandle.KeptOutExactly | src/ibvap/core/model_manager.py:101-136 | in every run a reader that arrives is kept out exactly when a swapper has announced itself since the last completed swap |
| DetectorHandle.ReaderOvertakesSwapper | src/ibvap/core/model_manager.py:126-135 | a run in which a reader enters while a swapper that announced itself is still waiting |
| DetectorHandle.SomeoneCanStep | src/ibvap/core/model_manager.py:104-135 | as long as a thread is inside, some thread inside can step: no wake-up is lost |
| DetectorHandle.EveryScheduleDrains | src/ibvap/core/model_manager.py:101-136 | without new arrivals every schedule is finite and ends with everybody out |
| DetectorHandle.InternalProgress | src/ibvap/core/model_manager.py:101-136 | every step of a thread inside leaves less work |
| DetectorHandle.ThreadSafeDetectorHandle.AcquireSection | src/ibvap/core/model_manager.py:104-107 | the section admits exactly when no swap is announced |
| DetectorHandle.ThreadSafeDetectorHandle.YieldDetector | src/ibvap/core/model_manager.py:108-109 | the detector is read outside the lock, after the count |
| DetectorHandle.ThreadSafeDetectorHandle.ReleaseSection | src/ibvap/core/model_manager.py:110-114 | the last reader out wakes everybody |
| DetectorHandle.ThreadSafeDetectorHandle.HotSwapSection | src/ibvap/core/model_manager.py:126-135 | the swapper announces itself once, installs its detector exactly when no reader is counted, and wakes everybody |
| EvidenceOffload.QueueIsBoundedAndConserved | src/ibvap/core/evidence.py:237-289 | in every interleaving the queue holds at most 32, appended = pending + dropped + removed, and no thread asks for the queue lock while holding it |
| EvidenceOffload.OverflowDropsOldest | src/ibvap/core/evidence.py:270-275 | in every interleaving an append to a full queue drops exactly the future appended before all others in it |
| EvidenceOffload.OverflowIsCancelled | src/ibvap/core/evidence.py:276-283 | in every interleaving a dropped future is no longer queued once its caller is past the overflow check, and before the shutdown nothing else is ever cancelled |
| EvidenceOffload.CancelSettles | src/ibvap/core/evidence.py:281-282 | the cancel itself cancels a future that is still queued and leaves any other |
| EvidenceOffload.RunKeeps | src/ibvap/core/evidence.py:237-289 | every interleaving of submitters, the worker and the shutdown canceller keeps the invariant |
| EvidenceOffload.QuiescentIsEmpty | src/ibvap/core/evidence.py:283-289 | once every caller has returned and every future is done the queue is empty |
| EvidenceOffload.SomeoneCanStep | src/ibvap/core/evidence.py:271-289 | nothing deadlocks: until then some thread can step |
| EvidenceOffload.EveryScheduleDrains | src/ibvap/core/evidence.py:237-289 | once submissions stop every schedule is finite and ends with the queue empty |
| EvidenceOffload.EvidenceQueue.AppendSection | src/ibvap/core/evidence.py:269-275 | append, dropping and counting the oldest when the queue is full |
| EvidenceOffload.EvidenceQueue.DoneSection | src/ibvap/core/evidence.py:287-289 | the callback's removal, tolerating absence |
| PacketRing.PacketRingBuffer.Push | src/ibvap/core/evidence.py:42-49 | the buffer always holds the longest tail of everything ever pushed that fits the time and byte bounds, and its byte count is exact |
| PacketRing.PacketRingBuffer.EvictOld | src/ibvap/core/evidence.py:46-49 | evicting from the front stops at the longest tail that fits |
| WatchlistTimers.NoSightingUnscheduled | src/ibvap/core/watchlist.py:126-167 | in every interleaving a dirty store has a timer, armed or fired, that has not yet entered its save section, and a clean one's file equals its memory if the last write succeeded |
| WatchlistTimers.CleanMeansSaved | src/ibvap/core/watchlist.py:126-167 | in every interleaving a clean store's file equals its memory exactly when the last write attempted succeeded or had nothing new to write |
| WatchlistTimers.EntriesExactly | src/ibvap/core/watchlist.py:261-306 | after any run an entry is the one last added, gone if last removed, with the sightings since counted in and the time of the last of them |
| WatchlistTimers.PendingSaveSaves | src/ibvap/core/watchlist.py:157-167 | letting that timer run writes everything recorded to the file |
| WatchlistTimers.FailedWriteForgets | src/ibvap/core/watchlist.py:252-259 | whatever a failed write had to write stays unwritten: the store is clean, and no later timer or flush changes the file |
| WatchlistTimers.PendingAfterFailedFlush | src/ibvap/core/watchlist.py:126-155 | after a failed flush a timer is still pending exactly when the flush did not cancel it |
| WatchlistTimers.SightingLost | src/ibvap/core/watchlist.py:126-138 | a run from a saved store that ends clean, with nothing pending and the file behind |
| WatchlistTimers.TwoTimersArmed | src/ibvap/core/watchlist.py:140-167 | a run from a saved store that ends with two timers armed |
| WatchlistTimers.SingleTimerExactly | src/ibvap/core/watchlist.py:140-167 | from at most one armed timer, every state of a run has at most one exactly when no known sighting is recorded while the handle is gone and a timer is armed |
| WatchlistTimers.WatchlistStore.RecordSighting | src/ibvap/core/watchlist.py:296-306 | the sighting is counted, the store is dirty and a save is scheduled; an unknown id changes nothing |
| WatchlistTimers.WatchlistStore.ScheduleDebounceLocked | src/ibvap/core/watchlist.py:140-148 | a new timer is armed unless the handle's is still alive |
| WatchlistTimers.WatchlistStore.CancelDebounceLocked | src/ibvap/core/watchlist.py:150-155 | the handle is dropped and its timer cancelled if it has not fired |
| WatchlistTimers.WatchlistStore.DebouncedSave | src/ibvap/core/watchlist.py:157-167 | the save section clears the handle, whosever it is, and saves if dirty |
| WatchlistTimers.WatchlistStore.AddEntry | src/ibvap/core/watchlist.py:261-270 | added and saved at once |
| WatchlistTimers.WatchlistStore.RemoveEntry | src/ibvap/core/watchlist.py:272-280 | removed and saved at once; true exactly when the id was there |
| WatchlistTimers.WatchlistStore.Flush | src/ibvap/core/watchlist.py:126-138 | cancels the timer and saves if dirty |
| Handover.HandoverEngine.UpdateObservations | src/ibvap/core/handover.py:57-210 | the nested loops are the fold over observations in their order, then inactivity, then eviction; every entry of the three maps then points at a live dossier, dossiers are within the bound and sightings within twenty |
| Handover.HandoverEngine.HandleTrack | src/ibvap/core/handover.py:78-172 | one track: identity, then camera and track, then transfer, then a new dossier |
| Handover.HandoverEngine.HandlePlate | src/ibvap/core/handover.py:175-189 | one plate: by its track, else by its text, else not at all |
| Handover.HandoverEngine.PruneOld | src/ibvap/core/handover.py:196-208 | eviction takes the table and all three maps together |
| Handover.After | src/ibvap/core/handover.py:57-210 | after any run of updates from empty the invariant holds and the table is within its bound |
| Handover.NothingDangles | src/ibvap/core/handover.py:97-111 | under the invariant the clean-up branches for dangling entries are never taken |
| Handover.EvictOrdered | src/ibvap/core/handover.py:197-203 | exactly the excess is evicted, and the table's order stays in step |
| Handover.EvictThins | src/ibvap/core/handover.py:197-203 | eviction changes no dossier it leaves |
| Handover.EvictsOldest | src/ibvap/core/handover.py:198-203 | no evicted dossier was seen more recently than one that stays |
| Handover.ThreatNeverFalls | src/ibvap/core/handover.py:154-157 | over an update with fresh ids every surviving dossier keeps its threat level or gets a higher one of the four |
| Handover.SightingCounts | src/ibvap/core/handover.py:85-159 | whatever else an update sees, the dossier a sighting went to ends at the sighting's level or above, if it is still there: critical for an intrusion, and the watchlist level from HIGH on |
| Handover.HandedOverExactly | src/ibvap/core/handover.py:113-142 | a track known neither by name nor by camera and number is handed the first dossier in table order that has its class, was seen within the window and has not been to the camera by name or by id, and gets a new one exactly when there is none |
| Handover.KnownGoesBack | src/ibvap/core/handover.py:95-111 | a track goes where its name says, else where its camera and number say |
| Handover.SightedExactly | src/ibvap/core/handover.py:119-172 | what a sighting leaves of its dossier: the last twenty sightings, last seen now and active, the camera, the level, the title, and the name remembered; a new dossier starts with the track's class, name and level |
| Handover.OthersUntouched | src/ibvap/core/handover.py:144-172 | no other dossier and no other track's entry is touched |
| Handover.NamedStayTogether | src/ibvap/core/handover.py:97-103 | throughout a pass every track of a known name goes to that name's dossier |
| Handover.PlateGoes | src/ibvap/core/handover.py:175-189 | a plate goes to the dossier of its track, else to the one that has it, and else nowhere |
| Handover.ActiveExactly | src/ibvap/core/handover.py:191-194 | at the end of a pass a dossier is active exactly when it was and has been seen in the last 30 s |
| Handover.TracksStayApart | src/ibvap/core/handover.py:95-159 | over every run with fresh ids, unnamed subjects and cameras that keep their names, two tracks of one camera never share a dossier |
| PlateVotes.WindowIsRecentReads | src/ibvap/core/anpr.py:307-361 | in every run a vote window is exactly the last ten reads, or all, of its vehicle since the read that opened it: there was none before that read, there has been one ever since, and every call since belonged to its epoch |
| PlateVotes.WindowGoesExactly | src/ibvap/core/anpr.py:307-361 | a window goes in a call exactly when the call is of another epoch, or evicts and the vehicle is neither live nor within its grace, or opens another window at full capacity and this one is first in line |
| PlateVotes.ClockIsLastRead | src/ibvap/core/anpr.py:319-356 | in every run a window's clock is the time of its vehicle's last read |
| PlateVotes.OrderIsByOpening | src/ibvap/core/anpr.py:314-326 | in every run the window first in line is the one open longest |
| PlateVotes.StepKeeps | src/ibvap/core/anpr.py:307-361 | history, activity clock and order hold the same keys, all of the current epoch, within capacity or a single window, and a vote's own window survives it |
| PlateVotes.RunOneEpoch | src/ibvap/core/anpr.py:310-313 | in every run all windows are of one epoch |
| PlateVotes.MostCommon | src/ibvap/core/anpr.py:329-331 | the consensus has the highest count and, among ties, occurs first |
| PlateVotes.AnprVotes.ConsensusFor | src/ibvap/core/anpr.py:307-331 | the new state is the vote's, and the result the consensus of the window voted in |
| PlateVotes.AnprVotes.PopDead | src/ibvap/core/anpr.py:349-360 | the loop over a snapshot of the keys pops exactly the dead windows of the table it started with, although it changes the table as it goes |
| PlateVotes.AnprVotes.EvictDeadTracks | src/ibvap/core/anpr.py:333-361 | drops other epochs and dead tracks past their grace, and returns how many |
| PlateVotes.AnprVotes.VotesFor | src/ibvap/core/anpr.py:363-366 | the loop counts how often a text occurs in its window, as a multiset; zero without a window |
| PlateVotes.AnprVotes.Report | src/ibvap/core/anpr.py:418-421 | a plate is reported exactly when the consensus has at least two votes |
| PlateSightings.SightingsStore.RecordSighting | src/ibvap/core/anpr.py:452-486 | a repeat within 30 s of the indexed sighting is merged into that very object, anything else is appended and indexed; every index entry stays a stored sighting with its own key, and counts held plus evicted equal the calls made |
| PlateSightings.SightingsStore.RepeatsExactly | src/ibvap/core/anpr.py:466-470 | a call merges exactly when no sighting under its key has been evicted since the latest one was stored, and that one is less than 30 s old |
| PlateSightings.RepeatNotMerged | src/ibvap/core/anpr.py:466-485 | four calls on a store of two after which two sightings of one plate a second apart stand side by side |
| PlateSightings.PresentAfter | src/ibvap/core/anpr.py:481-485 | storing a sighting makes its key present and the key of the sighting it evicts absent, and changes no other |
| PlateSightings.SightingsStore.EvictOldest | src/ibvap/core/anpr.py:483-485 | the oldest sighting leaves with the index key it has, whoever holds it, and its count moves to the evicted |
| PlateSightings.SumUpdate | src/ibvap/core/anpr.py:466-470 | bumping one stored count moves the sum of all counts by that much |

## Left out

- AlertPipeline.MiniPipeline.Analyse: the machine follows the zone of the frame; of the debounce clocks of other zones it only says that they belong to known tracks. Sample-stride frames change nothing and are not frames here. The log is kept as one list per kind of event, so the order of events of different kinds within a frame is not said. `target_entered` events, the returned primary event, explanations, evidence attachments and dedup keys of stored rows are not modelled.
- AlertPipeline.MiniPipeline.LoiterSection: whether a footpoint is inside the mirrored polygon is an input of the frame, so the division by zero of the backend ray cast appears in `RayCasting` only.
- Polygons.ValidatePolygon: two-point line fences (`validate_line`, `validate_fence`) are not modelled. The two finiteness checks are not modelled, since a real is finite; lengths are compared squared.
- FaceAssociation.AssociateFacesToTracks: the square root is a parameter, any function that is one on non-negative reals; which of several equally cheap maximum matchings is chosen is not said.
- LinearSumAssignment.ArgSort: argsort is an insertion sort; keys are distinct, so the order is the same.
- DetectorHandle.NoReaderSeesASwap: detectors are names; pre-warming and disposal of the old session are not modelled.
- EvidenceOffload.EveryScheduleDrains: the worker's job is one step that always finishes; the synchronous save of a submission that races the shutdown never enters the queue and is not a step. JPEG encoding, paths, file eviction, manifests and hashes are left out.
- PacketRing.PacketRingBuffer.Push: clips cut from the buffer are not modelled; the result is for a clock that never steps back.
- WatchlistTimers.NoSightingUnscheduled: a save section is one step under the lock; whether its write succeeds is an input. Galleries, matching, loading and the format of the file are left out.
- Handover.TracksStayApart: named subjects are meant to be merged and are excluded. Threat levels arrive in upper case, generated ids are an injective sequence, and box, confidence and label formatting are opaque; sorting by last sighting is repeated selection of the first oldest, which is what a stable sort gives.
- Handover.ThreatNeverFalls: as generated ids are six hexadecimal digits, their being fresh is an assumption and not a property of the code.
- PlateVotes.AnprVotes.Report: the consensus and the count of its votes are taken under two separate acquisitions of the lock; they are one step here. Plate normalisation and recognition are left out.
- PlateSightings.SightingsStore.RecordSighting: plates arrive normalised; random ids, boxes and queries are left out.
- AlertPipeline.MiniPipeline.SweepAndAnalyseAll: each frame's tracks are given with the claims they have when its sweep starts; how a track came by its identity, and that it is the same object from frame to frame, is not modelled.
- IdentitySweep.Sweep: an entry id that is empty counts as none, as in the code; names, tiers and scores beyond the comparison are left out.
- Rules.RuleEngine.CheckTripwires: wires are looked up in list order and keyed by id; `explain` is left out.
- Tracker, detector, face and plate inference, camera state, the outbox, dispatching, the HTTP interface and the user interface are not part of this model; tracks, detections and reads are inputs, under the contract that visible tracks are live, removed ones are reported terminated once, and ids are not reused within an epoch.
- Floating-point rounding, infinities and NaN.
