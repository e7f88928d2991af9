/** The alert machine of one track in one zone: latch, miss counters, visibility
    streak and debounce clocks, and what holds of it over every run. */
module Presence {
  import opened Basics

  datatype Kind = ZoneIntrusion | ZoneExit | TargetLost

  /** What the pipeline's maps say of one track; absent counters read as zero. */
  datatype TrackState = TrackState(alerted: bool, lineActive: bool, outside: nat, unseen: nat, lineMiss: nat,
                                   lastIntrusion: real, lastExit: real)

  const INIT := TrackState(false, false, 0, 0, 0, 0.0, 0.0)

  /** One frame as one track meets it. seen: the geometric hit, when the track is
      visible and of a watched class. live, term: whether its last position is
      outside, when the tracker still holds it, or ended it in this frame. */
  datatype Obs = Obs(seen: Option<bool>, visible: bool, live: Option<bool>, term: Option<bool>)

  datatype Tick = Tick(obs: Obs, now: real)

  // ------------------------------------------------------------ one track, one frame

  /** The tripwire latch: a hit holds for four further misses. */
  function Latch(t: TrackState, isLine: bool, hit: bool): (TrackState, bool) {
    if !isLine then (t, hit)
    else if hit then (t.(lineActive := true, lineMiss := 0), true)
    else if t.lineActive then
      var misses := t.lineMiss + 1;
      if misses < 5 then (t.(lineMiss := misses), true) else (t.(lineActive := false, lineMiss := 0), false)
    else (t, false)
  }

  function Zoned(t: TrackState, intruding: bool, now: real): (TrackState, seq<Kind>) {
    if intruding then
      var t1 := t.(outside := 0);
      if !t.alerted && now - t.lastIntrusion >= 4.0
      then (t1.(alerted := true, lastIntrusion := now), [ZoneIntrusion])
      else (t1, [])
    else if t.alerted then
      var count := t.outside + 1;
      if count >= 15 then
        var t1 := t.(outside := count, alerted := false, lineActive := false, lineMiss := 0);
        if now - t.lastExit >= 3.0 then (t1.(lastExit := now), [ZoneExit]) else (t1, [])
      else (t.(outside := count), [])
    else (t.(outside := 0), [])
  }

  function Intrude(t: TrackState, isLine: bool, seen: Option<bool>, now: real): (TrackState, seq<Kind>) {
    match seen
    case None => (t, [])
    case Some(hit) => var (t1, intruding) := Latch(t, isLine, hit); Zoned(t1, intruding, now)
  }

  /** The presence-end event of a track gone dark, unless debounced. */
  function EndPresence(t: TrackState, lastOutside: bool, now: real): (TrackState, seq<Kind>) {
    if now - t.lastExit < 3.0 then (t, [])
    else (t.(lastExit := now), [if lastOutside then ZoneExit else TargetLost])
  }

  function Stand(t: TrackState): TrackState {
    t.(alerted := false, outside := 0, lineActive := false, lineMiss := 0, unseen := 0)
  }

  function Visibility(t: TrackState, o: Obs, now: real): (TrackState, seq<Kind>) {
    if !t.alerted then (t, [])
    else if o.visible then (t.(unseen := 0), [])
    else if t.unseen < 3 then (t.(unseen := t.unseen + 1), [])
    else if o.live.None? then (Stand(t), [])
    else EndPresence(Stand(t), o.live.value, now)
  }

  function Terminate(t: TrackState, o: Obs, now: real): (TrackState, seq<Kind>) {
    if o.term.None? then (t, [])
    else if t.alerted then (INIT, EndPresence(Stand(t), o.term.value, now).1)
    else (INIT, [])
  }

  /** The two sections that come before terminations. */
  function Present(t: TrackState, isLine: bool, o: Obs, now: real): (TrackState, seq<Kind>) {
    var (t1, k1) := Intrude(t, isLine, o.seen, now);
    var (t2, k2) := Visibility(t1, o, now);
    (t2, k1 + k2)
  }

  function Step(t: TrackState, isLine: bool, o: Obs, now: real): (TrackState, seq<Kind>) {
    var (t2, k) := Present(t, isLine, o, now);
    var (t3, k3) := Terminate(t2, o, now);
    (t3, k + k3)
  }

  // ---------------------------------------------------------------------------- runs

  ghost function After(isLine: bool, run: seq<Tick>, n: nat): TrackState
    requires n <= |run|
  {
    if n == 0 then INIT else Step(After(isLine, run, n - 1), isLine, run[n - 1].obs, run[n - 1].now).0
  }

  ghost function Emitted(isLine: bool, run: seq<Tick>, n: nat): seq<Kind>
    requires n < |run|
  {
    Step(After(isLine, run, n), isLine, run[n].obs, run[n].now).1
  }

  /** The boundary events of the first n frames, in order. */
  ghost function Logged(isLine: bool, run: seq<Tick>, n: nat): seq<Kind>
    requires n <= |run|
  {
    if n == 0 then [] else Logged(isLine, run, n - 1) + Emitted(isLine, run, n - 1)
  }

  ghost predicate IntrudesAt(isLine: bool, run: seq<Tick>, n: nat)
    requires n < |run|
  {
    ZoneIntrusion in Emitted(isLine, run, n)
  }

  ghost predicate EndsAt(isLine: bool, run: seq<Tick>, n: nat)
    requires n < |run|
  {
    ZoneExit in Emitted(isLine, run, n) || TargetLost in Emitted(isLine, run, n)
  }

  /** What the tracker guarantees of a frame. */
  ghost predicate TrackerFrame(o: Obs) {
    (o.seen.Some? ==> o.visible) && (o.visible ==> o.live.Some?) && (o.term.Some? ==> o.live.None?)
  }

  /** A run within one epoch: frames obey the tracker, the clock never steps back, a track
      leaves the tracker's table by being ended, and an ended track never returns. */
  ghost predicate Epoch(run: seq<Tick>) {
    && (forall i :: 0 <= i < |run| ==> TrackerFrame(run[i].obs))
    && (forall i, j :: 0 <= i < j < |run| ==> run[i].now <= run[j].now)
    && (forall i, j :: 0 <= i < |run| && j == i + 1 < |run| && run[i].obs.live.Some? ==>
          run[j].obs.live.Some? || run[j].obs.term.Some?)
    && (forall i, j :: 0 <= i < j < |run| && run[i].obs.term.Some? ==> run[j].obs == Obs(None, false, None, None))
  }

  // ------------------------------------------------------------------ facts of one step

  /** A frame reports at most one boundary event of a track: an intrusion only when
      it was not alerted and now is, an end only when it was alerted and no longer
      is. */
  lemma StepShape(t: TrackState, isLine: bool, o: Obs, now: real)
    requires TrackerFrame(o)
    ensures var (t', k) := Step(t, isLine, o, now);
            && |k| <= 1
            && (ZoneIntrusion in k <==> !t.alerted && t'.alerted)
            && (ZoneIntrusion in k ==> o.seen.Some? && now - t.lastIntrusion >= 4.0 && t'.lastIntrusion == now)
            && (ZoneExit in k || TargetLost in k ==> t.alerted && !t'.alerted && now - t.lastExit >= 3.0)
            && (o.term.None? && (ZoneExit in k || TargetLost in k) ==> t'.lastExit == now)
            && (o.term.None? && ZoneIntrusion !in k ==> t'.lastIntrusion == t.lastIntrusion)
            && (o.term.None? && !(ZoneExit in k || TargetLost in k) ==> t'.lastExit == t.lastExit)
  {
  }

  /** A track that is not alerted and not looked at reports nothing. */
  lemma AbsentIsSilent(t: TrackState, isLine: bool, now: real)
    requires !t.alerted
    ensures Step(t, isLine, Obs(None, false, None, None), now) == (t, [])
  {
    assert Step(t, isLine, Obs(None, false, None, None), now).1 == [];
  }

  // ------------------------------------------------------------- alternation of events

  /** While a track is alerted there is an intrusion since which it has not ended. */
  lemma {:induction false} AlertedSince(isLine: bool, run: seq<Tick>, n: nat) returns (i: nat)
    requires Epoch(run) && n <= |run| && After(isLine, run, n).alerted
    ensures i < n && IntrudesAt(isLine, run, i)
    ensures forall k :: i < k < n ==> !EndsAt(isLine, run, k)
    decreases n
  {
    StepShape(After(isLine, run, n - 1), isLine, run[n - 1].obs, run[n - 1].now);
    if After(isLine, run, n - 1).alerted {
      i := AlertedSince(isLine, run, n - 1);
    } else {
      i := n - 1;
    }
  }

  /** Every presence end has its own intrusion: one before it with no other end in
      between. So a track's first boundary event is an intrusion, and two ends never
      follow each other. */
  lemma EndHasIntrusion(isLine: bool, run: seq<Tick>, j: nat)
    requires Epoch(run) && j < |run| && EndsAt(isLine, run, j)
    ensures exists i :: 0 <= i < j && IntrudesAt(isLine, run, i) && forall k :: i < k < j ==> !EndsAt(isLine, run, k)
  {
    StepShape(After(isLine, run, j), isLine, run[j].obs, run[j].now);
    var i := AlertedSince(isLine, run, j);
  }

  // ------------------------------------------------------------------ debounce clocks

  /** After an ended track's last frame nothing is reported. */
  lemma {:induction false} SilentAfterEnd(isLine: bool, run: seq<Tick>, i: nat, n: nat)
    requires Epoch(run) && i < n <= |run| && run[i].obs.term.Some?
    ensures After(isLine, run, n) == INIT
    ensures n < |run| ==> Emitted(isLine, run, n) == []
    decreases n
  {
    if i < n - 1 {
      SilentAfterEnd(isLine, run, i, n - 1);
    }
    AbsentIsSilent(INIT, isLine, 0.0);
  }

  ghost predicate Ended(run: seq<Tick>, n: nat)
    requires n <= |run|
  {
    exists i :: 0 <= i < n && run[i].obs.term.Some?
  }

  /** The intrusion clock remembers the latest intrusion. */
  lemma {:induction false} IntrusionClock(isLine: bool, run: seq<Tick>, i: nat, n: nat)
    requires Epoch(run) && i < n <= |run| && IntrudesAt(isLine, run, i) && !Ended(run, n)
    ensures run[i].now <= After(isLine, run, n).lastIntrusion
    decreases n
  {
    StepShape(After(isLine, run, n - 1), isLine, run[n - 1].obs, run[n - 1].now);
    if i < n - 1 {
      IntrusionClock(isLine, run, i, n - 1);
    }
  }

  lemma {:induction false} ExitClock(isLine: bool, run: seq<Tick>, i: nat, n: nat)
    requires Epoch(run) && i < n <= |run| && EndsAt(isLine, run, i) && !Ended(run, n)
    ensures run[i].now <= After(isLine, run, n).lastExit
    decreases n
  {
    StepShape(After(isLine, run, n - 1), isLine, run[n - 1].obs, run[n - 1].now);
    if i < n - 1 {
      ExitClock(isLine, run, i, n - 1);
    }
  }

  /** When the track last intruded in the first n frames; zero if it has not. */
  ghost function IntrusionTime(isLine: bool, run: seq<Tick>, n: nat): real
    requires n <= |run|
  {
    if n == 0 then 0.0
    else if IntrudesAt(isLine, run, n - 1) then run[n - 1].now
    else IntrusionTime(isLine, run, n - 1)
  }

  ghost function EndTime(isLine: bool, run: seq<Tick>, n: nat): real
    requires n <= |run|
  {
    if n == 0 then 0.0
    else if EndsAt(isLine, run, n - 1) then run[n - 1].now
    else EndTime(isLine, run, n - 1)
  }

  /** Until the track ends, the clocks are those times. */
  lemma {:induction false} ClocksRead(isLine: bool, run: seq<Tick>, n: nat)
    requires Epoch(run) && n <= |run| && !Ended(run, n)
    ensures After(isLine, run, n).lastIntrusion == IntrusionTime(isLine, run, n)
    ensures After(isLine, run, n).lastExit == EndTime(isLine, run, n)
  {
    if n > 0 {
      ClocksRead(isLine, run, n - 1);
      StepShape(After(isLine, run, n - 1), isLine, run[n - 1].obs, run[n - 1].now);
      assert run[n - 1].obs.term.None?;
    }
  }

  /** Two intrusions of one track are at least four seconds apart. */
  lemma IntrusionsSpaced(isLine: bool, run: seq<Tick>, i: nat, j: nat)
    requires Epoch(run) && i < j < |run| && IntrudesAt(isLine, run, i) && IntrudesAt(isLine, run, j)
    ensures run[j].now - run[i].now >= 4.0
  {
    if Ended(run, j) {
      var k :| 0 <= k < j && run[k].obs.term.Some?;
      SilentAfterEnd(isLine, run, k, j);
    } else {
      IntrusionClock(isLine, run, i, j);
      StepShape(After(isLine, run, j), isLine, run[j].obs, run[j].now);
    }
  }

  /** Two presence ends of one track are at least three seconds apart. */
  lemma EndsSpaced(isLine: bool, run: seq<Tick>, i: nat, j: nat)
    requires Epoch(run) && i < j < |run| && EndsAt(isLine, run, i) && EndsAt(isLine, run, j)
    ensures run[j].now - run[i].now >= 3.0
  {
    if Ended(run, j) {
      var k :| 0 <= k < j && run[k].obs.term.Some?;
      SilentAfterEnd(isLine, run, k, j);
    } else {
      ExitClock(isLine, run, i, j);
      StepShape(After(isLine, run, j), isLine, run[j].obs, run[j].now);
    }
  }

  // ------------------------------------------------------------- leaving by the outside

  /** Consecutive geometric misses since the last hit, over the frames that looked. */
  ghost function Misses(run: seq<Tick>, n: nat): nat
    requires n <= |run|
  {
    if n == 0 then 0 else
    match run[n - 1].obs.seen
    case None => Misses(run, n - 1)
    case Some(hit) => if hit then 0 else Misses(run, n - 1) + 1
  }

  function MissLimit(isLine: bool): nat { if isLine then 19 else 15 }

  /** How the counters read the number of consecutive misses. */
  ghost predicate CountersRead(t: TrackState, isLine: bool, misses: nat) {
    && (t.lineActive ==> isLine && t.lineMiss == misses <= 4)
    && (t.alerted ==> misses < MissLimit(isLine))
    && (t.alerted ==> t.outside == if !isLine then misses else if t.lineActive then 0 else misses - 4)
    && (t.alerted && isLine && !t.lineActive ==> misses >= 5)
  }

  lemma StepReads(t: TrackState, isLine: bool, o: Obs, now: real, misses: nat)
    requires TrackerFrame(o) && CountersRead(t, isLine, misses)
    ensures var misses' := match o.seen case None => misses case Some(hit) => if hit then 0 else misses + 1;
            var t' := Step(t, isLine, o, now).0;
            && CountersRead(t', isLine, misses')
            && (t.alerted && o.seen == Some(false) ==> (!t'.alerted <==> misses' == MissLimit(isLine)))
            && (t.alerted && o.seen == Some(true) ==> t'.alerted)
  {
  }

  lemma {:induction false} RunReads(isLine: bool, run: seq<Tick>, n: nat)
    requires Epoch(run) && n <= |run|
    ensures CountersRead(After(isLine, run, n), isLine, Misses(run, n))
  {
    if n > 0 {
      RunReads(isLine, run, n - 1);
      StepReads(After(isLine, run, n - 1), isLine, run[n - 1].obs, run[n - 1].now, Misses(run, n - 1));
    }
  }

  /** An alerted track that is looked at stands down exactly at its 15th consecutive
      geometric miss for a polygon, and at its 19th for a line, whose latch absorbs
      the first four. */
  lemma LeavesAtLimit(isLine: bool, run: seq<Tick>, n: nat)
    requires Epoch(run) && n < |run| && After(isLine, run, n).alerted && run[n].obs.seen.Some?
    ensures !After(isLine, run, n + 1).alerted <==> Misses(run, n + 1) == MissLimit(isLine)
    ensures Misses(run, n) < MissLimit(isLine)
  {
    RunReads(isLine, run, n);
    StepReads(After(isLine, run, n), isLine, run[n].obs, run[n].now, Misses(run, n));
  }

  // --------------------------------------------------------------- leaving by darkness

  ghost predicate DarkFor(run: seq<Tick>, n: nat, k: nat)
    requires n + k <= |run|
  {
    forall i :: n <= i < n + k ==> !run[i].obs.visible
  }

  lemma {:induction false} StreakGrows(isLine: bool, run: seq<Tick>, n: nat, k: nat)
    requires Epoch(run) && n + k <= |run| && DarkFor(run, n, k)
    ensures After(isLine, run, n + k).alerted ==> After(isLine, run, n + k).unseen >= k && k <= 3
    decreases k
  {
    if k > 0 {
      StreakGrows(isLine, run, n, k - 1);
    }
  }

  /** A track unseen on four consecutive frames is not alerted, whatever came before. */
  lemma DarkStandsDown(isLine: bool, run: seq<Tick>, n: nat)
    requires Epoch(run) && n + 4 <= |run| && DarkFor(run, n, 4)
    ensures !After(isLine, run, n + 4).alerted
  {
    StreakGrows(isLine, run, n, 4);
  }

  /** Three unseen frames do not end a presence: alerted at a visible frame, it stays
      alerted through up to three dark ones. */
  lemma {:induction false} ShortDarknessKeeps(isLine: bool, run: seq<Tick>, n: nat, k: nat)
    requires Epoch(run) && n + 1 + k <= |run| && k <= 3
    requires run[n].obs.visible && After(isLine, run, n + 1).alerted
    requires DarkFor(run, n + 1, k) && !Ended(run, n + 1 + k)
    ensures After(isLine, run, n + 1 + k).alerted && After(isLine, run, n + 1 + k).unseen == k
    decreases k
  {
    if k > 0 {
      ShortDarknessKeeps(isLine, run, n, k - 1);
      assert run[n + k].obs.term.None?;
    }
  }

  // ---------------------------------------------------------- when a presence starts

  lemma StepIntrudes(t: TrackState, isLine: bool, o: Obs, now: real)
    requires TrackerFrame(o)
    ensures ZoneIntrusion in Step(t, isLine, o, now).1
       <==> o.seen.Some? && !t.alerted && Latch(t, isLine, o.seen.value).1 && now - t.lastIntrusion >= 4.0
  {
  }

  /** The track stands down, or ends, in the n-th frame. */
  ghost predicate StandsDownIn(isLine: bool, run: seq<Tick>, n: nat)
    requires n < |run|
  {
    run[n].obs.term.Some? || (After(isLine, run, n).alerted && !After(isLine, run, n + 1).alerted)
  }

  /** There is a hit since which the track has neither stood down nor ended. */
  ghost predicate HitSince(isLine: bool, run: seq<Tick>, n: nat)
    requires n <= |run|
  {
    exists h :: 0 <= h < n && run[h].obs.seen == Some(true) && forall k :: h <= k < n ==> !StandsDownIn(isLine, run, k)
  }

  /** It is on a line, and it has missed it at most four times in a row since. */
  ghost predicate Latched(isLine: bool, run: seq<Tick>, n: nat)
    requires n <= |run|
  {
    isLine && Misses(run, n) <= 4 && HitSince(isLine, run, n)
  }

  lemma HitSinceNext(isLine: bool, run: seq<Tick>, n: nat)
    requires n < |run|
    ensures HitSince(isLine, run, n + 1) <==>
              !StandsDownIn(isLine, run, n) && (run[n].obs.seen == Some(true) || HitSince(isLine, run, n))
  {
    if !StandsDownIn(isLine, run, n) && run[n].obs.seen == Some(true) {
      assert HitSince(isLine, run, n + 1);
    }
  }

  lemma StepLatches(t: TrackState, isLine: bool, o: Obs, now: real, misses: nat)
    requires TrackerFrame(o) && CountersRead(t, isLine, misses)
    ensures var t' := Step(t, isLine, o, now).0;
            var misses' := match o.seen case None => misses case Some(hit) => if hit then 0 else misses + 1;
            t'.lineActive <==>
              && isLine && o.term.None? && !(t.alerted && !t'.alerted)
              && misses' <= 4 && (o.seen == Some(true) || t.lineActive)
  {
  }

  /** The line latch of the machine is on exactly then. */
  lemma {:induction false} LatchReads(isLine: bool, run: seq<Tick>, n: nat)
    requires Epoch(run) && n <= |run|
    ensures After(isLine, run, n).lineActive <==> Latched(isLine, run, n)
  {
    if n > 0 {
      LatchReads(isLine, run, n - 1);
      RunReads(isLine, run, n - 1);
      StepLatches(After(isLine, run, n - 1), isLine, run[n - 1].obs, run[n - 1].now, Misses(run, n - 1));
      HitSinceNext(isLine, run, n - 1);
    }
  }

  lemma LatchHolds(t: TrackState, isLine: bool, hit: bool, misses: nat)
    requires CountersRead(t, isLine, misses)
    ensures Latch(t, isLine, hit).1 <==> hit || (t.lineActive && misses + 1 <= 4)
  {
  }

  /** A frame reports an intrusion exactly when it looks at a track that is not alerted,
      the look is a hit, or is on a line that the track has hit with at most four misses in
      a row since and no stand-down, and the track's last intrusion, or the clock's zero if
      there is none, is 4 s ago or more. */
  lemma IntrudesExactly(isLine: bool, run: seq<Tick>, n: nat)
    requires Epoch(run) && n < |run|
    ensures IntrudesAt(isLine, run, n) <==>
              && run[n].obs.seen.Some? && !After(isLine, run, n).alerted
              && (run[n].obs.seen.value || (isLine && HitSince(isLine, run, n) && Misses(run, n + 1) <= 4))
              && run[n].now - IntrusionTime(isLine, run, n) >= 4.0
  {
    var t := After(isLine, run, n);
    StepIntrudes(t, isLine, run[n].obs, run[n].now);
    if run[n].obs.seen.Some? {
      ClocksRead(isLine, run, n);
      RunReads(isLine, run, n);
      LatchReads(isLine, run, n);
      LatchHolds(t, isLine, run[n].obs.seen.value, Misses(run, n));
    }
  }

  lemma {:induction false} IntrusionTimeIs(isLine: bool, run: seq<Tick>, n: nat) returns (i: Option<nat>)
    requires n <= |run|
    ensures i.None? ==> IntrusionTime(isLine, run, n) == 0.0
    ensures i.Some? ==> i.value < n && IntrudesAt(isLine, run, i.value)
    ensures i.Some? ==> IntrusionTime(isLine, run, n) == run[i.value].now
  {
    if n == 0 {
      i := None;
    } else if IntrudesAt(isLine, run, n - 1) {
      i := Some(n - 1);
    } else {
      i := IntrusionTimeIs(isLine, run, n - 1);
    }
  }

  lemma StepHit(t: TrackState, isLine: bool, o: Obs, now: real)
    requires TrackerFrame(o) && o.seen == Some(true)
    ensures Step(t, isLine, o, now).0.alerted <==> t.alerted || now - t.lastIntrusion >= 4.0
  {
  }

  /** The track has intruded less than 4 s before the n-th frame. */
  ghost predicate IntrudedLately(isLine: bool, run: seq<Tick>, n: nat)
    requires n < |run|
  {
    exists i :: 0 <= i < n && IntrudesAt(isLine, run, i) && run[n].now - run[i].now < 4.0
  }

  /** No hit goes unnoticed: after a frame that sees one the track is alerted, unless it
      intruded less than 4 s before, or the clock is still under 4. */
  lemma HitAlerts(isLine: bool, run: seq<Tick>, n: nat)
    requires Epoch(run) && n < |run| && run[n].obs.seen == Some(true)
    ensures After(isLine, run, n + 1).alerted || run[n].now < 4.0 || IntrudedLately(isLine, run, n)
  {
    StepHit(After(isLine, run, n), isLine, run[n].obs, run[n].now);
    ClocksRead(isLine, run, n);
    var i := IntrusionTimeIs(isLine, run, n);
  }

  // ------------------------------------------------------------ when its end is told

  /** Consecutive frames, up to the n-th, that did not show the track. */
  ghost function DarkRun(run: seq<Tick>, n: nat): nat
    requires n <= |run|
  {
    if n == 0 || run[n - 1].obs.visible then 0 else DarkRun(run, n - 1) + 1
  }

  lemma StepDarkens(t: TrackState, isLine: bool, o: Obs, now: real)
    requires TrackerFrame(o) && Step(t, isLine, o, now).0.alerted
    ensures o.live.Some? || (t.alerted && o.term.None?)
    ensures if o.visible then Step(t, isLine, o, now).0.unseen == 0
            else t.alerted && Step(t, isLine, o, now).0.unseen == t.unseen + 1
  {
  }

  /** An alerted track is in the tracker's table, and its streak counts the frames that
      have not shown it. */
  lemma {:induction false} AlertedReads(isLine: bool, run: seq<Tick>, n: nat)
    requires Epoch(run) && n <= |run| && After(isLine, run, n).alerted
    ensures n > 0 && run[n - 1].obs.live.Some?
    ensures After(isLine, run, n).unseen == DarkRun(run, n)
  {
    StepDarkens(After(isLine, run, n - 1), isLine, run[n - 1].obs, run[n - 1].now);
    if After(isLine, run, n - 1).alerted {
      AlertedReads(isLine, run, n - 1);
    }
  }

  lemma AlertedNotEnded(isLine: bool, run: seq<Tick>, n: nat)
    requires Epoch(run) && n <= |run| && After(isLine, run, n).alerted
    ensures !Ended(run, n)
  {
    if Ended(run, n) {
      var i :| 0 <= i < n && run[i].obs.term.Some?;
      SilentAfterEnd(isLine, run, i, n);
    }
  }

  /** When standing down says nothing: the debounce, or a track that is gone and unseen
      for the fourth time at once. */
  lemma StandsDownSilently(t: TrackState, isLine: bool, o: Obs, now: real)
    requires TrackerFrame(o) && t.alerted && !Step(t, isLine, o, now).0.alerted
    ensures Step(t, isLine, o, now).1 == [] <==> now - t.lastExit < 3.0 || (o.live.None? && t.unseen >= 3)
  {
  }

  /** A track that stands down gets its presence end exactly when 3 s have passed since
      its last one and it was not both ended in this frame and unseen for the fourth
      time. */
  lemma EndToldExactly(isLine: bool, run: seq<Tick>, n: nat)
    requires Epoch(run) && n < |run| && After(isLine, run, n).alerted && !After(isLine, run, n + 1).alerted
    ensures EndsAt(isLine, run, n) <==>
              && run[n].now - EndTime(isLine, run, n) >= 3.0
              && !(run[n].obs.term.Some? && DarkRun(run, n) >= 3)
  {
    var t, o := After(isLine, run, n), run[n].obs;
    AlertedReads(isLine, run, n);
    assert o.live.None? <==> o.term.Some?;
    StepShape(t, isLine, o, run[n].now);
    StandsDownSilently(t, isLine, o, run[n].now);
    assert EndsAt(isLine, run, n) <==> Emitted(isLine, run, n) != [];
    AlertedNotEnded(isLine, run, n);
    ClocksRead(isLine, run, n);
  }

  /** Which end a track that stands down gets: an exit when it was looked at, and
      otherwise as its last position says. */
  lemma StepEndKind(t: TrackState, isLine: bool, o: Obs, now: real)
    requires TrackerFrame(o) && (o.live.Some? || o.term.Some?)
    ensures var k, outside := Step(t, isLine, o, now).1, if o.live.Some? then o.live.value else o.term.value;
            && (ZoneExit in k || TargetLost in k ==> k == [if o.seen.Some? || outside then ZoneExit else TargetLost])
  {
  }

  /** An end told by a frame is an exit when the frame looked at the track and missed, or
      when the track's last position, in the tracker's table or as it was ended, is
      outside; it is a lost target exactly when nobody looked and that position is inside. */
  lemma EndKindExactly(isLine: bool, run: seq<Tick>, n: nat)
    requires Epoch(run) && n < |run| && EndsAt(isLine, run, n)
    ensures run[n].obs.live.Some? || run[n].obs.term.Some?
    ensures var o := run[n].obs;
            var outside := if o.live.Some? then o.live.value else o.term.value;
            && (o.seen.Some? ==> o.seen == Some(false) && Emitted(isLine, run, n) == [ZoneExit])
            && (o.seen.None? && outside ==> Emitted(isLine, run, n) == [ZoneExit])
            && (o.seen.None? && !outside ==> Emitted(isLine, run, n) == [TargetLost])
  {
    var t, o := After(isLine, run, n), run[n].obs;
    StepShape(t, isLine, o, run[n].now);
    AlertedReads(isLine, run, n);
    StepEndKind(t, isLine, o, run[n].now);
    RunReads(isLine, run, n);
    StepReads(t, isLine, o, run[n].now, Misses(run, n));
  }

  /** Whether the run has intruded since the i-th frame. */
  ghost predicate NoIntrusion(isLine: bool, run: seq<Tick>, i: nat, n: nat)
    requires n <= |run|
  {
    forall k :: i < k < n ==> !IntrudesAt(isLine, run, k)
  }

  lemma {:induction false} AlertedThroughout(isLine: bool, run: seq<Tick>, i: nat, n: nat, k: nat)
    requires Epoch(run) && i < k <= n <= |run| && NoIntrusion(isLine, run, i, n) && After(isLine, run, n).alerted
    ensures After(isLine, run, k).alerted
    decreases n
  {
    if k < n {
      assert !IntrudesAt(isLine, run, n - 1);
      StepShape(After(isLine, run, n - 1), isLine, run[n - 1].obs, run[n - 1].now);
      AlertedThroughout(isLine, run, i, n - 1, k);
    }
  }

  /** The frame in which a presence that began at the i-th ends. */
  lemma {:induction false} StandsDownAt(isLine: bool, run: seq<Tick>, i: nat, n: nat) returns (d: nat)
    requires Epoch(run) && i < n <= |run| && IntrudesAt(isLine, run, i) && NoIntrusion(isLine, run, i, n)
    requires !After(isLine, run, n).alerted
    ensures i < d < n && forall k :: i < k <= n ==> (After(isLine, run, k).alerted <==> k <= d)
    decreases n
  {
    StepShape(After(isLine, run, i), isLine, run[i].obs, run[i].now);
    if After(isLine, run, n - 1).alerted {
      d := n - 1;
      forall k | i < k <= d ensures After(isLine, run, k).alerted {
        AlertedThroughout(isLine, run, i, d, k);
      }
    } else {
      d := StandsDownAt(isLine, run, i, n - 1);
    }
  }

  /** Between two intrusions in a row the track stands down once, and there is a presence
      end exactly when that is 3 s or more after the last one. */
  lemma EndBetweenExactly(isLine: bool, run: seq<Tick>, i: nat, j: nat) returns (d: nat)
    requires Epoch(run) && i < j < |run| && IntrudesAt(isLine, run, i) && IntrudesAt(isLine, run, j)
    requires NoIntrusion(isLine, run, i, j)
    ensures i < d < j && forall k :: i < k <= j ==> (After(isLine, run, k).alerted <==> k <= d)
    ensures (exists k :: i < k < j && EndsAt(isLine, run, k)) <==> run[d].now - EndTime(isLine, run, d) >= 3.0
  {
    StepShape(After(isLine, run, j), isLine, run[j].obs, run[j].now);
    d := StandsDownAt(isLine, run, i, j);
    EndToldExactly(isLine, run, d);
    if run[d].obs.term.Some? {
      SilentAfterEnd(isLine, run, d, j);
    }
    forall k | i < k < j && EndsAt(isLine, run, k) ensures k == d {
      StepShape(After(isLine, run, k), isLine, run[k].obs, run[k].now);
      assert After(isLine, run, k).alerted && !After(isLine, run, k + 1).alerted;
    }
  }

  const DARK := Obs(None, false, Some(false), None)
  const UNTOLD := [Tick(Obs(Some(true), true, Some(false), None), 10.0), Tick(DARK, 11.0), Tick(DARK, 12.0),
                   Tick(DARK, 13.0), Tick(Obs(None, false, None, Some(false)), 14.0)]

  /** An epoch in which a presence ends untold: the track is unseen for the fourth time in
      the very frame that ends it. */
  lemma EndUntold()
    ensures Epoch(UNTOLD) && After(false, UNTOLD, 4).alerted && Logged(false, UNTOLD, 5) == [ZoneIntrusion]
  {
    var run := UNTOLD;
    assert After(false, run, 1) == TrackState(true, false, 0, 0, 0, 10.0, 0.0);
    assert After(false, run, 2) == TrackState(true, false, 0, 1, 0, 10.0, 0.0);
    assert After(false, run, 3) == TrackState(true, false, 0, 2, 0, 10.0, 0.0);
    assert After(false, run, 4) == TrackState(true, false, 0, 3, 0, 10.0, 0.0);
    assert Emitted(false, run, 0) == [ZoneIntrusion] && Logged(false, run, 1) == [ZoneIntrusion];
    assert Emitted(false, run, 1) == [] && Logged(false, run, 2) == [ZoneIntrusion];
    assert Emitted(false, run, 2) == [] && Logged(false, run, 3) == [ZoneIntrusion];
    assert Emitted(false, run, 3) == [] && Logged(false, run, 4) == [ZoneIntrusion];
    assert Emitted(false, run, 4) == [];
  }
}
