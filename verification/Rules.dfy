/** The rule engine: loitering dwell state, the dedup table with its pruning, and
    directional tripwires. */
module Rules {
  import opened Basics
  import opened Geometry

  ghost predicate DistinctIds(ids: seq<int>) {
    forall a, b :: 0 <= a < b < |ids| ==> ids[a] != ids[b]
  }

  /** A snapshot of a set, in some order. */
  method ListOf(s: set<int>) returns (ids: seq<int>)
    ensures DistinctIds(ids) && forall t :: t in ids <==> t in s
    ensures forall k :: 0 <= k < |ids| ==> ids[k] in s
  {
    ids := [];
    var rest := s;
    while exists t :: t in rest
      invariant DistinctIds(ids) && rest <= s
      invariant forall t :: t in ids <==> t in s && t !in rest
      invariant forall k :: 0 <= k < |ids| ==> ids[k] in s
      decreases rest
    {
      var t :| t in rest;
      ids, rest := ids + [t], rest - {t};
    }
  }

  // ------------------------------------------------------------------ dedup table

  /** The dedup string, by its parts: rule, zone or wire, track, time bucket. */
  datatype Key = Key(rule: string, item: string, track: int, bucket: Bucket)
  datatype Bucket = Window(n: int) | Instant(ts: real)

  function KeyFor(rule: string, item: string, track: int, ts: real, cooldown: real): Key {
    Key(rule, item, track, if cooldown > 0.0 then Window((ts / cooldown).Floor) else Instant(ts))
  }

  /** Two events share a key exactly when they are of one rule, item and track, and fall into
      one time slot of the cooldown's length; without a cooldown, at the same time. */
  lemma SameKeyExactly(rule1: string, item1: string, track1: int, ts1: real, rule2: string, item2: string, track2: int,
                       ts2: real, cooldown: real)
    ensures KeyFor(rule1, item1, track1, ts1, cooldown) == KeyFor(rule2, item2, track2, ts2, cooldown) <==>
              && rule1 == rule2 && item1 == item2 && track1 == track2
              && if cooldown > 0.0 then (ts1 / cooldown).Floor == (ts2 / cooldown).Floor else ts1 == ts2
  {
  }

  /** Whether an event may be emitted, and the table afterwards. */
  function ShouldEmit<K>(table: map<K, real>, cooldown: real, key: K, now: real): (bool, map<K, real>) {
    if cooldown <= 0.0 then (true, table[key := now])
    else if key in table && now - table[key] < cooldown then (false, table)
    else
      var t := table[key := now];
      if |t| > 1000 then
        var cutoff := now - Max(cooldown * 2.0, 60.0);
        (true, map k | k in t && t[k] >= cutoff :: t[k])
      else (true, t)
  }

  /** The same decision on a table that is never pruned. */
  function ShouldEmitUnpruned<K>(table: map<K, real>, cooldown: real, key: K, now: real): (bool, map<K, real>) {
    if cooldown > 0.0 && key in table && now - table[key] < cooldown then (false, table)
    else (true, table[key := now])
  }

  datatype Call<K> = Call(key: K, now: real)

  ghost function Decisions<K>(table: map<K, real>, cooldown: real, calls: seq<Call<K>>): seq<bool>
    decreases |calls|
  {
    if calls == [] then [] else
    var (b, t) := ShouldEmit(table, cooldown, calls[0].key, calls[0].now);
    [b] + Decisions(t, cooldown, calls[1..])
  }

  ghost function UnprunedDecisions<K>(table: map<K, real>, cooldown: real, calls: seq<Call<K>>): seq<bool>
    decreases |calls|
  {
    if calls == [] then [] else
    var (b, t) := ShouldEmitUnpruned(table, cooldown, calls[0].key, calls[0].now);
    [b] + UnprunedDecisions(t, cooldown, calls[1..])
  }

  ghost predicate NonDecreasing<K(!new)>(calls: seq<Call<K>>) {
    forall i, j :: 0 <= i < j < |calls| ==> calls[i].now <= calls[j].now
  }

  /** The pruned table agrees with the full one, except for entries whose cooldown
      has passed. */
  ghost predicate Forgets<K(!new)>(pruned: map<K, real>, full: map<K, real>, cooldown: real, now: real) {
    && (forall k :: k in pruned ==> k in full && pruned[k] == full[k])
    && (forall k :: k in full && k !in pruned ==> cooldown <= now - full[k])
  }

  lemma StepForgets<K(!new)>(pruned: map<K, real>, full: map<K, real>, cooldown: real, key: K, now: real)
    requires Forgets(pruned, full, cooldown, now)
    ensures ShouldEmit(pruned, cooldown, key, now).0 == ShouldEmitUnpruned(full, cooldown, key, now).0
    ensures Forgets(ShouldEmit(pruned, cooldown, key, now).1, ShouldEmitUnpruned(full, cooldown, key, now).1, cooldown, now)
  {
  }

  lemma {:induction false} PruningFrom<K(!new)>(pruned: map<K, real>, full: map<K, real>, cooldown: real,
                                                calls: seq<Call<K>>)
    requires NonDecreasing(calls)
    requires calls != [] ==> Forgets(pruned, full, cooldown, calls[0].now)
    ensures Decisions(pruned, cooldown, calls) == UnprunedDecisions(full, cooldown, calls)
    decreases |calls|
  {
    if calls != [] {
      StepForgets(pruned, full, cooldown, calls[0].key, calls[0].now);
      PruningFrom(ShouldEmit(pruned, cooldown, calls[0].key, calls[0].now).1,
                  ShouldEmitUnpruned(full, cooldown, calls[0].key, calls[0].now).1, cooldown, calls[1..]);
    }
  }

  /** Over any calls with a clock that never steps back, pruning changes no decision. */
  lemma PruningIsInvisible<K(!new)>(cooldown: real, calls: seq<Call<K>>)
    requires NonDecreasing(calls)
    ensures Decisions(map[], cooldown, calls) == UnprunedDecisions(map[], cooldown, calls)
  {
    PruningFrom(map[], map[], cooldown, calls);
  }

  // ------------------------------------------------------------- tripwire steps

  type Table = map<Key, real>

  /** How the dedup table is kept: pruned, as it is, or whole, to compare with. */
  datatype Keeping = Pruned | Whole

  function Emits(keeping: Keeping, table: Table, cooldown: real, key: Key, now: real): (bool, Table) {
    if keeping.Pruned? then ShouldEmit(table, cooldown, key, now) else ShouldEmitUnpruned(table, cooldown, key, now)
  }

  datatype Direction = OutsideToInside | InsideToOutside | Both

  datatype Tripwire = Tripwire(id: string, p1: Point, p2: Point, direction: Direction, hysteresis: real)

  datatype Trip = Trip(lastSide: Option<real>, armed: bool, lastCross: real, lastPos: Option<Point>)

  const UNSEEN := Trip(None, true, 0.0, None)

  predicate LexLeq(p: Point, q: Point) { p.x < q.x || (p.x == q.x && p.y <= q.y) }

  /** The wire's end points in an order that does not depend on how it was drawn. */
  function Canonical(tw: Tripwire): (Point, Point) {
    if LexLeq(tw.p1, tw.p2) then (tw.p1, tw.p2) else (tw.p2, tw.p1)
  }

  function Side(tw: Tripwire, p: Point): real { Orient(Canonical(tw).0, Canonical(tw).1, p) }

  predicate DirectionOk(d: Direction, before: real, after: real) {
    match d
    case Both => true
    case OutsideToInside => before > 0.0 && after < 0.0
    case InsideToOutside => before < 0.0 && after > 0.0
  }

  /** One look at a track by one wire: its state afterwards, the table, and whether
      it reports a crossing. */
  function WatchBy(keeping: Keeping, tw: Tripwire, st: Trip, table: Table, cooldown: real, track: int, foot: Point,
                   ts: real): (Trip, Table, bool)
  {
    var side := Side(tw, foot);
    if !st.armed && !(st.lastSide.Some? && Abs(side - st.lastSide.value) > tw.hysteresis) then (st, table, false)
    else
      var st1 := st.(armed := true);
      var here := st1.(lastSide := Some(side), lastPos := Some(foot));
      if st1.lastSide.None? || st1.lastPos.None? then (here, table, false)
      else
        var before := st1.lastSide.value;
        var (a, b) := Canonical(tw);
        if before * side < 0.0 && Intersect(st1.lastPos.value, foot, a, b) && DirectionOk(tw.direction, before, side)
        then
          var (ok, table') := Emits(keeping, table, cooldown, KeyFor("trip", tw.id, track, ts, cooldown), ts);
          if ok then (here.(armed := false, lastCross := ts), table', true) else (here, table', false)
        else (here, table, false)
  }

  function Watch(tw: Tripwire, st: Trip, table: Table, cooldown: real, track: int, foot: Point, ts: real)
    : (Trip, Table, bool)
  {
    WatchBy(Pruned, tw, st, table, cooldown, track, foot, ts)
  }

  type TripMap = map<int, map<string, Trip>>

  function TripOf(trips: TripMap, track: int, wire: string): Trip {
    if track in trips && wire in trips[track] then trips[track][wire] else UNSEEN
  }

  function WatchAllBy(keeping: Keeping, trips: TripMap, table: Table, cooldown: real, track: int, wires: seq<Tripwire>,
                      foot: Point, ts: real): (TripMap, Table, seq<string>)
  {
    if wires == [] then (trips, table, []) else
    var n := |wires| - 1;
    var (trips1, table1, reports) := WatchAllBy(keeping, trips, table, cooldown, track, wires[..n], foot, ts);
    var (st, table2, b) :=
      WatchBy(keeping, wires[n], TripOf(trips1, track, wires[n].id), table1, cooldown, track, foot, ts);
    (trips1[track := (if track in trips1 then trips1[track] else map[])[wires[n].id := st]], table2,
     if b then reports + [wires[n].id] else reports)
  }

  function WatchAll(trips: TripMap, table: Table, cooldown: real, track: int, wires: seq<Tripwire>, foot: Point, ts: real)
    : (TripMap, Table, seq<string>)
  {
    WatchAllBy(Pruned, trips, table, cooldown, track, wires, foot, ts)
  }

  // -------------------------------------------------------------------- loitering

  datatype Loiter = Loiter(enterTs: Option<real>, triggered: bool, outsideStreak: nat)

  const FRESH := Loiter(None, false, 0)

  type LoiterMap = map<int, map<string, Loiter>>

  function LoiterOf(ls: LoiterMap, track: int, zone: string): Loiter {
    if track in ls && zone in ls[track] then ls[track][zone] else FRESH
  }

  function SetLoiter(ls: LoiterMap, track: int, zone: string, l: Loiter): LoiterMap {
    ls[track := (if track in ls then ls[track] else map[])[zone := l]]
  }

  /** What the engine is told: one look at a track in a zone, one step of a track past
      the wires, a track's end, or an epoch bump. */
  datatype Op = Look(track: int, zone: string, inside: bool, ts: real) | Walk(track: int, foot: Point, ts: real)
              | Prune(track: int) | Reset

  datatype Settings = Settings(wires: seq<Tripwire>, loiterS: real, cooldown: real)

  /** The dedup table is shared by both kinds of rule. */
  datatype Engine = Engine(loiter: LoiterMap, trips: TripMap, table: Table)

  const START := Engine(map[], map[], map[])

  /** Whether an inside look has dwelt long enough to report, and has not yet. */
  predicate Due(l: Loiter, c: Settings, ts: real) {
    ts - (if l.enterTs.None? then ts else l.enterTs.value) >= c.loiterS && !l.triggered
  }

  /** One observation of one track in one zone: the engine afterwards and whether it
      reports loitering. */
  function ObserveBy(keeping: Keeping, e: Engine, c: Settings, track: int, zone: string, inside: bool, ts: real)
    : (Engine, bool)
  {
    var l := LoiterOf(e.loiter, track, zone);
    if inside then
      var l1 := Loiter(Some(if l.enterTs.None? then ts else l.enterTs.value), l.triggered, 0);
      if Due(l, c, ts) then
        var (ok, table) := Emits(keeping, e.table, c.cooldown, KeyFor("loiter", zone, track, ts, c.cooldown), ts);
        (e.(loiter := SetLoiter(e.loiter, track, zone, l1.(triggered := ok)), table := table), ok)
      else (e.(loiter := SetLoiter(e.loiter, track, zone, l1)), false)
    else
      var streak := l.outsideStreak + 1;
      var l1 := if streak >= 3 then Loiter(None, false, streak) else l.(outsideStreak := streak);
      (e.(loiter := SetLoiter(e.loiter, track, zone, l1)), false)
  }

  function Observe(e: Engine, c: Settings, track: int, zone: string, inside: bool, ts: real)
    : (Engine, bool)
  {
    ObserveBy(Pruned, e, c, track, zone, inside, ts)
  }

  function StepBy(keeping: Keeping, e: Engine, c: Settings, op: Op): (Engine, bool) {
    match op
    case Look(track, zone, inside, ts) => ObserveBy(keeping, e, c, track, zone, inside, ts)
    case Walk(track, foot, ts) =>
      var (trips, table, reports) := WatchAllBy(keeping, e.trips, e.table, c.cooldown, track, c.wires, foot, ts);
      (e.(trips := trips, table := table), reports != [])
    case Prune(track) => (e.(loiter := e.loiter - {track}, trips := e.trips - {track}), false)
    case Reset => (START, false)
  }

  function Step(e: Engine, c: Settings, op: Op): (Engine, bool) { StepBy(Pruned, e, c, op) }

  ghost function After(c: Settings, ops: seq<Op>, n: nat): Engine
    requires n <= |ops|
  {
    if n == 0 then START else Step(After(c, ops, n - 1), c, ops[n - 1]).0
  }

  /** One step of the engine, as a value. */
  type Stepper = (Engine, Op) -> (Engine, bool)

  function StepOf(c: Settings): Stepper { (e: Engine, op: Op) => Step(e, c, op) }

  /** A batch of operations from any state. */
  ghost function StepAll(step: Stepper, e: Engine, ops: seq<Op>): Engine {
    if ops == [] then e else step(StepAll(step, e, ops[..|ops| - 1]), ops[|ops| - 1]).0
  }

  datatype Notice = Notice(track: int, ts: real)

  /** The loitering reports of a batch, in order. */
  ghost function Noticed(step: Stepper, e: Engine, ops: seq<Op>): seq<Notice> {
    if ops == [] then [] else
    var n := |ops| - 1;
    var rest := Noticed(step, e, ops[..n]);
    if ops[n].Look? && step(StepAll(step, e, ops[..n]), ops[n]).1 then rest + [Notice(ops[n].track, ops[n].ts)] else rest
  }

  lemma {:induction false} BatchesAddUp(step: Stepper, e: Engine, a: seq<Op>, b: seq<Op>)
    ensures StepAll(step, e, a + b) == StepAll(step, StepAll(step, e, a), b)
    ensures Noticed(step, e, a + b) == Noticed(step, e, a) + Noticed(step, StepAll(step, e, a), b)
  {
    if b == [] {
      assert a + b == a;
    } else {
      var n := |b| - 1;
      assert (a + b)[..|a| + n] == a + b[..n];
      BatchesAddUp(step, e, a, b[..n]);
    }
  }

  lemma {:induction false} BatchIsRun(c: Settings, ops: seq<Op>, n: nat)
    requires n <= |ops|
    ensures StepAll(StepOf(c), START, ops[..n]) == After(c, ops, n)
  {
    if n > 0 {
      BatchIsRun(c, ops, n - 1);
      assert ops[..n][..n - 1] == ops[..n - 1];
    }
  }

  /** The n-th operation reports loitering of this track in this zone. */
  ghost predicate Reports(c: Settings, ops: seq<Op>, n: nat, track: int, zone: string)
    requires n < |ops|
  {
    ops[n].Look? && ops[n].track == track && ops[n].zone == zone
    && Step(After(c, ops, n), c, ops[n]).1
  }

  /** Consecutive outside looks at this track in this zone, up to the n-th operation. */
  ghost function OutsideRun(ops: seq<Op>, n: nat, track: int, zone: string): nat
    requires n <= |ops|
  {
    if n == 0 then 0 else
    match ops[n - 1]
    case Look(t, z, inside, _) =>
      if t == track && z == zone then (if inside then 0 else OutsideRun(ops, n - 1, track, zone) + 1)
      else OutsideRun(ops, n - 1, track, zone)
    case Walk(_, _, _) => OutsideRun(ops, n - 1, track, zone)
    case Prune(t) => if t == track then 0 else OutsideRun(ops, n - 1, track, zone)
    case Reset => 0
  }

  /** The n-th operation ends the visit: a third consecutive outside look, the
      track's end, or a reset. */
  ghost predicate Rearms(ops: seq<Op>, n: nat, track: int, zone: string)
    requires n < |ops|
  {
    || ops[n] == Prune(track) || ops[n] == Reset
    || (ops[n].Look? && ops[n].track == track && ops[n].zone == zone && !ops[n].inside
        && OutsideRun(ops, n + 1, track, zone) >= 3)
  }

  lemma LookKeeps(e: Engine, c: Settings, t: int, z: string, inside: bool, ts: real, track: int, zone: string)
    ensures var (e', b) := ObserveBy(Pruned, e, c, t, z, inside, ts);
            var l, l' := LoiterOf(e.loiter, track, zone), LoiterOf(e'.loiter, track, zone);
            if t == track && z == zone then
              && l'.outsideStreak == (if inside then 0 else l.outsideStreak + 1)
              && (inside ==> l'.enterTs == Some(if l.enterTs.None? then ts else l.enterTs.value))
              && (inside ==> l'.triggered == (l.triggered || b))
              && (!inside && l'.outsideStreak < 3 ==> l'.enterTs == l.enterTs && l'.triggered == l.triggered)
              && (!inside && l'.outsideStreak >= 3 ==> l'.enterTs == None && !l'.triggered)
            else l' == l
  {
  }

  lemma StepKeeps(e: Engine, c: Settings, op: Op, track: int, zone: string)
    ensures var l, l' := LoiterOf(e.loiter, track, zone), LoiterOf(Step(e, c, op).0.loiter, track, zone);
            match op
            case Look(t, z, inside, ts) =>
              if t == track && z == zone then
                && l'.outsideStreak == (if inside then 0 else l.outsideStreak + 1)
                && (inside ==> l'.enterTs == Some(if l.enterTs.None? then ts else l.enterTs.value))
                && (inside ==> l'.triggered == (l.triggered || Step(e, c, op).1))
                && (!inside && l'.outsideStreak < 3 ==> l'.enterTs == l.enterTs && l'.triggered == l.triggered)
                && (!inside && l'.outsideStreak >= 3 ==> l'.enterTs == None && !l'.triggered)
              else l' == l
            case Walk(_, _, _) => l' == l
            case Prune(t) => l' == if t == track then FRESH else l
            case Reset => l' == FRESH
  {
    if op.Look? {
      LookKeeps(e, c, op.track, op.zone, op.inside, op.ts, track, zone);
    }
  }

  ghost function StreakAt(c: Settings, ops: seq<Op>, n: nat, track: int, zone: string): nat
    requires n <= |ops|
  {
    LoiterOf(After(c, ops, n).loiter, track, zone).outsideStreak
  }

  /** What one operation does to a streak. */
  predicate StreakStep(before: nat, op: Op, after: nat, track: int, zone: string) {
    after == match op
             case Look(t, z, inside, _) => if t != track || z != zone then before else if inside then 0 else before + 1
             case Walk(_, _, _) => before
             case Prune(t) => if t == track then 0 else before
             case Reset => 0
  }

  lemma StepIsStreakStep(c: Settings, ops: seq<Op>, n: nat, track: int, zone: string)
    requires n < |ops|
    ensures StreakStep(StreakAt(c, ops, n, track, zone), ops[n], StreakAt(c, ops, n + 1, track, zone), track, zone)
  {
    StepKeeps(After(c, ops, n), c, ops[n], track, zone);
  }

  lemma {:induction false} StreakFrom(ss: seq<nat>, ops: seq<Op>, n: nat, track: int, zone: string)
    requires n <= |ops| && |ss| == |ops| + 1 && ss[0] == 0
    requires forall a, b :: 0 <= a < |ops| && b == a + 1 ==> StreakStep(ss[a], ops[a], ss[b], track, zone)
    ensures ss[n] == OutsideRun(ops, n, track, zone)
  {
    if n > 0 {
      StreakFrom(ss, ops, n - 1, track, zone);
      assert StreakStep(ss[n - 1], ops[n - 1], ss[n], track, zone);
    }
  }

  ghost function StreaksAt(c: Settings, ops: seq<Op>, track: int, zone: string): (ss: seq<nat>)
    ensures |ss| == |ops| + 1 && forall n :: 0 <= n <= |ops| ==> ss[n] == StreakAt(c, ops, n, track, zone)
  {
    seq(|ops| + 1, n requires 0 <= n <= |ops| => StreakAt(c, ops, n, track, zone))
  }

  /** The stored streak counts exactly the consecutive outside looks. */
  lemma StreakIsRun(c: Settings, ops: seq<Op>, n: nat, track: int, zone: string)
    requires n <= |ops|
    ensures LoiterOf(After(c, ops, n).loiter, track, zone).outsideStreak == OutsideRun(ops, n, track, zone)
  {
    var ss := StreaksAt(c, ops, track, zone);
    forall a, b | 0 <= a < |ops| && b == a + 1 ensures StreakStep(ss[a], ops[a], ss[b], track, zone) {
      StepIsStreakStep(c, ops, a, track, zone);
    }
    StreakFrom(ss, ops, n, track, zone);
    assert ss[n] == StreakAt(c, ops, n, track, zone);
  }

  lemma ReportTriggers(e: Engine, c: Settings, op: Op, track: int, zone: string)
    requires op.Look? && op.track == track && op.zone == zone && Step(e, c, op).1
    ensures LoiterOf(Step(e, c, op).0.loiter, track, zone).triggered
  {
  }

  lemma TriggerKept(e: Engine, c: Settings, op: Op, track: int, zone: string)
    requires LoiterOf(e.loiter, track, zone).triggered && op != Prune(track) && op != Reset
    requires LoiterOf(Step(e, c, op).0.loiter, track, zone).outsideStreak < 3
             || !(op.Look? && op.track == track && op.zone == zone && !op.inside)
    ensures LoiterOf(Step(e, c, op).0.loiter, track, zone).triggered
  {
    StepKeeps(e, c, op, track, zone);
  }

  ghost predicate Unbroken(ops: seq<Op>, i: nat, j: nat, track: int, zone: string)
    requires j <= |ops|
  {
    forall k :: i < k < j ==> !Rearms(ops, k, track, zone)
  }

  /** One more operation that does not rearm keeps a triggered visit triggered. */
  lemma TriggeredStep(c: Settings, ops: seq<Op>, n: nat, track: int, zone: string)
    requires n < |ops| && !Rearms(ops, n, track, zone)
    requires LoiterOf(After(c, ops, n).loiter, track, zone).triggered
    ensures LoiterOf(After(c, ops, n + 1).loiter, track, zone).triggered
  {
    StreakIsRun(c, ops, n + 1, track, zone);
    TriggerKept(After(c, ops, n), c, ops[n], track, zone);
  }

  lemma ReportedTriggers(c: Settings, ops: seq<Op>, n: nat, track: int, zone: string)
    requires n < |ops| && Reports(c, ops, n, track, zone)
    ensures LoiterOf(After(c, ops, n + 1).loiter, track, zone).triggered
  {
    ReportTriggers(After(c, ops, n), c, ops[n], track, zone);
  }

  ghost predicate Triggered(c: Settings, ops: seq<Op>, n: nat, track: int, zone: string)
    requires n <= |ops|
  {
    LoiterOf(After(c, ops, n).loiter, track, zone).triggered
  }

  /** Without a rearming operation a triggered visit stays triggered. */
  lemma {:induction false} TriggeredUntilRearmed(c: Settings, ops: seq<Op>, i: nat, j: nat,
                                                 track: int, zone: string)
    requires i < j <= |ops| && Triggered(c, ops, i + 1, track, zone)
    requires Unbroken(ops, i, j, track, zone)
    ensures Triggered(c, ops, j, track, zone)
    decreases j
  {
    if i + 1 < j {
      TriggeredUntilRearmed(c, ops, i, j - 1, track, zone);
      TriggeredStep(c, ops, j - 1, track, zone);
    }
  }

  /** Two loitering reports of one track in one zone are separated by three
      consecutive outside looks, the track's end, or a reset. */
  lemma ReportsSeparated(c: Settings, ops: seq<Op>, i: nat, j: nat, track: int, zone: string)
    requires i < j < |ops|
    requires Reports(c, ops, i, track, zone) && Reports(c, ops, j, track, zone)
    ensures exists k :: i < k < j && Rearms(ops, k, track, zone)
  {
    if Unbroken(ops, i, j, track, zone) {
      ReportedTriggers(c, ops, i, track, zone);
      TriggeredUntilRearmed(c, ops, i, j, track, zone);
    }
  }

  ghost function EnterAt(c: Settings, ops: seq<Op>, n: nat, track: int, zone: string): Option<real>
    requires n <= |ops|
  {
    LoiterOf(After(c, ops, n).loiter, track, zone).enterTs
  }

  /** One operation back: either it is the look the dwell started with, or the dwell had
      started already and the operation did not rearm. */
  lemma EnterKept(c: Settings, ops: seq<Op>, n: nat, track: int, zone: string)
    requires n < |ops| && EnterAt(c, ops, n + 1, track, zone).Some?
    ensures if EnterAt(c, ops, n, track, zone).None?
            then ops[n] == Look(track, zone, true, EnterAt(c, ops, n + 1, track, zone).value)
            else EnterAt(c, ops, n, track, zone) == EnterAt(c, ops, n + 1, track, zone) && !Rearms(ops, n, track, zone)
  {
    StreakIsRun(c, ops, n + 1, track, zone);
    var e := After(c, ops, n);
    match ops[n]
    case Look(t, z, inside, ts) => StepKeeps(e, c, ops[n], track, zone);
    case Walk(_, _, _) =>
    case Prune(t) => StepKeeps(e, c, ops[n], track, zone);
    case Reset =>
  }

  ghost predicate EnterStep(before: Option<real>, ops: seq<Op>, n: nat, after: Option<real>, track: int, zone: string)
    requires n < |ops|
  {
    after.Some? ==>
      if before.None? then ops[n] == Look(track, zone, true, after.value)
      else before == after && !Rearms(ops, n, track, zone)
  }

  /** Such steps, followed back to the look that started the dwell. */
  lemma {:induction false} EnterFrom(es: seq<Option<real>>, ops: seq<Op>, n: nat, track: int, zone: string) returns (i: nat)
    requires n <= |ops| && |es| == |ops| + 1 && es[0].None? && es[n].Some?
    requires forall a, b :: 0 <= a < |ops| && b == a + 1 ==> EnterStep(es[a], ops, a, es[b], track, zone)
    ensures i < n && ops[i] == Look(track, zone, true, es[n].value) && Unbroken(ops, i, n, track, zone)
    decreases n
  {
    assert EnterStep(es[n - 1], ops, n - 1, es[n], track, zone);
    if es[n - 1].Some? {
      i := EnterFrom(es, ops, n - 1, track, zone);
    } else {
      i := n - 1;
    }
  }

  /** Which operation a notice of a run comes from: the one before which there were as
      many notices. */
  lemma {:induction false} NoticeIndex(c: Settings, ops: seq<Op>, m: nat, a: nat) returns (n: nat)
    requires m <= |ops| && a < |Noticed(StepOf(c), START, ops[..m])|
    ensures n < m && ops[n].Look? && |Noticed(StepOf(c), START, ops[..n])| == a
    ensures Noticed(StepOf(c), START, ops[..m])[a] == Notice(ops[n].track, ops[n].ts)
    ensures Reports(c, ops, n, ops[n].track, ops[n].zone)
    decreases m
  {
    BatchIsRun(c, ops, m - 1);
    assert ops[..m][..m - 1] == ops[..m - 1];
    if a < |Noticed(StepOf(c), START, ops[..m - 1])| {
      n := NoticeIndex(c, ops, m - 1, a);
    } else {
      n := m - 1;
    }
  }

  lemma {:induction false} NoticesGrow(step: Stepper, e: Engine, ops: seq<Op>, i: nat, j: nat)
    requires i <= j <= |ops|
    ensures |Noticed(step, e, ops[..i])| <= |Noticed(step, e, ops[..j])|
    decreases j
  {
    if i < j {
      NoticesGrow(step, e, ops, i, j - 1);
      assert ops[..j][..j - 1] == ops[..j - 1];
    }
  }

  /** Between two loitering notices of one track in one zone lie three consecutive outside
      looks, the track's end, or a reset. */
  lemma NoticesSeparated(c: Settings, ops: seq<Op>, zone: string, a: nat, b: nat)
    requires forall n :: 0 <= n < |ops| && ops[n].Look? ==> ops[n].zone == zone
    requires a < b < |Noticed(StepOf(c), START, ops)|
    requires Noticed(StepOf(c), START, ops)[a].track == Noticed(StepOf(c), START, ops)[b].track
    ensures exists i: nat, k: nat, j: nat :: i < k < j < |ops|
              && Reports(c, ops, i, Noticed(StepOf(c), START, ops)[a].track, zone)
              && Reports(c, ops, j, Noticed(StepOf(c), START, ops)[a].track, zone)
              && |Noticed(StepOf(c), START, ops[..i])| == a && |Noticed(StepOf(c), START, ops[..j])| == b
              && Rearms(ops, k, Noticed(StepOf(c), START, ops)[a].track, zone)
  {
    assert ops[..|ops|] == ops;
    var i := NoticeIndex(c, ops, |ops|, a);
    var j := NoticeIndex(c, ops, |ops|, b);
    if j <= i {
      NoticesGrow(StepOf(c), START, ops, j, i);
    }
    ReportsSeparated(c, ops, i, j, ops[i].track, zone);
    var k :| i < k < j && Rearms(ops, k, ops[i].track, zone);
    assert i < k < j < |ops|;
  }

  ghost function EntersAt(c: Settings, ops: seq<Op>, track: int, zone: string): (es: seq<Option<real>>)
    ensures |es| == |ops| + 1 && forall k :: 0 <= k <= |ops| ==> es[k] == EnterAt(c, ops, k, track, zone)
  {
    seq(|ops| + 1, k requires 0 <= k <= |ops| => EnterAt(c, ops, k, track, zone))
  }

  /** A dwell start is an inside look with no rearming operation since. */
  lemma EnterIsALook(c: Settings, ops: seq<Op>, n: nat, track: int, zone: string) returns (i: nat)
    requires n <= |ops| && EnterAt(c, ops, n, track, zone).Some?
    ensures i < n && ops[i] == Look(track, zone, true, EnterAt(c, ops, n, track, zone).value)
    ensures Unbroken(ops, i, n, track, zone)
  {
    var es := EntersAt(c, ops, track, zone);
    forall a, b | 0 <= a < |ops| && b == a + 1 ensures EnterStep(es[a], ops, a, es[b], track, zone) {
      if es[b].Some? {
        EnterKept(c, ops, a, track, zone);
      }
    }
    i := EnterFrom(es, ops, n, track, zone);
  }

  predicate InsideLook(op: Op, track: int, zone: string) {
    op.Look? && op.track == track && op.zone == zone && op.inside
  }

  /** The dwell has lasted the loiter time: the track was inside that long ago, with no
      rearming operation since. */
  ghost predicate Dwelt(c: Settings, ops: seq<Op>, n: nat, track: int, zone: string)
    requires n < |ops| && ops[n].Look?
  {
    exists i :: 0 <= i <= n && InsideLook(ops[i], track, zone)
      && c.loiterS <= ops[n].ts - ops[i].ts && Unbroken(ops, i, n, track, zone)
  }

  /** Every report is backed by the full dwell: an inside look at least the loiter
      time earlier, with no rearming operation in between. */
  lemma ReportHasDwelt(c: Settings, ops: seq<Op>, n: nat, track: int, zone: string)
    requires n < |ops| && Reports(c, ops, n, track, zone)
    ensures Dwelt(c, ops, n, track, zone)
  {
    StepKeeps(After(c, ops, n), c, ops[n], track, zone);
    var i := EnterIsALook(c, ops, n + 1, track, zone);
    assert InsideLook(ops[i], track, zone);
  }

  // -------------------------------------------------------------- what wires report

  /** The recorded side is the side of the recorded position. */
  ghost predicate Consistent(tw: Tripwire, st: Trip) {
    && (st.lastSide.Some? <==> st.lastPos.Some?)
    && (st.lastPos.Some? ==> st.lastSide == Some(Side(tw, st.lastPos.value)))
    && (!st.armed ==> st.lastPos.Some?)
  }

  /** Whether the wire is ready to report: armed, or far enough from the side at
      which it last reported. */
  predicate Ready(tw: Tripwire, st: Trip, foot: Point) {
    st.armed || (st.lastSide.Some? && Abs(Side(tw, foot) - st.lastSide.value) > tw.hysteresis)
  }

  lemma MeetReversed(p: Point, q: Point, a: Point, b: Point)
    ensures Meet(p, q, a, b) <==> Meet(p, q, b, a)
  {
    if z: Point :| On(z, p, q) && On(z, a, b) {
      Backwards(z, a, b);
    }
    if z: Point :| On(z, p, q) && On(z, b, a) {
      Backwards(z, b, a);
    }
  }

  /** A report means a real crossing, in the wire's direction: the two positions are
      strictly on opposite sides, and the step between them shares a point with the
      wire itself, not just with its line. Apart from rearming and dedup, that is
      also enough. */
  lemma WatchMeaning(keeping: Keeping, tw: Tripwire, st: Trip, table: Table, cooldown: real, track: int, foot: Point,
                     ts: real)
    requires Consistent(tw, st)
    ensures var (st', table', fired) := WatchBy(keeping, tw, st, table, cooldown, track, foot, ts);
            && Consistent(tw, st')
            && (if Ready(tw, st, foot) then st'.lastPos == Some(foot) && st'.armed == !fired else st' == st)
            && (fired <==>
                  && Ready(tw, st, foot) && st.lastPos.Some?
                  && ((Side(tw, st.lastPos.value) < 0.0 < Side(tw, foot) && !tw.direction.OutsideToInside?)
                      || (Side(tw, foot) < 0.0 < Side(tw, st.lastPos.value) && !tw.direction.InsideToOutside?))
                  && Meet(st.lastPos.value, foot, tw.p1, tw.p2)
                  && Emits(keeping, table, cooldown, KeyFor("trip", tw.id, track, ts, cooldown), ts).0)
  {
    if st.lastPos.Some? {
      var (a, b) := Canonical(tw);
      IntersectExact(st.lastPos.value, foot, a, b);
      MeetReversed(st.lastPos.value, foot, tw.p1, tw.p2);
      Signs(Side(tw, st.lastPos.value), Side(tw, foot));
    }
  }

  lemma {:induction false} WatchAllConsistent(trips: TripMap, table: Table, cooldown: real, track: int,
                                              wires: seq<Tripwire>, foot: Point, ts: real, tw: Tripwire, t: int)
    requires Consistent(tw, TripOf(trips, t, tw.id)) && forall w :: w in wires && w.id == tw.id ==> w == tw
    ensures Consistent(tw, TripOf(WatchAll(trips, table, cooldown, track, wires, foot, ts).0, t, tw.id))
  {
    if wires != [] {
      var n := |wires| - 1;
      WatchAllConsistent(trips, table, cooldown, track, wires[..n], foot, ts, tw, t);
      var (trips1, table1, _) := WatchAll(trips, table, cooldown, track, wires[..n], foot, ts);
      if wires[n].id == tw.id && t == track {
        WatchMeaning(Pruned, tw, TripOf(trips1, t, tw.id), table1, cooldown, track, foot, ts);
      }
    }
  }

  /** In every run, with wires of different ids, each wire's record of each track is
      consistent, so a report always means a real crossing. */
  lemma {:induction false} TripsConsistent(c: Settings, ops: seq<Op>, n: nat, tw: Tripwire, t: int)
    requires n <= |ops| && forall w :: w in c.wires && w.id == tw.id ==> w == tw
    ensures Consistent(tw, TripOf(After(c, ops, n).trips, t, tw.id))
  {
    if n > 0 {
      TripsConsistent(c, ops, n - 1, tw, t);
      var e := After(c, ops, n - 1);
      match ops[n - 1]
      case Walk(track, foot, ts) => WatchAllConsistent(e.trips, e.table, c.cooldown, track, c.wires, foot, ts, tw, t);
      case _ =>
    }
  }

  ghost predicate DistinctWires(wires: seq<Tripwire>) {
    forall a, b :: 0 <= a < b < |wires| ==> wires[a].id != wires[b].id
  }

  function At(table: Table, key: Key): Option<real> { if key in table then Some(table[key]) else None }

  /** One wire looks at nothing of the whole table but its own key, and changes nothing
      else. */
  lemma WireKeepsTable(tw: Tripwire, st: Trip, table: Table, table': Table, cooldown: real, track: int, foot: Point,
                       ts: real, key: Key)
    requires At(table, KeyFor("trip", tw.id, track, ts, cooldown)) == At(table', KeyFor("trip", tw.id, track, ts, cooldown))
    ensures var (a, b) := (WatchBy(Whole, tw, st, table, cooldown, track, foot, ts),
                           WatchBy(Whole, tw, st, table', cooldown, track, foot, ts));
            && a.0 == b.0 && a.2 == b.2
            && At(a.1, key) == (if a.2 && key == KeyFor("trip", tw.id, track, ts, cooldown) then Some(ts)
                                else At(table, key))
  {
  }

  /** What a walk past some wires has done about one of them, if it was among them
      (`looked`), and about one of its keys. */
  ghost predicate Looked(tw: Tripwire, cooldown: real, track: int, foot: Point, ts: real, trips: TripMap, table: Table,
                         key: Key, looked: bool, trips': TripMap, table': Table, reports: seq<string>) {
    var (st, _, fired) := WatchBy(Whole, tw, TripOf(trips, track, tw.id), table, cooldown, track, foot, ts);
    && TripOf(trips', track, tw.id) == (if looked then st else TripOf(trips, track, tw.id))
    && (tw.id in reports <==> looked && fired)
    && At(table', key) == (if looked && fired && key == KeyFor("trip", tw.id, track, ts, cooldown) then Some(ts)
                           else At(table, key))
  }

  lemma LookedNext(tw: Tripwire, w: Tripwire, cooldown: real, track: int, foot: Point, ts: real, trips: TripMap,
                   table: Table, key: Key, looked: bool, trips1: TripMap, table1: Table, reports1: seq<string>)
    requires key.rule == "trip" && key.item == tw.id && (w.id == tw.id ==> w == tw && !looked)
    requires Looked(tw, cooldown, track, foot, ts, trips, table, key, looked, trips1, table1, reports1)
    requires Looked(tw, cooldown, track, foot, ts, trips, table, KeyFor("trip", tw.id, track, ts, cooldown), looked,
                    trips1, table1, reports1)
    ensures var (st, table2, b) := WatchBy(Whole, w, TripOf(trips1, track, w.id), table1, cooldown, track, foot, ts);
            Looked(tw, cooldown, track, foot, ts, trips, table, key, looked || w.id == tw.id,
                   trips1[track := (if track in trips1 then trips1[track] else map[])[w.id := st]], table2,
                   if b then reports1 + [w.id] else reports1)
  {
    WireKeepsTable(w, TripOf(trips1, track, w.id), table1, if w.id == tw.id then table else table1, cooldown, track, foot,
                   ts, key);
  }

  /** With different ids, only the wire's own look counts. */
  lemma {:induction false} WireAmongWires(trips: TripMap, table: Table, cooldown: real, track: int, wires: seq<Tripwire>,
                                          foot: Point, ts: real, tw: Tripwire, key: Key)
    requires DistinctWires(wires) && key.rule == "trip" && key.item == tw.id
    requires forall w :: w in wires && w.id == tw.id ==> w == tw
    ensures var (trips', table', reports) := WatchAllBy(Whole, trips, table, cooldown, track, wires, foot, ts);
            Looked(tw, cooldown, track, foot, ts, trips, table, key, tw in wires, trips', table', reports)
  {
    if wires != [] {
      var n := |wires| - 1;
      assert wires == wires[..n] + [wires[n]];
      WireAmongWires(trips, table, cooldown, track, wires[..n], foot, ts, tw, key);
      WireAmongWires(trips, table, cooldown, track, wires[..n], foot, ts, tw, KeyFor("trip", tw.id, track, ts, cooldown));
      var (trips1, table1, reports1) := WatchAllBy(Whole, trips, table, cooldown, track, wires[..n], foot, ts);
      LookedNext(tw, wires[n], cooldown, track, foot, ts, trips, table, key, tw in wires[..n], trips1, table1, reports1);
    }
  }

  /** Which side of a wire a point is on, from its coordinates: positive to the left of the
      way from the end that comes first by x, then y, to the other. */
  lemma SideIs(tw: Tripwire, p: Point)
    ensures var swap := tw.p2.x < tw.p1.x || (tw.p2.x == tw.p1.x && tw.p2.y < tw.p1.y);
            var (a, b) := if swap then (tw.p2, tw.p1) else (tw.p1, tw.p2);
            Side(tw, p) == (b.x - a.x) * (p.y - a.y) - (b.y - a.y) * (p.x - a.x)
  {
  }

  /** The order in which a wire's end points were drawn changes nothing. */
  lemma EndpointOrderIrrelevant(tw: Tripwire, st: Trip, table: Table, cooldown: real, track: int, foot: Point, ts: real)
    ensures Watch(tw, st, table, cooldown, track, foot, ts)
            == Watch(tw.(p1 := tw.p2, p2 := tw.p1), st, table, cooldown, track, foot, ts)
  {
    assert Canonical(tw) == Canonical(tw.(p1 := tw.p2, p2 := tw.p1));
  }

  // ------------------------------------------------------------ pruning, over all runs

  predicate Timed(op: Op) { op.Look? || op.Walk? }

  /** The clock never steps back from one look or walk to a later one. */
  ghost predicate Clocked(ops: seq<Op>) {
    forall i, j :: 0 <= i < j < |ops| && Timed(ops[i]) && Timed(ops[j]) ==> ops[i].ts <= ops[j].ts
  }

  /** The run of an engine whose table is never pruned. */
  ghost function AfterWhole(c: Settings, ops: seq<Op>, n: nat): Engine
    requires n <= |ops|
  {
    if n == 0 then START else StepBy(Whole, AfterWhole(c, ops, n - 1), c, ops[n - 1]).0
  }

  /** Two engines that differ only in table entries whose cooldown has passed. */
  ghost predicate Alike(e: Engine, w: Engine, cooldown: real, now: real) {
    e.loiter == w.loiter && e.trips == w.trips && Forgets(e.table, w.table, cooldown, now)
  }

  lemma ForgetsLater(pruned: Table, full: Table, cooldown: real, now: real, later: real)
    requires Forgets(pruned, full, cooldown, now) && now <= later
    ensures Forgets(pruned, full, cooldown, later)
  {
  }

  lemma WatchAlike(tw: Tripwire, st: Trip, pruned: Table, full: Table, cooldown: real, track: int, foot: Point, ts: real)
    requires Forgets(pruned, full, cooldown, ts)
    ensures var (a, b) := (WatchBy(Pruned, tw, st, pruned, cooldown, track, foot, ts),
                           WatchBy(Whole, tw, st, full, cooldown, track, foot, ts));
            a.0 == b.0 && a.2 == b.2 && Forgets(a.1, b.1, cooldown, ts)
  {
    StepForgets(pruned, full, cooldown, KeyFor("trip", tw.id, track, ts, cooldown), ts);
  }

  lemma {:induction false} WatchAllAlike(trips: TripMap, pruned: Table, full: Table, cooldown: real, track: int,
                                         wires: seq<Tripwire>, foot: Point, ts: real)
    requires Forgets(pruned, full, cooldown, ts)
    ensures var (a, b) := (WatchAllBy(Pruned, trips, pruned, cooldown, track, wires, foot, ts),
                           WatchAllBy(Whole, trips, full, cooldown, track, wires, foot, ts));
            a.0 == b.0 && a.2 == b.2 && Forgets(a.1, b.1, cooldown, ts)
  {
    if wires != [] {
      var n := |wires| - 1;
      WatchAllAlike(trips, pruned, full, cooldown, track, wires[..n], foot, ts);
      var a := WatchAllBy(Pruned, trips, pruned, cooldown, track, wires[..n], foot, ts);
      var b := WatchAllBy(Whole, trips, full, cooldown, track, wires[..n], foot, ts);
      WatchAlike(wires[n], TripOf(a.0, track, wires[n].id), a.1, b.1, cooldown, track, foot, ts);
    }
  }

  lemma DueAlike(e: Engine, w: Engine, c: Settings, track: int, zone: string, ts: real)
    requires Alike(e, w, c.cooldown, ts) && Due(LoiterOf(e.loiter, track, zone), c, ts)
    ensures var (a, b) := (ObserveBy(Pruned, e, c, track, zone, true, ts), ObserveBy(Whole, w, c, track, zone, true, ts));
            a.1 == b.1 && Alike(a.0, b.0, c.cooldown, ts)
  {
    var key := KeyFor("loiter", zone, track, ts, c.cooldown);
    StepForgets(e.table, w.table, c.cooldown, key, ts);
  }

  lemma LookAlike(e: Engine, w: Engine, c: Settings, track: int, zone: string, inside: bool, ts: real)
    requires Alike(e, w, c.cooldown, ts)
    ensures var (a, b) := (ObserveBy(Pruned, e, c, track, zone, inside, ts),
                           ObserveBy(Whole, w, c, track, zone, inside, ts));
            a.1 == b.1 && Alike(a.0, b.0, c.cooldown, ts)
  {
    if inside && Due(LoiterOf(e.loiter, track, zone), c, ts) {
      DueAlike(e, w, c, track, zone, ts);
    }
  }

  lemma StepAlike(e: Engine, w: Engine, c: Settings, op: Op, now: real)
    requires Alike(e, w, c.cooldown, now) && (Timed(op) ==> now == op.ts)
    ensures Alike(StepBy(Pruned, e, c, op).0, StepBy(Whole, w, c, op).0, c.cooldown, now)
    ensures StepBy(Pruned, e, c, op).1 == StepBy(Whole, w, c, op).1
  {
    match op
    case Look(track, zone, inside, ts) => LookAlike(e, w, c, track, zone, inside, ts);
    case Walk(track, foot, ts) => WatchAllAlike(e.trips, e.table, w.table, c.cooldown, track, c.wires, foot, ts);
    case Prune(_) =>
    case Reset =>
  }

  lemma {:induction false} RunsAlike(c: Settings, ops: seq<Op>, n: nat, now: real)
    requires n <= |ops| && Clocked(ops) && forall i :: 0 <= i < n && Timed(ops[i]) ==> ops[i].ts <= now
    ensures Alike(After(c, ops, n), AfterWhole(c, ops, n), c.cooldown, now)
  {
    if n > 0 {
      var op := ops[n - 1];
      var at := if Timed(op) then op.ts else now;
      RunsAlike(c, ops, n - 1, at);
      StepAlike(After(c, ops, n - 1), AfterWhole(c, ops, n - 1), c, op, at);
      ForgetsLater(After(c, ops, n).table, AfterWhole(c, ops, n).table, c.cooldown, at, now);
    }
  }

  /** The time of the last look or walk among the first n operations. */
  ghost function LatestTs(ops: seq<Op>, n: nat): real
    requires n <= |ops|
  {
    if n == 0 then 0.0 else if Timed(ops[n - 1]) then ops[n - 1].ts else LatestTs(ops, n - 1)
  }

  lemma {:induction false} LatestIsLast(ops: seq<Op>, n: nat)
    requires n <= |ops| && Clocked(ops)
    ensures forall i :: 0 <= i < n && Timed(ops[i]) ==> ops[i].ts <= LatestTs(ops, n)
  {
    if n > 0 {
      LatestIsLast(ops, n - 1);
    }
  }

  /** In every run with a clock that never steps back, an engine with the pruned table and
      one with the whole table report the same at every operation and remember the same of
      every track, although what they report decides what they remember. */
  lemma EnginePruningIsInvisible(c: Settings, ops: seq<Op>, n: nat)
    requires n < |ops| && Clocked(ops)
    ensures var e, w := After(c, ops, n), AfterWhole(c, ops, n);
            && e.loiter == w.loiter && e.trips == w.trips
            && Step(e, c, ops[n]).1 == StepBy(Whole, w, c, ops[n]).1
            && (ops[n].Walk? ==>
                  WatchAll(e.trips, e.table, c.cooldown, ops[n].track, c.wires, ops[n].foot, ops[n].ts).2
                  == WatchAllBy(Whole, w.trips, w.table, c.cooldown, ops[n].track, c.wires, ops[n].foot, ops[n].ts).2)
  {
    var e, w, op := After(c, ops, n), AfterWhole(c, ops, n), ops[n];
    if Timed(op) {
      RunsAlike(c, ops, n, op.ts);
      StepAlike(e, w, c, op, op.ts);
      if op.Walk? {
        WatchAllAlike(e.trips, e.table, w.table, c.cooldown, op.track, c.wires, op.foot, op.ts);
      }
    } else {
      var now := LatestTs(ops, n);
      LatestIsLast(ops, n);
      RunsAlike(c, ops, n, now);
      StepAlike(e, w, c, op, now);
    }
  }

  // ---------------------------------------------------- when a look reports loitering

  function LoiterKey(c: Settings, track: int, zone: string, ts: real): Key {
    KeyFor("loiter", zone, track, ts, c.cooldown)
  }

  ghost predicate NoReset(ops: seq<Op>, i: nat, n: nat)
    requires n <= |ops|
  {
    forall k :: i < k < n ==> ops[k] != Reset
  }

  /** A loitering report under this dedup key was made less than the cooldown before the
      n-th operation, with no reset in between. */
  ghost predicate HeldBack(c: Settings, ops: seq<Op>, n: nat, track: int, zone: string)
    requires n < |ops| && ops[n].Look?
  {
    exists k :: 0 <= k < n && Reports(c, ops, k, track, zone)
      && LoiterKey(c, track, zone, ops[k].ts) == LoiterKey(c, track, zone, ops[n].ts)
      && ops[n].ts - ops[k].ts < c.cooldown && NoReset(ops, k, n)
  }

  /** For each operation, its time if it reports loitering under this dedup key. */
  ghost function Under(c: Settings, ops: seq<Op>, track: int, zone: string, key: Key): (us: seq<Option<real>>)
    ensures |us| == |ops|
  {
    seq(|ops|, k requires 0 <= k < |ops| =>
      if Reports(c, ops, k, track, zone) && LoiterKey(c, track, zone, ops[k].ts) == key then Some(ops[k].ts) else None)
  }

  /** The last of the first n such times since a reset. */
  ghost function LastReport(us: seq<Option<real>>, ops: seq<Op>, n: nat): Option<real>
    requires n <= |ops| == |us|
  {
    if n == 0 || ops[n - 1] == Reset then None
    else if us[n - 1].Some? then us[n - 1]
    else LastReport(us, ops, n - 1)
  }

  lemma {:induction false} WiresKeepLoiterKeys(trips: TripMap, table: Table, cooldown: real, track: int,
                                               wires: seq<Tripwire>, foot: Point, ts: real, key: Key)
    requires key.rule == "loiter"
    ensures var table' := WatchAllBy(Whole, trips, table, cooldown, track, wires, foot, ts).1;
            (key in table' <==> key in table) && (key in table ==> table'[key] == table[key])
  {
    if wires != [] {
      WiresKeepLoiterKeys(trips, table, cooldown, track, wires[..|wires| - 1], foot, ts, key);
    }
  }

  /** What one step of the whole-table engine does to a loitering key. */
  lemma StepAtKey(w: Engine, c: Settings, op: Op, track: int, zone: string, key: Key)
    requires key.rule == "loiter" && key.track == track && key.item == zone
    ensures var (w', b) := StepBy(Whole, w, c, op);
            At(w'.table, key) ==
              if op == Reset then None
              else if op.Look? && op.track == track && op.zone == zone && b && LoiterKey(c, track, zone, op.ts) == key
              then Some(op.ts) else At(w.table, key)
  {
    match op
    case Walk(t, foot, ts) => WiresKeepLoiterKeys(w.trips, w.table, c.cooldown, t, c.wires, foot, ts, key);
    case Look(_, _, _, _) =>
    case Prune(_) =>
    case Reset =>
  }

  ghost function KeyAt(c: Settings, ops: seq<Op>, n: nat, key: Key): Option<real>
    requires n <= |ops|
  {
    At(AfterWhole(c, ops, n).table, key)
  }

  predicate KeyStep(before: Option<real>, op: Op, under: Option<real>, after: Option<real>) {
    after == if op == Reset then None else if under.Some? then under else before
  }

  lemma NextAtKey(c: Settings, ops: seq<Op>, n: nat, track: int, zone: string, key: Key)
    requires n < |ops| && Clocked(ops) && key.rule == "loiter" && key.track == track && key.item == zone
    ensures KeyStep(KeyAt(c, ops, n, key), ops[n], Under(c, ops, track, zone, key)[n], KeyAt(c, ops, n + 1, key))
  {
    EnginePruningIsInvisible(c, ops, n);
    StepAtKey(AfterWhole(c, ops, n), c, ops[n], track, zone, key);
  }

  /** Such steps, from an empty table. */
  lemma {:induction false} KeyFrom(ks: seq<Option<real>>, us: seq<Option<real>>, ops: seq<Op>, n: nat)
    requires n <= |ops| == |us| && |ks| == |ops| + 1 && ks[0] == None
    requires forall a, b :: 0 <= a < |ops| && b == a + 1 ==> KeyStep(ks[a], ops[a], us[a], ks[b])
    ensures ks[n] == LastReport(us, ops, n)
  {
    if n > 0 {
      KeyFrom(ks, us, ops, n - 1);
      assert KeyStep(ks[n - 1], ops[n - 1], us[n - 1], ks[n]);
    }
  }

  ghost function KeysAt(c: Settings, ops: seq<Op>, key: Key): (ks: seq<Option<real>>)
    ensures |ks| == |ops| + 1 && forall a :: 0 <= a <= |ops| ==> ks[a] == KeyAt(c, ops, a, key)
  {
    seq(|ops| + 1, a requires 0 <= a <= |ops| => KeyAt(c, ops, a, key))
  }

  /** The whole table holds the time of the last report under each loitering key. */
  lemma WholeTableReads(c: Settings, ops: seq<Op>, n: nat, track: int, zone: string, key: Key)
    requires n <= |ops| && Clocked(ops) && key.rule == "loiter" && key.track == track && key.item == zone
    ensures KeyAt(c, ops, n, key) == LastReport(Under(c, ops, track, zone, key), ops, n)
  {
    var us, ks := Under(c, ops, track, zone, key), KeysAt(c, ops, key);
    forall a, b | 0 <= a < |ops| && b == a + 1 ensures KeyStep(ks[a], ops[a], us[a], ks[b]) {
      NextAtKey(c, ops, a, track, zone, key);
    }
    KeyFrom(ks, us, ops, n);
  }

  lemma {:induction false} LastReportIs(us: seq<Option<real>>, ops: seq<Op>, n: nat) returns (k: nat)
    requires n <= |ops| == |us| && LastReport(us, ops, n).Some?
    ensures k < n && us[k] == LastReport(us, ops, n) && NoReset(ops, k, n)
  {
    if us[n - 1].Some? {
      k := n - 1;
    } else {
      k := LastReportIs(us, ops, n - 1);
    }
  }

  /** The times recorded never step back and belong to no reset. */
  ghost predicate Recorded(us: seq<Option<real>>, ops: seq<Op>) {
    && |us| == |ops| && (forall k :: 0 <= k < |us| && us[k].Some? ==> ops[k] != Reset)
    && forall a, b :: 0 <= a < b < |us| && us[a].Some? && us[b].Some? ==> us[a].value <= us[b].value
  }

  ghost predicate HeldUnder(us: seq<Option<real>>, ops: seq<Op>, n: nat, ts: real, cooldown: real)
    requires n <= |ops| == |us|
  {
    exists k :: 0 <= k < n && us[k].Some? && ts - us[k].value < cooldown && NoReset(ops, k, n)
  }

  lemma {:induction false} LastReportSince(us: seq<Option<real>>, ops: seq<Op>, n: nat, k: nat)
    requires Recorded(us, ops) && k < n <= |ops| && us[k].Some? && NoReset(ops, k, n)
    ensures LastReport(us, ops, n).Some? && us[k].value <= LastReport(us, ops, n).value
  {
    if k < n - 1 {
      LastReportSince(us, ops, n - 1, k);
    }
  }

  lemma LastReportHolds(us: seq<Option<real>>, ops: seq<Op>, n: nat, ts: real, cooldown: real)
    requires Recorded(us, ops) && n <= |ops|
    ensures HeldUnder(us, ops, n, ts, cooldown)
       <==> LastReport(us, ops, n).Some? && ts - LastReport(us, ops, n).value < cooldown
  {
    if LastReport(us, ops, n).Some? {
      var k := LastReportIs(us, ops, n);
    }
    if HeldUnder(us, ops, n, ts, cooldown) {
      var k :| 0 <= k < n && us[k].Some? && ts - us[k].value < cooldown && NoReset(ops, k, n);
      LastReportSince(us, ops, n, k);
    }
  }

  lemma UnderRecorded(c: Settings, ops: seq<Op>, track: int, zone: string, key: Key)
    requires Clocked(ops)
    ensures var us := Under(c, ops, track, zone, key);
            Recorded(us, ops) && forall k :: 0 <= k < |us| && us[k].Some? ==> ops[k].Look? && us[k].value == ops[k].ts
  {
    var us := Under(c, ops, track, zone, key);
    forall k | 0 <= k < |us| && us[k].Some? ensures ops[k].Look? && us[k].value == ops[k].ts {
      assert Reports(c, ops, k, track, zone);
    }
  }

  lemma HeldBackUnder(c: Settings, ops: seq<Op>, n: nat, track: int, zone: string)
    requires n < |ops| && ops[n].Look?
    ensures var us := Under(c, ops, track, zone, LoiterKey(c, track, zone, ops[n].ts));
            HeldBack(c, ops, n, track, zone) <==> HeldUnder(us, ops, n, ops[n].ts, c.cooldown)
  {
    var key := LoiterKey(c, track, zone, ops[n].ts);
    var us := Under(c, ops, track, zone, key);
    if HeldBack(c, ops, n, track, zone) {
      var k :| 0 <= k < n && Reports(c, ops, k, track, zone) && LoiterKey(c, track, zone, ops[k].ts) == key
        && ops[n].ts - ops[k].ts < c.cooldown && NoReset(ops, k, n);
      assert us[k] == Some(ops[k].ts);
    }
    if HeldUnder(us, ops, n, ops[n].ts, c.cooldown) {
      var k :| 0 <= k < n && us[k].Some? && ops[n].ts - us[k].value < c.cooldown && NoReset(ops, k, n);
      assert Reports(c, ops, k, track, zone);
    }
  }

  /** Whatever the table, the pruned one lets a key through exactly when the whole one
      does. */
  lemma EmitsBy(pruned: Table, full: Table, cooldown: real, key: Key, now: real)
    requires Forgets(pruned, full, cooldown, now) && (At(full, key).Some? ==> full[key] <= now)
    ensures ShouldEmit(pruned, cooldown, key, now).0 <==> !(At(full, key).Some? && now - full[key] < cooldown)
  {
    StepForgets(pruned, full, cooldown, key, now);
  }

  /** The dedup table lets a report through exactly when none holds it back. */
  lemma DedupExactly(c: Settings, ops: seq<Op>, n: nat, track: int, zone: string)
    requires n < |ops| && Clocked(ops) && ops[n].Look?
    ensures ShouldEmit(After(c, ops, n).table, c.cooldown, LoiterKey(c, track, zone, ops[n].ts), ops[n].ts).0
       <==> !HeldBack(c, ops, n, track, zone)
  {
    var ts, key := ops[n].ts, LoiterKey(c, track, zone, ops[n].ts);
    var us, table := Under(c, ops, track, zone, key), After(c, ops, n).table;
    UnderRecorded(c, ops, track, zone, key);
    HeldBackUnder(c, ops, n, track, zone);
    LastReportHolds(us, ops, n, ts, c.cooldown);
    WholeTableReads(c, ops, n, track, zone, key);
    if LastReport(us, ops, n).Some? {
      var k := LastReportIs(us, ops, n);
    }
    RunsAlike(c, ops, n, ts);
    EmitsBy(table, AfterWhole(c, ops, n).table, c.cooldown, key, ts);
  }

  lemma TriggeredBefore(c: Settings, ops: seq<Op>, n: nat, track: int, zone: string)
    requires n < |ops| && Triggered(c, ops, n + 1, track, zone) && !Reports(c, ops, n, track, zone)
    ensures Triggered(c, ops, n, track, zone) && !Rearms(ops, n, track, zone)
  {
    StreakIsRun(c, ops, n + 1, track, zone);
    StepKeeps(After(c, ops, n), c, ops[n], track, zone);
  }

  ghost function TriggersAt(c: Settings, ops: seq<Op>, track: int, zone: string): (ts: seq<bool>)
    ensures |ts| == |ops| + 1 && forall n :: 0 <= n <= |ops| ==> ts[n] == Triggered(c, ops, n, track, zone)
  {
    seq(|ops| + 1, n requires 0 <= n <= |ops| => Triggered(c, ops, n, track, zone))
  }

  ghost function ReportsAt(c: Settings, ops: seq<Op>, track: int, zone: string): (rs: seq<bool>)
    ensures |rs| == |ops| && forall n :: 0 <= n < |ops| ==> rs[n] == Reports(c, ops, n, track, zone)
  {
    seq(|ops|, n requires 0 <= n < |ops| => Reports(c, ops, n, track, zone))
  }

  ghost predicate TriggerStep(before: bool, reports: bool, ops: seq<Op>, n: nat, after: bool, track: int, zone: string)
    requires n < |ops|
  {
    after ==> reports || (before && !Rearms(ops, n, track, zone))
  }

  /** Such steps, followed back to the report that triggered the visit. */
  lemma {:induction false} TriggeredFrom(ts: seq<bool>, rs: seq<bool>, ops: seq<Op>, n: nat, track: int, zone: string)
    returns (k: nat)
    requires n <= |ops| && |rs| == |ops| && |ts| == |ops| + 1 && !ts[0] && ts[n]
    requires forall a, b :: 0 <= a < |ops| && b == a + 1 ==> TriggerStep(ts[a], rs[a], ops, a, ts[b], track, zone)
    ensures k < n && rs[k] && Unbroken(ops, k, n, track, zone)
    decreases n
  {
    assert TriggerStep(ts[n - 1], rs[n - 1], ops, n - 1, ts[n], track, zone);
    if rs[n - 1] {
      k := n - 1;
    } else {
      k := TriggeredFrom(ts, rs, ops, n - 1, track, zone);
    }
  }

  /** A triggered visit has been reported since it was last rearmed. */
  lemma TriggeredByReport(c: Settings, ops: seq<Op>, n: nat, track: int, zone: string) returns (k: nat)
    requires n <= |ops| && Triggered(c, ops, n, track, zone)
    ensures k < n && Reports(c, ops, k, track, zone) && Unbroken(ops, k, n, track, zone)
  {
    var ts, rs := TriggersAt(c, ops, track, zone), ReportsAt(c, ops, track, zone);
    forall a, b | 0 <= a < |ops| && b == a + 1 ensures TriggerStep(ts[a], rs[a], ops, a, ts[b], track, zone) {
      if ts[b] && !rs[a] {
        TriggeredBefore(c, ops, a, track, zone);
      }
    }
    k := TriggeredFrom(ts, rs, ops, n, track, zone);
  }

  /** One operation on: a dwell that has started goes on until something rearms. */
  lemma EnterGoesOn(c: Settings, ops: seq<Op>, n: nat, track: int, zone: string)
    requires n < |ops| && EnterAt(c, ops, n, track, zone).Some? && !Rearms(ops, n, track, zone)
    ensures EnterAt(c, ops, n + 1, track, zone) == EnterAt(c, ops, n, track, zone)
  {
    StreakIsRun(c, ops, n + 1, track, zone);
    StepKeeps(After(c, ops, n), c, ops[n], track, zone);
  }

  ghost predicate GoesOn(before: Option<real>, ops: seq<Op>, n: nat, after: Option<real>, track: int, zone: string)
    requires n < |ops|
  {
    before.Some? && !Rearms(ops, n, track, zone) ==> after == before
  }

  /** Such steps, from the look on. */
  lemma {:induction false} GoesOnFrom(es: seq<Option<real>>, ops: seq<Op>, i: nat, n: nat, track: int, zone: string)
    requires i < n <= |ops| && |es| == |ops| + 1 && es[i + 1].Some? && Unbroken(ops, i, n, track, zone)
    requires forall a, b :: 0 <= a < |ops| && b == a + 1 ==> GoesOn(es[a], ops, a, es[b], track, zone)
    ensures es[n] == es[i + 1]
    decreases n
  {
    if i < n - 1 {
      GoesOnFrom(es, ops, i, n - 1, track, zone);
      assert GoesOn(es[n - 1], ops, n - 1, es[n], track, zone);
    }
  }

  lemma EnteredNow(c: Settings, ops: seq<Op>, i: nat, track: int, zone: string)
    requires i < |ops| && Clocked(ops) && InsideLook(ops[i], track, zone)
    ensures EnterAt(c, ops, i + 1, track, zone).Some? && EnterAt(c, ops, i + 1, track, zone).value <= ops[i].ts
  {
    StepKeeps(After(c, ops, i), c, ops[i], track, zone);
    if EnterAt(c, ops, i, track, zone).Some? {
      var i0 := EnterIsALook(c, ops, i, track, zone);
      assert Timed(ops[i0]) && Timed(ops[i]);
    }
  }

  /** After an inside look, and until something rearms, the dwell has started by then. */
  lemma EnteredBy(c: Settings, ops: seq<Op>, i: nat, n: nat, track: int, zone: string)
    requires i < n <= |ops| && Clocked(ops) && InsideLook(ops[i], track, zone) && Unbroken(ops, i, n, track, zone)
    ensures EnterAt(c, ops, n, track, zone).Some? && EnterAt(c, ops, n, track, zone).value <= ops[i].ts
  {
    var es := EntersAt(c, ops, track, zone);
    forall a, b | 0 <= a < |ops| && b == a + 1 ensures GoesOn(es[a], ops, a, es[b], track, zone) {
      if es[a].Some? && !Rearms(ops, a, track, zone) {
        EnterGoesOn(c, ops, a, track, zone);
      }
    }
    EnteredNow(c, ops, i, track, zone);
    GoesOnFrom(es, ops, i, n, track, zone);
  }

  lemma DweltExactly(c: Settings, ops: seq<Op>, n: nat, track: int, zone: string)
    requires n < |ops| && Clocked(ops) && InsideLook(ops[n], track, zone)
    ensures var enter := EnterAt(c, ops, n, track, zone);
            Dwelt(c, ops, n, track, zone) <==> c.loiterS <= ops[n].ts - (if enter.Some? then enter.value else ops[n].ts)
  {
    var enter := EnterAt(c, ops, n, track, zone);
    if enter.Some? {
      var i := EnterIsALook(c, ops, n, track, zone);
      assert InsideLook(ops[i], track, zone) && ops[i].ts == enter.value;
    }
    if Dwelt(c, ops, n, track, zone) {
      var i :| 0 <= i <= n && InsideLook(ops[i], track, zone)
        && c.loiterS <= ops[n].ts - ops[i].ts && Unbroken(ops, i, n, track, zone);
      if i < n {
        EnteredBy(c, ops, i, n, track, zone);
      }
    }
  }

  /** The track has been reported since its visit was last rearmed. */
  ghost predicate ReportedSince(c: Settings, ops: seq<Op>, n: nat, track: int, zone: string)
    requires n < |ops|
  {
    exists k :: 0 <= k < n && Reports(c, ops, k, track, zone) && Unbroken(ops, k, n, track, zone)
  }

  lemma TriggeredExactly(c: Settings, ops: seq<Op>, n: nat, track: int, zone: string)
    requires n < |ops|
    ensures Triggered(c, ops, n, track, zone) <==> ReportedSince(c, ops, n, track, zone)
  {
    if Triggered(c, ops, n, track, zone) {
      var k := TriggeredByReport(c, ops, n, track, zone);
    }
    if ReportedSince(c, ops, n, track, zone) {
      var k :| 0 <= k < n && Reports(c, ops, k, track, zone) && Unbroken(ops, k, n, track, zone);
      ReportedTriggers(c, ops, k, track, zone);
      TriggeredUntilRearmed(c, ops, k, n, track, zone);
    }
  }

  /** In every run with a clock that never steps back, a look at a track in a zone reports
      loitering exactly when it is an inside look, the track has dwelt for the loiter time
      without rearming, has not been reported since it was last rearmed, and no report
      under the same dedup key holds it back. */
  lemma ReportsExactly(c: Settings, ops: seq<Op>, n: nat, track: int, zone: string)
    requires n < |ops| && Clocked(ops) && ops[n].Look? && ops[n].track == track && ops[n].zone == zone
    ensures Reports(c, ops, n, track, zone) <==>
              && ops[n].inside && Dwelt(c, ops, n, track, zone)
              && !ReportedSince(c, ops, n, track, zone) && !HeldBack(c, ops, n, track, zone)
  {
    if ops[n].inside {
      DweltExactly(c, ops, n, track, zone);
      TriggeredExactly(c, ops, n, track, zone);
      DedupExactly(c, ops, n, track, zone);
    }
  }

  // ------------------------------------------------ when a walk reports a crossing

  /** The n-th operation reports that this track crosses this wire. */
  ghost predicate Crosses(c: Settings, ops: seq<Op>, n: nat, track: int, tw: Tripwire)
    requires n < |ops|
  {
    ops[n].Walk? && ops[n].track == track &&
    var e := After(c, ops, n);
    tw.id in WatchAll(e.trips, e.table, c.cooldown, track, c.wires, ops[n].foot, ops[n].ts).2
  }

  ghost function CrossingsOf(c: Settings, ops: seq<Op>, track: int, tw: Tripwire): (xs: seq<bool>)
    ensures |xs| == |ops| && forall n :: 0 <= n < |ops| ==> xs[n] == Crosses(c, ops, n, track, tw)
  {
    seq(|ops|, n requires 0 <= n < |ops| => Crosses(c, ops, n, track, tw))
  }

  predicate Walks(op: Op, track: int) { op.Walk? && op.track == track }

  predicate FarFrom(tw: Tripwire, op: Op, before: Op)
    requires op.Walk? && before.Walk?
  {
    Abs(Side(tw, op.foot) - Side(tw, before.foot)) > tw.hysteresis
  }

  /** The walk whose position the wire holds against the next one: the last one, except
      that after a reported crossing steps no farther from its side than the hysteresis
      are passed over. */
  ghost function Position(xs: seq<bool>, ops: seq<Op>, n: nat, track: int, tw: Tripwire): (p: Option<nat>)
    requires n <= |ops| == |xs|
    ensures p.Some? ==> p.value < n && Walks(ops[p.value], track)
  {
    if n == 0 || ops[n - 1] == Prune(track) || ops[n - 1] == Reset then None
    else
      var p := Position(xs, ops, n - 1, track, tw);
      if !Walks(ops[n - 1], track) then p
      else if p.Some? && xs[p.value] && !FarFrom(tw, ops[n - 1], ops[p.value]) then p
      else Some(n - 1)
  }

  ghost function TripAt(c: Settings, ops: seq<Op>, n: nat, track: int, tw: Tripwire): Trip
    requires n <= |ops|
  {
    TripOf(After(c, ops, n).trips, track, tw.id)
  }

  /** The wire's record is that position, and it is armed unless it crossed there. */
  ghost predicate TripReads(st: Trip, xs: seq<bool>, ops: seq<Op>, n: nat, track: int, tw: Tripwire)
    requires n <= |ops| == |xs|
  {
    var p := Position(xs, ops, n, track, tw);
    && Consistent(tw, st) && (st.armed <==> p.None? || !xs[p.value])
    && st.lastPos == if p.None? then None else Some(ops[p.value].foot)
  }

  /** What one operation does to the record. */
  ghost predicate TripStep(st: Trip, xs: seq<bool>, ops: seq<Op>, n: nat, st': Trip, track: int, tw: Tripwire)
    requires n < |ops| == |xs|
  {
    if ops[n] == Prune(track) || ops[n] == Reset then st' == UNSEEN
    else if !Walks(ops[n], track) then st' == st
    else if Ready(tw, st, ops[n].foot) then
      && Consistent(tw, st') && st'.lastPos == Some(ops[n].foot) && st'.armed == !xs[n]
    else st' == st
  }

  lemma TripReadsNext(st: Trip, xs: seq<bool>, ops: seq<Op>, n: nat, st': Trip, track: int, tw: Tripwire)
    requires n < |ops| == |xs| && TripReads(st, xs, ops, n, track, tw) && TripStep(st, xs, ops, n, st', track, tw)
    ensures TripReads(st', xs, ops, n + 1, track, tw)
  {
  }

  /** The walk's own look at the wire, on the whole table. */
  lemma WalkLooks(c: Settings, ops: seq<Op>, n: nat, track: int, tw: Tripwire)
    requires n < |ops| && Clocked(ops) && DistinctWires(c.wires) && tw in c.wires && Walks(ops[n], track)
    ensures var (st, _, fired) := WatchBy(Whole, tw, TripAt(c, ops, n, track, tw), AfterWhole(c, ops, n).table,
                                          c.cooldown, track, ops[n].foot, ops[n].ts);
            TripAt(c, ops, n + 1, track, tw) == st && (Crosses(c, ops, n, track, tw) <==> fired)
  {
    var w := AfterWhole(c, ops, n);
    EnginePruningIsInvisible(c, ops, n);
    WireAmongWires(w.trips, w.table, c.cooldown, track, c.wires, ops[n].foot, ops[n].ts, tw,
                   KeyFor("trip", tw.id, track, ops[n].ts, c.cooldown));
    RunsAlike(c, ops, n, ops[n].ts);
    WatchAllAlike(After(c, ops, n).trips, After(c, ops, n).table, w.table, c.cooldown, track, c.wires, ops[n].foot,
                  ops[n].ts);
  }

  /** Operations that are no walk of the track leave its records, or drop them all. */
  lemma {:induction false} OthersTrip(trips: TripMap, table: Table, cooldown: real, t: int, wires: seq<Tripwire>,
                                      foot: Point, ts: real, track: int, wire: string)
    requires t != track
    ensures TripOf(WatchAllBy(Pruned, trips, table, cooldown, t, wires, foot, ts).0, track, wire)
         == TripOf(trips, track, wire)
  {
    if wires != [] {
      OthersTrip(trips, table, cooldown, t, wires[..|wires| - 1], foot, ts, track, wire);
    }
  }

  lemma TripStepIs(c: Settings, ops: seq<Op>, n: nat, track: int, tw: Tripwire)
    requires n < |ops| && Clocked(ops) && DistinctWires(c.wires) && tw in c.wires
    ensures TripStep(TripAt(c, ops, n, track, tw), CrossingsOf(c, ops, track, tw), ops, n,
                     TripAt(c, ops, n + 1, track, tw), track, tw)
  {
    if Walks(ops[n], track) {
      WalkLooks(c, ops, n, track, tw);
      TripsConsistent(c, ops, n, tw, track);
      WatchMeaning(Whole, tw, TripAt(c, ops, n, track, tw), AfterWhole(c, ops, n).table, c.cooldown, track,
                   ops[n].foot, ops[n].ts);
    } else if ops[n].Walk? {
      var e := After(c, ops, n);
      OthersTrip(e.trips, e.table, c.cooldown, ops[n].track, c.wires, ops[n].foot, ops[n].ts, track, tw.id);
    }
  }

  lemma {:induction false} TripFrom(sts: seq<Trip>, xs: seq<bool>, ops: seq<Op>, n: nat, track: int, tw: Tripwire)
    requires n <= |ops| == |xs| && |sts| == |ops| + 1 && sts[0] == UNSEEN
    requires forall a, b :: 0 <= a < |ops| && b == a + 1 ==> TripStep(sts[a], xs, ops, a, sts[b], track, tw)
    ensures TripReads(sts[n], xs, ops, n, track, tw)
  {
    if n > 0 {
      TripFrom(sts, xs, ops, n - 1, track, tw);
      TripReadsNext(sts[n - 1], xs, ops, n - 1, sts[n], track, tw);
    }
  }

  ghost function TripsAt(c: Settings, ops: seq<Op>, track: int, tw: Tripwire): (sts: seq<Trip>)
    ensures |sts| == |ops| + 1 && forall n :: 0 <= n <= |ops| ==> sts[n] == TripAt(c, ops, n, track, tw)
  {
    seq(|ops| + 1, n requires 0 <= n <= |ops| => TripAt(c, ops, n, track, tw))
  }

  /** In every run a wire's record of a track is what the walks so far say. */
  lemma TripIsPosition(c: Settings, ops: seq<Op>, n: nat, track: int, tw: Tripwire)
    requires n <= |ops| && Clocked(ops) && DistinctWires(c.wires) && tw in c.wires
    ensures TripReads(TripAt(c, ops, n, track, tw), CrossingsOf(c, ops, track, tw), ops, n, track, tw)
  {
    var sts, xs := TripsAt(c, ops, track, tw), CrossingsOf(c, ops, track, tw);
    forall a, b | 0 <= a < |ops| && b == a + 1 ensures TripStep(sts[a], xs, ops, a, sts[b], track, tw) {
      TripStepIs(c, ops, a, track, tw);
    }
    TripFrom(sts, xs, ops, n, track, tw);
  }

  function TripKey(c: Settings, track: int, tw: Tripwire, ts: real): Key { KeyFor("trip", tw.id, track, ts, c.cooldown) }

  /** A crossing under this dedup key was reported less than the cooldown before the n-th
      operation, with no reset in between. */
  ghost predicate CrossingHeldBack(c: Settings, ops: seq<Op>, n: nat, track: int, tw: Tripwire)
    requires n < |ops| && ops[n].Walk?
  {
    exists k :: 0 <= k < n && Crosses(c, ops, k, track, tw)
      && TripKey(c, track, tw, ops[k].ts) == TripKey(c, track, tw, ops[n].ts)
      && ops[n].ts - ops[k].ts < c.cooldown && NoReset(ops, k, n)
  }

  /** For each operation, its time if it reports the crossing under this key. */
  ghost function CrossedUnder(c: Settings, ops: seq<Op>, track: int, tw: Tripwire, key: Key): (us: seq<Option<real>>)
    ensures |us| == |ops|
  {
    seq(|ops|, k requires 0 <= k < |ops| =>
      if Crosses(c, ops, k, track, tw) && TripKey(c, track, tw, ops[k].ts) == key then Some(ops[k].ts) else None)
  }

  lemma CrossedRecorded(c: Settings, ops: seq<Op>, track: int, tw: Tripwire, key: Key)
    requires Clocked(ops)
    ensures var us := CrossedUnder(c, ops, track, tw, key);
            Recorded(us, ops) && forall k :: 0 <= k < |us| && us[k].Some? ==> ops[k].Walk? && us[k].value == ops[k].ts
  {
    var us := CrossedUnder(c, ops, track, tw, key);
    forall k | 0 <= k < |us| && us[k].Some? ensures ops[k].Walk? && us[k].value == ops[k].ts {
      assert Crosses(c, ops, k, track, tw);
    }
  }

  /** What one operation does to a crossing key of the whole table. */
  lemma NextAtTripKey(c: Settings, ops: seq<Op>, n: nat, track: int, tw: Tripwire, key: Key)
    requires n < |ops| && Clocked(ops) && DistinctWires(c.wires) && tw in c.wires
    requires key.rule == "trip" && key.item == tw.id && key.track == track
    ensures KeyStep(KeyAt(c, ops, n, key), ops[n], CrossedUnder(c, ops, track, tw, key)[n], KeyAt(c, ops, n + 1, key))
  {
    var w := AfterWhole(c, ops, n);
    if ops[n].Walk? {
      WireAmongWires(w.trips, w.table, c.cooldown, ops[n].track, c.wires, ops[n].foot, ops[n].ts, tw, key);
      if ops[n].track == track {
        WalkLooks(c, ops, n, track, tw);
        EnginePruningIsInvisible(c, ops, n);
      }
    }
  }

  lemma WholeTableReadsTrips(c: Settings, ops: seq<Op>, n: nat, track: int, tw: Tripwire, key: Key)
    requires n <= |ops| && Clocked(ops) && DistinctWires(c.wires) && tw in c.wires
    requires key.rule == "trip" && key.item == tw.id && key.track == track
    ensures KeyAt(c, ops, n, key) == LastReport(CrossedUnder(c, ops, track, tw, key), ops, n)
  {
    var us, ks := CrossedUnder(c, ops, track, tw, key), KeysAt(c, ops, key);
    forall a, b | 0 <= a < |ops| && b == a + 1 ensures KeyStep(ks[a], ops[a], us[a], ks[b]) {
      NextAtTripKey(c, ops, a, track, tw, key);
    }
    KeyFrom(ks, us, ops, n);
  }

  lemma CrossingHeldUnder(c: Settings, ops: seq<Op>, n: nat, track: int, tw: Tripwire)
    requires n < |ops| && ops[n].Walk?
    ensures var us := CrossedUnder(c, ops, track, tw, TripKey(c, track, tw, ops[n].ts));
            CrossingHeldBack(c, ops, n, track, tw) <==> HeldUnder(us, ops, n, ops[n].ts, c.cooldown)
  {
    var key := TripKey(c, track, tw, ops[n].ts);
    var us := CrossedUnder(c, ops, track, tw, key);
    if CrossingHeldBack(c, ops, n, track, tw) {
      var k :| 0 <= k < n && Crosses(c, ops, k, track, tw) && TripKey(c, track, tw, ops[k].ts) == key
        && ops[n].ts - ops[k].ts < c.cooldown && NoReset(ops, k, n);
      assert us[k] == Some(ops[k].ts);
    }
    if HeldUnder(us, ops, n, ops[n].ts, c.cooldown) {
      var k :| 0 <= k < n && us[k].Some? && ops[n].ts - us[k].value < c.cooldown && NoReset(ops, k, n);
      assert Crosses(c, ops, k, track, tw);
    }
  }

  lemma CrossingDedup(c: Settings, ops: seq<Op>, n: nat, track: int, tw: Tripwire)
    requires n < |ops| && Clocked(ops) && DistinctWires(c.wires) && tw in c.wires && ops[n].Walk?
    ensures Emits(Whole, AfterWhole(c, ops, n).table, c.cooldown, TripKey(c, track, tw, ops[n].ts), ops[n].ts).0
       <==> !CrossingHeldBack(c, ops, n, track, tw)
  {
    var ts, key := ops[n].ts, TripKey(c, track, tw, ops[n].ts);
    var us := CrossedUnder(c, ops, track, tw, key);
    CrossedRecorded(c, ops, track, tw, key);
    CrossingHeldUnder(c, ops, n, track, tw);
    LastReportHolds(us, ops, n, ts, c.cooldown);
    WholeTableReadsTrips(c, ops, n, track, tw, key);
    if LastReport(us, ops, n).Some? {
      var k := LastReportIs(us, ops, n);
    }
  }

  /** The track goes from one side of the wire to the other, strictly and in its direction,
      and the step meets the wire itself. */
  ghost predicate StepsAcross(tw: Tripwire, p: Point, q: Point) {
    && ((Side(tw, p) < 0.0 < Side(tw, q) && !tw.direction.OutsideToInside?)
        || (Side(tw, q) < 0.0 < Side(tw, p) && !tw.direction.InsideToOutside?))
    && Meet(p, q, tw.p1, tw.p2)
  }

  /** When the look at such a record fires, the dedup table aside. */
  lemma LookFires(st: Trip, table: Table, cooldown: real, xs: seq<bool>, ops: seq<Op>, n: nat, track: int, tw: Tripwire)
    requires n < |ops| == |xs| && Walks(ops[n], track) && TripReads(st, xs, ops, n, track, tw)
    ensures var p := Position(xs, ops, n, track, tw);
            WatchBy(Whole, tw, st, table, cooldown, track, ops[n].foot, ops[n].ts).2 <==>
              && p.Some? && StepsAcross(tw, ops[p.value].foot, ops[n].foot)
              && (xs[p.value] ==> FarFrom(tw, ops[n], ops[p.value]))
              && Emits(Whole, table, cooldown, KeyFor("trip", tw.id, track, ops[n].ts, cooldown), ops[n].ts).0
  {
    WatchMeaning(Whole, tw, st, table, cooldown, track, ops[n].foot, ops[n].ts);
  }

  /** In every run with a clock that never steps back and wires of different ids, a walk
      reports that its track crosses a wire exactly when it steps across it from the
      position held, has gone farther from there than the hysteresis if the wire was last
      crossed there, and no report under the same dedup key holds it back. */
  lemma CrossesExactly(c: Settings, ops: seq<Op>, n: nat, track: int, tw: Tripwire)
    requires n < |ops| && Clocked(ops) && DistinctWires(c.wires) && tw in c.wires && Walks(ops[n], track)
    ensures var xs := CrossingsOf(c, ops, track, tw);
            var p := Position(xs, ops, n, track, tw);
            xs[n] <==>
              && p.Some? && StepsAcross(tw, ops[p.value].foot, ops[n].foot)
              && (xs[p.value] ==> FarFrom(tw, ops[n], ops[p.value]))
              && !CrossingHeldBack(c, ops, n, track, tw)
  {
    TripIsPosition(c, ops, n, track, tw);
    WalkLooks(c, ops, n, track, tw);
    CrossingDedup(c, ops, n, track, tw);
    LookFires(TripAt(c, ops, n, track, tw), AfterWhole(c, ops, n).table, c.cooldown, CrossingsOf(c, ops, track, tw),
              ops, n, track, tw);
  }

  // ------------------------------------------------------------------- the engine

  function LookAll(e: Engine, c: Settings, track: int, zones: seq<string>, inside: seq<bool>, ts: real)
    : (Engine, seq<string>)
    requires |inside| == |zones|
  {
    if zones == [] then (e, []) else
    var n := |zones| - 1;
    var (e1, reports) := LookAll(e, c, track, zones[..n], inside[..n], ts);
    var (e2, b) := Observe(e1, c, track, zones[n], inside[n], ts);
    (e2, if b then reports + [zones[n]] else reports)
  }

  class RuleEngine {
    var zones: seq<string>
    const settings: Settings
    var tripState: TripMap
    var loiterState: LoiterMap
    var lastEventAt: Table

    ghost function View(): Engine
      reads this
    {
      Engine(loiterState, tripState, lastEventAt)
    }

    /** Tracks some rule still remembers. */
    ghost function Remembered(): set<int>
      reads this
    {
      tripState.Keys + loiterState.Keys
    }

    constructor (settings: Settings)
      ensures View() == START && Remembered() == {} && this.settings == settings && zones == []
    {
      this.settings, zones := settings, [];
      tripState, loiterState, lastEventAt := map[], map[], map[];
    }

    method ShouldEmitAt(key: Key, now: real) returns (ok: bool)
      modifies `lastEventAt
      ensures (ok, lastEventAt) == ShouldEmit(old(lastEventAt), settings.cooldown, key, now)
    {
      if settings.cooldown <= 0.0 {
        lastEventAt := lastEventAt[key := now];
        return true;
      }
      if key in lastEventAt && now - lastEventAt[key] < settings.cooldown {
        return false;
      }
      lastEventAt := lastEventAt[key := now];
      if |lastEventAt| > 1000 {
        var cutoff := now - Max(settings.cooldown * 2.0, 60.0);
        lastEventAt := map k | k in lastEventAt && lastEventAt[k] >= cutoff :: lastEventAt[k];
      }
      return true;
    }

    /** An inside look at a track with loiter state l0. */
    method LookInside(l0: Loiter, track: int, zone: string, ts: real) returns (l: Loiter, reported: bool)
      modifies `lastEventAt
      ensures var key := KeyFor("loiter", zone, track, ts, settings.cooldown);
              if Due(l0, settings, ts)
              then (reported, lastEventAt) == ShouldEmit(old(lastEventAt), settings.cooldown, key, ts)
              else !reported && lastEventAt == old(lastEventAt)
      ensures l == Loiter(Some(if l0.enterTs.None? then ts else l0.enterTs.value), l0.triggered || reported, 0)
    {
      l, reported := l0.(outsideStreak := 0), false;
      if l.enterTs.None? {
        l := l.(enterTs := Some(ts));
      }
      if ts - l.enterTs.value >= settings.loiterS && !l.triggered {
        reported := ShouldEmitAt(KeyFor("loiter", zone, track, ts, settings.cooldown), ts);
        if reported {
          l := l.(triggered := true);
        }
      }
    }

    /** The body of the zone loop. */
    method CheckZone(track: int, zone: string, inside: bool, ts: real) returns (reported: bool)
      modifies `loiterState, `lastEventAt
      ensures (View(), reported) == Observe(old(View()), settings, track, zone, inside, ts)
      ensures loiterState.Keys == old(loiterState).Keys + {track}
    {
      var l := LoiterOf(loiterState, track, zone);
      reported := false;
      if inside {
        l, reported := LookInside(l, track, zone, ts);
      } else {
        l := l.(outsideStreak := l.outsideStreak + 1);
        if l.outsideStreak >= 3 {
          l := l.(enterTs := None, triggered := false);
        }
      }
      loiterState := SetLoiter(loiterState, track, zone, l);
    }

    method CheckZones(track: int, inside: seq<bool>, ts: real) returns (reports: seq<string>)
      requires |inside| == |zones|
      modifies `loiterState, `lastEventAt
      ensures (View(), reports) == LookAll(old(View()), settings, track, zones, inside, ts)
      ensures Remembered() <= old(Remembered()) + {track}
    {
      reports := [];
      for i := 0 to |zones|
        invariant (View(), reports) == LookAll(old(View()), settings, track, zones[..i], inside[..i], ts)
        invariant Remembered() <= old(Remembered()) + {track}
      {
        assert zones[..i + 1][..i] == zones[..i] && inside[..i + 1][..i] == inside[..i];
        var b := CheckZone(track, zones[i], inside[i], ts);
        if b {
          reports := reports + [zones[i]];
        }
      }
      assert zones[..|zones|] == zones && inside[..|zones|] == inside;
    }

    /** The body of the wire loop. */
    method CheckTripwire(tw: Tripwire, st0: Trip, track: int, foot: Point, ts: real) returns (st: Trip, reported: bool)
      modifies `lastEventAt
      ensures (st, lastEventAt, reported) == Watch(tw, st0, old(lastEventAt), settings.cooldown, track, foot, ts)
    {
      st, reported := st0, false;
      var (a, b) := Canonical(tw);
      var side := Side(tw, foot);
      if !st.armed {
        if st.lastSide.Some? && Abs(side - st.lastSide.value) > tw.hysteresis {
          st := st.(armed := true);
        } else {
          return;
        }
      }
      if st.lastSide.None? || st.lastPos.None? {
        st := st.(lastSide := Some(side), lastPos := Some(foot));
        return;
      }
      var before := st.lastSide.value;
      if before * side < 0.0 && Intersect(st.lastPos.value, foot, a, b) && DirectionOk(tw.direction, before, side) {
        reported := ShouldEmitAt(KeyFor("trip", tw.id, track, ts, settings.cooldown), ts);
        if reported {
          st := st.(armed := false, lastCross := ts);
        }
      }
      st := st.(lastSide := Some(side), lastPos := Some(foot));
    }

    method CheckTripwires(track: int, foot: Point, ts: real) returns (reports: seq<string>)
      modifies `tripState, `lastEventAt
      ensures View() == Step(old(View()), settings, Walk(track, foot, ts)).0
      ensures reports == WatchAll(old(tripState), old(lastEventAt), settings.cooldown, track, settings.wires, foot, ts).2
      ensures Remembered() <= old(Remembered()) + {track}
    {
      reports := [];
      for i := 0 to |settings.wires|
        invariant (tripState, lastEventAt, reports)
                  == WatchAll(old(tripState), old(lastEventAt), settings.cooldown, track, settings.wires[..i], foot, ts)
        invariant Remembered() <= old(Remembered()) + {track}
      {
        assert settings.wires[..i + 1][..i] == settings.wires[..i];
        var tw := settings.wires[i];
        var st, b := CheckTripwire(tw, TripOf(tripState, track, tw.id), track, foot, ts);
        tripState := tripState[track := (if track in tripState then tripState[track] else map[])[tw.id := st]];
        if b {
          reports := reports + [tw.id];
        }
      }
      assert settings.wires[..|settings.wires|] == settings.wires;
    }

    method PruneTrack(track: int)
      modifies `tripState, `loiterState
      ensures View() == Step(old(View()), settings, Prune(track)).0
      ensures Remembered() == old(Remembered()) - {track}
    {
      tripState := tripState - {track};
      loiterState := loiterState - {track};
    }

    method ResetAll()
      modifies `tripState, `loiterState, `lastEventAt
      ensures View() == Step(old(View()), settings, Reset).0
      ensures Remembered() == {}
    {
      tripState, loiterState, lastEventAt := map[], map[], map[];
    }
  }
}
