/** Temporal consensus of plate reads: one sliding window per vehicle and epoch. */
module PlateVotes {
  import opened Basics

  const WINDOW := 10

  datatype Key = Key(epoch: int, vehicle: int)

  /** order: the history table's insertion order. */
  datatype Votes = Votes(history: map<Key, seq<string>>, order: seq<Key>, lastActive: map<Key, real>)

  const EMPTY := Votes(map[], [], map[])

  /** One call: a normalised read, or the eviction of vehicles that are gone. */
  datatype Op = Vote(vehicle: int, text: string, epoch: int, now: real)
              | EvictDead(active: Option<set<int>>, epoch: int, now: real, grace: real)

  // --------------------------------------------------------------------- the window

  function LastTen(s: seq<string>): seq<string> {
    if |s| > WINDOW then s[|s| - WINDOW..] else s
  }

  function Count(s: seq<string>, x: string): nat {
    if s == [] then 0 else (if s[0] == x then 1 else 0) + Count(s[1..], x)
  }

  lemma {:induction false} CountIsMultiplicity(s: seq<string>, x: string)
    ensures Count(s, x) == multiset(s)[x]
  {
    if s != [] {
      CountIsMultiplicity(s[1..], x);
      assert s == [s[0]] + s[1..];
    }
  }

  /** Where x occurs first. */
  function FirstAt(s: seq<string>, x: string): (k: nat)
    requires x in s
    ensures k < |s| && s[k] == x && forall a :: 0 <= a < k ==> s[a] != x
  {
    if s[0] == x then 0 else 1 + FirstAt(s[1..], x)
  }

  /** The winner: no text has more votes, and of those with as many it was read
      first. */
  ghost predicate Consensus(s: seq<string>, w: string) {
    && w in s
    && forall x :: x in s ==> Count(s, x) < Count(s, w) || (Count(s, x) == Count(s, w) && FirstAt(s, w) <= FirstAt(s, x))
  }

  method MostCommon(s: seq<string>) returns (w: string)
    requires s != []
    ensures Consensus(s, w)
  {
    w := s[0];
    for i := 1 to |s|
      invariant w in s && FirstAt(s, w) < i
      invariant forall a :: 0 <= a < i ==>
                  Count(s, s[a]) < Count(s, w) || (Count(s, s[a]) == Count(s, w) && FirstAt(s, w) <= FirstAt(s, s[a]))
    {
      if Count(s, s[i]) > Count(s, w) {
        w := s[i];
      }
    }
  }

  // --------------------------------------------------------------------- the steps

  function Without(order: seq<Key>, gone: set<Key>): (r: seq<Key>)
    ensures forall k :: k in r <==> k in order && k !in gone
  {
    if order == [] then []
    else if order[0] in gone then Without(order[1..], gone)
    else [order[0]] + Without(order[1..], gone)
  }

  function Drop(v: Votes, gone: set<Key>): Votes {
    Votes(v.history - gone, Without(v.order, gone), v.lastActive - gone)
  }

  /** Append a read to its window, opening the window if there is none. */
  function Cast(v: Votes, key: Key, text: string, now: real): Votes {
    Votes(v.history[key := LastTen((if key in v.history then v.history[key] else []) + [text])],
          if key in v.history then v.order else v.order + [key],
          v.lastActive[key := now])
  }

  /** A window of another epoch, or of a vehicle that is gone and past its grace. */
  predicate Dead(v: Votes, active: Option<set<int>>, epoch: int, now: real, grace: real, k: Key) {
    || k.epoch != epoch
    || (active.Some? && k.vehicle !in active.value
        && now - (if k in v.lastActive then v.lastActive[k] else 0.0) >= grace)
  }

  function DeadKeys(v: Votes, active: Option<set<int>>, epoch: int, now: real, grace: real): set<Key> {
    set k | k in v.history && Dead(v, active, epoch, now, grace, k)
  }

  /** The windows of other epochs. */
  function ForeignKeys(v: Votes, epoch: int): set<Key> { DeadKeys(v, None, epoch, 0.0, 0.0) }

  /** Past the capacity, the oldest window goes unless it is the one just voted in. */
  function Trim(v: Votes, capacity: nat, key: Key): Votes {
    if |v.history| > capacity && v.order != [] && v.order[0] != key then Drop(v, {v.order[0]}) else v
  }

  function Step(v: Votes, capacity: nat, op: Op): Votes {
    match op
    case Vote(vehicle, text, epoch, now) =>
      Trim(Cast(Drop(v, ForeignKeys(v, epoch)), Key(epoch, vehicle), text, now), capacity, Key(epoch, vehicle))
    case EvictDead(active, epoch, now, grace) => Drop(v, DeadKeys(v, active, epoch, now, grace))
  }

  // ------------------------------------------------------------------------ invariant

  ghost predicate Unique(order: seq<Key>) { forall a, b :: 0 <= a < b < |order| ==> order[a] != order[b] }

  /** The three tables agree, and windows are never empty nor longer than ten. */
  ghost predicate Tables(v: Votes) {
    && Unique(v.order) && (forall k :: k in v.order <==> k in v.history)
    && (forall k :: k in v.lastActive <==> k in v.history)
    && (forall k :: k in v.history ==> 1 <= |v.history[k]| <= WINDOW)
  }

  /** With the number of windows within the capacity, or down to one. */
  ghost predicate Inv(v: Votes, capacity: nat) { Tables(v) && (|v.history| <= capacity || |v.history| <= 1) }

  lemma {:induction false} WithoutUnique(order: seq<Key>, gone: set<Key>)
    requires Unique(order)
    ensures Unique(Without(order, gone))
  {
    if order != [] {
      assert forall a :: 0 <= a < |order[1..]| ==> order[1..][a] == order[a + 1];
      WithoutUnique(order[1..], gone);
      assert order[0] !in order[1..];
    }
  }

  lemma DropTables(v: Votes, gone: set<Key>)
    requires Tables(v)
    ensures Tables(Drop(v, gone))
  {
    WithoutUnique(v.order, gone);
  }

  lemma DropSize<V>(m: map<Key, V>, gone: set<Key>)
    ensures |m - gone| <= |m|
    ensures forall k :: k in m && gone == {k} ==> |m - gone| == |m| - 1
  {
    assert (m - gone).Keys == m.Keys - gone;
    assert |(m - gone).Keys| <= |m.Keys| by {
      assert m.Keys == (m.Keys - gone) + (m.Keys * gone);
    }
  }

  /** The dead among some keys, collected one at a time. */
  ghost function DeadIn(v: Votes, active: Option<set<int>>, epoch: int, now: real, grace: real, keys: seq<Key>): set<Key> {
    if keys == [] then {} else
    var n := |keys| - 1;
    DeadIn(v, active, epoch, now, grace, keys[..n]) + (if Dead(v, active, epoch, now, grace, keys[n]) then {keys[n]} else {})
  }

  lemma {:induction false} DeadInMeaning(v: Votes, active: Option<set<int>>, epoch: int, now: real, grace: real,
                                         keys: seq<Key>)
    ensures forall k :: k in DeadIn(v, active, epoch, now, grace, keys)
                   <==> k in keys && Dead(v, active, epoch, now, grace, k)
  {
    if keys != [] {
      var n := |keys| - 1;
      DeadInMeaning(v, active, epoch, now, grace, keys[..n]);
      assert keys == keys[..n] + [keys[n]];
    }
  }

  lemma DeadInAll(v: Votes, active: Option<set<int>>, epoch: int, now: real, grace: real)
    requires Tables(v)
    ensures DeadIn(v, active, epoch, now, grace, v.order) == DeadKeys(v, active, epoch, now, grace)
  {
    DeadInMeaning(v, active, epoch, now, grace, v.order);
  }

  /** One more key: it is new, and joins the dead if it is one of them. */
  lemma DeadInNext(v: Votes, active: Option<set<int>>, epoch: int, now: real, grace: real, keys: seq<Key>, i: nat)
    requires Unique(keys) && i < |keys|
    ensures keys[i] !in DeadIn(v, active, epoch, now, grace, keys[..i])
    ensures DeadIn(v, active, epoch, now, grace, keys[..i + 1])
         == if Dead(v, active, epoch, now, grace, keys[i]) then DeadIn(v, active, epoch, now, grace, keys[..i]) + {keys[i]}
            else DeadIn(v, active, epoch, now, grace, keys[..i])
  {
    DeadInMeaning(v, active, epoch, now, grace, keys[..i]);
    assert keys[..i + 1][..i] == keys[..i];
  }

  lemma DropCount<V>(m: map<Key, V>, gone: set<Key>)
    requires gone <= m.Keys
    ensures |m - gone| == |m| - |gone|
  {
    assert (m - gone).Keys == m.Keys - gone;
  }

  lemma {:induction false} WithoutTwice(order: seq<Key>, a: set<Key>, b: set<Key>)
    ensures Without(Without(order, a), b) == Without(order, a + b)
  {
    if order != [] {
      WithoutTwice(order[1..], a, b);
      if order[0] !in a {
        var rest := Without(order[1..], a);
        assert ([order[0]] + rest)[1..] == rest;
      }
    }
  }

  lemma DropOneMore(v: Votes, gone: set<Key>, k: Key)
    ensures Drop(Drop(v, gone), {k}) == Drop(v, gone + {k})
  {
    WithoutTwice(v.order, gone, {k});
    assert v.history - gone - {k} == v.history - (gone + {k});
    assert v.lastActive - gone - {k} == v.lastActive - (gone + {k});
  }

  lemma {:induction false} WithoutNone(order: seq<Key>)
    ensures Without(order, {}) == order
  {
    if order != [] {
      WithoutNone(order[1..]);
    }
  }

  lemma DropNone(v: Votes)
    ensures Drop(v, {}) == v
  {
    WithoutNone(v.order);
    assert v.history - {} == v.history && v.lastActive - {} == v.lastActive;
  }

  lemma CastSize<V>(m: map<Key, V>, key: Key, x: V)
    ensures |m[key := x]| == |m| + (if key in m then 0 else 1)
  {
    assert m[key := x].Keys == m.Keys + {key};
  }

  lemma DropKeeps(v: Votes, capacity: nat, gone: set<Key>)
    requires Inv(v, capacity)
    ensures Inv(Drop(v, gone), capacity)
  {
    DropTables(v, gone);
    DropSize(v.history, gone);
  }

  lemma CastTables(v: Votes, key: Key, text: string, now: real)
    requires Tables(v)
    ensures Tables(Cast(v, key, text, now))
  {
  }

  /** One window too many is trimmed away. */
  lemma TrimKeeps(v: Votes, capacity: nat, key: Key)
    requires Tables(v) && key in v.history && (|v.history| <= capacity + 1 || |v.history| <= 2)
    requires v.order[0] == key ==> |v.history| <= capacity || |v.history| <= 1
    ensures Inv(Trim(v, capacity, key), capacity) && key in Trim(v, capacity, key).history
  {
    var first := v.order[0];
    if first != key {
      DropTables(v, {first});
      DropSize(v.history, {first});
      assert first in v.order;
    }
  }

  lemma NoKeys(v: Votes)
    requires Tables(v) && v.order == []
    ensures |v.history| == 0
  {
    assert forall k :: k !in v.history;
    assert v.history == map[];
  }

  lemma CastKeeps(v: Votes, capacity: nat, key: Key, text: string, now: real)
    requires Inv(v, capacity)
    ensures Inv(Trim(Cast(v, key, text, now), capacity, key), capacity)
    ensures key in Trim(Cast(v, key, text, now), capacity, key).history
  {
    var v1 := Cast(v, key, text, now);
    CastTables(v, key, text, now);
    CastSize(v.history, key, v1.history[key]);
    assert key in v1.order;
    if key !in v.history {
      if v.order == [] {
        NoKeys(v);
      } else {
        assert v.order[0] in v.order && v1.order[0] == v.order[0];
      }
    }
    TrimKeeps(v1, capacity, key);
  }

  lemma OnlyThisEpoch(v: Votes, capacity: nat, op: Op, k: Key)
    requires k in Step(v, capacity, op).history
    ensures k.epoch == op.epoch
  {
  }

  /** Every call keeps the tables in step; after a vote only its own epoch is left, and
      its window is there. */
  lemma StepKeeps(v: Votes, capacity: nat, op: Op)
    requires Inv(v, capacity)
    ensures Inv(Step(v, capacity, op), capacity)
    ensures forall k :: k in Step(v, capacity, op).history ==> k.epoch == op.epoch
    ensures op.Vote? ==> Key(op.epoch, op.vehicle) in Step(v, capacity, op).history
  {
    forall k | k in Step(v, capacity, op).history ensures k.epoch == op.epoch {
      OnlyThisEpoch(v, capacity, op, k);
    }
    match op
    case EvictDead(active, epoch, now, grace) => DropKeeps(v, capacity, DeadKeys(v, active, epoch, now, grace));
    case Vote(vehicle, text, epoch, now) =>
      DropKeeps(v, capacity, ForeignKeys(v, epoch));
      CastKeeps(Drop(v, ForeignKeys(v, epoch)), capacity, Key(epoch, vehicle), text, now);
  }

  // ------------------------------------------------------------------------- all runs

  predicate StepsTo(v: Votes, capacity: nat, op: Op, v': Votes) { v' == Step(v, capacity, op) }

  /** The states a sequence of calls goes through. */
  ghost predicate IsRun(states: seq<Votes>, capacity: nat, ops: seq<Op>) {
    && |states| == |ops| + 1 && states[0] == EMPTY
    && forall n, m :: 0 <= n < |ops| && m == n + 1 ==> StepsTo(states[n], capacity, ops[n], states[m])
  }

  /** The reads of one key among operations i to n. */
  ghost function Reads(ops: seq<Op>, i: nat, n: nat, key: Key): seq<string>
    requires i <= n <= |ops|
  {
    if i == n then []
    else if ops[n - 1].Vote? && Key(ops[n - 1].epoch, ops[n - 1].vehicle) == key
    then Reads(ops, i, n - 1, key) + [ops[n - 1].text]
    else Reads(ops, i, n - 1, key)
  }

  /** A step leaves a surviving window alone unless it votes in it. */
  lemma StepWindow(v: Votes, capacity: nat, op: Op, key: Key)
    requires key in Step(v, capacity, op).history
    ensures Step(v, capacity, op).history[key]
            == if op.Vote? && Key(op.epoch, op.vehicle) == key
               then LastTen((if key in v.history then v.history[key] else []) + [op.text])
               else if key in v.history then v.history[key] else Step(v, capacity, op).history[key]
    ensures key in v.history || (op.Vote? && Key(op.epoch, op.vehicle) == key)
  {
  }

  function WindowOf(v: Votes, key: Key): Option<seq<string>> {
    if key in v.history then Some(v.history[key]) else None
  }

  /** What a step does to one window, from before to after. */
  ghost predicate WindowStep(w: Option<seq<string>>, op: Op, w': Option<seq<string>>, key: Key) {
    w'.Some? ==>
      && op.epoch == key.epoch
      && (w.None? ==> op.Vote? && Key(op.epoch, op.vehicle) == key && w'.value == [op.text])
      && (w.Some? ==> w'.value == if op.Vote? && Key(op.epoch, op.vehicle) == key
                                  then LastTen(w.value + [op.text]) else w.value)
  }

  lemma StepIsWindowStep(v: Votes, capacity: nat, op: Op, v': Votes, key: Key)
    requires Inv(v, capacity) && StepsTo(v, capacity, op, v')
    ensures Inv(v', capacity) && WindowStep(WindowOf(v, key), op, WindowOf(v', key), key)
  {
    StepKeeps(v, capacity, op);
    if key in v'.history {
      StepWindow(v, capacity, op, key);
    }
  }

  lemma {:induction false} RunInv(states: seq<Votes>, capacity: nat, ops: seq<Op>, n: nat)
    requires IsRun(states, capacity, ops) && n <= |ops|
    ensures Inv(states[n], capacity)
  {
    if n > 0 {
      RunInv(states, capacity, ops, n - 1);
      StepIsWindowStep(states[n - 1], capacity, ops[n - 1], states[n], Key(0, 0));
    }
  }

  lemma LastTenSnoc(s: seq<string>, x: string)
    ensures LastTen(LastTen(s) + [x]) == LastTen(s + [x])
  {
  }

  lemma ReadsSnoc(ops: seq<Op>, i: nat, n: nat, key: Key)
    requires i < n <= |ops|
    ensures Reads(ops, i, n, key)
            == if ops[n - 1].Vote? && Key(ops[n - 1].epoch, ops[n - 1].vehicle) == key
               then Reads(ops, i, n - 1, key) + [ops[n - 1].text] else Reads(ops, i, n - 1, key)
  {
  }

  lemma WindowGrows(w: seq<string>, op: Op, w': seq<string>, key: Key, ops: seq<Op>, i: nat, n: nat)
    requires i < n <= |ops| && op == ops[n - 1] && w == LastTen(Reads(ops, i, n - 1, key))
    requires w' == if op.Vote? && Key(op.epoch, op.vehicle) == key then LastTen(w + [op.text]) else w
    ensures w' == LastTen(Reads(ops, i, n, key))
  {
    ReadsSnoc(ops, i, n, key);
    if op.Vote? {
      LastTenSnoc(Reads(ops, i, n - 1, key), op.text);
    }
  }

  /** A run of such steps, followed for one window back to the step that opened it. */
  lemma {:induction false} WindowFrom(ws: seq<Option<seq<string>>>, ops: seq<Op>, n: nat, key: Key) returns (i: nat)
    requires |ws| == |ops| + 1 && n <= |ops| && ws[n].Some? && ws[0].None?
    requires forall a, b :: 0 <= a < |ops| && b == a + 1 ==> WindowStep(ws[a], ops[a], ws[b], key)
    ensures i < n && ops[i].Vote? && Key(ops[i].epoch, ops[i].vehicle) == key
    ensures ws[i].None? && forall k :: i < k <= n ==> ws[k].Some?
    ensures ws[n].value == LastTen(Reads(ops, i, n, key))
    ensures forall k :: i <= k < n ==> ops[k].epoch == key.epoch
    decreases n
  {
    assert WindowStep(ws[n - 1], ops[n - 1], ws[n], key);
    if ws[n - 1].Some? {
      i := WindowFrom(ws, ops, n - 1, key);
      WindowGrows(ws[n - 1].value, ops[n - 1], ws[n].value, key, ops, i, n);
    } else {
      i := n - 1;
      ReadsSnoc(ops, i, n, key);
    }
  }

  /** The window is the last `most` of all reads, or all of them. */
  ghost predicate LastOnes(window: seq<string>, all: seq<string>, most: nat) {
    && |window| == (if |all| <= most then |all| else most)
    && forall k :: 0 <= k < |window| ==> window[k] == all[|all| - |window| + k]
  }

  lemma LastTenIs(s: seq<string>)
    ensures LastOnes(LastTen(s), s, 10)
  {
  }

  /** Every window is exactly the last ten reads, or all of them, of its own vehicle
      since the read that opened it; from then on every call belonged to its epoch. */
  lemma WindowIsRecentReads(states: seq<Votes>, capacity: nat, ops: seq<Op>, n: nat, key: Key) returns (i: nat)
    requires IsRun(states, capacity, ops) && n <= |ops| && key in states[n].history
    ensures i < n && ops[i].Vote? && Key(ops[i].epoch, ops[i].vehicle) == key
    ensures key !in states[i].history && forall k :: i < k <= n ==> key in states[k].history
    ensures LastOnes(states[n].history[key], Reads(ops, i, n, key), 10)
    ensures forall k :: i <= k < n ==> ops[k].epoch == key.epoch
  {
    var ws := seq(|states|, a requires 0 <= a < |states| => WindowOf(states[a], key));
    forall a, b | 0 <= a < |ops| && b == a + 1 ensures WindowStep(ws[a], ops[a], ws[b], key) {
      RunInv(states, capacity, ops, a);
      StepIsWindowStep(states[a], capacity, ops[a], states[b], key);
    }
    i := WindowFrom(ws, ops, n, key);
    LastTenIs(Reads(ops, i, n, key));
    forall k | i < k <= n ensures key in states[k].history {
      assert ws[k].Some?;
    }
  }

  // ------------------------------------------------------------- when a window goes

  ghost predicate OneEpoch(v: Votes) {
    forall j, k :: j in v.history && k in v.history ==> j.epoch == k.epoch
  }

  lemma OnlyKey<V>(m: map<Key, V>, j: Key, k: Key)
    requires |m| <= 1 && j in m && k in m
    ensures j == k
  {
    if j != k {
      assert |m.Keys - {j}| >= 1 by {
        assert k in m.Keys - {j};
      }
    }
  }

  /** Voting in a window, and then at most one other going. */
  lemma TrimGoes(v: Votes, capacity: nat, key: Key, text: string, now: real, k: Key)
    requires Inv(v, capacity) && k in v.history
    ensures k !in Trim(Cast(v, key, text, now), capacity, key).history
       <==> key !in v.history && capacity <= |v.history| && v.order[0] == k
  {
    var cast := Cast(v, key, text, now);
    CastSize(v.history, key, cast.history[key]);
    assert k in v.order && cast.order[0] == v.order[0];
    assert v.order[0] in v.history && k in cast.history;
    if key in v.history && |v.history| > capacity {
      OnlyKey(v.history, key, v.order[0]);
    }
  }

  lemma SameEpochStays(v: Votes, epoch: int)
    requires forall k :: k in v.history ==> k.epoch == epoch
    ensures Drop(v, ForeignKeys(v, epoch)) == v
  {
    assert ForeignKeys(v, epoch) == {};
    WithoutNone(v.order);
  }

  lemma EvictGoes(v: Votes, active: Option<set<int>>, epoch: int, now: real, grace: real, k: Key)
    requires Tables(v) && k in v.history
    ensures k !in Drop(v, DeadKeys(v, active, epoch, now, grace)).history <==>
              epoch != k.epoch
              || (active.Some? && k.vehicle !in active.value && k in v.lastActive && grace <= now - v.lastActive[k])
  {
  }

  lemma VoteGoes(v: Votes, capacity: nat, op: Op, k: Key)
    requires Inv(v, capacity) && OneEpoch(v) && k in v.history && op.Vote?
    ensures k !in Step(v, capacity, op).history <==>
              op.epoch != k.epoch
              || (Key(op.epoch, op.vehicle) !in v.history && capacity <= |v.history| && v.order[0] == k)
  {
    if op.epoch == k.epoch {
      SameEpochStays(v, op.epoch);
      TrimGoes(v, capacity, Key(op.epoch, op.vehicle), op.text, op.now, k);
    } else if k in Step(v, capacity, op).history {
      OnlyThisEpoch(v, capacity, op, k);
    }
  }

  /** A window goes in a call exactly when the call is of another epoch, or evicts and the
      vehicle is not among the live ones and was last read the grace or longer ago, or
      opens another window at full capacity and this one is first in line. */
  lemma WindowGoesExactly(v: Votes, capacity: nat, op: Op, k: Key)
    requires Inv(v, capacity) && OneEpoch(v) && k in v.history
    ensures k !in Step(v, capacity, op).history <==>
              || op.epoch != k.epoch
              || (op.EvictDead? && op.active.Some? && k.vehicle !in op.active.value
                  && k in v.lastActive && op.grace <= op.now - v.lastActive[k])
              || (op.Vote? && Key(op.epoch, op.vehicle) !in v.history && capacity <= |v.history| && v.order[0] == k)
  {
    match op
    case EvictDead(active, epoch, now, grace) => EvictGoes(v, active, epoch, now, grace, k);
    case Vote(_, _, _, _) => VoteGoes(v, capacity, op, k);
  }

  lemma StepOneEpoch(v: Votes, capacity: nat, op: Op, v': Votes)
    requires Inv(v, capacity) && StepsTo(v, capacity, op, v')
    ensures OneEpoch(v')
  {
    StepKeeps(v, capacity, op);
  }

  /** Every state of a run holds windows of one epoch. */
  lemma RunOneEpoch(states: seq<Votes>, capacity: nat, ops: seq<Op>, n: nat)
    requires IsRun(states, capacity, ops) && n <= |ops|
    ensures OneEpoch(states[n])
  {
    if n > 0 {
      RunInv(states, capacity, ops, n - 1);
      StepOneEpoch(states[n - 1], capacity, ops[n - 1], states[n]);
    }
  }

  function ClockOf(v: Votes, key: Key): Option<real> {
    if key in v.history && key in v.lastActive then Some(v.lastActive[key]) else None
  }

  predicate IsRead(op: Op, key: Key) { op.Vote? && Key(op.epoch, op.vehicle) == key }

  /** What a call does to the activity clock of one window, from before to after. */
  predicate ClockStep(c: Option<real>, op: Op, c': Option<real>, key: Key) {
    c'.Some? ==> if IsRead(op, key) then c' == Some(op.now) else c == c'
  }

  lemma StepClock(v: Votes, capacity: nat, op: Op, key: Key)
    requires Tables(v) && key in Step(v, capacity, op).history
    ensures var v' := Step(v, capacity, op);
            key in v'.lastActive &&
            if IsRead(op, key) then v'.lastActive[key] == op.now
            else key in v.history && key in v.lastActive && v'.lastActive[key] == v.lastActive[key]
  {
  }

  lemma StepIsClockStep(v: Votes, capacity: nat, op: Op, v': Votes, key: Key)
    requires Tables(v) && StepsTo(v, capacity, op, v')
    ensures ClockStep(ClockOf(v, key), op, ClockOf(v', key), key)
  {
    if key in v'.history {
      StepClock(v, capacity, op, key);
    }
  }

  /** Such steps, followed back to the last read. */
  lemma {:induction false} ClockFrom(cs: seq<Option<real>>, ops: seq<Op>, n: nat, key: Key) returns (i: nat)
    requires |cs| == |ops| + 1 && n <= |ops| && cs[n].Some? && cs[0].None?
    requires forall a, b :: 0 <= a < |ops| && b == a + 1 ==> ClockStep(cs[a], ops[a], cs[b], key)
    ensures i < n && IsRead(ops[i], key) && cs[n] == Some(ops[i].now)
    ensures forall k :: i < k < n ==> !IsRead(ops[k], key)
    decreases n
  {
    assert ClockStep(cs[n - 1], ops[n - 1], cs[n], key);
    if IsRead(ops[n - 1], key) {
      i := n - 1;
    } else {
      i := ClockFrom(cs, ops, n - 1, key);
    }
  }

  /** In every run the clock of a window is the time of its vehicle's last read. */
  lemma ClockIsLastRead(states: seq<Votes>, capacity: nat, ops: seq<Op>, n: nat, key: Key) returns (i: nat)
    requires IsRun(states, capacity, ops) && n <= |ops| && key in states[n].history
    ensures i < n && IsRead(ops[i], key) && (forall k :: i < k < n ==> !IsRead(ops[k], key))
    ensures key in states[n].lastActive && states[n].lastActive[key] == ops[i].now
  {
    var cs := seq(|states|, a requires 0 <= a < |states| => ClockOf(states[a], key));
    forall a, b | 0 <= a < |ops| && b == a + 1 ensures ClockStep(cs[a], ops[a], cs[b], key) {
      RunInv(states, capacity, ops, a);
      StepIsClockStep(states[a], capacity, ops[a], states[b], key);
    }
    RunInv(states, capacity, ops, n);
    i := ClockFrom(cs, ops, n, key);
  }

  /** For each window, the call that opened it. */
  ghost function OpenedAt(states: seq<Votes>, n: nat): (since: map<Key, nat>)
    requires n < |states|
    ensures since.Keys == states[n].history.Keys
    ensures n > 0 ==> forall k :: k in since ==> since[k] < n
  {
    if n == 0 then (map k | k in states[0].history :: 0)
    else
      var before := OpenedAt(states, n - 1);
      map k | k in states[n].history :: if k in before then before[k] else n - 1
  }

  /** The order lists windows as they were since. */
  ghost predicate ByOpening(order: seq<Key>, since: map<Key, nat>) {
    && (forall k :: k in order ==> k in since)
    && forall a, b :: 0 <= a < b < |order| ==> since[order[a]] < since[order[b]]
  }

  lemma HeadByOpening(head: Key, rest: seq<Key>, since: map<Key, nat>)
    requires ByOpening(rest, since) && head in since && forall k :: k in rest ==> since[head] < since[k]
    ensures ByOpening([head] + rest, since)
  {
  }

  lemma TailByOpening(order: seq<Key>, since: map<Key, nat>)
    requires ByOpening(order, since) && order != []
    ensures ByOpening(order[1..], since)
    ensures forall k :: k in order[1..] ==> since[order[0]] < since[k]
  {
  }

  lemma {:induction false} WithoutByOpening(order: seq<Key>, gone: set<Key>, since: map<Key, nat>)
    requires ByOpening(order, since)
    ensures ByOpening(Without(order, gone), since)
  {
    if order != [] {
      TailByOpening(order, since);
      WithoutByOpening(order[1..], gone, since);
      if order[0] !in gone {
        HeadByOpening(order[0], Without(order[1..], gone), since);
      }
    }
  }

  lemma AppendByOpening(order: seq<Key>, since: map<Key, nat>, key: Key, n: nat)
    requires ByOpening(order, since) && key !in order && forall k :: k in order ==> since[k] < n
    ensures ByOpening(order + [key], since[key := n])
  {
  }

  lemma AgreeByOpening(order: seq<Key>, since: map<Key, nat>, since': map<Key, nat>)
    requires ByOpening(order, since) && forall k :: k in order ==> k in since' && since'[k] == since[k]
    ensures ByOpening(order, since')
  {
  }

  lemma CastByOpening(v: Votes, key: Key, text: string, now: real, since: map<Key, nat>, n: nat)
    requires Tables(v) && ByOpening(v.order, since) && forall k :: k in v.order ==> since[k] < n
    ensures ByOpening(Cast(v, key, text, now).order, if key in v.history then since else since[key := n])
  {
    if key !in v.history {
      AppendByOpening(v.order, since, key, n);
    }
  }

  lemma TrimByOpening(v: Votes, capacity: nat, key: Key, since: map<Key, nat>)
    requires ByOpening(v.order, since)
    ensures ByOpening(Trim(v, capacity, key).order, since)
  {
    if v.order != [] {
      WithoutByOpening(v.order, {v.order[0]}, since);
    }
  }

  /** What a call leaves in line, by when it was opened: a key that was there before is as
      old as it was, and the one voted in is n. */
  lemma VoteByOpening(v: Votes, capacity: nat, key: Key, text: string, now: real, n: nat, since: map<Key, nat>)
    requires Tables(v) && ByOpening(v.order, since) && forall k :: k in v.order ==> since[k] < n
    ensures ByOpening(Trim(Cast(v, key, text, now), capacity, key).order,
                      if key in v.history then since else since[key := n])
  {
    CastByOpening(v, key, text, now, since, n);
    TrimByOpening(Cast(v, key, text, now), capacity, key, if key in v.history then since else since[key := n]);
  }

  /** How the ages of windows go on over the n-th call. */
  ghost predicate SinceStep(since: map<Key, nat>, v': Votes, since': map<Key, nat>, n: nat) {
    since'.Keys == v'.history.Keys && forall k :: k in since' ==> since'[k] == if k in since then since[k] else n
  }

  lemma EvictStepByOpening(v: Votes, gone: set<Key>, n: nat, since: map<Key, nat>, since': map<Key, nat>)
    requires Tables(v) && ByOpening(v.order, since) && since.Keys == v.history.Keys
    requires SinceStep(since, Drop(v, gone), since', n)
    ensures ByOpening(Drop(v, gone).order, since')
  {
    WithoutByOpening(v.order, gone, since);
    AgreeByOpening(Drop(v, gone).order, since, since');
  }

  lemma TrimmedKeys(v: Votes, capacity: nat, key: Key, text: string, now: real)
    requires Tables(v)
    ensures forall k :: k in Trim(Cast(v, key, text, now), capacity, key).order ==> k == key || k in v.history
  {
  }

  lemma MidAgrees(before: set<Key>, kept: set<Key>, key: Key, order: seq<Key>, since: map<Key, nat>, since': map<Key, nat>,
                  n: nat)
    requires since.Keys == before && kept <= before && (key in before ==> key in kept)
    requires forall k :: k in order ==> k in since' && (k == key || k in kept)
    requires forall k :: k in since' ==> since'[k] == if k in since then since[k] else n
    ensures var mid := if key in kept then since else since[key := n];
            forall k :: k in order ==> k in mid && since'[k] == mid[k]
  {
  }

  lemma VoteStepByOpening(v: Votes, capacity: nat, op: Op, n: nat, since: map<Key, nat>, since': map<Key, nat>)
    requires Inv(v, capacity) && op.Vote? && ByOpening(v.order, since) && since.Keys == v.history.Keys
    requires (forall k :: k in v.order ==> since[k] < n) && SinceStep(since, Step(v, capacity, op), since', n)
    requires Tables(Step(v, capacity, op))
    ensures ByOpening(Step(v, capacity, op).order, since')
  {
    var key, v1 := Key(op.epoch, op.vehicle), Drop(v, ForeignKeys(v, op.epoch));
    WithoutByOpening(v.order, ForeignKeys(v, op.epoch), since);
    DropTables(v, ForeignKeys(v, op.epoch));
    VoteByOpening(v1, capacity, key, op.text, op.now, n, since);
    var v' := Step(v, capacity, op);
    TrimmedKeys(v1, capacity, key, op.text, op.now);
    MidAgrees(v.history.Keys, v1.history.Keys, key, v'.order, since, since', n);
    AgreeByOpening(v'.order, if key in v1.history then since else since[key := n], since');
  }

  lemma StepByOpening(v: Votes, capacity: nat, op: Op, v': Votes, n: nat, since: map<Key, nat>, since': map<Key, nat>)
    requires Inv(v, capacity) && StepsTo(v, capacity, op, v') && ByOpening(v.order, since)
    requires since.Keys == v.history.Keys && (forall k :: k in v.order ==> since[k] < n) && SinceStep(since, v', since', n)
    ensures ByOpening(v'.order, since')
  {
    StepKeeps(v, capacity, op);
    match op
    case EvictDead(active, epoch, now, grace) =>
      EvictStepByOpening(v, DeadKeys(v, active, epoch, now, grace), n, since, since');
    case Vote(_, _, _, _) => VoteStepByOpening(v, capacity, op, n, since, since');
  }

  lemma OpenedStep(states: seq<Votes>, n: nat)
    requires n + 1 < |states|
    ensures SinceStep(OpenedAt(states, n), states[n + 1], OpenedAt(states, n + 1), n)
    ensures OpenedAt(states, n).Keys == states[n].history.Keys
    ensures n > 0 ==> forall k :: k in states[n].history ==> OpenedAt(states, n)[k] < n
  {
  }

  ghost predicate InLine(states: seq<Votes>, n: nat)
    requires n < |states|
  {
    ByOpening(states[n].order, OpenedAt(states, n))
  }

  lemma InLineNext(states: seq<Votes>, capacity: nat, ops: seq<Op>, n: nat)
    requires IsRun(states, capacity, ops) && n < |ops| && InLine(states, n)
    ensures InLine(states, n + 1)
  {
    RunInv(states, capacity, ops, n);
    OpenedStep(states, n);
    StepByOpening(states[n], capacity, ops[n], states[n + 1], n, OpenedAt(states, n), OpenedAt(states, n + 1));
  }

  /** In every run the window first in line is the one that has been open longest. */
  lemma {:induction false} OrderIsByOpening(states: seq<Votes>, capacity: nat, ops: seq<Op>, n: nat)
    requires IsRun(states, capacity, ops) && n <= |ops|
    ensures InLine(states, n)
  {
    if n > 0 {
      OrderIsByOpening(states, capacity, ops, n - 1);
      InLineNext(states, capacity, ops, n - 1);
    }
  }

  // ------------------------------------------------------------------------ the class

  class AnprVotes {
    const capacity: nat
    var history: map<Key, seq<string>>
    var order: seq<Key>
    var lastActive: map<Key, real>

    ghost function View(): Votes
      reads this
    {
      Votes(history, order, lastActive)
    }

    constructor (capacity: nat)
      ensures View() == EMPTY && this.capacity == capacity
    {
      this.capacity := capacity;
      history, order, lastActive := map[], [], map[];
    }

    method Pop(key: Key)
      modifies this
      ensures View() == Drop(old(View()), {key})
    {
      history, order, lastActive := history - {key}, Without(order, {key}), lastActive - {key};
    }

    method PopIfDead(key: Key, active: Option<set<int>>, epoch: int, now: real, grace: real,
                     ghost v: Votes, ghost gone: set<Key>) returns (popped: bool)
      requires View() == Drop(v, gone) && key !in gone
      modifies this
      ensures popped == Dead(v, active, epoch, now, grace, key)
      ensures View() == Drop(v, if popped then gone + {key} else gone)
    {
      var lastTs := if key in lastActive then lastActive[key] else 0.0;
      popped := key.epoch != epoch || (active.Some? && key.vehicle !in active.value && now - lastTs >= grace);
      if popped {
        DropOneMore(v, gone, key);
        Pop(key);
      }
    }

    /** The loop over a snapshot of the keys. The vote's clean-up pops other epochs only
        and so has no active set. */
    method PopDead(active: Option<set<int>>, epoch: int, now: real, grace: real) returns (evicted: nat)
      requires Tables(View())
      modifies this
      ensures View() == Drop(old(View()), DeadKeys(old(View()), active, epoch, now, grace))
      ensures evicted == |DeadKeys(old(View()), active, epoch, now, grace)|
    {
      ghost var v, gone := View(), {};
      var keys := order;
      evicted := 0;
      DropNone(v);
      for i := 0 to |keys|
        invariant gone == DeadIn(v, active, epoch, now, grace, keys[..i])
        invariant View() == Drop(v, gone) && evicted == |gone|
      {
        DeadInNext(v, active, epoch, now, grace, keys, i);
        var popped := PopIfDead(keys[i], active, epoch, now, grace, v, gone);
        if popped {
          gone := gone + {keys[i]};
          evicted := evicted + 1;
        }
      }
      assert keys[..|keys|] == keys;
      DeadInAll(v, active, epoch, now, grace);
    }

    method CastVote(key: Key, text: string, now: real) returns (hist: seq<string>)
      requires key in history ==> |history[key]| <= WINDOW
      modifies this
      ensures View() == Cast(old(View()), key, text, now) && hist == history[key] && hist != []
    {
      if key !in history {
        history, order := history[key := []], order + [key];
      }
      hist := history[key] + [text];
      if |hist| > WINDOW {
        hist := hist[1..];
      }
      history, lastActive := history[key := hist], lastActive[key := now];
    }

    method TrimOldest(key: Key)
      modifies this
      ensures View() == Trim(old(View()), capacity, key)
      ensures key in old(history) ==> key in history && history[key] == old(history)[key]
    {
      if |history| > capacity && order != [] && order[0] != key {
        Pop(order[0]);
      }
    }

    /** Cast a vote and return the consensus of the window it went to. */
    method ConsensusFor(vehicle: int, text: string, epoch: int, now: real) returns (w: string)
      requires Inv(View(), capacity)
      modifies this
      ensures View() == Step(old(View()), capacity, Vote(vehicle, text, epoch, now)) && Inv(View(), capacity)
      ensures Key(epoch, vehicle) in history && Consensus(history[Key(epoch, vehicle)], w)
    {
      StepKeeps(View(), capacity, Vote(vehicle, text, epoch, now));
      DropKeeps(View(), capacity, ForeignKeys(View(), epoch));
      var _ := PopDead(None, epoch, 0.0, 0.0);
      var hist := CastVote(Key(epoch, vehicle), text, now);
      TrimOldest(Key(epoch, vehicle));
      w := MostCommon(hist);
    }

    method EvictDeadTracks(active: Option<set<int>>, epoch: int, now: real, grace: real) returns (evicted: nat)
      requires Inv(View(), capacity)
      modifies this
      ensures View() == Step(old(View()), capacity, EvictDead(active, epoch, now, grace)) && Inv(View(), capacity)
      ensures evicted == |old(history)| - |history|
    {
      StepKeeps(View(), capacity, EvictDead(active, epoch, now, grace));
      DropCount(history, DeadKeys(View(), active, epoch, now, grace));
      evicted := PopDead(active, epoch, now, grace);
    }

    /** Agreeing votes for a text in a window, counted one by one. */
    method VotesFor(vehicle: int, text: string, epoch: int) returns (n: nat)
      ensures Key(epoch, vehicle) !in history ==> n == 0
      ensures Key(epoch, vehicle) in history ==> n == multiset(history[Key(epoch, vehicle)])[text]
    {
      n := 0;
      var hist := if Key(epoch, vehicle) in history then history[Key(epoch, vehicle)] else [];
      for i := 0 to |hist|
        invariant n == multiset(hist[..i])[text]
      {
        assert hist[..i + 1] == hist[..i] + [hist[i]];
        if hist[i] == text {
          n := n + 1;
        }
      }
      assert hist[..|hist|] == hist;
    }

    /** A plate is reported only when at least two of the window's reads agree on it
        and no other text has more. */
    method Report(vehicle: int, text: string, epoch: int, now: real) returns (plate: Option<string>)
      requires Inv(View(), capacity)
      modifies this
      ensures View() == Step(old(View()), capacity, Vote(vehicle, text, epoch, now)) && Inv(View(), capacity)
      ensures Key(epoch, vehicle) in history
      ensures plate.Some? ==> Consensus(history[Key(epoch, vehicle)], plate.value)
                              && Count(history[Key(epoch, vehicle)], plate.value) >= 2
      ensures plate.None? ==> forall x :: x in history[Key(epoch, vehicle)] ==> Count(history[Key(epoch, vehicle)], x) < 2
    {
      StepKeeps(View(), capacity, Vote(vehicle, text, epoch, now));
      var w := ConsensusFor(vehicle, text, epoch, now);
      var n := VotesFor(vehicle, w, epoch);
      CountIsMultiplicity(history[Key(epoch, vehicle)], w);
      plate := if n >= 2 then Some(w) else None;
    }
  }
}
