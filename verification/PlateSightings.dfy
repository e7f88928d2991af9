/** The store of plate sightings: a bounded list of objects and an index of the
    recent ones that aliases them. */
module PlateSightings {
  import opened Basics

  type Key = (string, string)

  class PlateSighting {
    const camera: string
    const plate: string
    const vehicleClass: string
    var confidence: real
    var timestamp: real
    var sightCount: nat

    constructor (camera: string, plate: string, confidence: real, vehicleClass: string, timestamp: real)
      ensures this.camera == camera && this.plate == plate && this.vehicleClass == vehicleClass
      ensures this.confidence == confidence && this.timestamp == timestamp && sightCount == 1
    {
      this.camera, this.plate, this.vehicleClass := camera, plate, vehicleClass;
      this.confidence, this.timestamp, sightCount := confidence, timestamp, 1;
    }
  }

  function KeyOf(s: PlateSighting): Key { (s.camera, s.plate) }

  ghost function Counts(ss: seq<PlateSighting>): (cs: seq<nat>)
    reads ss
    ensures |cs| == |ss| && forall k :: 0 <= k < |ss| ==> cs[k] == ss[k].sightCount
  {
    seq(|ss|, k requires 0 <= k < |ss| reads ss => ss[k].sightCount)
  }

  function Sum(cs: seq<nat>): nat { if cs == [] then 0 else cs[0] + Sum(cs[1..]) }

  lemma {:induction false} SumUpdate(cs: seq<nat>, k: nat, n: nat)
    requires k < |cs|
    ensures Sum(cs[k := n]) + cs[k] == Sum(cs) + n
  {
    if k > 0 {
      assert cs[k := n][1..] == cs[1..][k - 1 := n];
      SumUpdate(cs[1..], k - 1, n);
    } else {
      assert cs[0 := n][1..] == cs[1..];
    }
  }

  lemma {:induction false} SumAppend(cs: seq<nat>, n: nat)
    ensures Sum(cs + [n]) == Sum(cs) + n
  {
    if cs == [] {
      assert cs + [n] == [n];
    } else {
      assert (cs + [n])[1..] == cs[1..] + [n];
      SumAppend(cs[1..], n);
    }
  }

  // ------------------------------------------------- the index, from the keys stored

  /** How many of the sightings stored so far have been evicted. */
  function Gone(stored: seq<Key>, bound: nat): nat { if |stored| > bound then |stored| - bound else 0 }

  /** The j-th sighting stored is the latest under its key. */
  ghost predicate LatestAt(stored: seq<Key>, k: Key, j: int) {
    0 <= j < |stored| && stored[j] == k && forall i :: j < i < |stored| ==> stored[i] != k
  }

  /** No sighting under the key has been evicted since the j-th was stored: the i-th
      leaves when the one `bound` places after it is stored. */
  ghost predicate SparedSince(stored: seq<Key>, bound: nat, k: Key, j: int) {
    forall i :: 0 <= i < Gone(stored, bound) && i < |stored| && j <= i + bound ==> stored[i] != k
  }

  /** The index has a key exactly when nothing under it was evicted since its latest
      sighting was stored. */
  ghost predicate Present(stored: seq<Key>, bound: nat, k: Key) {
    exists j :: LatestAt(stored, k, j) && SparedSince(stored, bound, k, j)
  }

  lemma LatestUnique(stored: seq<Key>, k: Key, i: int, j: int)
    requires LatestAt(stored, k, i) && LatestAt(stored, k, j)
    ensures i == j
  {
  }

  /** The latest sighting of a present key has not been evicted itself. */
  lemma PresentIsHeld(stored: seq<Key>, bound: nat, k: Key, j: int)
    requires Present(stored, bound, k) && LatestAt(stored, k, j)
    ensures Gone(stored, bound) <= j && SparedSince(stored, bound, k, j)
  {
    var i :| LatestAt(stored, k, i) && SparedSince(stored, bound, k, i);
    LatestUnique(stored, k, i, j);
  }

  lemma LatestAfter(stored: seq<Key>, key: Key, k: Key, j: int)
    ensures LatestAt(stored + [key], k, j) <==> if k == key then j == |stored| else LatestAt(stored, k, j)
  {
    var after := stored + [key];
    assert after[|stored|] == key;
    if k != key && LatestAt(after, k, j) {
      assert forall i :: j < i < |stored| ==> after[i] == stored[i];
    }
  }

  lemma SparedAfter(stored: seq<Key>, bound: nat, key: Key, k: Key, j: int)
    requires 0 <= j <= |stored|
    ensures var after := stored + [key];
            var last := |stored| - bound;
            SparedSince(after, bound, k, j) <==>
              (if j < |stored| then SparedSince(stored, bound, k, j) else true) && (0 <= last ==> after[last] != k)
  {
    var after, last := stored + [key], |stored| - bound;
    assert forall i :: 0 <= i < Gone(stored, bound) && i < |stored| ==> after[i] == stored[i];
    if 0 <= last {
      assert Gone(after, bound) == last + 1;
    }
  }

  /** Storing one more sighting adds its key and drops the key of the one evicted. */
  lemma PresentAfter(stored: seq<Key>, bound: nat, key: Key, k: Key)
    ensures var after := stored + [key];
            var last := |stored| - bound;
            Present(after, bound, k) <==> (k == key || Present(stored, bound, k)) && (0 <= last ==> after[last] != k)
  {
    var after, last := stored + [key], |stored| - bound;
    if k == key {
      LatestAfter(stored, key, k, |stored|);
      SparedAfter(stored, bound, key, k, |stored|);
      if Present(after, bound, k) {
        PresentIsHeld(after, bound, k, |stored|);
      }
    } else {
      forall j | 0 <= j < |stored|
        ensures LatestAt(after, k, j) <==> LatestAt(stored, k, j)
        ensures SparedSince(after, bound, k, j) <==> SparedSince(stored, bound, k, j) && (0 <= last ==> after[last] != k)
      {
        LatestAfter(stored, key, k, j);
        SparedAfter(stored, bound, key, k, j);
      }
      if Present(after, bound, k) {
        var j :| LatestAt(after, k, j) && SparedSince(after, bound, k, j);
        LatestAfter(stored, key, k, j);
        assert LatestAt(stored, k, j);
      }
      if Present(stored, bound, k) {
        var j :| LatestAt(stored, k, j) && SparedSince(stored, bound, k, j);
        assert LatestAt(after, k, j);
      }
    }
  }

  function KeysOf(ss: seq<PlateSighting>): (ks: seq<Key>)
    ensures |ks| == |ss| && forall a :: 0 <= a < |ss| ==> ks[a] == KeyOf(ss[a])
  {
    seq(|ss|, a requires 0 <= a < |ss| => KeyOf(ss[a]))
  }

  /** The sightings held are the last ones stored. */
  ghost predicate Held(ss: seq<PlateSighting>, stored: seq<Key>, bound: nat) {
    KeysOf(ss) == stored[Gone(stored, bound)..]
  }

  predicate StandsAt(ss: seq<PlateSighting>, s: PlateSighting, a: int) { 0 <= a < |ss| && ss[a] == s }

  /** Under each present key the index holds the latest sighting. */
  ghost predicate Points(ss: seq<PlateSighting>, index: map<Key, PlateSighting>, stored: seq<Key>, bound: nat) {
    && (forall k :: k in index <==> Present(stored, bound, k))
    && (forall k, j :: k in index && LatestAt(stored, k, j) ==> StandsAt(ss, index[k], j - Gone(stored, bound)))
  }

  /** The list and the index once s has been stored: the oldest sighting goes when the
      store is full, and with it whatever the index holds under its key. */
  ghost function Kept(ss: seq<PlateSighting>, bound: nat, s: PlateSighting): seq<PlateSighting> {
    if |ss| < bound then ss + [s] else (ss + [s])[1..]
  }

  ghost function Indexed(ss: seq<PlateSighting>, index: map<Key, PlateSighting>, bound: nat, s: PlateSighting)
    : map<Key, PlateSighting>
  {
    var added := index[KeyOf(s) := s];
    if |ss| < bound then added else added - {KeyOf((ss + [s])[0])}
  }

  lemma HeldSize(ss: seq<PlateSighting>, stored: seq<Key>, bound: nat)
    requires Held(ss, stored, bound)
    ensures |ss| == |stored| - Gone(stored, bound) && (|ss| < bound <==> |stored| < bound)
  {
  }

  lemma HeldAfter(ss: seq<PlateSighting>, stored: seq<Key>, bound: nat, s: PlateSighting)
    requires Held(ss, stored, bound)
    ensures Held(Kept(ss, bound, s), stored + [KeyOf(s)], bound)
    ensures |ss| >= bound ==> |stored| >= bound && KeyOf((ss + [s])[0]) == (stored + [KeyOf(s)])[|stored| - bound]
  {
    var g, k := Gone(stored, bound), KeyOf(s);
    HeldSize(ss, stored, bound);
    assert KeysOf(ss + [s]) == stored[g..] + [k] == (stored + [k])[g..];
    if |ss| >= bound {
      assert KeysOf((ss + [s])[1..]) == KeysOf(ss + [s])[1..] == (stored + [k])[g + 1..];
      assert KeysOf(ss + [s])[0] == (stored + [k])[g];
    }
  }

  lemma KeysAfter(ss: seq<PlateSighting>, index: map<Key, PlateSighting>, stored: seq<Key>, bound: nat, s: PlateSighting,
                  k: Key)
    requires Held(ss, stored, bound) && (k in index <==> Present(stored, bound, k))
    ensures k in Indexed(ss, index, bound, s) <==> Present(stored + [KeyOf(s)], bound, k)
  {
    HeldSize(ss, stored, bound);
    HeldAfter(ss, stored, bound, s);
    PresentAfter(stored, bound, KeyOf(s), k);
  }

  /** A sighting that stays stands where it stood, one place down if the oldest left. */
  lemma StandsAfter(ss: seq<PlateSighting>, stored: seq<Key>, bound: nat, s: PlateSighting, o: PlateSighting, j: int)
    requires Held(ss, stored, bound) && Gone(stored + [KeyOf(s)], bound) <= j
    requires if j == |stored| then o == s else StandsAt(ss, o, j - Gone(stored, bound))
    ensures StandsAt(Kept(ss, bound, s), o, j - Gone(stored + [KeyOf(s)], bound))
  {
    HeldSize(ss, stored, bound);
    var g, g' := Gone(stored, bound), Gone(stored + [KeyOf(s)], bound);
    assert g' == if |ss| < bound then g else g + 1;
    assert (ss + [s])[j - g] == o;
  }

  lemma PointsAfter(ss: seq<PlateSighting>, index: map<Key, PlateSighting>, stored: seq<Key>, bound: nat, s: PlateSighting)
    requires Held(ss, stored, bound) && Points(ss, index, stored, bound)
    ensures Points(Kept(ss, bound, s), Indexed(ss, index, bound, s), stored + [KeyOf(s)], bound)
  {
    var ss', index', after := Kept(ss, bound, s), Indexed(ss, index, bound, s), stored + [KeyOf(s)];
    forall k ensures k in index' <==> Present(after, bound, k) {
      KeysAfter(ss, index, stored, bound, s, k);
    }
    forall k, j | k in index' && LatestAt(after, k, j) ensures StandsAt(ss', index'[k], j - Gone(after, bound)) {
      KeysAfter(ss, index, stored, bound, s, k);
      PresentIsHeld(after, bound, k, j);
      LatestAfter(stored, KeyOf(s), k, j);
      StandsAfter(ss, stored, bound, s, index'[k], j);
    }
  }

  class SightingsStore {
    const maxSightings: nat
    var sightings: seq<PlateSighting>
    var recentIndex: map<Key, PlateSighting>
    /** Calls recorded, sight counts that left with evicted sightings, and the keys of
        all sightings ever stored. */
    ghost var recorded: nat
    ghost var evicted: nat
    ghost var stored: seq<Key>

    /** No object is stored twice, every index entry is a stored sighting under its own
        key, the bound holds, sight counts held plus evicted are the calls made, and the
        index has exactly the keys under which nothing was evicted since their latest
        sighting. */
    ghost predicate Valid()
      reads this, sightings
    {
      && (forall a, b :: 0 <= a < b < |sightings| ==> sightings[a] != sightings[b])
      && (forall k :: k in recentIndex ==> recentIndex[k] in sightings && KeyOf(recentIndex[k]) == k)
      && |sightings| <= maxSightings
      && Sum(Counts(sightings)) + evicted == recorded
      && Held(sightings, stored, maxSightings) && Points(sightings, recentIndex, stored, maxSightings)
    }

    constructor (maxSightings: nat)
      ensures Valid() && sightings == [] && recorded == 0 && this.maxSightings == maxSightings
    {
      this.maxSightings := maxSightings;
      sightings, recentIndex, recorded, evicted, stored := [], map[], 0, 0, [];
    }

    /** The timestamp given, unless there is none or it is zero. */
    static function Clock(timestamp: Option<real>, now: real): real {
      if timestamp.Some? && timestamp.value != 0.0 then timestamp.value else now
    }

    predicate Repeats(key: Key, ts: real)
      reads this, if key in recentIndex then {recentIndex[key]} else {}
    {
      key in recentIndex && ts - recentIndex[key].timestamp < 30.0
    }

    static ghost function Position(ss: seq<PlateSighting>, s: PlateSighting): (k: nat)
      requires s in ss
      ensures k < |ss| && ss[k] == s
    {
      if ss[0] == s then 0 else 1 + Position(ss[1..], s)
    }

    method Bump(s: PlateSighting, confidence: real, ts: real)
      modifies s
      ensures s.timestamp == ts && s.sightCount == old(s.sightCount) + 1
      ensures s.confidence == if confidence > old(s.confidence) then confidence else old(s.confidence)
    {
      s.sightCount := s.sightCount + 1;
      s.timestamp := ts;
      s.confidence := if confidence > s.confidence then confidence else s.confidence;
    }

    method Merge(s: PlateSighting, confidence: real, ts: real)
      requires s in sightings
      requires forall a, b :: 0 <= a < b < |sightings| ==> sightings[a] != sightings[b]
      modifies s
      ensures s.timestamp == ts && s.sightCount == old(s.sightCount) + 1
      ensures s.confidence == if confidence > old(s.confidence) then confidence else old(s.confidence)
      ensures Sum(Counts(sightings)) == old(Sum(Counts(sightings))) + 1
    {
      ghost var before := Counts(sightings);
      ghost var k := Position(sightings, s);
      SumUpdate(before, k, before[k] + 1);
      Bump(s, confidence, ts);
      forall j | 0 <= j < |sightings| ensures Counts(sightings)[j] == before[k := before[k] + 1][j] {
      }
      assert Counts(sightings) == before[k := before[k] + 1];
    }

    /** The oldest sighting leaves, and with it whatever the index holds under its key. */
    method EvictOldest()
      requires sightings != []
      requires forall a, b :: 0 <= a < b < |sightings| ==> sightings[a] != sightings[b]
      requires forall k :: k in recentIndex ==> recentIndex[k] in sightings && KeyOf(recentIndex[k]) == k
      modifies `sightings, `recentIndex, `evicted
      ensures sightings == old(sightings)[1..]
      ensures recentIndex == old(recentIndex) - {KeyOf(old(sightings)[0])}
      ensures forall k :: k in recentIndex ==> recentIndex[k] in sightings && KeyOf(recentIndex[k]) == k
      ensures Sum(Counts(sightings)) + evicted == old(Sum(Counts(sightings)) + evicted)
    {
      var oldest := sightings[0];
      assert Counts(sightings)[1..] == Counts(sightings[1..]);
      sightings := sightings[1..];
      recentIndex := recentIndex - {KeyOf(oldest)};
      evicted := evicted + oldest.sightCount;
      forall k | k in recentIndex ensures recentIndex[k] in sightings {
        assert recentIndex[k] in old(sightings) && recentIndex[k] != oldest;
      }
    }

    method Add(s: PlateSighting)
      requires Valid() && s !in sightings && s.sightCount == 1
      modifies this
      ensures Valid() && recorded == old(recorded) + 1 && stored == old(stored) + [KeyOf(s)]
      ensures sightings == Kept(old(sightings), maxSightings, s)
      ensures recentIndex == Indexed(old(sightings), old(recentIndex), maxSightings, s)
    {
      HeldAfter(sightings, stored, maxSightings, s);
      PointsAfter(sightings, recentIndex, stored, maxSightings, s);
      SumAppend(Counts(sightings), 1);
      ghost var before := Counts(sightings);
      sightings := sightings + [s];
      assert Counts(sightings) == before + [1];
      recentIndex := recentIndex[KeyOf(s) := s];
      recorded, stored := recorded + 1, stored + [KeyOf(s)];
      if |sightings| > maxSightings {
        EvictOldest();
      }
    }

    method MergeRepeat(key: Key, confidence: real, ts: real) returns (s: PlateSighting)
      requires Valid() && Repeats(key, ts)
      modifies `recorded, sightings
      ensures Valid() && recorded == old(recorded) + 1
      ensures KeyOf(s) == key && s == recentIndex[key] && s.timestamp == ts && s.sightCount == old(s.sightCount) + 1
      ensures s.confidence == if confidence > old(s.confidence) then confidence else old(s.confidence)
      ensures forall o :: o in sightings && o != s ==> unchanged(o)
    {
      s := recentIndex[key];
      Merge(s, confidence, ts);
      recorded := recorded + 1;
    }

    method StoreNew(camera: string, plate: string, confidence: real, vehicleClass: string, ts: real)
      returns (s: PlateSighting)
      requires Valid()
      modifies this
      ensures Valid() && recorded == old(recorded) + 1 && stored == old(stored) + [(camera, plate)]
      ensures fresh(s) && KeyOf(s) == (camera, plate) && s.vehicleClass == vehicleClass
      ensures s.timestamp == ts && s.sightCount == 1 && s.confidence == confidence
      ensures sightings == Kept(old(sightings), maxSightings, s)
      ensures recentIndex == Indexed(old(sightings), old(recentIndex), maxSightings, s)
    {
      s := new PlateSighting(camera, plate, confidence, vehicleClass, ts);
      Add(s);
    }

    /** A repeat within 30 s of the indexed sighting is merged into it; anything else is
        a new sighting, and the oldest goes when the store is full. */
    method RecordSighting(camera: string, plate: string, confidence: real, vehicleClass: string,
                          timestamp: Option<real>, now: real) returns (s: PlateSighting)
      requires Valid()
      modifies this, sightings
      ensures Valid() && recorded == old(recorded) + 1
      ensures KeyOf(s) == (camera, plate) && s.timestamp == Clock(timestamp, now)
      ensures if old(Repeats((camera, plate), Clock(timestamp, now))) then
                && s == old(recentIndex[(camera, plate)]) && s.sightCount == old(s.sightCount) + 1
                && s.confidence == (if confidence > old(s.confidence) then confidence else old(s.confidence))
                && sightings == old(sightings) && recentIndex == old(recentIndex) && evicted == old(evicted)
                && stored == old(stored)
              else
                && fresh(s) && s.sightCount == 1 && s.confidence == confidence && s.vehicleClass == vehicleClass
                && recentIndex == Indexed(old(sightings), old(recentIndex), maxSightings, s)
                && sightings == Kept(old(sightings), maxSightings, s) && stored == old(stored) + [(camera, plate)]
      ensures forall o :: o in old(sightings) && o != s ==> unchanged(o)
    {
      var ts := Clock(timestamp, now);
      if Repeats((camera, plate), ts) {
        s := MergeRepeat((camera, plate), confidence, ts);
      } else {
        s := StoreNew(camera, plate, confidence, vehicleClass, ts);
      }
    }

    ghost predicate RecentAt(a: int, ts: real)
      reads this, sightings
    {
      0 <= a < |sightings| && ts - sightings[a].timestamp < 30.0
    }

    /** Which calls merge, from the keys stored alone: nothing under the key has been
        evicted since its latest sighting was stored, and that one is less than 30 s old. */
    lemma RepeatsExactly(key: Key, ts: real)
      requires Valid()
      ensures Repeats(key, ts) <==>
                exists j :: LatestAt(stored, key, j) && SparedSince(stored, maxSightings, key, j)
                  && RecentAt(j - Gone(stored, maxSightings), ts)
    {
      forall j | LatestAt(stored, key, j) && SparedSince(stored, maxSightings, key, j)
        ensures key in recentIndex && StandsAt(sightings, recentIndex[key], j - Gone(stored, maxSightings))
      {
        assert Present(stored, maxSightings, key);
      }
    }
  }

  /** A full store of two gets a sighting that does not merge: the oldest goes, and with
      it its key. */
  method StoreAgain(store: SightingsStore, a: PlateSighting, b: PlateSighting, plate: string, ts: real)
    returns (again: PlateSighting)
    requires store.Valid() && store.maxSightings == 2 && store.sightings == [a, b]
    requires ts != 0.0 && !store.Repeats(("gate", plate), ts)
    modifies store, store.sightings
    ensures store.Valid() && store.sightings == [b, again] && KeyOf(a) !in store.recentIndex
    ensures fresh(again) && KeyOf(again) == ("gate", plate) && again.timestamp == ts && again.sightCount == 1
    ensures b.timestamp == old(b.timestamp)
  {
    again := store.RecordSighting("gate", plate, 0.9, "car", Some(ts), ts);
    assert ([a, b] + [again])[1..] == [b, again] && ([a, b] + [again])[0] == a;
    assert b in old(store.sightings) && unchanged(b);
  }

  /** A store of two that has seen one plate. */
  method OnePlate() returns (store: SightingsStore, first: PlateSighting)
    ensures fresh(store) && fresh(first) && store.Valid() && store.maxSightings == 2 && store.sightings == [first]
    ensures KeyOf(first) == ("gate", "A") && first.timestamp == 1.0
    ensures store.recentIndex == map[KeyOf(first) := first]
  {
    store := new SightingsStore(2);
    first := store.RecordSighting("gate", "A", 0.9, "car", Some(1.0), 1.0);
  }

  /** A store of two that has seen two plates. */
  method TwoPlates() returns (store: SightingsStore, first: PlateSighting, other: PlateSighting)
    ensures fresh(store) && fresh(first) && fresh(other)
    ensures store.Valid() && store.maxSightings == 2 && store.sightings == [first, other]
    ensures KeyOf(first) == ("gate", "A") && first.timestamp == 1.0
    ensures KeyOf(first) in store.recentIndex && store.recentIndex[KeyOf(first)] == first
  {
    store, first := OnePlate();
    label One:
    assert first in store.sightings;
    other := store.RecordSighting("gate", "B", 0.9, "car", Some(2.0), 2.0);
    assert first in old@One(store.sightings) && unchanged@One(first);
  }

  /** A repeat one second later that does not merge. */
  method RepeatNotMerged() returns (store: SightingsStore, earlier: PlateSighting, later: PlateSighting)
    ensures store.Valid() && store.sightings == [earlier, later]
    ensures KeyOf(earlier) == KeyOf(later) && later.timestamp - earlier.timestamp == 1.0 && later.sightCount == 1
  {
    var first, other;
    store, first, other := TwoPlates();
    earlier := StoreAgain(store, first, other, "A", 40.0);
    later := StoreAgain(store, other, earlier, "A", 41.0);
  }
}
