/** Cross-camera handover: dossiers, the three lookup maps into them, and eviction. */
module Handover {
  import opened Basics

  datatype Camera = Camera(id: string, name: string)

  /** A track as observed; an absent identity name or threat level is "". */
  datatype TrackObs = TrackObs(id: Option<int>, hasBox: bool, className: string,
                               identity: string, threat: string, intrusion: bool)
  datatype PlateObs = PlateObs(text: string, track: Option<int>)
  datatype Obs = Obs(tracks: seq<TrackObs>, plates: seq<PlateObs>)

  datatype Sighting = Sighting(camera: string, cameraName: string, ts: real, track: int, identity: string, intrusion: bool)
  datatype Dossier = Dossier(subjectType: string, title: string, threat: string, firstSeen: real, lastSeen: real,
                             cameras: seq<string>, sightings: seq<Sighting>, plate: string, active: bool)

  /** Settings, and what the engine takes from outside: the n-th generated id and the
      label of an unnamed subject. */
  datatype Config = Config(maxDossiers: nat, window: real, idOf: nat -> string, labelOf: (string, int) -> string)

  /** order: the dossier table's insertion order. */
  datatype Engine = Engine(dossiers: map<string, Dossier>, order: seq<string>, tracks: map<(string, int), string>,
                           identities: map<string, string>, plates: map<string, string>, nextId: nat)

  const EMPTY := Engine(map[], [], map[], map[], map[], 0)
  const KEEP := 20

  // ------------------------------------------------------------------------ one track

  function ThreatOf(t: TrackObs): string {
    if t.intrusion then "CRITICAL" else if t.threat != "" then t.threat else "LOW"
  }

  predicate StartsWith(s: string, prefix: string) { |prefix| <= |s| && s[..|prefix|] == prefix }

  /** A recently active dossier of the same class that has not been to this camera. */
  predicate Transferable(d: Dossier, cam: Camera, className: string, now: real, window: real) {
    && d.subjectType == className
    && now - d.lastSeen <= window
    && cam.name !in d.cameras
    && forall s :: s in d.sightings ==> s.camera != cam.id
  }

  function FirstTransferable(e: Engine, order: seq<string>, cam: Camera, className: string, now: real, window: real)
    : (id: Option<string>)
    ensures id.Some? ==> id.value in order && id.value in e.dossiers
    ensures id.Some? ==> Transferable(e.dossiers[id.value], cam, className, now, window)
    ensures id.None? ==> forall k :: k in order && k in e.dossiers ==>
              !Transferable(e.dossiers[k], cam, className, now, window)
  {
    if order == [] then None
    else if order[0] in e.dossiers && Transferable(e.dossiers[order[0]], cam, className, now, window) then Some(order[0])
    else FirstTransferable(e, order[1..], cam, className, now, window)
  }

  /** The known dossier of a track: by identity, then by camera and track id. Entries
      that point nowhere are dropped on the way. */
  function Known(e: Engine, key: (string, int), name: string): (Engine, Option<string>) {
    var e1 := if name != "" && name in e.identities && e.identities[name] !in e.dossiers
              then e.(identities := e.identities - {name}) else e;
    if name != "" && name in e1.identities then (e1, Some(e1.identities[name]))
    else if key in e1.tracks then
      if e1.tracks[key] in e1.dossiers then (e1, Some(e1.tracks[key])) else (e1.(tracks := e1.tracks - {key}), None)
    else (e1, None)
  }

  function Create(e: Engine, c: Config, cam: Camera, t: TrackObs, now: real): (Engine, string)
    requires t.id.Some?
  {
    var id := c.idOf(e.nextId);
    var d := Dossier(t.className, if t.identity != "" then t.identity else c.labelOf(t.className, t.id.value),
                     ThreatOf(t), now, now, [cam.name], [], "", true);
    (e.(dossiers := e.dossiers[id := d], order := if id in e.dossiers then e.order else e.order + [id],
        nextId := e.nextId + 1), id)
  }

  function Raised(threat: string, t: TrackObs): string {
    if t.intrusion || ThreatOf(t) == "CRITICAL" then "CRITICAL"
    else if ThreatOf(t) == "HIGH" && threat != "CRITICAL" then "HIGH"
    else threat
  }

  function LastFew(s: seq<Sighting>): seq<Sighting> { if |s| > KEEP then s[|s| - KEEP..] else s }

  function Seen(d: Dossier, cam: Camera, t: TrackObs, now: real): Dossier
    requires t.id.Some?
  {
    Dossier(d.subjectType, if t.identity != "" && !StartsWith(d.title, "DOS-") then t.identity else d.title,
            Raised(d.threat, t), d.firstSeen, now, if cam.name in d.cameras then d.cameras else d.cameras + [cam.name],
            LastFew(d.sightings + [Sighting(cam.id, cam.name, now, t.id.value, t.identity, t.intrusion)]), d.plate, true)
  }

  /** Record a sighting in the dossier chosen for the track. */
  function Attach(e: Engine, id: string, cam: Camera, t: TrackObs, now: real): Engine
    requires id in e.dossiers && t.id.Some?
  {
    e.(dossiers := e.dossiers[id := Seen(e.dossiers[id], cam, t, now)],
       identities := if t.identity != "" && !StartsWith(e.dossiers[id].title, "DOS-")
                     then e.identities[t.identity := id] else e.identities,
       tracks := e.tracks[(cam.id, t.id.value) := id])
  }

  function Members(s: seq<string>): set<string> {
    if s == [] then {} else Members(s[..|s| - 1]) + {s[|s| - 1]}
  }

  predicate Distinct(s: seq<string>) {
    s == [] || (s[|s| - 1] !in Members(s[..|s| - 1]) && Distinct(s[..|s| - 1]))
  }

  /** The order lists every dossier of the table, once. */
  ghost predicate Ordered(ds: Table, order: seq<string>) {
    Distinct(order) && Members(order) == ds.Keys
  }

  /** The table and its order agree, every entry of every map points at a live dossier,
      and no dossier keeps more than twenty sightings. */
  ghost predicate Inv(e: Engine) {
    && Ordered(e.dossiers, e.order)
    && (forall k :: k in e.tracks ==> e.tracks[k] in e.dossiers)
    && (forall k :: k in e.identities ==> e.identities[k] in e.dossiers)
    && (forall k :: k in e.plates ==> e.plates[k] in e.dossiers)
    && (forall id :: id in e.dossiers ==> |e.dossiers[id].sightings| <= KEEP)
  }

  /** Which dossier a track goes to; the engine may gain it. */
  function Choose(e: Engine, c: Config, cam: Camera, t: TrackObs, now: real): (r: (Engine, string))
    requires t.id.Some? && Inv(e)
    ensures r.1 in r.0.dossiers
  {
    var (e1, known) := Known(e, (cam.id, t.id.value), t.identity);
    if known.Some? then (e1, known.value) else
    var moved := FirstTransferable(e1, e1.order, cam, t.className, now, c.window);
    if moved.Some? then (e1, moved.value) else Create(e1, c, cam, t, now)
  }

  function TrackStep(e: Engine, c: Config, cam: Camera, t: TrackObs, now: real): Engine
    requires Inv(e)
  {
    if t.id.None? || !t.hasBox then e
    else
      var (e1, id) := Choose(e, c, cam, t, now);
      Attach(e1, id, cam, t, now)
  }

  function PlateStep(e: Engine, cam: Camera, p: PlateObs): Engine {
    if p.text == "" then e else
    var found := if p.track.Some? && (cam.id, p.track.value) in e.tracks then Some(e.tracks[(cam.id, p.track.value)])
                 else if p.text in e.plates then Some(e.plates[p.text]) else None;
    if found.Some? && found.value in e.dossiers
    then e.(dossiers := e.dossiers[found.value := e.dossiers[found.value].(plate := p.text)],
            plates := e.plates[p.text := found.value])
    else e
  }

  // ------------------------------------------------------------------ the end of a pass

  function MarkInactive(e: Engine, now: real): Engine {
    e.(dossiers := map id | id in e.dossiers ::
         if now - e.dossiers[id].lastSeen > 30.0 then e.dossiers[id].(active := false) else e.dossiers[id])
  }

  type Table = map<string, Dossier>

  /** The order after a key has been deleted from the table. */
  function Without(s: seq<string>, id: string): (r: seq<string>) {
    if s == [] then []
    else if s[|s| - 1] == id then s[..|s| - 1]
    else Without(s[..|s| - 1], id) + [s[|s| - 1]]
  }

  lemma {:induction false} WithoutDistinct(s: seq<string>, id: string)
    requires Distinct(s) && id in Members(s)
    ensures Distinct(Without(s, id)) && |Without(s, id)| == |s| - 1
    ensures Members(Without(s, id)) == Members(s) - {id}
  {
    var n := |s| - 1;
    if s[n] != id {
      WithoutDistinct(s[..n], id);
      assert Without(s, id)[..n - 1] == Without(s[..n], id);
    }
  }

  /** The first, in table order, of the least recently seen dossiers. */
  function Oldest(ds: Table, order: seq<string>): (id: string)
    requires order != [] && Members(order) <= ds.Keys
    ensures id in Members(order)
  {
    var n := |order| - 1;
    if n == 0 then order[0] else
    var id := Oldest(ds, order[..n]);
    if ds[order[n]].lastSeen < ds[id].lastSeen then order[n] else id
  }

  lemma {:induction false} OldestLeast(ds: Table, order: seq<string>, k: string)
    requires order != [] && Members(order) <= ds.Keys && k in Members(order)
    ensures ds[Oldest(ds, order)].lastSeen <= ds[k].lastSeen
  {
    var n := |order| - 1;
    if n > 0 {
      var id := Oldest(ds, order[..n]);
      if k != order[n] {
        OldestLeast(ds, order[..n], k);
      }
    }
  }

  lemma OrderedAfter(ds: Table, order: seq<string>, id: string)
    requires Ordered(ds, order) && id in Members(order)
    ensures Ordered(ds - {id}, Without(order, id)) && |Without(order, id)| == |order| - 1
  {
    WithoutDistinct(order, id);
  }

  /** Take the n least recently seen dossiers out of the table, oldest first. */
  function Evict(ds: Table, order: seq<string>, n: nat): (r: (Table, seq<string>, set<string>))
    requires Ordered(ds, order) && n <= |order|
    decreases n
  {
    if n == 0 then (ds, order, {}) else
    var id := Oldest(ds, order);
    OrderedAfter(ds, order, id);
    var (ds', order', gone) := Evict(ds - {id}, Without(order, id), n - 1);
    (ds', order', gone + {id})
  }

  /** One eviction, then the rest, with the evicted ids collected on the way. */
  lemma EvictOnce(ds: Table, order: seq<string>, n: nat, gone: set<string>)
    requires Ordered(ds, order) && 0 < n <= |order|
    ensures var id := Oldest(ds, order);
            var order' := Without(order, id);
            && Ordered(ds - {id}, order') && |order'| == |order| - 1
            && Evict(ds, order, n).0 == Evict(ds - {id}, order', n - 1).0
            && Evict(ds, order, n).1 == Evict(ds - {id}, order', n - 1).1
            && gone + Evict(ds, order, n).2 == gone + {id} + Evict(ds - {id}, order', n - 1).2
  {
    OrderedAfter(ds, order, Oldest(ds, order));
  }

  lemma {:induction false} OrderedSize(ds: Table, order: seq<string>)
    requires Ordered(ds, order)
    ensures |ds| == |order|
    decreases |order|
  {
    if order != [] {
      var id := order[|order| - 1];
      OrderedAfter(ds, order, id);
      OrderedSize(ds - {id}, Without(order, id));
      assert (ds - {id}).Keys == ds.Keys - {id};
    }
  }

  /** What eviction does to the table: it takes ids of the table, and changes none of
      the dossiers it leaves. */
  ghost predicate Thinned(ds: Table, ds': Table, gone: set<string>) {
    && (forall id :: id in ds' <==> id in ds && id !in gone)
    && (forall id :: id in gone ==> id in ds)
    && (forall id :: id in ds' ==> ds'[id] == ds[id])
  }

  lemma ThinnedFurther(ds: Table, ds': Table, gone: set<string>, id: string)
    requires id in ds && Thinned(ds - {id}, ds', gone)
    ensures Thinned(ds, ds', gone + {id})
  {
  }

  /** Eviction takes exactly n dossiers and leaves table and order in agreement. */
  lemma {:induction false} EvictOrdered(ds: Table, order: seq<string>, n: nat)
    requires Ordered(ds, order) && n <= |order|
    ensures Ordered(Evict(ds, order, n).0, Evict(ds, order, n).1) && |Evict(ds, order, n).1| == |order| - n
    decreases n
  {
    if n > 0 {
      var id := Oldest(ds, order);
      OrderedAfter(ds, order, id);
      EvictOrdered(ds - {id}, Without(order, id), n - 1);
    }
  }

  lemma {:induction false} EvictThins(ds: Table, order: seq<string>, n: nat)
    requires Ordered(ds, order) && n <= |order|
    ensures Thinned(ds, Evict(ds, order, n).0, Evict(ds, order, n).2)
    decreases n
  {
    if n > 0 {
      var id := Oldest(ds, order);
      var ds1, order1 := ds - {id}, Without(order, id);
      OrderedAfter(ds, order, id);
      EvictThins(ds1, order1, n - 1);
      ThinnedFurther(ds, Evict(ds1, order1, n - 1).0, Evict(ds1, order1, n - 1).2, id);
    }
  }

  /** None of the evicted was seen more recently than one that stays. */
  lemma {:induction false} EvictsOldest(ds: Table, order: seq<string>, n: nat, id: string, kept: string)
    requires Ordered(ds, order) && n <= |order|
    requires id in Evict(ds, order, n).2 && kept in Evict(ds, order, n).0
    ensures id in ds && kept in ds && ds[id].lastSeen <= ds[kept].lastSeen
    decreases n
  {
    EvictThins(ds, order, n);
    if n > 0 {
      var first := Oldest(ds, order);
      OrderedAfter(ds, order, first);
      if id == first {
        OldestLeast(ds, order, kept);
      } else {
        EvictsOldest(ds - {first}, Without(order, first), n - 1, id, kept);
      }
    }
  }

  function Filter<K>(m: map<K, string>, evicted: set<string>): map<K, string> {
    map k | k in m && m[k] !in evicted :: m[k]
  }

  // ------------------------------------------------------------------------ invariant

  /** With the invariant no lookup ever meets a dangling entry. */
  lemma NothingDangles(e: Engine, key: (string, int), name: string)
    requires Inv(e)
    ensures Known(e, key, name).0 == e
    ensures Known(e, key, name).1 ==
              if name != "" && name in e.identities then Some(e.identities[name])
              else if key in e.tracks then Some(e.tracks[key]) else None
  {
  }

  lemma CreateKeeps(e: Engine, c: Config, cam: Camera, t: TrackObs, now: real)
    requires Inv(e) && t.id.Some?
    ensures Inv(Create(e, c, cam, t, now).0)
  {
  }

  lemma ChooseKeeps(e: Engine, c: Config, cam: Camera, t: TrackObs, now: real)
    requires Inv(e) && t.id.Some?
    ensures Inv(Choose(e, c, cam, t, now).0)
  {
    NothingDangles(e, (cam.id, t.id.value), t.identity);
    CreateKeeps(e, c, cam, t, now);
  }

  lemma AttachKeeps(e: Engine, id: string, cam: Camera, t: TrackObs, now: real)
    requires Inv(e) && id in e.dossiers && t.id.Some?
    ensures Inv(Attach(e, id, cam, t, now))
  {
    assert Attach(e, id, cam, t, now).dossiers.Keys == e.dossiers.Keys;
  }

  lemma TrackKeeps(e: Engine, c: Config, cam: Camera, t: TrackObs, now: real)
    requires Inv(e)
    ensures Inv(TrackStep(e, c, cam, t, now))
  {
    if t.id.Some? && t.hasBox {
      ChooseKeeps(e, c, cam, t, now);
      var (e1, id) := Choose(e, c, cam, t, now);
      AttachKeeps(e1, id, cam, t, now);
    }
  }

  lemma PlateKeeps(e: Engine, cam: Camera, p: PlateObs)
    requires Inv(e)
    ensures Inv(PlateStep(e, cam, p))
  {
  }

  /** The engine with a thinned table, and no entry left that points at a dossier that
      is gone. */
  function Drop(e: Engine, r: (Table, seq<string>, set<string>)): Engine {
    Engine(r.0, r.1, Filter(e.tracks, r.2), Filter(e.identities, r.2), Filter(e.plates, r.2), e.nextId)
  }

  function Prune(e: Engine, c: Config): Engine
    requires Inv(e)
  {
    OrderedSize(e.dossiers, e.order);
    if |e.dossiers| <= c.maxDossiers then e
    else Drop(e, Evict(e.dossiers, e.order, |e.dossiers| - c.maxDossiers))
  }

  lemma DropKeeps(e: Engine, r: (Table, seq<string>, set<string>))
    requires Inv(e) && Ordered(r.0, r.1) && Thinned(e.dossiers, r.0, r.2)
    ensures Inv(Drop(e, r)) && |Drop(e, r).dossiers| == |r.1|
  {
    OrderedSize(r.0, r.1);
  }

  lemma EvictKeeps(e: Engine, n: nat)
    requires Inv(e) && n <= |e.order|
    ensures Inv(Drop(e, Evict(e.dossiers, e.order, n)))
    ensures |Drop(e, Evict(e.dossiers, e.order, n)).dossiers| == |e.order| - n
  {
    EvictOrdered(e.dossiers, e.order, n);
    EvictThins(e.dossiers, e.order, n);
    DropKeeps(e, Evict(e.dossiers, e.order, n));
  }

  lemma PruneKeeps(e: Engine, c: Config)
    requires Inv(e)
    ensures Inv(Prune(e, c)) && |Prune(e, c).dossiers| <= c.maxDossiers
  {
    OrderedSize(e.dossiers, e.order);
    if |e.dossiers| > c.maxDossiers {
      EvictKeeps(e, |e.dossiers| - c.maxDossiers);
    }
  }

  lemma InactiveKeeps(e: Engine, now: real)
    requires Inv(e)
    ensures Inv(MarkInactive(e, now))
  {
    assert MarkInactive(e, now).dossiers.Keys == e.dossiers.Keys;
  }

  // ---------------------------------------------------------------------- whole updates

  /** The observations of one update as the nested loops meet them. */
  datatype Item = TrackItem(cam: Camera, t: TrackObs) | PlateItem(cam: Camera, p: PlateObs)

  function ItemStep(e: Engine, c: Config, x: Item, now: real): Engine
    requires Inv(e)
  {
    match x
    case TrackItem(cam, t) => TrackStep(e, c, cam, t, now)
    case PlateItem(cam, p) => PlateStep(e, cam, p)
  }

  lemma ItemKeeps(e: Engine, c: Config, x: Item, now: real)
    requires Inv(e)
    ensures Inv(ItemStep(e, c, x, now))
  {
    match x
    case TrackItem(cam, t) => TrackKeeps(e, c, cam, t, now);
    case PlateItem(cam, p) => PlateKeeps(e, cam, p);
  }

  function Items(e: Engine, c: Config, xs: seq<Item>, now: real): (r: Engine)
    requires Inv(e)
    ensures Inv(r)
  {
    if xs == [] then e else
    var e1 := Items(e, c, xs[..|xs| - 1], now);
    ItemKeeps(e1, c, xs[|xs| - 1], now);
    ItemStep(e1, c, xs[|xs| - 1], now)
  }

  /** One call: all observations, then inactivity, then eviction. */
  function Update(e: Engine, c: Config, xs: seq<Item>, now: real): (r: Engine)
    requires Inv(e)
    ensures Inv(r) && |r.dossiers| <= c.maxDossiers
  {
    var e1 := Items(e, c, xs, now);
    InactiveKeeps(e1, now);
    PruneKeeps(MarkInactive(e1, now), c);
    Prune(MarkInactive(e1, now), c)
  }

  // --------------------------------------------------------------- threat never falls

  function ThreatRank(threat: string): nat {
    if threat == "CRITICAL" then 3 else if threat == "HIGH" then 2 else if threat == "MEDIUM" then 1 else 0
  }

  /** Generated ids are new: they never repeat, and none to come is in the table. */
  ghost predicate Fresh(e: Engine, c: Config) {
    && (forall a: nat, b: nat :: a != b ==> c.idOf(a) != c.idOf(b))
    && (forall n: nat :: e.nextId <= n ==> c.idOf(n) !in e.dossiers)
  }

  /** A threat that has stayed or gone up. */
  predicate Rises(threat: string, threat': string) {
    threat == threat' || ThreatRank(threat) < ThreatRank(threat')
  }

  /** Dossiers that are still there have kept their threat or gone up. */
  ghost predicate Risen(e: Engine, e': Engine) {
    forall id :: id in e.dossiers && id in e'.dossiers ==> Rises(e.dossiers[id].threat, e'.dossiers[id].threat)
  }

  lemma CreateFresh(e: Engine, c: Config, cam: Camera, t: TrackObs, now: real)
    requires Inv(e) && Fresh(e, c) && t.id.Some?
    ensures var (e', id) := Create(e, c, cam, t, now);
            && Fresh(e', c) && id !in e.dossiers && e.dossiers.Keys <= e'.dossiers.Keys
            && (forall k :: k in e.dossiers ==> e'.dossiers[k] == e.dossiers[k])
            && e'.tracks == e.tracks
  {
  }

  /** Choosing a dossier keeps the table, or adds a fresh dossier. */
  lemma ChooseFresh(e: Engine, c: Config, cam: Camera, t: TrackObs, now: real)
    requires Inv(e) && Fresh(e, c) && t.id.Some?
    ensures var (e', id) := Choose(e, c, cam, t, now);
            && Fresh(e', c) && e.dossiers.Keys <= e'.dossiers.Keys && e'.tracks == e.tracks
            && (forall k :: k in e.dossiers ==> e'.dossiers[k] == e.dossiers[k])
            && (t.identity == "" ==>
                  if (cam.id, t.id.value) in e.tracks then id == e.tracks[(cam.id, t.id.value)]
                  else id in e.dossiers ==> cam.name !in e.dossiers[id].cameras)
  {
    NothingDangles(e, (cam.id, t.id.value), t.identity);
    CreateFresh(e, c, cam, t, now);
  }

  /** Attaching a sighting keeps the ids in the table, and raises or keeps the rank. */
  lemma AttachRises(e: Engine, id: string, cam: Camera, t: TrackObs, now: real)
    requires id in e.dossiers && t.id.Some?
    ensures Attach(e, id, cam, t, now).dossiers.Keys == e.dossiers.Keys && Attach(e, id, cam, t, now).nextId == e.nextId
    ensures Risen(e, Attach(e, id, cam, t, now))
  {
  }

  lemma ItemRises(e: Engine, c: Config, x: Item, now: real)
    requires Inv(e) && Fresh(e, c)
    ensures Fresh(ItemStep(e, c, x, now), c) && Risen(e, ItemStep(e, c, x, now))
    ensures e.dossiers.Keys <= ItemStep(e, c, x, now).dossiers.Keys
  {
    match x
    case TrackItem(cam, t) =>
      if t.id.Some? && t.hasBox {
        ChooseFresh(e, c, cam, t, now);
        var (e1, id) := Choose(e, c, cam, t, now);
        AttachRises(e1, id, cam, t, now);
        assert Risen(e, e1);
      }
    case PlateItem(_, _) =>
  }

  lemma {:induction false} ItemsRise(e: Engine, c: Config, xs: seq<Item>, now: real)
    requires Inv(e) && Fresh(e, c)
    ensures Fresh(Items(e, c, xs, now), c) && Risen(e, Items(e, c, xs, now))
    ensures e.dossiers.Keys <= Items(e, c, xs, now).dossiers.Keys
  {
    if xs != [] {
      ItemsRise(e, c, xs[..|xs| - 1], now);
      ItemRises(Items(e, c, xs[..|xs| - 1], now), c, xs[|xs| - 1], now);
    }
  }

  lemma PruneOnlyDrops(e: Engine, c: Config)
    requires Inv(e)
    ensures forall id :: id in Prune(e, c).dossiers ==> id in e.dossiers && Prune(e, c).dossiers[id] == e.dossiers[id]
    ensures forall k :: k in Prune(e, c).tracks ==> k in e.tracks && Prune(e, c).tracks[k] == e.tracks[k]
    ensures Prune(e, c).nextId == e.nextId
  {
    OrderedSize(e.dossiers, e.order);
    if |e.dossiers| > c.maxDossiers {
      EvictThins(e.dossiers, e.order, |e.dossiers| - c.maxDossiers);
    }
  }

  /** What ends an update changes no threat. */
  lemma EndKeepsThreats(e: Engine, c: Config, now: real)
    requires Inv(e)
    ensures Inv(MarkInactive(e, now)) && Prune(MarkInactive(e, now), c).nextId == e.nextId
    ensures var e' := Prune(MarkInactive(e, now), c);
            forall id :: id in e'.dossiers ==> id in e.dossiers && e'.dossiers[id].threat == e.dossiers[id].threat
  {
    InactiveKeeps(e, now);
    PruneOnlyDrops(MarkInactive(e, now), c);
  }

  /** Over an update with fresh ids a surviving dossier keeps its threat level or gets a
      higher one, and ids stay fresh for the next one. */
  lemma ThreatNeverFalls(e: Engine, c: Config, xs: seq<Item>, now: real)
    requires Inv(e) && Fresh(e, c)
    ensures Fresh(Update(e, c, xs, now), c)
    ensures forall id :: id in e.dossiers && id in Update(e, c, xs, now).dossiers ==>
              Rises(e.dossiers[id].threat, Update(e, c, xs, now).dossiers[id].threat)
  {
    ItemsRise(e, c, xs, now);
    EndKeepsThreats(Items(e, c, xs, now), c, now);
  }

  lemma RisenThrough(e0: Engine, e1: Engine, e2: Engine)
    requires Risen(e0, e1) && e0.dossiers.Keys <= e1.dossiers.Keys
    requires Risen(e1, e2) && e1.dossiers.Keys <= e2.dossiers.Keys
    ensures Risen(e0, e2) && e0.dossiers.Keys <= e2.dossiers.Keys
  {
    forall id | id in e0.dossiers && id in e2.dossiers ensures Rises(e0.dossiers[id].threat, e2.dossiers[id].threat) {
      assert Rises(e0.dossiers[id].threat, e1.dossiers[id].threat);
      assert Rises(e1.dossiers[id].threat, e2.dossiers[id].threat);
    }
  }

  ghost predicate RisesTo(e: Engine, e': Engine) { Risen(e, e') && e.dossiers.Keys <= e'.dossiers.Keys }

  lemma {:induction false} RisesAlong(es: seq<Engine>, i: nat, n: nat)
    requires i <= n < |es| && forall a, b :: 0 <= a && b == a + 1 < |es| ==> RisesTo(es[a], es[b])
    ensures RisesTo(es[i], es[n])
    decreases n
  {
    if i < n {
      RisesAlong(es, i, n - 1);
      assert RisesTo(es[n - 1], es[n]);
      RisenThrough(es[i], es[n - 1], es[n]);
    }
  }

  /** The engine after each item of a pass. */
  ghost function Pass(e: Engine, c: Config, xs: seq<Item>, now: real): (es: seq<Engine>)
    requires Inv(e)
    ensures |es| == |xs| + 1 && forall k :: 0 <= k <= |xs| ==> es[k] == Items(e, c, xs[..k], now)
  {
    seq(|xs| + 1, k requires 0 <= k <= |xs| => Items(e, c, xs[..k], now))
  }

  lemma NextRises(e: Engine, c: Config, xs: seq<Item>, k: nat, now: real)
    requires Inv(e) && Fresh(e, c) && k < |xs|
    ensures RisesTo(Items(e, c, xs[..k], now), Items(e, c, xs[..k + 1], now))
  {
    assert xs[..k + 1][..k] == xs[..k];
    ItemsRise(e, c, xs[..k], now);
    ItemRises(Items(e, c, xs[..k], now), c, xs[k], now);
  }

  lemma LaterRises(e: Engine, c: Config, xs: seq<Item>, k: nat, now: real)
    requires Inv(e) && Fresh(e, c) && k <= |xs|
    ensures RisesTo(Items(e, c, xs[..k], now), Items(e, c, xs, now))
  {
    var es := Pass(e, c, xs, now);
    forall a, b | 0 <= a && b == a + 1 < |es| ensures RisesTo(es[a], es[b]) {
      NextRises(e, c, xs, a, now);
    }
    RisesAlong(es, k, |xs|);
    assert xs[..|xs|] == xs;
  }

  /** The level a sighting gives its dossier at the least: an intrusion is critical, and
      a watchlist level counts from high on. */
  function SightedRank(t: TrackObs): nat {
    if ThreatRank(ThreatOf(t)) >= 2 then ThreatRank(ThreatOf(t)) else 0
  }

  /** The dossier a sighting went to is at its level or above, and the track's. */
  lemma SightingRaises(e: Engine, c: Config, cam: Camera, t: TrackObs, now: real)
    requires Inv(e) && t.id.Some? && t.hasBox
    ensures var e' := TrackStep(e, c, cam, t, now);
            && (cam.id, t.id.value) in e'.tracks && e'.tracks[(cam.id, t.id.value)] in e'.dossiers
            && SightedRank(t) <= ThreatRank(e'.dossiers[e'.tracks[(cam.id, t.id.value)]].threat)
  {
    var (e1, id) := Choose(e, c, cam, t, now);
    assert Attach(e1, id, cam, t, now).dossiers[id].threat == Raised(e1.dossiers[id].threat, t);
  }

  lemma RankCarries(seen: Engine, after: Engine, end: Table, id: string, rank: nat)
    requires Risen(seen, after) && seen.dossiers.Keys <= after.dossiers.Keys
    requires forall i :: i in end ==> i in after.dossiers && end[i].threat == after.dossiers[i].threat
    requires id in seen.dossiers && rank <= ThreatRank(seen.dossiers[id].threat)
    ensures id in end ==> rank <= ThreatRank(end[id].threat)
  {
    if id in end {
      assert Rises(seen.dossiers[id].threat, after.dossiers[id].threat);
    }
  }

  /** Whatever else an update sees, the dossier of a sighting ends at the sighting's level
      or above, if it is still there. */
  lemma SightingCounts(e: Engine, c: Config, xs: seq<Item>, k: nat, now: real)
    requires Inv(e) && Fresh(e, c) && k < |xs| && xs[k].TrackItem? && xs[k].t.id.Some? && xs[k].t.hasBox
    ensures var key := (xs[k].cam.id, xs[k].t.id.value);
            var seen, end := Items(e, c, xs[..k + 1], now), Update(e, c, xs, now);
            && key in seen.tracks
            && (seen.tracks[key] in end.dossiers ==>
                  SightedRank(xs[k].t) <= ThreatRank(end.dossiers[seen.tracks[key]].threat))
  {
    assert xs[..k + 1][..k] == xs[..k];
    var key := (xs[k].cam.id, xs[k].t.id.value);
    var seen, after := Items(e, c, xs[..k + 1], now), Items(e, c, xs, now);
    SightingRaises(Items(e, c, xs[..k], now), c, xs[k].cam, xs[k].t, now);
    LaterRises(e, c, xs, k + 1, now);
    EndKeepsThreats(after, c, now);
    RankCarries(seen, after, Update(e, c, xs, now).dossiers, seen.tracks[key], SightedRank(xs[k].t));
  }

  // ----------------------------------------------------------- which dossier, and what it gets

  /** The i-th dossier in table order has the track's class, was seen within the window, and
      has been to the camera neither by name nor by the id in any sighting. */
  ghost predicate OpenAt(e: Engine, i: int, cam: Camera, className: string, now: real, window: real) {
    0 <= i < |e.order| && e.order[i] in e.dossiers &&
    var d := e.dossiers[e.order[i]];
    && d.subjectType == className && now - d.lastSeen <= window
    && (forall j :: 0 <= j < |d.cameras| ==> d.cameras[j] != cam.name)
    && (forall j :: 0 <= j < |d.sightings| ==> d.sightings[j].camera != cam.id)
  }

  /** The search returns the first open dossier of those from the k-th on. */
  lemma {:induction false} FirstTransferableIs(e: Engine, k: nat, cam: Camera, className: string, now: real, window: real)
    returns (i: nat)
    requires k <= |e.order|
    ensures k <= i <= |e.order| && forall j :: k <= j < i ==> !OpenAt(e, j, cam, className, now, window)
    ensures var found := FirstTransferable(e, e.order[k..], cam, className, now, window);
            if i < |e.order| then OpenAt(e, i, cam, className, now, window) && found == Some(e.order[i]) else found == None
    decreases |e.order| - k
  {
    if k == |e.order| || OpenAt(e, k, cam, className, now, window) {
      i := k;
    } else {
      assert e.order[k..][1..] == e.order[k + 1..];
      i := FirstTransferableIs(e, k + 1, cam, className, now, window);
    }
  }

  /** A track neither its name nor its camera and number know is handed the first open
      dossier in table order, and gets a new one exactly when none is open. */
  lemma HandedOverExactly(e: Engine, c: Config, cam: Camera, t: TrackObs, now: real) returns (i: nat)
    requires Inv(e) && t.id.Some? && t.hasBox
    requires (t.identity == "" || t.identity !in e.identities) && (cam.id, t.id.value) !in e.tracks
    ensures var e' := TrackStep(e, c, cam, t, now);
            && (cam.id, t.id.value) in e'.tracks && i <= |e.order|
            && (forall j :: 0 <= j < i ==> !OpenAt(e, j, cam, t.className, now, c.window))
            && if i < |e.order|
               then OpenAt(e, i, cam, t.className, now, c.window) && e'.tracks[(cam.id, t.id.value)] == e.order[i]
                    && e'.order == e.order && e'.nextId == e.nextId
               else e'.tracks[(cam.id, t.id.value)] == c.idOf(e.nextId) && e'.nextId == e.nextId + 1
  {
    NothingDangles(e, (cam.id, t.id.value), t.identity);
    i := FirstTransferableIs(e, 0, cam, t.className, now, c.window);
    assert e.order[0..] == e.order;
  }

  /** A track goes where its name says, else where its camera and number say. */
  lemma KnownGoesBack(e: Engine, c: Config, cam: Camera, t: TrackObs, now: real)
    requires Inv(e) && t.id.Some? && t.hasBox
    requires (t.identity != "" && t.identity in e.identities) || (cam.id, t.id.value) in e.tracks
    ensures var e' := TrackStep(e, c, cam, t, now);
            && (cam.id, t.id.value) in e'.tracks && e'.order == e.order && e'.nextId == e.nextId
            && e'.tracks[(cam.id, t.id.value)]
                 == if t.identity != "" && t.identity in e.identities then e.identities[t.identity]
                    else e.tracks[(cam.id, t.id.value)]
  {
    NothingDangles(e, (cam.id, t.id.value), t.identity);
  }

  /** The last `most` of all sightings, or all of them. */
  ghost predicate LastOnes(few: seq<Sighting>, all: seq<Sighting>, most: nat) {
    && |few| == (if |all| <= most then |all| else most)
    && forall j :: 0 <= j < |few| ==> few[j] == all[|all| - |few| + j]
  }

  /** What a sighting leaves of its dossier: sightings are the last twenty, or all, of a
      list that only grows, and the dossier is active, last seen now, and has been to the
      camera. */
  ghost predicate Sighted(before: Dossier, cam: Camera, t: TrackObs, now: real, after: Dossier) {
    && t.id.Some? && after.lastSeen == now && after.active
    && LastOnes(after.sightings,
                before.sightings + [Sighting(cam.id, cam.name, now, t.id.value, t.identity, t.intrusion)], 20)
    && after.cameras == (if cam.name in before.cameras then before.cameras else before.cameras + [cam.name])
    && after.firstSeen == before.firstSeen && after.subjectType == before.subjectType && after.plate == before.plate
  }

  /** A title that is not a dossier number gives way to a name. */
  predicate Renamable(d: Dossier) {
    |d.title| < 4 || d.title[0] != 'D' || d.title[1] != 'O' || d.title[2] != 'S' || d.title[3] != '-'
  }

  ghost predicate Titled(before: Dossier, t: TrackObs, after: Dossier) {
    after.title == if t.identity != "" && Renamable(before) then t.identity else before.title
  }

  lemma RenamableIs(d: Dossier)
    ensures Renamable(d) <==> !StartsWith(d.title, "DOS-")
  {
    if |d.title| >= 4 {
      assert d.title[..4] == [d.title[0], d.title[1], d.title[2], d.title[3]];
    }
  }

  /** Its level becomes the sighting's, if that is high or critical and above its own. */
  ghost predicate Levelled(before: Dossier, t: TrackObs, after: Dossier) {
    ThreatRank(after.threat) == (if SightedRank(t) > ThreatRank(before.threat) then SightedRank(t)
                                 else ThreatRank(before.threat))
  }

  lemma RaisedExactly(threat: string, t: TrackObs)
    ensures ThreatRank(Raised(threat, t))
         == if SightedRank(t) > ThreatRank(threat) then SightedRank(t) else ThreatRank(threat)
  {
  }

  lemma LastFewIs(s: seq<Sighting>)
    ensures LastOnes(LastFew(s), s, 20)
  {
  }

  lemma SeenLevel(d: Dossier, cam: Camera, t: TrackObs, now: real)
    requires t.id.Some?
    ensures Levelled(d, t, Seen(d, cam, t, now)) && Titled(d, t, Seen(d, cam, t, now))
  {
    RaisedExactly(d.threat, t);
    RenamableIs(d);
  }

  lemma SeenLists(d: Dossier, cam: Camera, t: TrackObs, now: real)
    requires t.id.Some?
    ensures Sighted(d, cam, t, now, Seen(d, cam, t, now))
  {
    LastFewIs(d.sightings + [Sighting(cam.id, cam.name, now, t.id.value, t.identity, t.intrusion)]);
  }

  lemma SeenExactly(d: Dossier, cam: Camera, t: TrackObs, now: real)
    requires t.id.Some?
    ensures Sighted(d, cam, t, now, Seen(d, cam, t, now))
    ensures Levelled(d, t, Seen(d, cam, t, now)) && Titled(d, t, Seen(d, cam, t, now))
  {
    SeenLists(d, cam, t, now);
    SeenLevel(d, cam, t, now);
  }

  lemma ChosenBefore(e: Engine, c: Config, cam: Camera, t: TrackObs, now: real)
    requires Inv(e) && Fresh(e, c) && t.id.Some?
    ensures var (e1, id) := Choose(e, c, cam, t, now);
            && (id in e.dossiers ==> e1.dossiers[id] == e.dossiers[id])
            && (id !in e.dossiers ==>
                  var d := e1.dossiers[id];
                  && d.sightings == [] && d.cameras == [cam.name] && d.firstSeen == now && d.plate == ""
                  && d.subjectType == t.className
                  && d.title == (if t.identity != "" then t.identity else c.labelOf(t.className, t.id.value))
                  && d.threat == if t.intrusion then "CRITICAL" else if t.threat != "" then t.threat else "LOW")
  {
    NothingDangles(e, (cam.id, t.id.value), t.identity);
  }

  /** With fresh ids a sighting leaves exactly that of the dossier it went to; if it opened
      one, that starts now with the track's class and the sighting's own level. */
  lemma SightedExactly(e: Engine, c: Config, cam: Camera, t: TrackObs, now: real) returns (before: Dossier)
    requires Inv(e) && Fresh(e, c) && t.id.Some? && t.hasBox
    ensures var e' := TrackStep(e, c, cam, t, now);
            (cam.id, t.id.value) in e'.tracks &&
            var id := e'.tracks[(cam.id, t.id.value)];
            && id in e'.dossiers && Sighted(before, cam, t, now, e'.dossiers[id])
            && Levelled(before, t, e'.dossiers[id]) && Titled(before, t, e'.dossiers[id])
            && (id in e.dossiers ==> before == e.dossiers[id])
            && (t.identity != "" && Renamable(before) ==> t.identity in e'.identities && e'.identities[t.identity] == id)
            && (id !in e.dossiers ==>
                  && before.sightings == [] && before.cameras == [cam.name] && before.firstSeen == now
                  && before.plate == "" && before.subjectType == t.className
                  && before.title == (if t.identity != "" then t.identity else c.labelOf(t.className, t.id.value))
                  && before.threat == if t.intrusion then "CRITICAL" else if t.threat != "" then t.threat else "LOW")
  {
    ChosenBefore(e, c, cam, t, now);
    var (e1, id) := Choose(e, c, cam, t, now);
    before := e1.dossiers[id];
    RenamableIs(before);
    SeenExactly(before, cam, t, now);
  }

  lemma ChoosingKeeps(e: Engine, c: Config, cam: Camera, t: TrackObs, now: real, id: string)
    requires Inv(e) && t.id.Some? && id in e.dossiers
    ensures var (e1, chosen) := Choose(e, c, cam, t, now);
            e1.tracks == e.tracks && (chosen != id ==> id in e1.dossiers && e1.dossiers[id] == e.dossiers[id])
  {
    NothingDangles(e, (cam.id, t.id.value), t.identity);
  }

  /** No other dossier, and no other track's entry, is touched. */
  lemma OthersUntouched(e: Engine, c: Config, cam: Camera, t: TrackObs, now: real, id: string, key: (string, int))
    requires Inv(e) && t.id.Some? && t.hasBox && id in e.dossiers
    requires TrackStep(e, c, cam, t, now).tracks[(cam.id, t.id.value)] != id || key != (cam.id, t.id.value)
    ensures var e' := TrackStep(e, c, cam, t, now);
            && (e'.tracks[(cam.id, t.id.value)] != id ==> id in e'.dossiers && e'.dossiers[id] == e.dossiers[id])
            && (key != (cam.id, t.id.value) && key in e.tracks ==> key in e'.tracks && e'.tracks[key] == e.tracks[key])
  {
    ChoosingKeeps(e, c, cam, t, now, id);
  }

  /** A read plate goes to the dossier of its track, else to the one that has it, and else
      nowhere. */
  lemma PlateGoes(e: Engine, cam: Camera, p: PlateObs)
    requires Inv(e)
    ensures var e' := PlateStep(e, cam, p);
            var byTrack := p.track.Some? && (cam.id, p.track.value) in e.tracks;
            if p.text == "" || (!byTrack && p.text !in e.plates) then e' == e
            else
              var id := if byTrack then e.tracks[(cam.id, p.track.value)] else e.plates[p.text];
              && id in e.dossiers && p.text in e'.plates && e'.plates[p.text] == id
              && e'.dossiers == e.dossiers[id := e.dossiers[id].(plate := p.text)]
              && (forall q :: q != p.text && q in e.plates ==> q in e'.plates && e'.plates[q] == e.plates[q])
              && e'.tracks == e.tracks && e'.identities == e.identities && e'.order == e.order
  {
  }

  lemma ItemKeepsName(e: Engine, c: Config, x: Item, now: real, name: string)
    requires Inv(e) && name != "" && name in e.identities
    ensures name in ItemStep(e, c, x, now).identities && ItemStep(e, c, x, now).identities[name] == e.identities[name]
    ensures x.TrackItem? && x.t.id.Some? && x.t.hasBox && x.t.identity == name ==>
              ItemStep(e, c, x, now).tracks[(x.cam.id, x.t.id.value)] == e.identities[name]
  {
    match x
    case TrackItem(cam, t) =>
      if t.id.Some? {
        NothingDangles(e, (cam.id, t.id.value), t.identity);
      }
    case PlateItem(_, _) =>
  }

  lemma {:induction false} NameKept(e: Engine, c: Config, xs: seq<Item>, now: real, name: string)
    requires Inv(e) && name != "" && name in e.identities
    ensures var e' := Items(e, c, xs, now); name in e'.identities && e'.identities[name] == e.identities[name]
  {
    if xs != [] {
      var n := |xs| - 1;
      NameKept(e, c, xs[..n], now, name);
      ItemKeepsName(Items(e, c, xs[..n], now), c, xs[n], now, name);
    }
  }

  /** A name keeps its dossier: throughout a pass every track of that name, on whatever
      camera, goes to it. */
  lemma NamedStayTogether(e: Engine, c: Config, xs: seq<Item>, k: nat, now: real, name: string)
    requires Inv(e) && name != "" && name in e.identities && k < |xs|
    requires xs[k].TrackItem? && xs[k].t.id.Some? && xs[k].t.hasBox && xs[k].t.identity == name
    ensures var seen, key := Items(e, c, xs[..k + 1], now), (xs[k].cam.id, xs[k].t.id.value);
            key in seen.tracks && seen.tracks[key] == e.identities[name]
  {
    assert xs[..k + 1][..k] == xs[..k];
    NameKept(e, c, xs[..k], now, name);
    var before := Items(e, c, xs[..k], now);
    ItemKeepsName(before, c, xs[k], now, name);
    KnownGoesBack(before, c, xs[k].cam, xs[k].t, now);
  }

  /** At the end of a pass a dossier is active exactly when it was and has been seen in the
      last 30 s; nothing else about it changes. */
  lemma ActiveExactly(e: Engine, c: Config, xs: seq<Item>, now: real, id: string)
    requires Inv(e) && id in Update(e, c, xs, now).dossiers
    ensures id in Items(e, c, xs, now).dossiers
    ensures var d := Items(e, c, xs, now).dossiers[id];
            Update(e, c, xs, now).dossiers[id] == d.(active := d.active && now - d.lastSeen <= 30.0)
  {
    InactiveKeeps(Items(e, c, xs, now), now);
    PruneOnlyDrops(MarkInactive(Items(e, c, xs, now), now), c);
  }

  // -------------------------------------------------------- tracks of one camera apart

  /** A tracked subject's dossier has been to the track's camera, and two tracks of one
      camera have different dossiers. */
  ghost predicate Apart(e: Engine, nameOf: string -> string)
    requires Inv(e)
  {
    && (forall k :: k in e.tracks ==> nameOf(k.0) in e.dossiers[e.tracks[k]].cameras)
    && (forall k, l :: k in e.tracks && l in e.tracks && k.0 == l.0 && k != l ==> e.tracks[k] != e.tracks[l])
  }

  /** An observation of an unnamed subject, from a camera that goes by its own name. */
  predicate Plain(x: Item, nameOf: string -> string) {
    x.TrackItem? ==> x.t.identity == "" && x.cam.name == nameOf(x.cam.id)
  }

  /** Pointing one track at a dossier that has now been to its camera, and had not
      before unless the track was already there. */
  lemma ApartStep(e: Engine, e': Engine, key: (string, int), id: string, nameOf: string -> string)
    requires Inv(e) && Apart(e, nameOf) && Inv(e')
    requires e'.tracks == e.tracks[key := id] && e.dossiers.Keys <= e'.dossiers.Keys
    requires forall k, n :: k in e.dossiers && n in e.dossiers[k].cameras ==> n in e'.dossiers[k].cameras
    requires id in e'.dossiers && nameOf(key.0) in e'.dossiers[id].cameras
    requires if key in e.tracks then id == e.tracks[key]
             else id in e.dossiers ==> nameOf(key.0) !in e.dossiers[id].cameras
    ensures Apart(e', nameOf)
  {
    forall k | k in e'.tracks ensures nameOf(k.0) in e'.dossiers[e'.tracks[k]].cameras {
    }
    forall k | k in e'.tracks && k != key && k.0 == key.0 ensures e'.tracks[k] != id {
      assert nameOf(k.0) in e.dossiers[e.tracks[k]].cameras;
    }
  }

  lemma AttachApart(e: Engine, e1: Engine, id: string, cam: Camera, t: TrackObs, now: real, nameOf: string -> string)
    requires Inv(e) && Apart(e, nameOf) && t.id.Some? && cam.name == nameOf(cam.id)
    requires id in e1.dossiers && e1.tracks == e.tracks && e.dossiers.Keys <= e1.dossiers.Keys
    requires forall k :: k in e.dossiers ==> e1.dossiers[k] == e.dossiers[k]
    requires if (cam.id, t.id.value) in e.tracks then id == e.tracks[(cam.id, t.id.value)]
             else id in e.dossiers ==> cam.name !in e.dossiers[id].cameras
    requires Inv(Attach(e1, id, cam, t, now))
    ensures Apart(Attach(e1, id, cam, t, now), nameOf)
  {
    var e', key := Attach(e1, id, cam, t, now), (cam.id, t.id.value);
    forall k, n | k in e.dossiers && n in e.dossiers[k].cameras ensures n in e'.dossiers[k].cameras {
    }
    ApartStep(e, e', key, id, nameOf);
  }

  lemma ItemApart(e: Engine, c: Config, x: Item, now: real, nameOf: string -> string)
    requires Inv(e) && Fresh(e, c) && Apart(e, nameOf) && Plain(x, nameOf)
    ensures Inv(ItemStep(e, c, x, now)) && Apart(ItemStep(e, c, x, now), nameOf)
  {
    ItemKeeps(e, c, x, now);
    if x.TrackItem? && x.t.id.Some? && x.t.hasBox {
      ChooseFresh(e, c, x.cam, x.t, now);
      var (e1, id) := Choose(e, c, x.cam, x.t, now);
      AttachApart(e, e1, id, x.cam, x.t, now, nameOf);
    }
  }

  lemma {:induction false} ItemsApart(e: Engine, c: Config, xs: seq<Item>, now: real, nameOf: string -> string)
    requires Inv(e) && Fresh(e, c) && Apart(e, nameOf)
    requires forall k :: 0 <= k < |xs| ==> Plain(xs[k], nameOf)
    ensures Apart(Items(e, c, xs, now), nameOf)
  {
    if xs != [] {
      var n := |xs| - 1;
      ItemsApart(e, c, xs[..n], now, nameOf);
      ItemsRise(e, c, xs[..n], now);
      ItemApart(Items(e, c, xs[..n], now), c, xs[n], now, nameOf);
    }
  }

  /** A run of updates, each with its own observations and clock reading. */
  datatype Call = Call(xs: seq<Item>, now: real)

  function After(c: Config, calls: seq<Call>): (e: Engine)
    ensures Inv(e) && (calls != [] ==> |e.dossiers| <= c.maxDossiers)
  {
    if calls == [] then EMPTY
    else Update(After(c, calls[..|calls| - 1]), c, calls[|calls| - 1].xs, calls[|calls| - 1].now)
  }

  /** Dropping dossiers with everything that points at them keeps tracks apart. */
  lemma FilterApart(e: Engine, e': Engine, nameOf: string -> string)
    requires Inv(e) && Inv(e') && Apart(e, nameOf)
    requires forall id :: id in e'.dossiers ==> id in e.dossiers && e'.dossiers[id].cameras == e.dossiers[id].cameras
    requires forall k :: k in e'.tracks ==> k in e.tracks && e'.tracks[k] == e.tracks[k]
    ensures Apart(e', nameOf)
  {
  }

  lemma UpdateApart(e: Engine, c: Config, call: Call, nameOf: string -> string)
    requires Inv(e) && Fresh(e, c) && Apart(e, nameOf)
    requires forall k :: 0 <= k < |call.xs| ==> Plain(call.xs[k], nameOf)
    ensures Apart(Update(e, c, call.xs, call.now), nameOf)
  {
    var e1 := Items(e, c, call.xs, call.now);
    ItemsApart(e, c, call.xs, call.now, nameOf);
    InactiveKeeps(e1, call.now);
    PruneOnlyDrops(MarkInactive(e1, call.now), c);
    FilterApart(e1, Update(e, c, call.xs, call.now), nameOf);
  }

  /** Over every run of updates with fresh ids, unnamed subjects and cameras that keep
      their names, two tracks of one camera never share a dossier. */
  lemma {:induction false} TracksStayApart(c: Config, calls: seq<Call>, nameOf: string -> string)
    requires forall a: nat, b: nat :: a != b ==> c.idOf(a) != c.idOf(b)
    requires forall i, k :: 0 <= i < |calls| && 0 <= k < |calls[i].xs| ==> Plain(calls[i].xs[k], nameOf)
    ensures Fresh(After(c, calls), c) && Apart(After(c, calls), nameOf)
  {
    if calls != [] {
      var n := |calls| - 1;
      TracksStayApart(c, calls[..n], nameOf);
      ThreatNeverFalls(After(c, calls[..n]), c, calls[n].xs, calls[n].now);
      UpdateApart(After(c, calls[..n]), c, calls[n], nameOf);
    }
  }

  // ------------------------------------------------------------------------- the class

  function TrackItems(cam: Camera, ts: seq<TrackObs>): seq<Item> {
    seq(|ts|, i requires 0 <= i < |ts| => TrackItem(cam, ts[i]))
  }

  function PlateItems(cam: Camera, ps: seq<PlateObs>): seq<Item> {
    seq(|ps|, i requires 0 <= i < |ps| => PlateItem(cam, ps[i]))
  }

  function CameraItems(cam: Camera, obs: map<string, Obs>): seq<Item> {
    if cam.id in obs then TrackItems(cam, obs[cam.id].tracks) + PlateItems(cam, obs[cam.id].plates) else []
  }

  /** The observations in the order of the nested loops: camera by camera, its tracks
      before its plates. */
  function ItemsOf(cams: seq<Camera>, obs: map<string, Obs>): seq<Item> {
    if cams == [] then [] else ItemsOf(cams[..|cams| - 1], obs) + CameraItems(cams[|cams| - 1], obs)
  }

  lemma ItemsOfNext(cams: seq<Camera>, obs: map<string, Obs>, i: nat)
    requires i < |cams|
    ensures ItemsOf(cams[..i + 1], obs) == ItemsOf(cams[..i], obs) + CameraItems(cams[i], obs)
  {
    assert cams[..i + 1][..i] == cams[..i];
  }

  lemma ItemsUpTo(before: seq<Item>, cam: Camera, obs: map<string, Obs>)
    ensures before + CameraItems(cam, obs)
         == if cam.id in obs then before + TrackItems(cam, obs[cam.id].tracks) + PlateItems(cam, obs[cam.id].plates)
            else before
  {
  }

  lemma PrefixSnoc<T>(before: seq<T>, xs: seq<T>, i: nat)
    requires i < |xs|
    ensures before + xs[..i + 1] == before + xs[..i] + [xs[i]]
  {
  }

  /** The fold over one more observation. */
  lemma ItemsSnoc(e: Engine, c: Config, xs: seq<Item>, x: Item, now: real)
    requires Inv(e)
    ensures Items(e, c, xs + [x], now) == ItemStep(Items(e, c, xs, now), c, x, now)
  {
    assert (xs + [x])[..|xs|] == xs;
  }

  class HandoverEngine {
    const config: Config
    var dossiers: Table
    var order: seq<string>
    var trackMap: map<(string, int), string>
    var identityMap: map<string, string>
    var plateMap: map<string, string>
    var nextId: nat

    ghost function View(): Engine
      reads this
    {
      Engine(dossiers, order, trackMap, identityMap, plateMap, nextId)
    }

    constructor (config: Config)
      ensures View() == EMPTY && this.config == config
    {
      this.config := config;
      dossiers, order, trackMap, identityMap, plateMap, nextId := map[], [], map[], map[], map[], 0;
    }

    method FindKnown(key: (string, int), name: string) returns (id: Option<string>)
      modifies this
      ensures (View(), id) == Known(old(View()), key, name)
    {
      if name != "" && name in identityMap {
        if identityMap[name] in dossiers {
          return Some(identityMap[name]);
        }
        identityMap := identityMap - {name};
      }
      if key in trackMap {
        if trackMap[key] in dossiers {
          return Some(trackMap[key]);
        }
        trackMap := trackMap - {key};
      }
      return None;
    }

    method FindTransferable(cam: Camera, className: string, now: real) returns (id: Option<string>)
      ensures id == FirstTransferable(View(), order, cam, className, now, config.window)
    {
      for i := 0 to |order|
        invariant FirstTransferable(View(), order, cam, className, now, config.window)
                  == FirstTransferable(View(), order[i..], cam, className, now, config.window)
      {
        assert order[i..][1..] == order[i + 1..];
        if order[i] in dossiers && Transferable(dossiers[order[i]], cam, className, now, config.window) {
          return Some(order[i]);
        }
      }
      return None;
    }

    method CreateDossier(cam: Camera, t: TrackObs, now: real) returns (id: string)
      requires t.id.Some?
      modifies this
      ensures (View(), id) == Create(old(View()), config, cam, t, now)
    {
      id := config.idOf(nextId);
      var title := if t.identity != "" then t.identity else config.labelOf(t.className, t.id.value);
      if id !in dossiers {
        order := order + [id];
      }
      dossiers := dossiers[id := Dossier(t.className, title, ThreatOf(t), now, now, [cam.name], [], "", true)];
      nextId := nextId + 1;
    }

    method RecordSighting(id: string, cam: Camera, t: TrackObs, now: real)
      requires id in dossiers && t.id.Some?
      modifies this
      ensures View() == Attach(old(View()), id, cam, t, now)
    {
      var d := dossiers[id].(lastSeen := now, active := true);
      if cam.name !in d.cameras {
        d := d.(cameras := d.cameras + [cam.name]);
      }
      if t.identity != "" && !StartsWith(d.title, "DOS-") {
        d := d.(title := t.identity);
        identityMap := identityMap[t.identity := id];
      }
      if t.intrusion || ThreatOf(t) == "CRITICAL" {
        d := d.(threat := "CRITICAL");
      } else if ThreatOf(t) == "HIGH" && d.threat != "CRITICAL" {
        d := d.(threat := "HIGH");
      }
      trackMap := trackMap[(cam.id, t.id.value) := id];
      d := d.(sightings := d.sightings + [Sighting(cam.id, cam.name, now, t.id.value, t.identity, t.intrusion)]);
      if |d.sightings| > KEEP {
        d := d.(sightings := d.sightings[|d.sightings| - KEEP..]);
      }
      dossiers := dossiers[id := d];
    }

    method HandleTrack(cam: Camera, t: TrackObs, now: real)
      requires Inv(View())
      modifies this
      ensures View() == TrackStep(old(View()), config, cam, t, now) && Inv(View())
    {
      TrackKeeps(View(), config, cam, t, now);
      if t.id.None? || !t.hasBox {
        return;
      }
      var id := FindKnown((cam.id, t.id.value), t.identity);
      if id.None? {
        id := FindTransferable(cam, t.className, now);
      }
      if id.None? {
        var created := CreateDossier(cam, t, now);
        id := Some(created);
      }
      RecordSighting(id.value, cam, t, now);
    }

    method HandlePlate(cam: Camera, p: PlateObs)
      requires Inv(View())
      modifies this
      ensures View() == PlateStep(old(View()), cam, p) && Inv(View())
    {
      PlateKeeps(View(), cam, p);
      if p.text == "" {
        return;
      }
      var found := None;
      if p.track.Some? && (cam.id, p.track.value) in trackMap {
        found := Some(trackMap[(cam.id, p.track.value)]);
      } else if p.text in plateMap {
        found := Some(plateMap[p.text]);
      }
      if found.Some? && found.value in dossiers {
        dossiers := dossiers[found.value := dossiers[found.value].(plate := p.text)];
        plateMap := plateMap[p.text := found.value];
      }
    }

    /** The inner loop over one camera's tracks. */
    method HandleTracks(cam: Camera, ts: seq<TrackObs>, now: real, ghost e0: Engine, ghost before: seq<Item>)
      requires Inv(e0) && View() == Items(e0, config, before, now)
      modifies this
      ensures View() == Items(e0, config, before + TrackItems(cam, ts), now)
    {
      ghost var xs := TrackItems(cam, ts);
      assert before + xs[..0] == before;
      for i := 0 to |ts|
        invariant View() == Items(e0, config, before + xs[..i], now)
      {
        PrefixSnoc(before, xs, i);
        ItemsSnoc(e0, config, before + xs[..i], xs[i], now);
        HandleTrack(cam, ts[i], now);
      }
      assert xs[..|ts|] == xs;
    }

    /** The inner loop over one camera's plates. */
    method HandlePlates(cam: Camera, ps: seq<PlateObs>, now: real, ghost e0: Engine, ghost before: seq<Item>)
      requires Inv(e0) && View() == Items(e0, config, before, now)
      modifies this
      ensures View() == Items(e0, config, before + PlateItems(cam, ps), now)
    {
      ghost var xs := PlateItems(cam, ps);
      assert before + xs[..0] == before;
      for i := 0 to |ps|
        invariant View() == Items(e0, config, before + xs[..i], now)
      {
        PrefixSnoc(before, xs, i);
        ItemsSnoc(e0, config, before + xs[..i], xs[i], now);
        HandlePlate(cam, ps[i]);
      }
      assert xs[..|ps|] == xs;
    }

    /** What one camera's observations do, if there are any. */
    method HandleCamera(cam: Camera, obs: map<string, Obs>, now: real, ghost e0: Engine, ghost before: seq<Item>)
      requires Inv(e0) && View() == Items(e0, config, before, now)
      modifies this
      ensures View() == Items(e0, config, before + CameraItems(cam, obs), now)
    {
      if cam.id in obs {
        HandleTracks(cam, obs[cam.id].tracks, now, e0, before);
        HandlePlates(cam, obs[cam.id].plates, now, e0, before + TrackItems(cam, obs[cam.id].tracks));
      }
      ItemsUpTo(before, cam, obs);
    }

    /** One turn of the eviction loop, n turns before the end. */
    method EvictOne(n: nat, gone: set<string>) returns (gone': set<string>)
      requires Ordered(dossiers, order) && 0 < n <= |order|
      modifies `dossiers, `order
      ensures Ordered(dossiers, order) && |order| == old(|order|) - 1
      ensures Evict(old(dossiers), old(order), n).0 == Evict(dossiers, order, n - 1).0
      ensures Evict(old(dossiers), old(order), n).1 == Evict(dossiers, order, n - 1).1
      ensures gone + Evict(old(dossiers), old(order), n).2 == gone' + Evict(dossiers, order, n - 1).2
    {
      EvictOnce(dossiers, order, n, gone);
      var o := Oldest(dossiers, order);
      gone' := gone + {o};
      dossiers, order := dossiers - {o}, Without(order, o);
    }

    method EvictOldest(n: nat) returns (gone: set<string>)
      requires Ordered(dossiers, order) && n <= |order|
      modifies `dossiers, `order
      ensures (dossiers, order, gone) == Evict(old(dossiers), old(order), n)
    {
      gone := {};
      var k := 0;
      ghost var goal := Evict(dossiers, order, n);
      assert gone + goal.2 == goal.2;
      while k < n
        invariant 0 <= k <= n && Ordered(dossiers, order) && n - k <= |order|
        invariant goal.0 == Evict(dossiers, order, n - k).0 && goal.1 == Evict(dossiers, order, n - k).1
        invariant goal.2 == gone + Evict(dossiers, order, n - k).2
      {
        gone := EvictOne(n - k, gone);
        k := k + 1;
      }
      assert goal.2 == gone;
    }

    method PruneOld()
      requires Inv(View())
      modifies this
      ensures View() == Prune(old(View()), config)
    {
      ghost var e := View();
      OrderedSize(dossiers, order);
      if |dossiers| > config.maxDossiers {
        var gone := EvictOldest(|dossiers| - config.maxDossiers);
        trackMap, identityMap, plateMap := Filter(trackMap, gone), Filter(identityMap, gone), Filter(plateMap, gone);
        assert View() == Drop(e, (dossiers, order, gone));
      }
    }

    method MarkOldInactive(now: real)
      modifies `dossiers
      ensures View() == MarkInactive(old(View()), now)
    {
      dossiers := map id | id in dossiers ::
        if now - dossiers[id].lastSeen > 30.0 then dossiers[id].(active := false) else dossiers[id];
    }

    method HandleCameras(cams: seq<Camera>, obs: map<string, Obs>, now: real)
      requires Inv(View())
      modifies this
      ensures View() == Items(old(View()), config, ItemsOf(cams, obs), now)
    {
      ghost var e0, before := View(), [];
      for i := 0 to |cams|
        invariant before == ItemsOf(cams[..i], obs) && View() == Items(e0, config, before, now)
      {
        ItemsOfNext(cams, obs, i);
        HandleCamera(cams[i], obs, now, e0, before);
        before := before + CameraItems(cams[i], obs);
      }
      assert cams[..|cams|] == cams;
    }

    /** The end of a pass: inactivity, then eviction. */
    method FinishPass(now: real)
      requires Inv(View())
      modifies this
      ensures Inv(MarkInactive(old(View()), now)) && View() == Prune(MarkInactive(old(View()), now), config)
      ensures Inv(View()) && |dossiers| <= config.maxDossiers
    {
      InactiveKeeps(View(), now);
      MarkOldInactive(now);
      PruneKeeps(View(), config);
      PruneOld();
    }

    /** The whole update is the fold over its observations followed by eviction. */
    method UpdateObservations(cams: seq<Camera>, obs: map<string, Obs>, now: real)
      requires Inv(View())
      modifies this
      ensures View() == Update(old(View()), config, ItemsOf(cams, obs), now)
      ensures Inv(View()) && |dossiers| <= config.maxDossiers
    {
      HandleCameras(cams, obs, now);
      FinishPass(now);
    }
  }
}
