/** The per-camera pipeline's alert bookkeeping: sets and maps over all tracks,
    updated frame by frame, refining the one-track machine of Presence. */
module AlertPipeline {
  import opened Basics
  import P = Presence
  import Rules
  import W = IdentitySweep

  datatype Seen = Seen(id: int, watched: bool, hit: bool, inZone: bool, suspect: bool)
  datatype Last = Last(outside: bool, identified: bool)
  datatype Term = Term(id: int, outside: bool, hits: nat, confidence: real)

  /** One sampled frame: the clock, the zone, and what the tracker reports. `live`
      is the tracker's table after the update. */
  datatype Frame = Frame(now: real, zone: string, isLine: bool, isDefault: bool, visible: seq<Seen>,
                         live: map<int, Last>, terminated: seq<Term>)

  datatype Slot = InZone(zone: string) | Fov

  /** A boundary event. */
  datatype Event = Event(kind: P.Kind, track: int, zone: string, ts: real)
  type Notice = Rules.Notice

  // -------------------------------------------------------- a frame, track by track

  function SeenIn(vs: seq<Seen>, t: int): Option<Seen> {
    if vs == [] then None
    else if vs[|vs| - 1].id == t then Some(vs[|vs| - 1])
    else SeenIn(vs[..|vs| - 1], t)
  }

  function HitIn(vs: seq<Seen>, t: int): Option<bool> {
    match SeenIn(vs, t)
    case None => None
    case Some(s) => if s.watched then Some(s.hit) else None
  }

  function TermIn(ts: seq<Term>, t: int): Option<bool> {
    if ts == [] then None
    else if ts[|ts| - 1].id == t then Some(ts[|ts| - 1].outside)
    else TermIn(ts[..|ts| - 1], t)
  }

  /** The frame as one track meets it. */
  function ObsOf(f: Frame, t: int): P.Obs {
    P.Obs(HitIn(f.visible, t), SeenIn(f.visible, t).Some?, if t in f.live then Some(f.live[t].outside) else None,
          TermIn(f.terminated, t))
  }

  ghost function VisibleIds(vs: seq<Seen>): set<int> { set s | s in vs :: s.id }
  ghost function EndedIds(ts: seq<Term>): set<int> { set t | t in ts :: t.id }

  /** The tracker's contract for one frame. */
  ghost predicate TrackerShape(f: Frame) {
    && (forall a, b :: 0 <= a < b < |f.visible| ==> f.visible[a].id != f.visible[b].id)
    && (forall a, b :: 0 <= a < b < |f.terminated| ==> f.terminated[a].id != f.terminated[b].id)
    && (forall a :: 0 <= a < |f.visible| ==> f.visible[a].id in f.live)
    && (forall a :: 0 <= a < |f.terminated| ==> f.terminated[a].id !in f.live)
  }

  /** The same with identities filled in: a suspect has one. */
  ghost predicate TrackerOk(f: Frame) {
    && TrackerShape(f)
    && forall a :: 0 <= a < |f.visible| && f.visible[a].suspect ==> f.live[f.visible[a].id].identified
  }

  lemma {:induction false} SeenInMember(vs: seq<Seen>, t: int)
    ensures SeenIn(vs, t).Some? <==> t in VisibleIds(vs)
    ensures SeenIn(vs, t).Some? ==> SeenIn(vs, t).value in vs && SeenIn(vs, t).value.id == t
  {
    if vs != [] {
      SeenInMember(vs[..|vs| - 1], t);
      assert vs == vs[..|vs| - 1] + [vs[|vs| - 1]];
    }
  }

  lemma {:induction false} TermInMember(ts: seq<Term>, t: int)
    ensures TermIn(ts, t).Some? <==> t in EndedIds(ts)
  {
    if ts != [] {
      TermInMember(ts[..|ts| - 1], t);
      assert ts == ts[..|ts| - 1] + [ts[|ts| - 1]];
    }
  }

  /** The frames the tracker sends are frames the one-track machine accepts. */
  lemma ObsIsTrackerFrame(f: Frame, t: int)
    requires TrackerOk(f)
    ensures P.TrackerFrame(ObsOf(f, t))
  {
    SeenInMember(f.visible, t);
    TermInMember(f.terminated, t);
  }

  ghost function WatchedIds(vs: seq<Seen>): set<int> { set s | s in vs && s.watched :: s.id }

  lemma {:induction false} HitInMember(vs: seq<Seen>, k: nat)
    requires k < |vs| && vs[k].watched
    requires forall a, b :: 0 <= a < b < |vs| ==> vs[a].id != vs[b].id
    ensures HitIn(vs, vs[k].id) == Some(vs[k].hit)
  {
    var n := |vs| - 1;
    if k < n {
      HitInMember(vs[..n], k);
    }
  }

  lemma UnwatchedUnseen(vs: seq<Seen>)
    ensures forall t :: t !in WatchedIds(vs) ==> HitIn(vs, t) == None
  {
    forall t ensures t !in WatchedIds(vs) ==> HitIn(vs, t) == None {
      SeenInMember(vs, t);
    }
  }

  /** One more visible track: not among the earlier ones, and found in the whole. */
  lemma NextSeen(f: Frame, i: nat)
    requires TrackerOk(f) && i < |f.visible|
    ensures WatchedIds(f.visible[..i + 1])
              == if f.visible[i].watched then WatchedIds(f.visible[..i]) + {f.visible[i].id} else WatchedIds(f.visible[..i])
    ensures f.visible[i].id !in WatchedIds(f.visible[..i]) && f.visible[i].id in VisibleIds(f.visible)
    ensures f.visible[i].watched ==> HitIn(f.visible, f.visible[i].id) == Some(f.visible[i].hit)
  {
    assert f.visible[..i + 1] == f.visible[..i] + [f.visible[i]];
    if f.visible[i].watched {
      HitInMember(f.visible, i);
    }
  }

  lemma {:induction false} TermInAt(ts: seq<Term>, k: nat)
    requires k < |ts| && forall a, b :: 0 <= a < b < |ts| ==> ts[a].id != ts[b].id
    ensures TermIn(ts, ts[k].id) == Some(ts[k].outside)
  {
    if k < |ts| - 1 {
      TermInAt(ts[..|ts| - 1], k);
    }
  }

  /** One more ended track: not among the earlier ones, and found in the whole. */
  lemma NextEnded(f: Frame, i: nat)
    requires TrackerOk(f) && i < |f.terminated|
    ensures EndedIds(f.terminated[..i + 1]) == EndedIds(f.terminated[..i]) + {f.terminated[i].id}
    ensures f.terminated[i].id !in EndedIds(f.terminated[..i])
    ensures ObsOf(f, f.terminated[i].id).term == Some(f.terminated[i].outside)
  {
    assert f.terminated[..i + 1] == f.terminated[..i] + [f.terminated[i]];
    TermInAt(f.terminated, i);
  }

  // ------------------------------------------------------ what the rule engine is told

  function LookOf(s: Seen, f: Frame): Rules.Op { Rules.Look(s.id, f.zone, s.inZone, f.now) }

  /** One look per visible track, unless the zone is the default one. */
  ghost function LooksOf(f: Frame): (ops: seq<Rules.Op>)
    ensures !f.isDefault ==> |ops| == |f.visible| && forall i :: 0 <= i < |f.visible| ==> ops[i] == LookOf(f.visible[i], f)
  {
    if f.isDefault then [] else seq(|f.visible|, i requires 0 <= i < |f.visible| => LookOf(f.visible[i], f))
  }

  ghost function Prunes(ts: seq<Term>): (ops: seq<Rules.Op>)
    ensures |ops| == |ts| && forall i :: 0 <= i < |ts| ==> ops[i] == Rules.Prune(ts[i].id)
  {
    seq(|ts|, i requires 0 <= i < |ts| => Rules.Prune(ts[i].id))
  }

  ghost function OpsOf(f: Frame): seq<Rules.Op> { LooksOf(f) + Prunes(f.terminated) }

  ghost function AllOps(frames: seq<Frame>): seq<Rules.Op> {
    if frames == [] then [] else AllOps(frames[..|frames| - 1]) + OpsOf(frames[|frames| - 1])
  }

  lemma NextOp(step: Rules.Stepper, e: Rules.Engine, ops: seq<Rules.Op>, i: nat)
    requires i < |ops|
    ensures var (e', b) := step(Rules.StepAll(step, e, ops[..i]), ops[i]);
            && Rules.StepAll(step, e, ops[..i + 1]) == e'
            && Rules.Noticed(step, e, ops[..i + 1])
                 == if ops[i].Look? && b then Rules.Noticed(step, e, ops[..i]) + [Rules.Notice(ops[i].track, ops[i].ts)]
                    else Rules.Noticed(step, e, ops[..i])
  {
    assert ops[..i + 1][..i] == ops[..i];
  }

  /** What the engine and the notices are after the first n operations from e. */
  ghost predicate Told(step: Rules.Stepper, e: Rules.Engine, ops: seq<Rules.Op>, n: nat, e': Rules.Engine,
                       before: seq<Notice>, after: seq<Notice>)
    requires n <= |ops|
  {
    e' == Rules.StepAll(step, e, ops[..n]) && after == before + Rules.Noticed(step, e, ops[..n])
  }

  lemma ToldNext(step: Rules.Stepper, e: Rules.Engine, ops: seq<Rules.Op>, i: nat, e1: Rules.Engine, e2: Rules.Engine,
                 l0: seq<Notice>, l1: seq<Notice>, l2: seq<Notice>)
    requires i < |ops| && ops[i].Look? && Told(step, e, ops, i, e1, l0, l1) && e2 == step(e1, ops[i]).0
    requires l2 == if step(e1, ops[i]).1 then l1 + [Rules.Notice(ops[i].track, ops[i].ts)] else l1
    ensures Told(step, e, ops, i + 1, e2, l0, l2)
  {
    NextOp(step, e, ops, i);
  }

  lemma {:induction false} PrunesAreSilent(step: Rules.Stepper, e: Rules.Engine, ts: seq<Term>)
    ensures Rules.Noticed(step, e, Prunes(ts)) == []
  {
    if ts != [] {
      assert Prunes(ts)[..|ts| - 1] == Prunes(ts[..|ts| - 1]);
      PrunesAreSilent(step, e, ts[..|ts| - 1]);
    }
  }

  /** A frame's looks and prunes together. */
  lemma FrameBatch(step: Rules.Stepper, e: Rules.Engine, f: Frame, e1: Rules.Engine, l0: seq<Notice>, l1: seq<Notice>)
    requires Told(step, e, LooksOf(f), |LooksOf(f)|, e1, l0, l1)
    ensures Told(step, e, OpsOf(f), |OpsOf(f)|, Rules.StepAll(step, e1, Prunes(f.terminated)), l0, l1)
  {
    var looks, prunes := LooksOf(f), Prunes(f.terminated);
    assert looks[..|looks|] == looks && OpsOf(f)[..|OpsOf(f)|] == looks + prunes;
    Rules.BatchesAddUp(step, e, looks, prunes);
    PrunesAreSilent(step, e1, f.terminated);
  }

  /** The engine and the notices after some frames of an epoch. */
  ghost predicate ToldAll(step: Rules.Stepper, frames: seq<Frame>, e: Rules.Engine, notices: seq<Notice>) {
    e == Rules.StepAll(step, Rules.START, AllOps(frames)) && notices == Rules.Noticed(step, Rules.START, AllOps(frames))
  }

  lemma NextFrame(step: Rules.Stepper, frames: seq<Frame>, i: nat, e1: Rules.Engine, e2: Rules.Engine,
                  l1: seq<Notice>, l2: seq<Notice>)
    requires i < |frames| && ToldAll(step, frames[..i], e1, l1)
    requires Told(step, e1, OpsOf(frames[i]), |OpsOf(frames[i])|, e2, l1, l2)
    ensures ToldAll(step, frames[..i + 1], e2, l2)
  {
    var ops := OpsOf(frames[i]);
    assert frames[..i + 1][..i] == frames[..i] && ops[..|ops|] == ops;
    Rules.BatchesAddUp(step, Rules.START, AllOps(frames[..i]), ops);
  }

  // ------------------------------------------------------------------------- suspects

  /** A claim worth an alert: locked, or critical at the red tier. */
  predicate Alarming(c: W.Claim) {
    c.identity.Some? && (c.locked || (c.identity.value.critical && c.identity.value.red))
  }

  /** The frame with the identities the tracks have. */
  function WithIdentities(f: Frame, claims: map<int, W.Claim>): Frame {
    f.(visible := seq(|f.visible|, i requires 0 <= i < |f.visible| =>
                    var s := f.visible[i]; s.(suspect := s.id in claims && Alarming(claims[s.id]))),
       live := map t | t in f.live :: f.live[t].(identified := t in claims && claims[t].identity.Some?))
  }

  lemma WithIdentitiesOk(f: Frame, claims: map<int, W.Claim>)
    requires TrackerShape(f)
    ensures TrackerOk(WithIdentities(f, claims))
  {
    var g := WithIdentities(f, claims);
    assert |g.visible| == |f.visible| && forall a :: 0 <= a < |f.visible| ==> g.visible[a].id == f.visible[a].id;
    assert g.live.Keys == f.live.Keys;
  }

  /** The tracks of the tracker's table when the sweep starts, and their claims. */
  datatype Roster = Roster(ids: seq<int>, claims: seq<W.Claim>)

  ghost predicate RosterOk(f: Frame, r: Roster) {
    && |r.ids| == |r.claims| && (forall a, b :: 0 <= a < b < |r.ids| ==> r.ids[a] != r.ids[b])
    && (forall t :: t in f.live <==> t in r.ids)
  }

  /** What the sweep leaves of each claim, by id. */
  ghost function SweptClaims(r: Roster): map<int, W.Claim>
    requires |r.ids| == |r.claims| && forall a, b :: 0 <= a < b < |r.ids| ==> r.ids[a] != r.ids[b]
  {
    map j | 0 <= j < |r.ids| :: r.ids[j] := W.Swept(r.claims, j, |r.claims|)
  }

  lemma ClaimsAreSwept(claims: map<int, W.Claim>, r: Roster)
    requires |r.ids| == |r.claims| && forall a, b :: 0 <= a < b < |r.ids| ==> r.ids[a] != r.ids[b]
    requires forall j :: 0 <= j < |r.ids| ==> r.ids[j] in claims && claims[r.ids[j]] == W.Swept(r.claims, j, |r.claims|)
    requires forall t :: t in claims ==> t in r.ids
    ensures claims == SweptClaims(r)
  {
    var swept := SweptClaims(r);
    forall t | t in claims ensures t in swept && swept[t] == claims[t] {
      var j :| 0 <= j < |r.ids| && r.ids[j] == t;
    }
  }

  /** The frame as the sections after the sweep find it. */
  ghost function SweptFrame(f: Frame, r: Roster): Frame
    requires RosterOk(f, r)
  {
    WithIdentities(f, SweptClaims(r))
  }

  /** Every live track is identified, or alarming, as the sweep left its claim. */
  lemma SweptFrameReads(f: Frame, r: Roster, j: nat)
    requires TrackerShape(f) && RosterOk(f, r) && j < |r.ids|
    ensures TrackerOk(SweptFrame(f, r)) && r.ids[j] in SweptFrame(f, r).live
    ensures SweptFrame(f, r).live[r.ids[j]].identified <==> W.Swept(r.claims, j, |r.claims|).identity.Some?
    ensures forall a :: 0 <= a < |f.visible| && f.visible[a].id == r.ids[j] ==>
              var c := W.Swept(r.claims, j, |r.claims|);
              (SweptFrame(f, r).visible[a].suspect <==>
                 c.identity.Some? && (c.locked || (c.identity.value.critical && c.identity.value.red)))
  {
    WithIdentitiesOk(f, SweptClaims(r));
    assert r.ids[j] in r.ids;
    assert SweptClaims(r)[r.ids[j]] == W.Swept(r.claims, j, |r.claims|);
  }

  ghost function SuspectIds(vs: seq<Seen>): set<int> { set s | s in vs && s.suspect :: s.id }

  /** The alerted suspects that are still live and identified. */
  ghost function Identified(alerted: set<int>, f: Frame): set<int> {
    set t | t in alerted && t in f.live && f.live[t].identified
  }

  /** One notice for each suspect seen that was not alerted before, in order. */
  ghost function DueSuspects(vs: seq<Seen>, alerted: set<int>, now: real): seq<Notice> {
    if vs == [] then [] else
    var n := |vs| - 1;
    var rest := DueSuspects(vs[..n], alerted, now);
    if vs[n].suspect && vs[n].id !in alerted then rest + [Rules.Notice(vs[n].id, now)] else rest
  }

  /** The alerted suspects and the notices once the first n visible tracks are handled. */
  ghost predicate Reported(f: Frame, n: nat, a0: set<int>, l0: seq<Notice>, alerted: set<int>, notices: seq<Notice>)
    requires n <= |f.visible|
  {
    && alerted == a0 + SuspectIds(f.visible[..n])
    && notices == l0 + DueSuspects(f.visible[..n], a0, f.now)
  }

  lemma NextSuspects(f: Frame, i: nat)
    requires TrackerOk(f) && i < |f.visible|
    ensures var vs, s := f.visible, f.visible[i];
            && SuspectIds(vs[..i + 1]) == (if s.suspect then SuspectIds(vs[..i]) + {s.id} else SuspectIds(vs[..i]))
            && s.id !in SuspectIds(vs[..i])
  {
    var vs := f.visible;
    assert vs[..i + 1] == vs[..i] + [vs[i]];
  }

  lemma NextDue(vs: seq<Seen>, i: nat, alerted: set<int>, now: real)
    requires i < |vs|
    ensures DueSuspects(vs[..i + 1], alerted, now)
         == if vs[i].suspect && vs[i].id !in alerted then DueSuspects(vs[..i], alerted, now) + [Rules.Notice(vs[i].id, now)]
            else DueSuspects(vs[..i], alerted, now)
  {
    assert vs[..i + 1][..i] == vs[..i];
  }

  lemma ReportedNext(f: Frame, i: nat, a0: set<int>, l0: seq<Notice>, a1: set<int>, l1: seq<Notice>,
                     a2: set<int>, l2: seq<Notice>)
    requires TrackerOk(f) && i < |f.visible| && Reported(f, i, a0, l0, a1, l1)
    requires var s := f.visible[i];
             && a2 == (if s.suspect then a1 + {s.id} else a1)
             && l2 == (if s.suspect && s.id !in a1 then l1 + [Rules.Notice(s.id, f.now)] else l1)
    ensures Reported(f, i + 1, a0, l0, a2, l2)
  {
    NextSuspects(f, i);
    NextDue(f.visible, i, a0, f.now);
  }

  /** The alerted suspects and the notices, over one frame. */
  ghost function SuspectsNext(alerted: set<int>, f: Frame): set<int> {
    Identified(alerted, f) + SuspectIds(f.visible) - EndedIds(f.terminated)
  }

  /** Whoever is alerted after a frame is a live track with an identity. */
  lemma SuspectsLive(alerted: set<int>, f: Frame)
    requires TrackerOk(f)
    ensures forall t :: t in SuspectsNext(alerted, f) ==> t in f.live && f.live[t].identified
  {
  }

  ghost predicate SuspectStep(f: Frame, a0: set<int>, l0: seq<Notice>, a1: set<int>, l1: seq<Notice>) {
    a1 == SuspectsNext(a0, f) && l1 == l0 + DueSuspects(f.visible, Identified(a0, f), f.now)
  }

  /** Losers of the sweep are not identified after it, so giving up their alerts is what
      forgetting the unidentified would do. */
  lemma LosersUnidentified(f: Frame, r: Roster, alerted: set<int>)
    requires TrackerShape(f) && RosterOk(f, r)
    ensures var g := SweptFrame(f, r);
            Identified(alerted - W.Losers(r.ids, r.claims, |r.claims|), g) == Identified(alerted, g)
  {
    W.LosersAreCleared(r.ids, r.claims, |r.claims|);
    forall t | t in W.Losers(r.ids, r.claims, |r.claims|) ensures t !in Identified(alerted, SweptFrame(f, r)) {
      var j :| 0 <= j < |r.claims| && r.ids[j] == t && W.Swept(r.claims, j, |r.claims|) == W.CLEARED;
      SweptFrameReads(f, r, j);
    }
  }

  // ------------------------------------------------------------------ runs of frames

  /** The tracker's contract for the frames of one epoch with a fixed zone. */
  ghost predicate EpochShape(frames: seq<Frame>, zone: string, isLine: bool) {
    && (forall i :: 0 <= i < |frames| ==> TrackerShape(frames[i]) && frames[i].zone == zone && frames[i].isLine == isLine)
    && (forall i, j :: 0 <= i < j < |frames| ==> frames[i].now <= frames[j].now)
    && (forall i :: 0 < i < |frames| ==> frames[i - 1].live.Keys <= frames[i].live.Keys + EndedIds(frames[i].terminated))
    && (forall i, j, t :: 0 <= i < j < |frames| && t in EndedIds(frames[i].terminated) ==>
          t !in frames[j].live && t !in EndedIds(frames[j].terminated))
  }

  /** The same with identities filled in. */
  ghost predicate EpochFrames(frames: seq<Frame>, zone: string, isLine: bool) {
    EpochShape(frames, zone, isLine) && forall i :: 0 <= i < |frames| ==> TrackerOk(frames[i])
  }

  ghost function LiveAt(frames: seq<Frame>, n: nat): set<int>
    requires n <= |frames|
  {
    if n == 0 then {} else frames[n - 1].live.Keys
  }

  ghost function TicksOf(frames: seq<Frame>, t: int): (run: seq<P.Tick>)
    ensures |run| == |frames|
    ensures forall i :: 0 <= i < |frames| ==> run[i] == P.Tick(ObsOf(frames[i], t), frames[i].now)
  {
    seq(|frames|, i requires 0 <= i < |frames| => P.Tick(ObsOf(frames[i], t), frames[i].now))
  }

  lemma LiveGrows(frames: seq<Frame>, zone: string, isLine: bool, i: nat)
    requires EpochFrames(frames, zone, isLine) && i < |frames|
    ensures LiveAt(frames, i) + VisibleIds(frames[i].visible) - EndedIds(frames[i].terminated) <= frames[i].live.Keys
  {
    if i > 0 {
      assert frames[i - 1].live.Keys <= frames[i].live.Keys + EndedIds(frames[i].terminated);
    }
  }

  lemma LeavesByEnding(f: Frame, g: Frame, t: int)
    requires f.live.Keys <= g.live.Keys + EndedIds(g.terminated) && t in f.live
    ensures ObsOf(g, t).live.Some? || ObsOf(g, t).term.Some?
  {
    TermInMember(g.terminated, t);
    assert t in f.live.Keys;
  }

  /** What the frames say of any one track is an epoch of the one-track machine, so
      everything proved of its runs holds of the pipeline's. */
  lemma TicksAreEpoch(frames: seq<Frame>, zone: string, isLine: bool, t: int)
    requires EpochFrames(frames, zone, isLine)
    ensures P.Epoch(TicksOf(frames, t))
  {
    var run := TicksOf(frames, t);
    forall i | 0 <= i < |run| ensures P.TrackerFrame(run[i].obs) {
      ObsIsTrackerFrame(frames[i], t);
    }
    forall i, j | 0 <= i < |run| && j == i + 1 < |run| && run[i].obs.live.Some?
      ensures run[j].obs.live.Some? || run[j].obs.term.Some?
    {
      LeavesByEnding(frames[i], frames[j], t);
    }
    forall i, j | 0 <= i < j < |run| && run[i].obs.term.Some?
      ensures run[j].obs == P.Obs(None, false, None, None)
    {
      TermInMember(frames[i].terminated, t);
      TermInMember(frames[j].terminated, t);
      SeenInMember(frames[j].visible, t);
    }
  }

  ghost predicate RostersOk(frames: seq<Frame>, rosters: seq<Roster>) {
    |rosters| == |frames| && forall i :: 0 <= i < |frames| ==> RosterOk(frames[i], rosters[i])
  }

  ghost function SweptFrames(frames: seq<Frame>, rosters: seq<Roster>): (gs: seq<Frame>)
    requires RostersOk(frames, rosters)
    ensures |gs| == |frames| && forall i :: 0 <= i < |frames| ==> gs[i] == SweptFrame(frames[i], rosters[i])
  {
    seq(|frames|, i requires 0 <= i < |frames| => SweptFrame(frames[i], rosters[i]))
  }

  /** The frames say the same, apart from identities. */
  ghost predicate SameTracks(f: Frame, g: Frame) {
    && g.now == f.now && g.zone == f.zone && g.isLine == f.isLine && g.terminated == f.terminated
    && g.live.Keys == f.live.Keys && (TrackerShape(f) ==> TrackerOk(g))
  }

  lemma SweptSameTracks(f: Frame, r: Roster)
    requires RosterOk(f, r)
    ensures SameTracks(f, SweptFrame(f, r))
  {
    if TrackerShape(f) {
      WithIdentitiesOk(f, SweptClaims(r));
    }
  }

  lemma SameTracksLater(frames: seq<Frame>, gs: seq<Frame>, zone: string, isLine: bool)
    requires EpochShape(frames, zone, isLine) && |gs| == |frames|
    requires forall i :: 0 <= i < |frames| ==> SameTracks(frames[i], gs[i])
    ensures forall i, j :: 0 <= i < j < |gs| ==> gs[i].now <= gs[j].now
    ensures forall i, j, t :: 0 <= i < j < |gs| && t in EndedIds(gs[i].terminated) ==>
              t !in gs[j].live && t !in EndedIds(gs[j].terminated)
  {
    forall i, j | 0 <= i < j < |gs|
      ensures gs[i].now <= gs[j].now
      ensures forall t :: t in EndedIds(gs[i].terminated) ==> t !in gs[j].live && t !in EndedIds(gs[j].terminated)
    {
      assert SameTracks(frames[i], gs[i]) && SameTracks(frames[j], gs[j]);
      assert forall t :: t in EndedIds(frames[i].terminated) ==> t !in frames[j].live.Keys;
    }
  }

  lemma SameTracksEpoch(frames: seq<Frame>, gs: seq<Frame>, zone: string, isLine: bool)
    requires EpochShape(frames, zone, isLine) && |gs| == |frames|
    requires forall i :: 0 <= i < |frames| ==> SameTracks(frames[i], gs[i])
    ensures EpochFrames(gs, zone, isLine)
  {
    forall i | 0 <= i < |gs| ensures TrackerOk(gs[i]) && gs[i].zone == zone && gs[i].isLine == isLine {
      assert SameTracks(frames[i], gs[i]);
    }
    forall i | 0 < i < |gs| ensures gs[i - 1].live.Keys <= gs[i].live.Keys + EndedIds(gs[i].terminated) {
      assert SameTracks(frames[i - 1], gs[i - 1]) && SameTracks(frames[i], gs[i]);
    }
    SameTracksLater(frames, gs, zone, isLine);
  }

  /** Filling identities in leaves an epoch an epoch. */
  lemma SweptEpoch(frames: seq<Frame>, rosters: seq<Roster>, zone: string, isLine: bool)
    requires EpochShape(frames, zone, isLine) && RostersOk(frames, rosters)
    ensures EpochFrames(SweptFrames(frames, rosters), zone, isLine)
  {
    var gs := SweptFrames(frames, rosters);
    forall i | 0 <= i < |frames| ensures SameTracks(frames[i], gs[i]) {
      SweptSameTracks(frames[i], rosters[i]);
    }
    SameTracksEpoch(frames, gs, zone, isLine);
  }

  // --------------------------------------------------------------------- event log

  /** The boundary events of one track in a log, in order. */
  function EventsOf(log: seq<Event>, t: int): seq<P.Kind> {
    if log == [] then [] else
    var rest, e := EventsOf(log[..|log| - 1], t), log[|log| - 1];
    if e.track == t then rest + [e.kind] else rest
  }

  lemma EventsOfAppend(log: seq<Event>, e: Event, t: int)
    ensures EventsOf(log + [e], t) == if e.track == t then EventsOf(log, t) + [e.kind] else EventsOf(log, t)
  {
    assert (log + [e])[..|log|] == log;
  }

  /** Track t's state is r.0, and r.1 was logged for it since `before`. */
  ghost predicate Grew(t: int, v: P.TrackState, log: seq<Event>, r: (P.TrackState, seq<P.Kind>), before: seq<Event>) {
    v == r.0 && EventsOf(log, t) == EventsOf(before, t) + r.1
  }

  /** The sections of a frame add up to one step of the one-track machine. */
  lemma PresentStep(f: Frame, t: int, v0: P.TrackState, v1: P.TrackState, v2: P.TrackState,
                    l0: seq<Event>, l1: seq<Event>, l2: seq<Event>)
    requires Grew(t, v1, l1, P.Intrude(v0, f.isLine, HitIn(f.visible, t), f.now), l0)
    requires Grew(t, v2, l2, P.Visibility(v1, ObsOf(f, t), f.now), l1)
    ensures Grew(t, v2, l2, P.Present(v0, f.isLine, ObsOf(f, t), f.now), l0)
  {
  }

  lemma WholeStep(f: Frame, t: int, v0: P.TrackState, v1: P.TrackState, v2: P.TrackState,
                  l0: seq<Event>, l1: seq<Event>, l2: seq<Event>)
    requires Grew(t, v1, l1, P.Present(v0, f.isLine, ObsOf(f, t), f.now), l0)
    requires Grew(t, v2, l2, P.Terminate(v1, ObsOf(f, t), f.now), l1)
    ensures Grew(t, v2, l2, P.Step(v0, f.isLine, ObsOf(f, t), f.now), l0)
  {
  }

  /** What ending tracks touches, as one track sees it. */
  datatype Book = Book(state: P.TrackState, log: seq<Event>, suspects: set<int>, known: set<int>,
                       remembered: set<int>, engine: Rules.Engine, exits: seq<Notice>)

  /** The target-exited notice of an ended track, if it was confirmed: its clock starts at
      zero. */
  function ExitOf(e: Term, now: real): seq<Notice> {
    if e.hits >= 3 && e.confidence >= 0.45 && now >= 3.0 then [Rules.Notice(e.id, now)] else []
  }

  function ExitsOf(ts: seq<Term>, now: real): seq<Notice> {
    if ts == [] then [] else ExitsOf(ts[..|ts| - 1], now) + ExitOf(ts[|ts| - 1], now)
  }

  /** The track of e has ended. */
  ghost predicate EndedOne(step: Rules.Stepper, f: Frame, e: Term, u: int, b: Book, b': Book) {
    && Grew(u, b'.state, b'.log,
            if u == e.id then P.Terminate(b.state, P.Obs(None, false, None, Some(e.outside)), f.now) else (b.state, []),
            b.log)
    && b'.suspects == b.suspects - {e.id} && b'.known == b.known - {e.id} && b'.remembered == b.remembered - {e.id}
    && b'.engine == step(b.engine, Rules.Prune(e.id)).0 && b'.exits == b.exits + ExitOf(e, f.now)
  }

  /** The first n terminated tracks have ended: what that means for a track and for the
      sets, and for the logs. */
  ghost predicate EndedTracks(f: Frame, n: nat, u: int, b: Book, b': Book)
    requires n <= |f.terminated|
  {
    var gone := EndedIds(f.terminated[..n]);
    && Grew(u, b'.state, b'.log, if u in gone then P.Terminate(b.state, ObsOf(f, u), f.now) else (b.state, []), b.log)
    && b'.suspects == b.suspects - gone && b'.known == b.known - gone && b'.remembered == b.remembered - gone
  }

  ghost predicate EndedLogs(step: Rules.Stepper, f: Frame, n: nat, b: Book, b': Book)
    requires n <= |f.terminated|
  {
    && b'.engine == Rules.StepAll(step, b.engine, Prunes(f.terminated)[..n])
    && b'.exits == b.exits + ExitsOf(f.terminated[..n], f.now)
  }

  ghost predicate EndedAll(step: Rules.Stepper, f: Frame, n: nat, u: int, b: Book, b': Book)
    requires n <= |f.terminated|
  {
    EndedTracks(f, n, u, b, b') && EndedLogs(step, f, n, b, b')
  }

  lemma EndedTracksNext(step: Rules.Stepper, f: Frame, i: nat, u: int, b0: Book, b1: Book, b2: Book)
    requires TrackerOk(f) && i < |f.terminated|
    requires EndedTracks(f, i, u, b0, b1) && EndedOne(step, f, f.terminated[i], u, b1, b2)
    ensures EndedTracks(f, i + 1, u, b0, b2)
  {
    NextEnded(f, i);
  }

  lemma EndedLogsNext(step: Rules.Stepper, f: Frame, i: nat, u: int, b0: Book, b1: Book, b2: Book)
    requires i < |f.terminated|
    requires EndedLogs(step, f, i, b0, b1) && EndedOne(step, f, f.terminated[i], u, b1, b2)
    ensures EndedLogs(step, f, i + 1, b0, b2)
  {
    NextOp(step, b0.engine, Prunes(f.terminated), i);
    assert f.terminated[..i + 1][..i] == f.terminated[..i];
  }

  lemma EndedNext(step: Rules.Stepper, f: Frame, i: nat, u: int, b0: Book, b1: Book, b2: Book)
    requires TrackerOk(f) && i < |f.terminated|
    requires EndedAll(step, f, i, u, b0, b1) && EndedOne(step, f, f.terminated[i], u, b1, b2)
    ensures EndedAll(step, f, i + 1, u, b0, b2)
  {
    EndedTracksNext(step, f, i, u, b0, b1, b2);
    EndedLogsNext(step, f, i, u, b0, b1, b2);
  }

  /** All the terminated tracks of a frame have ended: track u as the one-track machine
      says; the sets without them; the rule engine after their prunes; and the log of
      exits with theirs. */
  ghost predicate Ended(step: Rules.Stepper, f: Frame, u: int, b: Book, b': Book) {
    var gone := EndedIds(f.terminated);
    && Grew(u, b'.state, b'.log, P.Terminate(b.state, ObsOf(f, u), f.now), b.log)
    && b'.suspects == b.suspects - gone && b'.known == b.known - gone && b'.remembered == b.remembered - gone
    && b'.engine == Rules.StepAll(step, b.engine, Prunes(f.terminated))
    && b'.exits == b.exits + ExitsOf(f.terminated, f.now)
  }

  lemma EndedIsAll(step: Rules.Stepper, f: Frame, u: int, b: Book, b': Book)
    requires EndedAll(step, f, |f.terminated|, u, b, b')
    ensures Ended(step, f, u, b, b')
  {
    assert f.terminated[..|f.terminated|] == f.terminated;
    assert Prunes(f.terminated)[..|f.terminated|] == Prunes(f.terminated);
    TermInMember(f.terminated, u);
  }

  lemma EndedNone(step: Rules.Stepper, f: Frame, u: int, b: Book)
    ensures EndedAll(step, f, 0, u, b, b)
  {
  }

  // --------------------------------------------------------- what runs of frames leave

  /** The alerted suspects after n frames of an epoch. */
  ghost function SuspectsAfter(frames: seq<Frame>, n: nat): set<int>
    requires n <= |frames|
  {
    if n == 0 then {} else SuspectsNext(SuspectsAfter(frames, n - 1), frames[n - 1])
  }

  /** The suspects reported in n frames of an epoch. */
  ghost function SuspectLog(frames: seq<Frame>, n: nat): seq<Notice>
    requires n <= |frames|
  {
    if n == 0 then [] else
    var f := frames[n - 1];
    SuspectLog(frames, n - 1) + DueSuspects(f.visible, Identified(SuspectsAfter(frames, n - 1), f), f.now)
  }

  /** The target-exited notices of n frames of an epoch. */
  ghost function ExitLog(frames: seq<Frame>, n: nat): seq<Notice>
    requires n <= |frames|
  {
    if n == 0 then [] else ExitLog(frames, n - 1) + ExitsOf(frames[n - 1].terminated, frames[n - 1].now)
  }

  /** All that the frame loop keeps, as one track sees it. */
  datatype Account = Account(book: Book, loiterings: seq<Notice>, suspects: seq<Notice>)

  /** What one frame does to it. */
  ghost predicate FrameStep(step: Rules.Stepper, f: Frame, u: int, a: Account, a': Account) {
    && Grew(u, a'.book.state, a'.book.log, P.Step(a.book.state, f.isLine, ObsOf(f, u), f.now), a.book.log)
    && a'.book.known <= a.book.known + VisibleIds(f.visible) - EndedIds(f.terminated)
    && a'.book.remembered <= a.book.remembered + VisibleIds(f.visible) - EndedIds(f.terminated)
    && Told(step, a.book.engine, OpsOf(f), |OpsOf(f)|, a'.book.engine, a.loiterings, a'.loiterings)
    && SuspectStep(f, a.book.suspects, a.suspects, a'.book.suspects, a'.suspects)
    && a'.book.exits == a.book.exits + ExitsOf(f.terminated, f.now)
  }

  /** The sections up to the loitering ones, and those from the presence ones on. */
  ghost predicate EarlyStep(step: Rules.Stepper, f: Frame, a: Account, a': Account) {
    && Told(step, a.book.engine, LooksOf(f), |LooksOf(f)|, a'.book.engine, a.loiterings, a'.loiterings)
    && a'.book.suspects == Identified(a.book.suspects, f)
    && a'.book.remembered <= a.book.remembered + VisibleIds(f.visible)
    && a'.book.state == a.book.state && a'.book.log == a.book.log && a'.book.known == a.book.known
    && a'.book.exits == a.book.exits && a'.suspects == a.suspects
  }

  ghost predicate PresentPart(f: Frame, u: int, a: Account, a': Account) {
    && Grew(u, a'.book.state, a'.book.log, P.Present(a.book.state, f.isLine, ObsOf(f, u), f.now), a.book.log)
    && a'.book.known <= a.book.known + VisibleIds(f.visible)
    && a' == a.(book := a.book.(state := a'.book.state, log := a'.book.log, known := a'.book.known))
  }

  ghost predicate ClosingPart(step: Rules.Stepper, f: Frame, u: int, a: Account, a': Account) {
    && Grew(u, a'.book.state, a'.book.log, P.Terminate(a.book.state, ObsOf(f, u), f.now), a.book.log)
    && a'.book.known <= a.book.known + VisibleIds(f.visible) - EndedIds(f.terminated)
    && a'.book.suspects == a.book.suspects + SuspectIds(f.visible) - EndedIds(f.terminated)
    && a'.suspects == a.suspects + DueSuspects(f.visible, a.book.suspects, f.now)
    && a'.book.remembered == a.book.remembered - EndedIds(f.terminated)
    && a'.book.engine == Rules.StepAll(step, a.book.engine, Prunes(f.terminated))
    && a'.book.exits == a.book.exits + ExitsOf(f.terminated, f.now) && a'.loiterings == a.loiterings
  }

  ghost predicate SuspectPart(f: Frame, a: Account, a': Account) {
    && a'.book.known <= a.book.known + VisibleIds(f.visible)
    && a'.book.suspects == a.book.suspects + SuspectIds(f.visible)
    && a'.suspects == a.suspects + DueSuspects(f.visible, a.book.suspects, f.now)
    && a' == a.(book := a.book.(known := a'.book.known, suspects := a'.book.suspects), suspects := a'.suspects)
  }

  lemma SuspectsAndEnds(step: Rules.Stepper, f: Frame, u: int, a: Account, a1: Account, a2: Account)
    requires SuspectPart(f, a, a1) && Ended(step, f, u, a1.book, a2.book)
    requires a2.loiterings == a1.loiterings && a2.suspects == a1.suspects
    ensures ClosingPart(step, f, u, a, a2)
  {
  }

  ghost predicate LateStep(step: Rules.Stepper, f: Frame, u: int, a: Account, a': Account) {
    && Grew(u, a'.book.state, a'.book.log, P.Step(a.book.state, f.isLine, ObsOf(f, u), f.now), a.book.log)
    && a'.book.known <= a.book.known + VisibleIds(f.visible) - EndedIds(f.terminated)
    && a'.book.suspects == a.book.suspects + SuspectIds(f.visible) - EndedIds(f.terminated)
    && a'.suspects == a.suspects + DueSuspects(f.visible, a.book.suspects, f.now)
    && a'.book.remembered == a.book.remembered - EndedIds(f.terminated)
    && a'.book.engine == Rules.StepAll(step, a.book.engine, Prunes(f.terminated))
    && a'.book.exits == a.book.exits + ExitsOf(f.terminated, f.now) && a'.loiterings == a.loiterings
  }

  lemma PresentAndClosing(step: Rules.Stepper, f: Frame, u: int, a: Account, a1: Account, a2: Account)
    requires PresentPart(f, u, a, a1) && ClosingPart(step, f, u, a1, a2)
    ensures LateStep(step, f, u, a, a2)
  {
    WholeStep(f, u, a.book.state, a1.book.state, a2.book.state, a.book.log, a1.book.log, a2.book.log);
  }

  lemma EarlyAndLate(step: Rules.Stepper, f: Frame, u: int, a: Account, a1: Account, a2: Account)
    requires EarlyStep(step, f, a, a1) && LateStep(step, f, u, a1, a2)
    ensures FrameStep(step, f, u, a, a2)
  {
    FrameBatch(step, a.book.engine, f, a1.book.engine, a.loiterings, a1.loiterings);
  }

  /** The account without the alerts of the sweep's losers. */
  ghost function GivenUp(a: Account, r: Roster): Account
    requires |r.ids| == |r.claims|
  {
    a.(book := a.book.(suspects := a.book.suspects - W.Losers(r.ids, r.claims, |r.claims|)))
  }

  /** What the sweep takes from the alerted suspects makes no difference to the frame. */
  lemma SweepBefore(step: Rules.Stepper, f: Frame, r: Roster, g: Frame, u: int, a0: Account, a2: Account)
    requires TrackerShape(f) && RosterOk(f, r) && g == SweptFrame(f, r) && FrameStep(step, g, u, GivenUp(a0, r), a2)
    ensures FrameStep(step, g, u, a0, a2)
  {
    LosersUnidentified(f, r, a0.book.suspects);
  }

  /** Where n frames bring it: the state and the log are those of the one-track machine's
      run, the rule engine and the loitering notices those of its run over the frames'
      looks and prunes, the suspects those due, and only live tracks are remembered. */
  ghost predicate Reached(step: Rules.Stepper, frames: seq<Frame>, n: nat, isLine: bool, u: int, a: Account)
    requires n <= |frames|
  {
    && a.book.state == P.After(isLine, TicksOf(frames, u), n)
    && EventsOf(a.book.log, u) == P.Logged(isLine, TicksOf(frames, u), n)
    && a.book.known <= LiveAt(frames, n) && a.book.remembered <= LiveAt(frames, n)
    && ToldAll(step, frames[..n], a.book.engine, a.loiterings)
    && a.book.suspects == SuspectsAfter(frames, n) && a.suspects == SuspectLog(frames, n)
    && a.book.exits == ExitLog(frames, n)
  }

  lemma ReachedNext(step: Rules.Stepper, frames: seq<Frame>, n: nat, zone: string, isLine: bool, u: int,
                    a: Account, a': Account)
    requires EpochFrames(frames, zone, isLine) && n < |frames|
    requires Reached(step, frames, n, isLine, u, a) && FrameStep(step, frames[n], u, a, a')
    ensures Reached(step, frames, n + 1, isLine, u, a')
  {
    LiveGrows(frames, zone, isLine, n);
    NextFrame(step, frames, n, a.book.engine, a'.book.engine, a.loiterings, a'.loiterings);
  }

  /** At the end of an epoch the engine and its notices are those of one run. */
  lemma ReachedEnd(c: Rules.Settings, frames: seq<Frame>, isLine: bool, u: int, a: Account)
    requires Reached(Rules.StepOf(c), frames, |frames|, isLine, u, a)
    ensures a.book.engine == Rules.After(c, AllOps(frames), |AllOps(frames)|)
    ensures a.loiterings == Rules.Noticed(Rules.StepOf(c), Rules.START, AllOps(frames))
  {
    assert frames[..|frames|] == frames;
    var ops := AllOps(frames);
    assert ops[..|ops|] == ops;
    Rules.BatchIsRun(c, ops, |ops|);
  }

  function CountAt(m: map<int, nat>, t: int): nat { if t in m then m[t] else 0 }

  class MiniPipeline {
    const rules: Rules.RuleEngine
    var alerted: set<int>
    var suspectsAlerted: set<int>
    var lineActive: set<int>
    var outsideCount: map<int, nat>
    var unseenStreak: map<int, nat>
    var lineMissCount: map<int, nat>
    var lastIntrusion: map<(string, int), real>
    var lastExit: map<(Slot, int), real>
    var log: seq<Event>
    var loiterings: seq<Notice>
    var suspects: seq<Notice>
    var exits: seq<Notice>
    ghost var known: set<int>

    function IntrusionAt(z: string, t: int): real
      reads this
    {
      if (z, t) in lastIntrusion then lastIntrusion[(z, t)] else 0.0
    }

    function ExitAt(z: Slot, t: int): real
      reads this
    {
      if (z, t) in lastExit then lastExit[(z, t)] else 0.0
    }

    /** Everything the fields say of one track and one zone. */
    ghost function View(t: int, z: string): P.TrackState
      reads this
    {
      P.TrackState(t in alerted, t in lineActive, CountAt(outsideCount, t), CountAt(unseenStreak, t),
                   CountAt(lineMissCount, t), IntrusionAt(z, t), ExitAt(InZone(z), t))
    }

    /** Every track id that some set, map or clock still holds is in `known`. */
    ghost predicate KnownIds()
      reads this
    {
      && alerted <= known && lineActive <= known && suspectsAlerted <= known
      && outsideCount.Keys <= known && unseenStreak.Keys <= known && lineMissCount.Keys <= known
      && (forall k :: k in lastIntrusion ==> k.1 in known)
      && (forall k :: k in lastExit ==> k.1 in known)
    }

    /** And no field-of-view clock is kept from one ended track to the next. */
    ghost predicate Known()
      reads this
    {
      KnownIds() && forall k :: k in lastExit ==> k.0.InZone?
    }

    ghost function BookOf(u: int, z: string): Book
      reads this, rules
    {
      Book(View(u, z), log, suspectsAlerted, known, rules.Remembered(), rules.View(), exits)
    }

    ghost function AccountOf(u: int, z: string): Account
      reads this, rules
    {
      Account(BookOf(u, z), loiterings, suspects)
    }

    /** No other track's events were logged since `before`. */
    ghost predicate OthersKept(t: int, before: seq<Event>)
      reads this
    {
      forall t2 :: t2 != t ==> EventsOf(log, t2) == EventsOf(before, t2)
    }

    constructor (rules: Rules.RuleEngine)
      ensures this.rules == rules && log == [] && loiterings == [] && suspects == [] && exits == []
      ensures known == {} && Known()
      ensures forall t, z :: View(t, z) == P.INIT
    {
      this.rules := rules;
      alerted, suspectsAlerted, lineActive := {}, {}, {};
      outsideCount, unseenStreak, lineMissCount := map[], map[], map[];
      lastIntrusion, lastExit, known := map[], map[], {};
      log, loiterings, suspects, exits := [], [], [], [];
    }

    // ------------------------------------------------------------ intrusion section

    method UpdateLatch(s: Seen, isLine: bool, ghost z: string) returns (intruding: bool)
      requires Known()
      modifies `known, `lineActive, `lineMissCount
      ensures (View(s.id, z), intruding) == P.Latch(old(View(s.id, z)), isLine, s.hit)
      ensures forall t :: t != s.id ==> View(t, z) == old(View(t, z))
      ensures Known() && known == old(known) + {s.id}
    {
      known := known + {s.id};
      intruding := s.hit;
      if isLine {
        if intruding {
          lineActive := lineActive + {s.id};
          lineMissCount := lineMissCount[s.id := 0];
        } else if s.id in lineActive {
          var misses := CountAt(lineMissCount, s.id) + 1;
          lineMissCount := lineMissCount[s.id := misses];
          if misses < 5 {
            intruding := true;
          } else {
            lineActive := lineActive - {s.id};
            lineMissCount := lineMissCount - {s.id};
          }
        }
      }
    }

    method Emit(e: Event)
      modifies `log
      ensures log == old(log) + [e]
      ensures forall t :: EventsOf(log, t) ==
                if e.track == t then EventsOf(old(log), t) + [e.kind] else EventsOf(old(log), t)
    {
      forall t {
        EventsOfAppend(log, e, t);
      }
      log := log + [e];
    }

    /** Log a presence end unless one was logged less than 3 s ago. */
    method EndUnlessDebounced(t: int, kind: P.Kind, f: Frame)
      requires Known()
      modifies `known, `lastExit, `log
      ensures var due := f.now - old(ExitAt(InZone(f.zone), t)) >= 3.0;
              && View(t, f.zone) == old(View(t, f.zone)).(lastExit := if due then f.now else old(ExitAt(InZone(f.zone), t)))
              && EventsOf(log, t) == EventsOf(old(log), t) + (if due then [kind] else [])
      ensures OthersKept(t, old(log))
      ensures forall t2 :: t2 != t ==> View(t2, f.zone) == old(View(t2, f.zone))
      ensures Known() && known == old(known) + {t}
    {
      known := known + {t};
      if f.now - ExitAt(InZone(f.zone), t) >= 3.0 {
        lastExit := lastExit[(InZone(f.zone), t) := f.now];
        Emit(Event(kind, t, f.zone, f.now));
      }
    }

    /** Drop the alert and the line latch of a track. */
    method StandDown(t: int, ghost z: string)
      requires Known()
      modifies `alerted, `lineActive, `lineMissCount
      ensures View(t, z) == old(View(t, z)).(alerted := false, lineActive := false, lineMiss := 0)
      ensures forall t2 :: t2 != t ==> View(t2, z) == old(View(t2, z))
      ensures alerted == old(alerted) - {t}
      ensures Known()
    {
      alerted := alerted - {t};
      lineActive := lineActive - {t};
      lineMissCount := lineMissCount - {t};
    }

    /** Mark the track alerted and log its intrusion. */
    method RaiseAlert(t: int, f: Frame)
      requires Known() && t in known
      modifies `alerted, `lastIntrusion, `log
      ensures View(t, f.zone) == old(View(t, f.zone)).(alerted := true, lastIntrusion := f.now)
      ensures EventsOf(log, t) == EventsOf(old(log), t) + [P.ZoneIntrusion] && OthersKept(t, old(log))
      ensures forall t2 :: t2 != t ==> View(t2, f.zone) == old(View(t2, f.zone))
      ensures Known()
    {
      alerted := alerted + {t};
      lastIntrusion := lastIntrusion[(f.zone, t) := f.now];
      Emit(Event(P.ZoneIntrusion, t, f.zone, f.now));
    }

    /** The intruding branch: alert once per presence, after a 4 s cooldown. */
    method WhileIntruding(t: int, f: Frame)
      requires Known()
      modifies `known, `alerted, `outsideCount, `lastIntrusion, `log
      ensures var (v, k) := P.Zoned(old(View(t, f.zone)), true, f.now);
              View(t, f.zone) == v && EventsOf(log, t) == EventsOf(old(log), t) + k
      ensures OthersKept(t, old(log))
      ensures forall t2 :: t2 != t ==> View(t2, f.zone) == old(View(t2, f.zone))
      ensures Known() && known == old(known) + {t}
    {
      known := known + {t};
      outsideCount := outsideCount[t := 0];
      if t !in alerted && f.now - IntrusionAt(f.zone, t) >= 4.0 {
        RaiseAlert(t, f);
      }
    }

    /** Stand down and log the exit that the track owes. */
    method LeaveZone(t: int, f: Frame)
      requires Known()
      modifies `known, `alerted, `lineActive, `lineMissCount, `lastExit, `log
      ensures var (v, due) := (old(View(t, f.zone)), f.now - old(View(t, f.zone)).lastExit >= 3.0);
              && View(t, f.zone) == v.(alerted := false, lineActive := false, lineMiss := 0,
                                       lastExit := if due then f.now else v.lastExit)
              && EventsOf(log, t) == EventsOf(old(log), t) + (if due then [P.ZoneExit] else [])
      ensures OthersKept(t, old(log))
      ensures forall t2 :: t2 != t ==> View(t2, f.zone) == old(View(t2, f.zone))
      ensures Known() && known == old(known) + {t}
    {
      StandDown(t, f.zone);
      EndUnlessDebounced(t, P.ZoneExit, f);
    }

    /** The outside branch: the 15th consecutive outside frame ends the presence. */
    method WhileOutside(t: int, f: Frame)
      requires Known()
      modifies `known, `alerted, `lineActive, `outsideCount, `lineMissCount, `lastExit, `log
      ensures var (v, k) := P.Zoned(old(View(t, f.zone)), false, f.now);
              View(t, f.zone) == v && EventsOf(log, t) == EventsOf(old(log), t) + k
      ensures OthersKept(t, old(log))
      ensures forall t2 :: t2 != t ==> View(t2, f.zone) == old(View(t2, f.zone))
      ensures Known() && known == old(known) + {t}
    {
      known := known + {t};
      if t in alerted {
        var count := CountAt(outsideCount, t) + 1;
        outsideCount := outsideCount[t := count];
        if count >= 15 {
          LeaveZone(t, f);
        }
      } else {
        outsideCount := outsideCount[t := 0];
      }
    }

    method HandleSeen(s: Seen, f: Frame)
      requires Known()
      modifies `known, `alerted, `lineActive, `outsideCount, `lineMissCount, `lastIntrusion, `lastExit, `log
      ensures var (v, k) := P.Intrude(old(View(s.id, f.zone)), f.isLine, Some(s.hit), f.now);
              View(s.id, f.zone) == v && EventsOf(log, s.id) == EventsOf(old(log), s.id) + k
      ensures OthersKept(s.id, old(log))
      ensures forall t2 :: t2 != s.id ==> View(t2, f.zone) == old(View(t2, f.zone))
      ensures Known() && known == old(known) + {s.id}
    {
      var intruding := UpdateLatch(s, f.isLine, f.zone);
      if intruding {
        WhileIntruding(s.id, f);
      } else {
        WhileOutside(s.id, f);
      }
    }

    ghost predicate Became(t: int, z: string, r: (P.TrackState, seq<P.Kind>), before: seq<Event>)
      reads this
    {
      Grew(t, View(t, z), log, r, before)
    }

    /** Section 1 of a frame: every visible track of a watched class. The ghost t is
        any track at all. */
    method IntrusionSection(f: Frame, ghost t: int)
      requires TrackerOk(f) && Known()
      modifies `known, `alerted, `lineActive, `outsideCount, `lineMissCount, `lastIntrusion, `lastExit, `log
      ensures Became(t, f.zone, P.Intrude(old(View(t, f.zone)), f.isLine, HitIn(f.visible, t), f.now), old(log))
      ensures Known() && known <= old(known) + VisibleIds(f.visible)
    {
      for i := 0 to |f.visible|
        invariant Became(t, f.zone, if t in WatchedIds(f.visible[..i])
                                    then P.Intrude(old(View(t, f.zone)), f.isLine, HitIn(f.visible, t), f.now)
                                    else (old(View(t, f.zone)), []), old(log))
        invariant Known() && known <= old(known) + VisibleIds(f.visible)
      {
        NextSeen(f, i);
        if f.visible[i].watched {
          HandleSeen(f.visible[i], f);
        }
      }
      assert f.visible[..|f.visible|] == f.visible;
      UnwatchedUnseen(f.visible);
    }

    // ----------------------------------------------------------- visibility section

    /** Drop everything but the clocks of a track gone dark. */
    method Darken(t: int, ghost z: string)
      requires Known()
      modifies `alerted, `lineActive, `outsideCount, `lineMissCount, `unseenStreak
      ensures alerted == old(alerted) - {t}
      ensures View(t, z) == P.Stand(old(View(t, z)))
      ensures forall t2 :: t2 != t ==> View(t2, z) == old(View(t2, z))
      ensures Known()
    {
      alerted, outsideCount := alerted - {t}, outsideCount - {t};
      lineActive, lineMissCount, unseenStreak := lineActive - {t}, lineMissCount - {t}, unseenStreak - {t};
    }

    /** The end of a presence by darkness. */
    method Expire(t: int, f: Frame)
      requires t in alerted
      requires Known()
      modifies `known, `alerted, `lineActive, `outsideCount, `lineMissCount, `unseenStreak, `lastExit, `log
      ensures alerted == old(alerted) - {t}
      ensures t !in f.live ==> View(t, f.zone) == P.Stand(old(View(t, f.zone))) && log == old(log)
      ensures t in f.live ==>
                var (v, k) := P.EndPresence(P.Stand(old(View(t, f.zone))), f.live[t].outside, f.now);
                View(t, f.zone) == v && EventsOf(log, t) == EventsOf(old(log), t) + k
      ensures OthersKept(t, old(log))
      ensures forall t2 :: t2 != t ==> View(t2, f.zone) == old(View(t2, f.zone))
      ensures Known() && known == old(known) + {t}
    {
      known := known + {t};
      Darken(t, f.zone);
      if t in f.live {
        EndUnlessDebounced(t, if f.live[t].outside then P.ZoneExit else P.TargetLost, f);
      }
    }

    /** One alerted track in the visibility loop. */
    method HandleVisibility(t: int, f: Frame)
      requires t in alerted
      requires Known()
      modifies `known, `alerted, `lineActive, `outsideCount, `lineMissCount, `unseenStreak, `lastExit, `log
      ensures alerted == old(alerted) || alerted == old(alerted) - {t}
      ensures var (v, k) := P.Visibility(old(View(t, f.zone)), ObsOf(f, t), f.now);
              View(t, f.zone) == v && EventsOf(log, t) == EventsOf(old(log), t) + k
      ensures OthersKept(t, old(log))
      ensures forall t2 :: t2 != t ==> View(t2, f.zone) == old(View(t2, f.zone))
      ensures Known() && known == old(known) + {t}
    {
      SeenInMember(f.visible, t);
      if SeenIn(f.visible, t).Some? {
        unseenStreak := unseenStreak - {t};
      } else if CountAt(unseenStreak, t) < 3 {
        unseenStreak := unseenStreak[t := CountAt(unseenStreak, t) + 1];
      } else {
        Expire(t, f);
      }
    }

    /** Presence continuity: alerted tracks that went dark. */
    method VisibilitySection(f: Frame, ghost t: int)
      requires Known()
      modifies `known, `alerted, `lineActive, `outsideCount, `lineMissCount, `unseenStreak, `lastExit, `log
      ensures Became(t, f.zone, P.Visibility(old(View(t, f.zone)), ObsOf(f, t), f.now), old(log))
      ensures Known() && known == old(known)
    {
      var ids := Rules.ListOf(alerted);
      for i := 0 to |ids|
        invariant forall k :: i <= k < |ids| ==> ids[k] in alerted
        invariant Became(t, f.zone, if t in ids[..i] then P.Visibility(old(View(t, f.zone)), ObsOf(f, t), f.now)
                                    else (old(View(t, f.zone)), []), old(log))
        invariant Known() && known == old(known)
      {
        assert ids[..i + 1] == ids[..i] + [ids[i]] && ids[i] !in ids[..i];
        HandleVisibility(ids[i], f);
      }
      assert ids[..|ids|] == ids;
    }

    // ---------------------------------------------------------- termination section

    method ForgetCounters(t: int, ghost u: int, ghost z: string)
      requires KnownIds()
      modifies `alerted, `lineActive, `outsideCount, `unseenStreak, `lineMissCount
      ensures t !in alerted + lineActive + outsideCount.Keys + unseenStreak.Keys + lineMissCount.Keys
      ensures View(u, z) == if u == t then P.INIT.(lastIntrusion := IntrusionAt(z, t), lastExit := ExitAt(InZone(z), t))
                            else old(View(u, z))
      ensures KnownIds()
    {
      alerted, lineActive := alerted - {t}, lineActive - {t};
      outsideCount, unseenStreak, lineMissCount := outsideCount - {t}, unseenStreak - {t}, lineMissCount - {t};
    }

    method ForgetClocks(t: int, ghost u: int, ghost z: string)
      requires KnownIds() && forall k :: k in lastExit && k.0.Fov? ==> k.1 == t
      requires t !in alerted + suspectsAlerted + lineActive + outsideCount.Keys + unseenStreak.Keys + lineMissCount.Keys
      modifies `known, `lastIntrusion, `lastExit
      ensures known == old(known) - {t}
      ensures View(u, z) == if u == t then old(View(t, z)).(lastIntrusion := 0.0, lastExit := 0.0) else old(View(u, z))
      ensures Known()
    {
      lastExit := map k | k in lastExit && k.1 != t :: lastExit[k];
      lastIntrusion := map k | k in lastIntrusion && k.1 != t :: lastIntrusion[k];
      known := known - {t};
    }

    /** Forget track t altogether; the ghost u is any track. */
    method PruneTrack(t: int, ghost u: int, ghost z: string)
      requires KnownIds() && forall k :: k in lastExit && k.0.Fov? ==> k.1 == t
      modifies `known, `alerted, `suspectsAlerted, `lineActive, `outsideCount, `unseenStreak, `lineMissCount,
               `lastIntrusion, `lastExit, rules`tripState, rules`loiterState
      ensures View(u, z) == if u == t then P.INIT else old(View(u, z))
      ensures suspectsAlerted == old(suspectsAlerted) - {t}
      ensures Known() && known == old(known) - {t}
      ensures rules.View() == Rules.Step(old(rules.View()), rules.settings, Rules.Prune(t)).0
      ensures rules.Remembered() == old(rules.Remembered()) - {t}
    {
      rules.PruneTrack(t);
      ForgetCounters(t, u, z);
      suspectsAlerted := suspectsAlerted - {t};
      ForgetClocks(t, u, z);
    }

    /** The target-exited event of a confirmed track, and its clock. */
    method ReportExit(e: Term, f: Frame, ghost u: int)
      requires Known()
      modifies `known, `lastExit, `exits
      ensures Became(u, f.zone, (old(View(u, f.zone)), []), old(log))
      ensures KnownIds() && known == old(known) + {e.id} && forall k :: k in lastExit && k.0.Fov? ==> k.1 == e.id
      ensures exits == old(exits) + ExitOf(e, f.now)
    {
      known := known + {e.id};
      assert ExitAt(Fov, e.id) == 0.0;
      if e.hits >= 3 && e.confidence >= 0.45 && f.now - ExitAt(Fov, e.id) >= 3.0 {
        lastExit := lastExit[(Fov, e.id) := f.now];
        exits := exits + [Rules.Notice(e.id, f.now)];
      }
    }

    /** The presence end an ended track still owes. */
    method EndOwed(e: Term, f: Frame, ghost u: int)
      requires Known()
      modifies `known, `alerted, `lineActive, `outsideCount, `unseenStreak, `lineMissCount, `lastExit, `log
      ensures EventsOf(log, u) == EventsOf(old(log), u)
                + (if u == e.id && e.id in old(alerted)
                   then P.EndPresence(P.Stand(old(View(u, f.zone))), e.outside, f.now).1 else [])
      ensures u != e.id ==> View(u, f.zone) == old(View(u, f.zone))
      ensures Known() && old(known) <= known <= old(known) + {e.id}
    {
      var wasAlerted := e.id in alerted;
      ForgetCounters(e.id, u, f.zone);
      if wasAlerted {
        EndUnlessDebounced(e.id, if e.outside then P.ZoneExit else P.TargetLost, f);
      }
    }

    /** One ended track: the presence end it still owes, the field-of-view exit, and
        oblivion. */
    method HandleEnded(e: Term, f: Frame, ghost u: int, ghost step: Rules.Stepper)
      requires Known() && step == Rules.StepOf(rules.settings)
      modifies `known, `alerted, `suspectsAlerted, `lineActive, `outsideCount, `unseenStreak, `lineMissCount,
               `lastIntrusion, `lastExit, `log, `exits, rules`tripState, rules`loiterState
      ensures Known() && EndedOne(step, f, e, u, old(BookOf(u, f.zone)), BookOf(u, f.zone))
    {
      EndOwed(e, f, u);
      ReportExit(e, f, u);
      PruneTrack(e.id, u, f.zone);
    }

    method TerminationSection(f: Frame, ghost u: int)
      requires TrackerOk(f) && Known()
      modifies `known, `alerted, `suspectsAlerted, `lineActive, `outsideCount, `unseenStreak, `lineMissCount,
               `lastIntrusion, `lastExit, `log, `exits, rules`tripState, rules`loiterState
      ensures Known() && Ended(Rules.StepOf(rules.settings), f, u, old(BookOf(u, f.zone)), BookOf(u, f.zone))
    {
      ghost var step, b0 := Rules.StepOf(rules.settings), BookOf(u, f.zone);
      EndedNone(step, f, u, b0);
      for i := 0 to |f.terminated|
        invariant Known() && EndedAll(step, f, i, u, b0, BookOf(u, f.zone))
      {
        ghost var b1 := BookOf(u, f.zone);
        HandleEnded(f.terminated[i], f, u, step);
        EndedNext(step, f, i, u, b0, b1, BookOf(u, f.zone));
      }
      EndedIsAll(step, f, u, b0, BookOf(u, f.zone));
    }

    // ------------------------------------------------------ loitering and suspects

    /** One visible track shown to the engine, whose zones are the mirrored one. */
    method LookAt(s: Seen, f: Frame)
      requires rules.zones == [f.zone]
      modifies rules`loiterState, rules`lastEventAt, `loiterings
      ensures var (e, b) := Rules.Step(old(rules.View()), rules.settings, LookOf(s, f));
              && rules.View() == e
              && loiterings == if b then old(loiterings) + [Rules.Notice(s.id, f.now)] else old(loiterings)
      ensures rules.Remembered() <= old(rules.Remembered()) + {s.id}
    {
      assert [f.zone][..0] == [] && [s.inZone][..0] == [];
      var reports := rules.CheckZones(s.id, [s.inZone], f.now);
      if reports != [] {
        loiterings := loiterings + [Rules.Notice(s.id, f.now)];
      }
    }

    method LookLoop(f: Frame, ghost step: Rules.Stepper, ghost ops: seq<Rules.Op>)
      requires rules.zones == [f.zone] && !f.isDefault && ops == LooksOf(f) && step == Rules.StepOf(rules.settings)
      modifies rules`loiterState, rules`lastEventAt, `loiterings
      ensures rules.Remembered() <= old(rules.Remembered()) + VisibleIds(f.visible)
      ensures Told(step, old(rules.View()), ops, |ops|, rules.View(), old(loiterings), loiterings)
    {
      ghost var e, l0, r0 := rules.View(), loiterings, rules.Remembered() + VisibleIds(f.visible);
      for i := 0 to |f.visible|
        invariant rules.zones == [f.zone] && rules.Remembered() <= r0
        invariant Told(step, e, ops, i, rules.View(), l0, loiterings)
      {
        ghost var e1, l1 := rules.View(), loiterings;
        assert f.visible[i].id in VisibleIds(f.visible);
        LookAt(f.visible[i], f);
        ToldNext(step, e, ops, i, e1, rules.View(), l0, l1, loiterings);
      }
    }

    /** Mirror the zone into the rule engine and report its loiterers: the engine takes
        one look per visible track, and the notices logged are exactly its reports. */
    method LoiterSection(f: Frame)
      modifies rules`zones, rules`loiterState, rules`lastEventAt, `loiterings
      ensures rules.Remembered() <= old(rules.Remembered()) + VisibleIds(f.visible)
      ensures Told(Rules.StepOf(rules.settings), old(rules.View()), LooksOf(f), |LooksOf(f)|, rules.View(),
                   old(loiterings), loiterings)
    {
      if !f.isDefault {
        rules.zones := [f.zone];
        LookLoop(f, Rules.StepOf(rules.settings), LooksOf(f));
      }
    }

    /** Forget alerted suspects whose track or identity is gone. */
    method DropUnidentified(f: Frame)
      requires Known()
      modifies `suspectsAlerted
      ensures suspectsAlerted == Identified(old(suspectsAlerted), f)
      ensures Known()
    {
      suspectsAlerted := set t | t in suspectsAlerted && t in f.live && f.live[t].identified;
    }

    method HandleSuspect(s: Seen, now: real)
      requires Known()
      modifies `known, `suspectsAlerted, `suspects
      ensures suspectsAlerted == if s.suspect then old(suspectsAlerted) + {s.id} else old(suspectsAlerted)
      ensures suspects == if s.suspect && s.id !in old(suspectsAlerted) then old(suspects) + [Rules.Notice(s.id, now)]
                          else old(suspects)
      ensures Known() && old(known) <= known <= old(known) + {s.id}
    {
      if s.suspect && s.id !in suspectsAlerted {
        known := known + {s.id};
        suspectsAlerted := suspectsAlerted + {s.id};
        suspects := suspects + [Rules.Notice(s.id, now)];
      }
    }

    /** Report each suspect that is due and has not been reported, once. */
    method SuspectSection(f: Frame)
      requires TrackerOk(f) && Known()
      modifies `known, `suspectsAlerted, `suspects
      ensures Known() && known <= old(known) + VisibleIds(f.visible)
      ensures suspectsAlerted == old(suspectsAlerted) + SuspectIds(f.visible)
      ensures suspects == old(suspects) + DueSuspects(f.visible, old(suspectsAlerted), f.now)
    {
      ghost var a0, l0, k0 := suspectsAlerted, suspects, known + VisibleIds(f.visible);
      for i := 0 to |f.visible|
        invariant Reported(f, i, a0, l0, suspectsAlerted, suspects)
        invariant Known() && known <= k0
      {
        ghost var a1, l1 := suspectsAlerted, suspects;
        assert f.visible[i].id in VisibleIds(f.visible);
        HandleSuspect(f.visible[i], f.now);
        ReportedNext(f, i, a0, l0, a1, l1, suspectsAlerted, suspects);
      }
      assert f.visible[..|f.visible|] == f.visible;
    }

    // ----------------------------------------------------------------- whole frames

    method OpeningSections(f: Frame, ghost u: int)
      requires Known()
      modifies rules`zones, rules`loiterState, rules`lastEventAt, `loiterings, `suspectsAlerted
      ensures Known() && EarlyStep(Rules.StepOf(rules.settings), f, old(AccountOf(u, f.zone)), AccountOf(u, f.zone))
    {
      DropUnidentified(f);
      LoiterSection(f);
    }

    method PresenceSections(f: Frame, ghost u: int)
      requires TrackerOk(f) && Known()
      modifies `known, `alerted, `lineActive, `outsideCount, `lineMissCount, `unseenStreak, `lastIntrusion, `lastExit, `log
      ensures Known() && PresentPart(f, u, old(AccountOf(u, f.zone)), AccountOf(u, f.zone))
    {
      ghost var v0, l0 := View(u, f.zone), log;
      IntrusionSection(f, u);
      ghost var v1, l1 := View(u, f.zone), log;
      VisibilitySection(f, u);
      PresentStep(f, u, v0, v1, View(u, f.zone), l0, l1, log);
    }

    method ClosingSections(f: Frame, ghost u: int)
      requires TrackerOk(f) && Known()
      modifies `known, `alerted, `suspectsAlerted, `lineActive, `outsideCount, `unseenStreak, `lineMissCount,
               `lastIntrusion, `lastExit, `log, `exits, `suspects, rules`tripState, rules`loiterState
      ensures Known() && ClosingPart(Rules.StepOf(rules.settings), f, u, old(AccountOf(u, f.zone)), AccountOf(u, f.zone))
    {
      ghost var a0 := AccountOf(u, f.zone);
      SuspectSection(f);
      ghost var a1 := AccountOf(u, f.zone);
      TerminationSection(f, u);
      SuspectsAndEnds(Rules.StepOf(rules.settings), f, u, a0, a1, AccountOf(u, f.zone));
    }

    method PresenceAndClosing(f: Frame, ghost u: int)
      requires TrackerOk(f) && Known()
      modifies `known, `alerted, `suspectsAlerted, `lineActive, `outsideCount, `unseenStreak, `lineMissCount,
               `lastIntrusion, `lastExit, `log, `exits, `suspects, rules`tripState, rules`loiterState
      ensures Known() && LateStep(Rules.StepOf(rules.settings), f, u, old(AccountOf(u, f.zone)), AccountOf(u, f.zone))
    {
      ghost var a0 := AccountOf(u, f.zone);
      PresenceSections(f, u);
      ghost var a1 := AccountOf(u, f.zone);
      ClosingSections(f, u);
      PresentAndClosing(Rules.StepOf(rules.settings), f, u, a0, a1, AccountOf(u, f.zone));
    }

    /** One sampled frame. For any track u the fields take exactly one step of the
        one-track machine and log exactly its events; the rule engine takes exactly the
        frame's looks and prunes, and the loitering notices are its reports; each due
        suspect is reported once. Afterwards no set, map or clock, here or in the rule
        engine, holds an ended track, and every alerted suspect is a live track with an
        identity. */
    method Analyse(f: Frame, ghost u: int)
      requires TrackerOk(f) && Known()
      modifies this, rules
      ensures Known() && FrameStep(Rules.StepOf(rules.settings), f, u, old(AccountOf(u, f.zone)), AccountOf(u, f.zone))
      ensures forall t :: t in suspectsAlerted ==> t in f.live && f.live[t].identified
    {
      ghost var a0 := AccountOf(u, f.zone);
      OpeningSections(f, u);
      ghost var a1 := AccountOf(u, f.zone);
      PresenceAndClosing(f, u);
      EarlyAndLate(Rules.StepOf(rules.settings), f, u, a0, a1, AccountOf(u, f.zone));
      SuspectsLive(a0.book.suspects, f);
    }

    /** Tracks with these claims. */
    static method Tracks(r: Roster) returns (tracks: seq<W.Track>)
      requires |r.ids| == |r.claims| && forall a, b :: 0 <= a < b < |r.ids| ==> r.ids[a] != r.ids[b]
      ensures W.DistinctTracks(tracks) && W.Claiming(tracks, r.claims) && W.Ids(tracks) == r.ids
      ensures fresh(set t | t in tracks)
    {
      tracks := [];
      for i := 0 to |r.ids|
        invariant |tracks| == i && fresh(set t | t in tracks)
        invariant forall a :: 0 <= a < i ==> tracks[a].id == r.ids[a] && W.State(tracks[a]) == r.claims[a]
        invariant forall a, b :: 0 <= a < b < i ==> tracks[a] != tracks[b]
      {
        var track := new W.Track(r.ids[i]);
        track.identity, track.locked := r.claims[i].identity, r.claims[i].locked;
        tracks := tracks + [track];
      }
    }

    /** What each track claims now, by id. */
    method ClaimsOf(tracks: seq<W.Track>) returns (claims: map<int, W.Claim>)
      requires W.DistinctTracks(tracks)
      ensures forall j :: 0 <= j < |tracks| ==> tracks[j].id in claims && claims[tracks[j].id] == W.State(tracks[j])
      ensures forall t :: t in claims ==> exists j :: 0 <= j < |tracks| && tracks[j].id == t
    {
      claims := map[];
      for i := 0 to |tracks|
        invariant forall j :: 0 <= j < i ==> tracks[j].id in claims && claims[tracks[j].id] == W.State(tracks[j])
        invariant forall t :: t in claims ==> exists j :: 0 <= j < i && tracks[j].id == t
      {
        claims := claims[tracks[i].id := W.Claim(tracks[i].identity, tracks[i].locked)];
      }
    }

    /** Sweep the identities; losers give up their alerts. */
    method ResolveIdentities(tracks: seq<W.Track>, ghost r: Roster, ghost u: int, ghost z: string)
      requires Known() && W.DistinctTracks(tracks) && W.Claiming(tracks, r.claims) && r.ids == W.Ids(tracks)
      modifies `suspectsAlerted, set t | t in tracks
      ensures W.Settled(tracks, r.claims)
      ensures Known() && AccountOf(u, z) == GivenUp(old(AccountOf(u, z)), r)
    {
      W.SweepStarts(tracks, r.claims);
      var left, _ := W.Resolve(tracks, suspectsAlerted, r.ids, r.claims);
      suspectsAlerted := left;
    }

    /** Tell the frame what the sweep has left. */
    method InformFrame(f: Frame, tracks: seq<W.Track>, ghost r: Roster) returns (g: Frame)
      requires TrackerShape(f) && RosterOk(f, r)
      requires W.DistinctTracks(tracks) && W.Settled(tracks, r.claims) && r.ids == W.Ids(tracks)
      ensures TrackerOk(g) && g == SweptFrame(f, r)
    {
      var claims := ClaimsOf(tracks);
      g := WithIdentities(f, claims);
      WithIdentitiesOk(f, claims);
      ClaimsAreSwept(claims, r);
    }

    /** The rest of the frame, which leaves the tracks alone. */
    method AnalyseSwept(g: Frame, tracks: seq<W.Track>, ghost cs: seq<W.Claim>, ghost u: int)
      requires TrackerOk(g) && Known() && W.Settled(tracks, cs)
      modifies this, rules
      ensures W.Settled(tracks, cs)
      ensures Known() && FrameStep(Rules.StepOf(rules.settings), g, u, old(AccountOf(u, g.zone)), AccountOf(u, g.zone))
    {
      Analyse(g, u);
    }

    /** One frame from the identity sweep on: what the alert sections are told of
        identities is what the sweep made of every track's claim. */
    method SweepAndAnalyse(f: Frame, tracks: seq<W.Track>, ghost r: Roster, ghost u: int) returns (g: Frame)
      requires TrackerShape(f) && RosterOk(f, r) && Known()
      requires W.DistinctTracks(tracks) && W.Claiming(tracks, r.claims) && r.ids == W.Ids(tracks)
      modifies this, rules, set t | t in tracks
      ensures W.Settled(tracks, r.claims) && TrackerOk(g) && g == SweptFrame(f, r)
      ensures Known() && FrameStep(Rules.StepOf(rules.settings), g, u, old(AccountOf(u, f.zone)), AccountOf(u, f.zone))
    {
      ghost var a0 := AccountOf(u, f.zone);
      ResolveIdentities(tracks, r, u, f.zone);
      g := InformFrame(f, tracks, r);
      AnalyseSwept(g, tracks, r.claims, u);
      SweepBefore(Rules.StepOf(rules.settings), f, r, g, u, a0, AccountOf(u, f.zone));
    }

    /** The same for tracks with the claims of a roster. */
    method SweepRoster(f: Frame, r: Roster, ghost u: int) returns (g: Frame)
      requires TrackerShape(f) && RosterOk(f, r) && Known()
      modifies this, rules
      ensures g == SweptFrame(f, r)
      ensures Known() && FrameStep(Rules.StepOf(rules.settings), g, u, old(AccountOf(u, f.zone)), AccountOf(u, f.zone))
    {
      var tracks := Tracks(r);
      g := SweepAndAnalyse(f, tracks, r, u);
    }

    /** A pipeline at the start of an epoch, with empty logs. */
    ghost predicate Fresh()
      reads this, rules
    {
      && Known() && known == {} && rules.View() == Rules.START
      && log == [] && loiterings == [] && suspects == [] && exits == []
    }

    lemma FreshReached(frames: seq<Frame>, zone: string, isLine: bool, u: int)
      requires Fresh()
      ensures Reached(Rules.StepOf(rules.settings), frames, 0, isLine, u, AccountOf(u, zone))
    {
    }

    /** The frame loop, from a fresh pipeline: `Reached` says what it leaves, for any
        track u. */
    method AnalyseAll(frames: seq<Frame>, zone: string, isLine: bool, ghost u: int)
      requires EpochFrames(frames, zone, isLine) && Fresh()
      modifies this, rules
      ensures Known() && Reached(Rules.StepOf(rules.settings), frames, |frames|, isLine, u, AccountOf(u, zone))
      ensures rules.View() == Rules.After(rules.settings, AllOps(frames), |AllOps(frames)|)
      ensures loiterings == Rules.Noticed(Rules.StepOf(rules.settings), Rules.START, AllOps(frames))
    {
      ghost var step := Rules.StepOf(rules.settings);
      FreshReached(frames, zone, isLine, u);
      for i := 0 to |frames|
        invariant Known() && Reached(step, frames, i, isLine, u, AccountOf(u, zone))
      {
        ghost var a := AccountOf(u, zone);
        Analyse(frames[i], u);
        ReachedNext(step, frames, i, zone, isLine, u, a, AccountOf(u, zone));
      }
      ReachedEnd(rules.settings, frames, isLine, u, AccountOf(u, zone));
    }

    /** The same with the identity sweep before each frame's sections, over any claims
        the tracks may have come to by then. */
    method SweepAndAnalyseAll(frames: seq<Frame>, rosters: seq<Roster>, zone: string, isLine: bool, ghost u: int)
      requires EpochShape(frames, zone, isLine) && RostersOk(frames, rosters) && Fresh()
      modifies this, rules
      ensures EpochFrames(SweptFrames(frames, rosters), zone, isLine)
      ensures Known() && Reached(Rules.StepOf(rules.settings), SweptFrames(frames, rosters), |frames|, isLine, u,
                                 AccountOf(u, zone))
    {
      ghost var step, gs := Rules.StepOf(rules.settings), SweptFrames(frames, rosters);
      SweptEpoch(frames, rosters, zone, isLine);
      FreshReached(gs, zone, isLine, u);
      for i := 0 to |frames|
        invariant Known() && Reached(step, gs, i, isLine, u, AccountOf(u, zone))
      {
        ghost var a := AccountOf(u, zone);
        var g := SweepRoster(frames[i], rosters[i], u);
        ReachedNext(step, gs, i, zone, isLine, u, a, AccountOf(u, zone));
      }
    }

    /** A new stream epoch clears everything. */
    method ResetEpoch(ghost u: int, ghost z: string)
      modifies this, rules
      ensures View(u, z) == P.INIT && log == old(log)
      ensures Known() && known == {} && rules.Remembered() == {}
    {
      rules.ResetAll();
      alerted, suspectsAlerted, lineActive := {}, {}, {};
      outsideCount, lineMissCount := map[], map[];
      lastIntrusion, lastExit, unseenStreak, known := map[], map[], map[], {};
    }
  }

  // ---------------------------------------------------------------- loitering notices

  lemma {:induction false} AllOpsInZone(frames: seq<Frame>, zone: string)
    requires forall i :: 0 <= i < |frames| ==> frames[i].zone == zone
    ensures forall n :: 0 <= n < |AllOps(frames)| && AllOps(frames)[n].Look? ==> AllOps(frames)[n].zone == zone
  {
    if frames != [] {
      AllOpsInZone(frames[..|frames| - 1], zone);
    }
  }

  /** Between two loitering notices of one track in an epoch's log, the frames show three
      consecutive looks at it outside the zone, or its end. */
  lemma LoiteringSeparated(c: Rules.Settings, frames: seq<Frame>, zone: string, isLine: bool, a: nat, b: nat)
    requires EpochFrames(frames, zone, isLine)
    requires var notices := Rules.Noticed(Rules.StepOf(c), Rules.START, AllOps(frames));
             a < b < |notices| && notices[a].track == notices[b].track
    ensures var ops := AllOps(frames);
            var step, notices := Rules.StepOf(c), Rules.Noticed(Rules.StepOf(c), Rules.START, ops);
            exists i: nat, k: nat, j: nat :: i < k < j < |ops|
              && |Rules.Noticed(step, Rules.START, ops[..i])| == a && |Rules.Noticed(step, Rules.START, ops[..j])| == b
              && Rules.Rearms(ops, k, notices[a].track, zone)
  {
    AllOpsInZone(frames, zone);
    Rules.NoticesSeparated(c, AllOps(frames), zone, a, b);
  }

  lemma ClockedAppend(ops: seq<Rules.Op>, batch: seq<Rules.Op>, now: real)
    requires Rules.Clocked(ops) && forall n :: 0 <= n < |ops| && Rules.Timed(ops[n]) ==> ops[n].ts <= now
    requires forall n :: 0 <= n < |batch| && Rules.Timed(batch[n]) ==> batch[n].ts == now
    ensures Rules.Clocked(ops + batch)
    ensures forall n :: 0 <= n < |ops + batch| && Rules.Timed((ops + batch)[n]) ==> (ops + batch)[n].ts <= now
  {
  }

  /** The clock of an epoch's looks never steps back, so `Rules.ReportsExactly` says which
      looks of the frames are reported. */
  lemma {:induction false} AllOpsClocked(frames: seq<Frame>)
    requires forall i, j :: 0 <= i < j < |frames| ==> frames[i].now <= frames[j].now
    ensures Rules.Clocked(AllOps(frames))
    ensures frames != [] ==> forall n :: 0 <= n < |AllOps(frames)| && Rules.Timed(AllOps(frames)[n]) ==>
              AllOps(frames)[n].ts <= frames[|frames| - 1].now
  {
    if frames != [] {
      var n := |frames| - 1;
      AllOpsClocked(frames[..n]);
      assert n > 0 ==> frames[..n][n - 1].now <= frames[n].now;
      ClockedAppend(AllOps(frames[..n]), OpsOf(frames[n]), frames[n].now);
    }
  }

  // ------------------------------------------------------------------ suspect notices

  /** The n-th frame reports track u as a suspect. */
  ghost predicate SuspectedAt(frames: seq<Frame>, n: nat, u: int)
    requires n < |frames|
  {
    u in SuspectIds(frames[n].visible) && u !in Identified(SuspectsAfter(frames, n), frames[n])
  }

  ghost predicate IdentifiedIn(f: Frame, u: int) { u in f.live && f.live[u].identified }

  /** The track has kept an identity in every frame after the i-th, up to the n-th. */
  ghost predicate KeptIdentity(frames: seq<Frame>, i: nat, n: nat, u: int)
    requires n < |frames|
  {
    forall k :: i < k <= n ==> IdentifiedIn(frames[k], u)
  }

  lemma {:induction false} DueMeaning(vs: seq<Seen>, alerted: set<int>, now: real, notice: Notice)
    ensures notice in DueSuspects(vs, alerted, now)
       <==> notice.ts == now && notice.track in SuspectIds(vs) && notice.track !in alerted
  {
    if vs != [] {
      var n := |vs| - 1;
      DueMeaning(vs[..n], alerted, now, notice);
      assert vs == vs[..n] + [vs[n]];
    }
  }

  ghost predicate OnceEach(notices: seq<Notice>) {
    forall a, b :: 0 <= a < b < |notices| ==> notices[a].track != notices[b].track
  }

  /** One frame reports no track twice. */
  lemma {:induction false} DueOnce(vs: seq<Seen>, alerted: set<int>, now: real)
    requires forall a, b :: 0 <= a < b < |vs| ==> vs[a].id != vs[b].id
    ensures OnceEach(DueSuspects(vs, alerted, now))
  {
    if vs != [] {
      var n := |vs| - 1;
      var rest := DueSuspects(vs[..n], alerted, now);
      DueOnce(vs[..n], alerted, now);
      forall a | 0 <= a < |rest| ensures rest[a].track != vs[n].id {
        DueMeaning(vs[..n], alerted, now, rest[a]);
      }
    }
  }

  /** An alerted suspect has been reported, and has kept an identity since. */
  lemma {:induction false} AlertedIsReported(frames: seq<Frame>, n: nat, u: int) returns (i: nat)
    requires n <= |frames| && u in SuspectsAfter(frames, n)
    ensures i < n && SuspectedAt(frames, i, u) && KeptIdentity(frames, i, n - 1, u)
  {
    if SuspectedAt(frames, n - 1, u) {
      i := n - 1;
    } else {
      i := AlertedIsReported(frames, n - 1, u);
    }
  }

  /** As long as it does, it stays alerted. */
  lemma {:induction false} ReportedStaysAlerted(frames: seq<Frame>, zone: string, isLine: bool, i: nat, n: nat, u: int)
    requires EpochFrames(frames, zone, isLine) && i < n <= |frames|
    requires SuspectedAt(frames, i, u) && KeptIdentity(frames, i, n - 1, u)
    ensures u in SuspectsAfter(frames, n)
    decreases n
  {
    var f := frames[n - 1];
    if i < n - 1 {
      ReportedStaysAlerted(frames, zone, isLine, i, n - 1, u);
      assert IdentifiedIn(f, u);
    }
    assert u in f.live;
  }

  /** In every epoch a frame reports a track exactly when it shows it as a suspect and no
      earlier frame reported it since which it has kept an identity. */
  lemma SuspectReportedExactly(frames: seq<Frame>, zone: string, isLine: bool, n: nat, u: int)
    requires EpochFrames(frames, zone, isLine) && n < |frames|
    ensures SuspectedAt(frames, n, u) <==>
              && u in SuspectIds(frames[n].visible)
              && !exists i :: 0 <= i < n && SuspectedAt(frames, i, u) && KeptIdentity(frames, i, n, u)
  {
    var f := frames[n];
    if u in Identified(SuspectsAfter(frames, n), f) {
      var i := AlertedIsReported(frames, n, u);
      assert IdentifiedIn(f, u);
      assert KeptIdentity(frames, i, n, u);
    }
    if i :| 0 <= i < n && SuspectedAt(frames, i, u) && KeptIdentity(frames, i, n, u) {
      ReportedStaysAlerted(frames, zone, isLine, i, n, u);
      assert IdentifiedIn(f, u);
    }
  }

  /** The a-th notice is of track u and comes from the n-th frame. */
  ghost predicate FromFrame(frames: seq<Frame>, n: nat, a: nat, u: int)
    requires n < |frames|
  {
    |SuspectLog(frames, n)| <= a < |SuspectLog(frames, n + 1)| && SuspectLog(frames, n + 1)[a].track == u
  }

  lemma {:induction false} SuspectFrame(frames: seq<Frame>, m: nat, a: nat) returns (n: nat)
    requires m <= |frames| && a < |SuspectLog(frames, m)|
    ensures n < m && FromFrame(frames, n, a, SuspectLog(frames, m)[a].track)
    ensures SuspectedAt(frames, n, SuspectLog(frames, m)[a].track)
    decreases m
  {
    var rest, f := SuspectLog(frames, m - 1), frames[m - 1];
    if a < |rest| {
      n := SuspectFrame(frames, m - 1, a);
    } else {
      n := m - 1;
      DueMeaning(f.visible, Identified(SuspectsAfter(frames, n), f), f.now, SuspectLog(frames, m)[a]);
    }
  }

  lemma {:induction false} SuspectLogGrows(frames: seq<Frame>, i: nat, j: nat)
    requires i <= j <= |frames|
    ensures |SuspectLog(frames, i)| <= |SuspectLog(frames, j)|
    decreases j
  {
    if i < j {
      SuspectLogGrows(frames, i, j - 1);
    }
  }

  lemma OnceAppended(before: seq<Notice>, due: seq<Notice>, a: nat, b: nat)
    requires OnceEach(due) && |before| <= a < b
    ensures b < |before + due| ==> (before + due)[a].track != (before + due)[b].track
  {
    if b < |before + due| {
      assert due[a - |before|].track != due[b - |before|].track;
    }
  }

  lemma OncePerFrame(frames: seq<Frame>, n: nat, a: nat, b: nat, u: int)
    requires n < |frames| && TrackerShape(frames[n]) && a < b
    requires FromFrame(frames, n, a, u)
    ensures !FromFrame(frames, n, b, u)
  {
    var f := frames[n];
    DueOnce(f.visible, Identified(SuspectsAfter(frames, n), f), f.now);
    OnceAppended(SuspectLog(frames, n), DueSuspects(f.visible, Identified(SuspectsAfter(frames, n), f), f.now), a, b);
  }

  lemma FramesInOrder(frames: seq<Frame>, i: nat, j: nat, a: nat, b: nat, u: int)
    requires i < |frames| && j < |frames| && a < b && TrackerShape(frames[i])
    requires FromFrame(frames, i, a, u) && FromFrame(frames, j, b, u)
    ensures i < j
  {
    if j < i {
      SuspectLogGrows(frames, j + 1, i);
    } else if i == j {
      OncePerFrame(frames, i, a, b, u);
    }
  }

  lemma SuspectedTwice(frames: seq<Frame>, zone: string, isLine: bool, i: nat, j: nat, u: int) returns (k: nat)
    requires EpochFrames(frames, zone, isLine) && i < j < |frames|
    requires SuspectedAt(frames, i, u) && SuspectedAt(frames, j, u)
    ensures i < k <= j && !IdentifiedIn(frames[k], u)
  {
    SuspectReportedExactly(frames, zone, isLine, j, u);
    k :| i < k <= j && !IdentifiedIn(frames[k], u);
  }

  /** A suspect is reported once per identification: two notices of one track in an
      epoch's log come from two frames, and after the first, up to the second, there is a
      frame in which the track has no identity or is gone. */
  lemma SuspectsSeparated(frames: seq<Frame>, zone: string, isLine: bool, a: nat, b: nat)
    returns (i: nat, k: nat, j: nat)
    requires EpochFrames(frames, zone, isLine)
    requires a < b < |SuspectLog(frames, |frames|)|
    requires SuspectLog(frames, |frames|)[a].track == SuspectLog(frames, |frames|)[b].track
    ensures i < k <= j < |frames| && !IdentifiedIn(frames[k], SuspectLog(frames, |frames|)[a].track)
    ensures FromFrame(frames, i, a, SuspectLog(frames, |frames|)[a].track)
    ensures FromFrame(frames, j, b, SuspectLog(frames, |frames|)[a].track)
  {
    var u := SuspectLog(frames, |frames|)[a].track;
    i := SuspectFrame(frames, |frames|, a);
    j := SuspectFrame(frames, |frames|, b);
    FramesInOrder(frames, i, j, a, b, u);
    k := SuspectedTwice(frames, zone, isLine, i, j, u);
  }

  // ----------------------------------------------------------------- exits from view

  /** Track u ends confirmed in the n-th frame, with the clock past 3. */
  ghost predicate ExitsAt(frames: seq<Frame>, n: nat, u: int)
    requires n < |frames|
  {
    exists e :: e in frames[n].terminated && e.id == u && e.hits >= 3 && e.confidence >= 0.45 && frames[n].now >= 3.0
  }

  lemma {:induction false} ExitsOfMember(ts: seq<Term>, now: real, notice: Notice)
    ensures notice in ExitsOf(ts, now) <==>
              notice.ts == now && now >= 3.0
              && exists e :: e in ts && e.id == notice.track && e.hits >= 3 && e.confidence >= 0.45
  {
    if ts != [] {
      var n := |ts| - 1;
      ExitsOfMember(ts[..n], now, notice);
      assert ts == ts[..n] + [ts[n]];
    }
  }

  /** The target-exited notices of an epoch are one for each track that ends confirmed. */
  lemma {:induction false} ExitsExactly(frames: seq<Frame>, m: nat, notice: Notice)
    requires m <= |frames|
    ensures notice in ExitLog(frames, m) <==>
              exists n :: 0 <= n < m && ExitsAt(frames, n, notice.track) && notice.ts == frames[n].now
  {
    if m > 0 {
      ExitsExactly(frames, m - 1, notice);
      ExitsOfMember(frames[m - 1].terminated, frames[m - 1].now, notice);
      assert ExitsAt(frames, m - 1, notice.track) && notice.ts == frames[m - 1].now
             <==> notice in ExitsOf(frames[m - 1].terminated, frames[m - 1].now);
    }
  }

  lemma {:induction false} ExitsOfOnce(ts: seq<Term>, now: real)
    requires forall a, b :: 0 <= a < b < |ts| ==> ts[a].id != ts[b].id
    ensures OnceEach(ExitsOf(ts, now))
  {
    if ts != [] {
      var n := |ts| - 1;
      ExitsOfOnce(ts[..n], now);
      forall k | 0 <= k < |ExitsOf(ts[..n], now)| ensures ExitsOf(ts[..n], now)[k].track != ts[n].id {
        ExitsOfMember(ts[..n], now, ExitsOf(ts[..n], now)[k]);
      }
    }
  }

  lemma OnceTogether(a: seq<Notice>, b: seq<Notice>)
    requires OnceEach(a) && OnceEach(b) && forall x, y :: x in a && y in b ==> x.track != y.track
    ensures OnceEach(a + b)
  {
  }

  lemma ExitsApart(frames: seq<Frame>, zone: string, isLine: bool, m: nat, x: Notice, y: Notice)
    requires EpochShape(frames, zone, isLine) && m < |frames|
    requires x in ExitLog(frames, m) && y in ExitsOf(frames[m].terminated, frames[m].now)
    ensures x.track != y.track
  {
    ExitsExactly(frames, m, x);
    ExitsOfMember(frames[m].terminated, frames[m].now, y);
    var n :| 0 <= n < m && ExitsAt(frames, n, x.track);
    assert x.track in EndedIds(frames[n].terminated) && y.track in EndedIds(frames[m].terminated);
  }

  /** And no track has two. */
  lemma {:induction false} ExitOnce(frames: seq<Frame>, zone: string, isLine: bool, m: nat)
    requires EpochShape(frames, zone, isLine) && m <= |frames|
    ensures OnceEach(ExitLog(frames, m))
  {
    if m > 0 {
      var f := frames[m - 1];
      ExitOnce(frames, zone, isLine, m - 1);
      ExitsOfOnce(f.terminated, f.now);
      forall x, y | x in ExitLog(frames, m - 1) && y in ExitsOf(f.terminated, f.now) ensures x.track != y.track {
        ExitsApart(frames, zone, isLine, m - 1, x, y);
      }
      OnceTogether(ExitLog(frames, m - 1), ExitsOf(f.terminated, f.now));
    }
  }
}
