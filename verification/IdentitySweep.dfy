/** The per-frame sweep that leaves each watchlist entry with at most one track. */
module IdentitySweep {
  import opened Basics

  /** red: the match is of the red tier. */
  datatype Identity = Identity(entryId: string, critical: bool, score: real, red: bool)

  class Track {
    const id: int
    var identity: Option<Identity>
    var locked: bool

    constructor (id: int)
      ensures this.id == id && identity == None && !locked
    {
      this.id, identity, locked := id, None, false;
    }
  }

  /** A track's claim when the sweep starts. */
  datatype Claim = Claim(identity: Option<Identity>, locked: bool)

  const CLEARED := Claim(None, false)

  predicate Claims(c: Claim, entry: string) {
    c.identity.Some? && c.identity.value.entryId == entry && entry != ""
  }

  /** The later claimant wins: by lock, else by threat level or by score. */
  predicate Beats(curr: Claim, prev: Claim)
    requires curr.identity.Some? && prev.identity.Some?
  {
    || (curr.locked && !prev.locked)
    || (curr.locked == prev.locked &&
        ((curr.identity.value.critical && !prev.identity.value.critical)
         || curr.identity.value.score > prev.identity.value.score))
  }

  /** Which of the first n claimants of an entry the sweep keeps. */
  ghost function Champion(cs: seq<Claim>, entry: string, n: nat): (k: Option<nat>)
    requires n <= |cs|
    ensures k.Some? ==> k.value < n && Claims(cs[k.value], entry)
    ensures k.None? ==> forall j :: 0 <= j < n ==> !Claims(cs[j], entry)
  {
    if n == 0 then None else
    var prev := Champion(cs, entry, n - 1);
    if !Claims(cs[n - 1], entry) then prev
    else if prev.None? || Beats(cs[n - 1], cs[prev.value]) then Some(n - 1)
    else prev
  }

  /** The lock wins: a champion is locked whenever any claimant was. */
  lemma {:induction false} ChampionLocked(cs: seq<Claim>, entry: string, n: nat, j: nat)
    requires j < n <= |cs| && Claims(cs[j], entry) && cs[j].locked
    ensures Champion(cs, entry, n).Some? && cs[Champion(cs, entry, n).value].locked
  {
    if j < n - 1 {
      ChampionLocked(cs, entry, n - 1, j);
    }
  }

  /** Nobody beats the champion on lock, and of the claimants with its lock that come
      after it none beats it at all. */
  lemma {:induction false} ChampionUnbeaten(cs: seq<Claim>, entry: string, n: nat, j: nat)
    requires j < n <= |cs| && Claims(cs[j], entry) && Champion(cs, entry, n).Some?
    ensures var k := Champion(cs, entry, n).value;
            && (cs[j].locked ==> cs[k].locked)
            && (j > k ==> !Beats(cs[j], cs[k]))
  {
    if cs[j].locked {
      ChampionLocked(cs, entry, n, j);
    }
    var k := Champion(cs, entry, n).value;
    if j > k && j < n - 1 {
      ChampionUnbeaten(cs, entry, n - 1, j);
    }
  }

  /** Of two claimants the later one wins exactly when it alone is locked, or when they are
      locked alike and it is critical and the other is not, or its score is higher. */
  lemma PairExactly(entry: string, prev: Claim, curr: Claim)
    requires Claims(prev, entry) && Claims(curr, entry)
    ensures var p, c := prev.identity.value, curr.identity.value;
            Champion([prev, curr], entry, 2)
              == if prev.locked then
                   if curr.locked && ((c.critical && !p.critical) || p.score < c.score) then Some(1) else Some(0)
                 else
                   if curr.locked || (c.critical && !p.critical) || p.score < c.score then Some(1) else Some(0)
  {
    assert Champion([prev, curr], entry, 1) == Some(0);
  }

  /** Of two claimants equally locked, a later one that is not critical displaces a
      critical one exactly when its score is higher. */
  lemma PairSurvivor(entry: string, prev: Claim, curr: Claim)
    requires Claims(prev, entry) && Claims(curr, entry) && prev.locked == curr.locked
    requires prev.identity.value.critical && !curr.identity.value.critical
    ensures Champion([prev, curr], entry, 2)
         == if curr.identity.value.score > prev.identity.value.score then Some(1) else Some(0)
  {
    assert Champion([prev, curr], entry, 1) == Some(0);
  }

  /** A track identified as less than critical can take the entry from a critical one. */
  lemma ScoreBeatsThreat(entry: string)
    requires entry != ""
    ensures var critical, other := Identity(entry, true, 0.5, true), Identity(entry, false, 0.6, true);
            Champion([Claim(Some(critical), false), Claim(Some(other), false)], entry, 2) == Some(1)
  {
    var critical, other := Identity(entry, true, 0.5, true), Identity(entry, false, 0.6, true);
    PairSurvivor(entry, Claim(Some(critical), false), Claim(Some(other), false));
  }

  /** A claimant with a lock if any of the first n claimants of its entry has one. */
  ghost predicate Eligible(cs: seq<Claim>, entry: string, n: nat, k: nat)
    requires n <= |cs|
  {
    && k < n && Claims(cs[k], entry)
    && (cs[k].locked || forall j :: 0 <= j < n && Claims(cs[j], entry) ==> !cs[j].locked)
  }

  /** An eligible critical claimant that no later eligible one outscores without being
      critical itself. */
  ghost predicate Holds(cs: seq<Claim>, entry: string, n: nat, k: nat)
    requires n <= |cs|
  {
    && Eligible(cs, entry, n, k) && cs[k].identity.value.critical
    && forall j :: k < j < n && Eligible(cs, entry, n, j) && !cs[j].identity.value.critical ==>
         cs[j].identity.value.score <= cs[k].identity.value.score
  }

  lemma ChampionEligible(cs: seq<Claim>, entry: string, n: nat)
    requires n <= |cs| && Champion(cs, entry, n).Some?
    ensures Eligible(cs, entry, n, Champion(cs, entry, n).value)
  {
    forall j | 0 <= j < n && Claims(cs[j], entry) && cs[j].locked ensures cs[Champion(cs, entry, n).value].locked {
      ChampionLocked(cs, entry, n, j);
    }
  }

  /** From such a claimant on the champion is critical and scores at least as much. */
  lemma {:induction false} HeldUntil(cs: seq<Claim>, entry: string, n: nat, k: nat, m: nat)
    requires k < m <= n <= |cs| && Holds(cs, entry, n, k)
    ensures var c := Champion(cs, entry, m);
            c.Some? && cs[c.value].locked == cs[k].locked && cs[c.value].identity.value.critical
            && cs[c.value].identity.value.score >= cs[k].identity.value.score
    decreases m
  {
    if m == k + 1 {
      var prev := Champion(cs, entry, k);
      if prev.Some? {
        assert cs[prev.value].locked ==> cs[k].locked;
      }
    } else {
      HeldUntil(cs, entry, n, k, m - 1);
      if Claims(cs[m - 1], entry) && cs[m - 1].locked == cs[k].locked {
        assert Eligible(cs, entry, n, m - 1);
      }
    }
  }

  /** The survivor of an entry is critical exactly when some eligible critical claimant is
      not outscored by any later eligible claimant that is not critical. */
  lemma SurvivorCritical(cs: seq<Claim>, entry: string, n: nat)
    requires n <= |cs| && Champion(cs, entry, n).Some?
    ensures cs[Champion(cs, entry, n).value].identity.value.critical <==> exists k: nat :: Holds(cs, entry, n, k)
  {
    var c := Champion(cs, entry, n).value;
    if cs[c].identity.value.critical {
      ChampionEligible(cs, entry, n);
      forall j | c < j < n && Eligible(cs, entry, n, j) && !cs[j].identity.value.critical
        ensures cs[j].identity.value.score <= cs[c].identity.value.score
      {
        ChampionUnbeaten(cs, entry, n, j);
      }
      assert Holds(cs, entry, n, c);
    }
    if k: nat :| Holds(cs, entry, n, k) {
      HeldUntil(cs, entry, n, k, n);
    }
  }

  /** k is eligible, scores highest of the eligible ones before m, and is the first that
      does. */
  ghost predicate FirstHighest(cs: seq<Claim>, entry: string, n: nat, m: nat, k: nat)
    requires m <= n <= |cs|
  {
    && k < m && Eligible(cs, entry, n, k)
    && (forall j :: 0 <= j < m && Eligible(cs, entry, n, j) ==>
          cs[j].identity.value.score <= cs[k].identity.value.score)
    && (forall j :: 0 <= j < k && Eligible(cs, entry, n, j) ==>
          cs[j].identity.value.score < cs[k].identity.value.score)
  }

  ghost predicate AlikeCritical(cs: seq<Claim>, entry: string, n: nat)
    requires n <= |cs|
  {
    forall i, j :: 0 <= i < n && 0 <= j < n && Eligible(cs, entry, n, i) && Eligible(cs, entry, n, j) ==>
      cs[i].identity.value.critical == cs[j].identity.value.critical
  }

  /** What one more claimant does to it. */
  lemma HighestNext(cs: seq<Claim>, entry: string, n: nat, m: nat, c: Option<nat>, c': Option<nat>)
    requires 0 < m <= n <= |cs| && AlikeCritical(cs, entry, n)
    requires c.Some? ==> c.value < m - 1 && Claims(cs[c.value], entry)
    requires c.None? ==> forall j :: 0 <= j < m - 1 ==> !Claims(cs[j], entry)
    requires c' == if !Claims(cs[m - 1], entry) then c
                   else if c.None? || Beats(cs[m - 1], cs[c.value]) then Some(m - 1) else c
    requires (exists j :: 0 <= j < m - 1 && Eligible(cs, entry, n, j)) ==>
               c.Some? && FirstHighest(cs, entry, n, m - 1, c.value)
    ensures (exists j :: 0 <= j < m && Eligible(cs, entry, n, j)) ==>
              c'.Some? && FirstHighest(cs, entry, n, m, c'.value)
  {
    if Eligible(cs, entry, n, m - 1) && c.Some? && Eligible(cs, entry, n, c.value) {
      assert cs[m - 1].locked == cs[c.value].locked;
    }
  }

  lemma {:induction false} HighestUntil(cs: seq<Claim>, entry: string, n: nat, m: nat)
    requires m <= n <= |cs| && AlikeCritical(cs, entry, n)
    ensures (exists j :: 0 <= j < m && Eligible(cs, entry, n, j)) ==>
              Champion(cs, entry, m).Some? && FirstHighest(cs, entry, n, m, Champion(cs, entry, m).value)
  {
    if m > 0 {
      HighestUntil(cs, entry, n, m - 1);
      HighestNext(cs, entry, n, m, Champion(cs, entry, m - 1), Champion(cs, entry, m));
    }
  }

  /** Among claimants of which the eligible ones are all critical, or all not, the survivor
      is the first of highest score among the eligible. */
  lemma SurvivorHighest(cs: seq<Claim>, entry: string, n: nat)
    requires n <= |cs| && Champion(cs, entry, n).Some? && AlikeCritical(cs, entry, n)
    ensures FirstHighest(cs, entry, n, n, Champion(cs, entry, n).value)
  {
    ChampionEligible(cs, entry, n);
    HighestUntil(cs, entry, n, n);
  }

  /** What a claim becomes once the first n tracks have been swept. */
  ghost function Swept(cs: seq<Claim>, j: nat, n: nat): Claim
    requires j < |cs| && n <= |cs|
  {
    if j < n && cs[j].identity.Some? && cs[j].identity.value.entryId != ""
       && Champion(cs, cs[j].identity.value.entryId, n) != Some(j)
    then CLEARED
    else cs[j]
  }

  ghost function State(t: Track): Claim
    reads t
  {
    Claim(t.identity, t.locked)
  }

  ghost predicate DistinctTracks(tracks: seq<Track>) {
    forall a, b :: 0 <= a < b < |tracks| ==> tracks[a] != tracks[b] && tracks[a].id != tracks[b].id
  }

  /** The tracks' claims before and after the sweep. */
  ghost predicate Claiming(tracks: seq<Track>, cs: seq<Claim>)
    reads tracks
  {
    |cs| == |tracks| && forall j :: 0 <= j < |tracks| ==> State(tracks[j]) == cs[j]
  }

  ghost predicate Settled(tracks: seq<Track>, cs: seq<Claim>)
    reads tracks
  {
    |cs| == |tracks| && forall j :: 0 <= j < |tracks| ==> State(tracks[j]) == Swept(cs, j, |tracks|)
  }

  /** Who loses when the n-th track is swept, if anybody. */
  ghost function Loser(cs: seq<Claim>, n: nat): (l: Option<nat>)
    requires n < |cs|
    ensures l.Some? ==> l.value <= n
  {
    if cs[n].identity.None? || cs[n].identity.value.entryId == "" then None else
    var prev := Champion(cs, cs[n].identity.value.entryId, n);
    if prev.None? then None else if Beats(cs[n], cs[prev.value]) then prev else Some(n)
  }

  /** Sweeping one more track clears its loser and changes nothing else. */
  lemma SweptStep(cs: seq<Claim>, n: nat, j: nat)
    requires n < |cs| && j < |cs|
    ensures Swept(cs, j, n + 1) == if Loser(cs, n) == Some(j) then CLEARED else Swept(cs, j, n)
    ensures Loser(cs, n) == Some(j) ==> Swept(cs, j, n) == cs[j]
  {
  }

  lemma SweptAll(cs: seq<Claim>, n: nat)
    requires n < |cs|
    ensures forall j :: 0 <= j < |cs| ==> Swept(cs, j, n + 1) == if Loser(cs, n) == Some(j) then CLEARED else Swept(cs, j, n)
  {
    forall j | 0 <= j < |cs| ensures Swept(cs, j, n + 1) == if Loser(cs, n) == Some(j) then CLEARED else Swept(cs, j, n) {
      SweptStep(cs, n, j);
    }
  }

  /** The ids of the tracks that have lost an identity so far. */
  ghost function Losers(ids: seq<int>, cs: seq<Claim>, n: nat): set<int>
    requires |ids| == |cs| && n <= |cs|
  {
    if n == 0 then {} else
    Losers(ids, cs, n - 1) + (if Loser(cs, n - 1).Some? then {ids[Loser(cs, n - 1).value]} else {})
  }

  lemma LosersNext(alerted: set<int>, ids: seq<int>, cs: seq<Claim>, n: nat, left: set<int>, left': set<int>)
    requires |ids| == |cs| && n < |cs| && left == alerted - Losers(ids, cs, n)
    requires left' == left - (if Loser(cs, n).Some? then {ids[Loser(cs, n).value]} else {})
    ensures left' == alerted - Losers(ids, cs, n + 1)
  {
  }

  lemma {:induction false} LosersAreCleared(ids: seq<int>, cs: seq<Claim>, n: nat)
    requires |ids| == |cs| && n <= |cs|
    ensures forall t :: t in Losers(ids, cs, n) ==> exists j :: 0 <= j < |cs| && ids[j] == t && Swept(cs, j, n) == CLEARED
  {
    if n > 0 {
      LosersAreCleared(ids, cs, n - 1);
      forall t | t in Losers(ids, cs, n)
        ensures exists j :: 0 <= j < |cs| && ids[j] == t && Swept(cs, j, n) == CLEARED
      {
        if t in Losers(ids, cs, n - 1) {
          var j :| 0 <= j < |cs| && ids[j] == t && Swept(cs, j, n - 1) == CLEARED;
          SweptStep(cs, n - 1, j);
        } else {
          SweptStep(cs, n - 1, Loser(cs, n - 1).value);
        }
      }
    }
  }

  ghost function Ids(tracks: seq<Track>): (ids: seq<int>)
    ensures |ids| == |tracks| && forall j :: 0 <= j < |tracks| ==> ids[j] == tracks[j].id
  {
    seq(|tracks|, j requires 0 <= j < |tracks| => tracks[j].id)
  }

  method ClearTrack(tracks: seq<Track>, k: nat)
    requires DistinctTracks(tracks) && k < |tracks|
    modifies tracks[k]
    ensures forall j :: 0 <= j < |tracks| ==> State(tracks[j]) == if j == k then CLEARED else old(State(tracks[j]))
  {
    tracks[k].identity, tracks[k].locked := None, false;
  }

  ghost predicate Holders(cs: seq<Claim>, seen: map<string, nat>, n: nat)
    requires n <= |cs|
  {
    && (forall e :: e in seen <==> Champion(cs, e, n).Some?)
    && (forall e :: e in seen ==> seen[e] == Champion(cs, e, n).value)
  }

  /** After n tracks: what each has become, and in `seen`, for each entry, the position
      of the track that has it for now. */
  ghost predicate Sweeping(tracks: seq<Track>, cs: seq<Claim>, seen: map<string, nat>, n: nat)
    requires n <= |cs| == |tracks|
    reads tracks
  {
    && (forall j :: 0 <= j < |tracks| ==> State(tracks[j]) == Swept(cs, j, n))
    && Holders(cs, seen, n)
  }

  lemma SweepStarts(tracks: seq<Track>, cs: seq<Claim>)
    requires |cs| == |tracks| && forall j :: 0 <= j < |tracks| ==> State(tracks[j]) == cs[j]
    ensures Sweeping(tracks, cs, map[], 0)
  {
  }

  /** The contest between two claimants of one entry. */
  method ChallengerWins(trk: Track, prev: Track) returns (win: bool)
    requires trk.identity.Some? && prev.identity.Some?
    ensures win == Beats(State(trk), State(prev))
  {
    var prevCrit, currCrit := prev.identity.value.critical, trk.identity.value.critical;
    var prevScore, currScore := prev.identity.value.score, trk.identity.value.score;
    win := (trk.locked && !prev.locked)
        || (trk.locked == prev.locked && ((currCrit && !prevCrit) || currScore > prevScore));
  }

  /** One track against the present holder of its entry: who loses, and who holds it
      now. */
  method Contest(tracks: seq<Track>, n: nat, seen: map<string, nat>, ghost cs: seq<Claim>)
    returns (seen': map<string, nat>, loser: Option<nat>)
    requires n < |tracks| == |cs| && Sweeping(tracks, cs, seen, n)
    ensures loser == Loser(cs, n) && Holders(cs, seen', n + 1)
  {
    seen', loser := seen, None;
    var trk := tracks[n];
    assert State(trk) == cs[n];
    if trk.identity.Some? && trk.identity.value.entryId != "" {
      var eid := trk.identity.value.entryId;
      if eid in seen {
        var prev := tracks[seen[eid]];
        assert State(prev) == cs[seen[eid]];
        var win := ChallengerWins(trk, prev);
        if win {
          loser, seen' := Some(seen[eid]), seen[eid := n];
        } else {
          loser := Some(n);
        }
      } else {
        seen' := seen[eid := n];
      }
    }
  }

  /** One turn of the loop: the loser, if there is one, gives its identity up. */
  method SweepTrack(tracks: seq<Track>, n: nat, seen: map<string, nat>, alerted: set<int>, ghost all: set<int>,
                    ghost ids: seq<int>, ghost cs: seq<Claim>)
    returns (seen': map<string, nat>, alerted': set<int>)
    requires DistinctTracks(tracks) && n < |tracks| == |cs| && Sweeping(tracks, cs, seen, n)
    requires ids == Ids(tracks) && alerted == all - Losers(ids, cs, n)
    modifies set t | t in tracks
    ensures Sweeping(tracks, cs, seen', n + 1)
    ensures alerted' == all - Losers(ids, cs, n + 1)
  {
    var loser;
    seen', loser := Contest(tracks, n, seen, cs);
    SweptAll(cs, n);
    alerted' := alerted;
    if loser.Some? {
      ClearTrack(tracks, loser.value);
      alerted' := alerted' - {tracks[loser.value].id};
    }
    LosersNext(all, ids, cs, n, alerted, alerted');
  }

  /** The pairwise resolution loop. */
  method Resolve(tracks: seq<Track>, alerted: set<int>, ghost ids: seq<int>, ghost cs: seq<Claim>)
    returns (alerted': set<int>, seen: map<string, nat>)
    requires DistinctTracks(tracks) && |cs| == |tracks| && ids == Ids(tracks) && Sweeping(tracks, cs, map[], 0)
    modifies set t | t in tracks
    ensures Sweeping(tracks, cs, seen, |tracks|)
    ensures alerted' == alerted - Losers(ids, cs, |tracks|)
  {
    alerted', seen := alerted, map[];
    for n := 0 to |tracks|
      invariant Sweeping(tracks, cs, seen, n)
      invariant alerted' == alerted - Losers(ids, cs, n)
    {
      seen, alerted' := SweepTrack(tracks, n, seen, alerted', alerted, ids, cs);
    }
  }

  /** The whole sweep. Every claimed entry ends with exactly its champion, untouched;
      the other claimants are cleared and everyone else is left alone; the alerted ids
      that remain are those of tracks that still have an identity. */
  method Sweep(tracks: seq<Track>, alerted: set<int>, ghost cs: seq<Claim>) returns (alerted': set<int>)
    requires DistinctTracks(tracks) && |cs| == |tracks|
    requires forall j :: 0 <= j < |tracks| ==> State(tracks[j]) == cs[j]
    modifies set t | t in tracks
    ensures forall j :: 0 <= j < |tracks| ==> State(tracks[j]) == Swept(cs, j, |tracks|)
    ensures forall t :: t in alerted' <==>
              t in alerted && exists j :: 0 <= j < |tracks| && tracks[j].id == t && tracks[j].identity.Some?
  {
    SweepStarts(tracks, cs);
    var resolved, _ := Resolve(tracks, alerted, Ids(tracks), cs);
    LosersAreCleared(Ids(tracks), cs, |tracks|);
    alerted' := set t | t in resolved && exists j :: 0 <= j < |tracks| && tracks[j].id == t && tracks[j].identity.Some?;
    forall j, t | 0 <= j < |tracks| && t in alerted && tracks[j].id == t && tracks[j].identity.Some?
      ensures t in resolved
    {
      assert State(tracks[j]) != CLEARED;
    }
  }

  /** After a sweep, an entry somebody claimed is held by exactly one track, one of its
      claimants with its identity intact, locked if any claimant was locked; an entry
      nobody claimed is held by nobody. */
  lemma OneHolderPerEntry(cs: seq<Claim>, entry: string)
    requires entry != ""
    ensures (exists j :: 0 <= j < |cs| && Claims(cs[j], entry)) ==>
              exists k :: 0 <= k < |cs| && Claims(cs[k], entry) && Swept(cs, k, |cs|) == cs[k]
                && (forall j :: 0 <= j < |cs| && Claims(Swept(cs, j, |cs|), entry) ==> j == k)
                && (forall j :: 0 <= j < |cs| && Claims(cs[j], entry) && cs[j].locked ==> cs[k].locked)
    ensures !(exists j :: 0 <= j < |cs| && Claims(cs[j], entry)) ==>
              forall j :: 0 <= j < |cs| ==> !Claims(Swept(cs, j, |cs|), entry)
  {
    var n := |cs|;
    if Champion(cs, entry, n).Some? {
      var k := Champion(cs, entry, n).value;
      forall j | 0 <= j < n && Claims(cs[j], entry) && cs[j].locked ensures cs[k].locked {
        ChampionLocked(cs, entry, n, j);
      }
      assert Swept(cs, k, n) == cs[k];
    }
  }
}
