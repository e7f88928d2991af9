/** The watchlist store's debounced persistence: entries in memory, a file, and
    timers that may fire late. */
module WatchlistTimers {
  import opened Basics

  datatype Entry = Entry(sightCount: nat, lastSighted: Option<real>, name: string)

  /** A timer: waiting, past its wait but not yet in its save section, through it, or
      cancelled while waiting. */
  datatype Timer = Armed | Fired | Spent | Dropped

  datatype Store = Store(entries: map<string, Entry>, file: map<string, Entry>, dirty: bool,
                         handle: Option<nat>, timers: seq<Timer>)

  /** One critical section, or one timer running out. `ok`: the write succeeds. */
  datatype Move = RecordSighting(id: string, ts: real) | AddEntry(id: string, entry: Entry, ok: bool)
                | RemoveEntry(id: string, ok: bool) | Flush(ok: bool) | Expire(k: nat) | DebouncedSave(k: nat, ok: bool)

  // --------------------------------------------------------------------- the steps

  predicate Pending(t: Timer) { t.Armed? || t.Fired? }

  /** Arm a timer unless the one we know of is still alive. */
  function Schedule(s: Store): Store {
    if s.handle.Some? && s.handle.value < |s.timers| && Pending(s.timers[s.handle.value]) then s
    else s.(handle := Some(|s.timers|), timers := s.timers + [Armed])
  }

  /** Forget the timer we know of; cancelling one that already fired has no effect. */
  function Cancel(s: Store): Store {
    if s.handle.Some? && s.handle.value < |s.timers| && s.timers[s.handle.value].Armed?
    then s.(handle := None, timers := s.timers[s.handle.value := Dropped])
    else s.(handle := None)
  }

  /** Write the file; a failed write is logged and otherwise ignored. */
  function Save(s: Store, ok: bool): Store {
    s.(file := if ok then s.entries else s.file, dirty := false)
  }

  predicate Enabled(s: Store, m: Move) {
    match m
    case Expire(k) => k < |s.timers| && s.timers[k].Armed?
    case DebouncedSave(k, _) => k < |s.timers| && s.timers[k].Fired?
    case _ => true
  }

  function Next(s: Store, m: Move): Store
    requires Enabled(s, m)
  {
    match m
    case RecordSighting(id, ts) =>
      if id !in s.entries then s else
      var e := s.entries[id];
      Schedule(s.(entries := s.entries[id := e.(sightCount := e.sightCount + 1, lastSighted := Some(ts))], dirty := true))
    case AddEntry(id, entry, ok) => Save(Cancel(s).(entries := s.entries[id := entry]), ok)
    case RemoveEntry(id, ok) => if id !in s.entries then s else Save(Cancel(s.(entries := s.entries - {id})), ok)
    case Flush(ok) => var c := Cancel(s); if c.dirty then Save(c, ok) else c
    case Expire(k) => s.(timers := s.timers[k := Fired])
    case DebouncedSave(k, ok) =>
      var c := s.(handle := None, timers := s.timers[k := Spent]);
      if c.dirty then Save(c, ok) else c
  }

  ghost predicate Init(s: Store) { s.file == s.entries && !s.dirty && s.handle.None? && s.timers == [] }

  // ------------------------------------------------------------------- the invariant

  /** Whether a step attempts a write, and it fails. */
  predicate WriteFails(s: Store, m: Move) {
    match m
    case AddEntry(_, _, ok) => !ok
    case RemoveEntry(id, ok) => id in s.entries && !ok
    case Flush(ok) => s.dirty && !ok
    case DebouncedSave(_, ok) => s.dirty && !ok
    case _ => false
  }

  predicate Writes(s: Store, m: Move) {
    match m
    case AddEntry(_, _, _) => true
    case RemoveEntry(id, _) => id in s.entries
    case Flush(_) => s.dirty
    case DebouncedSave(_, _) => s.dirty
    case _ => false
  }

  ghost predicate HasPending(s: Store) { exists k :: 0 <= k < |s.timers| && Pending(s.timers[k]) }

  ghost predicate Inv(s: Store) {
    && (s.handle.Some? ==> s.handle.value < |s.timers| && Pending(s.timers[s.handle.value]))
    && (s.dirty ==> HasPending(s))
  }

  lemma NextKeeps(s: Store, m: Move)
    requires Inv(s) && Enabled(s, m)
    ensures Inv(Next(s, m))
  {
    var s' := Next(s, m);
    if s'.dirty {
      match m
      case RecordSighting(id, ts) =>
        if id in s.entries {
          assert Pending(s'.timers[s'.handle.value]);
        }
      case Expire(k) =>
        var j :| 0 <= j < |s.timers| && Pending(s.timers[j]);
        assert Pending(s'.timers[j]);
      case _ =>
    }
  }

  // ------------------------------------------------------------------------ all runs

  ghost predicate Runs(s: Store, moves: seq<Move>, s': Store)
    decreases |moves|
  {
    if moves == [] then s' == s
    else Enabled(s, moves[0]) && Runs(Next(s, moves[0]), moves[1..], s')
  }

  /** The last write attempted in the run succeeded, or none was attempted and the
      store started saved. */
  ghost predicate LastWriteOk(s: Store, moves: seq<Move>, before: bool)
    decreases |moves|
  {
    if moves == [] then before
    else Enabled(s, moves[0]) &&
         LastWriteOk(Next(s, moves[0]), moves[1..], if Writes(s, moves[0]) then !WriteFails(s, moves[0]) else before)
  }

  /** A write attempt that succeeds, or that has nothing new to write. */
  predicate LeavesSaved(s: Store, m: Move)
    requires Enabled(s, m)
  {
    !WriteFails(s, m) || s.file == Next(s, m).entries
  }

  /** The same with a failed write forgiven when it had nothing new to write. */
  ghost predicate LastWriteSaved(s: Store, moves: seq<Move>, before: bool)
    decreases |moves|
  {
    if moves == [] then before
    else Enabled(s, moves[0]) &&
         LastWriteSaved(Next(s, moves[0]), moves[1..], if Writes(s, moves[0]) then LeavesSaved(s, moves[0]) else before)
  }

  /** `saved` says whether a clean store's file is up to date. */
  predicate Knows(s: Store, saved: bool) { !s.dirty ==> (s.file == s.entries <==> saved) }

  lemma NextKnows(s: Store, m: Move, saved: bool)
    requires Enabled(s, m) && Knows(s, saved)
    ensures Knows(Next(s, m), if Writes(s, m) then LeavesSaved(s, m) else saved)
  {
  }

  lemma {:induction false} RunKnows(s: Store, moves: seq<Move>, s': Store, saved: bool)
    requires Runs(s, moves, s') && Knows(s, saved)
    ensures Knows(s', LastWriteSaved(s, moves, saved))
    decreases |moves|
  {
    if moves != [] {
      NextKnows(s, moves[0], saved);
      RunKnows(Next(s, moves[0]), moves[1..], s', if Writes(s, moves[0]) then LeavesSaved(s, moves[0]) else saved);
    }
  }

  lemma {:induction false} OkIsSaved(s: Store, moves: seq<Move>, before: bool, saved: bool)
    requires LastWriteOk(s, moves, before) && (before ==> saved)
    ensures LastWriteSaved(s, moves, saved)
    decreases |moves|
  {
    if moves != [] {
      var m := moves[0];
      OkIsSaved(Next(s, m), moves[1..], if Writes(s, m) then !WriteFails(s, m) else before,
                if Writes(s, m) then LeavesSaved(s, m) else saved);
    }
  }

  lemma {:induction false} RunKeepsPending(s: Store, moves: seq<Move>, s': Store)
    requires Inv(s) && Runs(s, moves, s')
    ensures Inv(s')
    decreases |moves|
  {
    if moves != [] {
      NextKeeps(s, moves[0]);
      RunKeepsPending(Next(s, moves[0]), moves[1..], s');
    }
  }

  /** In every interleaving a clean store's file equals its memory exactly when the last
      write attempted succeeded or had nothing new to write. */
  lemma CleanMeansSaved(s: Store, moves: seq<Move>, s': Store)
    requires Init(s) && Runs(s, moves, s')
    ensures !s'.dirty ==> (s'.file == s'.entries <==> LastWriteSaved(s, moves, true))
  {
    RunKnows(s, moves, s', true);
  }

  /** In every interleaving, with writes failing or not, a dirty store has a timer that
      has not yet entered its save section. */
  lemma NoSightingUnscheduled(s: Store, moves: seq<Move>, s': Store)
    requires Init(s) && Runs(s, moves, s')
    ensures s'.dirty ==> HasPending(s')
    ensures LastWriteOk(s, moves, true) && !s'.dirty ==> s'.file == s'.entries
  {
    RunKeepsPending(s, moves, s');
    CleanMeansSaved(s, moves, s');
    if LastWriteOk(s, moves, true) {
      OkIsSaved(s, moves, true, true);
    }
  }

  /** The scheduled save does the job: letting that timer run out and save leaves the
      store clean with everything recorded in the file. */
  lemma PendingSaveSaves(s: Store) returns (moves: seq<Move>, s': Store)
    requires Inv(s) && s.dirty
    ensures 1 <= |moves| <= 2 && Runs(s, moves, s')
    ensures !s'.dirty && s'.file == s'.entries == s.entries
  {
    var k :| 0 <= k < |s.timers| && Pending(s.timers[k]);
    var fired := if s.timers[k].Armed? then Next(s, Expire(k)) else s;
    s' := Next(fired, DebouncedSave(k, true));
    moves := if s.timers[k].Armed? then [Expire(k), DebouncedSave(k, true)] else [DebouncedSave(k, true)];
    assert moves[1..] == if s.timers[k].Armed? then [DebouncedSave(k, true)] else [];
    assert Runs(fired, [DebouncedSave(k, true)], s') by {
      assert [DebouncedSave(k, true)][1..] == [];
    }
  }

  /** Moves of timers and flushes, which change no entry. */
  predicate Saving(m: Move) { m.Flush? || m.Expire? || m.DebouncedSave? }

  lemma {:induction false} CleanStaysUnwritten(s: Store, moves: seq<Move>, s': Store)
    requires !s.dirty && Runs(s, moves, s') && forall k :: 0 <= k < |moves| ==> Saving(moves[k])
    ensures !s'.dirty && s'.file == s.file && s'.entries == s.entries
    decreases |moves|
  {
    if moves != [] {
      CleanStaysUnwritten(Next(s, moves[0]), moves[1..], s');
    }
  }

  /** A failed write forgets what it had to write: the store is clean, the file is as it
      was, and no timer and no flush ever writes it again. */
  lemma FailedWriteForgets(s: Store, m: Move, moves: seq<Move>, s': Store)
    requires Enabled(s, m) && WriteFails(s, m) && Runs(Next(s, m), moves, s')
    requires forall k :: 0 <= k < |moves| ==> Saving(moves[k])
    ensures !s'.dirty && s'.file == s.file && s'.entries == Next(s, m).entries
  {
    CleanStaysUnwritten(Next(s, m), moves, s');
  }

  /** After a failed flush a timer is still pending exactly when it is not the one the
      flush cancelled; it will find the store clean. */
  lemma PendingAfterFailedFlush(s: Store, k: nat)
    requires Inv(s) && s.dirty && k < |s.timers|
    ensures Pending(Next(s, Flush(false)).timers[k])
       <==> Pending(s.timers[k]) && !(s.handle == Some(k) && s.timers[k].Armed?)
  {
  }

  /** A run from a saved store that loses a sighting in this way. */
  lemma SightingLost(e: Entry)
    ensures var m := map["a" := e];
            var s0 := Store(m, m, false, None, []);
            var s1 := Next(s0, RecordSighting("a", 1.0));
            && Init(s0)
            && var s2 := Next(s1, Flush(false));
               !s2.dirty && !HasPending(s2) && s2.file != s2.entries
  {
    var m := map["a" := e];
    var s1 := Next(Store(m, m, false, None, []), RecordSighting("a", 1.0));
    assert s1.entries["a"].sightCount == e.sightCount + 1;
    assert s1.timers == [Armed];
    assert Next(s1, Flush(false)).timers == [Dropped];
  }

  // -------------------------------------------------------- what the entries are in the end

  function At(m: map<string, Entry>, id: string): Option<Entry> { if id in m then Some(m[id]) else None }

  predicate Sights(m: Move, id: string) { m.RecordSighting? && m.id == id }

  predicate Replaces(m: Move, id: string) { (m.AddEntry? || m.RemoveEntry?) && m.id == id }

  function Sightings(moves: seq<Move>, id: string): nat {
    if moves == [] then 0 else (if Sights(moves[0], id) then 1 else 0) + Sightings(moves[1..], id)
  }

  /** The time of the last of the sightings of an id, if there is one. */
  function LastSighting(moves: seq<Move>, id: string): Option<real> {
    if moves == [] then None
    else if LastSighting(moves[1..], id).Some? then LastSighting(moves[1..], id)
    else if Sights(moves[0], id) then Some(moves[0].ts) else None
  }

  /** An entry after sightings: counted, and with the time of the last one. */
  function Counted(e: Option<Entry>, n: nat, last: Option<real>): Option<Entry> {
    if e.None? then None
    else Some(Entry(e.value.sightCount + n, if last.Some? then last else e.value.lastSighted, e.value.name))
  }

  /** What one move does to one id's entry. */
  lemma NextEntry(s: Store, m: Move, id: string)
    requires Enabled(s, m)
    ensures At(Next(s, m).entries, id) ==
              if Sights(m, id) then Counted(At(s.entries, id), 1, Some(m.ts))
              else if m.AddEntry? && m.id == id then Some(m.entry)
              else if m.RemoveEntry? && m.id == id then None
              else At(s.entries, id)
  {
  }

  lemma {:induction false} EntriesFrom(s: Store, moves: seq<Move>, s': Store, id: string)
    requires Runs(s, moves, s') && forall k :: 0 <= k < |moves| ==> !Replaces(moves[k], id)
    ensures At(s'.entries, id) == Counted(At(s.entries, id), Sightings(moves, id), LastSighting(moves, id))
    decreases |moves|
  {
    if moves != [] {
      assert !Replaces(moves[0], id);
      NextEntry(s, moves[0], id);
      EntriesFrom(Next(s, moves[0]), moves[1..], s', id);
    }
  }

  lemma {:induction false} RunsApart(s: Store, moves: seq<Move>, k: nat, s': Store) returns (mid: Store)
    requires Runs(s, moves, s') && k <= |moves|
    ensures Runs(s, moves[..k], mid) && Runs(mid, moves[k..], s')
    decreases k
  {
    if k == 0 {
      mid := s;
      assert moves[0..] == moves;
    } else {
      mid := RunsApart(Next(s, moves[0]), moves[1..], k - 1, s');
      assert moves[..k][0] == moves[0] && moves[..k][1..] == moves[1..][..k - 1] && moves[1..][k - 1..] == moves[k..];
    }
  }

  /** After any run an id's entry is the one last added, gone if it was last removed, or the
      one the run started with if neither happened, with the sightings recorded since
      counted in and the time of the last of them. */
  lemma EntriesExactly(s: Store, moves: seq<Move>, s': Store, id: string, k: nat)
    requires Runs(s, moves, s') && k <= |moves| && (k > 0 ==> Replaces(moves[k - 1], id))
    requires forall j :: k <= j < |moves| ==> !Replaces(moves[j], id)
    ensures var start := if k == 0 then At(s.entries, id)
                         else if moves[k - 1].AddEntry? then Some(moves[k - 1].entry) else None;
            At(s'.entries, id) == Counted(start, Sightings(moves[k..], id), LastSighting(moves[k..], id))
  {
    if k == 0 {
      assert moves[0..] == moves;
      EntriesFrom(s, moves, s', id);
    } else {
      var mid := RunsApart(s, moves, k - 1, s');
      var rest := moves[k - 1..];
      assert rest[0] == moves[k - 1] && rest[1..] == moves[k..];
      NextEntry(mid, rest[0], id);
      EntriesFrom(Next(mid, rest[0]), rest[1..], s', id);
    }
  }

  // --------------------------------------------------------------------- single timer

  ghost predicate AtMostOneArmed(s: Store) {
    forall j, k :: 0 <= j < k < |s.timers| ==> !(s.timers[j].Armed? && s.timers[k].Armed?)
  }

  /** A recorded sighting that finds no handle although a timer is armed. */
  ghost predicate ArmsBeside(s: Store, m: Move) {
    m.RecordSighting? && m.id in s.entries && s.handle.None? && exists k :: 0 <= k < |s.timers| && s.timers[k].Armed?
  }

  ghost predicate AlwaysOne(s: Store, moves: seq<Move>)
    decreases |moves|
  {
    AtMostOneArmed(s) && (moves != [] && Enabled(s, moves[0]) ==> AlwaysOne(Next(s, moves[0]), moves[1..]))
  }

  ghost predicate NeverBeside(s: Store, moves: seq<Move>)
    decreases |moves|
  {
    moves != [] && Enabled(s, moves[0]) ==> !ArmsBeside(s, moves[0]) && NeverBeside(Next(s, moves[0]), moves[1..])
  }

  lemma NextOneArmed(s: Store, m: Move)
    requires Inv(s) && Enabled(s, m) && AtMostOneArmed(s)
    ensures AtMostOneArmed(Next(s, m)) <==> !ArmsBeside(s, m)
  {
    var s' := Next(s, m);
    if ArmsBeside(s, m) {
      var k :| 0 <= k < |s.timers| && s.timers[k].Armed?;
      assert s'.timers[k].Armed? && s'.timers[|s.timers|].Armed?;
    }
  }

  /** From a state with at most one armed timer, every state of a run keeps at most one
      exactly when no sighting is ever recorded while the handle is gone and a timer is
      armed. */
  lemma {:induction false} SingleTimerExactly(s: Store, moves: seq<Move>, s': Store)
    requires Inv(s) && AtMostOneArmed(s) && Runs(s, moves, s')
    ensures AlwaysOne(s, moves) <==> NeverBeside(s, moves)
    decreases |moves|
  {
    if moves != [] {
      NextKeeps(s, moves[0]);
      NextOneArmed(s, moves[0]);
      if AtMostOneArmed(Next(s, moves[0])) {
        SingleTimerExactly(Next(s, moves[0]), moves[1..], s');
      }
    }
  }

  lemma RunsFirst(s: Store, m: Move, rest: seq<Move>, s': Store)
    requires Enabled(s, m) && Runs(Next(s, m), rest, s')
    ensures Runs(s, [m] + rest, s')
  {
    assert ([m] + rest)[1..] == rest;
  }

  /** A run that does: a late timer clears the newer handle. */
  lemma TwoTimersArmed(e: Entry)
    ensures var m := map["a" := e];
            exists moves, s' :: Runs(Store(m, m, false, None, []), moves, s') && s'.timers == [Spent, Armed, Armed]
  {
    var look := RecordSighting("a", 1.0);
    var m := map["a" := e];
    var s0 := Store(m, m, false, None, []);
    var s1 := Next(s0, look);
    var s2 := Next(s1, Expire(0));
    var s3 := Next(s2, Flush(true));
    var s4 := Next(s3, look);
    var s5 := Next(s4, DebouncedSave(0, true));
    var s6 := Next(s5, look);
    assert s6.timers == [Spent, Armed, Armed];
    RunsFirst(s5, look, [], s6);
    RunsFirst(s4, DebouncedSave(0, true), [look], s6);
    RunsFirst(s3, look, [DebouncedSave(0, true), look], s6);
    RunsFirst(s2, Flush(true), [look, DebouncedSave(0, true), look], s6);
    RunsFirst(s1, Expire(0), [Flush(true), look, DebouncedSave(0, true), look], s6);
    RunsFirst(s0, look, [Expire(0), Flush(true), look, DebouncedSave(0, true), look], s6);
  }

  // ------------------------------------------------------------------------ the class

  /** The store; every method is one critical section under its lock. The timers are
      the threads it started. */
  class WatchlistStore {
    var entries: map<string, Entry>
    var file: map<string, Entry>
    var dirty: bool
    var saveTimer: Option<nat>
    var timers: seq<Timer>

    ghost function View(): Store
      reads this
    {
      Store(entries, file, dirty, saveTimer, timers)
    }

    constructor (stored: map<string, Entry>)
      ensures Init(View()) && entries == stored
    {
      entries, file, dirty, saveTimer, timers := stored, stored, false, None, [];
    }

    method ScheduleDebounceLocked()
      modifies this
      ensures View() == Schedule(old(View()))
    {
      if saveTimer.Some? && saveTimer.value < |timers| && Pending(timers[saveTimer.value]) {
        return;
      }
      saveTimer := Some(|timers|);
      timers := timers + [Armed];
    }

    method CancelDebounceLocked()
      modifies this
      ensures View() == Cancel(old(View()))
    {
      var timer := saveTimer;
      saveTimer := None;
      if timer.Some? && timer.value < |timers| && timers[timer.value].Armed? {
        timers := timers[timer.value := Dropped];
      }
    }

    method SaveLocked(ok: bool)
      modifies this
      ensures View() == Save(old(View()), ok)
    {
      if ok {
        file := entries;
      }
      dirty := false;
    }

    method RecordSighting(id: string, ts: real)
      modifies this
      ensures View() == Next(old(View()), Move.RecordSighting(id, ts))
    {
      if id !in entries {
        return;
      }
      var e := entries[id];
      entries := entries[id := e.(sightCount := e.sightCount + 1, lastSighted := Some(ts))];
      dirty := true;
      ScheduleDebounceLocked();
    }

    method AddEntry(id: string, entry: Entry, ok: bool)
      modifies this
      ensures View() == Next(old(View()), Move.AddEntry(id, entry, ok))
    {
      CancelDebounceLocked();
      entries := entries[id := entry];
      SaveLocked(ok);
    }

    method RemoveEntry(id: string, ok: bool) returns (removed: bool)
      modifies this
      ensures View() == Next(old(View()), Move.RemoveEntry(id, ok)) && removed == (id in old(entries))
    {
      removed := id in entries;
      if removed {
        entries := entries - {id};
        CancelDebounceLocked();
        SaveLocked(ok);
      }
    }

    method Flush(ok: bool)
      modifies this
      ensures View() == Next(old(View()), Move.Flush(ok))
    {
      CancelDebounceLocked();
      if dirty {
        SaveLocked(ok);
      }
    }

    /** The body of timer k, once it has the lock. */
    method DebouncedSave(k: nat, ok: bool)
      requires Enabled(View(), Move.DebouncedSave(k, ok))
      modifies this
      ensures View() == Next(old(View()), Move.DebouncedSave(k, ok))
    {
      saveTimer, timers := None, timers[k := Spent];
      if dirty {
        SaveLocked(ok);
      }
    }
  }
}
