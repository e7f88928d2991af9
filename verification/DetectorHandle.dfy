/** The reader / hot-swap protocol of the shared detector handle: one atomic step
    per critical section, any number of readers and swappers. */
module DetectorHandle {
  /** Where a thread stands. Waiting threads are in the condition's wait set; woken
      ones have been notified and still have to re-check under the lock. */
  datatype Pc = Outside
              | ReaderWaiting | ReaderWoken | Counted | Reading(det: int)
              | WriterWaiting(next: int) | WriterWoken(next: int)

  datatype Handle = Handle(detector: int, readers: int, writing: bool, pc: map<int, Pc>)

  datatype Move = Acquire(t: int) | AcquireRetry(t: int) | Yield(t: int) | Release(t: int)
                | HotSwap(t: int, det: int) | HotSwapRetry(t: int)

  function Wake(p: Pc): Pc {
    match p
    case ReaderWaiting => ReaderWoken
    case WriterWaiting(d) => WriterWoken(d)
    case _ => p
  }

  function NotifyAll(pc: map<int, Pc>): map<int, Pc> { map t | t in pc :: Wake(pc[t]) }

  // --------------------------------------------------------------------- the steps

  /** The reader's check under the lock. */
  function TryRead(s: Handle, t: int): Handle {
    if s.writing then s.(pc := s.pc[t := ReaderWaiting])
    else s.(readers := s.readers + 1, pc := s.pc[t := Counted])
  }

  /** The swapper's check under the lock. */
  function TrySwap(s: Handle, t: int, det: int): Handle {
    if s.readers > 0 then s.(pc := s.pc[t := WriterWaiting(det)])
    else Handle(det, s.readers, false, NotifyAll(s.pc[t := Outside]))
  }

  predicate Enabled(s: Handle, m: Move) {
    m.t in s.pc &&
    match m
    case Acquire(t) => s.pc[t].Outside?
    case AcquireRetry(t) => s.pc[t].ReaderWoken?
    case Yield(t) => s.pc[t].Counted?
    case Release(t) => s.pc[t].Reading?
    case HotSwap(t, _) => s.pc[t].Outside?
    case HotSwapRetry(t) => s.pc[t].WriterWoken?
  }

  function Next(s: Handle, m: Move): Handle
    requires Enabled(s, m)
  {
    match m
    case Acquire(t) => TryRead(s, t)
    case AcquireRetry(t) => TryRead(s, t)
    case Yield(t) => s.(pc := s.pc[t := Reading(s.detector)])
    case Release(t) =>
      var pc := s.pc[t := Outside];
      s.(readers := s.readers - 1, pc := if s.readers - 1 == 0 then NotifyAll(pc) else pc)
    case HotSwap(t, det) => TrySwap(s.(writing := true), t, det)
    case HotSwapRetry(t) => TrySwap(s, t, s.pc[t].next)
  }

  ghost predicate Init(s: Handle) {
    s.readers == 0 && !s.writing && forall t :: t in s.pc ==> s.pc[t].Outside?
  }

  // ------------------------------------------------------------------- the invariant

  ghost function InFlight(pc: map<int, Pc>): set<int> { set t | t in pc && (pc[t].Counted? || pc[t].Reading?) }

  predicate PendingWriter(p: Pc) { p.WriterWaiting? || p.WriterWoken? }

  /** The counter counts the readers in flight, each of which uses the current
      detector; a swapper sleeps only behind readers and a reader only behind a
      pending swapper, so no wake-up is ever lost. */
  ghost predicate Inv(s: Handle) {
    && s.readers == |InFlight(s.pc)|
    && (forall t :: t in s.pc && s.pc[t].Reading? ==> s.pc[t].det == s.detector)
    && (forall t :: t in s.pc && s.pc[t].WriterWaiting? ==> s.readers > 0)
    && (forall t :: t in s.pc && s.pc[t].ReaderWaiting? ==> s.writing)
    && (s.writing ==> exists t :: t in s.pc && PendingWriter(s.pc[t]))
  }

  lemma NotifyFlight(pc: map<int, Pc>)
    ensures InFlight(NotifyAll(pc)) == InFlight(pc)
  {
    forall t ensures t in InFlight(NotifyAll(pc)) <==> t in InFlight(pc) {
    }
  }

  lemma FlightUpdate(pc: map<int, Pc>, t: int, p: Pc)
    requires t in pc
    ensures InFlight(pc[t := p])
            == if p.Counted? || p.Reading? then InFlight(pc) + {t} else InFlight(pc) - {t}
  {
  }

  lemma TryReadKeeps(s: Handle, t: int)
    requires Inv(s) && t in s.pc && (s.pc[t].Outside? || s.pc[t].ReaderWoken?)
    ensures Inv(TryRead(s, t))
  {
    FlightUpdate(s.pc, t, if s.writing then ReaderWaiting else Counted);
    if s.writing {
      var w :| w in s.pc && PendingWriter(s.pc[w]);
      assert PendingWriter(TryRead(s, t).pc[w]);
    }
  }

  /** `s` may have just been marked as writing for t itself. */
  lemma TrySwapKeeps(s: Handle, t: int, det: int)
    requires t in s.pc && (s.pc[t].Outside? || s.pc[t] == WriterWoken(det))
    requires Inv(s) || (s.writing && Inv(s.(writing := false)))
    ensures Inv(TrySwap(s, t, det))
  {
    var pc := s.pc[t := if s.readers > 0 then WriterWaiting(det) else Outside];
    FlightUpdate(s.pc, t, pc[t]);
    NotifyFlight(pc);
    if s.readers > 0 {
      assert PendingWriter(TrySwap(s, t, det).pc[t]);
    } else {
      forall u | u in pc ensures !pc[u].Counted? && !pc[u].Reading? {
        assert u !in InFlight(pc);
      }
    }
  }

  lemma ReleaseKeeps(s: Handle, t: int)
    requires Inv(s) && Enabled(s, Release(t))
    ensures Inv(Next(s, Release(t)))
  {
    var pc := s.pc[t := Outside];
    FlightUpdate(s.pc, t, Outside);
    NotifyFlight(pc);
    assert t in InFlight(s.pc);
    if s.writing {
      var w :| w in s.pc && PendingWriter(s.pc[w]);
      assert PendingWriter(Next(s, Release(t)).pc[w]);
    }
  }

  lemma YieldKeeps(s: Handle, t: int)
    requires Inv(s) && Enabled(s, Yield(t))
    ensures Inv(Next(s, Yield(t)))
  {
    FlightUpdate(s.pc, t, Reading(s.detector));
    assert InFlight(s.pc) + {t} == InFlight(s.pc);
    if s.writing {
      var w :| w in s.pc && PendingWriter(s.pc[w]);
      assert PendingWriter(Next(s, Yield(t)).pc[w]);
    }
  }

  lemma NextKeeps(s: Handle, m: Move)
    requires Inv(s) && Enabled(s, m)
    ensures Inv(Next(s, m)) && Next(s, m).pc.Keys == s.pc.Keys
  {
    match m
    case Acquire(t) => TryReadKeeps(s, t);
    case AcquireRetry(t) => TryReadKeeps(s, t);
    case Yield(t) => YieldKeeps(s, t);
    case Release(t) => ReleaseKeeps(s, t);
    case HotSwap(t, det) =>
      if s.writing {
        assert s == s.(writing := true);
      } else {
        assert s == s.(writing := true).(writing := false);
      }
      TrySwapKeeps(s.(writing := true), t, det);
    case HotSwapRetry(t) => TrySwapKeeps(s, t, s.pc[t].next);
  }

  // ----------------------------------------------------------------------- all runs

  ghost predicate Runs(s: Handle, moves: seq<Move>, s': Handle)
    decreases |moves|
  {
    if moves == [] then s' == s
    else Enabled(s, moves[0]) && Runs(Next(s, moves[0]), moves[1..], s')
  }

  /** Every interleaving of readers and swappers keeps the invariant. */
  lemma {:induction false} RunKeeps(s: Handle, moves: seq<Move>, s': Handle)
    requires Inv(s) && Runs(s, moves, s')
    ensures Inv(s')
    decreases |moves|
  {
    if moves != [] {
      NextKeeps(s, moves[0]);
      RunKeeps(Next(s, moves[0]), moves[1..], s');
    }
  }

  lemma NobodyInFlight(pc: map<int, Pc>)
    requires forall t :: t in pc ==> !pc[t].Counted? && !pc[t].Reading?
    ensures |InFlight(pc)| == 0
  {
    forall t ensures t !in InFlight(pc) {
    }
    assert InFlight(pc) == {};
  }

  lemma InitInv(s: Handle)
    requires Init(s)
    ensures Inv(s)
  {
    NobodyInFlight(s.pc);
  }

  /** In every reachable state the counter is the number of readers in flight and
      every reader still uses the current detector; the next step replaces the detector
      only while no reader is in flight; and nobody waits for a wake-up that is not
      coming: a waiting swapper has readers in front of it, a waiting reader a swapper. */
  lemma NoReaderSeesASwap(s: Handle, moves: seq<Move>, s': Handle, m: Move)
    requires Init(s) && Runs(s, moves, s') && Enabled(s', m)
    ensures s'.readers == |InFlight(s'.pc)|
    ensures forall t :: t in s'.pc && s'.pc[t].Reading? ==> s'.pc[t].det == s'.detector
    ensures Next(s', m).detector != s'.detector ==> InFlight(s'.pc) == {}
    ensures forall t :: t in s'.pc && s'.pc[t].Reading? && m != Release(t) ==> Next(s', m).pc[t] == s'.pc[t]
    ensures (exists t :: t in s'.pc && s'.pc[t].WriterWaiting?) ==> s'.readers > 0
    ensures (exists t :: t in s'.pc && s'.pc[t].ReaderWaiting?) ==> exists t :: t in s'.pc && PendingWriter(s'.pc[t])
  {
    InitInv(s);
    RunKeeps(s, moves, s');
  }

  // ------------------------------------------------------------- who keeps readers out

  /** A swapper that has to wait for readers announces itself. */
  predicate Announces(s: Handle, m: Move) { m.HotSwap? && s.readers > 0 }

  predicate Completes(s: Handle, m: Move) { (m.HotSwap? || m.HotSwapRetry?) && s.readers <= 0 }

  ghost predicate NoneCompletes(s: Handle, moves: seq<Move>)
    decreases |moves|
  {
    moves == [] || (Enabled(s, moves[0]) && !Completes(s, moves[0]) && NoneCompletes(Next(s, moves[0]), moves[1..]))
  }

  /** Some swapper announced itself in the run and no swap was completed after that. */
  ghost predicate AnnouncedSince(s: Handle, moves: seq<Move>)
    decreases |moves|
  {
    moves != [] && Enabled(s, moves[0]) &&
    ((Announces(s, moves[0]) && NoneCompletes(Next(s, moves[0]), moves[1..]))
     || AnnouncedSince(Next(s, moves[0]), moves[1..]))
  }

  lemma {:induction false} WritingFrom(s: Handle, moves: seq<Move>, s': Handle)
    requires Runs(s, moves, s')
    ensures s'.writing <==> AnnouncedSince(s, moves) || (s.writing && NoneCompletes(s, moves))
    decreases |moves|
  {
    if moves != [] {
      WritingFrom(Next(s, moves[0]), moves[1..], s');
    }
  }

  /** In every run a reader that tries to enter is kept out exactly when some swapper
      announced itself after the last completed swap: completing one swap lets readers
      in ahead of every other swapper still waiting. */
  lemma KeptOutExactly(s: Handle, moves: seq<Move>, s': Handle, t: int)
    requires Init(s) && Runs(s, moves, s') && Enabled(s', Acquire(t))
    ensures Next(s', Acquire(t)).pc[t].ReaderWaiting? <==> AnnouncedSince(s, moves)
  {
    WritingFrom(s, moves, s');
  }

  // ------------------------------------------------------- which detector is installed

  /** The detector each thread brought with its last `HotSwap`, after one more move. */
  function Brought(brought: map<int, int>, m: Move): map<int, int> {
    if m.HotSwap? then brought[m.t := m.det] else brought
  }

  /** The detector brought by the thread of the last completed swap of a run, or `current`
      if none completes. */
  ghost function LastSwapped(s: Handle, moves: seq<Move>, brought: map<int, int>, current: int): int
    decreases |moves|
  {
    if moves == [] || !Enabled(s, moves[0]) then current else
    var m, brought' := moves[0], Brought(brought, moves[0]);
    LastSwapped(Next(s, m), moves[1..], brought', if Completes(s, m) && m.t in brought' then brought'[m.t] else current)
  }

  /** Every swapper inside still has the detector it came with. */
  ghost predicate Carries(s: Handle, brought: map<int, int>) {
    forall t :: t in s.pc && PendingWriter(s.pc[t]) ==> t in brought && brought[t] == s.pc[t].next
  }

  lemma NextCarries(s: Handle, m: Move, brought: map<int, int>)
    requires Enabled(s, m) && Carries(s, brought)
    ensures Carries(Next(s, m), Brought(brought, m))
    ensures Completes(s, m) ==> m.t in Brought(brought, m) && Next(s, m).detector == Brought(brought, m)[m.t]
    ensures !Completes(s, m) ==> Next(s, m).detector == s.detector
  {
  }

  lemma {:induction false} SwappedFrom(s: Handle, moves: seq<Move>, s': Handle, brought: map<int, int>)
    requires Runs(s, moves, s') && Carries(s, brought)
    ensures s'.detector == LastSwapped(s, moves, brought, s.detector)
    decreases |moves|
  {
    if moves != [] {
      NextCarries(s, moves[0], brought);
      SwappedFrom(Next(s, moves[0]), moves[1..], s', Brought(brought, moves[0]));
    }
  }

  /** In every run the detector is the one brought by the thread that completed the last
      swap, or the one the run started with if there is none. */
  lemma LastSwapIsInstalled(s: Handle, moves: seq<Move>, s': Handle)
    requires Init(s) && Runs(s, moves, s')
    ensures s'.detector == LastSwapped(s, moves, map[], s.detector)
  {
    SwappedFrom(s, moves, s', map[]);
  }

  lemma RunsFirst(s: Handle, m: Move, rest: seq<Move>, s': Handle)
    requires Enabled(s, m) && Runs(Next(s, m), rest, s')
    ensures Runs(s, [m] + rest, s')
  {
    assert ([m] + rest)[1..] == rest;
  }

  /** A run in which a reader enters while a swapper is waiting. */
  lemma ReaderOvertakesSwapper()
    ensures exists s, moves, s' :: Init(s) && Runs(s, moves, s') && {1, 3} <= s'.pc.Keys
              && s'.pc[1].WriterWoken? && s'.pc[3].Counted?
  {
    var s0 := Handle(0, 0, false, map[0 := Outside, 1 := Outside, 2 := Outside, 3 := Outside]);
    var moves := [Acquire(0), Yield(0), HotSwap(1, 7), HotSwap(2, 8), Release(0), HotSwapRetry(2), Acquire(3)];
    var s1 := Next(s0, moves[0]);
    var s2 := Next(s1, moves[1]);
    var s3 := Next(s2, moves[2]);
    var s4 := Next(s3, moves[3]);
    var s5 := Next(s4, moves[4]);
    var s6 := Next(s5, moves[5]);
    var s7 := Next(s6, moves[6]);
    RunsFirst(s6, moves[6], [], s7);
    RunsFirst(s5, moves[5], [moves[6]], s7);
    RunsFirst(s4, moves[4], [moves[5], moves[6]], s7);
    RunsFirst(s3, moves[3], [moves[4], moves[5], moves[6]], s7);
    RunsFirst(s2, moves[2], [moves[3], moves[4], moves[5], moves[6]], s7);
    RunsFirst(s1, moves[1], [moves[2], moves[3], moves[4], moves[5], moves[6]], s7);
    RunsFirst(s0, moves[0], [moves[1], moves[2], moves[3], moves[4], moves[5], moves[6]], s7);
  }

  // -------------------------------------------------------------------- no deadlock

  /** Moves of threads already inside, as opposed to new arrivals. */
  predicate Internal(m: Move) { !m.Acquire? && !m.HotSwap? }

  ghost predicate AllOutside(s: Handle) { forall t :: t in s.pc ==> s.pc[t].Outside? }

  lemma FlightMember(pc: map<int, Pc>) returns (t: int)
    requires |InFlight(pc)| > 0
    ensures t in pc && (pc[t].Counted? || pc[t].Reading?)
  {
    if forall u :: u in pc ==> !pc[u].Counted? && !pc[u].Reading? {
      NobodyInFlight(pc);
    }
    t :| t in pc && (pc[t].Counted? || pc[t].Reading?);
  }

  /** As long as somebody is inside, somebody inside can step. */
  lemma SomeoneCanStep(s: Handle) returns (m: Move)
    requires Inv(s) && !AllOutside(s)
    ensures Internal(m) && Enabled(s, m)
  {
    var t: int :| t in s.pc && !s.pc[t].Outside?;
    if s.pc[t].ReaderWaiting? {
      t :| t in s.pc && PendingWriter(s.pc[t]);
    }
    if s.pc[t].WriterWaiting? {
      assert |InFlight(s.pc)| > 0;
      t := FlightMember(s.pc);
    }
    match s.pc[t]
    case ReaderWoken => m := AcquireRetry(t);
    case Counted => m := Yield(t);
    case Reading(_) => m := Release(t);
    case WriterWoken(_) => m := HotSwapRetry(t);
  }

  ghost function Inside(s: Handle): set<int> { set t | t in s.pc && !s.pc[t].Outside? }
  ghost function Woken(s: Handle): set<int> { set t | t in s.pc && (s.pc[t].ReaderWoken? || s.pc[t].WriterWoken?) }
  ghost function JustCounted(s: Handle): set<int> { set t | t in s.pc && s.pc[t].Counted? }

  ghost function Weigh(n: nat, a: nat, b: nat, c: nat): nat { (a * n + b) * n + c }

  /** Work left for the threads inside: finishing one outweighs any number of
      wake-ups, and a re-check outweighs a yield. */
  ghost function Work(s: Handle): nat {
    Weigh(|s.pc.Keys| + 1, |Inside(s)|, |Woken(s)|, |JustCounted(s)|)
  }

  lemma Smaller(a: set<int>, b: set<int>)
    requires a <= b
    ensures |a| <= |b|
    ensures a != b ==> |a| < |b|
  {
    assert b == a + (b - a);
  }

  lemma Digit(n: nat, a: nat, b: nat, a': nat, b': nat)
    requires b' < n
    requires a' < a || (a' == a && b' < b)
    ensures a' * n + b' < a * n + b
  {
    if a' < a {
      assert (a' + 1) * n <= a * n;
    }
  }

  lemma Lexicographic(n: nat, a: nat, b: nat, c: nat, a': nat, b': nat, c': nat)
    requires b' < n && c' < n
    requires a' < a || (a' == a && (b' < b || (b' == b && c' < c)))
    ensures Weigh(n, a', b', c') < Weigh(n, a, b, c)
  {
    if a' < a || b' < b {
      Digit(n, a, b, a', b');
    }
    Digit(n, a * n + b, c, a' * n + b', c');
  }

  /** Which of the three sets a step shrinks. */
  lemma SetsAfter(s: Handle, m: Move)
    requires Enabled(s, m) && Internal(m)
    ensures var s' := Next(s, m);
            s'.pc.Keys == s.pc.Keys &&
            if s'.pc[m.t].Outside? then Inside(s') < Inside(s)
            else if m.Yield? then Inside(s') == Inside(s) && Woken(s') == Woken(s) && JustCounted(s') < JustCounted(s)
            else Inside(s') == Inside(s) && Woken(s') < Woken(s)
  {
    var s', t := Next(s, m), m.t;
    assert t in Inside(s);
    forall u ensures u in s'.pc <==> u in s.pc {
    }
    forall u | u in s.pc && u != t ensures u in Inside(s') <==> u in Inside(s) {
    }
    if s'.pc[t].Outside? {
      assert t !in Inside(s');
    } else {
      assert t in Inside(s');
      forall u | u in s.pc && u != t ensures s'.pc[u] == s.pc[u] {
      }
      if m.Yield? {
        assert t in JustCounted(s) && t !in JustCounted(s');
        forall u ensures u in Woken(s') <==> u in Woken(s) {
        }
      } else {
        assert t in Woken(s) && t !in Woken(s');
      }
    }
  }

  /** Every step of a thread inside leaves less work, whichever thread it is. */
  lemma InternalProgress(s: Handle, m: Move)
    requires Enabled(s, m) && Internal(m)
    ensures Work(Next(s, m)) < Work(s)
  {
    var s' := Next(s, m);
    SetsAfter(s, m);
    Smaller(Woken(s'), s.pc.Keys);
    Smaller(JustCounted(s'), s.pc.Keys);
    if Inside(s') < Inside(s) {
      Smaller(Inside(s'), Inside(s));
    } else if Woken(s') < Woken(s) {
      Smaller(Woken(s'), Woken(s));
    } else {
      Smaller(JustCounted(s'), JustCounted(s));
    }
    Lexicographic(|s.pc.Keys| + 1, |Inside(s)|, |Woken(s)|, |JustCounted(s)|,
                  |Inside(s')|, |Woken(s')|, |JustCounted(s')|);
  }

  /** Once no new threads arrive, every schedule finishes: a run of inside steps is no
      longer than the work left, and it gets stuck only when everybody is out. */
  lemma {:induction false} EveryScheduleDrains(s: Handle, moves: seq<Move>, s': Handle)
    requires Inv(s) && Runs(s, moves, s') && forall k :: 0 <= k < |moves| ==> Internal(moves[k])
    ensures |moves| <= Work(s)
    ensures (forall m :: Internal(m) ==> !Enabled(s', m)) ==> AllOutside(s')
    decreases |moves|
  {
    if moves == [] {
      if !AllOutside(s) {
        var m := SomeoneCanStep(s);
      }
    } else {
      NextKeeps(s, moves[0]);
      InternalProgress(s, moves[0]);
      EveryScheduleDrains(Next(s, moves[0]), moves[1..], s');
    }
  }

  // ------------------------------------------------------------------------ the class

  /** The handle itself; `pc` is the ghost table of its callers. Each method is one
      critical section, run by thread t. */
  class ThreadSafeDetectorHandle {
    var detector: int
    var activeReaders: int
    var isWriting: bool
    ghost var pc: map<int, Pc>

    ghost function View(): Handle
      reads this
    {
      Handle(detector, activeReaders, isWriting, pc)
    }

    constructor (initial: int, ghost threads: set<int>)
      ensures Init(View()) && detector == initial && pc.Keys == threads
    {
      detector, activeReaders, isWriting := initial, 0, false;
      pc := map t | t in threads :: Outside;
    }

    /** From the lock to the wait set, or past the while loop into the count. */
    method AcquireSection(ghost t: int) returns (admitted: bool)
      requires Enabled(View(), Acquire(t)) || Enabled(View(), AcquireRetry(t))
      modifies this
      ensures View() == TryRead(old(View()), t) && admitted == !old(isWriting)
    {
      if isWriting {
        pc := pc[t := ReaderWaiting];
        return false;
      }
      activeReaders := activeReaders + 1;
      pc := pc[t := Counted];
      return true;
    }

    /** The read of the field that the context manager yields, outside the lock. */
    method YieldDetector(ghost t: int) returns (det: int)
      requires Enabled(View(), Yield(t))
      modifies `pc
      ensures View() == Next(old(View()), Yield(t)) && det == detector
    {
      det := detector;
      pc := pc[t := Reading(det)];
    }

    method ReleaseSection(ghost t: int)
      requires Enabled(View(), Release(t))
      modifies this
      ensures View() == Next(old(View()), Release(t))
    {
      activeReaders := activeReaders - 1;
      pc := pc[t := Outside];
      if activeReaders == 0 {
        pc := NotifyAll(pc);
      }
    }

    /** The swapper's section: first entry announces the writer, a retry does not. */
    method HotSwapSection(ghost t: int, newDetector: int, first: bool) returns (swapped: bool)
      requires if first then Enabled(View(), HotSwap(t, newDetector))
               else Enabled(View(), HotSwapRetry(t)) && pc[t].next == newDetector
      modifies this
      ensures View() == Next(old(View()), if first then HotSwap(t, newDetector) else HotSwapRetry(t))
      ensures swapped <==> old(activeReaders) <= 0
      ensures detector == if swapped then newDetector else old(detector)
    {
      if first {
        isWriting := true;
      }
      if activeReaders > 0 {
        pc := pc[t := WriterWaiting(newDetector)];
        return false;
      }
      detector := newDetector;
      isWriting := false;
      pc := NotifyAll(pc[t := Outside]);
      return true;
    }
  }
}
