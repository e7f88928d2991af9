/** The bounded drop-oldest evidence queue: submitters, the single worker and the
    shutdown canceller, interleaved step by step, with the queue lock explicit. */
module EvidenceOffload {
  import opened Basics

  const MAX_PENDING := 32

  datatype Status = Queued | Running | Finished | Cancelled

  /** Threads: the caller that submitted future f, the worker, the canceller. */
  datatype Who = Submitter(f: nat) | Worker | Canceller

  /** A done-callback: not attached, attached, being run by somebody, or run. */
  datatype Callback = Unattached | Attached | Due(via: Who) | Ran

  /** Where the caller that submitted a future stands. Calling g: it must run g's
      callback, in whose body it takes the queue lock. */
  datatype Phase = Submitted | Appending | Appended(over: Option<nat>) | Cancelling(g: nat)
                 | CallingOverflow(g: nat) | InOverflow(g: nat) | Attaching
                 | CallingOwn | InOwn | Complete

  datatype Future = Future(status: Status, cb: Callback, phase: Phase)

  /** The worker and the canceller: idle, running a job, calling a callback, in it. */
  datatype Runner = Idle | Busy(f: nat) | Calling(f: nat) | InCallback(f: nat)

  datatype Sys = Sys(pending: seq<nat>, dropped: nat, appended: nat, removed: nat, lock: Option<Who>,
                     futures: seq<Future>, worker: Runner, canceller: Runner, closed: bool)

  datatype Move = Submit
                | LockAppend(f: nat) | Append(f: nat) | CheckOverflow(f: nat) | Cancel(f: nat)
                | LockOverflow(f: nat) | RunOverflow(f: nat) | Attach(f: nat) | LockOwn(f: nat) | RunOwn(f: nat)
                | Take(f: nat) | Finish | WorkerLock | WorkerRun
                | Close | CancelQueued(f: nat) | CancellerLock | CancellerRun

  predicate IsDone(st: Status) { st.Finished? || st.Cancelled? }

  // --------------------------------------------------------------------- the steps

  /** deque.remove, tolerating absence. */
  function Without(s: seq<nat>, g: nat): (r: seq<nat>)
    ensures g !in s ==> r == s
  {
    if s == [] then [] else if s[0] == g then s[1..] else [s[0]] + Without(s[1..], g)
  }

  /** The search for g may skip what is not g. */
  lemma {:induction false} WithoutConcat(a: seq<nat>, b: seq<nat>, g: nat)
    requires g !in a
    ensures Without(a + b, g) == a + Without(b, g)
  {
    if a == [] {
      assert a + b == b;
    } else {
      assert (a + b)[1..] == a[1..] + b;
      WithoutConcat(a[1..], b, g);
    }
  }

  /** Append, dropping the oldest entry when the queue is full. */
  function Push(pending: seq<nat>, f: nat): (seq<nat>, Option<nat>) {
    if |pending| >= MAX_PENDING then (pending[1..] + [f], Some(pending[0])) else (pending + [f], None)
  }

  /** The callback's critical section, then the lock is free. */
  function Remove(s: Sys, g: nat): Sys
    requires g < |s.futures|
  {
    s.(pending := Without(s.pending, g), removed := s.removed + (if g in s.pending then 1 else 0), lock := None,
       futures := s.futures[g := s.futures[g].(cb := Ran)])
  }

  function SetPhase(s: Sys, f: nat, p: Phase): Sys
    requires f < |s.futures|
  {
    s.(futures := s.futures[f := s.futures[f].(phase := p)])
  }

  /** A future reaches a final status; w runs its callback if one is attached. */
  function Settle(fs: seq<Future>, g: nat, st: Status, w: Who): seq<Future>
    requires g < |fs|
  {
    fs[g := Future(st, if fs[g].cb.Attached? then Due(w) else fs[g].cb, fs[g].phase)]
  }

  predicate At(s: Sys, f: nat, p: Phase) { f < |s.futures| && s.futures[f].phase == p }

  predicate Refers(p: Phase, n: nat) {
    && (p.Appended? && p.over.Some? ==> p.over.value < n)
    && (p.Cancelling? || p.CallingOverflow? || p.InOverflow? ==> p.g < n)
  }

  /** Every future a thread refers to exists. */
  ghost predicate InRange(s: Sys) {
    && (forall f :: 0 <= f < |s.futures| ==> Refers(s.futures[f].phase, |s.futures|))
    && (s.worker.Idle? || s.worker.f < |s.futures|)
    && (s.canceller.Idle? || s.canceller.f < |s.futures|)
  }

  predicate Enabled(s: Sys, m: Move) {
    match m
    case Submit => !s.closed
    case LockAppend(f) => At(s, f, Submitted) && s.lock.None?
    case Append(f) => At(s, f, Appending)
    case CheckOverflow(f) => f < |s.futures| && s.futures[f].phase.Appended?
    case Cancel(f) => f < |s.futures| && s.futures[f].phase.Cancelling?
    case LockOverflow(f) => f < |s.futures| && s.futures[f].phase.CallingOverflow? && s.lock.None?
    case RunOverflow(f) => f < |s.futures| && s.futures[f].phase.InOverflow?
    case Attach(f) => At(s, f, Attaching)
    case LockOwn(f) => At(s, f, CallingOwn) && s.lock.None?
    case RunOwn(f) => At(s, f, InOwn)
    case Take(f) => s.worker.Idle? && f < |s.futures| && s.futures[f].status.Queued?
    case Finish => s.worker.Busy?
    case WorkerLock => s.worker.Calling? && s.lock.None?
    case WorkerRun => s.worker.InCallback?
    case Close => !s.closed
    case CancelQueued(f) => s.closed && s.canceller.Idle? && f < |s.futures| && s.futures[f].status.Queued?
    case CancellerLock => s.canceller.Calling? && s.lock.None?
    case CancellerRun => s.canceller.InCallback?
  }

  function Next(s: Sys, m: Move): Sys
    requires Enabled(s, m) && InRange(s)
  {
    match m
    case Submit => s.(futures := s.futures + [Future(Queued, Unattached, Submitted)])
    case LockAppend(f) => SetPhase(s, f, Appending).(lock := Some(Submitter(f)))
    case Append(f) =>
      var (pending, over) := Push(s.pending, f);
      SetPhase(s, f, Appended(over)).(pending := pending, dropped := s.dropped + (if over.Some? then 1 else 0),
                                      appended := s.appended + 1, lock := None)
    case CheckOverflow(f) =>
      var over := s.futures[f].phase.over;
      SetPhase(s, f, if over.None? || IsDone(s.futures[over.value].status) then Attaching else Cancelling(over.value))
    case Cancel(f) =>
      var g := s.futures[f].phase.g;
      var called := s.futures[g].status.Queued? && s.futures[g].cb.Attached?;
      SetPhase(if s.futures[g].status.Queued? then s.(futures := Settle(s.futures, g, Cancelled, Submitter(f))) else s,
               f, if called then CallingOverflow(g) else Attaching)
    case LockOverflow(f) => SetPhase(s, f, InOverflow(s.futures[f].phase.g)).(lock := Some(Submitter(f)))
    case RunOverflow(f) => SetPhase(Remove(s, s.futures[f].phase.g), f, Attaching)
    case Attach(f) =>
      if IsDone(s.futures[f].status)
      then s.(futures := s.futures[f := s.futures[f].(cb := Due(Submitter(f)), phase := CallingOwn)])
      else s.(futures := s.futures[f := s.futures[f].(cb := Attached, phase := Complete)])
    case LockOwn(f) => SetPhase(s, f, InOwn).(lock := Some(Submitter(f)))
    case RunOwn(f) => SetPhase(Remove(s, f), f, Complete)
    case Take(f) => s.(futures := s.futures[f := s.futures[f].(status := Running)], worker := Busy(f))
    case Finish =>
      var f := s.worker.f;
      s.(futures := Settle(s.futures, f, Finished, Worker),
         worker := if s.futures[f].cb.Attached? then Calling(f) else Idle)
    case WorkerLock => s.(worker := InCallback(s.worker.f), lock := Some(Worker))
    case WorkerRun => Remove(s, s.worker.f).(worker := Idle)
    case Close => s.(closed := true)
    case CancelQueued(f) =>
      s.(futures := Settle(s.futures, f, Cancelled, Canceller),
         canceller := if s.futures[f].cb.Attached? then Calling(f) else Idle)
    case CancellerLock => s.(canceller := InCallback(s.canceller.f), lock := Some(Canceller))
    case CancellerRun => Remove(s, s.canceller.f).(canceller := Idle)
  }

  ghost predicate Init(s: Sys) {
    s == Sys([], 0, 0, 0, None, [], Idle, Idle, false)
  }

  // ------------------------------------------------------------------- the invariant

  ghost predicate Distinct(s: seq<nat>) { forall a, b :: 0 <= a < b < |s| ==> s[a] != s[b] }

  /** The future whose callback a thread is running or about to run. */
  function Target(s: Sys, w: Who): Option<nat> {
    match w
    case Submitter(f) =>
      if f >= |s.futures| then None else
      (match s.futures[f].phase
       case CallingOverflow(g) => Some(g)
       case InOverflow(g) => Some(g)
       case CallingOwn => Some(f)
       case InOwn => Some(f)
       case _ => None)
    case Worker => if s.worker.Calling? || s.worker.InCallback? then Some(s.worker.f) else None
    case Canceller => if s.canceller.Calling? || s.canceller.InCallback? then Some(s.canceller.f) else None
  }

  /** A thread inside one of the lock's critical sections. */
  predicate InSection(s: Sys, w: Who) {
    match w
    case Submitter(f) =>
      f < |s.futures| && (s.futures[f].phase.Appending? || s.futures[f].phase.InOverflow? || s.futures[f].phase.InOwn?)
    case Worker => s.worker.InCallback?
    case Canceller => s.canceller.InCallback?
  }

  predicate BeforeAppend(p: Phase) { p.Submitted? || p.Appending? }

  predicate BeforeAttach(p: Phase) { !p.CallingOwn? && !p.InOwn? && !p.Complete? }

  /** Bounded, duplicate-free, and conserved. */
  ghost predicate QueueInv(s: Sys) {
    && |s.pending| <= MAX_PENDING && Distinct(s.pending)
    && s.appended == |s.pending| + s.dropped + s.removed
    && (forall f :: f in s.pending ==>
          f < |s.futures| && !BeforeAppend(s.futures[f].phase) && !s.futures[f].cb.Ran?)
  }

  ghost predicate CallbackInv(s: Sys) {
    && (forall f :: 0 <= f < |s.futures| ==> (BeforeAttach(s.futures[f].phase) <==> s.futures[f].cb.Unattached?))
    && (forall f :: 0 <= f < |s.futures| && s.futures[f].cb.Attached? ==> !IsDone(s.futures[f].status))
    && (forall f :: 0 <= f < |s.futures| && s.futures[f].cb.Due? ==> Target(s, s.futures[f].cb.via) == Some(f))
    && (forall w :: Target(s, w).Some? ==>
          Target(s, w).value < |s.futures| && s.futures[Target(s, w).value].cb == Due(w))
    && !s.canceller.Busy?
    && (forall f :: 0 <= f < |s.futures| && s.futures[f].status.Running? ==> s.worker == Busy(f))
    && (s.worker.Busy? ==> s.worker.f < |s.futures| && s.futures[s.worker.f].status.Running?)
  }

  /** The lock is held exactly by the thread inside a critical section. */
  ghost predicate LockInv(s: Sys) {
    forall w :: InSection(s, w) <==> s.lock == Some(w)
  }

  ghost predicate Inv(s: Sys) { InRange(s) && QueueInv(s) && CallbackInv(s) && LockInv(s) }

  lemma {:induction false} WithoutFacts(s: seq<nat>, g: nat)
    requires Distinct(s)
    ensures forall f :: f in Without(s, g) ==> f in s && f != g
    ensures Distinct(Without(s, g))
    ensures |Without(s, g)| == |s| - (if g in s then 1 else 0)
  {
    if s != [] {
      var rest := s[1..];
      assert s == [s[0]] + rest && s[0] !in rest;
      if s[0] != g {
        WithoutFacts(rest, g);
        assert s[0] !in Without(rest, g);
      }
    }
  }

  /** The thread that makes a move. */
  function Actor(m: Move): Option<Who> {
    match m
    case Submit => None
    case Close => None
    case LockAppend(f) => Some(Submitter(f))
    case Append(f) => Some(Submitter(f))
    case CheckOverflow(f) => Some(Submitter(f))
    case Cancel(f) => Some(Submitter(f))
    case LockOverflow(f) => Some(Submitter(f))
    case RunOverflow(f) => Some(Submitter(f))
    case Attach(f) => Some(Submitter(f))
    case LockOwn(f) => Some(Submitter(f))
    case RunOwn(f) => Some(Submitter(f))
    case Take(_) => Some(Worker)
    case Finish => Some(Worker)
    case WorkerLock => Some(Worker)
    case WorkerRun => Some(Worker)
    case CancelQueued(_) => Some(Canceller)
    case CancellerLock => Some(Canceller)
    case CancellerRun => Some(Canceller)
  }

  /** A move changes no other caller's phase, and no other runner. */
  lemma PhaseKept(s: Sys, m: Move, f: nat)
    requires InRange(s) && Enabled(s, m) && f < |s.futures| && Actor(m) != Some(Submitter(f))
    ensures f < |Next(s, m).futures| && Next(s, m).futures[f].phase == s.futures[f].phase
  {
  }

  lemma SizeKept(s: Sys, m: Move)
    requires InRange(s) && Enabled(s, m)
    ensures |Next(s, m).futures| == |s.futures| + (if m.Submit? then 1 else 0)
    ensures m.Submit? ==> Next(s, m).futures == s.futures + [Future(Queued, Unattached, Submitted)]
    ensures Actor(m) != Some(Worker) ==> Next(s, m).worker == s.worker
    ensures Actor(m) != Some(Canceller) ==> Next(s, m).canceller == s.canceller
  {
  }

  /** A move leaves every other thread where it was. */
  lemma OthersStand(s: Sys, m: Move, w: Who)
    requires InRange(s) && Enabled(s, m) && Actor(m) != Some(w)
    ensures Target(Next(s, m), w) == Target(s, w) && InSection(Next(s, m), w) == InSection(s, w)
  {
    SizeKept(s, m);
    if w.Submitter? && w.f < |s.futures| {
      PhaseKept(s, m, w.f);
    }
  }

  lemma RangeKept(s: Sys, m: Move)
    requires Inv(s) && Enabled(s, m)
    ensures InRange(Next(s, m))
  {
    var s' := Next(s, m);
    SizeKept(s, m);
    forall f | 0 <= f < |s'.futures| ensures Refers(s'.futures[f].phase, |s'.futures|) {
      if Actor(m) == Some(Submitter(f)) {
        assert m.Append? && |s.pending| > 0 ==> s.pending[0] in s.pending;
      } else if f < |s.futures| {
        PhaseKept(s, m, f);
      }
    }
  }

  lemma LockKept(s: Sys, m: Move)
    requires Inv(s) && Enabled(s, m)
    ensures LockInv(Next(s, m))
  {
    var s' := Next(s, m);
    forall w ensures InSection(s', w) <==> s'.lock == Some(w) {
      assert InSection(s, w) <==> s.lock == Some(w);
      if Actor(m) != Some(w) {
        OthersStand(s, m, w);
      }
      if Actor(m).Some? {
        assert InSection(s, Actor(m).value) <==> s.lock == Actor(m);
      }
    }
  }

  predicate Quiet(m: Move) {
    m.Submit? || m.Close? || m.LockAppend? || m.Append? || m.CheckOverflow? || m.LockOverflow? || m.LockOwn?
    || m.WorkerLock? || m.CancellerLock?
  }

  /** A quiet move leaves each future's status and callback alone. */
  lemma QuietFuture(s: Sys, m: Move, f: nat)
    requires InRange(s) && Enabled(s, m) && Quiet(m) && f < |s.futures|
    ensures f < |Next(s, m).futures|
    ensures var x, x' := s.futures[f], Next(s, m).futures[f];
            x'.cb == x.cb && x'.status == x.status && BeforeAttach(x'.phase) == BeforeAttach(x.phase)
  {
    match m
    case Submit =>
    case LockAppend(_) =>
    case Append(_) =>
    case CheckOverflow(_) =>
    case LockOverflow(_) =>
    case LockOwn(_) =>
    case _ =>
  }

  lemma QuietActor(s: Sys, m: Move)
    requires InRange(s) && Enabled(s, m) && Quiet(m) && !s.canceller.Busy?
    ensures Actor(m).Some? ==> Target(Next(s, m), Actor(m).value) == Target(s, Actor(m).value)
    ensures Next(s, m).worker.Busy? || s.worker.Busy? ==> Next(s, m).worker == s.worker
    ensures !Next(s, m).canceller.Busy?
  {
  }

  lemma QuietEffect(s: Sys, m: Move)
    requires Inv(s) && Enabled(s, m) && Quiet(m)
    ensures |s.futures| <= |Next(s, m).futures|
    ensures forall f :: 0 <= f < |s.futures| ==>
              && Next(s, m).futures[f].cb == s.futures[f].cb && Next(s, m).futures[f].status == s.futures[f].status
              && BeforeAttach(Next(s, m).futures[f].phase) == BeforeAttach(s.futures[f].phase)
    ensures Actor(m).Some? ==> Target(Next(s, m), Actor(m).value) == Target(s, Actor(m).value)
    ensures Next(s, m).worker.Busy? || s.worker.Busy? ==> Next(s, m).worker == s.worker
    ensures !Next(s, m).canceller.Busy?
  {
    SizeKept(s, m);
    QuietActor(s, m);
    forall f | 0 <= f < |s.futures|
      ensures Next(s, m).futures[f].cb == s.futures[f].cb && Next(s, m).futures[f].status == s.futures[f].status
      ensures BeforeAttach(Next(s, m).futures[f].phase) == BeforeAttach(s.futures[f].phase)
    {
      QuietFuture(s, m, f);
    }
  }

  lemma QuietKept(s: Sys, m: Move)
    requires Inv(s) && Enabled(s, m) && Quiet(m)
    ensures CallbackInv(Next(s, m))
  {
    var s' := Next(s, m);
    SizeKept(s, m);
    QuietEffect(s, m);
    forall w ensures Target(s', w) == Target(s, w) {
      if Actor(m) != Some(w) {
        OthersStand(s, m, w);
      }
    }
  }

  /** The step from s to s' was w's; every other thread stands where it was. */
  ghost predicate OnlyMoved(s: Sys, s': Sys, w: Who) {
    |s'.futures| == |s.futures| && forall w2 :: w2 != w ==> Target(s', w2) == Target(s, w2)
  }

  lemma ActorMoved(s: Sys, m: Move)
    requires InRange(s) && Enabled(s, m) && !m.Submit? && !m.Close?
    ensures OnlyMoved(s, Next(s, m), Actor(m).value)
  {
    SizeKept(s, m);
    forall w | w != Actor(m).value ensures Target(Next(s, m), w) == Target(s, w) {
      OthersStand(s, m, w);
    }
  }

  /** A future settles: whoever settles it owes the callback if one is attached. */
  lemma SettleKept(s: Sys, s': Sys, g: nat, st: Status, w: Who)
    requires CallbackInv(s) && OnlyMoved(s, s', w) && IsDone(st)
    requires g < |s.futures| && !IsDone(s.futures[g].status)
    requires forall f :: 0 <= f < |s.futures| ==>
               && s'.futures[f].cb == Settle(s.futures, g, st, w)[f].cb
               && s'.futures[f].status == Settle(s.futures, g, st, w)[f].status
               && BeforeAttach(s'.futures[f].phase) == BeforeAttach(s.futures[f].phase)
    requires Target(s, w).None? && Target(s', w) == if s.futures[g].cb.Attached? then Some(g) else None
    requires !s'.canceller.Busy?
    requires s'.worker.Busy? <==> s.worker.Busy? && s.futures[g].status.Queued?
    requires s'.worker.Busy? ==> s'.worker == s.worker
    ensures CallbackInv(s')
  {
  }

  /** A callback has run: its future's callback is spent, its runner free. */
  lemma RunKept(s: Sys, s': Sys, g: nat, w: Who)
    requires CallbackInv(s) && OnlyMoved(s, s', w) && Target(s, w) == Some(g)
    requires forall f :: 0 <= f < |s.futures| ==>
               && s'.futures[f].cb == (if f == g then Ran else s.futures[f].cb)
               && s'.futures[f].status == s.futures[f].status
               && BeforeAttach(s'.futures[f].phase) == BeforeAttach(s.futures[f].phase)
    requires Target(s', w).None? && !s'.canceller.Busy?
    requires s'.worker.Busy? || s.worker.Busy? ==> s'.worker == s.worker
    ensures CallbackInv(s')
  {
  }

  /** The callback is attached, or run on the spot when the future is already done. */
  lemma AttachKept(s: Sys, s': Sys, f: nat)
    requires CallbackInv(s) && OnlyMoved(s, s', Submitter(f))
    requires f < |s.futures| && s.futures[f].phase.Attaching?
    requires s'.futures == s.futures[f := if IsDone(s.futures[f].status)
                                          then s.futures[f].(cb := Due(Submitter(f)), phase := CallingOwn)
                                          else s.futures[f].(cb := Attached, phase := Complete)]
    requires s'.worker == s.worker && s'.canceller == s.canceller
    ensures CallbackInv(s')
  {
    var done := IsDone(s.futures[f].status);
    assert Target(s, Submitter(f)).None?;
    assert Target(s', Submitter(f)) == if done then Some(f) else None;
    forall w | Target(s', w).Some?
      ensures Target(s', w).value < |s'.futures| && s'.futures[Target(s', w).value].cb == Due(w)
    {
      if w != Submitter(f) {
        assert Target(s', w) == Target(s, w);
      }
    }
    forall g | 0 <= g < |s'.futures| && s'.futures[g].cb.Due? ensures Target(s', s'.futures[g].cb.via) == Some(g) {
      if g != f {
        assert s'.futures[g] == s.futures[g] && Target(s, s.futures[g].cb.via) == Some(g);
      }
    }
  }

  lemma TakeKept(s: Sys, f: nat)
    requires Inv(s) && Enabled(s, Take(f))
    ensures CallbackInv(Next(s, Take(f)))
  {
    var s' := Next(s, Take(f));
    forall w ensures Target(s', w) == Target(s, w) {
      if w != Worker {
        OthersStand(s, Take(f), w);
      }
    }
  }

  lemma CancelKept(s: Sys, f: nat)
    requires Inv(s) && Enabled(s, Cancel(f))
    ensures CallbackInv(Next(s, Cancel(f)))
  {
    var s', g := Next(s, Cancel(f)), s.futures[f].phase.g;
    ActorMoved(s, Cancel(f));
    if s.futures[g].status.Queued? {
      SettleKept(s, s', g, Cancelled, Submitter(f));
    }
  }

  lemma CallerRunKept(s: Sys, m: Move)
    requires Inv(s) && Enabled(s, m) && (m.RunOverflow? || m.RunOwn?)
    ensures CallbackInv(Next(s, m))
  {
    ActorMoved(s, m);
    RunKept(s, Next(s, m), if m.RunOwn? then m.f else s.futures[m.f].phase.g, Submitter(m.f));
  }

  lemma CallerKept(s: Sys, m: Move)
    requires Inv(s) && Enabled(s, m) && (m.Cancel? || m.Attach? || m.RunOverflow? || m.RunOwn?)
    ensures CallbackInv(Next(s, m))
  {
    if m.Cancel? {
      CancelKept(s, m.f);
    } else if m.Attach? {
      ActorMoved(s, m);
      AttachKept(s, Next(s, m), m.f);
    } else {
      CallerRunKept(s, m);
    }
  }

  lemma RunnerRunKept(s: Sys, m: Move)
    requires Inv(s) && Enabled(s, m) && (m.WorkerRun? || m.CancellerRun?)
    ensures CallbackInv(Next(s, m))
  {
    ActorMoved(s, m);
    RunKept(s, Next(s, m), if m.WorkerRun? then s.worker.f else s.canceller.f, Actor(m).value);
  }

  lemma RunnerKept(s: Sys, m: Move)
    requires Inv(s) && Enabled(s, m)
    requires m.Take? || m.Finish? || m.WorkerRun? || m.CancelQueued? || m.CancellerRun?
    ensures CallbackInv(Next(s, m))
  {
    if m.Take? {
      TakeKept(s, m.f);
    } else if m.Finish? {
      ActorMoved(s, m);
      SettleKept(s, Next(s, m), s.worker.f, Finished, Worker);
    } else if m.CancelQueued? {
      ActorMoved(s, m);
      SettleKept(s, Next(s, m), m.f, Cancelled, Canceller);
    } else {
      RunnerRunKept(s, m);
    }
  }

  lemma RemoveKeepsQueue(s: Sys, g: nat)
    requires Inv(s) && g < |s.futures|
    ensures QueueInv(Remove(s, g))
  {
    WithoutFacts(s.pending, g);
  }

  lemma AppendKeepsQueue(s: Sys, f: nat)
    requires Inv(s) && Enabled(s, Append(f))
    ensures QueueInv(Next(s, Append(f)))
  {
    assert f !in s.pending;
    if |s.pending| > 0 {
      assert forall k :: k in s.pending[1..] ==> k in s.pending;
    }
  }

  predicate TouchesQueue(m: Move) {
    m.Append? || m.RunOverflow? || m.RunOwn? || m.WorkerRun? || m.CancellerRun?
  }

  /** Such a move keeps an appended future appended, and runs no callback. */
  lemma BypassFuture(s: Sys, m: Move, f: nat)
    requires InRange(s) && Enabled(s, m) && !TouchesQueue(m) && f < |s.futures|
    ensures f < |Next(s, m).futures|
    ensures !BeforeAppend(s.futures[f].phase) ==> !BeforeAppend(Next(s, m).futures[f].phase)
    ensures !s.futures[f].cb.Ran? ==> !Next(s, m).futures[f].cb.Ran?
  {
    match m
    case LockAppend(_) =>
    case CheckOverflow(_) =>
    case Cancel(_) =>
    case LockOverflow(_) =>
    case Attach(_) =>
    case LockOwn(_) =>
    case _ =>
  }

  lemma BypassCounters(s: Sys, m: Move)
    requires InRange(s) && Enabled(s, m) && !TouchesQueue(m)
    ensures var s' := Next(s, m);
            s'.pending == s.pending && s'.dropped == s.dropped && s'.appended == s.appended && s'.removed == s.removed
  {
  }

  lemma BypassKeepsQueue(s: Sys, m: Move)
    requires InRange(s) && QueueInv(s) && Enabled(s, m) && !TouchesQueue(m)
    ensures QueueInv(Next(s, m))
  {
    var s' := Next(s, m);
    BypassCounters(s, m);
    forall f | f in s'.pending
      ensures f < |s'.futures| && !BeforeAppend(s'.futures[f].phase) && !s'.futures[f].cb.Ran?
    {
      BypassFuture(s, m, f);
    }
  }

  lemma QueueKept(s: Sys, m: Move)
    requires Inv(s) && Enabled(s, m)
    ensures QueueInv(Next(s, m))
  {
    if TouchesQueue(m) {
      match m
      case Append(f) => AppendKeepsQueue(s, f);
      case RunOverflow(f) => RemoveKeepsQueue(s, s.futures[f].phase.g);
      case RunOwn(f) => RemoveKeepsQueue(s, f);
      case WorkerRun => RemoveKeepsQueue(s, s.worker.f);
      case CancellerRun => RemoveKeepsQueue(s, s.canceller.f);
    } else {
      BypassKeepsQueue(s, m);
    }
  }

  lemma NextKeeps(s: Sys, m: Move)
    requires Inv(s) && Enabled(s, m)
    ensures Inv(Next(s, m))
  {
    RangeKept(s, m);
    QueueKept(s, m);
    LockKept(s, m);
    if Quiet(m) {
      QuietKept(s, m);
    } else if m.Cancel? || m.Attach? || m.RunOverflow? || m.RunOwn? {
      CallerKept(s, m);
    } else {
      RunnerKept(s, m);
    }
  }

  // ------------------------------------------------------------------------ all runs

  ghost predicate Runs(s: Sys, moves: seq<Move>, s': Sys)
    requires Inv(s)
    decreases |moves|
  {
    if moves == [] then s' == s
    else Enabled(s, moves[0]) && (NextKeeps(s, moves[0]); Runs(Next(s, moves[0]), moves[1..], s'))
  }

  lemma {:induction false} RunKeeps(s: Sys, moves: seq<Move>, s': Sys)
    requires Inv(s) && Runs(s, moves, s')
    ensures Inv(s')
    decreases |moves|
  {
    if moves != [] {
      NextKeeps(s, moves[0]);
      RunKeeps(Next(s, moves[0]), moves[1..], s');
    }
  }

  lemma InitInv(s: Sys)
    requires Init(s)
    ensures Inv(s)
  {
  }

  /** A thread about to take the queue lock. */
  predicate AtLock(s: Sys, m: Move) {
    match m
    case LockAppend(f) => At(s, f, Submitted)
    case LockOverflow(f) => f < |s.futures| && s.futures[f].phase.CallingOverflow?
    case LockOwn(f) => At(s, f, CallingOwn)
    case WorkerLock => s.worker.Calling?
    case CancellerLock => s.canceller.Calling?
    case _ => false
  }

  /** In every interleaving the queue stays within its bound, every future appended is
      still pending, was dropped, or was removed by its callback, and a thread that
      wants the queue lock never holds it already. */
  lemma QueueIsBoundedAndConserved(s: Sys, moves: seq<Move>, s': Sys, m: Move)
    requires Init(s) && Runs(s, moves, s')
    ensures |s'.pending| <= MAX_PENDING
    ensures s'.appended == |s'.pending| + s'.dropped + s'.removed
    ensures AtLock(s', m) ==> s'.lock != Actor(m)
  {
    InitInv(s);
    RunKeeps(s, moves, s');
    if AtLock(s', m) {
      assert !InSection(s', Actor(m).value);
    }
  }

  // ------------------------------------------------------- what overflow drops and cancels

  /** For each future appended, how many were appended before it; and for each caller
      whose append found the queue full, the future it dropped. */
  datatype History = History(since: map<nat, nat>, drops: map<nat, nat>)

  function NextHistory(s: Sys, m: Move, h: History): History {
    if !m.Append? then h
    else History(h.since[m.f := s.appended], if |s.pending| >= 32 then h.drops[m.f := s.pending[0]] else h.drops)
  }

  ghost function HistoryOf(s: Sys, moves: seq<Move>, h: History): History
    requires Inv(s)
    decreases |moves|
  {
    if moves == [] || !Enabled(s, moves[0]) then h
    else NextKeeps(s, moves[0]); HistoryOf(Next(s, moves[0]), moves[1..], NextHistory(s, moves[0], h))
  }

  /** The queue lists futures as they were appended. */
  ghost predicate ByAppend(pending: seq<nat>, since: map<nat, nat>, n: nat) {
    && (forall f :: f in pending ==> f in since && since[f] < n)
    && forall a, b :: 0 <= a < b < |pending| ==> since[pending[a]] < since[pending[b]]
  }

  lemma HeadByAppend(head: nat, rest: seq<nat>, since: map<nat, nat>, n: nat)
    requires ByAppend(rest, since, n) && head in since && since[head] < n
    requires forall f :: f in rest ==> since[head] < since[f]
    ensures ByAppend([head] + rest, since, n)
  {
  }

  lemma TailByAppend(pending: seq<nat>, since: map<nat, nat>, n: nat)
    requires ByAppend(pending, since, n) && pending != []
    ensures ByAppend(pending[1..], since, n)
    ensures forall f :: f in pending[1..] ==> since[pending[0]] < since[f]
  {
  }

  lemma {:induction false} WithoutByAppend(pending: seq<nat>, g: nat, since: map<nat, nat>, n: nat)
    requires ByAppend(pending, since, n)
    ensures ByAppend(Without(pending, g), since, n)
    ensures forall f :: f in Without(pending, g) ==> f in pending
  {
    if pending != [] {
      TailByAppend(pending, since, n);
      if pending[0] != g {
        WithoutByAppend(pending[1..], g, since, n);
        HeadByAppend(pending[0], Without(pending[1..], g), since, n);
      }
    }
  }

  lemma PushByAppend(pending: seq<nat>, f: nat, since: map<nat, nat>, n: nat)
    requires ByAppend(pending, since, n) && f !in pending
    ensures ByAppend(Push(pending, f).0, since[f := n], n + 1)
  {
    assert forall k :: k in pending && |pending| > 0 && k in pending[1..] ==> k in pending;
  }

  lemma NextByAppend(s: Sys, m: Move, h: History)
    requires Inv(s) && Enabled(s, m) && ByAppend(s.pending, h.since, s.appended)
    ensures ByAppend(Next(s, m).pending, NextHistory(s, m, h).since, Next(s, m).appended)
  {
    if !TouchesQueue(m) {
      BypassCounters(s, m);
    } else {
      match m
      case Append(f) =>
        assert f !in s.pending;
        PushByAppend(s.pending, f, h.since, s.appended);
      case RunOverflow(f) => WithoutByAppend(s.pending, s.futures[f].phase.g, h.since, s.appended);
      case RunOwn(f) => WithoutByAppend(s.pending, f, h.since, s.appended);
      case WorkerRun => WithoutByAppend(s.pending, s.worker.f, h.since, s.appended);
      case CancellerRun => WithoutByAppend(s.pending, s.canceller.f, h.since, s.appended);
    }
  }

  /** Where the caller that dropped g stands with it: it still has g to look at, or to
      cancel, or g is not queued any more. */
  ghost predicate Handles(p: Phase, g: nat, status: Status) {
    match p
    case Submitted => false
    case Appending => false
    case Appended(over) => over == Some(g)
    case Cancelling(h) => h == g
    case _ => !status.Queued?
  }

  ghost predicate DropsInv(s: Sys, h: History) {
    && (forall f :: f in h.drops ==>
          f < |s.futures| && h.drops[f] < |s.futures|
          && Handles(s.futures[f].phase, h.drops[f], s.futures[h.drops[f]].status))
    && (forall f :: 0 <= f < |s.futures| && (s.futures[f].phase.Cancelling? || s.futures[f].phase.Appended?) ==>
          f in h.drops || s.futures[f].phase == Appended(None))
    && (forall g :: 0 <= g < |s.futures| && s.futures[g].status.Cancelled? ==> s.closed || g in h.drops.Values)
  }

  /** No future is queued again. */
  lemma NeverRequeued(s: Sys, m: Move, g: nat)
    requires InRange(s) && Enabled(s, m) && g < |s.futures|
    ensures g < |Next(s, m).futures|
    ensures !s.futures[g].status.Queued? ==> !Next(s, m).futures[g].status.Queued?
  {
    if Quiet(m) {
      QuietFuture(s, m, g);
    }
  }

  /** What the history says of one caller. */
  ghost predicate CallerInv(s: Sys, h: History, f: nat)
    requires f < |s.futures|
  {
    && (f in h.drops ==>
          h.drops[f] < |s.futures| && Handles(s.futures[f].phase, h.drops[f], s.futures[h.drops[f]].status))
    && (s.futures[f].phase.Cancelling? || s.futures[f].phase.Appended? ==>
          f in h.drops || s.futures[f].phase == Appended(None))
  }

  lemma AppendHandles(s: Sys, f: nat, h: History)
    requires Inv(s) && Enabled(s, Append(f)) && DropsInv(s, h)
    ensures f < |Next(s, Append(f)).futures| && CallerInv(Next(s, Append(f)), NextHistory(s, Append(f), h), f)
  {
    if |s.pending| > 0 {
      assert s.pending[0] in s.pending;
    }
  }

  lemma OverflowHandles(s: Sys, m: Move, h: History)
    requires Inv(s) && Enabled(s, m) && DropsInv(s, h) && (m.CheckOverflow? || m.Cancel?)
    ensures m.f < |Next(s, m).futures| && CallerInv(Next(s, m), h, m.f)
  {
  }

  /** Every other step of a caller is one before its append or after its overflow check. */
  lemma LateHandles(s: Sys, m: Move, h: History)
    requires Inv(s) && Enabled(s, m) && DropsInv(s, h)
    requires m.LockAppend? || m.LockOverflow? || m.RunOverflow? || m.Attach? || m.LockOwn? || m.RunOwn?
    ensures m.f < |Next(s, m).futures| && CallerInv(Next(s, m), h, m.f)
  {
    var p := Next(s, m).futures[m.f].phase;
    assert m.LockAppend? ==> m.f !in h.drops;
    assert !p.Cancelling? && !p.Appended?;
    if m.f in h.drops {
      NeverRequeued(s, m, h.drops[m.f]);
    }
  }

  /** The caller's own step. */
  lemma OwnStepHandles(s: Sys, m: Move, h: History)
    requires Inv(s) && Enabled(s, m) && DropsInv(s, h) && Actor(m).Some? && Actor(m).value.Submitter?
    ensures m.f < |Next(s, m).futures| && CallerInv(Next(s, m), NextHistory(s, m, h), m.f)
  {
    if m.Append? {
      AppendHandles(s, m.f, h);
    } else if m.CheckOverflow? || m.Cancel? {
      OverflowHandles(s, m, h);
    } else {
      LateHandles(s, m, h);
    }
  }

  lemma NewlyCancelled(s: Sys, m: Move, g: nat)
    requires InRange(s) && Enabled(s, m) && g < |Next(s, m).futures| && Next(s, m).futures[g].status.Cancelled?
    ensures || (g < |s.futures| && s.futures[g].status.Cancelled?)
            || s.closed
            || (m.Cancel? && s.futures[m.f].phase.g == g)
  {
    SizeKept(s, m);
    if g < |s.futures| && Quiet(m) {
      QuietFuture(s, m, g);
    }
  }

  lemma DropsKept(s: Sys, m: Move, h: History, g: nat)
    requires Enabled(s, m) && DropsInv(s, h) && g in h.drops.Values
    ensures g in NextHistory(s, m, h).drops.Values
  {
    var k :| k in h.drops && h.drops[k] == g;
    assert m.Append? ==> m.f !in h.drops;
    assert NextHistory(s, m, h).drops[k] == g;
  }

  lemma CancelledBy(s: Sys, m: Move, h: History, g: nat)
    requires Inv(s) && Enabled(s, m) && DropsInv(s, h) && g < |Next(s, m).futures|
    requires Next(s, m).futures[g].status.Cancelled?
    ensures Next(s, m).closed || g in NextHistory(s, m, h).drops.Values
  {
    NewlyCancelled(s, m, g);
    assert s.closed ==> Next(s, m).closed;
    if m.Cancel? && s.futures[m.f].phase.g == g {
      assert h.drops[m.f] == g;
    }
    if g in h.drops.Values {
      DropsKept(s, m, h, g);
    }
  }

  lemma NextDrops(s: Sys, m: Move, h: History)
    requires Inv(s) && Enabled(s, m) && DropsInv(s, h)
    ensures DropsInv(Next(s, m), NextHistory(s, m, h))
  {
    var s', h' := Next(s, m), NextHistory(s, m, h);
    SizeKept(s, m);
    if Actor(m).Some? && Actor(m).value.Submitter? {
      OwnStepHandles(s, m, h);
    }
    forall f | f in h'.drops
      ensures f < |s'.futures| && h'.drops[f] < |s'.futures|
      ensures Handles(s'.futures[f].phase, h'.drops[f], s'.futures[h'.drops[f]].status)
    {
      if Actor(m) != Some(Submitter(f)) {
        PhaseKept(s, m, f);
        NeverRequeued(s, m, h.drops[f]);
      }
    }
    forall f | 0 <= f < |s'.futures| && (s'.futures[f].phase.Cancelling? || s'.futures[f].phase.Appended?)
      ensures f in h'.drops || s'.futures[f].phase == Appended(None)
    {
      if Actor(m) != Some(Submitter(f)) && f < |s.futures| {
        PhaseKept(s, m, f);
      }
    }
    forall g | 0 <= g < |s'.futures| && s'.futures[g].status.Cancelled? ensures s'.closed || g in h'.drops.Values {
      CancelledBy(s, m, h, g);
    }
  }

  lemma {:induction false} HistoryFrom(s: Sys, moves: seq<Move>, s': Sys, h: History)
    requires Inv(s) && Runs(s, moves, s') && DropsInv(s, h) && ByAppend(s.pending, h.since, s.appended)
    ensures Inv(s') && DropsInv(s', HistoryOf(s, moves, h))
    ensures ByAppend(s'.pending, HistoryOf(s, moves, h).since, s'.appended)
    decreases |moves|
  {
    if moves != [] {
      NextKeeps(s, moves[0]);
      NextDrops(s, moves[0], h);
      NextByAppend(s, moves[0], h);
      HistoryFrom(Next(s, moves[0]), moves[1..], s', NextHistory(s, moves[0], h));
    }
  }

  const NOTHING := History(map[], map[])

  lemma PushDropsOldest(pending: seq<nat>, f: nat, since: map<nat, nat>, n: nat)
    requires ByAppend(pending, since, n) && |pending| >= 32
    ensures var (after, over) := Push(pending, f);
            && over.Some? && over.value == pending[0]
            && (forall k :: k in pending && k != pending[0] ==>
                  pending[0] in since && k in since && since[pending[0]] < since[k])
            && (forall k :: k in after <==> k == f || (k in pending && k != pending[0]))
  {
    TailByAppend(pending, since, n);
    assert pending == [pending[0]] + pending[1..];
  }

  /** In every interleaving an append to a full queue drops the future that was appended
      before every other one in it, and keeps the rest; otherwise nothing is dropped. */
  lemma OverflowDropsOldest(s: Sys, moves: seq<Move>, s': Sys, f: nat) returns (g: nat)
    requires Init(s) && Runs(s, moves, s') && Enabled(s', Append(f)) && InRange(s')
    ensures var since, after := HistoryOf(s, moves, NOTHING).since, Next(s', Append(f));
            && (|s'.pending| < 32 ==> after.pending == s'.pending + [f] && At(after, f, Appended(None)))
            && (|s'.pending| >= 32 ==>
                  g in s'.pending && At(after, f, Appended(Some(g)))
                  && (forall k :: k in s'.pending && k != g ==> g in since && k in since && since[g] < since[k])
                  && (forall k :: k in after.pending <==> k == f || (k in s'.pending && k != g)))
  {
    InitInv(s);
    HistoryFrom(s, moves, s', NOTHING);
    g := if |s'.pending| > 0 then s'.pending[0] else 0;
    if |s'.pending| >= 32 {
      PushDropsOldest(s'.pending, f, HistoryOf(s, moves, NOTHING).since, s'.appended);
    }
  }

  /** In every interleaving, once a caller that dropped a future is past its overflow check
      that future is not queued any more; and until the shutdown no future is cancelled
      but those that were dropped. */
  lemma OverflowIsCancelled(s: Sys, moves: seq<Move>, s': Sys, f: nat)
    requires Init(s) && Runs(s, moves, s')
    ensures var drops := HistoryOf(s, moves, NOTHING).drops;
            && (f in drops ==>
                  f < |s'.futures| && drops[f] < |s'.futures|
                  && (s'.futures[f].phase.Appended? || s'.futures[f].phase.Cancelling?
                      || !s'.futures[drops[f]].status.Queued?))
            && (f < |s'.futures| && s'.futures[f].status.Cancelled? && !s'.closed ==> f in drops.Values)
  {
    InitInv(s);
    HistoryFrom(s, moves, s', NOTHING);
  }

  /** The cancelling step itself: a queued future is cancelled, any other is left as it is. */
  lemma CancelSettles(s: Sys, f: nat)
    requires InRange(s) && Enabled(s, Cancel(f))
    ensures var g, s' := s.futures[f].phase.g, Next(s, Cancel(f));
            g < |s'.futures|
            && s'.futures[g].status == if s.futures[g].status.Queued? then Cancelled else s.futures[g].status
  {
  }

  // ----------------------------------------------------------------------- quiescence

  /** Every caller has returned, every future is done, and nobody runs a callback. */
  ghost predicate Quiescent(s: Sys) {
    && (forall f :: 0 <= f < |s.futures| ==> s.futures[f].phase.Complete? && IsDone(s.futures[f].status))
    && s.worker.Idle? && s.canceller.Idle?
  }

  /** With nobody calling, every callback has run. */
  lemma QuiescentIsSpent(s: Sys, f: nat)
    requires Inv(s) && Quiescent(s) && f < |s.futures|
    ensures s.futures[f].cb.Ran?
  {
    assert forall w :: Target(s, w).None?;
  }

  lemma QuiescentIsEmpty(s: Sys)
    requires Inv(s) && Quiescent(s)
    ensures s.pending == []
  {
    if |s.pending| > 0 {
      var f := s.pending[0];
      assert f in s.pending && f < |s.futures| && !s.futures[f].cb.Ran?;
      QuiescentIsSpent(s, f);
    }
  }

  /** Moves of threads already at work, as opposed to new submissions and shutdown. */
  predicate Internal(m: Move) { !m.Submit? && !m.Close? }

  lemma HolderCanStep(s: Sys, w: Who) returns (m: Move)
    requires InSection(s, w)
    ensures Internal(m) && Enabled(s, m)
  {
    match w
    case Submitter(f) =>
      m := if s.futures[f].phase.Appending? then Append(f)
           else if s.futures[f].phase.InOverflow? then RunOverflow(f) else RunOwn(f);
    case Worker => m := WorkerRun;
    case Canceller => m := CancellerRun;
  }

  lemma CallerCanStep(s: Sys, f: nat) returns (m: Move)
    requires s.lock.None? && f < |s.futures| && !s.futures[f].phase.Complete?
    ensures Internal(m) && Enabled(s, m)
  {
    match s.futures[f].phase
    case Submitted => m := LockAppend(f);
    case Appending => m := Append(f);
    case Appended(_) => m := CheckOverflow(f);
    case Cancelling(_) => m := Cancel(f);
    case CallingOverflow(_) => m := LockOverflow(f);
    case InOverflow(_) => m := RunOverflow(f);
    case Attaching => m := Attach(f);
    case CallingOwn => m := LockOwn(f);
    case InOwn => m := RunOwn(f);
  }

  /** Nothing deadlocks: until everything is quiescent some thread can step. */
  lemma SomeoneCanStep(s: Sys) returns (m: Move)
    requires Inv(s) && !Quiescent(s)
    ensures Internal(m) && Enabled(s, m)
  {
    if s.lock.Some? {
      assert InSection(s, s.lock.value);
      m := HolderCanStep(s, s.lock.value);
    } else if !s.worker.Idle? {
      m := if s.worker.Busy? then Finish else if s.worker.Calling? then WorkerLock else WorkerRun;
    } else if !s.canceller.Idle? {
      m := if s.canceller.Calling? then CancellerLock else CancellerRun;
    } else {
      var f: nat :| f < |s.futures| && !(s.futures[f].phase.Complete? && IsDone(s.futures[f].status));
      if s.futures[f].phase.Complete? {
        m := Take(f);
      } else {
        m := CallerCanStep(s, f);
      }
    }
  }

  function PhaseWeight(p: Phase): nat {
    match p
    case Submitted => 9
    case Appending => 8
    case Appended(_) => 7
    case Cancelling(_) => 6
    case CallingOverflow(_) => 5
    case InOverflow(_) => 4
    case Attaching => 3
    case CallingOwn => 2
    case InOwn => 1
    case Complete => 0
  }

  function FutureWeight(x: Future): nat {
    PhaseWeight(x.phase) + (if x.status.Queued? then 6 else if x.status.Running? then 3 else 0)
  }

  function RunnerWeight(r: Runner): nat { if r.Calling? then 2 else if r.InCallback? then 1 else 0 }

  function TotalWeight(fs: seq<Future>): nat {
    if fs == [] then 0 else TotalWeight(fs[..|fs| - 1]) + FutureWeight(fs[|fs| - 1])
  }

  lemma {:induction false} WeightUpdate(fs: seq<Future>, f: nat, x: Future)
    requires f < |fs|
    ensures TotalWeight(fs[f := x]) + FutureWeight(fs[f]) == TotalWeight(fs) + FutureWeight(x)
  {
    var n := |fs| - 1;
    if f == n {
      assert fs[f := x][..n] == fs[..n];
    } else {
      assert fs[f := x][..n] == fs[..n][f := x];
      WeightUpdate(fs[..n], f, x);
    }
  }

  /** Steps left, counting each caller, each job and each callback once. */
  function Work(s: Sys): nat { TotalWeight(s.futures) + RunnerWeight(s.worker) + RunnerWeight(s.canceller) }

  lemma SettleWeighs(fs: seq<Future>, g: nat, st: Status, w: Who)
    requires g < |fs| && fs[g].status.Queued? && IsDone(st)
    ensures TotalWeight(Settle(fs, g, st, w)) < TotalWeight(fs)
  {
    WeightUpdate(fs, g, Settle(fs, g, st, w)[g]);
  }

  lemma PhaseWeighs(fs: seq<Future>, f: nat, p: Phase)
    requires f < |fs| && PhaseWeight(p) < PhaseWeight(fs[f].phase)
    ensures TotalWeight(fs[f := fs[f].(phase := p)]) < TotalWeight(fs)
  {
    WeightUpdate(fs, f, fs[f].(phase := p));
  }

  lemma CancelProgress(s: Sys, f: nat)
    requires InRange(s) && Enabled(s, Cancel(f))
    ensures Work(Next(s, Cancel(f))) < Work(s)
  {
    var g := s.futures[f].phase.g;
    var fs := if s.futures[g].status.Queued? then Settle(s.futures, g, Cancelled, Submitter(f)) else s.futures;
    if s.futures[g].status.Queued? {
      SettleWeighs(s.futures, g, Cancelled, Submitter(f));
    }
    var called := s.futures[g].status.Queued? && s.futures[g].cb.Attached?;
    PhaseWeighs(fs, f, if called then CallingOverflow(g) else Attaching);
  }

  lemma RemoveWeighs(s: Sys, g: nat, f: nat, p: Phase)
    requires g < |s.futures| && f < |s.futures| && PhaseWeight(p) < PhaseWeight(s.futures[f].phase)
    ensures Work(SetPhase(Remove(s, g), f, p)) < Work(s)
  {
    var fs := Remove(s, g).futures;
    WeightUpdate(s.futures, g, fs[g]);
    WeightUpdate(fs, f, fs[f].(phase := p));
  }

  lemma RunProgress(s: Sys, m: Move)
    requires InRange(s) && Enabled(s, m) && (m.RunOverflow? || m.RunOwn?)
    ensures Work(Next(s, m)) < Work(s)
  {
    match m
    case RunOverflow(f) => RemoveWeighs(s, s.futures[f].phase.g, f, Attaching);
    case RunOwn(f) => RemoveWeighs(s, f, f, Complete);
  }

  lemma RunnerProgress(s: Sys, m: Move, g: nat)
    requires InRange(s) && Enabled(s, m) && g < |s.futures|
    requires (m.Take? && m.f == g) || (m.CancelQueued? && m.f == g) || (m.Finish? && s.worker.f == g)
             || (m.WorkerRun? && s.worker.f == g) || (m.CancellerRun? && s.canceller.f == g)
    requires m.Finish? ==> s.futures[g].status.Running?
    ensures Work(Next(s, m)) < Work(s)
  {
    WeightUpdate(s.futures, g, Next(s, m).futures[g]);
  }

  lemma FutureProgress(s: Sys, s': Sys, f: nat)
    requires f < |s.futures| && |s'.futures| == |s.futures| && s'.futures == s.futures[f := s'.futures[f]]
    requires s'.worker == s.worker && s'.canceller == s.canceller
    requires FutureWeight(s'.futures[f]) < FutureWeight(s.futures[f])
    ensures Work(s') < Work(s)
  {
    WeightUpdate(s.futures, f, s'.futures[f]);
  }

  lemma LockProgress(s: Sys, m: Move)
    requires InRange(s) && Enabled(s, m) && (m.LockAppend? || m.LockOverflow? || m.LockOwn?)
    ensures Work(Next(s, m)) < Work(s)
  {
    FutureProgress(s, Next(s, m), m.f);
  }

  lemma CallerProgress(s: Sys, m: Move)
    requires InRange(s) && Enabled(s, m) && (m.Append? || m.CheckOverflow? || m.Attach?)
    ensures Work(Next(s, m)) < Work(s)
  {
    FutureProgress(s, Next(s, m), m.f);
  }

  lemma InternalProgress(s: Sys, m: Move)
    requires Inv(s) && Enabled(s, m) && Internal(m)
    ensures Work(Next(s, m)) < Work(s)
  {
    match m
    case Cancel(f) => CancelProgress(s, f);
    case RunOverflow(f) => RunProgress(s, m);
    case RunOwn(f) => RunProgress(s, m);
    case Take(f) => RunnerProgress(s, m, f);
    case CancelQueued(f) => RunnerProgress(s, m, f);
    case Finish => RunnerProgress(s, m, s.worker.f);
    case WorkerRun => RunnerProgress(s, m, s.worker.f);
    case CancellerRun => RunnerProgress(s, m, s.canceller.f);
    case WorkerLock =>
    case CancellerLock =>
    case LockAppend(f) => LockProgress(s, m);
    case LockOverflow(f) => LockProgress(s, m);
    case LockOwn(f) => LockProgress(s, m);
    case _ => CallerProgress(s, m);
  }

  /** Once submissions stop, every schedule is finite, and where it gets stuck all
      callers have returned, all futures are done and the queue is empty. */
  lemma {:induction false} EveryScheduleDrains(s: Sys, moves: seq<Move>, s': Sys)
    requires Inv(s) && Runs(s, moves, s') && forall k :: 0 <= k < |moves| ==> Internal(moves[k])
    ensures |moves| <= Work(s)
    ensures (forall m :: Internal(m) ==> !Enabled(s', m)) ==> Quiescent(s') && s'.pending == []
    decreases |moves|
  {
    if moves == [] {
      if !Quiescent(s) {
        var m := SomeoneCanStep(s);
      } else {
        QuiescentIsEmpty(s);
      }
    } else {
      NextKeeps(s, moves[0]);
      InternalProgress(s, moves[0]);
      EveryScheduleDrains(Next(s, moves[0]), moves[1..], s');
    }
  }

  // ----------------------------------------------------------------------- the module

  /** The module-level queue state; each method is the body of one critical section,
      the one the step of the same name takes. */
  class EvidenceQueue {
    var pending: seq<nat>
    var dropped: nat

    constructor ()
      ensures pending == [] && dropped == 0
    {
      pending, dropped := [], 0;
    }

    /** Overflow is popped under the lock and cancelled by the caller after it. */
    method AppendSection(f: nat) returns (overflow: Option<nat>)
      requires |pending| <= MAX_PENDING
      modifies this
      ensures (pending, overflow) == Push(old(pending), f)
      ensures dropped == old(dropped) + (if overflow.Some? then 1 else 0)
      ensures |pending| <= MAX_PENDING
    {
      overflow := None;
      if |pending| >= MAX_PENDING {
        overflow, pending := Some(pending[0]), pending[1..];
        dropped := dropped + 1;
      }
      pending := pending + [f];
    }

    method DoneSection(g: nat)
      modifies `pending
      ensures pending == Without(old(pending), g)
    {
      var k := 0;
      while k < |pending| && pending[k] != g
        invariant 0 <= k <= |pending| && g !in pending[..k]
      {
        assert pending[..k + 1] == pending[..k] + [pending[k]];
        k := k + 1;
      }
      assert pending == pending[..k] + pending[k..];
      WithoutConcat(pending[..k], pending[k..], g);
      if k < |pending| {
        assert pending[k..][1..] == pending[k + 1..];
        pending := pending[..k] + pending[k + 1..];
      }
    }
  }
}
