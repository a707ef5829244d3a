/** What every step of the worker pool keeps. */
module PoolInvariant {
  import opened Pool

  // ---------------------------------------------------------------- the mutex

  predicate WorkerHolds(pc: WorkerPc) {
    pc.CheckOuter? || pc.CheckInner? || pc.TakeFront? || pc.GotFront? || pc.Counted? || pc.Popped?
    || pc.Finishing? || pc.CheckWait? || pc.EnterWait? || pc.Leaving?
  }

  predicate CallerHolds(pc: CallerPc) {
    pc.CallerChecks? || pc.Pushing? || pc.Counting? || pc.Signalling? || pc.Returning?
  }

  predicate ControllerHolds(pc: ControllerPc) {
    pc.Broadcasting? || pc.Unlocking?
  }

  /** The holder is exactly the thread whose position lies inside a critical section. */
  ghost predicate MutexOk(s: Config) {
    && (forall w: nat :: w < |s.workers| ==> (WorkerHolds(s.workers[w]) <==> s.holder == ByWorker(w)))
    && (forall c: nat :: c < |s.callers| ==> (CallerHolds(s.callers[c]) <==> s.holder == ByCaller(c)))
    && (ControllerHolds(s.ctl) <==> s.holder == ByController)
    && (s.holder.ByWorker? ==> s.holder.w < |s.workers|)
    && (s.holder.ByCaller? ==> s.holder.c < |s.callers|)
  }

  lemma MutexWork(s: Config, w: nat, pick: nat)
    requires MutexOk(s) && WorkerEnabled(s, w, pick)
    ensures MutexOk(WorkerStep(s, w, pick))
  {
  }

  lemma MutexCall(s: Config, c: nat, isNull: bool, wakes: set<nat>)
    requires MutexOk(s) && CallerEnabled(s, c, wakes)
    ensures MutexOk(CallerStep(s, c, isNull, wakes))
  {
  }

  lemma MutexControl(s: Config, now: bool, pick: nat)
    requires MutexOk(s) && ControlEnabled(s, pick) && ControlOk(s)
    ensures MutexOk(ControlStep(s, now, pick))
  {
  }

  // ---------------------------------------------------------------- the controller

  /** From the write of the state on. */
  predicate Stopping(pc: ControllerPc) {
    !(pc.Spawning? || pc.Ready? || pc.Begin? || pc.WriteState?)
  }

  /** From the broadcast's critical section on. */
  predicate Locked(pc: ControllerPc) {
    Stopping(pc) && !pc.WantsLock?
  }

  /** After the broadcast. */
  predicate Awakened(pc: ControllerPc) {
    Locked(pc) && !pc.Broadcasting?
  }

  /** After WaitExit. */
  predicate Joined(pc: ControllerPc) {
    pc.FinalWrite? || pc.Clearing? || pc.Resetting? || pc.Done?
  }

  predicate StateOk(s: Config) {
    match s.ctl
    case WantsLock(n) => s.state == if n then TERMINATED else STOP
    case Broadcasting(n) => s.state == if n then TERMINATED else STOP
    case Unlocking(n) => s.state == if n then TERMINATED else STOP
    case Joining(n, _) => s.state == if n then TERMINATED else STOP
    case FinalWrite => s.state == STOP
    case Clearing => s.state == TERMINATED
    case Resetting => s.state == TERMINATED
    case Done(_) => s.state == TERMINATED
    case _ => s.state == RUNNING
  }

  ghost predicate ControlOk(s: Config) {
    && |s.workers| > 0
    && StateOk(s)
    && (s.ctl.Spawning? ==> s.ctl.next <= |s.workers|)
    && (s.ctl.Spawning? ==> forall w: nat :: s.ctl.next <= w < |s.workers| ==> s.workers[w] == NotStarted)
    && (s.ctl.Joining? ==> s.ctl.next <= |s.workers|)
    && (s.ctl.Joining? ==> forall w: nat :: w < s.ctl.next ==> s.workers[w] == Exited)
    && (Joined(s.ctl) ==> forall w: nat :: w < |s.workers| ==> s.workers[w] == Exited)
  }

  lemma ControlWork(s: Config, w: nat, pick: nat)
    requires ControlOk(s) && WorkerEnabled(s, w, pick)
    ensures ControlOk(WorkerStep(s, w, pick))
  {
  }

  lemma ControlCall(s: Config, c: nat, isNull: bool, wakes: set<nat>)
    requires ControlOk(s) && CallerEnabled(s, c, wakes)
    ensures ControlOk(CallerStep(s, c, isNull, wakes))
  {
  }

  lemma ControlControl(s: Config, now: bool, pick: nat)
    requires ControlOk(s) && ControlEnabled(s, pick)
    ensures ControlOk(ControlStep(s, now, pick))
  {
  }

  // ---------------------------------------------------------------- after the broadcast

  predicate PastCheck(pc: CallerPc) {
    pc.Pushing? || pc.Counting? || pc.Signalling?
  }

  ghost predicate NoPusher(s: Config) {
    forall c: nat :: c < |s.callers| ==> !PastCheck(s.callers[c])
  }

  ghost predicate NoSleeper(s: Config) {
    forall w: nat :: w < |s.workers| ==> !s.workers[w].Waiting? && !s.workers[w].EnterWait?
  }

  ghost predicate AfterOk(s: Config) {
    && (Locked(s.ctl) ==> NoPusher(s))
    && (Awakened(s.ctl) ==> NoSleeper(s))
  }

  lemma AfterWork(s: Config, w: nat, pick: nat)
    requires AfterOk(s) && ControlOk(s) && WorkerEnabled(s, w, pick)
    ensures AfterOk(WorkerStep(s, w, pick))
  {
  }

  lemma AfterCall(s: Config, c: nat, isNull: bool, wakes: set<nat>)
    requires AfterOk(s) && ControlOk(s) && CallerEnabled(s, c, wakes)
    ensures AfterOk(CallerStep(s, c, isNull, wakes))
  {
  }

  lemma AfterControl(s: Config, now: bool, pick: nat)
    requires AfterOk(s) && MutexOk(s) && ControlOk(s) && ControlEnabled(s, pick)
    ensures AfterOk(ControlStep(s, now, pick))
  {
  }

  // ---------------------------------------------------------------- the queue as workers see it

  /** What a worker's position says about the queue. */
  predicate WorkerSees(pc: WorkerPc, state: PoolState, queue: seq<nat>) {
    match pc
    case CheckWait(empty) => state != TERMINATED ==> empty && queue == []
    case EnterWait => queue == []
    case GotFront(t) => t in queue
    case Counted(t) => t in queue
    case _ => true
  }

  predicate Gone(pc: WorkerPc) {
    pc.Leaving? || pc.Exited?
  }

  ghost predicate SomeGone(s: Config) {
    exists w: nat :: w < |s.workers| && Gone(s.workers[w])
  }

  ghost predicate QueueOk(s: Config) {
    && (forall w: nat :: w < |s.workers| ==> WorkerSees(s.workers[w], s.state, s.queue))
    && (s.state == RUNNING ==> !SomeGone(s))
    && (s.state == STOP && SomeGone(s) ==> s.queue == [] && NoPusher(s))
    && (s.ctl == FinalWrite || s.ctl == Done(false) ==> s.queue == [])
    && (s.ctl == Resetting || s.ctl == Done(true) ==> s.queue == [])
  }

  lemma QueueWork(s: Config, w: nat, pick: nat)
    requires QueueOk(s) && MutexOk(s) && ControlOk(s) && WorkerEnabled(s, w, pick)
    ensures QueueOk(WorkerStep(s, w, pick))
  {
  }

  lemma QueueCall(s: Config, c: nat, isNull: bool, wakes: set<nat>)
    requires QueueOk(s) && MutexOk(s) && AfterOk(s) && CallerEnabled(s, c, wakes)
    ensures QueueOk(CallerStep(s, c, isNull, wakes))
  {
  }

  lemma QueueControl(s: Config, now: bool, pick: nat)
    requires QueueOk(s) && MutexOk(s) && ControlOk(s) && ControlEnabled(s, pick)
    ensures QueueOk(ControlStep(s, now, pick))
  {
    if s.ctl.Joining? && s.ctl.next == |s.workers| {
      assert Gone(s.workers[0]);
    }
  }

  // ---------------------------------------------------------------- every task is somewhere, once

  function Times(q: seq<nat>, k: nat): nat {
    multiset(q)[k]
  }

  predicate Carries(pc: WorkerPc, k: nat) {
    (pc.Popped? || pc.Busy?) && pc.t == k
  }

  function CarriedTimes(workers: seq<WorkerPc>, k: nat): nat {
    if |workers| == 0 then 0 else (if Carries(workers[0], k) then 1 else 0) + CarriedTimes(workers[1..], k)
  }

  /** How often task `k` occurs in the queue, in a worker's hands, among the completed runs and
      among the discarded tasks. */
  function Occurrences(s: Config, k: nat): nat {
    Times(s.queue, k) + CarriedTimes(s.workers, k) + Times(s.ran, k) + Times(s.discarded, k)
  }

  ghost predicate TasksOk(s: Config) {
    && (forall k: nat :: Occurrences(s, k) == if k < s.accepted then 1 else 0)
    && (s.discarded != [] ==> s.ctl.Clearing? || s.ctl.Resetting? || s.ctl == Done(true))
  }

  lemma {:induction false} CarriedUpdate(workers: seq<WorkerPc>, w: nat, pc: WorkerPc, k: nat)
    requires w < |workers|
    ensures CarriedTimes(workers[w := pc], k) + (if Carries(workers[w], k) then 1 else 0)
         == CarriedTimes(workers, k) + (if Carries(pc, k) then 1 else 0)
  {
    if w == 0 {
      assert workers[w := pc][1..] == workers[1..];
    } else {
      assert workers[w := pc][1..] == workers[1..][w - 1 := pc];
      CarriedUpdate(workers[1..], w - 1, pc, k);
    }
  }

  lemma {:induction false} CarriedSame(workers: seq<WorkerPc>, others: seq<WorkerPc>, k: nat)
    requires |workers| == |others|
    requires forall i :: 0 <= i < |workers| ==> Carries(workers[i], k) == Carries(others[i], k)
    ensures CarriedTimes(workers, k) == CarriedTimes(others, k)
  {
    if |workers| > 0 {
      CarriedSame(workers[1..], others[1..], k);
    }
  }

  lemma {:induction false} CarriedNone(workers: seq<WorkerPc>, k: nat)
    requires forall i :: 0 <= i < |workers| ==> !Carries(workers[i], k)
    ensures CarriedTimes(workers, k) == 0
  {
    if |workers| > 0 {
      CarriedNone(workers[1..], k);
    }
  }

  lemma RemoveAt(q: seq<nat>, pick: nat, k: nat)
    requires pick < |q|
    ensures Times(q[..pick] + q[pick + 1..], k) + (if q[pick] == k then 1 else 0) == Times(q, k)
  {
    assert q == q[..pick] + [q[pick]] + q[pick + 1..];
  }

  lemma Append(q: seq<nat>, t: nat, k: nat)
    ensures Times(q + [t], k) == Times(q, k) + (if t == k then 1 else 0)
  {
  }

  lemma OccurrencesWork(s: Config, w: nat, pick: nat, k: nat)
    requires WorkerEnabled(s, w, pick)
    ensures Occurrences(WorkerStep(s, w, pick), k) == Occurrences(s, k)
  {
    var t := WorkerStep(s, w, pick);
    assert t.workers == s.workers[w := t.workers[w]];
    CarriedUpdate(s.workers, w, t.workers[w], k);
    if s.workers[w].Counted? {
      RemoveAt(s.queue, pick, k);
    } else if s.workers[w].Busy? {
      Append(s.ran, s.workers[w].t, k);
    }
  }

  lemma TasksWork(s: Config, w: nat, pick: nat)
    requires TasksOk(s) && WorkerEnabled(s, w, pick)
    ensures TasksOk(WorkerStep(s, w, pick))
  {
    forall k: nat {
      OccurrencesWork(s, w, pick, k);
    }
  }

  lemma TasksSpurious(s: Config, w: nat)
    requires TasksOk(s) && w < |s.workers| && s.workers[w] == Waiting
    ensures TasksOk(At(s, w, Woken))
  {
    forall k: nat
      ensures Occurrences(At(s, w, Woken), k) == Occurrences(s, k)
    {
      CarriedUpdate(s.workers, w, Woken, k);
    }
  }

  lemma OccurrencesCall(s: Config, c: nat, isNull: bool, wakes: set<nat>, k: nat)
    requires CallerEnabled(s, c, wakes)
    ensures Occurrences(CallerStep(s, c, isNull, wakes), k) ==
            Occurrences(s, k) + (if s.callers[c].Pushing? && k == s.accepted then 1 else 0)
  {
    if s.callers[c].Signalling? {
      CarriedSame(s.workers, Wake(s.workers, wakes), k);
    } else if s.callers[c].Pushing? {
      Append(s.queue, s.accepted, k);
    }
  }

  lemma TasksCall(s: Config, c: nat, isNull: bool, wakes: set<nat>)
    requires TasksOk(s) && CallerEnabled(s, c, wakes)
    ensures TasksOk(CallerStep(s, c, isNull, wakes))
  {
    forall k: nat {
      OccurrencesCall(s, c, isNull, wakes, k);
    }
  }

  lemma OccurrencesControl(s: Config, now: bool, pick: nat, k: nat)
    requires ControlOk(s) && ControlEnabled(s, pick)
    ensures Occurrences(ControlStep(s, now, pick), k) == Occurrences(s, k)
  {
    match s.ctl
    case Spawning(next) =>
      if next < |s.workers| {
        CarriedUpdate(s.workers, next, WantLock, k);
      }
    case Broadcasting(_) => CarriedSame(s.workers, WakeAll(s.workers), k);
    case Clearing =>
      if |s.queue| > 0 {
        RemoveAt(s.queue, pick, k);
        Append(s.discarded, s.queue[pick], k);
      }
    case _ =>
  }

  lemma TasksControl(s: Config, now: bool, pick: nat)
    requires TasksOk(s) && ControlOk(s) && ControlEnabled(s, pick)
    ensures TasksOk(ControlStep(s, now, pick))
  {
    forall k: nat {
      OccurrencesControl(s, now, pick, k);
    }
  }

  // ---------------------------------------------------------------- the task count

  /** Inside a critical section the count can be one below the queue: a worker has decremented it
      and not popped yet, or a caller has pushed and not incremented it yet. */
  function Lag(s: Config): nat {
    match s.holder
    case ByWorker(w) => if w < |s.workers| && s.workers[w].Counted? then 1 else 0
    case ByCaller(c) => if c < |s.callers| && s.callers[c].Counting? then 1 else 0
    case _ => 0
  }

  predicate CountOk(s: Config) {
    s.ctl != Done(true) ==> s.count == |s.queue| + |s.discarded| - Lag(s)
  }

  lemma CountWork(s: Config, w: nat, pick: nat)
    requires CountOk(s) && MutexOk(s) && ControlOk(s) && WorkerEnabled(s, w, pick)
    ensures CountOk(WorkerStep(s, w, pick))
  {
  }

  lemma CountCall(s: Config, c: nat, isNull: bool, wakes: set<nat>)
    requires CountOk(s) && MutexOk(s) && AfterOk(s) && CallerEnabled(s, c, wakes)
    ensures CountOk(CallerStep(s, c, isNull, wakes))
  {
  }

  lemma CountControl(s: Config, now: bool, pick: nat)
    requires CountOk(s) && MutexOk(s) && ControlOk(s) && ControlEnabled(s, pick)
    ensures CountOk(ControlStep(s, now, pick))
  {
  }

  // ---------------------------------------------------------------- the finish count

  predicate Unreported(pc: WorkerPc) {
    pc.WantRelock? || pc.Finishing?
  }

  function UnreportedCount(workers: seq<WorkerPc>): nat {
    if |workers| == 0 then 0 else (if Unreported(workers[0]) then 1 else 0) + UnreportedCount(workers[1..])
  }

  /** The finish count trails the completed runs by the workers that have not reported yet. */
  predicate FinishOk(s: Config) {
    s.finish + UnreportedCount(s.workers) == |s.ran|
  }

  lemma {:induction false} UnreportedUpdate(workers: seq<WorkerPc>, w: nat, pc: WorkerPc)
    requires w < |workers|
    ensures UnreportedCount(workers[w := pc]) + (if Unreported(workers[w]) then 1 else 0)
         == UnreportedCount(workers) + (if Unreported(pc) then 1 else 0)
  {
    if w == 0 {
      assert workers[w := pc][1..] == workers[1..];
    } else {
      assert workers[w := pc][1..] == workers[1..][w - 1 := pc];
      UnreportedUpdate(workers[1..], w - 1, pc);
    }
  }

  lemma {:induction false} UnreportedSame(workers: seq<WorkerPc>, others: seq<WorkerPc>)
    requires |workers| == |others|
    requires forall i :: 0 <= i < |workers| ==> Unreported(workers[i]) == Unreported(others[i])
    ensures UnreportedCount(workers) == UnreportedCount(others)
  {
    if |workers| > 0 {
      UnreportedSame(workers[1..], others[1..]);
    }
  }

  lemma {:induction false} UnreportedNone(workers: seq<WorkerPc>)
    requires forall i :: 0 <= i < |workers| ==> !Unreported(workers[i])
    ensures UnreportedCount(workers) == 0
  {
    if |workers| > 0 {
      UnreportedNone(workers[1..]);
    }
  }

  lemma FinishWork(s: Config, w: nat, pick: nat)
    requires FinishOk(s) && WorkerEnabled(s, w, pick)
    ensures FinishOk(WorkerStep(s, w, pick))
  {
    var t := WorkerStep(s, w, pick);
    assert t.workers == s.workers[w := t.workers[w]];
    UnreportedUpdate(s.workers, w, t.workers[w]);
  }

  lemma FinishCall(s: Config, c: nat, isNull: bool, wakes: set<nat>)
    requires FinishOk(s) && CallerEnabled(s, c, wakes)
    ensures FinishOk(CallerStep(s, c, isNull, wakes))
  {
    UnreportedSame(s.workers, CallerStep(s, c, isNull, wakes).workers);
  }

  lemma FinishControl(s: Config, now: bool, pick: nat)
    requires FinishOk(s) && ControlOk(s) && ControlEnabled(s, pick)
    ensures FinishOk(ControlStep(s, now, pick))
  {
    if s.ctl.Spawning? && s.ctl.next < |s.workers| {
      UnreportedUpdate(s.workers, s.ctl.next, WantLock);
    } else {
      UnreportedSame(s.workers, ControlStep(s, now, pick).workers);
    }
  }

  // ---------------------------------------------------------------- no lost wakeups

  /** Started, not asleep, not carrying a task and not on the way out. */
  predicate Awake(pc: WorkerPc) {
    !(pc.NotStarted? || pc.Waiting? || pc.Popped? || pc.Busy? || pc.Leaving? || pc.Exited?)
  }

  function AwakeCount(workers: seq<WorkerPc>): nat {
    if |workers| == 0 then 0 else (if Awake(workers[0]) then 1 else 0) + AwakeCount(workers[1..])
  }

  /** One if a caller has pushed a task and not signalled yet. */
  function Pending(s: Config): nat {
    match s.holder
    case ByCaller(c) => if c < |s.callers| && (s.callers[c].Counting? || s.callers[c].Signalling?) then 1 else 0
    case _ => 0
  }

  ghost predicate WakeOk(s: Config) {
    SomeWaiting(s.workers) && s.state != TERMINATED ==> |s.queue| <= AwakeCount(s.workers) + Pending(s)
  }

  lemma {:induction false} AwakeUpdate(workers: seq<WorkerPc>, w: nat, pc: WorkerPc)
    requires w < |workers|
    ensures AwakeCount(workers[w := pc]) + (if Awake(workers[w]) then 1 else 0)
         == AwakeCount(workers) + (if Awake(pc) then 1 else 0)
  {
    if w == 0 {
      assert workers[w := pc][1..] == workers[1..];
    } else {
      assert workers[w := pc][1..] == workers[1..][w - 1 := pc];
      AwakeUpdate(workers[1..], w - 1, pc);
    }
  }

  lemma {:induction false} AwakeMonotone(workers: seq<WorkerPc>, others: seq<WorkerPc>)
    requires |workers| == |others|
    requires forall i :: 0 <= i < |workers| ==> Awake(workers[i]) ==> Awake(others[i])
    ensures AwakeCount(workers) <= AwakeCount(others)
    ensures (exists i :: 0 <= i < |workers| && !Awake(workers[i]) && Awake(others[i])) ==>
      AwakeCount(workers) < AwakeCount(others)
  {
    if |workers| > 0 {
      AwakeMonotone(workers[1..], others[1..]);
      if i :| 0 <= i < |workers| && !Awake(workers[i]) && Awake(others[i]) {
        if i > 0 {
          assert workers[1..][i - 1] == workers[i] && others[1..][i - 1] == others[i];
        }
      }
    }
  }

  lemma WakeWork(s: Config, w: nat, pick: nat)
    requires WakeOk(s) && MutexOk(s) && ControlOk(s) && QueueOk(s) && WorkerEnabled(s, w, pick)
    ensures WakeOk(WorkerStep(s, w, pick))
  {
    var pc := s.workers[w];
    assert WorkerSees(pc, s.state, s.queue);
    if pc.Counted? {
      WakePop(s, w, pick);
    } else if !pc.EnterWait? && !pc.CheckWait? {
      WakeStay(s, w, WorkerStep(s, w, pick));
    }
  }

  /** A worker takes a task from the queue. */
  lemma WakePop(s: Config, w: nat, pick: nat)
    requires WakeOk(s) && MutexOk(s) && WorkerEnabled(s, w, pick) && s.workers[w].Counted?
    ensures WakeOk(WorkerStep(s, w, pick))
  {
    var t := WorkerStep(s, w, pick);
    AwakeUpdate(s.workers, w, t.workers[w]);
    StillWaiting(s.workers, w, t.workers[w]);
  }

  /** A worker that stays as awake as it was, and leaves the queue alone. */
  lemma WakeStay(s: Config, w: nat, t: Config)
    requires WakeOk(s) && w < |s.workers| && |t.workers| == |s.workers| && t.workers == s.workers[w := t.workers[w]]
    requires t.workers[w] != Waiting && t.queue == s.queue && t.state == s.state && Pending(t) == Pending(s)
    requires t.state != TERMINATED && Awake(s.workers[w]) ==> Awake(t.workers[w])
    ensures WakeOk(t)
  {
    AwakeUpdate(s.workers, w, t.workers[w]);
    StillWaiting(s.workers, w, t.workers[w]);
  }

  lemma StillWaiting(workers: seq<WorkerPc>, w: nat, pc: WorkerPc)
    requires w < |workers| && pc != Waiting
    ensures SomeWaiting(workers[w := pc]) ==> SomeWaiting(workers)
  {
    var others := workers[w := pc];
    if i :| 0 <= i < |others| && others[i] == Waiting {
      assert workers[i] == Waiting;
    }
  }

  lemma WakeSpurious(s: Config, w: nat)
    requires WakeOk(s) && w < |s.workers| && s.workers[w] == Waiting
    ensures WakeOk(At(s, w, Woken))
  {
    AwakeUpdate(s.workers, w, Woken);
  }

  lemma WakeCall(s: Config, c: nat, isNull: bool, wakes: set<nat>)
    requires WakeOk(s) && MutexOk(s) && CallerEnabled(s, c, wakes)
    ensures WakeOk(CallerStep(s, c, isNull, wakes))
  {
    assert CallerHolds(s.callers[c]) ==> s.holder == ByCaller(c);
    if s.callers[c].Signalling? {
      AwakeMonotone(s.workers, Wake(s.workers, wakes));
      if SomeWaiting(Wake(s.workers, wakes)) {
        var i :| 0 <= i < |s.workers| && Wake(s.workers, wakes)[i] == Waiting;
        assert s.workers[i] == Waiting;
        var j :| 0 <= j < |s.workers| && s.workers[j] == Waiting && j in wakes;
        assert Wake(s.workers, wakes)[j] == Woken;
      }
    }
  }

  lemma WakeControl(s: Config, now: bool, pick: nat)
    requires WakeOk(s) && MutexOk(s) && ControlOk(s) && ControlEnabled(s, pick)
    ensures WakeOk(ControlStep(s, now, pick))
  {
    var t := ControlStep(s, now, pick);
    match s.ctl
    case Spawning(next) =>
      if next < |s.workers| {
        AwakeUpdate(s.workers, next, WantLock);
        if SomeWaiting(t.workers) {
          var i :| 0 <= i < |t.workers| && t.workers[i] == Waiting;
          assert s.workers[i] == Waiting;
        }
      }
    case Broadcasting(_) => assert !SomeWaiting(t.workers);
    case _ =>
  }

  // ---------------------------------------------------------------- all of it, over every run

  ghost predicate Inv(s: Config) {
    MutexOk(s) && ControlOk(s) && AfterOk(s) && QueueOk(s) && TasksOk(s) && CountOk(s) && FinishOk(s) && WakeOk(s)
  }

  lemma InitialInv(s: Config)
    requires Initial(s)
    ensures Inv(s)
  {
    forall k: nat {
      CarriedNone(s.workers, k);
    }
    UnreportedNone(s.workers);
  }

  lemma SpuriousInv(s: Config, w: nat)
    requires Inv(s) && w < |s.workers| && s.workers[w] == Waiting
    ensures Inv(At(s, w, Woken))
  {
    TasksSpurious(s, w);
    UnreportedUpdate(s.workers, w, Woken);
    WakeSpurious(s, w);
    assert forall v: nat :: v < |s.workers| && Gone(At(s, w, Woken).workers[v]) ==> Gone(s.workers[v]);
  }

  lemma StepInv(s: Config, a: Action)
    requires Inv(s) && Enabled(s, a)
    ensures Inv(Step(s, a))
  {
    match a
    case Work(w, pick) =>
      MutexWork(s, w, pick);
      ControlWork(s, w, pick);
      AfterWork(s, w, pick);
      QueueWork(s, w, pick);
      TasksWork(s, w, pick);
      CountWork(s, w, pick);
      FinishWork(s, w, pick);
      WakeWork(s, w, pick);
    case SpuriousWake(w) =>
      SpuriousInv(s, w);
    case Call(c, isNull, wakes) =>
      MutexCall(s, c, isNull, wakes);
      ControlCall(s, c, isNull, wakes);
      AfterCall(s, c, isNull, wakes);
      QueueCall(s, c, isNull, wakes);
      TasksCall(s, c, isNull, wakes);
      CountCall(s, c, isNull, wakes);
      FinishCall(s, c, isNull, wakes);
      WakeCall(s, c, isNull, wakes);
    case Control(now, pick) =>
      MutexControl(s, now, pick);
      ControlControl(s, now, pick);
      AfterControl(s, now, pick);
      QueueControl(s, now, pick);
      TasksControl(s, now, pick);
      CountControl(s, now, pick);
      FinishControl(s, now, pick);
      WakeControl(s, now, pick);
  }

  lemma {:induction false} RunInv(states: seq<Config>, actions: seq<Action>, k: nat)
    requires IsRun(states, actions) && k < |states|
    ensures Inv(states[k])
  {
    if k == 0 {
      InitialInv(states[0]);
    } else {
      RunInv(states, actions, k - 1);
      assert Follows(states, actions, k - 1);
      StepInv(states[k - 1], actions[k - 1]);
    }
  }
}
