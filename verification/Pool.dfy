/** The worker pool as interleaved steps: any number of workers running ThreadProc, any number of
    threads calling Execute, and one controller that starts the workers and later calls Shutdown
    or ShutdownNow. Every read and every write of the state word is a step of its own, because
    the controller writes it without holding the mutex.
 */
module Pool {

  datatype PoolState = RUNNING | STOP | TERMINATED

  /** Where a worker stands in ThreadProc. Tasks are named by the order in which they were
      accepted. */
  datatype WorkerPc =
    | NotStarted
    | WantLock               // first Lock
    | CheckOuter             // reads the state for the outer loop
    | CheckInner(seen: bool) // reads the state for the inner loop; `seen`: the local runnable is not NULL
    | TakeFront              // calls Front
    | GotFront(t: nat)       // decrements the task count
    | Counted(t: nat)        // calls Pop
    | Popped(t: nat)         // unlocks
    | Busy(t: nat)           // runs and destroys the task
    | WantRelock             // locks again
    | Finishing              // increments the finish count
    | CheckWait(empty: bool) // reads the state to decide between waiting and leaving
    | EnterWait              // releases the mutex and sleeps, in one step
    | Waiting
    | Woken                  // must get the mutex back
    | Leaving                // unlocks for good
    | Exited

  /** Where a thread stands in Execute. */
  datatype CallerPc =
    | Idle
    | CallerWantsLock(isNull: bool)
    | CallerChecks(isNull: bool) // reads the state
    | Pushing
    | Counting
    | Signalling
    | Returning(ok: bool) // unlocks and returns `ok`

  /** The thread that owns the pool; `now` tells ShutdownNow from Shutdown. */
  datatype ControllerPc =
    | Spawning(next: nat)
    | Ready
    | Begin(now: bool)        // reads the state
    | WriteState(now: bool)
    | WantsLock(now: bool)
    | Broadcasting(now: bool)
    | Unlocking(now: bool)
    | Joining(now: bool, next: nat)
    | FinalWrite
    | Clearing
    | Resetting
    | Done(now: bool)

  datatype Holder = Free | ByWorker(w: nat) | ByCaller(c: nat) | ByController

  /** `count` and `finish` are mTaskCount and mFinishCount relative to their starting values. */
  datatype Config = Config(
    state: PoolState,
    holder: Holder,
    workers: seq<WorkerPc>,
    callers: seq<CallerPc>,
    ctl: ControllerPc,
    queue: seq<nat>,
    count: int,
    finish: int,
    accepted: nat,
    ran: seq<nat>,
    discarded: seq<nat>)

  predicate Initial(s: Config) {
    && s.state == RUNNING && s.holder == Free
    && |s.workers| > 0 && (forall i :: 0 <= i < |s.workers| ==> s.workers[i] == NotStarted)
    && (forall i :: 0 <= i < |s.callers| ==> s.callers[i] == Idle)
    && s.ctl == Spawning(0)
    && s.queue == [] && s.count == 0 && s.finish == 0
    && s.accepted == 0 && s.ran == [] && s.discarded == []
  }

  /** A step: worker `w` moves (`pick` is the position of the task that Front shows, any of the
      equal priorities), a sleeping worker wakes on its own, caller `c` moves (with the
      runnable it passes and the sleepers its signal wakes), or the controller moves (which
      shutdown it begins, and the position of the task that Clear drops next). */
  datatype Action =
    | Work(w: nat, pick: nat)
    | SpuriousWake(w: nat)
    | Call(c: nat, isNull: bool, wakes: set<nat>)
    | Control(now: bool, pick: nat)

  // ---------------------------------------------------------------- workers

  predicate WorkerEnabled(s: Config, w: nat, pick: nat)
  {
    && w < |s.workers|
    && match s.workers[w]
       case NotStarted => false
       case Waiting => false
       case Exited => false
       case WantLock => s.holder == Free
       case WantRelock => s.holder == Free
       case Woken => s.holder == Free
       case TakeFront => |s.queue| > 0 ==> pick < |s.queue|
       case Counted(t) => pick < |s.queue| && s.queue[pick] == t
       case _ => true
  }

  function At(s: Config, w: nat, pc: WorkerPc): Config
    requires w < |s.workers|
  {
    s.(workers := s.workers[w := pc])
  }

  function WorkerStep(s: Config, w: nat, pick: nat): Config
    requires WorkerEnabled(s, w, pick)
  {
    match s.workers[w]
    case WantLock => At(s, w, CheckOuter).(holder := ByWorker(w))
    case CheckOuter => At(s, w, if s.state != TERMINATED then CheckInner(false) else Leaving)
    case CheckInner(seen) => At(s, w, if s.state != TERMINATED then TakeFront else CheckWait(!seen))
    case TakeFront => At(s, w, if |s.queue| == 0 then CheckWait(true) else GotFront(s.queue[pick]))
    case GotFront(t) => At(s, w, Counted(t)).(count := s.count - 1)
    case Counted(t) => At(s, w, Popped(t)).(queue := s.queue[..pick] + s.queue[pick + 1..])
    case Popped(t) => At(s, w, Busy(t)).(holder := Free)
    case Busy(t) => At(s, w, WantRelock).(ran := s.ran + [t])
    case WantRelock => At(s, w, Finishing).(holder := ByWorker(w))
    case Finishing => At(s, w, CheckInner(true)).(finish := s.finish + 1)
    case CheckWait(empty) => At(s, w, if s.state == RUNNING && empty then EnterWait else Leaving)
    case EnterWait => At(s, w, Waiting).(holder := Free)
    case Woken => At(s, w, CheckOuter).(holder := ByWorker(w))
    case Leaving => At(s, w, Exited).(holder := Free)
    case _ => s
  }

  // ---------------------------------------------------------------- condition variable

  function Wake(workers: seq<WorkerPc>, wakes: set<nat>): (r: seq<WorkerPc>)
    ensures |r| == |workers|
    ensures forall i :: 0 <= i < |r| ==> r[i] == if i in wakes && workers[i] == Waiting then Woken else workers[i]
  {
    seq(|workers|, i requires 0 <= i < |workers| => if i in wakes && workers[i] == Waiting then Woken else workers[i])
  }

  ghost predicate SomeWaiting(workers: seq<WorkerPc>) {
    exists i :: 0 <= i < |workers| && workers[i] == Waiting
  }

  /** A signal wakes at least one sleeper if there is one. */
  ghost predicate SignalWakes(workers: seq<WorkerPc>, wakes: set<nat>) {
    SomeWaiting(workers) ==> exists i :: 0 <= i < |workers| && workers[i] == Waiting && i in wakes
  }

  /** A broadcast wakes them all. */
  function WakeAll(workers: seq<WorkerPc>): (r: seq<WorkerPc>)
    ensures |r| == |workers|
    ensures forall i :: 0 <= i < |r| ==> r[i] == if workers[i] == Waiting then Woken else workers[i]
  {
    seq(|workers|, i requires 0 <= i < |workers| => if workers[i] == Waiting then Woken else workers[i])
  }

  // ---------------------------------------------------------------- Execute

  ghost predicate CallerEnabled(s: Config, c: nat, wakes: set<nat>)
  {
    && c < |s.callers|
    && (s.callers[c].CallerWantsLock? ==> s.holder == Free)
    && (s.callers[c].Signalling? ==> SignalWakes(s.workers, wakes))
  }

  function CallerAt(s: Config, c: nat, pc: CallerPc): Config
    requires c < |s.callers|
  {
    s.(callers := s.callers[c := pc])
  }

  function CallerStep(s: Config, c: nat, isNull: bool, wakes: set<nat>): Config
    requires c < |s.callers|
  {
    match s.callers[c]
    case Idle => CallerAt(s, c, CallerWantsLock(isNull))
    case CallerWantsLock(null_) => CallerAt(s, c, CallerChecks(null_)).(holder := ByCaller(c))
    case CallerChecks(null_) => CallerAt(s, c, if s.state != RUNNING || null_ then Returning(false) else Pushing)
    case Pushing => CallerAt(s, c, Counting).(queue := s.queue + [s.accepted], accepted := s.accepted + 1)
    case Counting => CallerAt(s, c, Signalling).(count := s.count + 1)
    case Signalling => CallerAt(s, c, Returning(true)).(workers := Wake(s.workers, wakes))
    case Returning(_) => CallerAt(s, c, Idle).(holder := Free)
  }

  // ---------------------------------------------------------------- Init, Shutdown, ShutdownNow

  predicate ControlEnabled(s: Config, pick: nat)
  {
    match s.ctl
    case WantsLock(_) => s.holder == Free
    case Joining(_, next) => next < |s.workers| ==> s.workers[next] == Exited
    case Clearing => |s.queue| > 0 ==> pick < |s.queue|
    case Done(_) => false
    case _ => true
  }

  function ControlStep(s: Config, now: bool, pick: nat): Config
    requires ControlEnabled(s, pick)
  {
    match s.ctl
    case Spawning(next) =>
      if next < |s.workers| then At(s, next, WantLock).(ctl := Spawning(next + 1)) else s.(ctl := Ready)
    case Ready => s.(ctl := Begin(now))
    case Begin(n) =>
      if (n && s.state == STOP) || (!n && s.state != RUNNING) then s.(ctl := Done(n)) else s.(ctl := WriteState(n))
    case WriteState(n) => s.(ctl := WantsLock(n), state := if n then TERMINATED else STOP)
    case WantsLock(n) => s.(ctl := Broadcasting(n), holder := ByController)
    case Broadcasting(n) => s.(ctl := Unlocking(n), workers := WakeAll(s.workers))
    case Unlocking(n) => s.(ctl := Joining(n, 0), holder := Free)
    case Joining(n, next) =>
      if next < |s.workers| then s.(ctl := Joining(n, next + 1))
      else if n then s.(ctl := Clearing) else s.(ctl := FinalWrite)
    case FinalWrite => s.(ctl := Done(false), state := TERMINATED)
    case Clearing =>
      if |s.queue| > 0 then
        s.(queue := s.queue[..pick] + s.queue[pick + 1..], discarded := s.discarded + [s.queue[pick]])
      else s.(ctl := Resetting)
    case Resetting => s.(ctl := Done(true), count := 0)
    case Done(_) => s
  }

  // ---------------------------------------------------------------- runs

  ghost predicate Enabled(s: Config, a: Action) {
    match a
    case Work(w, pick) => WorkerEnabled(s, w, pick)
    case SpuriousWake(w) => w < |s.workers| && s.workers[w] == Waiting
    case Call(c, _, wakes) => CallerEnabled(s, c, wakes)
    case Control(_, pick) => ControlEnabled(s, pick)
  }

  ghost function Step(s: Config, a: Action): Config
    requires Enabled(s, a)
  {
    match a
    case Work(w, pick) => WorkerStep(s, w, pick)
    case SpuriousWake(w) => At(s, w, Woken)
    case Call(c, isNull, wakes) => CallerStep(s, c, isNull, wakes)
    case Control(now, pick) => ControlStep(s, now, pick)
  }

  ghost predicate Follows(states: seq<Config>, actions: seq<Action>, k: nat)
    requires |states| == |actions| + 1 && k < |actions|
  {
    Enabled(states[k], actions[k]) && states[k + 1] == Step(states[k], actions[k])
  }

  ghost predicate IsRun(states: seq<Config>, actions: seq<Action>) {
    && |states| == |actions| + 1
    && Initial(states[0])
    && forall k: nat :: k < |actions| ==> Follows(states, actions, k)
  }

  /** A run goes on with any enabled step. */
  lemma Extended(states: seq<Config>, actions: seq<Action>, a: Action)
    requires IsRun(states, actions) && Enabled(states[|actions|], a)
    ensures var t := Step(states[|actions|], a);
      IsRun(states + [t], actions + [a]) && (states + [t])[|actions| + 1] == t
  {
    var more, steps := states + [Step(states[|actions|], a)], actions + [a];
    forall k: nat | k < |steps|
      ensures Follows(more, steps, k)
    {
      assert k < |actions| ==> Follows(states, actions, k);
    }
  }
}
