/** What a call of Execute does over a run, and how long the mutex is held. */
module PoolCalls {
  import opened Pool
  import opened PoolInvariant
  import opened PoolLiveness

  // ---------------------------------------------------------------- the result of Execute

  ghost predicate Acts(actions: seq<Action>, c: nat, i: nat) {
    i < |actions| && actions[i].Call? && actions[i].c == c
  }

  /** Step `i` appends a new task. */
  ghost predicate Grows(states: seq<Config>, i: nat) {
    && i + 1 < |states| && states[i + 1].accepted == states[i].accepted + 1
    && states[i + 1].queue == states[i].queue + [states[i].accepted]
  }

  ghost predicate Keeps(states: seq<Config>, i: nat) {
    i + 1 < |states| && states[i + 1].accepted == states[i].accepted && states[i + 1].queue == states[i].queue
  }

  /** No step of caller `c` from state `j` to state `k` touches the queue. */
  ghost predicate Quiet(states: seq<Config>, actions: seq<Action>, c: nat, j: nat, k: nat) {
    forall i: nat :: j <= i < k && Acts(actions, c, i) ==> Keeps(states, i)
  }

  /** Step `p` of caller `c` appends a task, and no other one of its steps touches the queue. */
  ghost predicate Once(states: seq<Config>, actions: seq<Action>, c: nat, j: nat, k: nat, p: nat) {
    && j <= p < k && Acts(actions, c, p) && Grows(states, p)
    && forall i: nat :: j <= i < k && i != p && Acts(actions, c, i) ==> Keeps(states, i)
  }

  /** At `m` caller `c` holds the mutex, and the state word is RUNNING or not. */
  ghost predicate Met(states: seq<Config>, c: nat, j: nat, k: nat, m: nat, running: bool) {
    j < m < k < |states| && states[m].holder == ByCaller(c) && (states[m].state == RUNNING <==> running)
  }

  lemma OthersMove(s: Config, a: Action, c: nat)
    requires Enabled(s, a) && c < |s.callers| && !(a.Call? && a.c == c)
    ensures |Step(s, a).callers| == |s.callers| && Step(s, a).callers[c] == s.callers[c]
  {
  }

  /** The steps of a call: a switch on the position. */
  ghost predicate Moves(s: Config, t: Config, c: nat)
    requires c < |s.callers| && c < |t.callers|
  {
    var same := t.queue == s.queue && t.accepted == s.accepted;
    match s.callers[c]
    case Idle => true
    case CallerWantsLock(b) => t.callers[c] == CallerChecks(b) && same
    case CallerChecks(b) => t.callers[c] == (if s.state == RUNNING && !b then Pushing else Returning(false)) && same
    case Pushing =>
      t.callers[c] == Counting && t.queue == s.queue + [s.accepted] && t.accepted == s.accepted + 1
    case Counting => t.callers[c] == Signalling && same
    case Signalling => t.callers[c] == Returning(true) && same
    case Returning(_) => true
  }

  lemma CallerMoves(s: Config, a: Action, c: nat)
    requires Enabled(s, a) && c < |s.callers| && a.Call? && a.c == c
    ensures |Step(s, a).callers| == |s.callers| && Moves(s, Step(s, a), c)
  {
  }

  /** What is known of a call that started as `isNull` at `j` when it has come to `k`. */
  ghost predicate SoFar(states: seq<Config>, actions: seq<Action>, c: nat, j: nat, k: nat, m: nat, p: nat, isNull: bool)
    requires k < |states| && c < |states[k].callers|
  {
    match states[k].callers[c]
    case Idle => false
    case CallerWantsLock(b) => b == isNull && Quiet(states, actions, c, j, k)
    case CallerChecks(b) => b == isNull && j < k && Quiet(states, actions, c, j, k)
    case Pushing => !isNull && Met(states, c, j, k, m, true) && Quiet(states, actions, c, j, k)
    case Returning(ok) => Ended(states, actions, c, j, k, m, p, isNull, ok)
    case _ => !isNull && Met(states, c, j, k, m, true) && Once(states, actions, c, j, k, p)
  }

  ghost predicate Ended(states: seq<Config>, actions: seq<Action>, c: nat, j: nat, k: nat, m: nat, p: nat,
                        isNull: bool, ok: bool)
  {
    if ok then !isNull && Met(states, c, j, k, m, true) && Once(states, actions, c, j, k, p)
    else (isNull || Met(states, c, j, k, m, false)) && Quiet(states, actions, c, j, k)
  }

  lemma QuietNext(states: seq<Config>, actions: seq<Action>, c: nat, j: nat, k: nat)
    requires j <= k && Quiet(states, actions, c, j, k) && (Acts(actions, c, k) ==> Keeps(states, k))
    ensures Quiet(states, actions, c, j, k + 1)
  {
  }

  lemma OnceNext(states: seq<Config>, actions: seq<Action>, c: nat, j: nat, k: nat, p: nat)
    requires j <= k && Once(states, actions, c, j, k, p) && (Acts(actions, c, k) ==> Keeps(states, k))
    ensures Once(states, actions, c, j, k + 1, p)
  {
  }

  lemma OnceStarts(states: seq<Config>, actions: seq<Action>, c: nat, j: nat, k: nat)
    requires j <= k && Quiet(states, actions, c, j, k) && Acts(actions, c, k) && Grows(states, k)
    ensures Once(states, actions, c, j, k + 1, k)
  {
  }

  /** A step of another thread. */
  lemma SoFarStays(states: seq<Config>, actions: seq<Action>, c: nat, j: nat, k: nat, m: nat, p: nat, isNull: bool)
    requires j <= k && k + 1 < |states| && c < |states[k].callers| && c < |states[k + 1].callers|
    requires SoFar(states, actions, c, j, k, m, p, isNull) && !states[k].callers[c].Returning?
    requires states[k + 1].callers[c] == states[k].callers[c] && !Acts(actions, c, k)
    ensures SoFar(states, actions, c, j, k + 1, m, p, isNull)
  {
    if Once(states, actions, c, j, k, p) {
      OnceNext(states, actions, c, j, k, p);
    } else {
      QuietNext(states, actions, c, j, k);
    }
  }

  /** A step of the call. */
  lemma SoFarMoves(states: seq<Config>, actions: seq<Action>, c: nat, j: nat, k: nat, m: nat, p: nat, isNull: bool)
    returns (n: nat, q: nat)
    requires j <= k && k + 1 < |states| && c < |states[k].callers| && c < |states[k + 1].callers|
    requires SoFar(states, actions, c, j, k, m, p, isNull) && !states[k].callers[c].Returning?
    requires Acts(actions, c, k) && Moves(states[k], states[k + 1], c)
    requires states[k].callers[c].CallerChecks? ==> states[k].holder == ByCaller(c)
    ensures SoFar(states, actions, c, j, k + 1, n, q, isNull)
  {
    n, q := m, p;
    match states[k].callers[c]
    case CallerWantsLock(_) => QuietNext(states, actions, c, j, k);
    case CallerChecks(_) =>
      n := k;
      QuietNext(states, actions, c, j, k);
    case Pushing =>
      q := k;
      OnceStarts(states, actions, c, j, k);
    case _ => OnceNext(states, actions, c, j, k, p);
  }

  lemma NextStep(states: seq<Config>, actions: seq<Action>, c: nat, k: nat)
    requires IsRun(states, actions) && k < |actions| && c < |states[k].callers|
    ensures c < |states[k + 1].callers|
    ensures if Acts(actions, c, k) then Moves(states[k], states[k + 1], c)
            else states[k + 1].callers[c] == states[k].callers[c]
    ensures states[k].callers[c].CallerChecks? ==> states[k].holder == ByCaller(c)
  {
    assert Follows(states, actions, k);
    if Acts(actions, c, k) {
      CallerMoves(states[k], actions[k], c);
    } else {
      OthersMove(states[k], actions[k], c);
    }
    ChecksLocked(states, actions, c, k);
  }

  lemma ChecksLocked(states: seq<Config>, actions: seq<Action>, c: nat, k: nat)
    requires IsRun(states, actions) && k < |states| && c < |states[k].callers|
    ensures states[k].callers[c].CallerChecks? ==> states[k].holder == ByCaller(c)
  {
    RunInv(states, actions, k);
    assert CallerHolds(states[k].callers[c]) <==> states[k].holder == ByCaller(c);
  }

  lemma {:induction false} CallSoFar(states: seq<Config>, actions: seq<Action>, c: nat, j: nat, k: nat)
    returns (m: nat, p: nat)
    requires IsRun(states, actions) && j <= k < |states| && c < |states[j].callers|
    requires states[j].callers[c].CallerWantsLock?
    requires forall i: nat :: j <= i < k && c < |states[i].callers| ==> !states[i].callers[c].Returning?
    ensures c < |states[k].callers|
    ensures SoFar(states, actions, c, j, k, m, p, states[j].callers[c].isNull)
  {
    m, p := j, j;
    if j < k {
      m, p := CallSoFar(states, actions, c, j, k - 1);
      NextStep(states, actions, c, k - 1);
      if Acts(actions, c, k - 1) {
        m, p := SoFarMoves(states, actions, c, j, k - 1, m, p, states[j].callers[c].isNull);
      } else {
        SoFarStays(states, actions, c, j, k - 1, m, p, states[j].callers[c].isNull);
      }
    }
  }

  /** The result of Execute, over runs. A call returns true exactly if one of its steps appended one new task,
      and no other one touched the queue; then its runnable was not NULL, and it met the state RUNNING under
      the mutex. A call that returns false left the queue alone, and its runnable was NULL or it met another
      state. */
  lemma ExecuteResult(states: seq<Config>, actions: seq<Action>, c: nat, j: nat, k: nat)
    requires IsRun(states, actions) && j < k < |states| && c < |states[j].callers| && c < |states[k].callers|
    requires states[j].callers[c].CallerWantsLock? && states[k].callers[c].Returning?
    requires forall i: nat :: j <= i < k && c < |states[i].callers| ==> !states[i].callers[c].Returning?
    ensures var isNull, ok := states[j].callers[c].isNull, states[k].callers[c].ok;
      && (ok ==> !isNull && exists m: nat :: Met(states, c, j, k, m, true))
      && (ok ==> exists p: nat :: Once(states, actions, c, j, k, p))
      && (!ok ==> isNull || exists m: nat :: Met(states, c, j, k, m, false))
      && (!ok ==> Quiet(states, actions, c, j, k))
  {
    var m, p := CallSoFar(states, actions, c, j, k);
  }

  /** RUNNING is never written again. */
  lemma {:induction false} RanBefore(states: seq<Config>, actions: seq<Action>, i: nat, k: nat)
    requires IsRun(states, actions) && i <= k < |states| && states[k].state == RUNNING
    ensures states[i].state == RUNNING
  {
    if i < k {
      assert Follows(states, actions, k - 1);
      RanBefore(states, actions, i, k - 1);
    }
  }

  /** A running pool accepts: a call with a runnable that ends while the state is RUNNING has appended exactly
      one new task, and returns true. */
  lemma RunningPoolAccepts(states: seq<Config>, actions: seq<Action>, c: nat, j: nat, k: nat)
    requires IsRun(states, actions) && j < k < |states| && c < |states[j].callers| && c < |states[k].callers|
    requires states[j].callers[c] == CallerWantsLock(false) && states[k].callers[c].Returning?
    requires forall i: nat :: j <= i < k && c < |states[i].callers| ==> !states[i].callers[c].Returning?
    requires states[k].state == RUNNING
    ensures states[k].callers[c].ok
    ensures exists p: nat :: Once(states, actions, c, j, k, p)
  {
    ExecuteResult(states, actions, c, j, k);
    if m: nat :| Met(states, c, j, k, m, false) {
      RanBefore(states, actions, m, k);
    }
  }

  // ---------------------------------------------------------------- idle workers sleep

  predicate Asleep(pc: WorkerPc) {
    pc == EnterWait || pc == Waiting
  }

  /** Step `m` wakes worker `w`: on its own, by the signal of an Execute, or by the broadcast. */
  ghost predicate Wakes(states: seq<Config>, actions: seq<Action>, w: nat, m: nat) {
    m < |actions| && m < |states|
    && match actions[m]
       case Work(_, _) => false
       case SpuriousWake(v) => v == w
       case Call(c, _, wakes) => c < |states[m].callers| && states[m].callers[c] == Signalling && w in wakes
       case Control(_, _) => states[m].ctl.Broadcasting?
  }

  lemma StaysAsleep(states: seq<Config>, actions: seq<Action>, w: nat, k: nat)
    requires IsRun(states, actions) && k < |actions| && w < |states[k].workers| && Asleep(states[k].workers[w])
    ensures w < |states[k + 1].workers|
    ensures Asleep(states[k + 1].workers[w]) || Wakes(states, actions, w, k)
  {
    assert Follows(states, actions, k);
    RunInv(states, actions, k);
  }

  /** An idle worker does not poll: once it has found the queue empty and gone to wait, it is back at work only
      after a signal, the broadcast or a spurious wakeup has woken it. */
  lemma {:induction false} IdleWorkerSleeps(states: seq<Config>, actions: seq<Action>, w: nat, j: nat, k: nat)
    returns (m: nat)
    requires IsRun(states, actions) && j <= k < |states| && w < |states[j].workers| && Asleep(states[j].workers[w])
    ensures w < |states[k].workers|
    ensures !Asleep(states[k].workers[w]) ==> j <= m < k && Wakes(states, actions, w, m)
  {
    m := j;
    if j < k {
      m := IdleWorkerSleeps(states, actions, w, j, k - 1);
      if Asleep(states[k - 1].workers[w]) {
        StaysAsleep(states, actions, w, k - 1);
        m := k - 1;
      } else {
        assert Follows(states, actions, k - 1);
      }
    }
  }

  // ---------------------------------------------------------------- how long the mutex is held

  /** The steps of the holder up to its release of the mutex. */
  function HolderRank(s: Config): nat {
    match s.holder
    case Free => 0
    case ByWorker(w) => if w < |s.workers| then WorkerRank(s.workers[w]) else 0
    case ByCaller(c) => if c < |s.callers| then InCall(s.callers[c]) else 0
    case ByController => if s.ctl.Broadcasting? then 2 else 1
  }

  function WorkerRank(pc: WorkerPc): nat {
    match pc
    case Finishing => 6
    case CheckOuter => 6
    case CheckInner(_) => 5
    case TakeFront => 4
    case GotFront(_) => 3
    case Counted(_) => 2
    case CheckWait(_) => 2
    case _ => 1
  }

  function InCall(pc: CallerPc): nat {
    match pc
    case CallerChecks(_) => 5
    case Pushing => 4
    case Counting => 3
    case Signalling => 2
    case _ => 1
  }

  lemma HolderWork(s: Config, w: nat, pick: nat)
    requires Inv(s) && WorkerEnabled(s, w, pick) && s.holder != Free && WorkerStep(s, w, pick).holder == s.holder
    ensures HolderRank(WorkerStep(s, w, pick)) + (if s.holder == ByWorker(w) then 1 else 0) <= HolderRank(s)
  {
    assert WorkerHolds(s.workers[w]) <==> s.holder == ByWorker(w);
  }

  lemma HolderCall(s: Config, c: nat, isNull: bool, wakes: set<nat>)
    requires Inv(s) && CallerEnabled(s, c, wakes) && s.holder != Free
    requires CallerStep(s, c, isNull, wakes).holder == s.holder
    ensures HolderRank(CallerStep(s, c, isNull, wakes)) + (if s.holder == ByCaller(c) then 1 else 0) <= HolderRank(s)
  {
    assert CallerHolds(s.callers[c]) <==> s.holder == ByCaller(c);
    if s.holder.ByWorker? && s.holder.w < |s.workers| {
      assert WorkerHolds(s.workers[s.holder.w]);
    }
  }

  lemma HolderControl(s: Config, now: bool, pick: nat)
    requires Inv(s) && ControlEnabled(s, pick) && s.holder != Free && ControlStep(s, now, pick).holder == s.holder
    ensures HolderRank(ControlStep(s, now, pick)) + (if s.holder == ByController then 1 else 0) <= HolderRank(s)
  {
    if s.holder.ByWorker? && s.holder.w < |s.workers| {
      assert WorkerHolds(s.workers[s.holder.w]);
    }
  }

  lemma HolderStep(s: Config, a: Action)
    requires Inv(s) && Enabled(s, a) && s.holder != Free && Step(s, a).holder == s.holder
    ensures HolderRank(Step(s, a)) + (if OfHolder(a, s.holder) then 1 else 0) <= HolderRank(s)
  {
    match a
    case Work(w, pick) => HolderWork(s, w, pick);
    case SpuriousWake(w) => assert WorkerHolds(s.workers[w]) <==> s.holder == ByWorker(w);
    case Call(c, isNull, wakes) => HolderCall(s, c, isNull, wakes);
    case Control(now, pick) => HolderControl(s, now, pick);
  }

  /** The steps that the thread `h` takes from state `j` to state `k`. */
  function StepsOf(h: Holder, actions: seq<Action>, j: nat, k: nat): nat
    requires j <= k <= |actions|
  {
    if j == k then 0 else StepsOf(h, actions, j, k - 1) + (if OfHolder(actions[k - 1], h) then 1 else 0)
  }

  lemma {:induction false} HeldSteps(states: seq<Config>, actions: seq<Action>, h: Holder, j: nat, k: nat)
    requires IsRun(states, actions) && j <= k < |states| && h != Free
    requires forall i: nat :: j <= i <= k ==> states[i].holder == h
    ensures StepsOf(h, actions, j, k) + HolderRank(states[k]) <= HolderRank(states[j])
  {
    if j < k {
      HeldSteps(states, actions, h, j, k - 1);
      RunInv(states, actions, k - 1);
      assert Follows(states, actions, k - 1);
      HolderStep(states[k - 1], actions[k - 1]);
    }
  }

  /** Nobody keeps the mutex: in every state of every run in which a thread holds it, that thread can take a
      step, and while it holds it, it takes at most five. */
  lemma MutexIsReleased(states: seq<Config>, actions: seq<Action>, h: Holder, j: nat, k: nat) returns (a: Action)
    requires IsRun(states, actions) && j <= k < |states| && h != Free
    requires forall i: nat :: j <= i <= k ==> states[i].holder == h
    ensures Enabled(states[k], a) && OfHolder(a, h)
    ensures StepsOf(h, actions, j, k) <= 5
  {
    RunInv(states, actions, k);
    a := HolderMoves(states[k]);
    HeldSteps(states, actions, h, j, k);
    assert HolderRank(states[k]) >= 1 && HolderRank(states[j]) <= 6;
  }
}
