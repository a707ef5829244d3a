/** Every descriptor is served: the steps that are left are counted exactly, and with a worker some thread
    can move until none are. */
module BufferLiveness {
  import opened Counting
  import opened BoundedBuffer

  /** The steps until a producer is done, those that a worker takes for its descriptor included. */
  function ProducerSteps(p: Producer): nat {
    match p
    case BeforeWait(_) => 12
    case GotSlot(_) => 11
    case Pushing(_) => 10
    case Pushed(_) => 9
    case Announcing(_) => 8
    case Finished(_) => 0
  }

  function WorkerSteps(w: Worker): nat {
    match w
    case Idle => 0
    case GotProduct => 6
    case Fronting => 5
    case Popping(_) => 4
    case Popped(_) => 3
    case Freeing(_) => 2
    case Serving(_) => 1
  }

  function Sum<T>(s: seq<T>, f: T -> nat): nat {
    if |s| == 0 then 0 else f(s[0]) + Sum(s[1..], f)
  }

  lemma {:induction false} SumUpdate<T>(s: seq<T>, f: T -> nat, i: nat, v: T)
    requires i < |s|
    ensures Sum(s[i := v], f) + f(s[i]) == Sum(s, f) + f(v)
  {
    if i == 0 {
      assert s[0 := v][1..] == s[1..];
    } else {
      assert s[i := v][1..] == s[1..][i - 1 := v];
      SumUpdate(s[1..], f, i - 1, v);
    }
  }

  lemma {:induction false} SumSame<T>(s: seq<T>, f: T -> nat, each: nat)
    requires forall i :: 0 <= i < |s| ==> f(s[i]) == each
    ensures Sum(s, f) == each * |s|
  {
    if |s| > 0 {
      SumSame(s[1..], f, each);
    }
  }

  lemma {:induction false} SumIsZero<T>(s: seq<T>, f: T -> nat, i: nat)
    requires Sum(s, f) == 0 && i < |s|
    ensures f(s[i]) == 0
  {
    if i > 0 {
      SumIsZero(s[1..], f, i - 1);
    }
  }

  /** The steps that are left. */
  function StepsLeft(s: Config): int {
    Sum(s.producers, ProducerSteps) + Sum(s.workers, WorkerSteps) + 7 * s.product
  }

  lemma StepTakesOne(s: Config, a: Action)
    requires Enabled(s, a)
    ensures StepsLeft(Apply(s, a)) == StepsLeft(s) - 1
  {
    match a
    case ProducerStep(i) =>
      var p := ProducerMoves(s, i).producers[i];
      assert ProducerMoves(s, i).producers == s.producers[i := p];
      SumUpdate(s.producers, ProducerSteps, i, p);
    case WorkerStep(j) =>
      var w := WorkerMoves(s, j).workers[j];
      assert WorkerMoves(s, j).workers == s.workers[j := w];
      SumUpdate(s.workers, WorkerSteps, j, w);
  }

  /** Every run has as many steps as are no longer left: twelve for each descriptor in all, whatever the
      schedule. */
  lemma {:induction false} RunLength(states: seq<Config>, actions: seq<Action>, k: nat)
    requires Run(states, actions) && k < |states|
    ensures k + StepsLeft(states[k]) == 12 * |states[0].producers|
    ensures |states[k].workers| == |states[0].workers| && |states[k].producers| == |states[0].producers|
  {
    if k == 0 {
      SumSame(states[0].producers, ProducerSteps, 12);
      SumSame(states[0].workers, WorkerSteps, 0);
    } else {
      RunLength(states, actions, k - 1);
      assert Follows(states, actions, k - 1);
      StepTakesOne(states[k - 1], actions[k - 1]);
    }
  }

  lemma NoneUnderWay(s: Config)
    requires Inv(s)
    requires forall i :: 0 <= i < |s.producers| ==> s.producers[i].BeforeWait? || s.producers[i].Finished?
    requires forall j :: 0 <= j < |s.workers| ==> s.workers[j] == Idle
    ensures s.capacity + s.product == CAPACITY && |s.queue| == s.product
  {
    CountNone(s.producers, MustPost);
    CountNone(s.producers, HasSlot);
    CountNone(s.workers, WillPop);
    CountNone(s.workers, MustFree);
  }

  lemma FreeMoves(s: Config) returns (a: Action)
    requires Inv(s) && s.holder == Free && |s.workers| > 0
    requires exists i :: 0 <= i < |s.producers| && !s.producers[i].Finished?
    ensures Enabled(s, a)
  {
    if j: nat :| j < |s.workers| && s.workers[j] != Idle {
      a := WorkerStep(j);
      assert !InWorker(s.workers[j]);
    } else if i: nat :| i < |s.producers| && !s.producers[i].BeforeWait? && !s.producers[i].Finished? {
      a := ProducerStep(i);
      assert !InProducer(s.producers[i]);
    } else if s.product > 0 {
      a := WorkerStep(0);
    } else {
      NoneUnderWay(s);
      var i: nat :| i < |s.producers| && !s.producers[i].Finished?;
      a := ProducerStep(i);
    }
  }

  /** Once all producers are done, workers that are not idle can move, and idle ones while there are
      descriptors. */
  lemma DrainMoves(s: Config) returns (a: Action)
    requires Inv(s) && s.holder == Free && |s.workers| > 0 && StepsLeft(s) > 0
    requires forall i :: 0 <= i < |s.producers| ==> s.producers[i].Finished?
    ensures Enabled(s, a)
  {
    SumSame(s.producers, ProducerSteps, 0);
    if j: nat :| j < |s.workers| && s.workers[j] != Idle {
      a := WorkerStep(j);
      assert !InWorker(s.workers[j]);
    } else {
      SumSame(s.workers, WorkerSteps, 0);
      a := WorkerStep(0);
    }
  }

  /** With at least one worker no state of a run is stuck before every descriptor has been served. */
  lemma NeverStuck(states: seq<Config>, actions: seq<Action>, k: nat) returns (a: Action)
    requires Run(states, actions) && k < |states|
    requires |states[0].workers| > 0 && k < 12 * |states[0].producers|
    ensures Enabled(states[k], a)
  {
    var s := states[k];
    RunInv(states, actions, k);
    RunLength(states, actions, k);
    match s.holder
    case ByProducer(i) => a := ProducerStep(i);
    case ByWorker(j) => a := WorkerStep(j);
    case Free =>
      if i :| 0 <= i < |s.producers| && !s.producers[i].Finished? {
        a := FreeMoves(s);
      } else {
        a := DrainMoves(s);
      }
  }

  function Fds(producers: seq<Producer>): multiset<int> {
    if |producers| == 0 then multiset{} else multiset{producers[0].fd} + Fds(producers[1..])
  }

  lemma {:induction false} AllDelivered(producers: seq<Producer>)
    requires forall i :: 0 <= i < |producers| ==> producers[i].Finished?
    ensures Delivered(producers) == Fds(producers)
  {
    if |producers| > 0 {
      AllDelivered(producers[1..]);
    }
  }

  lemma {:induction false} FdsSame(a: seq<Producer>, b: seq<Producer>)
    requires |a| == |b| && forall i :: 0 <= i < |a| ==> a[i].fd == b[i].fd
    ensures Fds(a) == Fds(b)
  {
    if |a| > 0 {
      FdsSame(a[1..], b[1..]);
    }
  }

  lemma FdsStep(s: Config, a: Action)
    requires Enabled(s, a)
    ensures Fds(Apply(s, a).producers) == Fds(s.producers)
  {
    FdsSame(s.producers, Apply(s, a).producers);
  }

  lemma {:induction false} FdsKept(states: seq<Config>, actions: seq<Action>, k: nat)
    requires Run(states, actions) && k < |states|
    ensures Fds(states[k].producers) == Fds(states[0].producers)
  {
    if k > 0 {
      FdsKept(states, actions, k - 1);
      assert Follows(states, actions, k - 1);
      FdsStep(states[k - 1], actions[k - 1]);
    }
  }

  /** A run that no thread can continue has served every descriptor, each exactly once, and given every
      slot back. */
  lemma EveryDescriptorIsServed(states: seq<Config>, actions: seq<Action>)
    requires Run(states, actions) && |states[0].workers| > 0
    requires forall a :: !Enabled(states[|actions|], a)
    ensures var s := states[|actions|];
      && multiset(s.popped) == Fds(states[0].producers) && s.queue == [] && s.capacity == CAPACITY
      && (forall j :: 0 <= j < |s.workers| ==> s.workers[j] == Idle)
      && |actions| == 12 * |s.producers|
  {
    var k := |actions|;
    var s := states[k];
    RunLength(states, actions, k);
    if k < 12 * |states[0].producers| {
      var a := NeverStuck(states, actions, k);
    }
    RunInv(states, actions, k);
    NothingLeft(s);
    EachOnce(states, actions, k);
    AllDelivered(s.producers);
    FdsKept(states, actions, k);
    NoneUnderWay(s);
  }

  lemma NothingLeft(s: Config)
    requires Inv(s) && StepsLeft(s) <= 0
    ensures s.product == 0
    ensures forall i :: 0 <= i < |s.producers| ==> s.producers[i].Finished?
    ensures forall j :: 0 <= j < |s.workers| ==> s.workers[j] == Idle
  {
    forall i: nat | i < |s.producers|
      ensures s.producers[i].Finished?
    {
      SumIsZero(s.producers, ProducerSteps, i);
    }
    forall j: nat | j < |s.workers|
      ensures s.workers[j] == Idle
    {
      SumIsZero(s.workers, WorkerSteps, j);
    }
  }
}
