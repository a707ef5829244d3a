/** The book server's descriptor queue as interleaved steps: any number of producer threads, each
    delivering one descriptor, and any number of worker threads, with two counting semaphores and a
    mutex. Every semaphore operation, lock operation and queue operation is a step of its own. */
module BoundedBuffer {
  import opened Counting

  const CAPACITY: nat := 500

  datatype Producer =
    | BeforeWait(fd: int)    // sem_wait(&sem_capacity)
    | GotSlot(fd: int)       // pthread_mutex_lock
    | Pushing(fd: int)
    | Pushed(fd: int)        // pthread_mutex_unlock
    | Announcing(fd: int)    // sem_post(&sem_product)
    | Finished(fd: int)

  datatype Worker =
    | Idle                   // sem_wait(&sem_product)
    | GotProduct             // pthread_mutex_lock
    | Fronting
    | Popping(fd: int)
    | Popped(fd: int)        // pthread_mutex_unlock
    | Freeing(fd: int)       // sem_post(&sem_capacity)
    | Serving(fd: int)

  datatype Holder = Free | ByProducer(i: nat) | ByWorker(j: nat)

  /** `pushed` and `popped` record the descriptors that entered and left the queue. */
  datatype Config = Config(
    capacity: int,
    product: int,
    holder: Holder,
    producers: seq<Producer>,
    workers: seq<Worker>,
    queue: seq<int>,
    pushed: seq<int>,
    popped: seq<int>)

  predicate Initial(s: Config) {
    && s.capacity == CAPACITY && s.product == 0 && s.holder == Free
    && (forall i :: 0 <= i < |s.producers| ==> s.producers[i].BeforeWait?)
    && (forall j :: 0 <= j < |s.workers| ==> s.workers[j] == Idle)
    && s.queue == [] && s.pushed == [] && s.popped == []
  }

  datatype Action = ProducerStep(i: nat) | WorkerStep(j: nat)

  /** A thread can move unless it waits for a semaphore that is zero or for the mutex. */
  predicate Enabled(s: Config, a: Action) {
    match a
    case ProducerStep(i) =>
      && i < |s.producers|
      && (match s.producers[i]
          case BeforeWait(_) => s.capacity > 0
          case GotSlot(_) => s.holder == Free
          case Finished(_) => false
          case _ => true)
    case WorkerStep(j) =>
      && j < |s.workers|
      && (match s.workers[j]
          case Idle => s.product > 0
          case GotProduct => s.holder == Free
          case _ => true)
  }

  function Apply(s: Config, a: Action): Config
    requires Enabled(s, a)
  {
    match a
    case ProducerStep(i) => ProducerMoves(s, i)
    case WorkerStep(j) => WorkerMoves(s, j)
  }

  function ProducerMoves(s: Config, i: nat): Config
    requires Enabled(s, ProducerStep(i))
  {
    match s.producers[i]
    case BeforeWait(fd) => s.(capacity := s.capacity - 1, producers := s.producers[i := GotSlot(fd)])
    case GotSlot(fd) => s.(holder := ByProducer(i), producers := s.producers[i := Pushing(fd)])
    case Pushing(fd) =>
      s.(queue := s.queue + [fd], pushed := s.pushed + [fd], producers := s.producers[i := Pushed(fd)])
    case Pushed(fd) => s.(holder := Free, producers := s.producers[i := Announcing(fd)])
    case Announcing(fd) => s.(product := s.product + 1, producers := s.producers[i := Finished(fd)])
  }

  /** On an empty queue front and pop would be undefined; the model then reads -1 and pops nothing,
      and BufferIsBounded shows that this does not happen. */
  function WorkerMoves(s: Config, j: nat): Config
    requires Enabled(s, WorkerStep(j))
  {
    match s.workers[j]
    case Idle => s.(product := s.product - 1, workers := s.workers[j := GotProduct])
    case GotProduct => s.(holder := ByWorker(j), workers := s.workers[j := Fronting])
    case Fronting => s.(workers := s.workers[j := Popping(if |s.queue| == 0 then -1 else s.queue[0])])
    case Popping(fd) =>
      if |s.queue| == 0 then s.(workers := s.workers[j := Popped(fd)])
      else s.(queue := s.queue[1..], popped := s.popped + [fd], workers := s.workers[j := Popped(fd)])
    case Popped(fd) => s.(holder := Free, workers := s.workers[j := Freeing(fd)])
    case Freeing(fd) => s.(capacity := s.capacity + 1, workers := s.workers[j := Serving(fd)])
    case Serving(_) => s.(workers := s.workers[j := Idle])
  }

  // ---------------------------------------------------------------- invariant

  /** Between the wait and the push; between the push and the post; and so on. */
  predicate HasSlot(p: Producer) { p.GotSlot? || p.Pushing? }
  predicate MustPost(p: Producer) { p.Pushed? || p.Announcing? }
  predicate WillPop(w: Worker) { w.GotProduct? || w.Fronting? || w.Popping? }
  predicate MustFree(w: Worker) { w.Popped? || w.Freeing? }

  predicate InProducer(p: Producer) { p.Pushing? || p.Pushed? }
  predicate InWorker(w: Worker) { w.Fronting? || w.Popping? || w.Popped? }

  /** The two semaphores in terms of the queue and the threads under way. */
  predicate Tokens(s: Config) {
    && s.capacity >= 0 && s.product >= 0
    && |s.queue| == s.product + Count(s.producers, MustPost) + Count(s.workers, WillPop)
    && s.capacity + |s.queue| + Count(s.producers, HasSlot) + Count(s.workers, MustFree) == CAPACITY
  }

  predicate Exclusive(s: Config) {
    && (forall i :: 0 <= i < |s.producers| ==> (InProducer(s.producers[i]) <==> s.holder == ByProducer(i)))
    && (forall j :: 0 <= j < |s.workers| ==> (InWorker(s.workers[j]) <==> s.holder == ByWorker(j)))
    && (s.holder.ByProducer? ==> s.holder.i < |s.producers|)
    && (s.holder.ByWorker? ==> s.holder.j < |s.workers|)
  }

  predicate InOrder(s: Config) {
    && s.pushed == s.popped + s.queue
    && (forall j :: 0 <= j < |s.workers| && s.workers[j].Popping? ==> |s.queue| > 0 && s.workers[j].fd == s.queue[0])
  }

  predicate Inv(s: Config) {
    Tokens(s) && Exclusive(s) && InOrder(s)
  }

  lemma InitialInv(s: Config)
    requires Initial(s)
    ensures Inv(s)
  {
    CountNone(s.producers, MustPost);
    CountNone(s.producers, HasSlot);
    CountNone(s.workers, WillPop);
    CountNone(s.workers, MustFree);
  }

  lemma ProducerTokens(s: Config, i: nat)
    requires Tokens(s) && Enabled(s, ProducerStep(i))
    ensures Tokens(ProducerMoves(s, i))
  {
    var p := ProducerMoves(s, i).producers[i];
    CountUpdate(s.producers, MustPost, i, p);
    CountUpdate(s.producers, HasSlot, i, p);
  }

  lemma WorkerTokens(s: Config, j: nat)
    requires Tokens(s) && Enabled(s, WorkerStep(j))
    ensures Tokens(WorkerMoves(s, j))
  {
    var w := WorkerMoves(s, j).workers[j];
    if WillPop(s.workers[j]) {
      CountMember(s.workers, WillPop, j);
    }
    CountUpdate(s.workers, WillPop, j, w);
    CountUpdate(s.workers, MustFree, j, w);
  }

  lemma ProducerInv(s: Config, i: nat)
    requires Inv(s) && Enabled(s, ProducerStep(i))
    ensures Inv(ProducerMoves(s, i))
  {
    ProducerTokens(s, i);
  }

  lemma WorkerInv(s: Config, j: nat)
    requires Inv(s) && Enabled(s, WorkerStep(j))
    ensures Inv(WorkerMoves(s, j))
  {
    WorkerTokens(s, j);
    WorkerExclusive(s, j);
    WorkerInOrder(s, j);
  }

  lemma WorkerExclusive(s: Config, j: nat)
    requires Exclusive(s) && Enabled(s, WorkerStep(j))
    ensures Exclusive(WorkerMoves(s, j))
  {
  }

  lemma WorkerInOrder(s: Config, j: nat)
    requires Inv(s) && Enabled(s, WorkerStep(j))
    ensures InOrder(WorkerMoves(s, j))
  {
    if WillPop(s.workers[j]) {
      CountMember(s.workers, WillPop, j);
    }
  }

  /** What every step keeps. */
  lemma StepInv(s: Config, a: Action)
    requires Inv(s) && Enabled(s, a)
    ensures Inv(Apply(s, a))
  {
    match a
    case ProducerStep(i) => ProducerInv(s, i);
    case WorkerStep(j) => WorkerInv(s, j);
  }

  // ---------------------------------------------------------------- runs

  ghost predicate Follows(states: seq<Config>, actions: seq<Action>, k: nat)
    requires |states| == |actions| + 1 && k < |actions|
  {
    Enabled(states[k], actions[k]) && states[k + 1] == Apply(states[k], actions[k])
  }

  ghost predicate Run(states: seq<Config>, actions: seq<Action>) {
    && |states| == |actions| + 1 && Initial(states[0])
    && forall k: nat :: k < |actions| ==> Follows(states, actions, k)
  }

  lemma {:induction false} RunInv(states: seq<Config>, actions: seq<Action>, k: nat)
    requires Run(states, actions) && k < |states|
    ensures Inv(states[k])
  {
    if k == 0 {
      InitialInv(states[0]);
    } else {
      RunInv(states, actions, k - 1);
      assert Follows(states, actions, k - 1);
      StepInv(states[k - 1], actions[k - 1]);
    }
  }

  /** A thread between its wait and its post. */
  predicate ProducerUnderWay(p: Producer) { HasSlot(p) || MustPost(p) }
  predicate WorkerUnderWay(w: Worker) { WillPop(w) || MustFree(w) }

  lemma {:induction false} UnderWay(s: Config)
    ensures Count(s.producers, ProducerUnderWay) == Count(s.producers, HasSlot) + Count(s.producers, MustPost)
    ensures Count(s.workers, WorkerUnderWay) == Count(s.workers, WillPop) + Count(s.workers, MustFree)
  {
    Split(s.producers, HasSlot, MustPost, ProducerUnderWay);
    Split(s.workers, WillPop, MustFree, WorkerUnderWay);
  }

  lemma {:induction false} Split<T>(s: seq<T>, f: T -> bool, g: T -> bool, h: T -> bool)
    requires forall i :: 0 <= i < |s| ==> (h(s[i]) <==> f(s[i]) || g(s[i])) && !(f(s[i]) && g(s[i]))
    ensures Count(s, h) == Count(s, f) + Count(s, g)
  {
    if |s| > 0 {
      Split(s[1..], f, g, h);
    }
  }

  /** In every reachable state: the semaphores and the threads under way add up to 500, the queue
      never holds more than 500 descriptors, and front and pop never meet an empty queue. */
  lemma BufferIsBounded(states: seq<Config>, actions: seq<Action>, k: nat)
    requires Run(states, actions) && k < |states|
    ensures var s := states[k];
      && s.capacity + s.product + Count(s.producers, ProducerUnderWay) + Count(s.workers, WorkerUnderWay) == 500
      && |s.queue| <= 500
      && (forall j :: 0 <= j < |s.workers| && (s.workers[j].Fronting? || s.workers[j].Popping?) ==> |s.queue| > 0)
  {
    RunInv(states, actions, k);
    var s := states[k];
    UnderWay(s);
    forall j | 0 <= j < |s.workers| && WillPop(s.workers[j])
      ensures |s.queue| > 0
    {
      CountMember(s.workers, WillPop, j);
    }
  }

  /** Descriptors leave in the order in which they entered, and none twice: what has left is always
      the beginning of what has entered. */
  lemma FirstInFirstOut(states: seq<Config>, actions: seq<Action>, k: nat)
    requires Run(states, actions) && k < |states|
    ensures states[k].popped <= states[k].pushed
    ensures states[k].pushed == states[k].popped + states[k].queue
  {
    RunInv(states, actions, k);
  }

  // ---------------------------------------------------------------- each descriptor once

  /** The descriptors of the producers that have pushed. */
  function Delivered(producers: seq<Producer>): multiset<int> {
    if |producers| == 0 then multiset{}
    else
      (if producers[0].BeforeWait? || HasSlot(producers[0]) then multiset{} else multiset{producers[0].fd})
      + Delivered(producers[1..])
  }

  lemma {:induction false} DeliveredUpdate(producers: seq<Producer>, i: nat, p: Producer)
    requires i < |producers| && p.fd == producers[i].fd
    ensures (producers[i].BeforeWait? || HasSlot(producers[i])) && !(p.BeforeWait? || HasSlot(p)) ==>
      Delivered(producers[i := p]) == Delivered(producers) + multiset{p.fd}
    ensures ((producers[i].BeforeWait? || HasSlot(producers[i])) <==> (p.BeforeWait? || HasSlot(p))) ==>
      Delivered(producers[i := p]) == Delivered(producers)
  {
    if i == 0 {
      assert producers[0 := p][1..] == producers[1..];
    } else {
      assert producers[i := p][1..] == producers[1..][i - 1 := p];
      DeliveredUpdate(producers[1..], i - 1, p);
    }
  }

  lemma {:induction false} NothingDelivered(producers: seq<Producer>)
    requires forall i :: 0 <= i < |producers| ==> producers[i].BeforeWait?
    ensures Delivered(producers) == multiset{}
  {
    if |producers| > 0 {
      NothingDelivered(producers[1..]);
    }
  }

  lemma DeliveredStep(s: Config, a: Action)
    requires Enabled(s, a) && multiset(s.pushed) == Delivered(s.producers)
    ensures multiset(Apply(s, a).pushed) == Delivered(Apply(s, a).producers)
  {
    match a
    case WorkerStep(j) =>
      assert WorkerMoves(s, j).producers == s.producers;
    case ProducerStep(i) =>
      var t := ProducerMoves(s, i);
      DeliveredUpdate(s.producers, i, t.producers[i]);
      if s.producers[i].Pushing? {
        assert multiset(s.pushed + [s.producers[i].fd]) == multiset(s.pushed) + multiset{s.producers[i].fd};
      }
  }

  lemma {:induction false} PushedOnce(states: seq<Config>, actions: seq<Action>, k: nat)
    requires Run(states, actions) && k < |states|
    ensures multiset(states[k].pushed) == Delivered(states[k].producers)
  {
    if k == 0 {
      NothingDelivered(states[0].producers);
    } else {
      PushedOnce(states, actions, k - 1);
      assert Follows(states, actions, k - 1);
      DeliveredStep(states[k - 1], actions[k - 1]);
    }
  }

  /** In every reachable state the descriptors that have left or wait in the queue are those of the
      producers that have pushed, each as often as there are such producers. */
  lemma EachOnce(states: seq<Config>, actions: seq<Action>, k: nat)
    requires Run(states, actions) && k < |states|
    ensures multiset(states[k].popped) + multiset(states[k].queue) == Delivered(states[k].producers)
  {
    PushedOnce(states, actions, k);
    FirstInFirstOut(states, actions, k);
    assert multiset(states[k].popped + states[k].queue) == multiset(states[k].popped) + multiset(states[k].queue);
  }

  /** What a worker takes away is what it serves. */
  lemma ServesWhatItPopped(s: Config, j: nat)
    requires Inv(s) && Enabled(s, WorkerStep(j)) && s.workers[j].Popping?
    ensures var t := Apply(s, WorkerStep(j));
      t.workers[j] == Popped(s.queue[0]) && t.popped == s.popped + [s.queue[0]] && t.queue == s.queue[1..]
  {
  }
}
