/** Runs of the timer manager under the server, from an empty manager: connections are accepted, and
    their timers added, deleted, waited for and handled. */
module TimerRuns {
  import opened Timers

  /** Requests are known by the order in which they were accepted. */
  datatype Event =
    | Accept(timeout: int, clock: int)
    | Add(i: nat, timeout: int, clock: int)
    | Del(i: nat)
    | Work(i: nat, on: bool)
    | Close(i: nat)
    | Next(clock: int)
    | Handle(clock: int)

  /** The deadlines of the requests that have one, the requests that are not released, those that are
      being worked on, and how many were ever accepted. */
  datatype State = State(deadlines: map<nat, int>, alive: set<nat>, working: set<nat>, count: nat)

  /** Only requests that are not released are used. */
  predicate Possible(s: State, e: Event) {
    e.Add? || e.Del? || e.Work? || e.Close? ==> e.i in s.alive
  }

  function Expired(s: State, clock: int): set<nat> {
    set i | i in s.deadlines && Due(s.deadlines[i], clock)
  }

  function After(s: State, e: Event): State {
    match e
    case Accept(timeout, clock) =>
      State(s.deadlines[s.count := clock + timeout * MS], s.alive + {s.count}, s.working, s.count + 1)
    case Add(i, timeout, clock) => s.(deadlines := s.deadlines[i := clock + timeout * MS])
    case Del(i) => s.(deadlines := s.deadlines - {i})
    case Work(i, on) => s.(working := if on then s.working + {i} else s.working - {i})
    case Close(i) => if i in s.working then s else s.(deadlines := s.deadlines - {i}, alive := s.alive - {i})
    case Next(_) => s
    case Handle(clock) =>
      s.(deadlines := s.deadlines - Expired(s, clock), alive := s.alive - (Expired(s, clock) - s.working))
  }

  /** No expired request is being worked on. */
  predicate Safe(s: State, e: Event) {
    e.Handle? ==> Expired(s, e.clock) !! s.working
  }

  function AfterAll(s: State, events: seq<Event>): State
    decreases |events|
  {
    if |events| == 0 then s else AfterAll(After(s, events[0]), events[1..])
  }

  predicate SafeAll(s: State, events: seq<Event>)
    decreases |events|
  {
    |events| > 0 ==> Possible(s, events[0]) && Safe(s, events[0]) && SafeAll(After(s, events[0]), events[1..])
  }

  // ---------------------------------------------------------------- the manager in a state

  function Picked(accepted: seq<Request>, ids: set<nat>): set<Request> {
    set i | 0 <= i < |accepted| && i in ids :: accepted[i]
  }

  /** The numbers of a state are in order. */
  ghost predicate Numbered(accepted: seq<Request>, s: State) {
    && |accepted| == s.count
    && (forall i, j :: 0 <= i < j < |accepted| ==> accepted[i] != accepted[j])
    && s.deadlines.Keys <= s.alive && s.working <= s.alive
    && (forall i :: i in s.alive ==> i < s.count)
  }

  /** A set of requests and a map from requests to deadlines, for those of a state. */
  ghost predicate Stands(requests: set<Request>, d: map<Request, int>, accepted: seq<Request>, s: State) {
    && Numbered(accepted, s)
    && requests == Picked(accepted, s.alive)
    && d.Keys == Picked(accepted, s.deadlines.Keys)
    && (forall i :: i in s.deadlines ==> accepted[i] in d && d[accepted[i]] == s.deadlines[i])
  }

  ghost predicate Flags(accepted: seq<Request>, s: State)
    reads accepted
  {
    forall i :: 0 <= i < |accepted| && i in s.alive ==> (accepted[i].working <==> i in s.working)
  }

  /** What the manager stands for is the state, whether the manager is in order or not. */
  ghost predicate Shows(m: NetTimerManager, accepted: seq<Request>, s: State)
    reads m, m.timeQueue, m.requests, accepted
  {
    Stands(m.requests, m.Deadlines(), accepted, s) && Flags(accepted, s)
  }

  lemma PickedHas(accepted: seq<Request>, ids: set<nat>, i: nat)
    requires forall j, k :: 0 <= j < k < |accepted| ==> accepted[j] != accepted[k]
    requires i < |accepted|
    ensures accepted[i] in Picked(accepted, ids) <==> i in ids
  {
  }

  lemma PickedPut(accepted: seq<Request>, ids: set<nat>, i: nat)
    requires i < |accepted|
    ensures Picked(accepted, ids + {i}) == Picked(accepted, ids) + {accepted[i]}
  {
  }

  lemma PickedCut(accepted: seq<Request>, ids: set<nat>, i: nat)
    requires forall j, k :: 0 <= j < k < |accepted| ==> accepted[j] != accepted[k]
    requires i < |accepted|
    ensures Picked(accepted, ids - {i}) == Picked(accepted, ids) - {accepted[i]}
  {
  }

  lemma StandsAccept(requests: set<Request>, d: map<Request, int>, accepted: seq<Request>, s: State, req: Request,
                     timeout: int, clock: int)
    requires Stands(requests, d, accepted, s) && req !in accepted
    ensures Stands(requests + {req}, d[req := clock + timeout * MS], accepted + [req], After(s, Accept(timeout, clock)))
  {
    var more := accepted + [req];
    assert Picked(more, s.alive + {s.count}) == Picked(accepted, s.alive) + {req} by {
      assert more[s.count] == req;
    }
    assert Picked(more, s.deadlines.Keys + {s.count}) == Picked(accepted, s.deadlines.Keys) + {req} by {
      assert more[s.count] == req;
    }
  }

  lemma StandsAdd(requests: set<Request>, d: map<Request, int>, accepted: seq<Request>, s: State, i: nat,
                  timeout: int, clock: int)
    requires Stands(requests, d, accepted, s) && i in s.alive
    ensures Stands(requests, d[accepted[i] := clock + timeout * MS], accepted, After(s, Add(i, timeout, clock)))
    ensures accepted[i] in requests
  {
    PickedPut(accepted, s.deadlines.Keys, i);
  }

  lemma StandsDel(requests: set<Request>, d: map<Request, int>, accepted: seq<Request>, s: State, i: nat)
    requires Stands(requests, d, accepted, s) && i in s.alive
    ensures Stands(requests, d - {accepted[i]}, accepted, s.(deadlines := s.deadlines - {i}))
    ensures accepted[i] in requests
  {
    PickedCut(accepted, s.deadlines.Keys, i);
  }

  lemma StandsClose(requests: set<Request>, d: map<Request, int>, accepted: seq<Request>, s: State, i: nat)
    requires Stands(requests, d, accepted, s) && i in s.alive && i !in s.working
    ensures Stands(requests - {accepted[i]}, d - {accepted[i]}, accepted, After(s, Close(i)))
  {
    StandsDel(requests, d, accepted, s, i);
    PickedCut(accepted, s.alive, i);
  }

  method StepAccept(m: NetTimerManager, timeout: int, clock: int, accepted: seq<Request>, ghost s: State)
    returns (more: seq<Request>)
    requires m.Valid() && Shows(m, accepted, s)
    modifies m, m.requests, m.timeQueue
    ensures m.Valid() && Shows(m, more, After(s, Accept(timeout, clock))) && accepted <= more
    ensures fresh(m.requests - old(m.requests)) && fresh(m.timeQueue - old(m.timeQueue))
  {
    var req := new Request();
    StandsAccept(m.requests, m.Deadlines(), accepted, s, req, timeout, clock);
    m.AddTimer(req, timeout, clock);
    more := accepted + [req];
  }

  method StepAdd(m: NetTimerManager, i: nat, timeout: int, clock: int, accepted: seq<Request>, ghost s: State)
    requires m.Valid() && Shows(m, accepted, s) && i in s.alive && i < |accepted|
    modifies m, m.requests, m.timeQueue
    ensures m.Valid() && Shows(m, accepted, After(s, Add(i, timeout, clock)))
    ensures fresh(m.requests - old(m.requests)) && fresh(m.timeQueue - old(m.timeQueue))
  {
    var req := accepted[i];
    ghost var requests, d := m.requests, m.Deadlines();
    StandsAdd(requests, d, accepted, s, i, timeout, clock);
    assert requests + {req} == requests;
    m.AddTimer(req, timeout, clock);
    assert m.requests == requests && m.Deadlines() == d[req := clock + timeout * MS];
  }

  method StepDel(m: NetTimerManager, i: nat, accepted: seq<Request>, ghost s: State)
    requires m.Valid() && Shows(m, accepted, s) && i in s.alive && i < |accepted|
    modifies m, m.requests, m.timeQueue
    ensures m.Valid() && Shows(m, accepted, After(s, Del(i)))
    ensures m.requests == old(m.requests) && m.timeQueue == old(m.timeQueue)
  {
    StandsDel(m.requests, m.Deadlines(), accepted, s, i);
    assert m.HoldsQueued(accepted[i]);
    m.DelTimer(accepted[i]);
  }

  method StepWork(m: NetTimerManager, i: nat, on: bool, accepted: seq<Request>, ghost s: State)
    requires m.Valid() && Shows(m, accepted, s) && i in s.alive && i < |accepted|
    modifies m.requests`working
    ensures m.Valid() && Shows(m, accepted, After(s, Work(i, on)))
  {
    PickedHas(accepted, s.alive, i);
    accepted[i].working := on;
    m.DeadlinesAre(old(m.Deadlines()));
  }

  method StepClose(m: NetTimerManager, i: nat, accepted: seq<Request>, ghost s: State)
    requires m.Valid() && Shows(m, accepted, s) && i in s.alive && i < |accepted|
    modifies m, m.requests, m.timeQueue
    ensures m.Valid() && Shows(m, accepted, After(s, Close(i)))
    ensures m.requests <= old(m.requests) && m.timeQueue == old(m.timeQueue)
  {
    PickedHas(accepted, s.alive, i);
    if i !in s.working {
      StandsClose(m.requests, m.Deadlines(), accepted, s, i);
    }
    m.CloseConnection(accepted[i]);
  }

  lemma StandsHandle(requests: set<Request>, d: map<Request, int>, accepted: seq<Request>, s: State, clock: int,
                     fired: seq<Request>, released: set<Request>)
    requires Stands(requests, d, accepted, s)
    requires forall r :: r in fired <==> r in d && Due(d[r], clock)
    requires forall r :: r in released ==> r in fired
    requires forall i :: 0 <= i < |accepted| && i in s.alive && accepted[i] in fired ==>
               (accepted[i] in released <==> i !in s.working)
    ensures Stands(requests - released, NotDue(d, clock), accepted, After(s, Handle(clock)))
    ensures forall i :: 0 <= i < |accepted| ==> (accepted[i] in fired <==> i in Expired(s, clock))
  {
    var after := After(s, Handle(clock));
    forall i: nat | i < |accepted|
      ensures accepted[i] in fired <==> i in Expired(s, clock)
      ensures accepted[i] in released <==> i in Expired(s, clock) - s.working
    {
      PickedHas(accepted, s.deadlines.Keys, i);
    }
    assert Picked(accepted, after.alive) == Picked(accepted, s.alive) - released;
    assert Picked(accepted, after.deadlines.Keys) == NotDue(d, clock).Keys;
  }

  lemma FiredWorking(accepted: seq<Request>, s: State, clock: int, fired: seq<Request>, requests: set<Request>)
    requires Numbered(accepted, s) && Flags(accepted, s) && requests == Picked(accepted, s.alive)
    requires forall r :: r in fired ==> r in requests
    requires forall i :: 0 <= i < |accepted| ==> (accepted[i] in fired <==> i in Expired(s, clock))
    ensures (forall r :: r in fired ==> !r.working) <==> Safe(s, Handle(clock))
  {
    if i :| i in Expired(s, clock) && i in s.working {
      assert accepted[i] in fired;
    }
  }

  /** Whether or not a fired request was being worked on, the map is right; the manager is in order iff
      none was. */
  method StepHandle(m: NetTimerManager, clock: int, accepted: seq<Request>, ghost s: State)
    returns (ghost fired: seq<Request>)
    requires m.Valid() && Shows(m, accepted, s)
    modifies m, m.requests, m.timeQueue
    ensures Shows(m, accepted, After(s, Handle(clock)))
    ensures m.Valid() <==> Safe(s, Handle(clock))
    ensures forall i :: 0 <= i < |accepted| ==> (accepted[i] in fired <==> i in Expired(s, clock))
    ensures m.requests <= old(m.requests) && m.timeQueue <= old(m.timeQueue)
  {
    ghost var requests, d := m.requests, m.Deadlines();
    fired := m.HandleExpireTimers(clock);
    StandsHandle(requests, d, accepted, s, clock, fired, Released(fired));
    FiredWorking(accepted, s, clock, fired, requests);
  }

  /** Some request of the state has the deadline that is earliest on the map. */
  lemma FirstNumber(d: map<Request, int>, requests: set<Request>, accepted: seq<Request>, s: State, first: Request)
    returns (f: nat)
    requires Stands(requests, d, accepted, s) && first in d && (forall r :: r in d ==> d[first] <= d[r])
    ensures f in s.deadlines && s.deadlines[f] == d[first]
    ensures forall j :: j in s.deadlines ==> s.deadlines[f] <= s.deadlines[j]
  {
    f :| 0 <= f < |accepted| && f in s.deadlines.Keys && accepted[f] == first;
    forall j | j in s.deadlines
      ensures s.deadlines[f] <= s.deadlines[j]
    {
      assert accepted[j] in d;
    }
  }

  lemma NextNumber(d: map<Request, int>, requests: set<Request>, accepted: seq<Request>, s: State, res: int,
                   first: Request?, clock: int)
    requires Stands(requests, d, accepted, s) && (res == -1 <==> d == map[])
    requires res != -1 ==>
      first != null && first in d && (forall r :: r in d ==> d[first] <= d[r]) && res == Wait(d[first], clock)
    ensures res == -1 <==> s.deadlines == map[]
    ensures res != -1 ==> forall i :: i in s.deadlines && Earliest(s, i) ==> res == Wait(s.deadlines[i], clock)
  {
    assert forall i :: i in s.deadlines ==> accepted[i] in d;
    if res != -1 {
      var f := FirstNumber(d, requests, accepted, s, first);
    }
  }

  method StepNext(m: NetTimerManager, clock: int, accepted: seq<Request>, ghost s: State) returns (res: int)
    requires m.Valid() && Shows(m, accepted, s)
    modifies m, m.requests, m.timeQueue
    ensures m.Valid() && Shows(m, accepted, s)
    ensures m.requests == old(m.requests) && m.timeQueue <= old(m.timeQueue)
    ensures res == -1 <==> s.deadlines == map[]
    ensures res != -1 ==>
      forall i :: i in s.deadlines && Earliest(s, i) ==> res == Wait(s.deadlines[i], clock)
  {
    ghost var requests, d := m.requests, m.Deadlines();
    ghost var first;
    res, first := m.GetNextExpireTime(clock);
    assert m.requests == requests && m.Deadlines() == d;
    NextNumber(d, requests, accepted, s, res, first, clock);
  }

  predicate Earliest(s: State, i: nat)
    requires i in s.deadlines
  {
    forall j :: j in s.deadlines ==> s.deadlines[i] <= s.deadlines[j]
  }

  /** One event: the state is as specified, and the manager is in order iff no request that is fired is
      being worked on. */
  method Step(m: NetTimerManager, e: Event, accepted: seq<Request>, ghost s: State) returns (more: seq<Request>)
    requires m.Valid() && Shows(m, accepted, s) && Possible(s, e)
    modifies m, m.requests, m.timeQueue
    ensures Shows(m, more, After(s, e)) && (m.Valid() <==> Safe(s, e))
    ensures fresh(m.requests - old(m.requests)) && fresh(m.timeQueue - old(m.timeQueue))
    ensures accepted <= more
  {
    more := accepted;
    match e
    case Accept(timeout, clock) => more := StepAccept(m, timeout, clock, accepted, s);
    case Add(i, timeout, clock) => StepAdd(m, i, timeout, clock, accepted, s);
    case Del(i) => StepDel(m, i, accepted, s);
    case Work(i, on) => StepWork(m, i, on, accepted, s);
    case Close(i) => StepClose(m, i, accepted, s);
    case Next(clock) =>
      var res := StepNext(m, clock, accepted, s);
    case Handle(clock) =>
      ghost var fired := StepHandle(m, clock, accepted, s);
  }

  /** Any run of events keeps the manager in order, standing for the specified state, as long as no
      handled request is being worked on when its timer fires. */
  method Run(m: NetTimerManager, events: seq<Event>, accepted: seq<Request>, ghost s: State)
    returns (more: seq<Request>)
    requires m.Valid() && Shows(m, accepted, s) && SafeAll(s, events)
    modifies m, m.requests, m.timeQueue
    ensures m.Valid() && Shows(m, more, AfterAll(s, events)) && accepted <= more
    ensures fresh(m.requests - old(m.requests)) && fresh(m.timeQueue - old(m.timeQueue))
    decreases |events|
  {
    more := accepted;
    if |events| > 0 {
      more := Step(m, events[0], accepted, s);
      more := Run(m, events[1..], more, After(s, events[0]));
    }
  }

  const START := State(map[], {}, {}, 0)

  /** The same from the constructor on. */
  method RunFromStart(clock: int, events: seq<Event>) returns (m: NetTimerManager, accepted: seq<Request>)
    requires SafeAll(START, events)
    ensures fresh(m) && m.Valid() && Shows(m, accepted, AfterAll(START, events))
  {
    m := new NetTimerManager(clock);
    accepted := Run(m, events, [], START);
  }

  /** A run that is not safe: a connection is accepted, an event arrives for it, and its timer fires
      before the worker has deleted it. The request then holds a timer that was freed. */
  method StaleTimer() returns (m: NetTimerManager, req: Request)
    ensures !m.Valid() && req in m.requests && req.timer != null && req.timer !in m.timeQueue
  {
    m := new NetTimerManager(0);
    req := new Request();
    m.AddTimer(req, 0, 0);
    req.working := true;
    m.DeadlinesAre(map[req := 0]);
    ghost var d := m.Deadlines();
    var fired := m.HandleExpireTimers(0);
    assert req in d && Due(d[req], 0) && req in fired;
  }

  // ---------------------------------------------------------------- one turn of the event loop

  /** Events that leave the deadline of a request alone. */
  predicate Spares(e: Event, i: nat) {
    !e.Handle? && (e.Add? || e.Del? || e.Close? ==> e.i != i)
  }

  predicate SparesAll(events: seq<Event>, i: nat) {
    forall k :: 0 <= k < |events| ==> Spares(events[k], i)
  }

  /** A deadline lasts as long as the timer is not deleted, replaced or handled. */
  lemma {:induction false} DeadlineLasts(s: State, events: seq<Event>, i: nat)
    requires i in s.deadlines && i in s.alive && i < s.count && SafeAll(s, events)
    requires SparesAll(events, i)
    ensures i in AfterAll(s, events).deadlines && AfterAll(s, events).deadlines[i] == s.deadlines[i]
    decreases |events|
  {
    if |events| > 0 {
      DeadlineLasts(After(s, events[0]), events[1..], i);
    }
  }

  /** A request with the earliest deadline, whose timer the events leave alone. */
  predicate Timely(s: State, between: seq<Event>, i: nat) {
    i in s.deadlines && Earliest(s, i) && SparesAll(between, i)
  }

  method RunAndHandle(m: NetTimerManager, events: seq<Event>, clock: int, accepted: seq<Request>, ghost s: State)
    returns (more: seq<Request>, ghost fired: seq<Request>)
    requires m.Valid() && Shows(m, accepted, s) && SafeAll(s, events)
    modifies m, m.requests, m.timeQueue
    ensures accepted <= more && Shows(m, more, After(AfterAll(s, events), Handle(clock)))
    ensures forall i :: 0 <= i < |more| ==> (more[i] in fired <==> i in Expired(AfterAll(s, events), clock))
  {
    more := Run(m, events, accepted, s);
    fired := StepHandle(m, clock, more, AfterAll(s, events));
  }

  /** One turn of the event loop: ask for the time to wait, let any events happen, and handle the timers
      not before that time is over. The request with the earliest deadline is then called back, unless
      its timer was deleted, replaced or closed in between. */
  method Turn(m: NetTimerManager, clock: int, between: seq<Event>, later: int, accepted: seq<Request>, ghost s: State)
    returns (res: int, more: seq<Request>, ghost fired: seq<Request>)
    requires m.Valid() && Shows(m, accepted, s) && SafeAll(s, between)
    modifies m, m.requests, m.timeQueue
    ensures res == -1 <==> s.deadlines == map[]
    ensures accepted <= more && Shows(m, more, After(AfterAll(s, between), Handle(later)))
    ensures forall i :: 0 <= i < |more| ==> (more[i] in fired <==> i in Expired(AfterAll(s, between), later))
    ensures res != -1 && later >= clock + res * MS ==>
      forall i :: Timely(s, between, i) ==> i in Expired(AfterAll(s, between), later)
  {
    res := StepNext(m, clock, accepted, s);
    AllInTime(s, between, clock, res, later);
    more, fired := RunAndHandle(m, between, later, accepted, s);
  }

  lemma AllInTime(s: State, between: seq<Event>, clock: int, res: int, later: int)
    requires SafeAll(s, between) && s.deadlines.Keys <= s.alive && (forall i :: i in s.alive ==> i < s.count)
    requires res != -1 ==> forall i :: i in s.deadlines && Earliest(s, i) ==> res == Wait(s.deadlines[i], clock)
    ensures res != -1 && later >= clock + res * MS ==>
      forall i :: Timely(s, between, i) ==> i in Expired(AfterAll(s, between), later)
  {
    if res != -1 && later >= clock + res * MS {
      forall i: nat | Timely(s, between, i)
        ensures i in Expired(AfterAll(s, between), later)
      {
        InTime(s, between, i, clock, res, later);
      }
    }
  }

  lemma InTime(s: State, between: seq<Event>, i: nat, clock: int, res: int, later: int)
    requires i in s.deadlines && i in s.alive && i < s.count && SafeAll(s, between) && SparesAll(between, i)
    requires res == Wait(s.deadlines[i], clock) && later >= clock + res * MS
    ensures i in Expired(AfterAll(s, between), later)
  {
    DeadlineLasts(s, between, i);
    WaitIsExact(s.deadlines[i], clock);
  }
}
