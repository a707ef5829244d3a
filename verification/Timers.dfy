/** The timer manager: a priority queue whose entries are deleted lazily, behaving like a map from
    requests to deadlines. Times are in nanoseconds. */
module Timers {

  const MS: int := 1_000_000

  /** duration_cast to milliseconds truncates toward zero. */
  function ToMs(ns: int): int {
    if ns >= 0 then ns / MS else -((-ns) / MS)
  }

  /** A timer fires when less than a whole millisecond is left. */
  predicate Due(deadline: int, now: int) {
    deadline - now < MS
  }

  lemma DueIsTruncation(deadline: int, now: int)
    ensures Due(deadline, now) <==> ToMs(deadline - now) <= 0
    ensures Due(deadline, now) <==> deadline < now + 1_000_000
  {
  }

  class Request {
    var timer: NetTimer?
    var working: bool

    constructor ()
      ensures timer == null && !working
    {
      timer, working := null, false;
    }
  }

  /** The callback is the one the server installs: it closes the connection of `req`. */
  class NetTimer {
    const expireTime: int
    const req: Request
    var deleted: bool

    constructor (when: int, req: Request)
      ensures expireTime == when && this.req == req && !deleted
    {
      expireTime, this.req, deleted := when, req, false;
    }
  }

  class NetTimerManager {
    var timeQueue: set<NetTimer>
    var now: int
    ghost var requests: set<Request>

    constructor (clock: int)
      ensures Valid() && Deadlines() == map[] && requests == {} && timeQueue == {}
    {
      timeQueue, now, requests := {}, clock, {};
    }

    /** A queued timer that is not deleted is the one its request holds. */
    ghost predicate HeldByRequest(t: NetTimer)
      reads this, t, requests
    {
      !t.deleted ==> t.req in requests && t.req.timer == t
    }

    /** A request's timer, if it has one, is queued, not deleted, and its own. */
    ghost predicate HoldsQueued(r: Request)
      reads this, r, timeQueue
    {
      r.timer != null ==> r.timer in timeQueue && !r.timer.deleted && r.timer.req == r
    }

    ghost predicate Valid()
      reads this, timeQueue, requests
    {
      ValidBut({})
    }

    /** Valid, except that the requests in `stale` may hold a timer that no longer exists. */
    ghost predicate ValidBut(stale: set<Request>)
      reads this, timeQueue, requests
    {
      && (forall t :: t in timeQueue ==> HeldByRequest(t))
      && (forall r :: r in requests && r !in stale ==> HoldsQueued(r))
    }

    /** What the queue stands for. */
    ghost function Deadlines(): map<Request, int>
      reads this, timeQueue, requests
    {
      map r | r in requests && Armed(r) :: r.timer.expireTime
    }

    ghost predicate Armed(r: Request)
      reads this, r, timeQueue
    {
      r.timer != null && r.timer in timeQueue && !r.timer.deleted && r.timer.req == r
    }

    /** The head of the queue: some timer that no other precedes. */
    method Top() returns (t: NetTimer)
      requires timeQueue != {}
      ensures t in timeQueue && forall u :: u in timeQueue ==> t.expireTime <= u.expireTime
    {
      t :| t in timeQueue;
      var left := timeQueue - {t};
      while left != {}
        invariant t in timeQueue && left <= timeQueue
        invariant forall u :: u in timeQueue && u !in left ==> t.expireTime <= u.expireTime
        decreases |left|
      {
        var u :| u in left;
        if u.expireTime < t.expireTime {
          t := u;
        }
        left := left - {u};
      }
    }

    /** How to recognize the map the queue stands for. */
    lemma DeadlinesAre(m: map<Request, int>)
      requires m.Keys <= requests
      requires forall r :: r in requests ==> (r in m <==> Armed(r))
      requires forall r :: r in m ==> Armed(r) && m[r] == r.timer.expireTime
      ensures Deadlines() == m
    {
    }

    /** delTimer marks the timer; it stays queued. */
    method DelTimer(req: Request)
      requires HoldsQueued(req)
      modifies req`timer, (if req.timer != null then {req.timer} else {})`deleted
      ensures req.timer == null
      ensures old(req.timer) != null ==> old(req.timer).deleted
      ensures old(Valid()) && req in requests ==> Valid() && Deadlines() == old(Deadlines()) - {req}
    {
      var timer := req.timer;
      if timer == null {
        return;
      }
      if timer.deleted {
        return;
      }
      timer.deleted := true;
      req.timer := null;
    }

    /** addTimer: the request's previous timer, if any, is deleted. A request that is new to the manager
        has none. */
    method AddTimer(req: Request, timeout: int, clock: int)
      requires Valid() && (req !in requests ==> req.timer == null)
      modifies this`now, this`timeQueue, this`requests, req`timer, timeQueue`deleted
      ensures Valid() && now == clock && requests == old(requests) + {req} && fresh(timeQueue - old(timeQueue))
      ensures Deadlines() == old(Deadlines())[req := clock + timeout * MS]
    {
      now := clock;
      var timer := new NetTimer(now + timeout * MS, req);
      timeQueue := timeQueue + {timer};
      if req.timer != null {
        DelTimer(req);
      }
      req.timer := timer;
      requests := requests + {req};
      forall r | r in requests
        ensures HoldsQueued(r) && (Armed(r) <==> r == req || (r in old(requests) && old(Armed(r))))
        ensures r != req ==> r.timer == old(r.timer)
      {
      }
      DeadlinesAre(old(Deadlines())[req := clock + timeout * MS]);
    }

    /** getNextExpireTime: milliseconds until the earliest deadline, -1 if there is none. */
    method GetNextExpireTime(clock: int) returns (res: int, ghost first: Request?)
      requires Valid()
      modifies this`now, this`timeQueue
      ensures Valid() && Deadlines() == old(Deadlines()) && now == clock && timeQueue <= old(timeQueue)
      ensures res == -1 <==> Deadlines() == map[]
      ensures res != -1 ==>
        && first in Deadlines() && (forall r :: r in Deadlines() ==> Deadlines()[first] <= Deadlines()[r])
        && res == Wait(Deadlines()[first], clock)
    {
      now := clock;
      res, first := -1, null;
      while timeQueue != {}
        invariant Valid() && Deadlines() == old(Deadlines()) && now == clock && timeQueue <= old(timeQueue)
        decreases |timeQueue|
      {
        var timer := Top();
        if timer.deleted {
          ghost var before := Deadlines();
          timeQueue := timeQueue - {timer};
          DeadlinesAre(before);
          continue;
        }
        res := ToMs(timer.expireTime - now);
        res := if res < 0 then 0 else res;
        first := timer.req;
        assert HeldByRequest(timer) && Armed(first) && first in Deadlines();
        return;
      }
    }

    /** The callback of a timer, __closeConnection: a request that is being worked on is left alone,
        any other is released. */
    method CloseConnection(req: Request)
      requires HoldsQueued(req)
      modifies this`requests, req`timer, (if req.timer != null then {req.timer} else {})`deleted
      ensures req.working ==> requests == old(requests) && req.timer == old(req.timer)
      ensures req.working && req.timer != null ==> req.timer.deleted == old(req.timer.deleted)
      ensures !req.working ==> requests == old(requests) - {req} && req.timer == null
      ensures old(Valid()) && req in old(requests) && !req.working ==>
        Valid() && Deadlines() == old(Deadlines()) - {req}
    {
      if req.working {
        return;
      }
      DelTimer(req);
      requests := requests - {req};
    }

    /** What has happened when the requests `fired` have been handled, starting from the map
        `before`. */
    ghost predicate Progress(before: map<Request, int>, fired: seq<Request>)
      reads this, timeQueue, requests, before.Keys, fired
    {
      && ValidBut(Stale(fired))
      && (forall r :: r in fired ==> r in before && Due(before[r], now))
      && InOrder(before, fired)
      && (forall r :: r in before && r !in fired ==> r in requests && Armed(r) && r.timer.expireTime == before[r])
      && (forall r :: r in requests && (r !in before || r in fired) ==> !Armed(r))
      && (forall r, t :: r in fired && r in before && t in timeQueue ==> before[r] <= t.expireTime)
    }

    /** Drop a deleted timer from the head. */
    method DropDeleted(timer: NetTimer, ghost before: map<Request, int>, ghost fired: seq<Request>)
      requires Progress(before, fired) && timer in timeQueue && timer.deleted
      modifies this`timeQueue
      ensures Progress(before, fired) && timeQueue == old(timeQueue) - {timer}
    {
      timeQueue := timeQueue - {timer};
    }

    /** Run the callback of the head and pop it. */
    method Fire(timer: NetTimer, ghost before: map<Request, int>, ghost fired: seq<Request>)
      requires Progress(before, fired) && timer in timeQueue && !timer.deleted && Due(timer.expireTime, now)
      requires forall u :: u in timeQueue ==> timer.expireTime <= u.expireTime
      modifies this`timeQueue, this`requests, timer.req`timer, timer`deleted
      ensures Progress(before, fired + [timer.req]) && timeQueue == old(timeQueue) - {timer}
      ensures requests == old(requests) - (if timer.req.working then {} else {timer.req})
      ensures timer.req.working ==> timer.req.timer == timer
    {
      ghost var req := timer.req;
      assert HeldByRequest(timer) && Armed(req);
      assert req in before && req !in fired && before[req] == timer.expireTime;
      CloseConnection(timer.req);
      timeQueue := timeQueue - {timer};
      ghost var after := fired + [req];
      assert Stale(after) == Stale(fired) + (if req.working then {req} else {});
      assert forall r :: r in after <==> r in fired || r == req;
      forall t | t in timeQueue
        ensures HeldByRequest(t)
      {
      }
      forall r | r in requests && r !in Stale(after)
        ensures HoldsQueued(r)
      {
      }
      forall r | r in before && r !in after
        ensures r in requests && Armed(r) && r.timer.expireTime == before[r]
      {
      }
      forall r | r in requests && (r !in before || r in after)
        ensures !Armed(r)
      {
      }
      assert InOrder(before, after);
    }

    /** No timer that is left is due: every due request has been handled, and the manager is in order
        unless a handled request was being worked on. */
    lemma Finished(before: map<Request, int>, fired: seq<Request>)
      requires Progress(before, fired)
      requires forall t :: t in timeQueue ==> !Due(t.expireTime, now)
      requires forall r :: r in Stale(fired) ==> r in requests && r.timer != null && r.timer !in timeQueue
      ensures forall r :: r in fired <==> r in before && Due(before[r], now)
      ensures Deadlines() == NotDue(before, now)
      ensures Valid() <==> forall r :: r in fired ==> !r.working
    {
    }

    /** Run the callback of the head, pop it, and keep account. */
    method FireNext(timer: NetTimer, ghost before: map<Request, int>, ghost fired: seq<Request>,
                    ghost all: set<Request>)
      requires requests == all - Released(fired)
      requires Progress(before, fired) && timer in timeQueue && !timer.deleted && Due(timer.expireTime, now)
      requires forall u :: u in timeQueue ==> timer.expireTime <= u.expireTime
      requires forall r :: r in Stale(fired) ==> r in requests && r.timer != null && r.timer !in timeQueue
      modifies this`timeQueue, this`requests, timer.req`timer, timer`deleted
      ensures Progress(before, fired + [timer.req]) && timeQueue == old(timeQueue) - {timer}
      ensures requests == all - Released(fired + [timer.req]) && requests <= old(requests)
      ensures forall r :: r in Stale(fired + [timer.req]) ==> r in requests && r.timer != null && r.timer !in timeQueue
    {
      assert HeldByRequest(timer) && Armed(timer.req);
      assert timer.req !in fired;
      Fire(timer, before, fired);
      ReleasedSnoc(fired, timer.req);
      forall r | r in Stale(fired + [timer.req])
        ensures r in requests && r.timer != null && r.timer !in timeQueue
      {
        assert r == timer.req || r in Stale(fired);
      }
    }

    /** handleExpireTimers: exactly the requests whose deadline is less than a millisecond away are
        called back, once each and in the order of their deadlines. Afterwards the manager is in
        order again if and only if none of them was being worked on. */
    method HandleExpireTimers(clock: int) returns (ghost fired: seq<Request>)
      requires Valid()
      modifies this`now, this`timeQueue, this`requests, requests`timer, timeQueue`deleted
      ensures forall r :: r in fired <==> r in old(Deadlines()) && Due(old(Deadlines())[r], clock)
      ensures InOrder(old(Deadlines()), fired)
      ensures Deadlines() == NotDue(old(Deadlines()), clock)
      ensures requests == old(requests) - Released(fired) && timeQueue <= old(timeQueue) && now == clock
      ensures Valid() <==> forall r :: r in fired ==> !r.working
      ensures forall r :: r in fired && r.working ==> r.timer != null && r.timer !in timeQueue
    {
      ghost var before, all := Deadlines(), requests;
      now := clock;
      fired := [];
      while timeQueue != {}
        invariant Progress(before, fired) && now == clock
        invariant timeQueue <= old(timeQueue) && requests == all - Released(fired)
        invariant requests <= all
        invariant forall r :: r in Stale(fired) ==> r in requests && r.timer != null && r.timer !in timeQueue
        decreases |timeQueue|
      {
        var timer := Top();
        if timer.deleted {
          DropDeleted(timer, before, fired);
          continue;
        }
        if ToMs(timer.expireTime - now) > 0 {
          break;
        }
        assert HeldByRequest(timer);
        FireNext(timer, before, fired, all);
        fired := fired + [timer.req];
      }
      Finished(before, fired);
    }
  }

  ghost function Released(fired: seq<Request>): set<Request>
    reads fired
  {
    set r | r in fired && !r.working
  }

  lemma ReleasedSnoc(fired: seq<Request>, req: Request)
    ensures Released(fired + [req]) == Released(fired) + (if req.working then {} else {req})
  {
  }

  ghost function NotDue(before: map<Request, int>, now: int): map<Request, int> {
    map r | r in before && !Due(before[r], now) :: before[r]
  }

  /** Fired requests whose callback did nothing. */
  ghost function Stale(fired: seq<Request>): set<Request>
    reads fired
  {
    set r | r in fired && r.working
  }

  /** Each request at most once, and earlier deadlines first. */
  ghost predicate InOrder(before: map<Request, int>, fired: seq<Request>) {
    && (forall i, j :: 0 <= i < j < |fired| ==> fired[i] != fired[j])
    && (forall i, j :: 0 <= i < j < |fired| && fired[i] in before && fired[j] in before ==>
          before[fired[i]] <= before[fired[j]])
  }

  function Wait(deadline: int, now: int): int {
    if ToMs(deadline - now) < 0 then 0 else ToMs(deadline - now)
  }

  /** Waiting for the time that getNextExpireTime returns is long enough, and a millisecond less is
      not: the truncation does not make the loop spin. */
  lemma WaitIsExact(deadline: int, now: int)
    ensures Due(deadline, now + Wait(deadline, now) * 1_000_000)
    ensures Wait(deadline, now) > 0 ==> !Due(deadline, now + (Wait(deadline, now) - 1) * 1_000_000)
  {
  }
}
