/** The size of the book cache under any number of threads that serve READ requests: the size is
    checked under the read lock, checked again under the write lock before eviction, and the insert
    comes later under the write lock. */
module CacheBound {
  import opened Counting

  const LIMIT: nat := 200000
  const FREED: nat := 60000
  const FLOOR: nat := 140000

  datatype Thread =
    | Looking                               // finds or misses the name, under the read lock
    | Checking(name: string, miss: bool)    // reads the size, under the read lock
    | Evicting(name: string, miss: bool)    // the size read was over the limit; wants the write lock
    | Passed(name: string, miss: bool)      // behind the size check; a miss inserts under the write lock
    | Answering                             // copies the entry out

  datatype Config = Config(cache: set<string>, threads: seq<Thread>)

  predicate Initial(s: Config) {
    s.cache == {} && forall i :: 0 <= i < |s.threads| ==> s.threads[i] == Looking
  }

  /** What thread `i` does next. `Look` starts a request for a name; `Evict` names the entries that
      the heap selected; `Insert` is possible for a miss whose file exists; `Skip` covers a hit and
      a file that does not exist. */
  datatype Action =
    | Look(i: nat, name: string)
    | Check(i: nat)
    | Evict(i: nat, chosen: set<string>)
    | Insert(i: nat)
    | Skip(i: nat)
    | Answer(i: nat)

  predicate Enabled(s: Config, a: Action) {
    && a.i < |s.threads|
    && (match a
        case Look(i, _) => s.threads[i] == Looking
        case Check(i) => s.threads[i].Checking?
        case Evict(i, chosen) =>
          s.threads[i].Evicting? && (|s.cache| >= LIMIT ==> chosen <= s.cache && |chosen| == FREED)
        case Insert(i) => s.threads[i].Passed? && s.threads[i].miss
        case Skip(i) => s.threads[i].Passed?
        case Answer(i) => s.threads[i] == Answering)
  }

  function Apply(s: Config, a: Action): Config
    requires Enabled(s, a)
  {
    var t := s.threads[a.i];
    match a
    case Look(i, name) => s.(threads := s.threads[i := Checking(name, name !in s.cache)])
    case Check(i) =>
      s.(threads := s.threads[i := if |s.cache| > LIMIT then Evicting(t.name, t.miss) else Passed(t.name, t.miss)])
    case Evict(i, chosen) =>
      Config(if |s.cache| < LIMIT then s.cache else s.cache - chosen, s.threads[i := Passed(t.name, t.miss)])
    case Insert(i) => Config(s.cache + {t.name}, s.threads[i := Answering])
    case Skip(i) => s.(threads := s.threads[i := Answering])
    case Answer(i) => s.(threads := s.threads[i := Looking])
  }

  /** A thread whose last size check let it pass and that has not inserted yet. */
  predicate Between(t: Thread) {
    t.Passed?
  }

  predicate Bounded(s: Config) {
    |s.cache| + Count(s.threads, Between) <= LIMIT + |s.threads|
  }

  lemma {:induction false} CountAllButOne(threads: seq<Thread>, i: nat)
    requires i < |threads| && !Between(threads[i])
    ensures Count(threads, Between) < |threads|
  {
    if i > 0 {
      CountAllButOne(threads[1..], i - 1);
    }
  }

  /** What every step keeps. A thread passes the check only when the cache is within the limit at
      that moment, or after an eviction has made room. */
  lemma StepBounded(s: Config, a: Action)
    requires Bounded(s) && Enabled(s, a)
    ensures Bounded(Apply(s, a))
  {
    var t := Apply(s, a).threads[a.i];
    CountUpdate(s.threads, Between, a.i, t);
    if !Between(s.threads[a.i]) {
      CountAllButOne(s.threads, a.i);
    }
    match a
    case Insert(i) =>
      InsertSize(s.cache, s.threads[i].name);
    case Evict(i, chosen) =>
      if |s.cache| >= LIMIT {
        EvictSize(s.cache, chosen);
      }
    case _ =>
  }

  lemma InsertSize(cache: set<string>, name: string)
    ensures |cache + {name}| <= |cache| + 1
  {
  }

  lemma EvictSize(cache: set<string>, chosen: set<string>)
    requires chosen <= cache
    ensures |cache - chosen| == |cache| - |chosen|
  {
  }

  ghost predicate Follows(states: seq<Config>, actions: seq<Action>, k: nat)
    requires |states| == |actions| + 1 && k < |actions|
  {
    Enabled(states[k], actions[k]) && states[k + 1] == Apply(states[k], actions[k])
  }

  ghost predicate Run(states: seq<Config>, actions: seq<Action>) {
    && |states| == |actions| + 1 && Initial(states[0])
    && forall k: nat :: k < |actions| ==> Follows(states, actions, k)
  }

  /** In every reachable state the cache holds at most one entry over the limit for each thread that
      is not between its size check and its insert. */
  lemma {:induction false} CacheIsBounded(states: seq<Config>, actions: seq<Action>, k: nat)
    requires Run(states, actions) && k < |states|
    ensures |states[k].threads| == |states[0].threads|
    ensures |states[k].cache| + Count(states[k].threads, Between) <= 200000 + |states[k].threads|
  {
    if k == 0 {
      CountNone(states[0].threads, Between);
    } else {
      CacheIsBounded(states, actions, k - 1);
      assert Follows(states, actions, k - 1);
      StepBounded(states[k - 1], actions[k - 1]);
    }
  }

  /** Eviction makes room: with fewer than 60000 threads the cache is below the limit afterwards,
      whether this thread evicted or found that another one had. It never takes a cache of 140000
      entries below that. */
  lemma EvictionMakesRoom(s: Config, i: nat, chosen: set<string>)
    requires Bounded(s) && Enabled(s, Evict(i, chosen)) && |s.threads| < 60000
    ensures |Apply(s, Evict(i, chosen)).cache| < 200000
    ensures |s.cache| >= 140000 ==> |Apply(s, Evict(i, chosen)).cache| >= 140000
  {
    if |s.cache| >= FLOOR {
      StepKeepsFloor(s, Evict(i, chosen));
    }
  }

  lemma StepKeepsFloor(s: Config, a: Action)
    requires Enabled(s, a) && |s.cache| >= FLOOR
    ensures |Apply(s, a).cache| >= FLOOR
  {
    match a
    case Insert(i) =>
      SupersetSize(s.cache, s.threads[i].name);
    case Evict(i, chosen) =>
      if |s.cache| >= LIMIT {
        EvictSize(s.cache, chosen);
      }
    case _ =>
  }

  lemma SupersetSize(cache: set<string>, name: string)
    ensures |cache| <= |cache + {name}|
  {
    assert name in cache ==> cache + {name} == cache;
  }

  /** The second check works: once the cache holds 140000 entries it never holds fewer, however many
      threads wait to evict. */
  lemma {:induction false} CacheStaysWarm(states: seq<Config>, actions: seq<Action>, j: nat, k: nat)
    requires Run(states, actions) && j <= k < |states|
    requires |states[j].cache| >= 140000
    ensures |states[k].cache| >= 140000
  {
    if j < k {
      CacheStaysWarm(states, actions, j, k - 1);
      assert Follows(states, actions, k - 1);
      StepKeepsFloor(states[k - 1], actions[k - 1]);
    }
  }

  /** An entry leaves the cache only in an eviction that chose it, at a moment at which the cache holds
      200000 entries or more. */
  lemma {:induction false} OnlyEvictionRemoves(states: seq<Config>, actions: seq<Action>, j: nat, k: nat, name: string)
    returns (m: nat)
    requires Run(states, actions) && j <= k < |states|
    requires name in states[j].cache && name !in states[k].cache
    ensures j <= m < k && actions[m].Evict? && name in actions[m].chosen && |states[m].cache| >= 200000
  {
    m := k - 1;
    assert Follows(states, actions, m);
    if name !in states[m].cache {
      m := OnlyEvictionRemoves(states, actions, j, m, name);
    }
  }

  // ---------------------------------------------------------------- the bound is reached

  /** Threads that have read the size and may still insert. */
  predicate Pending(t: Thread) {
    t.Passed? || t.Evicting?
  }

  lemma CountAll<T>(s: seq<T>, f: T -> bool)
    requires forall i :: 0 <= i < |s| ==> f(s[i])
    ensures Count(s, f) == |s|
  {
  }

  lemma {:induction false} CacheAndPendingAreBounded(states: seq<Config>, actions: seq<Action>, k: nat)
    requires Run(states, actions) && k < |states|
    ensures |states[k].cache| + Count(states[k].threads, Pending) <= 200000 + 2 * |states[k].threads|
  {
    CacheIsBounded(states, actions, k);
  }

  ghost predicate Reachable(s: Config) {
    exists states, actions :: Run(states, actions) && states[|actions|] == s
  }

  lemma Extend(s: Config, a: Action)
    requires Reachable(s) && Enabled(s, a)
    ensures Reachable(Apply(s, a))
  {
    var states, actions :| Run(states, actions) && states[|actions|] == s;
    var more, steps := states + [Apply(s, a)], actions + [a];
    forall k: nat | k < |steps|
      ensures Follows(more, steps, k)
    {
      assert k < |actions| ==> Follows(states, actions, k);
    }
    assert Run(more, steps) && more[|steps|] == Apply(s, a);
  }

  function Name(n: nat): (r: string)
    ensures |r| == n
  {
    seq(n, _ => 'b')
  }

  function Names(n: nat): set<string> {
    set i | 0 <= i < n :: Name(i)
  }

  lemma {:induction false} NamesCount(n: nat)
    ensures |Names(n)| == n && Name(n) !in Names(n) && Names(n + 1) == Names(n) + {Name(n)}
  {
    NamesNext(n);
    NameAbove(n, n);
    if n == 0 {
      assert Names(0) == {};
    } else {
      NamesCount(n - 1);
    }
  }

  lemma NamesNext(n: nat)
    ensures Names(n + 1) == Names(n) + {Name(n)}
  {
    assert forall x :: x in Names(n + 1) ==> x in Names(n) || x == Name(n);
    assert Name(n) in Names(n + 1);
  }

  /** Where all threads are in turn on the way to the bound. */
  datatype Phase = Resting | Going | Done | Waiting

  function In(p: Phase, i: nat): Thread {
    match p
    case Resting => Looking
    case Going => Passed(Name(LIMIT + i), true)
    case Done => Answering
    case Waiting => Evicting(Name(0), false)
  }

  /** The first `j` of `n` threads are ahead of the others. */
  function Split(n: nat, j: nat, ahead: Phase, behind: Phase): (r: seq<Thread>)
    ensures |r| == n
    ensures forall i :: 0 <= i < n ==> r[i] == In(if i < j then ahead else behind, i)
  {
    seq(n, i requires 0 <= i < n => In(if i < j then ahead else behind, i))
  }

  function Idle(n: nat): seq<Thread> {
    Split(n, 0, Resting, Resting)
  }

  lemma {:induction false} Filled(n: nat, k: nat)
    requires 0 < n && k <= LIMIT
    ensures Reachable(Config(Names(k), Idle(n)))
  {
    if k == 0 {
      var s := Config({}, Idle(n));
      assert Run([s], []) && [s][0] == s && Names(0) == {};
    } else {
      Filled(n, k - 1);
      Serve(Config(Names(k - 1), Idle(n)), k - 1);
      NamesCount(k - 1);
    }
  }

  lemma Serve(s: Config, k: nat)
    requires Reachable(s) && s == Config(Names(k), Idle(|s.threads|)) && 0 < |s.threads| && k <= LIMIT
    ensures Reachable(Config(s.cache + {Name(k)}, s.threads))
  {
    NamesCount(k);
    Extend(s, Look(0, Name(k)));
    var s1 := Apply(s, Look(0, Name(k)));
    Extend(s1, Check(0));
    var s2 := Apply(s1, Check(0));
    Extend(s2, Insert(0));
    var s3 := Apply(s2, Insert(0));
    Extend(s3, Answer(0));
    assert Apply(s3, Answer(0)).threads == s.threads;
  }

  lemma {:induction false} NameAbove(n: nat, k: nat)
    requires n <= k
    ensures Name(k) !in Names(n)
  {
    forall x | x in Names(n)
      ensures x != Name(k)
    {
      var i :| 0 <= i < n && x == Name(i);
    }
  }

  /** With the cache exactly full, every thread passes the check. */
  lemma {:induction false} AllPass(n: nat, j: nat)
    requires 0 < n && j <= n
    ensures Reachable(Config(Names(LIMIT), Split(n, j, Going, Resting)))
  {
    if j == 0 {
      Filled(n, LIMIT);
      assert Split(n, 0, Going, Resting) == Idle(n);
    } else {
      AllPass(n, j - 1);
      NamesCount(LIMIT);
      NameAbove(LIMIT, LIMIT + j - 1);
      var s := Config(Names(LIMIT), Split(n, j - 1, Going, Resting));
      Extend(s, Look(j - 1, Name(LIMIT + j - 1)));
      var s1 := Apply(s, Look(j - 1, Name(LIMIT + j - 1)));
      Extend(s1, Check(j - 1));
      assert Apply(s1, Check(j - 1)).threads == Split(n, j, Going, Resting);
    }
  }

  /** Then every thread inserts. */
  lemma {:induction false} AllInsert(n: nat, j: nat)
    requires 0 < n && j <= n
    ensures Reachable(Config(Names(LIMIT + j), Split(n, j, Done, Going)))
  {
    if j == 0 {
      AllPass(n, n);
      assert Split(n, 0, Done, Going) == Split(n, n, Going, Resting);
    } else {
      AllInsert(n, j - 1);
      NamesCount(LIMIT + j - 1);
      var s := Config(Names(LIMIT + j - 1), Split(n, j - 1, Done, Going));
      Extend(s, Insert(j - 1));
      assert Apply(s, Insert(j - 1)).threads == Split(n, j, Done, Going);
    }
  }

  lemma {:induction false} AllAnswer(n: nat, j: nat)
    requires 0 < n && j <= n
    ensures Reachable(Config(Names(LIMIT + n), Split(n, j, Resting, Done)))
  {
    if j == 0 {
      AllInsert(n, n);
      assert Split(n, 0, Resting, Done) == Split(n, n, Done, Going);
    } else {
      AllAnswer(n, j - 1);
      var s := Config(Names(LIMIT + n), Split(n, j - 1, Resting, Done));
      Extend(s, Answer(j - 1));
      assert Apply(s, Answer(j - 1)).threads == Split(n, j, Resting, Done);
    }
  }

  /** The next requests all find the cache over the limit. */
  lemma {:induction false} AllWait(n: nat, j: nat)
    requires 0 < n && j <= n
    ensures Reachable(Config(Names(LIMIT + n), Split(n, j, Waiting, Resting)))
  {
    if j == 0 {
      AllAnswer(n, n);
      assert Split(n, 0, Waiting, Resting) == Split(n, n, Resting, Done);
    } else {
      AllWait(n, j - 1);
      NamesCount(LIMIT + n);
      var s := Config(Names(LIMIT + n), Split(n, j - 1, Waiting, Resting));
      assert Name(0) in s.cache;
      Extend(s, Look(j - 1, Name(0)));
      var s1 := Apply(s, Look(j - 1, Name(0)));
      Extend(s1, Check(j - 1));
      assert Apply(s1, Check(j - 1)).threads == Split(n, j, Waiting, Resting);
    }
  }

  /** Both bounds are reached: with any number of threads, the cache can exceed the limit by all of them
      while all of them wait to evict. */
  lemma BoundsAreReached(n: nat) returns (s: Config)
    requires 0 < n
    ensures Reachable(s) && |s.threads| == n
    ensures |s.cache| == 200000 + n && Count(s.threads, Pending) == n
  {
    s := Config(Names(LIMIT + n), Split(n, n, Waiting, Resting));
    AllWait(n, n);
    NamesCount(LIMIT + n);
    CountAll(s.threads, Pending);
  }
}
