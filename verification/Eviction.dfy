/** Choosing what to drop from the book cache: one pass over the entries with a bounded heap. */
module Eviction {

  /** struct cache_node. */
  datatype Entry = Entry(size: nat, cont: int, lasttime: int, per: int, data: nat)

  /** The comparison of the heap, at the time `now`: `a` is colder than `b`. */
  predicate Cmp(a: Entry, b: Entry, now: int) {
    var a_l, b_l := now - a.lasttime, now - b.lasttime;
    var sub := a.cont - b.cont;
    if sub > 1000 || -sub > 1000 then !(sub > 0)
    else if sub > 100 then a.per > b.per
    else a_l > b_l
  }

  predicate Colder(a: Entry, b: Entry) {
    Cmp(a, b, 0)
  }

  /** The clock is read on every comparison, but the answer does not depend on it. */
  lemma ClockIsIrrelevant(a: Entry, b: Entry, now: int)
    ensures Cmp(a, b, now) <==> Colder(a, b)
  {
  }

  /** `a` was hit between 100 and 1000 times more often than `b`, at longer intervals, and more
      recently. */
  predicate Clash(a: Entry, b: Entry) {
    100 < a.cont - b.cont <= 1000 && a.per > b.per && a.lasttime > b.lasttime
  }

  /** Exactly then each of two entries is colder than the other. */
  lemma BothColder(a: Entry, b: Entry)
    ensures Colder(a, b) && Colder(b, a) <==> Clash(a, b) || Clash(b, a)
  {
  }

  lemma CmpIsNotAlwaysAnOrder()
    ensures var a, b := Entry(0, 200, 10, 5, 0), Entry(0, 1, 9, 4, 0); Colder(a, b) && Colder(b, a)
  {
  }

  /** A strict weak order: asymmetric, and "not colder" is transitive. */
  ghost predicate StrictWeakOrder(v: set<Entry>) {
    && (forall a, b :: a in v && b in v && Colder(a, b) ==> !Colder(b, a))
    && (forall a, b, c :: a in v && b in v && c in v && !Colder(a, b) && !Colder(b, c) ==> !Colder(a, c))
  }

  ghost predicate CloseHits(v: set<Entry>) {
    forall a, b :: a in v && b in v ==> -100 <= a.cont - b.cont <= 100
  }

  /** With hit counts close together the comparison is by last use. */
  lemma CloseHitsOrder(v: set<Entry>)
    requires CloseHits(v)
    ensures StrictWeakOrder(v)
    ensures forall a, b :: a in v && b in v ==> (Colder(a, b) <==> a.lasttime < b.lasttime)
  {
  }

  /** Any two hit counts are at most 100 or more than 1000 apart. */
  ghost predicate Spread(hits: set<int>) {
    forall h, k :: h in hits && k in hits ==> -100 <= h - k <= 100 || h - k > 1000 || k - h > 1000
  }

  ghost predicate HitsIn(v: set<Entry>, hits: set<int>) {
    forall e :: e in v ==> e.cont in hits
  }

  lemma SpreadHitsOrder(v: set<Entry>, hits: set<int>)
    requires Spread(hits) && HitsIn(v, hits)
    ensures StrictWeakOrder(v)
  {
  }

  /** As a condition on hit counts alone this is exact: two counts that break it have entries that
      clash. */
  lemma HitsDecide(hits: set<int>)
    ensures Spread(hits) <==> forall v :: HitsIn(v, hits) ==> StrictWeakOrder(v)
  {
    if Spread(hits) {
      forall v | HitsIn(v, hits)
        ensures StrictWeakOrder(v)
      {
        SpreadHitsOrder(v, hits);
      }
    } else {
      var h, k :| h in hits && k in hits && 100 < h - k <= 1000;
      var a, b := Entry(0, h, 10, 5, 0), Entry(0, k, 9, 4, 0);
      assert HitsIn({a, b}, hits) && Colder(a, b) && Colder(b, a);
    }
  }

  /** For two entries the absence of a clash is enough. */
  lemma PairOrderIffNoClash(a: Entry, b: Entry)
    ensures StrictWeakOrder({a, b}) <==> !Clash(a, b) && !Clash(b, a)
  {
    assert a in {a, b} && b in {a, b};
  }

  /** For three it is not: the first two are equivalent, and so are the last two, but the first is
      colder than the last. */
  lemma NoClashIsNotEnough()
    ensures var v := {Entry(0, 160, 10, 5, 0), Entry(0, 80, 10, 1, 0), Entry(0, 0, 10, 1, 0)};
      (forall a, b :: a in v && b in v ==> !Clash(a, b)) && !StrictWeakOrder(v)
  {
    var a, b, c := Entry(0, 160, 10, 5, 0), Entry(0, 80, 10, 1, 0), Entry(0, 0, 10, 1, 0);
    var v := {a, b, c};
    assert a in v && b in v && c in v;
    assert !Colder(a, b) && !Colder(b, c) && Colder(a, c);
  }

  /** `k` may stay while `r` goes: it has over 1000 hits more; or between 100 and 1000 more, at intervals
      that are no longer; or otherwise at most 1000 fewer, and was used at least as recently. */
  predicate MayStay(k: Entry, r: Entry) {
    var d := k.cont - r.cont;
    || d > 1000
    || (100 < d <= 1000 && k.per <= r.per)
    || (-1000 <= d <= 100 && r.lasttime <= k.lasttime)
  }

  lemma NotColderIffMayStay(k: Entry, r: Entry)
    ensures !Colder(k, r) <==> MayStay(k, r)
  {
  }

  lemma StillNotColder(v: set<Entry>, a: Entry, b: Entry, c: Entry)
    requires StrictWeakOrder(v) && a in v && b in v && c in v
    requires Colder(a, b) && !Colder(a, c)
    ensures !Colder(b, c)
  {
  }

  lemma PrefixNext<T>(s: seq<T>, i: nat)
    requires i < |s| && (forall j, k :: 0 <= j < k < |s| ==> s[j] != s[k])
    ensures s[i] in s && s[i] !in s[..i]
    ensures forall x :: x in s[..i + 1] <==> x in s[..i] || x == s[i]
  {
    assert s[..i + 1] == s[..i] + [s[i]];
  }

  /** The keys that a pass has seen. */
  ghost function Seen(order: seq<string>, i: nat): set<string>
    requires i <= |order|
  {
    set k | k in order[..i]
  }

  lemma SeenNext(order: seq<string>, i: nat)
    requires i < |order| && (forall j, k :: 0 <= j < k < |order| ==> order[j] != order[k])
    ensures order[i] in order && order[i] !in Seen(order, i)
    ensures Seen(order, i + 1) == Seen(order, i) + {order[i]}
  {
    PrefixNext(order, i);
  }

  lemma SubsetSize<T>(a: set<T>, b: set<T>)
    requires a <= b
    ensures |a| <= |b|
  {
    assert b == a + (b - a);
  }

  /** No key outside `chosen` has an entry that is colder than a chosen one. */
  ghost predicate Coldest(cache: map<string, Entry>, chosen: set<string>, seen: set<string>)
    requires chosen <= seen <= cache.Keys
  {
    forall k, r :: k in seen && k !in chosen && r in chosen ==> !Colder(cache[k], cache[r])
  }

  /** The comparison is asymmetric on a set of entries exactly if no two of them clash. */
  lemma AsymmetricIffNoClash(v: set<Entry>)
    ensures (forall a, b :: a in v && b in v && Colder(a, b) ==> !Colder(b, a))
            <==> (forall a, b :: a in v && b in v ==> !Clash(a, b))
  {
  }

  /** With hit counts close together, what is kept was used at least as recently as what goes. */
  lemma KeptAreNewer(cache: map<string, Entry>, removed: set<string>, k: string, r: string)
    requires CloseHits(cache.Values) && removed <= cache.Keys && Coldest(cache, removed, cache.Keys)
    requires k in cache && k !in removed && r in removed
    ensures cache[r].lasttime <= cache[k].lasttime
  {
  }

  /** With spread hit counts, what is kept has over 1000 hits more than what goes, or about as many and
      was used at least as recently. */
  lemma KeptAreWarmer(cache: map<string, Entry>, removed: set<string>, hits: set<int>, k: string, r: string)
    requires Spread(hits) && HitsIn(cache.Values, hits)
    requires removed <= cache.Keys && Coldest(cache, removed, cache.Keys)
    requires k in cache && k !in removed && r in removed
    ensures var d := cache[k].cont - cache[r].cont;
      d > 1000 || (-100 <= d <= 100 && cache[r].lasttime <= cache[k].lasttime)
  {
    assert cache[k] in cache.Values && cache[r] in cache.Values;
    assert !Colder(cache[k], cache[r]);
  }

  lemma ColdestGo(cache: map<string, Entry>, removed: set<string>)
    requires removed <= cache.Keys && Coldest(cache, removed, cache.Keys)
    ensures forall k, r :: k in cache && k !in removed && r in removed ==> MayStay(cache[k], cache[r])
  {
    forall k, r | k in cache && k !in removed && r in removed
      ensures MayStay(cache[k], cache[r])
    {
      NotColderIffMayStay(cache[k], cache[r]);
    }
  }

  class Cache {
    var cache: map<string, Entry>
    var heap: set<string>

    constructor ()
      ensures cache == map[] && heap == {}
    {
      cache, heap := map[], {};
    }

    /** The head of the heap: an entry that is colder than no other one. */
    method Top(now: int) returns (top: string)
      requires heap != {} && heap <= cache.Keys && StrictWeakOrder(cache.Values)
      ensures top in heap && forall h :: h in heap ==> !Colder(cache[top], cache[h])
    {
      top :| top in heap;
      var left := heap - {top};
      while left != {}
        invariant top in heap && left <= heap
        invariant forall h :: h in heap && h !in left ==> !Colder(cache[top], cache[h])
        decreases |left|
      {
        var u :| u in left;
        ClockIsIrrelevant(cache[top], cache[u], now);
        if Cmp(cache[top], cache[u], now) {
          ghost var was := top;
          top := u;
          forall h | h in heap && h !in left
            ensures !Colder(cache[u], cache[h])
          {
            StillNotColder(cache.Values, cache[was], cache[u], cache[h]);
          }
        }
        left := left - {u};
      }
    }

    /** One step of the scan. */
    method Consider(it: string, room: nat, now: int, ghost seen: set<string>)
      requires heap <= seen <= cache.Keys && it in cache && it !in seen
      requires StrictWeakOrder(cache.Values) && Coldest(cache, heap, seen)
      requires |heap| <= room && (|heap| < room ==> heap == seen) && room > 0
      modifies this`heap
      ensures heap <= seen + {it} && Coldest(cache, heap, seen + {it})
      ensures |heap| <= room && (|heap| < room ==> heap == seen + {it})
    {
      if |heap| < room {
        heap := heap + {it};
      } else {
        var top := Top(now);
        var less := Cmp(cache[it], cache[top], now);
        Exchange(heap, seen, it, top);
        if less {
          heap := heap - {top};
          heap := heap + {it};
        }
      }
    }

    lemma Exchange(chosen: set<string>, seen: set<string>, it: string, top: string)
      requires chosen <= seen <= cache.Keys && it in cache && it !in seen && top in chosen
      requires StrictWeakOrder(cache.Values) && Coldest(cache, chosen, seen)
      requires forall h :: h in chosen ==> !Colder(cache[top], cache[h])
      ensures Colder(cache[it], cache[top]) ==> Coldest(cache, chosen - {top} + {it}, seen + {it})
      ensures !Colder(cache[it], cache[top]) ==> Coldest(cache, chosen, seen + {it})
    {
    }

    /** The pass over the map, in the order in which it is iterated. */
    method Scan(room: nat, order: seq<string>, now: int)
      requires heap == {} && room > 0 && StrictWeakOrder(cache.Values)
      requires forall k :: k in order <==> k in cache
      requires forall i, j :: 0 <= i < j < |order| ==> order[i] != order[j]
      modifies this`heap
      ensures heap <= cache.Keys && Coldest(cache, heap, cache.Keys)
      ensures |heap| <= room && (|heap| < room ==> heap == cache.Keys)
    {
      var i := 0;
      while i < |order|
        invariant 0 <= i <= |order|
        invariant heap <= Seen(order, i) <= cache.Keys && Coldest(cache, heap, Seen(order, i))
        invariant |heap| <= room && (|heap| < room ==> heap == Seen(order, i))
      {
        SeenNext(order, i);
        Consider(order[i], room, now, Seen(order, i));
        i := i + 1;
      }
      assert order[..i] == order;
      assert Seen(order, i) == cache.Keys;
    }

    /** The part of free_part_of_map that runs under the write lock: the `room` coldest entries go,
        the others stay as they are. */
    method FreePart(room: nat, order: seq<string>, now: int) returns (ghost removed: set<string>)
      requires heap == {} && room > 0 && StrictWeakOrder(cache.Values)
      requires forall k :: k in order <==> k in cache
      requires forall i, j :: 0 <= i < j < |order| ==> order[i] != order[j]
      modifies this
      ensures removed <= old(cache).Keys && cache == old(cache) - removed && heap == {}
      ensures |removed| == if |old(cache)| < room then |old(cache)| else room
      ensures Coldest(old(cache), removed, old(cache).Keys)
      ensures forall k, r :: k in old(cache) && k !in removed && r in removed ==> MayStay(old(cache)[k], old(cache)[r])
    {
      Scan(room, order, now);
      removed := heap;
      SubsetSize(removed, cache.Keys);
      assert |cache.Keys| == |cache|;
      ColdestGo(cache, removed);
      EraseHeap(now);
    }

    /** Pop and erase until the heap is empty. */
    method EraseHeap(now: int)
      requires heap <= cache.Keys && StrictWeakOrder(cache.Values)
      modifies this
      ensures cache == old(cache) - old(heap) && heap == {}
    {
      while heap != {}
        invariant heap <= old(heap) && heap <= cache.Keys && StrictWeakOrder(cache.Values)
        invariant cache == old(cache) - (old(heap) - heap)
        decreases |heap|
      {
        var it := Top(now);
        SubOrder(cache, cache - {it});
        cache := cache - {it};
        heap := heap - {it};
      }
    }

    lemma SubOrder(all: map<string, Entry>, some: map<string, Entry>)
      requires StrictWeakOrder(all.Values) && (forall k :: k in some ==> k in all && some[k] == all[k])
      ensures StrictWeakOrder(some.Values)
    {
    }
  }
}
