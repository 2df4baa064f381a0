/** The contract of the LRU library: Contains and Peek leave recency alone, Get and Add refresh it. */
module Lru {
  import opened JsonRpc

  function Without<K(==)>(s: seq<K>, k: K): (r: seq<K>)
    ensures forall x :: x in r ==> x in s && x != k
    ensures forall x :: x in s && x != k ==> x in r
    ensures |r| <= |s|
    ensures k !in s ==> r == s
  {
    if |s| == 0 then [] else
      var r := Without(s[..|s| - 1], k);
      assert s == s[..|s| - 1] + [s[|s| - 1]];
      if s[|s| - 1] == k then r else r + [s[|s| - 1]]
  }

  predicate Distinct<K(==)>(s: seq<K>) {
    forall i, j :: 0 <= i < j < |s| ==> s[i] != s[j]
  }

  lemma {:induction false} WithoutKeepsDistinct<K>(s: seq<K>, k: K)
    requires Distinct(s)
    ensures Distinct(Without(s, k))
    ensures k in s ==> |Without(s, k)| == |s| - 1
  {
    if |s| > 0 {
      var p := s[..|s| - 1];
      WithoutKeepsDistinct(p, k);
      assert s[|s| - 1] !in p;
      assert s[|s| - 1] !in Without(p, k);
      assert s == p + [s[|s| - 1]];
    }
  }

  // ----- Who is evicted

  /** The order after a key has been added. */
  function Touched<K(==)>(order: seq<K>, capacity: nat, k: K): seq<K>
    requires capacity > 0
  {
    if k in order then Without(order, k) + [k]
    else if |order| < capacity then order + [k]
    else order[1..] + [k]
  }

  /** The keys used more recently than k. */
  function Newer<K(==)>(order: seq<K>, k: K): set<K> {
    if |order| == 0 || order[|order| - 1] == k then {} else Newer(order[..|order| - 1], k) + {order[|order| - 1]}
  }

  /** d are the keys used since k was: they are the newer ones, or k has been evicted by as many as fit. */
  predicate Aged<K(==)>(order: seq<K>, capacity: nat, k: K, d: set<K>) {
    if k in order then Newer(order, k) == d else |d| >= capacity
  }

  lemma {:induction false} NewerBounded<K>(order: seq<K>, k: K)
    requires Distinct(order) && k in order
    ensures |Newer(order, k)| < |order|
    ensures forall x :: x in Newer(order, k) ==> x in order && x != k
  {
    var last := |order| - 1;
    if order[last] != k {
      assert order == order[..last] + [order[last]];
      NewerBounded(order[..last], k);
    }
  }

  /** Everything else is newer than the least recently used key. */
  lemma {:induction false} NewerThanOldest<K>(order: seq<K>)
    requires Distinct(order) && |order| > 0
    ensures |Newer(order, order[0])| == |order| - 1
  {
    var last := |order| - 1;
    if last > 0 {
      var front := order[..last];
      NewerThanOldest(front);
      NewerBounded(front, order[0]);
      assert order[last] !in front;
    }
  }

  /** For any other key the least recently used one does not matter. */
  lemma {:induction false} NewerWithoutOldest<K>(order: seq<K>, k: K)
    requires |order| > 0 && k in order[1..]
    ensures Newer(order[1..], k) == Newer(order, k)
  {
    var last := |order| - 1;
    if order[last] != k {
      assert order[1..] == order[1..last] + [order[last]];
      assert order[..last][1..] == order[1..last] && order[1..][..last - 1] == order[1..last];
      NewerWithoutOldest(order[..last], k);
    }
  }

  lemma {:induction false} NewerOfConcat<K>(order: seq<K>, k: K, x: K)
    requires x != k
    ensures Newer(order + [x], k) == Newer(order, k) + {x}
  {
    assert (order + [x])[..|order|] == order;
  }

  lemma {:induction false} NewerOfWithout<K>(order: seq<K>, k: K, x: K)
    requires x != k
    ensures Newer(Without(order, x), k) == Newer(order, k) - {x}
  {
    if |order| > 0 {
      var front, last := order[..|order| - 1], order[|order| - 1];
      NewerOfWithout(front, k, x);
      if last != x {
        var rest := Without(front, x);
        assert (rest + [last])[..|rest|] == rest;
      }
    }
  }

  /** A key not among them is used while the cache is full: the least recently used one goes. */
  lemma EvictionAges<K>(order: seq<K>, capacity: nat, k: K, x: K)
    requires capacity > 0 && Distinct(order) && |order| == capacity && k in order && x !in order
    ensures Aged(order[1..] + [x], capacity, k, Newer(order, k) + {x})
  {
    NewerBounded(order, k);
    assert order == [order[0]] + order[1..];
    if k == order[0] {
      NewerThanOldest(order);
      assert x !in Newer(order, k) && k !in order[1..];
    } else {
      NewerWithoutOldest(order, k);
      NewerOfConcat(order[1..], k, x);
    }
  }

  /** A key ages by every other key that is used. */
  lemma TouchAges<K>(order: seq<K>, capacity: nat, k: K, d: set<K>, x: K)
    requires capacity > 0 && Distinct(order) && |order| <= capacity
    requires x != k && Aged(order, capacity, k, d)
    ensures Aged(Touched(order, capacity, x), capacity, k, d + {x})
  {
    if k in order {
      if x in order {
        NewerOfWithout(order, k, x);
        NewerOfConcat(Without(order, x), k, x);
        assert Newer(order, k) - {x} + {x} == d + {x};
      } else if |order| < capacity {
        NewerOfConcat(order, k, x);
      } else {
        EvictionAges(order, capacity, k, x);
      }
    } else {
      GoneAges(order, capacity, k, d, x);
    }
  }

  lemma GoneAges<K>(order: seq<K>, capacity: nat, k: K, d: set<K>, x: K)
    requires capacity > 0 && |order| <= capacity && k !in order && x != k && |d| >= capacity
    ensures Aged(Touched(order, capacity, x), capacity, k, d + {x})
  {
    assert x in d ==> d + {x} == d;
    assert k !in Touched(order, capacity, x);
  }

  /** A key just used has nothing newer. */
  lemma TouchRenews<K>(order: seq<K>, capacity: nat, k: K)
    requires capacity > 0
    ensures k in Touched(order, capacity, k) && Aged(Touched(order, capacity, k), capacity, k, {})
  {
    var t := Touched(order, capacity, k);
    assert t[|t| - 1] == k;
  }

  /** A key is still there exactly if fewer other keys than the capacity have been used since. */
  lemma AgeDecides<K>(order: seq<K>, capacity: nat, k: K, d: set<K>)
    requires Distinct(order) && |order| <= capacity && Aged(order, capacity, k, d)
    ensures k in order <==> |d| < capacity
  {
    if k in order { NewerBounded(order, k); }
  }

  class LruCache<K(==), V> {
    const capacity: nat
    /** Keys, least recently used first. */
    var order: seq<K>
    var table: map<K, V>

    ghost predicate Valid()
      reads this
    {
      && capacity > 0
      && |order| <= capacity
      && Distinct(order)
      && (forall k :: k in order ==> k in table)
      && (forall k :: k in table ==> k in order)
    }

    constructor (capacity: nat)
      requires capacity > 0
      ensures Valid() && this.capacity == capacity && order == [] && table == map[]
    {
      this.capacity, order, table := capacity, [], map[];
    }

    method Contains(k: K) returns (found: bool)
      ensures found <==> k in table
    {
      found := k in table;
    }

    method Peek(k: K) returns (v: Option<V>)
      ensures v == if k in table then Some(table[k]) else None
    {
      v := if k in table then Some(table[k]) else None;
    }

    method Get(k: K) returns (v: Option<V>)
      requires Valid()
      modifies this
      ensures Valid() && table == old(table)
      ensures v == if k in table then Some(table[k]) else None
      ensures order == if k in table then Without(old(order), k) + [k] else old(order)
    {
      if k !in table {
        return None;
      }
      WithoutKeepsDistinct(order, k);
      order := Without(order, k) + [k];
      return Some(table[k]);
    }

    method Add(k: K, v: V)
      requires Valid()
      modifies this
      ensures Valid() && order == Touched(old(order), capacity, k)
      ensures k in table && table[k] == v
      ensures k in old(table) ==> order == Without(old(order), k) + [k] && table == old(table)[k := v]
      ensures k !in old(table) && |old(order)| < capacity ==> order == old(order) + [k] && table == old(table)[k := v]
      ensures k !in old(table) && |old(order)| == capacity ==>
        order == old(order)[1..] + [k] && table == (old(table) - {old(order)[0]})[k := v]
    {
      if k in table {
        WithoutKeepsDistinct(order, k);
        order, table := Without(order, k) + [k], table[k := v];
      } else if |order| < capacity {
        order, table := order + [k], table[k := v];
      } else {
        var oldest := order[0];
        assert order == [oldest] + order[1..];
        order, table := order[1..] + [k], (table - {oldest})[k := v];
      }
    }

    method Remove(k: K)
      requires Valid()
      modifies this
      ensures Valid()
      ensures order == Without(old(order), k) && table == old(table) - {k}
    {
      WithoutKeepsDistinct(order, k);
      order, table := Without(order, k), table - {k};
    }

    method Keys() returns (ks: seq<K>)
      ensures ks == order
    {
      ks := order;
    }

    method Purge()
      requires Valid()
      modifies this
      ensures Valid() && order == [] && table == map[]
    {
      order, table := [], map[];
    }
  }
}
