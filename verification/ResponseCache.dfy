/** The in-memory response cache: an LRU table whose entries also expire. */
module ResponseCache {
  import opened JsonRpc
  import opened Lru

  datatype Entry = Entry(data: Response, expiresAt: int)

  predicate Live(now: int, e: Entry) { now <= e.expiresAt }

  /** The answer a table gives to a lookup at time now. */
  function LookupIn(table: map<string, Entry>, now: int, key: string): Option<Response> {
    if key in table && Live(now, table[key]) then Some(table[key].data) else None
  }

  /** Entries may go, but none is changed or added. */
  predicate Shrunk(table: map<string, Entry>, table': map<string, Entry>) {
    forall k :: k in table' ==> k in table && table'[k] == table[k]
  }

  /** From time now on no lookup tells the two tables apart. */
  ghost predicate SameFrom(now: int, a: map<string, Entry>, b: map<string, Entry>) {
    forall k, t :: t >= now ==> LookupIn(a, t, k) == LookupIn(b, t, k)
  }

  function LiveOnly(now: int, table: map<string, Entry>): map<string, Entry> {
    map k | k in table && Live(now, table[k]) :: table[k]
  }

  lemma SweepIsInvisible(now: int, table: map<string, Entry>)
    ensures SameFrom(now, table, LiveOnly(now, table))
  {
  }

  function LiveKeys(now: int, keys: seq<string>, table: map<string, Entry>): seq<string>
    requires forall k :: k in keys ==> k in table
  {
    if |keys| == 0 then [] else
      var r := LiveKeys(now, keys[..|keys| - 1], table);
      var last := keys[|keys| - 1];
      if Live(now, table[last]) then r + [last] else r
  }

  lemma {:induction false} LiveKeysAreKeys(now: int, keys: seq<string>, table: map<string, Entry>)
    requires forall k :: k in keys ==> k in table
    ensures forall k :: k in LiveKeys(now, keys, table) <==> k in keys && Live(now, table[k])
  {
    if |keys| > 0 {
      LiveKeysAreKeys(now, keys[..|keys| - 1], table);
      assert keys == keys[..|keys| - 1] + [keys[|keys| - 1]];
    }
  }

  lemma {:induction false} WithoutMiddle(a: seq<string>, x: string, b: seq<string>)
    requires x !in a && x !in b
    ensures Without(a + [x] + b, x) == a + b
  {
    var s := a + [x] + b;
    if |b| == 0 {
      assert s[..|s| - 1] == a && a + b == a;
    } else {
      var b' := b[..|b| - 1];
      WithoutMiddle(a, x, b');
      assert s[..|s| - 1] == a + [x] + b';
      assert a + b == a + b' + [b[|b| - 1]];
    }
  }

  /** The table and the recency order once the first n keys have been swept. */
  function SweptTable(now: int, keys: seq<string>, n: nat, table: map<string, Entry>): map<string, Entry>
    requires n <= |keys|
  {
    map k | k in table && (Live(now, table[k]) || k !in keys[..n]) :: table[k]
  }

  function SweptOrder(now: int, keys: seq<string>, n: nat, table: map<string, Entry>): seq<string>
    requires n <= |keys| && forall k :: k in keys ==> k in table
  {
    LiveKeys(now, keys[..n], table) + keys[n..]
  }

  lemma SweepTableStep(now: int, keys: seq<string>, n: nat, table: map<string, Entry>)
    requires n < |keys| && Distinct(keys) && keys[n] in table
    ensures Live(now, table[keys[n]]) ==> SweptTable(now, keys, n + 1, table) == SweptTable(now, keys, n, table)
    ensures !Live(now, table[keys[n]]) ==>
      SweptTable(now, keys, n + 1, table) == SweptTable(now, keys, n, table) - {keys[n]}
    ensures keys[n] in SweptTable(now, keys, n, table)
  {
  }

  lemma SweepOrderStep(now: int, keys: seq<string>, n: nat, table: map<string, Entry>)
    requires n < |keys| && Distinct(keys) && forall k :: k in keys ==> k in table
    ensures SweptOrder(now, keys, n + 1, table) ==
      if Live(now, table[keys[n]]) then SweptOrder(now, keys, n, table)
      else Without(SweptOrder(now, keys, n, table), keys[n])
  {
    var key, done, rest := keys[n], LiveKeys(now, keys[..n], table), keys[n + 1..];
    LiveKeysAreKeys(now, keys[..n], table);
    assert keys[n..] == [key] + rest && done + keys[n..] == done + [key] + rest;
    assert keys[..n + 1][..n] == keys[..n];
    WithoutMiddle(done, key, rest);
  }

  lemma SweepEnds(now: int, keys: seq<string>, table: map<string, Entry>)
    requires (forall k :: k in keys ==> k in table) && forall k :: k in table ==> k in keys
    ensures SweptTable(now, keys, 0, table) == table && SweptOrder(now, keys, 0, table) == keys
    ensures SweptTable(now, keys, |keys|, table) == LiveOnly(now, table)
    ensures SweptOrder(now, keys, |keys|, table) == LiveKeys(now, keys, table)
  {
    assert keys[..|keys|] == keys;
  }

  // ----- A series of writes

  datatype Write = Skipped | Stored(key: string, entry: Entry)

  ghost predicate InStep(order: seq<string>, table: map<string, Entry>, capacity: nat) {
    && capacity > 0 && Distinct(order) && |order| <= capacity
    && forall k :: k in order <==> k in table
  }

  /** What one write does to recency and table: only the entry written is new. */
  predicate Written(order: seq<string>, table: map<string, Entry>, capacity: nat, w: Write,
                    order': seq<string>, table': map<string, Entry>)
    requires capacity > 0
  {
    match w
    case Skipped => order' == order && table' == table
    case Stored(key, entry) =>
      && order' == Touched(order, capacity, key)
      && key in table' && table'[key] == entry
      && forall k :: k in table' && k != key ==> k in table && table'[k] == table[k]
  }

  /** The keys written after position j. */
  function LaterKeys(ws: seq<Write>, j: nat): set<string> {
    set l | j < l < |ws| && ws[l].Stored? :: ws[l].key
  }

  /** The last write of the series to its key. */
  predicate Final(ws: seq<Write>, j: nat) {
    j < |ws| && ws[j].Stored? && ws[j].key !in LaterKeys(ws, j)
  }

  ghost predicate Accounted(order: seq<string>, table: map<string, Entry>, capacity: nat, ws: seq<Write>) {
    forall j: nat :: Final(ws, j) ==>
      && Aged(order, capacity, ws[j].key, LaterKeys(ws, j))
      && (ws[j].key in table ==> table[ws[j].key] == ws[j].entry)
  }

  lemma LaterKeysStep(ws: seq<Write>, w: Write, j: nat)
    requires j < |ws|
    ensures LaterKeys(ws + [w], j) == LaterKeys(ws, j) + if w.Stored? then {w.key} else {}
  {
    var all := ws + [w];
    assert all[|ws|] == w;
    forall k | k in LaterKeys(ws, j) ensures k in LaterKeys(all, j) {
      var l :| j < l < |ws| && ws[l].Stored? && ws[l].key == k;
      assert all[l] == ws[l];
    }
  }

  lemma WriteStep(order: seq<string>, table: map<string, Entry>, capacity: nat, ws: seq<Write>, w: Write,
                  order': seq<string>, table': map<string, Entry>)
    requires InStep(order, table, capacity) && Accounted(order, table, capacity, ws)
    requires Written(order, table, capacity, w, order', table')
    ensures Accounted(order', table', capacity, ws + [w])
  {
    var all := ws + [w];
    forall j: nat | Final(all, j)
      ensures Aged(order', capacity, all[j].key, LaterKeys(all, j))
      ensures all[j].key in table' ==> table'[all[j].key] == all[j].entry
    {
      if j < |ws| {
        LaterKeysStep(ws, w, j);
        assert Final(ws, j);
        if w.Stored? { TouchAges(order, capacity, ws[j].key, LaterKeys(ws, j), w.key); }
      } else {
        TouchRenews(order, capacity, w.key);
        assert LaterKeys(all, j) == {};
      }
    }
  }

  /** The last write to a key is readable exactly if fewer keys than fit were written after it, and until it expires. */
  ghost predicate Survivors(table: map<string, Entry>, capacity: nat, ws: seq<Write>) {
    forall j: nat, t: int :: Final(ws, j) ==>
      LookupIn(table, t, ws[j].key) ==
        if |LaterKeys(ws, j)| < capacity && Live(t, ws[j].entry) then Some(ws[j].entry.data) else None
  }

  lemma AccountedSurvive(order: seq<string>, table: map<string, Entry>, capacity: nat, ws: seq<Write>)
    requires InStep(order, table, capacity) && Accounted(order, table, capacity, ws)
    ensures Survivors(table, capacity, ws)
  {
    forall j: nat, t: int | Final(ws, j)
      ensures LookupIn(table, t, ws[j].key) ==
        if |LaterKeys(ws, j)| < capacity && Live(t, ws[j].entry) then Some(ws[j].entry.data) else None
    {
      AgeDecides(order, capacity, ws[j].key, LaterKeys(ws, j));
    }
  }

  class MemoryCache {
    const cache: LruCache<string, Entry>
    const ttl: int

    ghost predicate Valid()
      reads cache
    {
      cache.Valid()
    }

    /** What a caller can see: the answer a lookup would give at time now. */
    ghost function Lookup(now: int, key: string): Option<Response>
      reads cache
    {
      LookupIn(cache.table, now, key)
    }

    constructor (size: nat, ttl: int)
      requires size > 0
      ensures Valid() && fresh(cache) && this.ttl == ttl && cache.capacity == size && cache.table == map[]
    {
      var c := new LruCache<string, Entry>(size);
      cache, this.ttl := c, ttl;
    }

    method Get(now: int, key: string) returns (data: Option<Response>)
      requires Valid()
      modifies cache
      ensures Valid()
      ensures data == old(Lookup(now, key))
      ensures data.Some? || key !in old(cache.table) ==> cache.table == old(cache.table)
      ensures data.None? && key in old(cache.table) ==> cache.table == old(cache.table) - {key}
      ensures cache.order == if data.Some? then Without(old(cache.order), key) + [key] else Without(old(cache.order), key)
      ensures SameFrom(now, old(cache.table), cache.table)
    {
      var entry := cache.Get(key);
      if entry.None? {
        return None;
      }
      if now > entry.value.expiresAt {
        WithoutMiddle(Without(old(cache.order), key), key, []);
        cache.Remove(key);
        return None;
      }
      return Some(entry.value.data);
    }

    /** The entry is visible until its lifetime ends; others change only by one eviction, when the table is full. */
    method Set(now: int, key: string, value: Response)
      requires Valid()
      modifies cache
      ensures Valid()
      ensures Written(old(cache.order), old(cache.table), cache.capacity, Stored(key, Entry(value, now + ttl)),
                      cache.order, cache.table)
      ensures forall t :: Lookup(t, key) == if t <= now + ttl then Some(value) else None
      ensures forall k :: k in old(cache.table) && k !in cache.table ==>
        key !in old(cache.table) && |old(cache.order)| == cache.capacity && k == old(cache.order)[0]
    {
      cache.Add(key, Entry(value, now + ttl));
    }

    /** The sweep drops exactly the expired entries, and keeps recency. */
    method RemoveExpired(now: int)
      requires Valid()
      modifies cache
      ensures Valid()
      ensures cache.table == LiveOnly(now, old(cache.table))
      ensures forall k :: k in cache.table <==> k in old(cache.table) && now <= old(cache.table)[k].expiresAt
      ensures cache.order == LiveKeys(now, old(cache.order), old(cache.table))
    {
      ghost var table := cache.table;
      var keys := cache.Keys();
      SweepEnds(now, keys, table);
      for i := 0 to |keys|
        invariant Valid()
        invariant cache.order == SweptOrder(now, keys, i, table) && cache.table == SweptTable(now, keys, i, table)
      {
        var entry := cache.Peek(keys[i]);
        SweepTableStep(now, keys, i, table);
        SweepOrderStep(now, keys, i, table);
        if entry.Some? && now > entry.value.expiresAt {
          cache.Remove(keys[i]);
        }
      }
    }
  }
}
