/** Deduplication of upstream events over a bounded window of recently accepted keys. */
module Dedup {
  import opened JsonRpc
  import opened Lru
  import opened Text
  import Fnv

  datatype SubType = NewHeads | Logs | PendingTransactions | OtherType(name: string)

  /** What parsing an event's payload for its key yields; absent parts mean it did not parse. */
  datatype Payload =
    | HeadPayload(hash: Option<string>)
    | LogPayload(blockHash: Option<string>, txIndex: string, logIndex: string)
    | TxPayload(txHash: Option<string>)
    | OtherPayload(bytes: seq<bv8>)

  function NonEmpty(s: Option<string>): Option<string> {
    if s.Some? && s.value == "" then None else s
  }

  /** generateKey: absent when the event cannot be identified. */
  function KeyOf(p: Payload): Option<string> {
    match p
    case HeadPayload(h) => if NonEmpty(h).Some? then Some("block:" + h.value) else None
    case LogPayload(h, t, l) =>
      if NonEmpty(h).Some? && t != "" && l != "" then Some("log:" + h.value + ":" + t + ":" + l) else None
    case TxPayload(h) => if NonEmpty(h).Some? then Some("tx:" + h.value) else None
    case OtherPayload(b) => Some("unknown:" + Fnv.Hex(Fnv.Hash(b)))
  }

  /** Two logs get the same key only if they are the same log of the same block. */
  lemma LogKeysSeparate(p: Payload, q: Payload)
    requires p.LogPayload? && q.LogPayload? && KeyOf(p).Some? && KeyOf(p) == KeyOf(q)
    requires NoColon(p.blockHash.value) && NoColon(q.blockHash.value) && NoColon(p.txIndex) && NoColon(q.txIndex)
    ensures p == q
  {
    var a, b := p.txIndex + ":" + p.logIndex, q.txIndex + ":" + q.logIndex;
    var k, k' := KeyOf(p).value, KeyOf(q).value;
    assert k == "log:" + (p.blockHash.value + ":" + a) && k' == "log:" + (q.blockHash.value + ":" + b);
    assert k[4..] == p.blockHash.value + ":" + a && k'[4..] == q.blockHash.value + ":" + b;
    ColonSplitsOnce(p.blockHash.value, a, q.blockHash.value, b);
    ColonSplitsOnce(p.txIndex, p.logIndex, q.txIndex, q.logIndex);
  }

  /** Which events have no key: heads and transactions without a hash, logs with a part missing. */
  lemma KeylessEvents(p: Payload)
    ensures KeyOf(p).None? <==> match p
      case HeadPayload(h) => h == None || h == Some("")
      case LogPayload(h, t, l) => h == None || h == Some("") || t == "" || l == ""
      case TxPayload(h) => h == None || h == Some("")
      case OtherPayload(_) => false
  {
  }

  lemma PrefixSplits(prefix: string, a: string, b: string)
    ensures prefix + a == prefix + b <==> a == b
  {
    assert (prefix + a)[|prefix|..] == a && (prefix + b)[|prefix|..] == b;
  }

  /** The first letter tells the event types apart. */
  lemma TypesNeverMeet(p: Payload, q: Payload)
    requires KeyOf(p).Some? && KeyOf(p) == KeyOf(q)
    ensures p.HeadPayload? <==> q.HeadPayload?
    ensures p.LogPayload? <==> q.LogPayload?
    ensures p.TxPayload? <==> q.TxPayload?
    ensures p.OtherPayload? <==> q.OtherPayload?
  {
    var k := KeyOf(p).value;
    assert k == KeyOf(q).value;
    assert forall r :: (r == p || r == q) ==>
      && (r.HeadPayload? <==> k[0] == 'b') && (r.LogPayload? <==> k[0] == 'l')
      && (r.TxPayload? <==> k[0] == 't') && (r.OtherPayload? <==> k[0] == 'u');
  }

  predicate ColonFree(p: Payload) {
    p.LogPayload? && p.blockHash.Some? ==> NoColon(p.blockHash.value) && NoColon(p.txIndex)
  }

  /** Two events share a key exactly when they are the same event, or of unknown type with colliding hashes. */
  lemma KeysIdentifyEvents(p: Payload, q: Payload)
    requires KeyOf(p).Some? && ColonFree(p) && ColonFree(q)
    ensures KeyOf(p) == KeyOf(q) <==>
      p == q || (p.OtherPayload? && q.OtherPayload? && Fnv.Hash(p.bytes) == Fnv.Hash(q.bytes))
  {
    if KeyOf(p) == KeyOf(q) {
      TypesNeverMeet(p, q);
      match p
      case HeadPayload(h) => PrefixSplits("block:", h.value, q.hash.value);
      case LogPayload(_, _, _) => LogKeysSeparate(p, q);
      case TxPayload(h) => PrefixSplits("tx:", h.value, q.txHash.value);
      case OtherPayload(b) =>
        PrefixSplits("unknown:", Fnv.Hex(Fnv.Hash(b)), Fnv.Hex(Fnv.Hash(q.bytes)));
        Fnv.HexIsInjective(Fnv.Hash(b), Fnv.Hash(q.bytes));
    }
  }

  /** Events of an unknown type that differ in exactly one byte get different keys. */
  lemma UnknownKeysSeparate(before: seq<bv8>, b: bv8, c: bv8, after: seq<bv8>)
    requires b != c
    ensures KeyOf(OtherPayload(before + [b] + after)) != KeyOf(OtherPayload(before + [c] + after))
  {
    var x, y := Fnv.Hash(before + [b] + after), Fnv.Hash(before + [c] + after);
    Fnv.OneByteSeparates(before, b, c, after);
    if "unknown:" + Fnv.Hex(x) == "unknown:" + Fnv.Hex(y) {
      assert ("unknown:" + Fnv.Hex(x))[8..] == Fnv.Hex(x) && ("unknown:" + Fnv.Hex(y))[8..] == Fnv.Hex(y);
      Fnv.HexIsInjective(x, y);
    }
  }

  // ----- The window

  function LastN(s: seq<string>, n: nat): seq<string> {
    if |s| <= n then s else s[|s| - n..]
  }

  /** Suppressed: the event has a key, and it is among the last `size` accepted keys. */
  predicate Suppressed(accepted: seq<string>, size: nat, key: Option<string>) {
    key.Some? && key.value in LastN(accepted, size)
  }

  /** k is at one of the last n positions of s. */
  ghost predicate AmongLast(s: seq<string>, n: nat, k: string) {
    exists i :: 0 <= i < |s| && i >= |s| - n && s[i] == k
  }

  lemma SuppressedMeans(accepted: seq<string>, size: nat, key: Option<string>)
    ensures Suppressed(accepted, size, key) <==> key.Some? && AmongLast(accepted, size, key.value)
  {
    var w := LastN(accepted, size);
    var skipped := |accepted| - |w|;
    assert forall i :: 0 <= i < |w| ==> w[i] == accepted[skipped + i];
    assert forall i :: skipped <= i < |accepted| ==> accepted[i] == w[i - skipped];
  }

  function Accept(accepted: seq<string>, size: nat, key: Option<string>): seq<string> {
    if key.None? || Suppressed(accepted, size, key) then accepted else accepted + [key.value]
  }

  /** The keys accepted over a whole stream, oldest first. */
  function Accepted(keys: seq<Option<string>>, size: nat): seq<string> {
    if |keys| == 0 then [] else Accept(Accepted(keys[..|keys| - 1], size), size, keys[|keys| - 1])
  }

  predicate SpacedOut(a: seq<string>, size: nat) {
    forall i, j :: 0 <= i < j < |a| && j - i <= size ==> a[i] != a[j]
  }

  lemma AcceptKeepsSpaced(a: seq<string>, size: nat, key: Option<string>)
    requires SpacedOut(a, size)
    ensures SpacedOut(Accept(a, size, key), size)
  {
  }

  /** Any size + 1 consecutive accepted keys are pairwise distinct. */
  lemma {:induction false} AcceptedKeysDistinct(keys: seq<Option<string>>, size: nat)
    ensures SpacedOut(Accepted(keys, size), size)
  {
    if |keys| > 0 {
      AcceptedKeysDistinct(keys[..|keys| - 1], size);
      AcceptKeepsSpaced(Accepted(keys[..|keys| - 1], size), size, keys[|keys| - 1]);
    }
  }

  /** Every key of the stream is accepted, at its first arrival if not later, and no other ever is. */
  lemma {:induction false} AcceptedKeysOccur(keys: seq<Option<string>>, size: nat, k: string)
    ensures k in Accepted(keys, size) <==> Some(k) in keys
  {
    if |keys| > 0 {
      var p, last := keys[..|keys| - 1], keys[|keys| - 1];
      AcceptedKeysOccur(p, size, k);
      assert keys == p + [last];
      SuppressedOccurs(Accepted(p, size), size, last);
    }
  }

  lemma SuppressedOccurs(accepted: seq<string>, size: nat, key: Option<string>)
    ensures forall k :: k in Accept(accepted, size, key) <==> k in accepted || key == Some(k)
  {
  }

  class Deduplicator {
    const cache: LruCache<string, bool>
    const size: nat
    /** Every key this object has accepted. */
    ghost var accepted: seq<string>

    ghost predicate Valid()
      reads this, cache
    {
      cache.Valid() && size == cache.capacity && cache.order == LastN(accepted, size) && SpacedOut(accepted, size)
    }

    constructor (size: nat)
      requires size > 0
      ensures Valid() && fresh(cache) && this.size == size && accepted == []
    {
      cache := new LruCache<string, bool>(size);
      this.size, accepted := size, [];
    }

    /** Contains does not refresh a key, so the cache holds exactly the last `size` accepted keys. */
    method IsDuplicate(key: Option<string>) returns (duplicate: bool)
      requires Valid()
      modifies this, cache
      ensures Valid()
      ensures duplicate <==> Suppressed(old(accepted), size, key)
      ensures accepted == Accept(old(accepted), size, key)
      ensures duplicate <==> key.Some? && AmongLast(old(accepted), size, key.value)
      ensures accepted == old(accepted) + if key.None? || duplicate then [] else [key.value]
      ensures key.None? ==> cache.order == old(cache.order) && cache.table == old(cache.table)
    {
      AcceptKeepsSpaced(accepted, size, key);
      SuppressedMeans(accepted, size, key);
      if key.None? {
        return false;
      }
      var seen := cache.Contains(key.value);
      if seen {
        return true;
      }
      cache.Add(key.value, true);
      accepted := accepted + [key.value];
      return false;
    }

    method Clear()
      requires Valid()
      modifies this, cache
      ensures Valid() && accepted == []
    {
      cache.Purge();
      accepted := [];
    }
  }
}
