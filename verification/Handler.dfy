/** The proxy handler: answers from the cache where it may, gathers the misses and scatters the replies. */
module Handler {
  import opened JsonRpc
  import opened CacheKeys
  import opened ResponseCache

  // ----- Gathering and scattering

  /** Positions of the requests the cache did not answer. */
  function MissIndices(hits: seq<Option<Response>>): seq<nat> {
    if |hits| == 0 then [] else
      var n := |hits| - 1;
      MissIndices(hits[..n]) + if hits[n].None? then [n] else []
  }

  /** How many misses come before position i. */
  function Rank(hits: seq<Option<Response>>, i: nat): nat
    requires i <= |hits|
  {
    |MissIndices(hits[..i])|
  }

  /** The requests sent on, in the order of their slots. */
  function Missing(reqs: seq<Request>, idx: seq<nat>): seq<Request>
    requires forall i :: i in idx ==> i < |reqs|
  {
    seq(|idx|, k requires 0 <= k < |idx| => assert idx[k] in idx; reqs[idx[k]])
  }

  function Failures(missing: seq<Request>): seq<Response> {
    seq(|missing|, k requires 0 <= k < |missing| => AllFailed(missing[k].id))
  }

  /** Slot by slot: the cached response under the caller's own ID, or the reply at the slot's rank; None is nil. */
  function Merged(reqs: seq<Request>, hits: seq<Option<Response>>, replies: seq<Response>): seq<Option<Response>>
    requires |hits| == |reqs|
  {
    seq(|reqs|, i requires 0 <= i < |reqs| =>
      if hits[i].Some? then Some(hits[i].value.(id := reqs[i].id))
      else if Rank(hits, i) < |replies| then Some(replies[Rank(hits, i)])
      else None)
  }

  /** The slots the cache fills. */
  function OwnSlots(reqs: seq<Request>, hits: seq<Option<Response>>): seq<Option<Response>>
    requires |hits| == |reqs|
  {
    seq(|reqs|, i requires 0 <= i < |reqs| => if hits[i].Some? then Some(hits[i].value.(id := reqs[i].id)) else None)
  }

  lemma MergedWithNothing(reqs: seq<Request>, hits: seq<Option<Response>>)
    requires |hits| == |reqs|
    ensures Merged(reqs, hits, []) == OwnSlots(reqs, hits)
  {
  }

  /** The misses, in order: increasing, and exactly the complement of the hits. */
  lemma {:induction false} MissesComplementHits(hits: seq<Option<Response>>)
    ensures forall j, k :: 0 <= j < k < |MissIndices(hits)| ==> MissIndices(hits)[j] < MissIndices(hits)[k]
    ensures forall i: nat :: i in MissIndices(hits) <==> i < |hits| && hits[i].None?
  {
    if |hits| > 0 {
      var n := |hits| - 1;
      var front := MissIndices(hits[..n]);
      MissesComplementHits(hits[..n]);
      assert forall j :: 0 <= j < |front| ==> front[j] in front;
    }
  }

  /** Rank and MissIndices are inverse: slot i is the Rank(i)-th miss, and the k-th miss has rank k. */
  lemma {:induction false} RankInverts(hits: seq<Option<Response>>, i: nat)
    requires i < |hits| && hits[i].None?
    ensures Rank(hits, i) < |MissIndices(hits)| && MissIndices(hits)[Rank(hits, i)] == i
  {
    var n := |hits| - 1;
    if i < n {
      RankInverts(hits[..n], i);
      assert hits[..n][..i] == hits[..i];
    }
  }

  lemma MissHasItsRank(hits: seq<Option<Response>>, k: nat)
    requires k < |MissIndices(hits)|
    ensures MissIndices(hits)[k] < |hits| && hits[MissIndices(hits)[k]].None? && Rank(hits, MissIndices(hits)[k]) == k
  {
    MissesComplementHits(hits);
    var i := MissIndices(hits)[k];
    assert i in MissIndices(hits);
    RankInverts(hits, i);
  }

  /** Writing one more reply to the slot of its miss. */
  lemma MergeStep(reqs: seq<Request>, hits: seq<Option<Response>>, replies: seq<Response>, k: nat)
    requires |hits| == |reqs| && k < |replies| && k < |MissIndices(hits)|
    ensures MissIndices(hits)[k] < |reqs|
    ensures Merged(reqs, hits, replies[..k + 1]) ==
      Merged(reqs, hits, replies[..k])[MissIndices(hits)[k] := Some(replies[k])]
  {
    MissHasItsRank(hits, k);
    var m := MissIndices(hits)[k];
    var before, after := Merged(reqs, hits, replies[..k]), Merged(reqs, hits, replies[..k + 1]);
    forall i | 0 <= i < |reqs| && i != m ensures after[i] == before[i] {
      if hits[i].None? {
        RankInverts(hits, i);
      }
    }
  }

  /** No slot stays nil exactly when there is a reply for every miss. */
  lemma NoSlotIsNil(reqs: seq<Request>, hits: seq<Option<Response>>, replies: seq<Response>)
    requires |hits| == |reqs|
    ensures (forall i :: 0 <= i < |reqs| ==> Merged(reqs, hits, replies)[i].Some?) <==> |replies| >= |MissIndices(hits)|
  {
    var out, ms := Merged(reqs, hits, replies), MissIndices(hits);
    if |replies| >= |ms| {
      forall i | 0 <= i < |reqs| ensures out[i].Some? {
        if hits[i].None? { RankInverts(hits, i); }
      }
    } else {
      MissHasItsRank(hits, |replies|);
      assert out[ms[|replies|]].None?;
    }
  }

  /** After a failed batch every missed slot holds an error under its own request's ID. */
  lemma FailedSlotsKeepTheirIDs(reqs: seq<Request>, hits: seq<Option<Response>>, i: nat)
    requires |hits| == |reqs| && i < |reqs| && hits[i].None?
    requires forall m :: m in MissIndices(hits) ==> m < |reqs|
    ensures Merged(reqs, hits, Failures(Missing(reqs, MissIndices(hits))))[i] == Some(AllFailed(reqs[i].id))
    ensures var slot := Merged(reqs, hits, Failures(Missing(reqs, MissIndices(hits))))[i];
      && slot.Some? && slot.value.id == reqs[i].id && slot.value.HasError() && slot.value.result.None?
      && slot.value.error.value.code == -32603 && slot.value.error.value.message == "all upstreams failed"
  {
    RankInverts(hits, i);
  }

  /** Every filled slot carries its own request's ID. */
  predicate OwnIds(reqs: seq<Request>, slots: seq<Option<Response>>)
    requires |slots| == |reqs|
  {
    forall i :: 0 <= i < |reqs| && slots[i].Some? ==> slots[i].value.id == reqs[i].id
  }

  /** Positions serve for IDs exactly when the replies come in request order: with one ID each, in the order of the misses. */
  lemma OwnIdsIffRepliesInOrder(reqs: seq<Request>, hits: seq<Option<Response>>, replies: seq<Response>)
    requires |hits| == |reqs| && |replies| <= |MissIndices(hits)|
    requires forall m :: m in MissIndices(hits) ==> m < |reqs|
    ensures OwnIds(reqs, Merged(reqs, hits, replies)) <==>
      forall k :: 0 <= k < |replies| ==> replies[k].id == Missing(reqs, MissIndices(hits))[k].id
  {
    var slots, idx, missing := Merged(reqs, hits, replies), MissIndices(hits), Missing(reqs, MissIndices(hits));
    if OwnIds(reqs, slots) {
      forall k | 0 <= k < |replies| ensures replies[k].id == missing[k].id {
        MissHasItsRank(hits, k);
        assert slots[idx[k]] == Some(replies[k]);
      }
    } else {
      var i :| 0 <= i < |reqs| && slots[i].Some? && slots[i].value.id != reqs[i].id;
      RankInverts(hits, i);
      assert missing[Rank(hits, i)] == reqs[i];
    }
  }

  /** Two replies that changed places: each of the two callers gets the other's response. */
  lemma SwappedRepliesAreMisfiled(a: Request, b: Request, ra: Response, rb: Response)
    requires a.id != b.id && ra.id == a.id && rb.id == b.id
    ensures Merged([a, b], [None, None], [rb, ra]) == [Some(rb), Some(ra)]
    ensures !OwnIds([a, b], Merged([a, b], [None, None], [rb, ra]))
  {
    var hits: seq<Option<Response>> := [None, None];
    assert hits[..0] == [] && hits[..1] == [None] && hits[..1][..0] == [];
    assert Rank(hits, 0) == 0 && Rank(hits, 1) == 1;
    var out := Merged([a, b], hits, [rb, ra]);
    assert out == [out[0], out[1]];
    assert out[0].value.id != a.id;
  }

  // ----- What the cache holds, and where every answer came from

  datatype Policy = Policy(disabled: set<string>, hash: Json -> string, ttl: int)
  {
    predicate Cacheable(req: Request) { IsCacheable(disabled, req.rpcMethod, req.params) }

    function Key(group: string, req: Request): string { CacheKey(hash, group, req.rpcMethod, req.params) }

    /** The cache's answer to a request, None for a miss. */
    function Cached(table: map<string, Entry>, now: int, group: string, req: Request): Option<Response> {
      if Cacheable(req) then LookupIn(table, now, Key(group, req)) else None
    }

    /** The cache's answers to a batch, request i being looked up at clock(i). */
    function Hits(table: map<string, Entry>, clock: nat -> int, group: string, reqs: seq<Request>): seq<Option<Response>> {
      seq(|reqs|, i requires 0 <= i < |reqs| => Cached(table, clock(i), group, reqs[i]))
    }
  }

  /** An upstream's response to a request, taken by the handler at time at. */
  datatype Record = Record(group: string, req: Request, resp: Response, at: int)

  /** An answer given to a caller, the cache having been asked at time at. */
  datatype Given = Given(group: string, req: Request, resp: Response, at: int)

  /** The record that put entry e under key k. */
  predicate Stored(p: Policy, r: Record, k: string, e: Entry) {
    && p.Cacheable(r.req) && p.Key(r.group, r.req) == k
    && r.resp.IsSuccess() && e == Entry(r.resp, r.at + p.ttl)
  }

  predicate Sound(p: Policy, log: seq<Record>, table: map<string, Entry>) {
    forall k :: k in table ==> exists i :: 0 <= i < |log| && Stored(p, log[i], k, table[k])
  }

  /** An upstream answered this very request with this response. */
  predicate FromUpstream(r: Record, g: Given) {
    r.group == g.group && r.req == g.req && r.resp == g.resp
  }

  /** The cache may answer g with what r recorded. */
  predicate SharesKey(p: Policy, r: Record, g: Given) {
    && p.Cacheable(r.req) && p.Cacheable(g.req) && p.Key(r.group, r.req) == p.Key(g.group, g.req)
    && r.resp.IsSuccess()
  }

  /** A success an upstream gave, no longer ago than the TTL, to a request with the same key. */
  predicate FromCache(p: Policy, r: Record, g: Given) {
    SharesKey(p, r, g) && g.resp == r.resp.(id := g.req.id) && g.at <= r.at + p.ttl
  }

  predicate Justified(p: Policy, log: seq<Record>, g: Given) {
    || g.resp == AllFailed(g.req.id)
    || exists i :: 0 <= i < |log| && (FromUpstream(log[i], g) || FromCache(p, log[i], g))
  }

  lemma HistoryGrows(p: Policy, log: seq<Record>, more: seq<Record>, table: map<string, Entry>, given: set<Given>)
    ensures Sound(p, log, table) ==> Sound(p, log + more, table)
    ensures (forall g :: g in given ==> Justified(p, log, g)) ==> forall g :: g in given ==> Justified(p, log + more, g)
  {
    assert forall i :: 0 <= i < |log| ==> (log + more)[i] == log[i];
  }

  lemma ShrunkIsSound(p: Policy, log: seq<Record>, table: map<string, Entry>, table': map<string, Entry>)
    requires Sound(p, log, table) && Shrunk(table, table')
    ensures Sound(p, log, table')
  {
  }

  lemma StoreKeepsSound(p: Policy, log: seq<Record>, r: Record, table: map<string, Entry>, table': map<string, Entry>)
    requires Sound(p, log, table)
    requires p.Cacheable(r.req) && r.resp.IsSuccess()
    requires forall k :: k in table' && k != p.Key(r.group, r.req) ==> k in table && table'[k] == table[k]
    requires p.Key(r.group, r.req) in table' && table'[p.Key(r.group, r.req)] == Entry(r.resp, r.at + p.ttl)
    ensures Sound(p, log + [r], table')
  {
    var log' := log + [r];
    forall k | k in table' ensures exists i :: 0 <= i < |log'| && Stored(p, log'[i], k, table'[k]) {
      if k == p.Key(r.group, r.req) {
        assert Stored(p, log'[|log|], k, table'[k]);
      } else {
        var i :| 0 <= i < |log| && Stored(p, log[i], k, table[k]);
        assert Stored(p, log'[i], k, table'[k]);
      }
    }
  }

  lemma HitIsJustified(p: Policy, log: seq<Record>, table: map<string, Entry>, g: Given)
    requires Sound(p, log, table) && p.Cached(table, g.at, g.group, g.req).Some?
    requires g.resp == p.Cached(table, g.at, g.group, g.req).value.(id := g.req.id)
    ensures Justified(p, log, g)
  {
  }

  // ----- The cached proxy refines the uncached one

  /**
   may(group, req, resp): an upstream of the group could answer req with resp. Among the requests answered by
   upstreams and the answers given, a success may be repeated under the caller's ID wherever the key is the same.
   */
  ghost predicate KeyDetermined(p: Policy, may: (string, Request, Response) -> bool, log: seq<Record>, given: set<Given>) {
    forall r, g :: r in log && g in given && SharesKey(p, r, g) && may(r.group, r.req, r.resp) ==>
      may(g.group, g.req, r.resp.(id := g.req.id))
  }

  /** What a proxy without a cache could have answered. */
  predicate UncachedCould(may: (string, Request, Response) -> bool, g: Given) {
    g.resp == AllFailed(g.req.id) || may(g.group, g.req, g.resp)
  }

  /** Upstreams ignore the caller's ID and the case of string parameters. */
  ghost predicate CaseBlind(may: (string, Request, Response) -> bool) {
    forall g, r, resp, r': Request ::
      (may(g, r, resp) && r'.rpcMethod == r.rpcMethod && SameUpToCase(Explicit(r.params), Explicit(r'.params)))
      ==> may(g, r', resp.(id := r'.id))
  }

  /** Answers of case-blind upstreams are determined by the key, as far as the digests of these requests do not collide. */
  lemma CaseBlindAnswersAreKeyDetermined(p: Policy, may: (string, Request, Response) -> bool,
                                         log: seq<Record>, given: set<Given>)
    requires CaseBlind(may)
    requires forall r, g :: r in log && g in given ==> Separates(p.hash, r.req.params, g.req.params)
    ensures KeyDetermined(p, may, log, given)
  {
    forall r, g | r in log && g in given && SharesKey(p, r, g) && may(r.group, r.req, r.resp)
      ensures may(g.group, g.req, r.resp.(id := g.req.id))
    {
      assert Separates(p.hash, r.req.params, g.req.params);
      KeysIdentifyRequests(p.hash, r.group, r.req.rpcMethod, r.req.params, g.group, g.req.rpcMethod, g.req.params);
    }
  }

  // ----- What a batch leaves behind

  /** One record per reply, each paired with the request of its slot; clock(|reqs| + k) is when reply k is kept. */
  function Records(clock: nat -> int, group: string, reqs: seq<Request>, idx: seq<nat>, replies: seq<Response>): seq<Record>
    requires |replies| <= |idx| && forall i :: i in idx ==> i < |reqs|
  {
    seq(|replies|, k requires 0 <= k < |replies| =>
      Record(group, Missing(reqs, idx)[k], replies[k], clock(|reqs| + k)))
  }

  ghost function Delivered(clock: nat -> int, group: string, reqs: seq<Request>, slots: seq<Option<Response>>): set<Given>
    requires |slots| == |reqs|
  {
    set i | 0 <= i < |reqs| && slots[i].Some? :: Given(group, reqs[i], slots[i].value, clock(i))
  }

  lemma ReplyIsJustified(p: Policy, log: seq<Record>, more: seq<Record>, clock: nat -> int, group: string,
    reqs: seq<Request>, idx: seq<nat>, replies: seq<Response>, k: nat, g: Given)
    requires k < |replies| <= |idx| && forall i :: i in idx ==> i < |reqs|
    requires more == Records(clock, group, reqs, idx, replies)
    requires g.group == group && g.req == Missing(reqs, idx)[k] && g.resp == replies[k]
    ensures Justified(p, log + more, g)
  {
    assert FromUpstream((log + more)[|log| + k], g);
  }

  /** Every slot of an answered batch is accounted for, whether it was a hit, a reply or a failure. */
  lemma SlotIsJustified(p: Policy, log: seq<Record>, table: map<string, Entry>, clock: nat -> int, group: string,
    reqs: seq<Request>, hits: seq<Option<Response>>, replies: seq<Response>, failed: bool, more: seq<Record>, i: nat)
    requires Sound(p, log, table) && hits == p.Hits(table, clock, group, reqs) && i < |reqs|
    requires forall m :: m in MissIndices(hits) ==> m < |reqs|
    requires |replies| <= |MissIndices(hits)|
    requires failed ==> replies == Failures(Missing(reqs, MissIndices(hits)))
    requires !failed ==> more == Records(clock, group, reqs, MissIndices(hits), replies)
    requires Merged(reqs, hits, replies)[i].Some?
    ensures Justified(p, log + more, Given(group, reqs[i], Merged(reqs, hits, replies)[i].value, clock(i)))
  {
    var g := Given(group, reqs[i], Merged(reqs, hits, replies)[i].value, clock(i));
    if hits[i].Some? {
      HitIsJustified(p, log, table, g);
      HistoryGrows(p, log, more, table, {g});
    } else {
      RankInverts(hits, i);
      assert Missing(reqs, MissIndices(hits))[Rank(hits, i)] == reqs[i];
      if !failed {
        ReplyIsJustified(p, log, more, clock, group, reqs, MissIndices(hits), replies, Rank(hits, i), g);
      }
    }
  }

  lemma BatchIsJustified(p: Policy, log: seq<Record>, table: map<string, Entry>, clock: nat -> int, group: string,
    reqs: seq<Request>, hits: seq<Option<Response>>, replies: seq<Response>, failed: bool)
    requires Sound(p, log, table) && hits == p.Hits(table, clock, group, reqs)
    requires forall i :: i in MissIndices(hits) ==> i < |reqs|
    requires |replies| <= |MissIndices(hits)|
    requires failed ==> replies == Failures(Missing(reqs, MissIndices(hits)))
    ensures var log' := if failed then log else log + Records(clock, group, reqs, MissIndices(hits), replies);
      forall g :: g in Delivered(clock, group, reqs, Merged(reqs, hits, replies)) ==> Justified(p, log', g)
  {
    var more := if failed then [] else Records(clock, group, reqs, MissIndices(hits), replies);
    assert failed ==> log + more == log;
    forall i | 0 <= i < |reqs| && Merged(reqs, hits, replies)[i].Some?
      ensures Justified(p, log + more, Given(group, reqs[i], Merged(reqs, hits, replies)[i].value, clock(i)))
    {
      SlotIsJustified(p, log, table, clock, group, reqs, hits, replies, failed, more, i);
    }
  }

  /** What handing a response to the cache writes: a success of a cacheable request, nothing else. */
  function WriteOf(p: Policy, now: int, group: string, req: Request, resp: Response): Write {
    if p.Cacheable(req) && resp.IsSuccess() then Write.Stored(p.Key(group, req), Entry(resp, now + p.ttl)) else Skipped
  }

  function WritesOf(p: Policy, clock: nat -> int, group: string, n: nat, missing: seq<Request>, replies: seq<Response>):
    seq<Write>
    requires |replies| <= |missing|
  {
    seq(|replies|, k requires 0 <= k < |replies| => WriteOf(p, clock(n + k), group, missing[k], replies[k]))
  }

  /** What the upstreams make of the misses: nothing is asked if there are none, and a failed batch yields an error each. */
  function Replies(ask: seq<Request> -> Option<seq<Response>>, missing: seq<Request>): seq<Response> {
    if |missing| == 0 then [] else
      match ask(missing)
      case None => Failures(missing)
      case Some(replies) => replies
  }

  predicate Failed(ask: seq<Request> -> Option<seq<Response>>, missing: seq<Request>) {
    |missing| > 0 && ask(missing).None?
  }

  /** The replies that find a slot. */
  function Fitting(replies: seq<Response>, idx: seq<nat>): seq<Response> {
    if |replies| <= |idx| then replies else replies[..|idx|]
  }

  /** The records and the writes of a batch: those of the fitting replies, none for a failure. */
  ghost predicate BatchRecorded(p: Policy, clock: nat -> int, group: string, reqs: seq<Request>, idx: seq<nat>,
    ask: seq<Request> -> Option<seq<Response>>, log: seq<Record>, log': seq<Record>, table: map<string, Entry>, capacity: nat)
    requires forall i :: i in idx ==> i < |reqs|
  {
    var missing := Missing(reqs, idx);
    if Failed(ask, missing) then log' == log else
      var kept := Fitting(Replies(ask, missing), idx);
      && log' == log + Records(clock, group, reqs, idx, kept)
      && Survivors(table, capacity, WritesOf(p, clock, group, |reqs|, missing, kept))
  }

  /** Hits are answered under the caller's own ID; what is sent on are the other requests, in their order. */
  lemma HitsAndMisses(reqs: seq<Request>, hits: seq<Option<Response>>, replies: seq<Response>)
    requires |hits| == |reqs|
    ensures forall i :: 0 <= i < |reqs| && hits[i].Some? ==>
      Merged(reqs, hits, replies)[i] == Some(hits[i].value.(id := reqs[i].id))
    ensures forall i :: i in MissIndices(hits) ==> i < |reqs|
    ensures var idx := MissIndices(hits);
      |Missing(reqs, idx)| == |idx| && forall k :: 0 <= k < |idx| ==> idx[k] in idx && Missing(reqs, idx)[k] == reqs[idx[k]]
    ensures MissIndices(hits) == [] ==> forall i :: 0 <= i < |reqs| ==> hits[i].Some?
  {
    MissesComplementHits(hits);
  }

  /** After a failure nobody is left without an answer, every answer is under its caller's ID, and the missed ones are errors. */
  lemma FailureAnswers(reqs: seq<Request>, hits: seq<Option<Response>>, ask: seq<Request> -> Option<seq<Response>>)
    requires |hits| == |reqs| && forall i :: i in MissIndices(hits) ==> i < |reqs|
    requires var missing := Missing(reqs, MissIndices(hits)); missing != [] && ask(missing).None?
    ensures forall i :: 0 <= i < |reqs| ==>
      var slot := Merged(reqs, hits, Replies(ask, Missing(reqs, MissIndices(hits))))[i];
      && slot.Some? && slot.value.id == reqs[i].id
      && (hits[i].None? ==> slot.value.HasError() && slot.value.error.value.code == -32603)
  {
    forall i | 0 <= i < |reqs| && hits[i].None?
      ensures Merged(reqs, hits, Replies(ask, Missing(reqs, MissIndices(hits))))[i] == Some(AllFailed(reqs[i].id))
    {
      FailedSlotsKeepTheirIDs(reqs, hits, i);
    }
  }

  lemma FailureIsAnswered(reqs: seq<Request>, hits: seq<Option<Response>>, ask: seq<Request> -> Option<seq<Response>>)
    requires |hits| == |reqs| && forall i :: i in MissIndices(hits) ==> i < |reqs|
    ensures var missing := Missing(reqs, MissIndices(hits)); var slots := Merged(reqs, hits, Replies(ask, missing));
      missing != [] && ask(missing).None? ==>
        |Replies(ask, missing)| == |missing| && OwnIds(reqs, slots) && forall i :: 0 <= i < |reqs| ==> slots[i].Some?
  {
    var missing := Missing(reqs, MissIndices(hits));
    if missing != [] && ask(missing).None? {
      FailureAnswers(reqs, hits, ask);
    }
  }

  /** Otherwise the k-th miss gets the k-th reply, or none if there are too few. */
  lemma ReplyAnswers(reqs: seq<Request>, hits: seq<Option<Response>>, ask: seq<Request> -> Option<seq<Response>>, k: nat)
    requires |hits| == |reqs| && (forall i :: i in MissIndices(hits) ==> i < |reqs|) && k < |MissIndices(hits)|
    requires ask(Missing(reqs, MissIndices(hits))).Some?
    ensures var idx := MissIndices(hits); var missing := Missing(reqs, idx);
      && idx[k] in idx
      && Merged(reqs, hits, Replies(ask, missing))[idx[k]] ==
        if k < |ask(missing).value| then Some(ask(missing).value[k]) else None
  {
    MissHasItsRank(hits, k);
  }

  /** A batch panics exactly when it gets more replies than it had misses. */
  lemma TooManyReplies(ask: seq<Request> -> Option<seq<Response>>, missing: seq<Request>)
    ensures |Replies(ask, missing)| > |missing| <==>
      |missing| > 0 && ask(missing).Some? && |ask(missing).value| > |missing|
  {
  }

  /** A cacheable success of a batch is found afterwards, until it expires, unless a later one has its key or too many follow. */
  lemma BatchSuccessIsCached(p: Policy, clock: nat -> int, group: string, n: nat, missing: seq<Request>,
    replies: seq<Response>, table: map<string, Entry>, capacity: nat, k: nat, t: int)
    requires k < |replies| <= |missing| && Survivors(table, capacity, WritesOf(p, clock, group, n, missing, replies))
    requires p.Cacheable(missing[k]) && replies[k].error.None? && |replies| - k <= capacity
    requires forall j :: k < j < |replies| ==> p.Key(group, missing[j]) != p.Key(group, missing[k])
    ensures p.Cached(table, t, group, missing[k]) == if t <= clock(n + k) + p.ttl then Some(replies[k]) else None
  {
    var ws := WritesOf(p, clock, group, n, missing, replies);
    assert ws[k] == Write.Stored(p.Key(group, missing[k]), Entry(replies[k], clock(n + k) + p.ttl));
    FewLaterKeys(ws, k);
    assert Final(ws, k);
  }

  lemma FewLaterKeys(ws: seq<Write>, j: nat)
    requires j < |ws|
    ensures |LaterKeys(ws, j)| < |ws| - j
    decreases |ws|
  {
    if j < |ws| - 1 {
      var rest, last := ws[..|ws| - 1], ws[|ws| - 1];
      FewLaterKeys(rest, j);
      assert ws == rest + [last];
      LaterKeysStep(rest, last, j);
    } else {
      assert LaterKeys(ws, j) == {};
    }
  }

  lemma ScatterStep(p: Policy, clock: nat -> int, group: string, reqs: seq<Request>, idx: seq<nat>,
    replies: seq<Response>, k: nat)
    requires k < |replies| && k < |idx| && forall i :: i in idx ==> i < |reqs|
    ensures var missing := Missing(reqs, idx);
      && Records(clock, group, reqs, idx, replies[..k + 1]) ==
        Records(clock, group, reqs, idx, replies[..k]) + [Record(group, missing[k], replies[k], clock(|reqs| + k))]
      && WritesOf(p, clock, group, |reqs|, missing, replies[..k + 1]) ==
        WritesOf(p, clock, group, |reqs|, missing, replies[..k])
        + [WriteOf(p, clock(|reqs| + k), group, missing[k], replies[k])]
  {
  }

  lemma OutcomeIsJustified(p: Policy, log: seq<Record>, log': seq<Record>, table: map<string, Entry>, clock: nat -> int,
    group: string, reqs: seq<Request>, hits: seq<Option<Response>>, ask: seq<Request> -> Option<seq<Response>>,
    table': map<string, Entry>, capacity: nat)
    requires Sound(p, log, table) && hits == p.Hits(table, clock, group, reqs)
    requires forall i :: i in MissIndices(hits) ==> i < |reqs|
    requires |Replies(ask, Missing(reqs, MissIndices(hits)))| <= |MissIndices(hits)|
    requires BatchRecorded(p, clock, group, reqs, MissIndices(hits), ask, log, log', table', capacity)
    ensures forall g :: g in Delivered(clock, group, reqs, Merged(reqs, hits, Replies(ask, Missing(reqs, MissIndices(hits))))) ==>
      Justified(p, log', g)
  {
    var missing := Missing(reqs, MissIndices(hits));
    BatchIsJustified(p, log, table, clock, group, reqs, hits, Replies(ask, missing), Failed(ask, missing));
  }

  lemma GatherStep(hits: seq<Option<Response>>, i: nat)
    requires i < |hits|
    ensures MissIndices(hits[..i + 1]) == MissIndices(hits[..i]) + if hits[i].None? then [i] else []
  {
    assert hits[..i + 1][..i] == hits[..i];
  }

  lemma SameFromLater(now: int, later: int, a: map<string, Entry>, b: map<string, Entry>, c: map<string, Entry>)
    requires now <= later && SameFrom(now, a, b) && SameFrom(now, b, c)
    ensures SameFrom(later, a, c)
  {
  }

  // ----- The handler

  datatype BatchResult = Panicked | Answered(slots: seq<Option<Response>>)

  class Handler {
    const policy: Policy
    const cache: MemoryCache
    ghost var log: seq<Record>
    ghost var given: set<Given>

    ghost predicate Valid()
      reads this, cache.cache
    {
      && cache.Valid() && cache.ttl == policy.ttl
      && Sound(policy, log, cache.cache.table)
      && forall g :: g in given ==> Justified(policy, log, g)
    }

    constructor (policy: Policy, cache: MemoryCache)
      requires cache.Valid() && cache.ttl == policy.ttl && cache.cache.table == map[]
      ensures Valid() && this.policy == policy && this.cache == cache && log == [] && given == {}
    {
      this.policy, this.cache, log, given := policy, cache, [], {};
    }

    /**
     Whatever calls led here: if upstreams only said what they may, and requests with one key may get one answer,
     every answer given is one a proxy without a cache could have given.
     */
    lemma CachingIsTransparent(may: (string, Request, Response) -> bool)
      requires Valid() && KeyDetermined(policy, may, log, given)
      requires forall r :: r in log ==> may(r.group, r.req, r.resp)
      ensures forall g :: g in given ==> UncachedCould(may, g)
    {
    }

    /** Store a success under its key. */
    method Keep(now: int, group: string, req: Request, resp: Response)
      requires Valid()
      modifies this`log, cache.cache
      ensures Valid() && log == old(log) + [Record(group, req, resp, now)]
      ensures Written(old(cache.cache.order), old(cache.cache.table), cache.cache.capacity,
                      WriteOf(policy, now, group, req, resp), cache.cache.order, cache.cache.table)
      ensures resp.HasError() || !policy.Cacheable(req) ==> cache.cache.table == old(cache.cache.table)
      ensures resp.error.None? && policy.Cacheable(req) ==>
        policy.Key(group, req) in cache.cache.table
        && cache.cache.table[policy.Key(group, req)] == Entry(resp, now + policy.ttl)
    {
      ghost var r := Record(group, req, resp, now);
      ghost var table := cache.cache.table;
      HistoryGrows(policy, log, [r], table, given);
      if resp.IsSuccess() && policy.Cacheable(req) {
        cache.Set(now, policy.Key(group, req), resp);
        StoreKeepsSound(policy, log, r, table, cache.cache.table);
      }
      log := log + [r];
    }

    method KeepNext(now: int, group: string, req: Request, resp: Response, ghost writes: seq<Write>)
      requires Valid() && Accounted(cache.cache.order, cache.cache.table, cache.cache.capacity, writes)
      modifies this`log, cache.cache
      ensures Valid() && log == old(log) + [Record(group, req, resp, now)]
      ensures Accounted(cache.cache.order, cache.cache.table, cache.cache.capacity,
                        writes + [WriteOf(policy, now, group, req, resp)])
    {
      ghost var order, table := cache.cache.order, cache.cache.table;
      Keep(now, group, req, resp);
      WriteStep(order, table, cache.cache.capacity, writes, WriteOf(policy, now, group, req, resp),
                cache.cache.order, cache.cache.table);
    }

    /** Ask the cache, if the request may be answered from it. */
    method Consult(now: int, group: string, req: Request) returns (data: Option<Response>)
      requires cache.Valid()
      modifies cache.cache
      ensures cache.Valid()
      ensures data == policy.Cached(old(cache.cache.table), now, group, req)
      ensures data.Some? ==> cache.cache.table == old(cache.cache.table)
      ensures Shrunk(old(cache.cache.table), cache.cache.table)
      ensures SameFrom(now, old(cache.cache.table), cache.cache.table)
    {
      if policy.Cacheable(req) {
        data := cache.Get(now, policy.Key(group, req));
      } else {
        data := None;
      }
    }

    /** A request answered by the cache, or else by upstream: None says that every attempt failed. */
    method ExecuteWithCache(now: int, later: int, group: string, req: Request, upstream: Option<Response>)
      returns (resp: Response)
      requires Valid()
      modifies this, cache.cache
      ensures Valid()
      ensures given == old(given) + {Given(group, req, resp, now)}
      ensures match policy.Cached(old(cache.cache.table), now, group, req) {
        case Some(data) => resp == data.(id := req.id) && log == old(log) && cache.cache.table == old(cache.cache.table)
        case None =>
          && resp == (if upstream.Some? then upstream.value else AllFailed(req.id))
          && log == old(log) + (if upstream.Some? then [Record(group, req, resp, later)] else [])
          && (policy.Cacheable(req) && resp.IsSuccess() ==>
                forall t :: policy.Cached(cache.cache.table, t, group, req) == if t <= later + policy.ttl then Some(resp) else None)
      }
      ensures policy.Cached(old(cache.cache.table), now, group, req).None? && upstream.None? ==>
        (resp.id == req.id && resp.HasError() && resp.result.None? && resp.error.value.code == -32603)
    {
      ghost var table := cache.cache.table;
      var data := Consult(now, group, req);
      ShrunkIsSound(policy, log, table, cache.cache.table);
      if data.Some? {
        resp := data.value.(id := req.id);
        HitIsJustified(policy, log, table, Given(group, req, resp, now));
        given := given + {Given(group, req, resp, now)};
        return;
      }
      ghost var g;
      if upstream.None? {
        resp := AllFailed(req.id);
        g := Given(group, req, resp, now);
      } else {
        resp := upstream.value;
        Keep(later, group, req, resp);
        g := Given(group, req, resp, now);
        assert FromUpstream(log[|log| - 1], g);
      }
      given := given + {g};
    }

    /** A sweep forgets only what no caller could get any more. */
    method Sweep(now: int)
      requires Valid()
      modifies cache.cache
      ensures Valid()
      ensures SameFrom(now, old(cache.cache.table), cache.cache.table)
      ensures log == old(log) && given == old(given)
    {
      SweepIsInvisible(now, cache.cache.table);
      cache.RemoveExpired(now);
    }

    /** Lookup i of a batch that began with this table. */
    method ConsultInBatch(clock: nat -> int, i: nat, group: string, req: Request, ghost table: map<string, Entry>)
      returns (data: Option<Response>)
      requires cache.Valid() && clock(i) <= clock(i + 1)
      requires Shrunk(table, cache.cache.table) && SameFrom(clock(i), table, cache.cache.table)
      modifies cache.cache
      ensures cache.Valid() && data == policy.Cached(table, clock(i), group, req)
      ensures Shrunk(table, cache.cache.table) && SameFrom(clock(i + 1), table, cache.cache.table)
    {
      ghost var before := cache.cache.table;
      assert policy.Cached(table, clock(i), group, req) == policy.Cached(before, clock(i), group, req);
      data := Consult(clock(i), group, req);
      SameFromLater(clock(i), clock(i + 1), table, before, cache.cache.table);
    }

    /** First pass: answer what the cache can, list the rest. */
    method Gather(clock: nat -> int, group: string, reqs: seq<Request>, responses: array<Option<Response>>)
      returns (idx: seq<nat>, missing: seq<Request>)
      requires cache.Valid() && responses.Length == |reqs|
      requires forall i :: 0 <= i < |reqs| ==> responses[i].None?
      requires forall i: nat, j: nat :: i <= j ==> clock(i) <= clock(j)
      modifies cache.cache, responses
      ensures cache.Valid() && Shrunk(old(cache.cache.table), cache.cache.table)
      ensures idx == MissIndices(policy.Hits(old(cache.cache.table), clock, group, reqs))
      ensures (forall i :: i in idx ==> i < |reqs|) && missing == Missing(reqs, idx)
      ensures responses[..] == Merged(reqs, policy.Hits(old(cache.cache.table), clock, group, reqs), [])
    {
      ghost var table := cache.cache.table;
      ghost var hits := policy.Hits(table, clock, group, reqs);
      ghost var out := OwnSlots(reqs, hits);
      idx, missing := [], [];
      for i := 0 to |reqs|
        invariant cache.Valid() && Shrunk(table, cache.cache.table)
        invariant SameFrom(clock(i), table, cache.cache.table)
        invariant idx == MissIndices(hits[..i])
        invariant |missing| == |idx| && forall k :: 0 <= k < |idx| ==> idx[k] < i && missing[k] == reqs[idx[k]]
        invariant forall j :: 0 <= j < i ==> responses[j] == out[j]
        invariant forall j :: i <= j < |reqs| ==> responses[j].None?
      {
        var req := reqs[i];
        GatherStep(hits, i);
        assert out[i] == if hits[i].Some? then Some(hits[i].value.(id := req.id)) else None;
        var data := ConsultInBatch(clock, i, group, req, table);
        if data.Some? {
          responses[i] := Some(data.value.(id := req.id));
          continue;
        }
        idx, missing := idx + [i], missing + [req];
      }
      assert hits[..|reqs|] == hits;
      MergedWithNothing(reqs, hits);
    }

    /** Second pass: put each reply in the slot of its miss and keep it; false if there was one reply too many. */
    method Scatter(clock: nat -> int, group: string, reqs: seq<Request>, idx: seq<nat>, replies: seq<Response>,
      responses: array<Option<Response>>, ghost hits: seq<Option<Response>>)
      returns (inRange: bool)
      requires Valid() && responses.Length == |hits| == |reqs|
      requires idx == MissIndices(hits) && forall i :: i in idx ==> i < |reqs|
      requires responses[..] == Merged(reqs, hits, [])
      modifies this`log, cache.cache, responses
      ensures Valid()
      ensures inRange <==> |replies| <= |idx|
      ensures var kept := if inRange then replies else replies[..|idx|];
        && responses[..] == Merged(reqs, hits, kept)
        && log == old(log) + Records(clock, group, reqs, idx, kept)
        && Survivors(cache.cache.table, cache.cache.capacity,
                     WritesOf(policy, clock, group, |reqs|, Missing(reqs, idx), kept))
    {
      assert replies[..0] == [];
      ghost var writes: seq<Write> := [];
      for k := 0 to |replies|
        invariant Valid()
        invariant k <= |idx|
        invariant responses[..] == Merged(reqs, hits, replies[..k])
        invariant log == old(log) + Records(clock, group, reqs, idx, replies[..k])
        invariant Accounted(cache.cache.order, cache.cache.table, cache.cache.capacity, writes)
        invariant writes == WritesOf(policy, clock, group, |reqs|, Missing(reqs, idx), replies[..k])
      {
        if k >= |idx| {
          assert k == |idx|;
          AccountedSurvive(cache.cache.order, cache.cache.table, cache.cache.capacity, writes);
          return false;
        }
        var i := idx[k];
        assert i in idx;
        MergeStep(reqs, hits, replies, k);
        responses[i] := Some(replies[k]);
        ScatterStep(policy, clock, group, reqs, idx, replies, k);
        KeepNext(clock(|reqs| + k), group, reqs[i], replies[k], writes);
        writes := writes + [WriteOf(policy, clock(|reqs| + k), group, reqs[i], replies[k])];
      }
      assert replies[..|replies|] == replies;
      AccountedSurvive(cache.cache.order, cache.cache.table, cache.cache.capacity, writes);
      return true;
    }

    /** Second pass after a failed batch: an error of its own for each miss. */
    method FillErrors(reqs: seq<Request>, idx: seq<nat>, responses: array<Option<Response>>, ghost hits: seq<Option<Response>>)
      requires responses.Length == |hits| == |reqs|
      requires idx == MissIndices(hits) && forall i :: i in idx ==> i < |reqs|
      requires responses[..] == Merged(reqs, hits, [])
      modifies responses
      ensures responses[..] == Merged(reqs, hits, Failures(Missing(reqs, idx)))
      ensures forall i :: i in idx ==>
        responses[i].Some? && responses[i].value.id == reqs[i].id && responses[i].value.HasError()
    {
      ghost var failures := Failures(Missing(reqs, idx));
      assert failures[..0] == [];
      for k := 0 to |idx|
        invariant responses[..] == Merged(reqs, hits, failures[..k])
      {
        var i := idx[k];
        assert i in idx;
        MergeStep(reqs, hits, failures, k);
        responses[i] := Some(AllFailed(reqs[i].id));
      }
      assert failures[..|idx|] == failures;
      forall i | i in idx ensures responses[i] == Some(AllFailed(reqs[i].id)) {
        MissesComplementHits(hits);
        FailedSlotsKeepTheirIDs(reqs, hits, i);
        assert responses[i] == responses[..][i];
      }
    }

    /** The misses go upstream together: their replies, or an error each if the batch failed. */
    method AnswerMisses(clock: nat -> int, group: string, reqs: seq<Request>, idx: seq<nat>, missing: seq<Request>,
      ask: seq<Request> -> Option<seq<Response>>, responses: array<Option<Response>>, ghost hits: seq<Option<Response>>)
      returns (inRange: bool)
      requires Valid() && responses.Length == |hits| == |reqs|
      requires idx == MissIndices(hits) && (forall i :: i in idx ==> i < |reqs|) && missing == Missing(reqs, idx)
      requires responses[..] == Merged(reqs, hits, [])
      modifies this`log, cache.cache, responses
      ensures Valid()
      ensures inRange <==> |Replies(ask, missing)| <= |idx|
      ensures responses[..] == Merged(reqs, hits, Fitting(Replies(ask, missing), idx))
      ensures BatchRecorded(policy, clock, group, reqs, idx, ask, old(log), log, cache.cache.table, cache.cache.capacity)
    {
      if |missing| == 0 {
        assert log + Records(clock, group, reqs, idx, []) == log;
        return true;
      }
      var answer := ask(missing);
      match answer
      case None =>
        FillErrors(reqs, idx, responses, hits);
        inRange := true;
      case Some(replies) =>
        inRange := Scatter(clock, group, reqs, idx, replies, responses, hits);
    }

    /** Both passes. */
    method Resolve(clock: nat -> int, group: string, reqs: seq<Request>, ask: seq<Request> -> Option<seq<Response>>,
      responses: array<Option<Response>>, ghost hits: seq<Option<Response>>)
      returns (inRange: bool)
      requires Valid() && responses.Length == |reqs|
      requires forall i :: 0 <= i < |reqs| ==> responses[i].None?
      requires forall i: nat, j: nat :: i <= j ==> clock(i) <= clock(j)
      requires hits == policy.Hits(cache.cache.table, clock, group, reqs)
      modifies this`log, cache.cache, responses
      ensures Valid()
      ensures var idx := MissIndices(hits);
        && (forall i :: i in idx ==> i < |reqs|)
        && var replies := Replies(ask, Missing(reqs, idx));
        && inRange == (|replies| <= |idx|)
        && responses[..] == Merged(reqs, hits, Fitting(replies, idx))
        && BatchRecorded(policy, clock, group, reqs, idx, ask, old(log), log, cache.cache.table, cache.cache.capacity)
    {
      ghost var table := cache.cache.table;
      var idx, missing := Gather(clock, group, reqs, responses);
      ShrunkIsSound(policy, log, table, cache.cache.table);
      inRange := AnswerMisses(clock, group, reqs, idx, missing, ask, responses, hits);
    }

    /**
     A batch: ask stands for the upstreams, None for a failed batch. Replies are matched to requests by
     position; one reply too many is an index out of range, one too few leaves a nil slot.
     */
    method ExecuteBatchWithCache(clock: nat -> int, group: string, reqs: seq<Request>,
      ask: seq<Request> -> Option<seq<Response>>)
      returns (result: BatchResult)
      requires Valid()
      requires forall i: nat, j: nat :: i <= j ==> clock(i) <= clock(j)
      modifies this, cache.cache
      ensures Valid()
      ensures var hits := policy.Hits(old(cache.cache.table), clock, group, reqs);
        var idx := MissIndices(hits);
        && (forall i :: i in idx ==> i < |reqs|)
        && var replies := Replies(ask, Missing(reqs, idx));
        && result == (if |replies| <= |idx| then Answered(Merged(reqs, hits, replies)) else Panicked)
        && BatchRecorded(policy, clock, group, reqs, idx, ask, old(log), log, cache.cache.table, cache.cache.capacity)
      ensures result.Answered? ==>
        (|result.slots| == |reqs| && given == old(given) + Delivered(clock, group, reqs, result.slots))
      ensures result.Answered? ==> forall i :: 0 <= i < |reqs| && result.slots[i].Some? ==>
        Given(group, reqs[i], result.slots[i].value, clock(i)) in given
      ensures result.Panicked? ==> given == old(given)
      ensures var missing := Missing(reqs, MissIndices(policy.Hits(old(cache.cache.table), clock, group, reqs)));
        missing != [] && ask(missing).None? ==>
          result.Answered? && OwnIds(reqs, result.slots) && forall i :: 0 <= i < |reqs| ==> result.slots[i].Some?
    {
      ghost var table, log0 := cache.cache.table, log;
      ghost var hits := policy.Hits(table, clock, group, reqs);
      var responses := new Option<Response>[|reqs|](_ => None);
      var inRange := Resolve(clock, group, reqs, ask, responses, hits);
      FailureIsAnswered(reqs, hits, ask);
      if !inRange {
        return Panicked;
      }
      OutcomeIsJustified(policy, log0, log, table, clock, group, reqs, hits, ask, cache.cache.table, cache.cache.capacity);
      given := given + Delivered(clock, group, reqs, responses[..]);
      return Answered(responses[..]);
    }
  }

  /**
   The condition of CachingIsTransparent is needed: where two cacheable requests share a key but not their
   answers, asking one and then the other yields what no upstream would have said.
   */
  method SharedKeyMisleads(p: Policy, may: (string, Request, Response) -> bool, group: string, req: Request,
    resp: Response, group': string, req': Request) returns (wrong: Response)
    requires p.ttl >= 0 && p.Cacheable(req) && p.Cacheable(req') && p.Key(group, req) == p.Key(group', req')
    requires resp.IsSuccess() && may(group, req, resp) && !may(group', req', resp.(id := req'.id))
    ensures wrong.IsSuccess() && !may(group', req', wrong)
  {
    var cache := new MemoryCache(1, p.ttl);
    var handler := new Handler(p, cache);
    var first := handler.ExecuteWithCache(0, 0, group, req, Some(resp));
    wrong := handler.ExecuteWithCache(0, 0, group', req', None);
  }
}
