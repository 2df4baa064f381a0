/**
 Failover across upstreams: the executor asks one upstream after another, never the same one
 twice, while health may change between any two reads of the pool.
 */
module Retry {
  import opened JsonRpc
  import opened Upstreams
  import opened Balancer

  datatype Reply<+T> = Unreachable | Replied(body: T)

  /**
   What the environment decides: who is healthy when attempt t reads the main list and when it
   reads the fallback list, what upstream u answers at attempt t, and whether the request has been
   cancelled by the end of attempt t.
   */
  datatype World<!T> = World(
    mainUp: nat -> set<Upstream>,
    fallbackUp: nat -> set<Upstream>,
    answer: (nat, Upstream) -> Reply<T>,
    cancelled: nat -> bool)

  datatype Ending<+T> = Conclusive(body: T) | Cancelled | GaveUp

  function Names(log: seq<Upstream>): (r: set<string>) {
    set u | u in log :: u.name
  }

  /** The upstreams attempt t may be sent to, after the attempts in log. */
  function Candidates<T>(w: World<T>, us: seq<Upstream>, t: nat, log: seq<Upstream>): seq<Upstream> {
    Available(Listed(us, Main, w.mainUp(t)), Listed(us, Fallback, w.fallbackUp(t)), Names(log))
  }

  predicate Concludes<T>(r: Reply<T>, final: T -> bool) {
    r.Replied? && final(r.body)
  }

  function AttemptLimit(maxAttempts: int): nat {
    if maxAttempts <= 0 then 1 else maxAttempts
  }

  /** Each attempt went to a candidate, and none but possibly the last ended the request. */
  ghost predicate IsTrace<T>(w: World<T>, final: T -> bool, us: seq<Upstream>, maxAttempts: int, log: seq<Upstream>) {
    && |log| <= AttemptLimit(maxAttempts)
    && (forall t :: 0 <= t < |log| ==> log[t] in Candidates(w, us, t, log[..t]))
    && (forall t :: 0 <= t < |log| - 1 ==> !Concludes(w.answer(t, log[t]), final) && !w.cancelled(t))
  }

  /** The request stopped for a reason, and not before there was one. */
  ghost predicate IsRun<T>(w: World<T>, final: T -> bool, us: seq<Upstream>, maxAttempts: int,
                           log: seq<Upstream>, end: Ending<T>) {
    var n := |log|;
    && IsTrace(w, final, us, maxAttempts, log)
    && match end
       case Conclusive(body) => n > 0 && w.answer(n - 1, log[n - 1]) == Replied(body) && final(body)
       case Cancelled =>
         && (n > 0 ==> !Concludes(w.answer(n - 1, log[n - 1]), final))
         && ((n > 0 && w.cancelled(n - 1))
             || (n < AttemptLimit(maxAttempts) && Candidates(w, us, n, log) == [] && w.cancelled(n)))
       case GaveUp =>
         && (n > 0 ==> !Concludes(w.answer(n - 1, log[n - 1]), final) && !w.cancelled(n - 1))
         && (n == AttemptLimit(maxAttempts) || (Candidates(w, us, n, log) == [] && !w.cancelled(n)))
  }

  // ----- What every run guarantees

  lemma SameNameSameUpstream(us: seq<Upstream>, u: Upstream, v: Upstream)
    requires UniqueNames(us) && u in us && v in us && u.name == v.name
    ensures u == v
  {
  }

  function Elements<T>(s: seq<T>): set<T> { set x | x in s }

  lemma {:induction false} DistinctSize<T>(s: seq<T>)
    ensures |Elements(s)| <= |s|
    ensures (forall i, j :: 0 <= i < j < |s| ==> s[i] != s[j]) ==> |Elements(s)| == |s|
  {
    if |s| > 0 {
      var k := |s| - 1;
      DistinctSize(s[..k]);
      assert s == s[..k] + [s[k]];
      assert Elements(s) == Elements(s[..k]) + {s[k]};
      if forall i, j :: 0 <= i < j < |s| ==> s[i] != s[j] {
        assert s[k] !in s[..k];
      }
    }
  }

  lemma SubsetSize<T>(a: set<T>, b: set<T>)
    requires a <= b
    ensures |a| <= |b|
    ensures |a| == |b| ==> a == b
  {
    assert |b| == |a| + |b - a|;
    if |a| == |b| { assert b - a == {}; }
  }

  lemma AskedFromThePool<T>(w: World<T>, us: seq<Upstream>, t: nat, log: seq<Upstream>, u: Upstream)
    requires u in Candidates(w, us, t, log)
    ensures u in us && u.name !in Names(log)
    ensures u in if u.role == Main then w.mainUp(t) else w.fallbackUp(t)
  {
  }

  lemma NeverAskedTwice<T>(w: World<T>, final: T -> bool, us: seq<Upstream>, maxAttempts: int, log: seq<Upstream>)
    requires IsTrace(w, final, us, maxAttempts, log)
    ensures forall s, t :: 0 <= s < t < |log| ==> log[s].name != log[t].name
  {
  }

  lemma FallbackOnlyAfterMains<T>(w: World<T>, us: seq<Upstream>, t: nat, log: seq<Upstream>, f: Upstream, u: Upstream)
    requires UniqueNames(us) && forall v :: v in log ==> v in us
    requires f in Candidates(w, us, t, log) && f.role == Fallback
    requires u in us && u.role == Main && u in w.mainUp(t)
    ensures u in log
  {
  }

  lemma AttemptsBounded(us: seq<Upstream>, log: seq<Upstream>)
    requires forall u :: u in log ==> u in us
    requires forall s, t :: 0 <= s < t < |log| ==> log[s].name != log[t].name
    ensures |log| == |Elements(log)| <= |us|
  {
    DistinctSize(log);
    DistinctSize(us);
    SubsetSize(Elements(log), Elements(us));
  }

  /** u was on the list of its role that attempt t read. */
  predicate WasHealthy<T>(w: World<T>, t: nat, u: Upstream) {
    u in if u.role == Main then w.mainUp(t) else w.fallbackUp(t)
  }

  /**
   Safety under changing health. Attempts go to pairwise different upstreams of the pool, at most
   min(max(1, MaxAttempts), pool size) of them; each was healthy when its list was read; a
   fallback is asked only when every main healthy at that read has been asked already.
   */
  lemma AttemptsAreSafe<T>(w: World<T>, final: T -> bool, us: seq<Upstream>, maxAttempts: int, log: seq<Upstream>)
    requires UniqueNames(us) && IsTrace(w, final, us, maxAttempts, log)
    ensures forall s, t :: 0 <= s < t < |log| ==> log[s].name != log[t].name
    ensures |log| <= (if maxAttempts <= 0 then 1 else maxAttempts) && |log| == |Elements(log)| <= |us|
    ensures forall t :: 0 <= t < |log| ==> log[t] in us && log[t] in (if log[t].role == Main then w.mainUp(t) else w.fallbackUp(t))
    ensures forall t, u :: (0 <= t < |log| && log[t].role == Fallback && u in us && u.role == Main && u in w.mainUp(t)) ==>
      u in log[..t]
  {
    NeverAskedTwice(w, final, us, maxAttempts, log);
    forall t | 0 <= t < |log| ensures log[t] in us && WasHealthy(w, t, log[t]) {
      AskedFromThePool(w, us, t, log[..t], log[t]);
    }
    AttemptsBounded(us, log);
    forall t, u | 0 <= t < |log| && log[t].role == Fallback && u in us && u.role == Main && u in w.mainUp(t)
      ensures u in log[..t]
    {
      FallbackOnlyAfterMains(w, us, t, log[..t], log[t], u);
    }
  }

  lemma UntriedIsCandidate<T>(w: World<T>, us: seq<Upstream>, t: nat, log: seq<Upstream>, u: Upstream)
    requires u in us && WasHealthy(w, t, u) && u.name !in Names(log)
    ensures Candidates(w, us, t, log) != []
  {
    assert u in Listed(us, u.role, if u.role == Main then w.mainUp(t) else w.fallbackUp(t));
  }

  predicate NamesakeAsked(log: seq<Upstream>, u: Upstream) {
    exists v :: v in log && v.name == u.name
  }

  /** Nobody is left to ask exactly when everyone healthy at the read shares a name with someone asked. */
  lemma NoCandidates<T>(w: World<T>, us: seq<Upstream>, t: nat, log: seq<Upstream>)
    ensures Candidates(w, us, t, log) == [] <==> forall u :: u in us && WasHealthy(w, t, u) ==> NamesakeAsked(log, u)
  {
    var c := Candidates(w, us, t, log);
    if c != [] {
      AskedFromThePool(w, us, t, log, c[0]);
      assert !NamesakeAsked(log, c[0]);
    }
    forall u | u in us && WasHealthy(w, t, u) ensures c == [] ==> NamesakeAsked(log, u) {
      if !NamesakeAsked(log, u) {
        UntriedIsCandidate(w, us, t, log, u);
      }
    }
  }

  /**
   When a request ends. Its last attempt is the first that is conclusive; a cancellation seen after an attempt, or
   when nobody is left to ask, ends it with the context's error; it gives up only at the limit or with nobody left.
   */
  lemma RunsEndForAReason<T>(w: World<T>, final: T -> bool, us: seq<Upstream>, maxAttempts: int, log: seq<Upstream>, end: Ending<T>)
    requires IsRun(w, final, us, maxAttempts, log, end)
    ensures forall t :: 0 <= t < |log| - 1 ==>
      !w.cancelled(t) && !(w.answer(t, log[t]).Replied? && final(w.answer(t, log[t]).body))
    ensures var n := |log|; var limit := if maxAttempts <= 0 then 1 else maxAttempts;
      && (end.Conclusive? <==> n > 0 && w.answer(n - 1, log[n - 1]).Replied? && final(w.answer(n - 1, log[n - 1]).body))
      && (end.Cancelled? ==> (n > 0 && w.cancelled(n - 1)) || w.cancelled(n))
      && (end.GaveUp? ==> (n == 0 || !w.cancelled(n - 1)) && n <= limit)
      && (end.GaveUp? && n < limit ==> !w.cancelled(n) && forall u :: u in us && WasHealthy(w, n, u) ==> NamesakeAsked(log, u))
  {
    forall t | 0 <= t < |log| - 1 ensures !Concludes(w.answer(t, log[t]), final) && !w.cancelled(t) {
    }
    NoCandidates(w, us, |log|, log);
  }

  // ----- Completeness when health stays fixed

  ghost predicate Steady<T>(w: World<T>, up: set<Upstream>) {
    forall t: nat :: w.mainUp(t) == up && w.fallbackUp(t) == up && !w.cancelled(t)
  }

  function Healthy(us: seq<Upstream>, up: set<Upstream>): set<Upstream> {
    set u | u in us && u in up
  }

  /** u would end the request whenever asked. */
  ghost predicate AlwaysConcludes<T>(w: World<T>, final: T -> bool, u: Upstream) {
    forall t: nat :: Concludes(w.answer(t, u), final)
  }

  /** With health fixed, a run that gave up with attempts to spare, or enough of them, asked everybody. */
  lemma GaveUpAsksEveryone<T>(w: World<T>, final: T -> bool, us: seq<Upstream>, up: set<Upstream>,
                              maxAttempts: int, log: seq<Upstream>)
    requires UniqueNames(us) && Steady(w, up) && IsRun(w, final, us, maxAttempts, log, GaveUp)
    requires AttemptLimit(maxAttempts) >= |Healthy(us, up)|
    ensures Elements(log) == Healthy(us, up)
  {
    AttemptsAreSafe(w, final, us, maxAttempts, log);
    assert Elements(log) <= Healthy(us, up);
    SubsetSize(Elements(log), Healthy(us, up));
    if |log| < AttemptLimit(maxAttempts) {
      forall u | u in Healthy(us, up) ensures u in log {
        assert u in Listed(us, u.role, up);
        assert u.name in Names(log);
        var v :| v in log && v.name == u.name;
        SameNameSameUpstream(us, u, v);
      }
    }
  }

  /**
   Completeness: with health fixed, no cancellation and enough attempts, the request gets a
   conclusive answer if some healthy upstream would give one whenever asked; if none ever would,
   the run gives up after asking every healthy upstream exactly once.
   */
  lemma RetryIsComplete<T>(w: World<T>, final: T -> bool, us: seq<Upstream>, up: set<Upstream>,
                           maxAttempts: int, log: seq<Upstream>, end: Ending<T>)
    requires UniqueNames(us) && Steady(w, up) && IsRun(w, final, us, maxAttempts, log, end)
    requires AttemptLimit(maxAttempts) >= |Healthy(us, up)|
    ensures (exists u :: u in Healthy(us, up) && AlwaysConcludes(w, final, u)) ==> end.Conclusive? && final(end.body)
    ensures (forall u :: u in Healthy(us, up) ==> forall t: nat :: !Concludes(w.answer(t, u), final)) ==>
      end == GaveUp && Elements(log) == Healthy(us, up) && |log| == |Healthy(us, up)|
  {
    AttemptsAreSafe(w, final, us, maxAttempts, log);
    if end == GaveUp {
      GaveUpAsksEveryone(w, final, us, up, maxAttempts, log);
      forall u | u in Healthy(us, up) ensures !AlwaysConcludes(w, final, u) {
        assert u in Elements(log);
        var t :| 0 <= t < |log| && log[t] == u;
        assert !Concludes(w.answer(t, u), final);
      }
    } else if end.Conclusive? {
      assert log[|log| - 1] in Healthy(us, up);
    }
  }

  /**
   The attempt limit in that theorem is exact: when a run in which nobody answers conclusively
   stops short of some healthy upstream, that upstream may have been ready to answer all along.
   */
  lemma AttemptLimitIsTight<T>(w: World<T>, final: T -> bool, us: seq<Upstream>, up: set<Upstream>,
                               maxAttempts: int, log: seq<Upstream>, good: T) returns (u: Upstream, w': World<T>)
    requires UniqueNames(us) && Steady(w, up) && final(good)
    requires IsRun(w, final, us, maxAttempts, log, GaveUp)
    requires AttemptLimit(maxAttempts) < |Healthy(us, up)|
    ensures u in Healthy(us, up) && Steady(w', up)
    ensures forall t: nat :: Concludes(w'.answer(t, u), final)
    ensures IsRun(w', final, us, maxAttempts, log, GaveUp)
  {
    DistinctSize(log);
    if Healthy(us, up) <= Elements(log) { SubsetSize(Healthy(us, up), Elements(log)); }
    u :| u in Healthy(us, up) && u !in Elements(log);
    w' := Luckier(w, u, good);
    assert forall t :: 0 <= t < |log| ==> w'.answer(t, log[t]) == w.answer(t, log[t]);
    assert forall t: nat, seen :: Candidates(w', us, t, seen) == Candidates(w, us, t, seen);
  }

  /** The same world, except that u would answer with `good` whenever asked. */
  function Luckier<T>(w: World<T>, u: Upstream, good: T): World<T> {
    w.(answer := (t: nat, v: Upstream) => if v == u then Replied(good) else w.answer(t, v))
  }

  // ----- The executor

  /** A response that ends a request: a success, or an error no other upstream would cure. */
  function Final(): Response -> bool { (r: Response) => !Retryable(r) }

  predicate NoneRetryable(rs: seq<Response>) {
    forall i :: 0 <= i < |rs| ==> !Retryable(rs[i])
  }

  function FinalBatch(): seq<Response> -> bool { (rs: seq<Response>) => NoneRetryable(rs) }

  /** The most recent response among the attempts, if any was received. */
  function LastReply(w: World<Response>, log: seq<Upstream>): Option<Response> {
    if |log| == 0 then None else
      match w.answer(|log| - 1, log[|log| - 1])
      case Replied(r) => Some(r)
      case Unreachable => LastReply(w, log[..|log| - 1])
  }

  datatype Result<+T> = Got(body: T) | NoUpstreams | TransportError | ContextError | AllUpstreamsFailed

  /** What the caller of Execute sees. */
  function Outcome(w: World<Response>, log: seq<Upstream>, end: Ending<Response>): Result<Response> {
    match end
    case Conclusive(r) => Got(r)
    case Cancelled => ContextError
    case GaveUp =>
      match LastReply(w, log)
      case Some(r) => Got(r)
      case None => AllUpstreamsFailed
  }

  function BatchOutcome(end: Ending<seq<Response>>): Result<seq<Response>> {
    match end
    case Conclusive(rs) => Got(rs)
    case Cancelled => ContextError
    case GaveUp => AllUpstreamsFailed
  }

  /** An upstream without an HTTP endpoint is spent on a batch but cannot serve it. */
  function BatchWorld(w: World<seq<Response>>): World<seq<Response>> {
    w.(answer := (t: nat, u: Upstream) => if u.hasRPC then w.answer(t, u) else Unreachable)
  }

  /** One attempt, whatever it gives. */
  ghost predicate SingleAttempt<T>(w: World<T>, us: seq<Upstream>, result: Result<T>, log: seq<Upstream>) {
    if Candidates(w, us, 0, []) == [] then log == [] && result == NoUpstreams
    else |log| == 1 && log[0] in Candidates(w, us, 0, []) && match w.answer(0, log[0])
      case Replied(r) => result == Got(r)
      case Unreachable => result == TransportError
  }

  /** A trace that has not ended: its last attempt neither concluded nor met a cancellation. */
  ghost predicate Unfinished<T>(w: World<T>, final: T -> bool, us: seq<Upstream>, maxAttempts: int, log: seq<Upstream>) {
    && IsTrace(w, final, us, maxAttempts, log)
    && (|log| > 0 ==> !Concludes(w.answer(|log| - 1, log[|log| - 1]), final) && !w.cancelled(|log| - 1))
  }

  lemma TraceExtends<T>(w: World<T>, final: T -> bool, us: seq<Upstream>, maxAttempts: int, log: seq<Upstream>, u: Upstream)
    requires Unfinished(w, final, us, maxAttempts, log) && |log| < AttemptLimit(maxAttempts)
    requires u in Candidates(w, us, |log|, log)
    ensures IsTrace(w, final, us, maxAttempts, log + [u])
  {
    var next := log + [u];
    forall t | 0 <= t < |next| ensures next[t] in Candidates(w, us, t, next[..t]) {
      assert next[..t] == log[..t];
    }
  }

  /** What an attempt that reached u adds to an unfinished trace. */
  lemma OneMoreAttempt<T>(w: World<T>, final: T -> bool, us: seq<Upstream>, maxAttempts: int, log: seq<Upstream>, u: Upstream)
    requires Unfinished(w, final, us, maxAttempts, log) && |log| < AttemptLimit(maxAttempts)
    requires u in Candidates(w, us, |log|, log)
    ensures Names(log + [u]) == Names(log) + {u.name}
    ensures var next, reply, stopped := log + [u], w.answer(|log|, u), w.cancelled(|log|);
      if Concludes(reply, final) then IsRun(w, final, us, maxAttempts, next, Conclusive(reply.body))
      else if stopped then IsRun(w, final, us, maxAttempts, next, Cancelled)
      else Unfinished(w, final, us, maxAttempts, next)
  {
    TraceExtends(w, final, us, maxAttempts, log, u);
    assert forall v :: v in log + [u] <==> v in log || v == u;
  }

  lemma NobodyLeft<T>(w: World<T>, final: T -> bool, us: seq<Upstream>, maxAttempts: int, log: seq<Upstream>)
    requires Unfinished(w, final, us, maxAttempts, log)
    requires |log| == AttemptLimit(maxAttempts) || Candidates(w, us, |log|, log) == []
    ensures IsRun(w, final, us, maxAttempts, log,
                  if |log| < AttemptLimit(maxAttempts) && w.cancelled(|log|) then Cancelled else GaveUp)
  {
  }

  lemma LastReplyExtends(w: World<Response>, log: seq<Upstream>, u: Upstream)
    ensures LastReply(w, log + [u]) ==
      match w.answer(|log|, u) case Replied(r) => Some(r) case Unreachable => LastReply(w, log)
  {
  }

  class Executor {
    const balancer: WeightedRoundRobin
    const pool: Pool
    const enabled: bool
    const maxAttempts: int

    constructor (b: WeightedRoundRobin, p: Pool, enabled: bool, maxAttempts: int)
      ensures balancer == b && pool == p && this.enabled == enabled && this.maxAttempts == maxAttempts
    {
      balancer, pool, this.enabled, this.maxAttempts := b, p, enabled, maxAttempts;
    }

    /** Ask the balancer for an untried upstream and send it the request. */
    method Attempt<T>(w: World<T>, t: nat, ghost log: seq<Upstream>, tried: set<string>)
      returns (u: Upstream?, reply: Reply<T>)
      requires PositiveWeights(pool.upstreams) && tried == Names(log)
      modifies balancer
      ensures u == null <==> Candidates(w, pool.upstreams, t, log) == []
      ensures u != null ==> u in Candidates(w, pool.upstreams, t, log) && reply == w.answer(t, u)
      ensures PositiveWeights(Candidates(w, pool.upstreams, t, log))
      ensures Selected(Candidates(w, pool.upstreams, t, log), old(balancer.Position()), balancer.Position(), u)
    {
      var main := Listed(pool.upstreams, Main, w.mainUp(t));
      var fallback := Listed(pool.upstreams, Fallback, w.fallbackUp(t));
      u := balancer.Next(main, fallback, tried);
      reply := Unreachable;
      if u != null {
        reply := w.answer(t, u);
      }
    }

    /** executeOnce with no exclusions: the whole of a request when retries are disabled. */
    method Once<T>(w: World<T>) returns (result: Result<T>, log: seq<Upstream>)
      requires PositiveWeights(pool.upstreams)
      modifies balancer
      ensures SingleAttempt(w, pool.upstreams, result, log)
    {
      var u, reply := Attempt(w, 0, [], {});
      if u == null {
        return NoUpstreams, [];
      }
      log := [u];
      match reply
      case Replied(r) => result := Got(r);
      case Unreachable => result := TransportError;
    }

    method Execute(w: World<Response>)
      returns (result: Result<Response>, log: seq<Upstream>, ghost end: Ending<Response>)
      requires PositiveWeights(pool.upstreams)
      modifies balancer
      ensures enabled ==> IsRun(w, Final(), pool.upstreams, maxAttempts, log, end)
      ensures enabled && end.Conclusive? ==>
        (|log| > 0 && w.answer(|log| - 1, log[|log| - 1]).Replied?
         && result == Got(w.answer(|log| - 1, log[|log| - 1]).body))
      ensures enabled && end.Cancelled? ==> result == ContextError
      ensures enabled && end.GaveUp? ==>
        ((result.Got? && exists t :: LatestReplyAt(w, log, t, result.body))
         || (result == AllUpstreamsFailed && forall t :: 0 <= t < |log| ==> w.answer(t, log[t]).Unreachable?))
      ensures !enabled ==> SingleAttempt(w, pool.upstreams, result, log)
      ensures !enabled && result != NoUpstreams ==>
        (|log| == 1 && (w.answer(0, log[0]).Unreachable? ==> result == TransportError)
         && (w.answer(0, log[0]).Replied? ==> result == Got(w.answer(0, log[0]).body)))
      ensures !enabled ==> (result == NoUpstreams <==> forall u :: u in pool.upstreams ==> !WasHealthy(w, 0, u))
    {
      NoCandidates(w, pool.upstreams, 0, []);
      if enabled {
        result, log, end := RetrySingle(w);
        ghost var t := LastReplyIsLatest(w, log);
      } else {
        end := GaveUp;
        result, log := Once(w);
      }
    }

    /** The attempt loop of a single request. */
    method RetrySingle(w: World<Response>)
      returns (result: Result<Response>, log: seq<Upstream>, ghost end: Ending<Response>)
      requires PositiveWeights(pool.upstreams)
      modifies balancer
      ensures IsRun(w, Final(), pool.upstreams, maxAttempts, log, end) && result == Outcome(w, log, end)
    {
      log, end := [], GaveUp;
      var tried: set<string> := {};
      var limit := if maxAttempts <= 0 then 1 else maxAttempts;
      var last: Option<Response> := None;
      var attempt := 0;
      while attempt < limit
        invariant |log| == attempt <= limit && tried == Names(log) && last == LastReply(w, log)
        invariant Unfinished(w, Final(), pool.upstreams, maxAttempts, log)
      {
        var u, reply := Attempt(w, attempt, log, tried);
        if u == null {
          NobodyLeft(w, Final(), pool.upstreams, maxAttempts, log);
          if w.cancelled(attempt) {
            end := Cancelled;
            return ContextError, log, end;
          }
          break;
        }
        OneMoreAttempt(w, Final(), pool.upstreams, maxAttempts, log, u);
        LastReplyExtends(w, log, u);
        log := log + [u];
        tried := tried + {u.name};
        if reply.Replied? {
          var retry := IsRetryableError(reply.body);
          if !retry {
            end := Conclusive(reply.body);
            return Got(reply.body), log, end;
          }
          last := Some(reply.body);
        }
        if w.cancelled(attempt) {
          end := Cancelled;
          return ContextError, log, end;
        }
        attempt := attempt + 1;
      }
      NobodyLeft(w, Final(), pool.upstreams, maxAttempts, log);
      match last
      case Some(r) => result := Got(r);
      case None => result := AllUpstreamsFailed;
    }

    method HasRetryable(responses: seq<Response>) returns (found: bool)
      ensures found <==> !NoneRetryable(responses)
    {
      for i := 0 to |responses|
        invariant forall j :: 0 <= j < i ==> !Retryable(responses[j])
      {
        var retry := IsRetryableError(responses[i]);
        if retry {
          return true;
        }
      }
      return false;
    }

    method ExecuteBatch(w: World<seq<Response>>)
      returns (result: Result<seq<Response>>, log: seq<Upstream>, ghost end: Ending<seq<Response>>)
      requires PositiveWeights(pool.upstreams)
      modifies balancer
      ensures enabled ==> IsRun(BatchWorld(w), FinalBatch(), pool.upstreams, maxAttempts, log, end)
      ensures enabled && end.Conclusive? ==>
        (|log| > 0 && log[|log| - 1].hasRPC && w.answer(|log| - 1, log[|log| - 1]).Replied?
         && result == Got(w.answer(|log| - 1, log[|log| - 1]).body))
      ensures enabled && end.Cancelled? ==> result == ContextError
      ensures enabled && end.GaveUp? ==> result == AllUpstreamsFailed
      ensures !enabled ==> SingleAttempt(BatchWorld(w), pool.upstreams, result, log)
      ensures !enabled && result != NoUpstreams ==>
        (|log| == 1 && (!log[0].hasRPC || w.answer(0, log[0]).Unreachable? ==> result == TransportError)
         && (log[0].hasRPC && w.answer(0, log[0]).Replied? ==> result == Got(w.answer(0, log[0]).body)))
      ensures !enabled ==> (result == NoUpstreams <==> forall u :: u in pool.upstreams ==> !WasHealthy(w, 0, u))
    {
      NoCandidates(BatchWorld(w), pool.upstreams, 0, []);
      if enabled {
        result, log, end := RetryBatch(BatchWorld(w));
      } else {
        end := GaveUp;
        result, log := Once(BatchWorld(w));
      }
    }

    /** The attempt loop of a batch. */
    method RetryBatch(b: World<seq<Response>>)
      returns (result: Result<seq<Response>>, log: seq<Upstream>, ghost end: Ending<seq<Response>>)
      requires PositiveWeights(pool.upstreams)
      modifies balancer
      ensures IsRun(b, FinalBatch(), pool.upstreams, maxAttempts, log, end) && result == BatchOutcome(end)
    {
      log, end := [], GaveUp;
      var tried: set<string> := {};
      var limit := if maxAttempts <= 0 then 1 else maxAttempts;
      var attempt := 0;
      while attempt < limit
        invariant |log| == attempt <= limit && tried == Names(log)
        invariant Unfinished(b, FinalBatch(), pool.upstreams, maxAttempts, log)
      {
        var u, reply := Attempt(b, attempt, log, tried);
        if u == null {
          NobodyLeft(b, FinalBatch(), pool.upstreams, maxAttempts, log);
          if b.cancelled(attempt) {
            end := Cancelled;
            return ContextError, log, end;
          }
          break;
        }
        OneMoreAttempt(b, FinalBatch(), pool.upstreams, maxAttempts, log, u);
        log := log + [u];
        tried := tried + {u.name};
        if reply.Replied? {
          var retry := HasRetryable(reply.body);
          if !retry {
            end := Conclusive(reply.body);
            return Got(reply.body), log, end;
          }
        }
        if b.cancelled(attempt) {
          end := Cancelled;
          return ContextError, log, end;
        }
        attempt := attempt + 1;
      }
      NobodyLeft(b, FinalBatch(), pool.upstreams, maxAttempts, log);
      result := AllUpstreamsFailed;
    }
  }

  /** An enabled batch success comes whole from one upstream with an endpoint, and nothing in it is retryable. */
  lemma BatchSuccessIsWhole(w: World<seq<Response>>, us: seq<Upstream>, maxAttempts: int,
                            log: seq<Upstream>, end: Ending<seq<Response>>, rs: seq<Response>)
    requires UniqueNames(us) && IsRun(BatchWorld(w), FinalBatch(), us, maxAttempts, log, end)
    requires BatchOutcome(end) == Got(rs)
    ensures exists t :: 0 <= t < |log| && log[t] in us && log[t].hasRPC && w.answer(t, log[t]) == Replied(rs)
    ensures NoneRetryable(rs)
  {
  }

  ghost predicate LatestReplyAt(w: World<Response>, log: seq<Upstream>, t: int, r: Response) {
    && 0 <= t < |log| && w.answer(t, log[t]) == Replied(r)
    && forall s :: t < s < |log| ==> w.answer(s, log[s]).Unreachable?
  }

  lemma {:induction false} LastReplyIsLatest(w: World<Response>, log: seq<Upstream>) returns (t: int)
    ensures match LastReply(w, log)
      case Some(r) => LatestReplyAt(w, log, t, r)
      case None => forall s :: 0 <= s < |log| ==> w.answer(s, log[s]).Unreachable?
  {
    t := |log| - 1;
    if t >= 0 && w.answer(t, log[t]).Unreachable? {
      var rest := log[..t];
      assert forall s :: 0 <= s < t ==> rest[s] == log[s];
      t := LastReplyIsLatest(w, rest);
    }
  }

  /**
   What a single request that gave up returns: the latest retryable error response received, or an
   error when no response was received at all.
   */
  lemma GaveUpReturnsLatestError(w: World<Response>, us: seq<Upstream>, maxAttempts: int, log: seq<Upstream>)
    returns (t: int)
    requires IsRun(w, Final(), us, maxAttempts, log, GaveUp)
    ensures match Outcome(w, log, GaveUp)
      case Got(r) => Retryable(r) && LatestReplyAt(w, log, t, r)
      case AllUpstreamsFailed => forall s :: 0 <= s < |log| ==> w.answer(s, log[s]).Unreachable?
      case _ => false
  {
    t := LastReplyIsLatest(w, log);
    assert forall s :: 0 <= s < |log| ==> !Concludes(w.answer(s, log[s]), Final());
  }

  /** What completeness says of the last attempt. */
  lemma ConclusiveMeans<T>(w: World<T>, final: T -> bool, us: seq<Upstream>, up: set<Upstream>, maxAttempts: int,
                           log: seq<Upstream>, end: Ending<T>, u: Upstream)
    requires UniqueNames(us) && Steady(w, up) && IsRun(w, final, us, maxAttempts, log, end)
    requires AttemptLimit(maxAttempts) >= |Healthy(us, up)|
    requires u in us && u in up && AlwaysConcludes(w, final, u)
    ensures end.Conclusive? && |log| > 0 && w.answer(|log| - 1, log[|log| - 1]) == Replied(end.body) && final(end.body)
  {
    assert u in Healthy(us, up);
    RetryIsComplete(w, final, us, up, maxAttempts, log, end);
  }

  /**
   Completeness, as the caller sees it: under the conditions of RetryIsComplete, what Execute reports of its run is
   a success or an error that no other upstream would cure, whenever some healthy upstream would give one.
   */
  lemma CallerGetsTheAnswer(w: World<Response>, us: seq<Upstream>, up: set<Upstream>, maxAttempts: int,
                            log: seq<Upstream>, end: Ending<Response>, result: Result<Response>, u: Upstream)
    requires UniqueNames(us) && Steady(w, up) && IsRun(w, Final(), us, maxAttempts, log, end)
    requires (if maxAttempts <= 0 then 1 else maxAttempts) >= |Healthy(us, up)|
    requires end.Conclusive? ==> |log| > 0 && result == Got(w.answer(|log| - 1, log[|log| - 1]).body)
    requires u in us && u in up && forall t: nat :: w.answer(t, u).Replied? && !Retryable(w.answer(t, u).body)
    ensures result.Got? && !Retryable(result.body)
    ensures exists t :: 0 <= t < |log| && w.answer(t, log[t]) == Replied(result.body)
  {
    ConclusiveMeans(w, Final(), us, up, maxAttempts, log, end, u);
  }

  /** The same for batches: some healthy upstream with an endpoint would answer without a retryable error. */
  lemma CallerGetsTheBatch(w: World<seq<Response>>, us: seq<Upstream>, up: set<Upstream>, maxAttempts: int,
                           log: seq<Upstream>, end: Ending<seq<Response>>, result: Result<seq<Response>>, u: Upstream)
    requires UniqueNames(us) && Steady(w, up) && IsRun(BatchWorld(w), FinalBatch(), us, maxAttempts, log, end)
    requires (if maxAttempts <= 0 then 1 else maxAttempts) >= |Healthy(us, up)|
    requires end.Conclusive? ==> |log| > 0 && result == Got(w.answer(|log| - 1, log[|log| - 1]).body)
    requires u in us && u in up && u.hasRPC
    requires forall t: nat ::
      w.answer(t, u).Replied? && forall i :: 0 <= i < |w.answer(t, u).body| ==> !Retryable(w.answer(t, u).body[i])
    ensures result.Got? && forall i :: 0 <= i < |result.body| ==> !Retryable(result.body[i])
  {
    ConclusiveMeans(BatchWorld(w), FinalBatch(), us, up, maxAttempts, log, end, u);
  }
}
