/**
 The health monitor as a timed state machine. Every upstream reports blocks by newHeads events or
 by polling; each new maximum schedules one lag check, and pending checks fire in any order.
 */
module Health {
  import opened JsonRpc
  import opened Upstreams

  datatype Settings = Settings(threshold: nat, lagRecoveryTimeout: int)

  datatype Node = Node(block: nat, healthy: bool)

  datatype State = State(nodes: seq<Node>, maxBlock: nat, pending: multiset<nat>)

  datatype Event =
    | NewHead(i: nat, block: nat)
    | PollOk(i: nat, block: nat)
    | PollFailed(i: nat)
    | LagCheck(target: nat)
    | Refresh

  function Initial(n: nat): State {
    State(seq(n, _ => Node(0, true)), 0, multiset{})
  }

  // ----- One event

  function Raise(b: nat, c: nat): nat { if c > b then c else b }

  function SetHealth(s: State, i: nat, h: bool): State
    requires i < |s.nodes|
  {
    s.(nodes := s.nodes[i := s.nodes[i].(healthy := h)])
  }

  /** UpdateBlock, then updateMaxBlock, then scheduleLagCheck if the maximum is new. */
  function Record(cfg: Settings, s: State, i: nat, b: nat): State
    requires i < |s.nodes|
  {
    State(
      s.nodes[i := s.nodes[i].(block := Raise(s.nodes[i].block, b))],
      Raise(s.maxBlock, b),
      if b > s.maxBlock && cfg.lagRecoveryTimeout > 0 then s.pending + multiset{b} else s.pending)
  }

  function Lag(maxBlock: nat, block: nat): nat {
    if maxBlock > block then maxBlock - block else 0
  }

  function CaughtUp(cfg: Settings, maxBlock: nat, x: Node): Node {
    if maxBlock == 0 || x.block == 0 || Lag(maxBlock, x.block) > cfg.threshold then x else x.(healthy := true)
  }

  function Check(cfg: Settings, target: nat, x: Node): Node {
    if Lag(target, x.block) > cfg.threshold then x.(healthy := false) else x
  }

  function ApplyCaughtUp(cfg: Settings, s: State, i: nat): State
    requires i < |s.nodes|
  {
    s.(nodes := s.nodes[i := CaughtUp(cfg, s.maxBlock, s.nodes[i])])
  }

  function TopBlock(nodes: seq<Node>): nat {
    if |nodes| == 0 then 0 else Raise(TopBlock(nodes[..|nodes| - 1]), nodes[|nodes| - 1].block)
  }

  predicate Enabled(s: State, e: Event) {
    match e
    case NewHead(i, _) => i < |s.nodes|
    case PollOk(i, _) => i < |s.nodes|
    case PollFailed(i) => i < |s.nodes|
    case LagCheck(t) => t in s.pending
    case Refresh => true
  }

  function Step(cfg: Settings, s: State, e: Event): (s': State)
    requires Enabled(s, e)
    ensures |s'.nodes| == |s.nodes|
  {
    match e
    case NewHead(i, b) => ApplyCaughtUp(cfg, SetHealth(Record(cfg, s, i, b), i, true), i)
    case PollOk(i, b) => ApplyCaughtUp(cfg, Record(cfg, s, i, b), i)
    case PollFailed(i) => SetHealth(s, i, false)
    case LagCheck(t) =>
      State(seq(|s.nodes|, j requires 0 <= j < |s.nodes| => Check(cfg, t, s.nodes[j])),
            s.maxBlock, s.pending - multiset{t})
    case Refresh =>
      var m := TopBlock(s.nodes);
      State(seq(|s.nodes|, j requires 0 <= j < |s.nodes| => CaughtUp(cfg, m, s.nodes[j])), m, s.pending)
  }

  // ----- Runs

  /** The state after a run of n upstreams; events that cannot happen are excluded by IsRun. */
  function After(cfg: Settings, n: nat, es: seq<Event>): (s: State)
    ensures |s.nodes| == n
  {
    if |es| == 0 then Initial(n) else
      var s := After(cfg, n, es[..|es| - 1]);
      if Enabled(s, es[|es| - 1]) then Step(cfg, s, es[|es| - 1]) else s
  }

  ghost predicate IsRun(cfg: Settings, n: nat, es: seq<Event>) {
    forall k :: 0 <= k < |es| ==> Enabled(After(cfg, n, es[..k]), es[k])
  }

  lemma RunPrefix(cfg: Settings, n: nat, es: seq<Event>)
    requires IsRun(cfg, n, es) && |es| > 0
    ensures var p := es[..|es| - 1];
      IsRun(cfg, n, p) && Enabled(After(cfg, n, p), es[|es| - 1])
      && After(cfg, n, es) == Step(cfg, After(cfg, n, p), es[|es| - 1])
  {
    var p := es[..|es| - 1];
    assert forall k :: 0 <= k < |p| ==> p[..k] == es[..k];
    assert es[..|es| - 1] == p;
  }

  /** The same with every state spelt out. */
  ghost predicate IsTrace(cfg: Settings, n: nat, ss: seq<State>, es: seq<Event>) {
    && |ss| == |es| + 1 && ss[0] == Initial(n)
    && forall k :: 0 <= k < |es| ==> Enabled(ss[k], es[k]) && ss[k + 1] == Step(cfg, ss[k], es[k])
  }

  lemma {:induction false} TraceIsRun(cfg: Settings, n: nat, ss: seq<State>, es: seq<Event>)
    requires IsTrace(cfg, n, ss, es)
    ensures IsRun(cfg, n, es) && After(cfg, n, es) == ss[|es|]
  {
    if |es| > 0 {
      var p := es[..|es| - 1];
      assert IsTrace(cfg, n, ss[..|es|], p);
      TraceIsRun(cfg, n, ss[..|es|], p);
      forall k | 0 <= k < |es| ensures Enabled(After(cfg, n, es[..k]), es[k]) {
        if k < |p| { assert es[..k] == p[..k]; }
      }
    }
  }

  lemma {:induction false} TopBlockIsMax(nodes: seq<Node>)
    ensures forall i :: 0 <= i < |nodes| ==> nodes[i].block <= TopBlock(nodes)
    ensures |nodes| > 0 ==> exists i :: 0 <= i < |nodes| && nodes[i].block == TopBlock(nodes)
    ensures |nodes| == 0 ==> TopBlock(nodes) == 0
  {
    if |nodes| > 0 {
      var k := |nodes| - 1;
      TopBlockIsMax(nodes[..k]);
      if TopBlock(nodes) == nodes[k].block {
      } else {
        var i :| 0 <= i < k && nodes[..k][i].block == TopBlock(nodes[..k]);
        assert nodes[i].block == TopBlock(nodes);
      }
    }
  }

  /** maxBlock is the largest block any upstream has, and every pending check is for a positive block up to it. */
  ghost predicate Tracked(s: State) {
    && s.maxBlock == TopBlock(s.nodes)
    && forall t :: t in s.pending ==> 0 < t <= s.maxBlock
  }

  lemma TopBlockIs(nodes: seq<Node>, m: nat)
    requires forall i :: 0 <= i < |nodes| ==> nodes[i].block <= m
    requires m == 0 || exists i :: 0 <= i < |nodes| && nodes[i].block == m
    ensures TopBlock(nodes) == m
  {
    TopBlockIsMax(nodes);
  }

  lemma {:induction false} SameBlocksSameTop(a: seq<Node>, b: seq<Node>)
    requires |a| == |b| && forall i :: 0 <= i < |a| ==> a[i].block == b[i].block
    ensures TopBlock(a) == TopBlock(b)
  {
    if |a| > 0 { SameBlocksSameTop(a[..|a| - 1], b[..|a| - 1]); }
  }

  lemma RecordTracks(cfg: Settings, s: State, i: nat, b: nat)
    requires Tracked(s) && i < |s.nodes|
    ensures Tracked(Record(cfg, s, i, b))
  {
    var s' := Record(cfg, s, i, b);
    TopBlockIsMax(s.nodes);
    var k :| 0 <= k < |s.nodes| && s.nodes[k].block == s.maxBlock;
    assert s'.nodes[if b > s.maxBlock then i else k].block == s'.maxBlock;
    TopBlockIs(s'.nodes, s'.maxBlock);
  }

  lemma RefreshTracks(cfg: Settings, s: State)
    requires Tracked(s)
    ensures Tracked(Step(cfg, s, Refresh)) && Step(cfg, s, Refresh).maxBlock == s.maxBlock
  {
    SameBlocksSameTop(s.nodes, Step(cfg, s, Refresh).nodes);
  }

  lemma CheckTracks(cfg: Settings, s: State, t: nat)
    requires Tracked(s) && t in s.pending
    ensures Tracked(Step(cfg, s, LagCheck(t)))
  {
    SameBlocksSameTop(s.nodes, Step(cfg, s, LagCheck(t)).nodes);
  }

  lemma ReportTracks(cfg: Settings, s: State, e: Event)
    requires Tracked(s) && Enabled(s, e) && (e.NewHead? || e.PollOk?)
    ensures Tracked(Step(cfg, s, e)) && Step(cfg, s, e).maxBlock >= s.maxBlock
  {
    RecordTracks(cfg, s, e.i, e.block);
    SameBlocksSameTop(Record(cfg, s, e.i, e.block).nodes, Step(cfg, s, e).nodes);
  }

  lemma StepTracks(cfg: Settings, s: State, e: Event)
    requires Tracked(s) && Enabled(s, e)
    ensures Tracked(Step(cfg, s, e))
    ensures Step(cfg, s, e).maxBlock >= s.maxBlock
  {
    match e
    case NewHead(_, _) => ReportTracks(cfg, s, e);
    case PollOk(_, _) => ReportTracks(cfg, s, e);
    case PollFailed(_) => SameBlocksSameTop(s.nodes, Step(cfg, s, e).nodes);
    case LagCheck(t) => CheckTracks(cfg, s, t);
    case Refresh => RefreshTracks(cfg, s);
  }

  lemma {:induction false} AlwaysTracked(cfg: Settings, n: nat, es: seq<Event>)
    requires IsRun(cfg, n, es)
    ensures Tracked(After(cfg, n, es))
  {
    if |es| == 0 {
      TopBlockIs(Initial(n).nodes, 0);
    } else {
      RunPrefix(cfg, n, es);
      AlwaysTracked(cfg, n, es[..|es| - 1]);
      StepTracks(cfg, After(cfg, n, es[..|es| - 1]), es[|es| - 1]);
    }
  }

  // ----- A lagging healthy upstream is always accounted for

  ghost predicate CheckRan(es: seq<Event>, target: nat, j: nat) {
    j < |es| && es[j] == LagCheck(target)
  }

  /** The check for the current maximum is pending or has run. */
  lemma {:induction false} CheckPendingOrRan(cfg: Settings, n: nat, es: seq<Event>)
    requires IsRun(cfg, n, es) && cfg.lagRecoveryTimeout > 0
    ensures var m := After(cfg, n, es).maxBlock;
      m == 0 || m in After(cfg, n, es).pending || exists j :: CheckRan(es, m, j)
  {
    if |es| > 0 {
      var p, e := es[..|es| - 1], es[|es| - 1];
      RunPrefix(cfg, n, es);
      CheckPendingOrRan(cfg, n, p);
      AlwaysTracked(cfg, n, p);
      var s, m := After(cfg, n, p), After(cfg, n, es).maxBlock;
      if e == LagCheck(m) {
        assert CheckRan(es, m, |es| - 1);
      } else if m == s.maxBlock && m != 0 && m !in s.pending {
        var j :| CheckRan(p, m, j);
        assert CheckRan(es, m, j);
      }
    }
  }

  /** Upstream i delivered a newHeads event (at k) after the check for the current maximum ran (at j). */
  ghost predicate HeadAfterCheck(cfg: Settings, n: nat, es: seq<Event>, i: nat, j: nat, k: nat) {
    j < k < |es| && CheckRan(es, After(cfg, n, es).maxBlock, j) && es[k].NewHead? && es[k].i == i
  }

  ghost predicate Lagging(cfg: Settings, s: State, i: nat)
    requires i < |s.nodes|
  {
    Lag(s.maxBlock, s.nodes[i].block) > cfg.threshold
  }

  /** What one event leaves of a lagging healthy upstream whose check is not pending. */
  lemma LaggingStep(cfg: Settings, s0: State, e: Event, i: nat)
    requires Tracked(s0) && Enabled(s0, e) && cfg.lagRecoveryTimeout > 0 && i < |s0.nodes|
    ensures var s := Step(cfg, s0, e);
      s.nodes[i].healthy && Lagging(cfg, s, i) && s.maxBlock !in s.pending ==>
        && s.maxBlock == s0.maxBlock && s.maxBlock !in s0.pending && e != LagCheck(s.maxBlock)
        && ((e.NewHead? && e.i == i) || (s0.nodes[i].healthy && Lagging(cfg, s0, i)))
  {
    TopBlockIsMax(s0.nodes);
  }

  /**
   Over all event sequences: a healthy upstream that lags beyond the threshold still has the check
   for the current maximum ahead of it, or has delivered a newHeads event since that check ran.
   */
  lemma {:induction false} LagInvariant(cfg: Settings, n: nat, es: seq<Event>, i: nat)
    requires IsRun(cfg, n, es) && cfg.lagRecoveryTimeout > 0 && i < n
    ensures var s := After(cfg, n, es);
      s.nodes[i].healthy && Lagging(cfg, s, i) ==>
        s.maxBlock in s.pending || exists j, k :: HeadAfterCheck(cfg, n, es, i, j, k)
  {
    if |es| > 0 {
      var p, e := es[..|es| - 1], es[|es| - 1];
      var s0, s := After(cfg, n, p), After(cfg, n, es);
      RunPrefix(cfg, n, es);
      AlwaysTracked(cfg, n, p);
      LaggingStep(cfg, s0, e, i);
      LagInvariant(cfg, n, p, i);
      if s.nodes[i].healthy && Lagging(cfg, s, i) && s.maxBlock !in s.pending {
        if e.NewHead? && e.i == i {
          CheckPendingOrRan(cfg, n, es);
          var j :| CheckRan(es, s.maxBlock, j);
          assert HeadAfterCheck(cfg, n, es, i, j, |es| - 1);
        } else {
          var j, k :| HeadAfterCheck(cfg, n, p, i, j, k);
          assert HeadAfterCheck(cfg, n, es, i, j, k);
        }
      }
    }
  }

  /** An upstream that only polls never needs the second case. */
  lemma PollersAreChecked(cfg: Settings, n: nat, es: seq<Event>, i: nat)
    requires IsRun(cfg, n, es) && cfg.lagRecoveryTimeout > 0 && i < n
    requires forall k :: 0 <= k < |es| ==> !(es[k].NewHead? && es[k].i == i)
    ensures var s := After(cfg, n, es);
      s.nodes[i].healthy && Lagging(cfg, s, i) ==> s.maxBlock in s.pending
  {
    LagInvariant(cfg, n, es, i);
  }

  /** Without a positive recovery timeout no lag check is ever scheduled. */
  lemma {:induction false} NoTimeoutNoChecks(cfg: Settings, n: nat, es: seq<Event>)
    requires IsRun(cfg, n, es) && cfg.lagRecoveryTimeout <= 0
    ensures After(cfg, n, es).pending == multiset{}
    ensures forall k :: 0 <= k < |es| ==> !es[k].LagCheck?
  {
    if |es| > 0 {
      RunPrefix(cfg, n, es);
      NoTimeoutNoChecks(cfg, n, es[..|es| - 1]);
      assert forall k :: 0 <= k < |es| - 1 ==> es[k] == es[..|es| - 1][k];
    }
  }

  // ----- Lag checks never take the pool down

  /** Whether upstream i counts as failed after e, having counted as `before`. */
  function Judged(e: Event, i: nat, before: bool): bool {
    match e
    case NewHead(j, _) => j != i && before
    case PollOk(j, _) => j != i && before
    case PollFailed(j) => j == i || before
    case LagCheck(_) => before
    case Refresh => false
  }

  /** The latest event that judged upstream i was a failed poll. */
  function FailedLast(es: seq<Event>, i: nat): bool {
    if |es| == 0 then false else Judged(es[|es| - 1], i, FailedLast(es[..|es| - 1], i))
  }

  ghost predicate TopJudged(s: State, i: nat, failed: bool)
    requires i < |s.nodes|
  {
    s.maxBlock > 0 && s.nodes[i].block == s.maxBlock ==> (s.nodes[i].healthy <==> !failed)
  }

  lemma TopReport(cfg: Settings, s: State, e: Event, i: nat, failed: bool)
    requires Tracked(s) && Enabled(s, e) && i < |s.nodes| && TopJudged(s, i, failed) && (e.NewHead? || e.PollOk?)
    ensures TopJudged(Step(cfg, s, e), i, Judged(e, i, failed))
  {
    TopBlockIsMax(s.nodes);
  }

  lemma TopCheck(cfg: Settings, s: State, t: nat, i: nat, failed: bool)
    requires Tracked(s) && t in s.pending && i < |s.nodes| && TopJudged(s, i, failed)
    ensures TopJudged(Step(cfg, s, LagCheck(t)), i, failed)
  {
  }

  lemma TopRefresh(cfg: Settings, s: State, i: nat, failed: bool)
    requires Tracked(s) && i < |s.nodes| && TopJudged(s, i, failed)
    ensures TopJudged(Step(cfg, s, Refresh), i, false)
  {
  }

  lemma TopStep(cfg: Settings, s: State, e: Event, i: nat, failed: bool)
    requires Tracked(s) && Enabled(s, e) && i < |s.nodes| && TopJudged(s, i, failed)
    ensures TopJudged(Step(cfg, s, e), i, Judged(e, i, failed))
  {
    match e
    case NewHead(_, _) => TopReport(cfg, s, e, i, failed);
    case PollOk(_, _) => TopReport(cfg, s, e, i, failed);
    case PollFailed(_) =>
    case LagCheck(t) => TopCheck(cfg, s, t, i, failed);
    case Refresh => TopRefresh(cfg, s, i, failed);
  }

  /**
   Whatever order the checks fire in, an upstream at the maximal positive block is healthy exactly
   when the latest event that judged it, one of its own or a refresh, was not a failed poll.
   */
  lemma {:induction false} TopIsHealthy(cfg: Settings, n: nat, es: seq<Event>, i: nat)
    requires IsRun(cfg, n, es) && i < n
    ensures var s := After(cfg, n, es);
      s.maxBlock > 0 && s.nodes[i].block == s.maxBlock ==> (s.nodes[i].healthy <==> !FailedLast(es, i))
  {
    if |es| > 0 {
      var p := es[..|es| - 1];
      RunPrefix(cfg, n, es);
      AlwaysTracked(cfg, n, p);
      TopIsHealthy(cfg, n, p, i);
      TopStep(cfg, After(cfg, n, p), es[|es| - 1], i, FailedLast(p, i));
    }
  }

  /** While nothing above block 0 has been reported, only a newHeads event undoes a failed poll. */
  function FailedSinceHead(es: seq<Event>, i: nat): bool {
    if |es| == 0 then false else
      match es[|es| - 1]
      case NewHead(j, _) => j != i && FailedSinceHead(es[..|es| - 1], i)
      case PollFailed(j) => j == i || FailedSinceHead(es[..|es| - 1], i)
      case _ => FailedSinceHead(es[..|es| - 1], i)
  }

  /** The remaining case: at maximum 0 an upstream is healthy exactly when no failed poll followed its last newHeads event. */
  lemma {:induction false} HealthAtGenesis(cfg: Settings, n: nat, es: seq<Event>, i: nat)
    requires IsRun(cfg, n, es) && i < n
    ensures After(cfg, n, es).maxBlock == 0 ==> (After(cfg, n, es).nodes[i].healthy <==> !FailedSinceHead(es, i))
  {
    if |es| > 0 {
      var p := es[..|es| - 1];
      RunPrefix(cfg, n, es);
      AlwaysTracked(cfg, n, p);
      TopBlockIsMax(After(cfg, n, p).nodes);
      StepTracks(cfg, After(cfg, n, p), es[|es| - 1]);
      HealthAtGenesis(cfg, n, p, i);
    }
  }

  /** The positive block matters: a poll that reports block 0 does not undo an earlier failure. */
  lemma GenesisPollDoesNotRecover(cfg: Settings)
    ensures var es := [PollFailed(0), PollOk(0, 0)]; var s := After(cfg, 1, es);
      IsRun(cfg, 1, es) && s.nodes[0].block == s.maxBlock && !FailedLast(es, 0) && !s.nodes[0].healthy
  {
  }

  predicate NoPollFails(es: seq<Event>) {
    forall k :: 0 <= k < |es| ==> !es[k].PollFailed?
  }

  /** While the maximum stays 0, only a failed poll makes an upstream unhealthy. */
  lemma GenesisStep(cfg: Settings, s: State, e: Event, i: nat)
    requires Tracked(s) && Enabled(s, e) && i < |s.nodes| && !e.PollFailed? && (s.maxBlock == 0 ==> s.nodes[i].healthy)
    ensures Step(cfg, s, e).maxBlock == 0 ==> Step(cfg, s, e).nodes[i].healthy
  {
    StepTracks(cfg, s, e);
  }

  lemma {:induction false} NoFailures(cfg: Settings, n: nat, es: seq<Event>, i: nat)
    requires IsRun(cfg, n, es) && i < n && NoPollFails(es)
    ensures !FailedLast(es, i)
    ensures After(cfg, n, es).maxBlock == 0 ==> After(cfg, n, es).nodes[i].healthy
  {
    if |es| > 0 {
      var p := es[..|es| - 1];
      RunPrefix(cfg, n, es);
      AlwaysTracked(cfg, n, p);
      assert NoPollFails(p) by {
        assert forall k :: 0 <= k < |p| ==> p[k] == es[k];
      }
      NoFailures(cfg, n, p, i);
      GenesisStep(cfg, After(cfg, n, p), es[|es| - 1], i);
    }
  }

  /** With no failed polls, some upstream is healthy in every reachable state of a non-empty pool. */
  lemma PoolStaysUp(cfg: Settings, n: nat, es: seq<Event>)
    requires IsRun(cfg, n, es) && n > 0 && NoPollFails(es)
    ensures exists i :: 0 <= i < n && After(cfg, n, es).nodes[i].healthy
  {
    var s := After(cfg, n, es);
    AlwaysTracked(cfg, n, es);
    TopBlockIsMax(s.nodes);
    var i :| 0 <= i < n && s.nodes[i].block == s.maxBlock;
    NoFailures(cfg, n, es, i);
    TopIsHealthy(cfg, n, es, i);
    assert s.nodes[i].healthy;
  }

  // ----- What switches lag checks off

  /** Without failed polls, upstreams never become unhealthy. */
  ghost predicate OnlyFailedPollsHurt(cfg: Settings, n: nat) {
    forall es: seq<Event>, i: nat :: IsRun(cfg, n, es) && NoPollFails(es) && i < n ==> HealthyAfter(cfg, n, es, i)
  }

  predicate HealthyAfter(cfg: Settings, n: nat, es: seq<Event>, i: nat)
    requires i < n
  {
    After(cfg, n, es).nodes[i].healthy
  }

  lemma {:induction false} NoTimeoutNoHarm(cfg: Settings, n: nat, es: seq<Event>, i: nat)
    requires IsRun(cfg, n, es) && NoPollFails(es) && cfg.lagRecoveryTimeout <= 0 && i < n
    ensures After(cfg, n, es).nodes[i].healthy
  {
    if |es| > 0 {
      RunPrefix(cfg, n, es);
      NoTimeoutNoHarm(cfg, n, es[..|es| - 1], i);
      NoTimeoutNoChecks(cfg, n, es);
      assert !es[|es| - 1].LagCheck?;
    }
  }

  /** Whatever the threshold, a second upstream that has reported nothing is marked by the first check of a high enough block. */
  lemma LaggardIsMarked(cfg: Settings, n: nat) returns (es: seq<Event>)
    requires cfg.lagRecoveryTimeout > 0 && n >= 2
    ensures IsRun(cfg, n, es) && NoPollFails(es) && !After(cfg, n, es).nodes[1].healthy
  {
    var b := cfg.threshold + 1;
    es := [NewHead(0, b), LagCheck(b)];
    assert es[..0] == [] && es[..1] == [NewHead(0, b)] && es[..1][..0] == [];
    var s := Step(cfg, Initial(n), NewHead(0, b));
    assert After(cfg, n, []) == Initial(n);
    assert After(cfg, n, es[..1]) == s;
    assert b in s.pending && s.nodes[1] == Node(0, true);
    assert After(cfg, n, es) == Step(cfg, s, es[1]);
  }

  lemma LoneUpstreamStaysUp(cfg: Settings, es: seq<Event>)
    requires IsRun(cfg, 1, es) && NoPollFails(es)
    ensures HealthyAfter(cfg, 1, es, 0)
  {
    PoolStaysUp(cfg, 1, es);
    var j :| 0 <= j < 1 && After(cfg, 1, es).nodes[j].healthy;
    assert j == 0;
  }

  lemma OffWithoutTimeout(cfg: Settings, n: nat)
    requires cfg.lagRecoveryTimeout <= 0
    ensures OnlyFailedPollsHurt(cfg, n)
  {
    forall es: seq<Event>, i: nat | IsRun(cfg, n, es) && NoPollFails(es) && i < n ensures HealthyAfter(cfg, n, es, i) {
      NoTimeoutNoHarm(cfg, n, es, i);
    }
  }

  lemma OffForOne(cfg: Settings)
    ensures OnlyFailedPollsHurt(cfg, 1)
  {
    forall es: seq<Event>, i: nat | IsRun(cfg, 1, es) && NoPollFails(es) && i < 1 ensures HealthyAfter(cfg, 1, es, i) {
      LoneUpstreamStaysUp(cfg, es);
    }
  }

  /**
   Lag checks are off, in the sense that only failed polls ever make an upstream unhealthy, exactly when the
   recovery timeout is not positive or there is at most one upstream. The threshold has no say in it.
   */
  lemma LagChecksOffIff(cfg: Settings, n: nat)
    ensures OnlyFailedPollsHurt(cfg, n) <==> cfg.lagRecoveryTimeout <= 0 || n <= 1
  {
    if cfg.lagRecoveryTimeout <= 0 {
      OffWithoutTimeout(cfg, n);
    } else if n == 1 {
      OffForOne(cfg);
    } else if n >= 2 {
      var es := LaggardIsMarked(cfg, n);
      assert !HealthyAfter(cfg, n, es, 1);
    }
  }

  // ----- The monitor object

  class HealthMonitor {
    const upstreams: seq<Upstream>
    const cfg: Settings
    var maxBlock: nat
    /** Timers started by scheduleLagCheck that have not fired. */
    var pending: multiset<nat>

    function View(): (s: State)
      reads this, upstreams
      ensures |s.nodes| == |upstreams|
    {
      State(seq(|upstreams|, i requires 0 <= i < |upstreams| reads upstreams =>
              Node(upstreams[i].currentBlock, upstreams[i].healthy)), maxBlock, pending)
    }

    constructor (us: seq<Upstream>, cfg: Settings)
      requires forall u :: u in us ==> u.healthy && u.currentBlock == 0
      ensures upstreams == us && this.cfg == cfg
      ensures View() == Initial(|us|)
    {
      upstreams, this.cfg, maxBlock, pending := us, cfg, 0, multiset{};
    }

    method UpdateMaxBlock(block: nat) returns (isNew: bool)
      modifies this`maxBlock
      ensures View() == old(View()).(maxBlock := Raise(old(maxBlock), block)) && (isNew <==> block > old(maxBlock))
    {
      if block > maxBlock {
        maxBlock := block;
        return true;
      }
      return false;
    }

    method ScheduleLagCheck(target: nat)
      modifies this`pending
      ensures View() == if cfg.lagRecoveryTimeout > 0
        then old(View()).(pending := old(pending) + multiset{target}) else old(View())
    {
      if cfg.lagRecoveryTimeout <= 0 {
        return;
      }
      pending := pending + multiset{target};
    }

    method UpdateBlock(u: Upstream, ghost i: nat, block: nat)
      requires i < |upstreams| && upstreams[i] == u && UniqueNames(upstreams)
      modifies u`currentBlock
      ensures View() == var s := old(View());
        s.(nodes := s.nodes[i := s.nodes[i].(block := Raise(s.nodes[i].block, block))])
    {
      var updated := u.UpdateBlock(block, []);
    }

    method MarkHealth(u: Upstream, ghost i: nat, healthy: bool)
      requires i < |upstreams| && upstreams[i] == u && UniqueNames(upstreams)
      modifies u`healthy
      ensures View() == SetHealth(old(View()), i, healthy)
    {
      u.SetHealthy(healthy);
    }

    method CheckUpstreamCaughtUp(u: Upstream, ghost i: nat)
      requires i < |upstreams| && upstreams[i] == u && UniqueNames(upstreams)
      modifies u`healthy
      ensures View() == ApplyCaughtUp(cfg, old(View()), i)
      ensures u.healthy <==>
        old(u.healthy) || (maxBlock > 0 && u.currentBlock > 0 && maxBlock - u.currentBlock <= cfg.threshold)
    {
      if maxBlock == 0 || u.currentBlock == 0 {
        return;
      }
      var lag := 0;
      if maxBlock > u.currentBlock {
        lag := maxBlock - u.currentBlock;
      }
      if lag <= cfg.threshold {
        u.SetHealthy(true);
      }
    }

    /** What newHeads events and successful polls share; only the former mark the upstream healthy outright. */
    method RecordBlock(u: Upstream, ghost i: nat, block: nat, markHealthy: bool)
      requires i < |upstreams| && upstreams[i] == u && UniqueNames(upstreams)
      modifies this, u
      ensures View() == var s := Record(cfg, old(View()), i, block); if markHealthy then SetHealth(s, i, true) else s
    {
      UpdateBlock(u, i, block);
      if markHealthy {
        MarkHealth(u, i, true);
      }
      var isNewMax := UpdateMaxBlock(block);
      if isNewMax {
        ScheduleLagCheck(block);
      }
    }

    /** OnBlock: block is absent when the header does not parse. */
    method OnBlock(name: string, block: Option<nat>)
      requires UniqueNames(upstreams)
      modifies this, upstreams
      ensures (forall u :: u in upstreams ==> u.name != name) || block.None? ==> View() == old(View())
      ensures forall i :: 0 <= i < |upstreams| && upstreams[i].name == name && block.Some? ==>
        View() == Step(cfg, old(View()), NewHead(i, block.value))
    {
      var i := 0;
      while i < |upstreams| && upstreams[i].name != name
        invariant 0 <= i <= |upstreams|
        invariant forall j :: 0 <= j < i ==> upstreams[j].name != name
      {
        i := i + 1;
      }
      if i == |upstreams| || block.None? {
        return;
      }
      var u := upstreams[i];
      RecordBlock(u, i, block.value, true);
      CheckUpstreamCaughtUp(u, i);
    }

    /** pollBlockNumber, with its outcome: a block number, or any of the ways a poll can fail. */
    method PollBlockNumber(i: nat, outcome: Option<nat>)
      requires i < |upstreams| && UniqueNames(upstreams)
      modifies this, upstreams
      ensures View() == Step(cfg, old(View()), if outcome.Some? then PollOk(i, outcome.value) else PollFailed(i))
      ensures outcome.None? ==> !upstreams[i].healthy
      ensures outcome.Some? ==> var u := upstreams[i];
        u.healthy <==>
          old(u.healthy) || (maxBlock > 0 && u.currentBlock > 0 && maxBlock - u.currentBlock <= cfg.threshold)
    {
      match outcome
      case None => upstreams[i].SetHealthy(false);
      case Some(block) =>
        var u := upstreams[i];
        RecordBlock(u, i, block, false);
        CheckUpstreamCaughtUp(u, i);
    }

    method CheckLag(u: Upstream, ghost i: nat, target: nat)
      requires i < |upstreams| && upstreams[i] == u && UniqueNames(upstreams)
      modifies u`healthy
      ensures View() == var s := old(View()); s.(nodes := s.nodes[i := Check(cfg, target, s.nodes[i])])
    {
      if target > u.currentBlock {
        var lag := target - u.currentBlock;
        if lag > cfg.threshold {
          u.SetHealthy(false);
        }
      }
    }

    /** A scheduled timer fires. */
    method CheckLagForBlock(target: nat)
      requires target in pending && UniqueNames(upstreams)
      modifies this, upstreams
      ensures View() == Step(cfg, old(View()), LagCheck(target))
    {
      ghost var before := View();
      pending := pending - multiset{target};
      for i := 0 to |upstreams|
        invariant forall j :: 0 <= j < i ==> View().nodes[j] == Check(cfg, target, before.nodes[j])
        invariant forall j :: i <= j < |upstreams| ==> View().nodes[j] == before.nodes[j]
        invariant maxBlock == before.maxBlock && pending == before.pending - multiset{target}
      {
        CheckLag(upstreams[i], i, target);
      }
      assert View().nodes == Step(cfg, before, LagCheck(target)).nodes;
    }

    method RefreshAllHealth()
      requires UniqueNames(upstreams)
      modifies this, upstreams
      ensures View() == Step(cfg, old(View()), Refresh)
    {
      ghost var before := View();
      var top := 0;
      for i := 0 to |upstreams|
        invariant top == TopBlock(before.nodes[..i]) && View() == before
      {
        assert before.nodes[..i + 1][..i] == before.nodes[..i];
        if upstreams[i].currentBlock > top {
          top := upstreams[i].currentBlock;
        }
      }
      assert before.nodes[..|upstreams|] == before.nodes;
      maxBlock := top;
      for i := 0 to |upstreams|
        invariant forall j :: 0 <= j < i ==> View().nodes[j] == CaughtUp(cfg, top, before.nodes[j])
        invariant forall j :: i <= j < |upstreams| ==> View().nodes[j] == before.nodes[j]
        invariant maxBlock == top && pending == old(pending)
      {
        CheckUpstreamCaughtUp(upstreams[i], i);
      }
      assert View().nodes == Step(cfg, before, Refresh).nodes;
    }
  }
}
