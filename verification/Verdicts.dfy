/** What the runs of the health monitor come to, said of the events alone: blocks, health and pending checks. */
module Verdicts {
  import opened Health

  predicate IsReport(e: Event) { e.NewHead? || e.PollOk? }

  predicate ReportsOf(e: Event, i: nat) { IsReport(e) && e.i == i }

  // ----- One event, in numbers

  /** A report raises the block and the maximum, starts a check of a new maximum, and heals within the threshold. */
  lemma ReportEffect(cfg: Settings, s: State, e: Event)
    requires Enabled(s, e) && (e.NewHead? || e.PollOk?)
    ensures var t, was, now := Step(cfg, s, e), s.nodes[e.i], Step(cfg, s, e).nodes[e.i];
      && now.block == (if e.block > was.block then e.block else was.block)
      && t.maxBlock == (if e.block > s.maxBlock then e.block else s.maxBlock)
      && (now.healthy <==> e.NewHead? || was.healthy
                           || (t.maxBlock > 0 && now.block > 0 && t.maxBlock - now.block <= cfg.threshold))
      && (forall j :: 0 <= j < |s.nodes| && j != e.i ==> t.nodes[j] == s.nodes[j])
      && t.pending == if e.block > s.maxBlock && cfg.lagRecoveryTimeout > 0 then s.pending + multiset{e.block} else s.pending
  {
  }

  /** A refresh heals whoever is within the threshold of the largest block, and changes nothing else. */
  lemma RefreshEffect(cfg: Settings, s: State, j: nat)
    requires Tracked(s) && j < |s.nodes|
    ensures var t, was, now := Step(cfg, s, Refresh), s.nodes[j], Step(cfg, s, Refresh).nodes[j];
      && t.maxBlock == s.maxBlock && t.pending == s.pending && now.block == was.block
      && (now.healthy <==> was.healthy || (s.maxBlock > 0 && was.block > 0 && s.maxBlock - was.block <= cfg.threshold))
  {
  }

  /** A lag check harms exactly those further behind its target than the threshold; it heals nobody. */
  lemma CheckEffect(cfg: Settings, s: State, target: nat, j: nat)
    requires target in s.pending && j < |s.nodes|
    ensures var t, was, now := Step(cfg, s, LagCheck(target)), s.nodes[j], Step(cfg, s, LagCheck(target)).nodes[j];
      && t.maxBlock == s.maxBlock && t.pending == s.pending[target := s.pending[target] - 1] && now.block == was.block
      && (now.healthy <==> was.healthy && target - was.block <= cfg.threshold)
  {
  }

  /** A failed poll marks its upstream and nothing else. */
  lemma FailedPollEffect(cfg: Settings, s: State, i: nat)
    requires i < |s.nodes|
    ensures var t := Step(cfg, s, PollFailed(i));
      && t.nodes[i] == Node(s.nodes[i].block, false) && t.maxBlock == s.maxBlock && t.pending == s.pending
      && forall j :: 0 <= j < |s.nodes| && j != i ==> t.nodes[j] == s.nodes[j]
  {
  }

  // ----- Blocks over runs

  /** b is the highest block that upstream i reports in es, 0 if it reports none. */
  ghost predicate Highest(es: seq<Event>, i: nat, b: nat) {
    && (forall k :: 0 <= k < |es| && ReportsOf(es[k], i) ==> es[k].block <= b)
    && (b == 0 || exists k :: 0 <= k < |es| && ReportsOf(es[k], i) && es[k].block == b)
  }

  /** b is the highest block that anyone reports in es, 0 if nobody reports. */
  ghost predicate HighestOfAll(es: seq<Event>, b: nat) {
    && (forall k :: 0 <= k < |es| && IsReport(es[k]) ==> es[k].block <= b)
    && (b == 0 || exists k :: 0 <= k < |es| && IsReport(es[k]) && es[k].block == b)
  }

  lemma HighestStep(p: seq<Event>, e: Event, i: nat, b: nat)
    requires Highest(p, i, b)
    ensures Highest(p + [e], i, if ReportsOf(e, i) && e.block > b then e.block else b)
  {
    assert (p + [e])[|p|] == e;
    assert forall k :: 0 <= k < |p| ==> (p + [e])[k] == p[k];
  }

  lemma HighestOfAllStep(p: seq<Event>, e: Event, b: nat)
    requires HighestOfAll(p, b)
    ensures HighestOfAll(p + [e], if IsReport(e) && e.block > b then e.block else b)
  {
    assert (p + [e])[|p|] == e;
    assert forall k :: 0 <= k < |p| ==> (p + [e])[k] == p[k];
  }

  lemma BlockStep(cfg: Settings, s: State, e: Event, i: nat)
    requires Enabled(s, e) && i < |s.nodes|
    ensures Step(cfg, s, e).nodes[i].block ==
      if ReportsOf(e, i) && e.block > s.nodes[i].block then e.block else s.nodes[i].block
  {
  }

  lemma MaxStep(cfg: Settings, s: State, e: Event)
    requires Tracked(s) && Enabled(s, e)
    ensures Step(cfg, s, e).maxBlock == if IsReport(e) && e.block > s.maxBlock then e.block else s.maxBlock
  {
  }

  lemma LastSplits(es: seq<Event>)
    requires |es| > 0
    ensures es == es[..|es| - 1] + [es[|es| - 1]]
  {
  }

  lemma RunLast(cfg: Settings, n: nat, es: seq<Event>) returns (p: seq<Event>, e: Event, s: State)
    requires IsRun(cfg, n, es) && |es| > 0
    ensures es == p + [e] && p == es[..|es| - 1] && IsRun(cfg, n, p)
    ensures s == After(cfg, n, p) && Tracked(s) && Enabled(s, e) && After(cfg, n, es) == Step(cfg, s, e)
  {
    p, e := es[..|es| - 1], es[|es| - 1];
    s := After(cfg, n, p);
    LastSplits(es);
    RunPrefix(cfg, n, es);
    AlwaysTracked(cfg, n, p);
  }

  /** An upstream's block is the highest it has reported. */
  lemma {:induction false} BlockIsHighestReport(cfg: Settings, n: nat, es: seq<Event>, i: nat)
    requires IsRun(cfg, n, es) && i < n
    ensures Highest(es, i, After(cfg, n, es).nodes[i].block)
  {
    if |es| > 0 {
      var p, e, s := RunLast(cfg, n, es);
      BlockIsHighestReport(cfg, n, p, i);
      BlockStep(cfg, s, e, i);
      HighestStep(p, e, i, s.nodes[i].block);
    }
  }

  /** The maximum is the highest block anyone has reported. */
  lemma {:induction false} MaxIsHighestReport(cfg: Settings, n: nat, es: seq<Event>)
    requires IsRun(cfg, n, es)
    ensures HighestOfAll(es, After(cfg, n, es).maxBlock)
  {
    if |es| > 0 {
      var p, e, s := RunLast(cfg, n, es);
      MaxIsHighestReport(cfg, n, p);
      MaxStep(cfg, s, e);
      HighestOfAllStep(p, e, s.maxBlock);
    }
  }

  // ----- Health over runs

  /** Upstream i and the maximum are both above 0 and no further apart than the threshold. */
  ghost predicate Near(cfg: Settings, s: State, i: nat)
    requires i < |s.nodes|
  {
    s.maxBlock > 0 && s.nodes[i].block > 0 && s.maxBlock - s.nodes[i].block <= cfg.threshold
  }

  /** Event k heals upstream i: its newHeads event, or its poll or a refresh that finds it near the maximum. */
  ghost predicate Heals(cfg: Settings, n: nat, es: seq<Event>, i: nat, k: nat)
    requires i < n && k < |es|
  {
    || (es[k].NewHead? && es[k].i == i)
    || ((es[k].Refresh? || (es[k].PollOk? && es[k].i == i)) && Near(cfg, After(cfg, n, es[..k + 1]), i))
  }

  /** Event k harms upstream i: its failed poll, or a check whose target is out of reach. */
  ghost predicate Harms(cfg: Settings, n: nat, es: seq<Event>, i: nat, k: nat)
    requires i < n && k < |es|
  {
    || (es[k].PollFailed? && es[k].i == i)
    || (es[k].LagCheck? && es[k].target - After(cfg, n, es[..k]).nodes[i].block > cfg.threshold)
  }

  ghost predicate HealedSince(cfg: Settings, n: nat, es: seq<Event>, i: nat, k: nat)
    requires i < n
  {
    exists h :: k < h < |es| && Heals(cfg, n, es, i, h)
  }

  /** Every harm has been followed by a healing. */
  ghost predicate Recovered(cfg: Settings, n: nat, es: seq<Event>, i: nat)
    requires i < n
  {
    forall k :: 0 <= k < |es| && Harms(cfg, n, es, i, k) ==> HealedSince(cfg, n, es, i, k)
  }

  lemma VerdictStep(cfg: Settings, n: nat, es: seq<Event>, i: nat)
    requires IsRun(cfg, n, es) && i < n && |es| > 0
    ensures var last: nat := |es| - 1; var before, now := After(cfg, n, es[..last]).nodes[i], After(cfg, n, es).nodes[i];
      && now.healthy == (Heals(cfg, n, es, i, last) || (before.healthy && !Harms(cfg, n, es, i, last)))
      && !(Heals(cfg, n, es, i, last) && Harms(cfg, n, es, i, last))
  {
    var p, e := es[..|es| - 1], es[|es| - 1];
    RunPrefix(cfg, n, es);
    AlwaysTracked(cfg, n, p);
    assert es[..|es| - 1 + 1] == es;
    var s := After(cfg, n, p);
    match e
    case NewHead(_, _) => ReportEffect(cfg, s, e);
    case PollOk(_, _) => ReportEffect(cfg, s, e);
    case PollFailed(j) => FailedPollEffect(cfg, s, j);
    case LagCheck(t) => CheckEffect(cfg, s, t, i);
    case Refresh => RefreshEffect(cfg, s, i);
  }

  lemma RecoveredStep(cfg: Settings, n: nat, es: seq<Event>, i: nat)
    requires i < n && |es| > 0
    requires !(Heals(cfg, n, es, i, |es| - 1) && Harms(cfg, n, es, i, |es| - 1))
    ensures Recovered(cfg, n, es, i) <==>
      Heals(cfg, n, es, i, |es| - 1) || (Recovered(cfg, n, es[..|es| - 1], i) && !Harms(cfg, n, es, i, |es| - 1))
  {
    var p, last := es[..|es| - 1], |es| - 1;
    forall k | 0 <= k < |p|
      ensures Heals(cfg, n, p, i, k) <==> Heals(cfg, n, es, i, k)
      ensures Harms(cfg, n, p, i, k) <==> Harms(cfg, n, es, i, k)
    {
      assert p[..k] == es[..k] && p[..k + 1] == es[..k + 1];
    }
    if Heals(cfg, n, es, i, last) {
      forall k | 0 <= k < |es| && Harms(cfg, n, es, i, k) ensures HealedSince(cfg, n, es, i, k) {
        assert k < last;
      }
    } else {
      assert Harms(cfg, n, es, i, last) ==> !HealedSince(cfg, n, es, i, last);
      forall k | 0 <= k < |p| ensures HealedSince(cfg, n, p, i, k) <==> HealedSince(cfg, n, es, i, k) {
        if h :| k < h < |es| && Heals(cfg, n, es, i, h) { assert h < last && Heals(cfg, n, p, i, h); }
        if h :| k < h < |p| && Heals(cfg, n, p, i, h) { assert Heals(cfg, n, es, i, h); }
      }
    }
  }

  /** Over all runs: an upstream is healthy exactly when everything that harmed it was followed by something that heals. */
  lemma {:induction false} HealthIsTheLastVerdict(cfg: Settings, n: nat, es: seq<Event>, i: nat)
    requires IsRun(cfg, n, es) && i < n
    ensures After(cfg, n, es).nodes[i].healthy <==> Recovered(cfg, n, es, i)
  {
    if |es| > 0 {
      RunPrefix(cfg, n, es);
      VerdictStep(cfg, n, es, i);
      RecoveredStep(cfg, n, es, i);
      HealthIsTheLastVerdict(cfg, n, es[..|es| - 1], i);
    }
  }

  // ----- One check for every maximum

  /** Report k is the first to reach its block and everything below. */
  ghost predicate RaisesMax(es: seq<Event>, k: int) {
    && 0 <= k < |es| && IsReport(es[k]) && es[k].block > 0
    && forall j :: 0 <= j < k && IsReport(es[j]) ==> es[j].block < es[k].block
  }

  ghost predicate BecameMax(es: seq<Event>, t: nat) {
    exists k :: RaisesMax(es, k) && es[k].block == t
  }

  function ChecksRun(es: seq<Event>, t: nat): nat {
    if |es| == 0 then 0 else ChecksRun(es[..|es| - 1], t) + if es[|es| - 1] == LagCheck(t) then 1 else 0
  }

  lemma BecameMaxStep(p: seq<Event>, e: Event, m: nat, t: nat)
    requires HighestOfAll(p, m)
    ensures BecameMax(p + [e], t) <==> BecameMax(p, t) || (IsReport(e) && e.block > m && t == e.block)
    ensures BecameMax(p, t) ==> t <= m
  {
    var es := p + [e];
    forall k | 0 <= k < |p| ensures RaisesMax(es, k) <==> RaisesMax(p, k) {
      assert es[k] == p[k];
      assert forall j :: 0 <= j < k ==> es[j] == p[j];
    }
    if k :| RaisesMax(p, k) && p[k].block == t { assert RaisesMax(es, k) && es[k] == p[k]; }
    assert es[|p|] == e;
    assert RaisesMax(es, |p|) <==> IsReport(e) && e.block > m by {
      assert forall j :: 0 <= j < |p| ==> es[j] == p[j];
    }
  }

  lemma ChecksStep(cfg: Settings, s: State, e: Event, t: nat)
    requires Enabled(s, e) && cfg.lagRecoveryTimeout > 0
    ensures Step(cfg, s, e).pending[t] + (if e == LagCheck(t) then 1 else 0) ==
      s.pending[t] + if IsReport(e) && e.block > s.maxBlock && t == e.block then 1 else 0
  {
  }

  /** No check is lost or doubled: each new maximum has exactly one, pending or run; nothing else is ever checked. */
  lemma {:induction false} OneCheckPerMaximum(cfg: Settings, n: nat, es: seq<Event>, t: nat)
    requires IsRun(cfg, n, es) && cfg.lagRecoveryTimeout > 0
    ensures After(cfg, n, es).pending[t] + ChecksRun(es, t) == if BecameMax(es, t) then 1 else 0
  {
    if |es| > 0 {
      var p, e, s := RunLast(cfg, n, es);
      OneCheckPerMaximum(cfg, n, p, t);
      MaxIsHighestReport(cfg, n, p);
      BecameMaxStep(p, e, s.maxBlock, t);
      ChecksStep(cfg, s, e, t);
    }
  }
}
