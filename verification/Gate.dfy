/**
 The gate in front of fallback newHeads events: a client is told about a fallback's block only
 when a main upstream has it too, or when the mains were found unhealthy. Status fields are read
 one atomic access at a time while health monitoring goes on, so every read has its own instant.
 */
module Gate {
  import opened JsonRpc
  import opened Dedup
  import Health
  import MaxBlock

  /** The main upstreams' status at every instant. */
  datatype World = World(mains: nat, healthy: (nat, nat) -> bool, block: (nat, nat) -> nat)

  datatype Verdict = Forward | Drop | Waiting

  /** Blocks never go down: what UpdateBlock guarantees. */
  ghost predicate Monotone(w: World) {
    forall t: nat, i: nat :: i < w.mains ==> w.block(t, i) <= w.block(t + 1, i)
  }

  predicate HasBlock(w: World, b: nat, i: nat, t: nat) {
    i < w.mains && w.block(t, i) >= b
  }

  predicate IsHealthy(w: World, t: nat, i: nat) {
    i < w.mains && w.healthy(t, i)
  }

  /** What a scan that started at instant s reads when it comes to upstream i. */
  predicate SeenHealthy(w: World, s: nat, i: nat) {
    IsHealthy(w, s + i, i)
  }

  /** A scan that started at instant s met every main upstream while it was unhealthy. */
  predicate AllSeenUnhealthy(w: World, s: nat) {
    forall i: nat :: i < w.mains ==> !SeenHealthy(w, s, i)
  }

  /** Main i is healthy and has block b at every instant from start on. */
  ghost predicate AlwaysHas(w: World, b: nat, i: nat, start: nat) {
    forall t: nat :: t >= start ==> IsHealthy(w, t, i) && HasBlock(w, b, i, t)
  }

  ghost predicate NeverHealthy(w: World, start: nat) {
    forall t: nat, i: nat :: t >= start ==> !IsHealthy(w, t, i)
  }

  // ----- The scans, read by read

  /** The scan for the largest block, at upstream i and instant t: health is read first, then the block. */
  function ScanBlocks(w: World, i: nat, t: nat, best: nat): (nat, nat)
    requires i <= w.mains
    decreases w.mains - i
  {
    if i == w.mains then (best, t)
    else if w.healthy(t, i) then
      ScanBlocks(w, i + 1, t + 2, if w.block(t + 1, i) > best then w.block(t + 1, i) else best)
    else ScanBlocks(w, i + 1, t + 1, best)
  }

  /** The scan for a healthy main stops at the first one it meets. */
  function ScanHealthy(w: World, i: nat, t: nat): (bool, nat)
    requires i <= w.mains
    decreases w.mains - i
  {
    if i == w.mains then (false, t) else if w.healthy(t, i) then (true, t) else ScanHealthy(w, i + 1, t + 1)
  }

  /** One look at the pool: whether block b may pass, and when the look is over. */
  function LookAt(w: World, b: nat, t: nat): (bool, nat) {
    var (best, after) := ScanBlocks(w, 0, t, 0);
    if best >= b then (true, after) else
      var (found, end) := ScanHealthy(w, 0, after);
      (!found, end)
  }

  /** The ticker loop from tick k on. */
  function TicksFrom(w: World, b: nat, t: nat, gap: nat -> nat, closed: nat -> bool, k: nat, ticks: nat): (Verdict, nat)
    requires k <= ticks
    decreases ticks - k
  {
    if k == ticks then (Waiting, t) else if closed(k) then (Drop, t) else
      var (pass, after) := LookAt(w, b, t + gap(k));
      if pass then (Forward, after) else TicksFrom(w, b, after, gap, closed, k + 1, ticks)
  }

  function Wait(w: World, b: nat, start: nat, gap: nat -> nat, closed: nat -> bool, ticks: nat): (Verdict, nat) {
    var (pass, after) := LookAt(w, b, start);
    if pass then (Forward, after) else TicksFrom(w, b, after, gap, closed, 0, ticks)
  }

  /** Why a block may pass the gate during [start, end]. */
  ghost predicate Justified(w: World, b: nat, start: nat, end: nat) {
    || (exists i, t :: start <= t <= end && HasBlock(w, b, i, t))
    || (exists s :: start <= s && s + w.mains <= end && AllSeenUnhealthy(w, s))
  }

  // ----- What the scans see

  lemma {:induction false} ScanBlocksSees(w: World, i: nat, t: nat, best: nat)
    requires i <= w.mains
    ensures var (r, end) := ScanBlocks(w, i, t, best);
      end >= t && r >= best && (r > best ==> exists j, s :: t <= s <= end && HasBlock(w, r, j, s))
    decreases w.mains - i
  {
    if i < w.mains {
      if w.healthy(t, i) {
        var next := if w.block(t + 1, i) > best then w.block(t + 1, i) else best;
        ScanBlocksSees(w, i + 1, t + 2, next);
        assert next > best ==> HasBlock(w, next, i, t + 1);
      } else {
        ScanBlocksSees(w, i + 1, t + 1, best);
      }
    }
  }

  lemma {:induction false} ScanBlocksMissesNothing(w: World, i: nat, t: nat, best: nat, j: nat, c: nat)
    requires i <= j < w.mains && AlwaysHas(w, c, j, t)
    ensures ScanBlocks(w, i, t, best).0 >= c
    decreases w.mains - i
  {
    assert IsHealthy(w, t, j) && HasBlock(w, c, j, t + 1);
    var next := if w.healthy(t, i) && w.block(t + 1, i) > best then w.block(t + 1, i) else best;
    if i == j {
      ScanBlocksSees(w, i + 1, t + 2, next);
    } else {
      ScanBlocksMissesNothing(w, i + 1, if w.healthy(t, i) then t + 2 else t + 1, next, j, c);
    }
  }

  lemma {:induction false} ScanHealthyMeans(w: World, i: nat, s: nat)
    requires i <= w.mains
    ensures var (found, end) := ScanHealthy(w, i, s + i);
      && (!found <==> forall j: nat :: i <= j < w.mains ==> !SeenHealthy(w, s, j))
      && s + i <= end <= s + w.mains && (!found ==> end == s + w.mains)
    decreases w.mains - i
  {
    if i < w.mains {
      if w.healthy(s + i, i) {
        assert SeenHealthy(w, s, i);
      } else {
        ScanHealthyMeans(w, i + 1, s);
      }
    }
  }

  lemma LookIsJustified(w: World, b: nat, t: nat)
    ensures var (pass, end) := LookAt(w, b, t); end >= t && (pass ==> Justified(w, b, t, end))
  {
    var (best, after) := ScanBlocks(w, 0, t, 0);
    ScanBlocksSees(w, 0, t, 0);
    if best >= b {
      if b == 0 {
        assert w.mains > 0 ==> HasBlock(w, b, 0, t);
        assert w.mains == 0 ==> AllSeenUnhealthy(w, t);
      } else {
        var i, s :| t <= s <= after && HasBlock(w, best, i, s);
        assert HasBlock(w, b, i, s);
      }
    } else {
      ScanHealthyMeans(w, 0, after);
      assert !ScanHealthy(w, 0, after).0 ==> AllSeenUnhealthy(w, after);
    }
  }

  /** A look passes when a main has the block throughout, and when no main is ever healthy. */
  lemma LookPasses(w: World, b: nat, t: nat)
    requires (exists i: nat :: i < w.mains && AlwaysHas(w, b, i, t)) || NeverHealthy(w, t)
    ensures LookAt(w, b, t).0
  {
    if i: nat :| i < w.mains && AlwaysHas(w, b, i, t) {
      ScanBlocksMissesNothing(w, 0, t, 0, i, b);
    } else {
      ScanBlocksSees(w, 0, t, 0);
      ScanHealthyMeans(w, 0, ScanBlocks(w, 0, t, 0).1);
    }
  }

  lemma {:induction false} TicksAreJustified(w: World, b: nat, t: nat, gap: nat -> nat, closed: nat -> bool,
                                             k: nat, ticks: nat)
    requires k <= ticks
    ensures var (v, end) := TicksFrom(w, b, t, gap, closed, k, ticks);
      && end >= t
      && (v == Forward ==> Justified(w, b, t, end))
      && (v == Drop ==> exists j :: k <= j < ticks && closed(j))
      && (v == Waiting ==> forall j :: k <= j < ticks ==> !closed(j))
    decreases ticks - k
  {
    if k < ticks && !closed(k) {
      LookIsJustified(w, b, t + gap(k));
      var (pass, after) := LookAt(w, b, t + gap(k));
      if !pass {
        TicksAreJustified(w, b, after, gap, closed, k + 1, ticks);
      }
    }
  }

  /** A forward has a reason; a drop means that the session or the subscriber was closing. */
  lemma WaitIsJustified(w: World, b: nat, start: nat, gap: nat -> nat, closed: nat -> bool, ticks: nat)
    ensures var (v, end) := Wait(w, b, start, gap, closed, ticks);
      && end >= start
      && (v == Forward ==> Justified(w, b, start, end))
      && (v == Drop ==> exists k :: 0 <= k < ticks && closed(k))
      && (v == Waiting ==> forall k :: 0 <= k < ticks ==> !closed(k))
  {
    LookIsJustified(w, b, start);
    var (pass, after) := LookAt(w, b, start);
    if !pass {
      TicksAreJustified(w, b, after, gap, closed, 0, ticks);
    }
  }

  /** How long the clock runs before ticks k, ..., n - 1 are taken. */
  function Elapsed(gap: nat -> nat, k: nat, n: nat): nat
    decreases n - k
  {
    if k >= n then 0 else gap(k) + Elapsed(gap, k + 1, n)
  }

  /** From instant t on, main i is healthy and has the block, or nobody is ever healthy. */
  ghost predicate Settled(w: World, b: nat, t: nat) {
    (exists i: nat :: i < w.mains && AlwaysHas(w, b, i, t)) || NeverHealthy(w, t)
  }

  lemma SettledLater(w: World, b: nat, t: nat, later: nat)
    requires Settled(w, b, t) && t <= later
    ensures Settled(w, b, later)
  {
    if i: nat :| i < w.mains && AlwaysHas(w, b, i, t) {
      assert AlwaysHas(w, b, i, later);
    } else {
      assert NeverHealthy(w, later);
    }
  }

  lemma {:induction false} SomeTickForwards(w: World, b: nat, t: nat, gap: nat -> nat, closed: nat -> bool,
                                            k: nat, m: nat, ticks: nat, settled: nat)
    requires k <= m < ticks && (forall j :: k <= j <= m ==> !closed(j))
    requires Settled(w, b, settled) && settled <= t + Elapsed(gap, k, m + 1)
    ensures TicksFrom(w, b, t, gap, closed, k, ticks).0 == Forward
    decreases m - k
  {
    LookIsJustified(w, b, t + gap(k));
    var (pass, after) := LookAt(w, b, t + gap(k));
    if !pass {
      if k == m {
        SettledLater(w, b, settled, t + gap(k));
        LookPasses(w, b, t + gap(k));
      } else {
        SomeTickForwards(w, b, after, gap, closed, k + 1, m, ticks, settled);
      }
    }
  }

  /**
   The wait keeps looking: if some main has the block and stays healthy from some instant on, or the mains stay down,
   the block is forwarded at the first tick after that at the latest, unless the session or the subscriber closes before.
   */
  lemma LaterLooksForward(w: World, b: nat, start: nat, gap: nat -> nat, closed: nat -> bool, m: nat, ticks: nat, settled: nat)
    requires m < ticks && (forall j :: 0 <= j <= m ==> !closed(j))
    requires (exists i: nat :: i < w.mains && AlwaysHas(w, b, i, settled)) || NeverHealthy(w, settled)
    requires settled <= start + Elapsed(gap, 0, m + 1)
    ensures Wait(w, b, start, gap, closed, ticks).0 == Forward
  {
    LookIsJustified(w, b, start);
    var (pass, after) := LookAt(w, b, start);
    if !pass {
      SomeTickForwards(w, b, after, gap, closed, 0, m, ticks, settled);
    }
  }

  /** While some main stays healthy and none has the block, it is held back: dropped once something closes, waiting till then. */
  lemma HeldBack(w: World, b: nat, start: nat, gap: nat -> nat, closed: nat -> bool, ticks: nat, i: nat)
    requires forall t: nat :: t >= start ==> IsHealthy(w, t, i)
    requires forall t: nat, j: nat :: t >= start ==> !HasBlock(w, b, j, t)
    ensures Wait(w, b, start, gap, closed, ticks).0 ==
      if exists k :: 0 <= k < ticks && closed(k) then Drop else Waiting
  {
    WaitIsJustified(w, b, start, gap, closed, ticks);
    forall s: nat | start <= s ensures !AllSeenUnhealthy(w, s) {
      assert IsHealthy(w, s + i, i);
      assert SeenHealthy(w, s, i);
    }
  }

  // ----- The code

  method GetMainMaxBlock(w: World, start: nat) returns (b: nat, t: nat)
    ensures (b, t) == ScanBlocks(w, 0, start, 0)
  {
    b, t := 0, start;
    for i := 0 to w.mains
      invariant ScanBlocks(w, i, t, b) == ScanBlocks(w, 0, start, 0)
    {
      if w.healthy(t, i) {
        t := t + 1;
        if w.block(t, i) > b {
          b := w.block(t, i);
        }
      }
      t := t + 1;
    }
  }

  method HasHealthyMain(w: World, start: nat) returns (found: bool, t: nat)
    ensures (found, t) == ScanHealthy(w, 0, start)
    ensures !found <==> AllSeenUnhealthy(w, start)
  {
    ScanHealthyMeans(w, 0, start);
    t := start;
    for i := 0 to w.mains
      invariant ScanHealthy(w, i, t) == ScanHealthy(w, 0, start)
    {
      if w.healthy(t, i) {
        return true, t;
      }
      t := t + 1;
    }
    return false, t;
  }

  /** One look at the pool: forward, or keep waiting. */
  method Look(w: World, b: nat, start: nat) returns (pass: bool, t: nat)
    ensures (pass, t) == LookAt(w, b, start)
  {
    var max;
    max, t := GetMainMaxBlock(w, start);
    if max >= b {
      return true, t;
    }
    var found;
    found, t := HasHealthyMain(w, t);
    return !found, t;
  }

  /**
   waitForMainBlock, watched for a number of ticks. gap(k) is how long the clock runs before tick k
   is taken, closed(k) whether the session or subscriber is then closing.
   */
  method WaitForMainBlock(w: World, b: nat, start: nat, gap: nat -> nat, closed: nat -> bool, ticks: nat)
    returns (v: Verdict, t: nat)
    ensures (v, t) == Wait(w, b, start, gap, closed, ticks)
    ensures start <= t
    ensures v == Forward ==> Justified(w, b, start, t)
    ensures v == Drop ==> exists k :: 0 <= k < ticks && closed(k)
    ensures v == Waiting ==> forall k :: 0 <= k < ticks ==> !closed(k)
    ensures (exists i: nat :: i < w.mains && AlwaysHas(w, b, i, start)) || NeverHealthy(w, start) ==> v == Forward
  {
    WaitIsJustified(w, b, start, gap, closed, ticks);
    if (exists i: nat :: i < w.mains && AlwaysHas(w, b, i, start)) || NeverHealthy(w, start) {
      LookPasses(w, b, start);
    }
    var pass;
    pass, t := Look(w, b, start);
    if pass {
      return Forward, t;
    }
    for k := 0 to ticks
      invariant TicksFrom(w, b, t, gap, closed, k, ticks) == Wait(w, b, start, gap, closed, ticks)
    {
      if closed(k) {
        return Drop, t;
      }
      pass, t := Look(w, b, t + gap(k));
      if pass {
        return Forward, t;
      }
    }
    return Waiting, t;
  }

  /** OnEvent up to the send: block is absent when the header does not parse. */
  method Admit(w: World, open: bool, subType: SubType, fromFallback: bool, block: Option<nat>,
               start: nat, gap: nat -> nat, closed: nat -> bool, ticks: nat) returns (v: Verdict, t: nat)
    ensures !open ==> v == Drop && t == start
    ensures open && !(subType.NewHeads? && fromFallback && block.Some?) ==> v == Forward && t == start
    ensures open && subType.NewHeads? && fromFallback && block.Some? ==>
      (v, t) == Wait(w, block.value, start, gap, closed, ticks)
  {
    if !open {
      return Drop, start;
    }
    if subType.NewHeads? && fromFallback && block.Some? {
      v, t := WaitForMainBlock(w, block.value, start, gap, closed, ticks);
      return;
    }
    return Forward, start;
  }

  // ----- What a justification is worth

  lemma {:induction false} BlockStays(w: World, b: nat, i: nat, t: nat, later: nat)
    requires Monotone(w) && HasBlock(w, b, i, t) && t <= later
    ensures HasBlock(w, b, i, later)
    decreases later
  {
    if t < later {
      BlockStays(w, b, i, t, later - 1);
      assert w.block(later - 1, i) <= w.block(later - 1 + 1, i);
    }
  }

  ghost predicate HasFrom(w: World, b: nat, i: nat, from: nat) {
    forall later: nat :: later >= from ==> HasBlock(w, b, i, later)
  }

  /** Some main has the block from this instant on, for ever after. */
  ghost predicate SomeMainHasFrom(w: World, b: nat, from: nat) {
    exists i :: HasFrom(w, b, i, from)
  }

  ghost predicate SomeHealthy(w: World, t: nat) {
    exists i :: IsHealthy(w, t, i)
  }

  /** At some instant of [start, end] no main was healthy. */
  ghost predicate DownAtAnInstant(w: World, start: nat, end: nat) {
    exists t: nat :: start <= t <= end && !SomeHealthy(w, t)
  }

  /** No main that is unhealthy at an instant of [start, end) is healthy at the next. */
  ghost predicate NoRecovery(w: World, start: nat, end: nat) {
    forall t: nat, i: nat :: start <= t < end && i < w.mains && !w.healthy(t, i) ==> !w.healthy(t + 1, i)
  }

  lemma {:induction false} StaysDown(w: World, start: nat, end: nat, t: nat, i: nat)
    requires NoRecovery(w, start, end) && start <= t <= end && i < w.mains && !w.healthy(t, i)
    ensures !w.healthy(end, i)
    decreases end - t
  {
    if t < end {
      StaysDown(w, start, end, t + 1, i);
    }
  }

  /** A scan that met every main unhealthy, in a pool of at most one main or while none recovered, did so at one instant. */
  lemma ScanHasAnInstant(w: World, s: nat, end: nat)
    requires AllSeenUnhealthy(w, s) && s + w.mains <= end
    requires w.mains <= 1 || NoRecovery(w, s, s + w.mains)
    ensures DownAtAnInstant(w, s, end)
  {
    if w.mains <= 1 {
      assert !SomeHealthy(w, s) by {
        assert w.mains == 1 ==> !SeenHealthy(w, s, 0);
      }
    } else {
      var t := s + w.mains;
      forall i | IsHealthy(w, t, i) ensures false {
        assert !SeenHealthy(w, s, i);
        StaysDown(w, s, t, s + i, i);
      }
      assert !SomeHealthy(w, t);
    }
  }

  /**
   A forwarded fallback block: some main upstream has it from then on, or a scan during the wait met
   every main unhealthy. With at most one main, or if no main recovered during the wait, there was then an
   instant at which none was healthy.
   */
  lemma ForwardedBlockIsThere(w: World, b: nat, start: nat, end: nat)
    requires Monotone(w) && Justified(w, b, start, end)
    ensures SomeMainHasFrom(w, b, end) || exists s :: start <= s && s + w.mains <= end && AllSeenUnhealthy(w, s)
    ensures w.mains <= 1 || NoRecovery(w, start, end) ==> SomeMainHasFrom(w, b, end) || DownAtAnInstant(w, start, end)
  {
    if s :| start <= s && s + w.mains <= end && AllSeenUnhealthy(w, s) {
      if w.mains <= 1 || NoRecovery(w, start, end) {
        ScanHasAnInstant(w, s, end);
      }
    } else {
      var i, t :| start <= t <= end && HasBlock(w, b, i, t);
      forall later: nat | later >= end ensures HasBlock(w, b, i, later) {
        BlockStays(w, b, i, t, later);
      }
      assert HasFrom(w, b, i, end);
    }
  }

  /** The mains' blocks as a run of competing reports leaves them, one atomic access per instant, then at rest. */
  function Watched(ss: seq<MaxBlock.State>, n: nat, healthy: (nat, nat) -> bool): World {
    World(n, healthy, (t: nat, i: nat) =>
      var last := if t < |ss| then t else |ss| - 1;
      if last >= 0 && i < |ss[last].blocks| then ss[last].blocks[i] else 0)
  }

  /** The growth of blocks the gate relies on is what competing UpdateBlock loops guarantee. */
  lemma UpdateBlockMakesMonotone(ss: seq<MaxBlock.State>, ms: seq<MaxBlock.Move>, n: nat, healthy: (nat, nat) -> bool)
    requires MaxBlock.IsRun(ss, ms, n)
    ensures Monotone(Watched(ss, n, healthy))
    ensures var w := Watched(ss, n, healthy);
      && w.mains == n && w.healthy == healthy
      && forall t: nat, i: nat :: t < |ss| && i < |ss[t].blocks| ==> w.block(t, i) == ss[t].blocks[i]
  {
    var w := Watched(ss, n, healthy);
    forall t: nat, i: nat | i < w.mains ensures w.block(t, i) <= w.block(t + 1, i) {
      if t + 1 < |ss| {
        MaxBlock.AlwaysGrows(ss, ms, n, t, t + 1);
      }
    }
  }

  // ----- When the wait can be trusted to have met an outage

  /** Every block forwarded in a pool of n mains is at a main from then on, or no main was healthy at some instant of the wait. */
  ghost predicate GateIsTight(n: nat) {
    forall w: World, b: nat, start: nat, gap: nat -> nat, closed: nat -> bool, ticks: nat ::
      (w.mains == n && Monotone(w) && Wait(w, b, start, gap, closed, ticks).0 == Forward) ==>
        var end := Wait(w, b, start, gap, closed, ticks).1;
        SomeMainHasFrom(w, b, end) || DownAtAnInstant(w, start, end)
  }

  /** The mains take turns being down: main i exactly at instant s + i. No block is ever reported. */
  function TakingTurns(n: nat, s: nat): World {
    World(n, (t: nat, i: nat) => t != s + i, (t: nat, i: nat) => 0)
  }

  lemma {:induction false} TurnsBlocks(n: nat, s: nat, i: nat, t: nat)
    requires i <= n && t + 2 * (n - i) <= s
    ensures ScanBlocks(TakingTurns(n, s), i, t, 0) == (0, t + 2 * (n - i))
    decreases n - i
  {
    if i < n { TurnsBlocks(n, s, i + 1, t + 2); }
  }

  lemma {:induction false} TurnsHealthy(n: nat, s: nat, i: nat)
    requires i <= n
    ensures ScanHealthy(TakingTurns(n, s), i, s + i) == (false, s + n)
    decreases n - i
  {
    if i < n { TurnsHealthy(n, s, i + 1); }
  }

  /**
   Two or more mains: there is a history in which some main is healthy at every instant, no main ever has
   the block, and the wait forwards it at the first look all the same. TurnsArise shows where it comes from.
   */
  lemma TornWait(n: nat, b: nat, start: nat, gap: nat -> nat, closed: nat -> bool, ticks: nat) returns (w: World)
    requires n >= 2 && b > 0
    ensures w == TakingTurns(n, start + 2 * n) && Monotone(w)
    ensures Wait(w, b, start, gap, closed, ticks) == (Forward, start + 3 * n)
    ensures forall t: nat :: SomeHealthy(w, t)
    ensures forall t: nat, i: nat :: !HasBlock(w, b, i, t)
  {
    var s := start + 2 * n;
    w := TakingTurns(n, s);
    TurnsBlocks(n, s, 0, start);
    TurnsHealthy(n, s, 0);
    forall t: nat ensures SomeHealthy(w, t) {
      assert IsHealthy(w, t, if t == s then 1 else 0);
    }
  }

  // ----- The torn history is one the health monitor produces

  /** At instant t the mains are as the first upstreams of a monitored pool after at(t) events of a run. */
  ghost predicate Arises(w: World, ss: seq<Health.State>, at: nat -> nat) {
    forall t: nat, i: nat :: i < w.mains ==> ShowsAt(w, ss, at, t, i)
  }

  predicate ShowsAt(w: World, ss: seq<Health.State>, at: nat -> nat, t: nat, i: nat) {
    && at(t) < |ss| && i < |ss[at(t)].nodes|
    && ss[at(t)].nodes[i] == Health.Node(w.block(t, i), w.healthy(t, i))
  }

  /** All mains up at block 0, after the fallback, the last of the pool, has delivered its block. */
  function AllUp(cfg: Health.Settings, n: nat, b: nat): Health.State {
    Health.Step(cfg, Health.Initial(n + 1), Health.NewHead(n, b))
  }

  function OneDown(cfg: Health.Settings, n: nat, b: nat, j: nat): Health.State
    requires j < n
  {
    Health.SetHealth(AllUp(cfg, n, b), j, false)
  }

  lemma OneTurn(cfg: Health.Settings, n: nat, b: nat, i: nat)
    requires i < n
    ensures var s := AllUp(cfg, n, b);
      && s.nodes[i] == Health.Node(0, true)
      && Health.Step(cfg, s, Health.PollFailed(i)) == OneDown(cfg, n, b, i)
      && Health.Step(cfg, OneDown(cfg, n, b, i), Health.NewHead(i, 0)) == s
  {
    assert Health.Step(cfg, OneDown(cfg, n, b, i), Health.NewHead(i, 0)).nodes == AllUp(cfg, n, b).nodes;
  }

  /** Main j is down after event 2 * j + 1 and up again after event 2 * j + 2. */
  function TurnState(cfg: Health.Settings, n: nat, b: nat, k: nat): Health.State
    requires k <= 2 * n + 1
  {
    if k == 0 then Health.Initial(n + 1)
    else if k % 2 == 1 then AllUp(cfg, n, b)
    else OneDown(cfg, n, b, k / 2 - 1)
  }

  function TurnEvent(n: nat, b: nat, k: nat): Health.Event {
    if k == 0 then Health.NewHead(n, b)
    else if k % 2 == 1 then Health.PollFailed(k / 2)
    else Health.NewHead(k / 2 - 1, 0)
  }

  lemma TurnStep(cfg: Health.Settings, n: nat, b: nat, k: nat)
    requires k < 2 * n + 1
    ensures Health.Enabled(TurnState(cfg, n, b, k), TurnEvent(n, b, k))
    ensures Health.Step(cfg, TurnState(cfg, n, b, k), TurnEvent(n, b, k)) == TurnState(cfg, n, b, k + 1)
  {
    if k % 2 == 1 {
      OneTurn(cfg, n, b, k / 2);
    } else if k > 0 {
      OneTurn(cfg, n, b, k / 2 - 1);
    }
  }

  /** How many events have been handled at instant t. */
  function TurnAt(n: nat, s: nat, t: nat): nat {
    if t < s then 1 else if t < s + n then 2 * (t - s) + 2 else 2 * n + 1
  }

  function TurnStates(cfg: Health.Settings, n: nat, b: nat): seq<Health.State> {
    seq(2 * n + 2, k requires 0 <= k < 2 * n + 2 => TurnState(cfg, n, b, k))
  }

  function TurnEvents(n: nat, b: nat): seq<Health.Event> {
    seq(2 * n + 1, k requires 0 <= k < 2 * n + 1 => TurnEvent(n, b, k))
  }

  lemma TurnsTrace(cfg: Health.Settings, n: nat, b: nat)
    ensures Health.IsTrace(cfg, n + 1, TurnStates(cfg, n, b), TurnEvents(n, b))
  {
    var ss, es := TurnStates(cfg, n, b), TurnEvents(n, b);
    forall k | 0 <= k < |es| ensures Health.Enabled(ss[k], es[k]) && ss[k + 1] == Health.Step(cfg, ss[k], es[k]) {
      TurnStep(cfg, n, b, k);
    }
  }

  lemma TurnShows(cfg: Health.Settings, n: nat, s: nat, b: nat, at: nat -> nat, t: nat, i: nat)
    requires i < n && at(t) == TurnAt(n, s, t)
    ensures ShowsAt(TakingTurns(n, s), TurnStates(cfg, n, b), at, t, i)
  {
    OneTurn(cfg, n, b, i);
    assert TurnStates(cfg, n, b)[at(t)] == TurnState(cfg, n, b, TurnAt(n, s, t));
  }

  /**
   The history of TornWait is one the health monitor produces, whatever its settings: the fallback delivers block
   b, then main after main fails a poll and comes back with a newHeads event of block 0.
   */
  lemma TurnsArise(cfg: Health.Settings, n: nat, s: nat, b: nat)
    returns (ss: seq<Health.State>, es: seq<Health.Event>, at: nat -> nat)
    ensures Health.IsTrace(cfg, n + 1, ss, es) && Arises(TakingTurns(n, s), ss, at)
    ensures |es| > 0 && es[0] == Health.NewHead(n, b)
    ensures forall t: nat, u: nat :: t <= u ==> 1 <= at(t) <= at(u) <= |es|
  {
    ss, es, at := TurnStates(cfg, n, b), TurnEvents(n, b), (t: nat) => TurnAt(n, s, t);
    TurnsTrace(cfg, n, b);
    forall t: nat, i: nat | i < n ensures ShowsAt(TakingTurns(n, s), ss, at, t, i) {
      TurnShows(cfg, n, s, b, at, t, i);
    }
  }

  /** The gate is tight exactly for pools with at most one main upstream. */
  lemma TightIffAtMostOneMain(n: nat)
    ensures GateIsTight(n) <==> n <= 1
  {
    if n <= 1 {
      forall w: World, b: nat, start: nat, gap: nat -> nat, closed: nat -> bool, ticks: nat
        | w.mains == n && Monotone(w) && Wait(w, b, start, gap, closed, ticks).0 == Forward
        ensures var end := Wait(w, b, start, gap, closed, ticks).1;
          SomeMainHasFrom(w, b, end) || DownAtAnInstant(w, start, end)
      {
        WaitIsJustified(w, b, start, gap, closed, ticks);
        ForwardedBlockIsThere(w, b, start, Wait(w, b, start, gap, closed, ticks).1);
      }
    } else {
      var gap: nat -> nat, closed: nat -> bool := (k: nat) => 0, (k: nat) => false;
      var w := TornWait(n, 1, 0, gap, closed, 0);
      var end := Wait(w, 1, 0, gap, closed, 0).1;
      assert !SomeMainHasFrom(w, 1, end) by {
        forall i ensures !HasFrom(w, 1, i, end) {
          assert i >= 0 ==> !HasBlock(w, 1, i, end);
        }
      }
      assert !DownAtAnInstant(w, 0, end);
    }
  }
}
