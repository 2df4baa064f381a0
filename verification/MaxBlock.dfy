/**
 Concurrent block reports. Each report runs the compare-and-swap loop of UpdateBlock on its
 upstream and then raises the monitor's maximum; the atomic accesses of different reports interleave.
 */
module MaxBlock {
  import Health

  datatype Phase =
    | Loading(i: nat, b: nat)
    | Swapping(i: nat, b: nat, seen: nat)
    | Updated(i: nat, b: nat)

  datatype State = State(blocks: seq<nat>, maxBlock: nat, reports: map<nat, Phase>)

  datatype Move = Begin(p: nat, i: nat, b: nat) | Load(p: nat) | Swap(p: nat) | Publish(p: nat)

  function Initial(n: nat): State { State(seq(n, _ => 0), 0, map[]) }

  predicate Enabled(s: State, m: Move) {
    match m
    case Begin(p, i, _) => p !in s.reports && i < |s.blocks|
    case Load(p) => p in s.reports && s.reports[p].Loading? && s.reports[p].i < |s.blocks|
    case Swap(p) => p in s.reports && s.reports[p].Swapping? && s.reports[p].i < |s.blocks|
    case Publish(p) => p in s.reports && s.reports[p].Updated?
  }

  function Step(s: State, m: Move): State
    requires Enabled(s, m)
  {
    match m
    case Begin(p, i, b) => s.(reports := s.reports[p := Loading(i, b)])
    case Load(p) =>
      var Loading(i, b) := s.reports[p];
      s.(reports := s.reports[p := if b <= s.blocks[i] then Updated(i, b) else Swapping(i, b, s.blocks[i])])
    case Swap(p) =>
      var Swapping(i, b, seen) := s.reports[p];
      if s.blocks[i] == seen
      then s.(blocks := s.blocks[i := b], reports := s.reports[p := Updated(i, b)])
      else s.(reports := s.reports[p := Loading(i, b)])
    case Publish(p) =>
      State(s.blocks, Health.Raise(s.maxBlock, s.reports[p].b), s.reports - {p})
  }

  // ----- Runs

  ghost predicate IsRun(ss: seq<State>, ms: seq<Move>, n: nat) {
    && |ss| == |ms| + 1
    && ss[0] == Initial(n)
    && forall k :: 0 <= k < |ms| ==> Enabled(ss[k], ms[k]) && ss[k + 1] == Step(ss[k], ms[k])
  }

  ghost predicate InFlight(s: State, p: nat, i: nat, b: nat) {
    p in s.reports && s.reports[p] == Updated(i, b)
  }

  predicate PhaseOk(s: State, x: Phase) {
    && x.i < |s.blocks|
    && (x.Swapping? ==> x.seen < x.b && x.seen <= s.blocks[x.i])
    && (x.Updated? ==> x.b <= s.blocks[x.i])
  }

  ghost predicate Covered(s: State) {
    forall i :: 0 <= i < |s.blocks| && s.blocks[i] > s.maxBlock ==> exists p :: InFlight(s, p, i, s.blocks[i])
  }

  ghost predicate Backed(s: State) {
    s.maxBlock == 0 || exists i :: 0 <= i < |s.blocks| && s.blocks[i] >= s.maxBlock
  }

  ghost predicate Inv(s: State) {
    && (forall p :: p in s.reports ==> PhaseOk(s, s.reports[p]))
    && Backed(s)
    && Covered(s)
  }

  /** Blocks and the maximum never go down. */
  ghost predicate Grows(s: State, t: State) {
    && |t.blocks| == |s.blocks| && t.maxBlock >= s.maxBlock
    && forall i :: 0 <= i < |s.blocks| ==> t.blocks[i] >= s.blocks[i]
  }

  lemma StepGrows(s: State, m: Move)
    requires Inv(s) && Enabled(s, m)
    ensures Grows(s, Step(s, m))
  {
  }

  lemma StepKeepsBacked(s: State, m: Move)
    requires Inv(s) && Enabled(s, m)
    ensures Backed(Step(s, m))
  {
  }

  lemma StepKeepsCovered(s: State, m: Move)
    requires Inv(s) && Enabled(s, m)
    ensures Covered(Step(s, m))
  {
    var t := Step(s, m);
    forall i | 0 <= i < |t.blocks| && t.blocks[i] > t.maxBlock
      ensures exists p :: InFlight(t, p, i, t.blocks[i])
    {
      if t.blocks[i] != s.blocks[i] {
        assert InFlight(t, m.p, i, t.blocks[i]);
      } else {
        StepGrows(s, m);
        var p :| InFlight(s, p, i, s.blocks[i]);
        assert InFlight(t, p, i, t.blocks[i]);
      }
    }
  }

  lemma StepKeepsInv(s: State, m: Move)
    requires Inv(s) && Enabled(s, m)
    ensures Inv(Step(s, m))
  {
    StepGrows(s, m);
    StepKeepsBacked(s, m);
    StepKeepsCovered(s, m);
  }

  lemma {:induction false} AlwaysInv(ss: seq<State>, ms: seq<Move>, n: nat, k: nat)
    requires IsRun(ss, ms, n) && k < |ss|
    ensures Inv(ss[k])
  {
    if k > 0 {
      AlwaysInv(ss, ms, n, k - 1);
      StepKeepsInv(ss[k - 1], ms[k - 1]);
    }
  }

  /** Along any run, every block and the maximum only grow. */
  lemma {:induction false} AlwaysGrows(ss: seq<State>, ms: seq<Move>, n: nat, j: nat, k: nat)
    requires IsRun(ss, ms, n) && j <= k < |ss|
    ensures Grows(ss[j], ss[k])
    decreases k
  {
    if j < k {
      AlwaysGrows(ss, ms, n, j, k - 1);
      AlwaysInv(ss, ms, n, k - 1);
      StepGrows(ss[k - 1], ms[k - 1]);
    }
  }

  /** The maximum never exceeds the largest block, and any excess of a block over it is a report in flight. */
  lemma MaxBlockTracks(ss: seq<State>, ms: seq<Move>, n: nat, k: nat)
    requires IsRun(ss, ms, n) && k < |ss|
    ensures ss[k].maxBlock == 0 || exists i :: 0 <= i < |ss[k].blocks| && ss[k].blocks[i] >= ss[k].maxBlock
    ensures forall i :: 0 <= i < |ss[k].blocks| && ss[k].blocks[i] > ss[k].maxBlock ==>
      exists p :: InFlight(ss[k], p, i, ss[k].blocks[i])
  {
    AlwaysInv(ss, ms, n, k);
  }

  /** A report that has been published is never lost again. */
  lemma PublishedForever(ss: seq<State>, ms: seq<Move>, n: nat, j: nat, k: nat)
    requires IsRun(ss, ms, n) && j < |ms| && j < k < |ss| && ms[j].Publish?
    ensures var x := ss[j].reports[ms[j].p];
      x.i < |ss[k].blocks| && x.b <= ss[k].blocks[x.i] && x.b <= ss[k].maxBlock
  {
    AlwaysInv(ss, ms, n, j);
    AlwaysGrows(ss, ms, n, j, k);
    AlwaysGrows(ss, ms, n, j + 1, k);
  }

  /** A report under way carries the upstream and the block it began with. */
  lemma {:induction false} ReportsKeepTheirBlock(ss: seq<State>, ms: seq<Move>, n: nat, k: nat, p: nat) returns (j: nat)
    requires IsRun(ss, ms, n) && k < |ss| && p in ss[k].reports
    ensures j < k && ms[j] == Begin(p, ss[k].reports[p].i, ss[k].reports[p].b)
    ensures forall l :: j < l < k ==> !(ms[l].Begin? && ms[l].p == p) && ms[l] != Publish(p)
  {
    j := k - 1;
    if ms[j] != Begin(p, ss[k].reports[p].i, ss[k].reports[p].b) {
      j := ReportsKeepTheirBlock(ss, ms, n, k - 1, p);
    }
  }

  /** Once a report that began with block b has been published, its upstream's block and the maximum stay at b or above. */
  lemma BegunAndPublished(ss: seq<State>, ms: seq<Move>, n: nat, p: nat, i: nat, b: nat, j: nat, l: nat, k: nat)
    requires IsRun(ss, ms, n) && j < l < |ms| && l < k < |ss|
    requires ms[j] == Begin(p, i, b) && ms[l] == Publish(p) && forall q :: j < q < l ==> ms[q] != Publish(p)
    ensures i < |ss[k].blocks| && b <= ss[k].blocks[i] && b <= ss[k].maxBlock
  {
    StaysUnderWay(ss, ms, n, p, i, b, j, l);
    PublishedForever(ss, ms, n, l, k);
  }

  lemma {:induction false} StaysUnderWay(ss: seq<State>, ms: seq<Move>, n: nat, p: nat, i: nat, b: nat, j: nat, l: nat)
    requires IsRun(ss, ms, n) && j < l < |ss| && ms[j] == Begin(p, i, b)
    requires forall q :: j < q < l ==> ms[q] != Publish(p)
    ensures p in ss[l].reports && ss[l].reports[p].i == i && ss[l].reports[p].b == b
    decreases l
  {
    assert ss[l] == Step(ss[l - 1], ms[l - 1]);
    if j < l - 1 {
      StaysUnderWay(ss, ms, n, p, i, b, j, l - 1);
    }
  }

  /** A compare-and-swap fails only because a competing report has raised the block since it was read. */
  lemma FailedSwapMeansGrowth(ss: seq<State>, ms: seq<Move>, n: nat, k: nat)
    requires IsRun(ss, ms, n) && k < |ms| && ms[k].Swap? && ss[k + 1].reports[ms[k].p].Loading?
    ensures var x := ss[k].reports[ms[k].p]; x.seen < ss[k].blocks[x.i]
  {
    AlwaysInv(ss, ms, n, k);
  }

  /** When no report is in flight, the maximum is the largest block and a refresh leaves it unchanged. */
  lemma QuiescentRefresh(ss: seq<State>, ms: seq<Move>, n: nat, k: nat, cfg: Health.Settings, h: Health.State)
    requires IsRun(ss, ms, n) && k < |ss| && ss[k].reports == map[]
    requires h.maxBlock == ss[k].maxBlock && |h.nodes| == |ss[k].blocks|
    requires forall i :: 0 <= i < |h.nodes| ==> h.nodes[i].block == ss[k].blocks[i]
    ensures forall i :: 0 <= i < |h.nodes| ==> h.nodes[i].block <= h.maxBlock
    ensures Health.Step(cfg, h, Health.Refresh).maxBlock == h.maxBlock
  {
    AlwaysInv(ss, ms, n, k);
    assert forall p, i, b :: !InFlight(ss[k], p, i, b);
    if h.maxBlock != 0 {
      var i :| 0 <= i < |ss[k].blocks| && ss[k].blocks[i] >= ss[k].maxBlock;
      assert h.nodes[i].block == h.maxBlock;
    }
    Health.TopBlockIs(h.nodes, h.maxBlock);
  }
}
