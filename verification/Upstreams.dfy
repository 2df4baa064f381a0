/** Upstream endpoints and the pool that lists them by role and health. */
module Upstreams {
  import opened Selections

  datatype Role = Main | Fallback

  class Upstream {
    const name: string
    const weight: int
    const role: Role
    const hasRPC: bool
    var healthy: bool
    var currentBlock: nat

    constructor (name: string, weight: int, role: Role, hasRPC: bool)
      ensures this.name == name && this.weight == weight && this.role == role && this.hasRPC == hasRPC
      ensures healthy && currentBlock == 0
    {
      this.name, this.weight, this.role, this.hasRPC := name, weight, role, hasRPC;
      healthy, currentBlock := true, 0;
    }

    method SetHealthy(h: bool)
      modifies this`healthy
      ensures healthy == h
    {
      healthy := h;
    }

    /**
     The compare-and-swap loop. rivals[k] is what competing reports have raised the block to between the load and
     the swap of turn k, if that is higher; see MaxBlock for all interleavings.
     */
    method UpdateBlock(block: nat, rivals: seq<nat>) returns (updated: bool)
      modifies this`currentBlock
      ensures (updated, currentBlock) == Contended(old(currentBlock), block, rivals)
    {
      var turn := 0;
      while true
        invariant turn <= |rivals|
        invariant Contended(currentBlock, block, rivals[turn..]) == Contended(old(currentBlock), block, rivals)
        decreases |rivals| - turn
      {
        var current := currentBlock;
        if block <= current {
          return false;
        }
        if turn < |rivals| && rivals[turn] > currentBlock {
          currentBlock := rivals[turn];
        }
        if currentBlock == current {
          currentBlock := block;
          return true;
        }
        assert rivals[turn..][1..] == rivals[turn + 1..];
        turn := turn + 1;
      }
    }
  }

  /** Whether a report wins, and the block left, when rivals keep interfering. */
  function Contended(current: nat, block: nat, rivals: seq<nat>): (bool, nat)
    decreases |rivals|
  {
    if block <= current then (false, current)
    else if |rivals| == 0 || rivals[0] <= current then (true, block)
    else Contended(rivals[0], block, rivals[1..])
  }

  /** Won or lost, the block afterwards is at least what it was and what was reported; a report wins exactly by setting it. */
  lemma {:induction false} ContentionOnlyRaises(current: nat, block: nat, rivals: seq<nat>)
    ensures var (won, left) := Contended(current, block, rivals);
      && left >= current && left >= block
      && (won ==> left == block > current)
      && (!won ==> left == current || left in rivals)
    decreases |rivals|
  {
    if block > current && |rivals| > 0 && rivals[0] > current {
      ContentionOnlyRaises(rivals[0], block, rivals[1..]);
    }
  }

  /** The upstreams of a role that are in a health snapshot, in configuration order. */
  function Listed(us: seq<Upstream>, role: Role, up: set<Upstream>): (r: seq<Upstream>)
    ensures forall u :: u in r ==> u in us && u in up && u.role == role
    ensures forall u :: u in us && u in up && u.role == role ==> u in r
  {
    if |us| == 0 then [] else
      var last := us[|us| - 1];
      var rest := Listed(us[..|us| - 1], role, up);
      assert us == us[..|us| - 1] + [last];
      if last in up && last.role == role then rest + [last] else rest
  }

  lemma {:induction false} ListedUpTo(us: seq<Upstream>, n: nat, role: Role, up: set<Upstream>, keep: nat -> bool)
    returns (idx: seq<nat>)
    requires n <= |us| && forall i: nat :: i < |us| ==> keep(i) == (us[i] in up && us[i].role == role)
    ensures SelectedAt(us, idx, Listed(us[..n], role, up)) && Positions(idx, n, keep)
  {
    idx := [];
    if n > 0 {
      idx := ListedUpTo(us, n - 1, role, up, keep);
      assert us[..n][..n - 1] == us[..n - 1];
      SelectStep(us, idx, Listed(us[..n - 1], role, up), n - 1, keep);
      PositionsStep(idx, n - 1, keep);
      idx := if keep(n - 1) then idx + [n - 1] else idx;
    }
  }

  /** Configuration order is kept, and every healthy entry of the role is listed once. */
  lemma ListedInOrder(us: seq<Upstream>, role: Role, up: set<Upstream>) returns (idx: seq<nat>)
    ensures SelectedAt(us, idx, Listed(us, role, up))
    ensures forall i: nat :: i in idx <==> i < |us| && us[i] in up && us[i].role == role
  {
    assert us[..|us|] == us;
    idx := ListedUpTo(us, |us|, role, up, (i: nat) => i < |us| && us[i] in up && us[i].role == role);
  }

  predicate UniqueNames(us: seq<Upstream>) {
    forall i, j :: 0 <= i < j < |us| ==> us[i].name != us[j].name
  }

  class Pool {
    const upstreams: seq<Upstream>

    constructor (us: seq<Upstream>)
      ensures upstreams == us
    {
      upstreams := us;
    }

    ghost function HealthyNow(): (s: set<Upstream>)
      reads upstreams
    {
      set u | u in upstreams && u.healthy
    }

    method GetHealthy(role: Role) returns (r: seq<Upstream>)
      ensures r == Listed(upstreams, role, HealthyNow())
    {
      r := [];
      for i := 0 to |upstreams|
        invariant r == Listed(upstreams[..i], role, HealthyNow())
      {
        assert upstreams[..i + 1] == upstreams[..i] + [upstreams[i]];
        if upstreams[i].healthy && upstreams[i].role == role {
          r := r + [upstreams[i]];
        }
      }
      assert upstreams[..|upstreams|] == upstreams;
    }

    /** The largest block of a healthy main upstream, 0 if there is none. */
    method GetMainMaxBlock() returns (b: nat)
      ensures forall u :: u in upstreams && u.healthy && u.role == Main ==> u.currentBlock <= b
      ensures b == 0 || exists u :: u in upstreams && u.healthy && u.role == Main && u.currentBlock == b
    {
      b := 0;
      for i := 0 to |upstreams|
        invariant forall j :: 0 <= j < i && upstreams[j].healthy && upstreams[j].role == Main ==> upstreams[j].currentBlock <= b
        invariant b == 0 || exists u :: u in upstreams && u.healthy && u.role == Main && u.currentBlock == b
      {
        var u := upstreams[i];
        if u.role == Main && u.healthy && u.currentBlock > b {
          b := u.currentBlock;
        }
      }
    }

    method HasHealthyMain() returns (found: bool)
      ensures found <==> exists u :: u in upstreams && u.role == Main && u.healthy
    {
      for i := 0 to |upstreams|
        invariant forall j :: 0 <= j < i ==> !(upstreams[j].role == Main && upstreams[j].healthy)
      {
        if upstreams[i].role == Main && upstreams[i].healthy {
          return true;
        }
      }
      return false;
    }

    /** The first upstream of that name: the only one when names are unique. */
    method GetByName(name: string) returns (u: Upstream?)
      ensures u == null ==> forall v :: v in upstreams ==> v.name != name
      ensures u != null ==> u in upstreams && u.name == name
      ensures u != null && UniqueNames(upstreams) ==> forall v :: v in upstreams && v.name == name ==> v == u
    {
      for i := 0 to |upstreams|
        invariant forall j :: 0 <= j < i ==> upstreams[j].name != name
      {
        if upstreams[i].name == name {
          return upstreams[i];
        }
      }
      return null;
    }
  }
}
