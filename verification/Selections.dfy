/** What a loop that keeps some elements of a list leaves: those elements, each once, in their order. */
module Selections {

  /** r is s at the positions idx, in their order. */
  ghost predicate SelectedAt<T>(s: seq<T>, idx: seq<nat>, r: seq<T>) {
    && |r| == |idx|
    && (forall j, k :: 0 <= j < k < |idx| ==> idx[j] < idx[k])
    && forall k :: 0 <= k < |idx| ==> idx[k] < |s| && r[k] == s[idx[k]]
  }

  /** idx are the positions below n that are to be kept. */
  ghost predicate Positions(idx: seq<nat>, n: nat, keep: nat -> bool) {
    forall i: nat :: i in idx <==> i < n && keep(i)
  }

  lemma PositionsStep(idx: seq<nat>, n: nat, keep: nat -> bool)
    requires Positions(idx, n, keep)
    ensures Positions(if keep(n) then idx + [n] else idx, n + 1, keep)
  {
  }

  lemma SelectStep<T>(s: seq<T>, idx: seq<nat>, r: seq<T>, n: nat, keep: nat -> bool)
    requires n < |s| && SelectedAt(s, idx, r) && Positions(idx, n, keep)
    ensures SelectedAt(s, idx + [n], r + [s[n]])
  {
    forall k | 0 <= k < |idx| ensures idx[k] < n {
      assert idx[k] in idx;
    }
  }
}
