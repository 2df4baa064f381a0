/** The weighted round-robin balancer over the pool's healthy lists. */
module Balancer {
  import opened Numbers
  import opened Rotation
  import opened Selections
  import Fairness
  import opened Upstreams

  /** The upstreams whose names are not excluded, in order. */
  function Untried(us: seq<Upstream>, exclude: set<string>): (r: seq<Upstream>)
    ensures forall u :: u in r ==> u in us && u.name !in exclude
    ensures forall u :: u in us && u.name !in exclude ==> u in r
  {
    if |us| == 0 then [] else
      var last := us[|us| - 1];
      var rest := Untried(us[..|us| - 1], exclude);
      assert us == us[..|us| - 1] + [last];
      if last.name !in exclude then rest + [last] else rest
  }

  lemma {:induction false} UntriedUpTo(us: seq<Upstream>, n: nat, exclude: set<string>, keep: nat -> bool)
    returns (idx: seq<nat>)
    requires n <= |us| && forall i: nat :: i < |us| ==> keep(i) == (us[i].name !in exclude)
    ensures SelectedAt(us, idx, Untried(us[..n], exclude)) && Positions(idx, n, keep)
  {
    idx := [];
    if n > 0 {
      idx := UntriedUpTo(us, n - 1, exclude, keep);
      assert us[..n][..n - 1] == us[..n - 1];
      SelectStep(us, idx, Untried(us[..n - 1], exclude), n - 1, keep);
      PositionsStep(idx, n - 1, keep);
      idx := if keep(n - 1) then idx + [n - 1] else idx;
    }
  }

  /** The order is kept, and every untried entry is kept once. */
  lemma UntriedInOrder(us: seq<Upstream>, exclude: set<string>) returns (idx: seq<nat>)
    ensures SelectedAt(us, idx, Untried(us, exclude))
    ensures forall i: nat :: i in idx <==> i < |us| && us[i].name !in exclude
  {
    assert us[..|us|] == us;
    idx := UntriedUpTo(us, |us|, exclude, (i: nat) => i < |us| && us[i].name !in exclude);
  }

  /** Main upstreams while any is left, otherwise fallbacks. */
  function Available(main: seq<Upstream>, fallback: seq<Upstream>, exclude: set<string>): seq<Upstream> {
    if Untried(main, exclude) != [] then Untried(main, exclude) else Untried(fallback, exclude)
  }

  lemma AvailableMeans(main: seq<Upstream>, fallback: seq<Upstream>, exclude: set<string>)
    ensures var a := Available(main, fallback, exclude);
      && (a == [] <==> forall u :: u in main || u in fallback ==> u.name in exclude)
      && (forall u :: u in a ==> u.name !in exclude && (u in main || u in fallback))
      && (forall u, v :: u in a && u !in main && v in main ==> v.name in exclude)
  {
    var a := Available(main, fallback, exclude);
    if a != [] {
      assert a[0] in a;
    }
  }

  function Weights(us: seq<Upstream>): (w: seq<int>)
    ensures |w| == |us|
  {
    seq(|us|, i requires 0 <= i < |us| => us[i].weight)
  }

  predicate PositiveWeights(us: seq<Upstream>) {
    forall u :: u in us ==> u.weight > 0
  }

  /** Euclid's loop. */
  method ComputeGcd(x: nat, y: nat) returns (r: nat)
    ensures r == Gcd(x, y)
  {
    var a, b := x, y;
    while b != 0
      invariant Gcd(a, b) == Gcd(x, y)
      decreases b
    {
      a, b := b, a % b;
    }
    return a;
  }

  /** The loop computes the greatest common divisor in the sense of divisibility. */
  method GcdWeights(us: seq<Upstream>) returns (g: nat)
    requires PositiveWeights(us) && us != []
    ensures g == GcdAll(Weights(us))
  {
    var w := Weights(us);
    g := us[0].weight;
    assert w[..1] == [w[0]] && w[..1][..0] == [];
    assert Gcd(0, w[0]) == Gcd(w[0], 0);
    for i := 1 to |us|
      invariant g == GcdAll(w[..i])
    {
      assert w[..i + 1][..i] == w[..i];
      g := ComputeGcd(g, us[i].weight);
    }
    assert w[..|us|] == w;
  }

  method MaxWeight(us: seq<Upstream>) returns (m: int)
    ensures m == MaxAll(Weights(us))
  {
    var w := Weights(us);
    m := 0;
    for i := 0 to |us|
      invariant m == MaxAll(w[..i])
    {
      assert w[..i + 1][..i] == w[..i];
      if us[i].weight > m {
        m := us[i].weight;
      }
    }
    assert w[..|us|] == w;
  }

  method FilterExcluded(us: seq<Upstream>, exclude: set<string>) returns (r: seq<Upstream>)
    ensures r == Untried(us, exclude)
  {
    r := [];
    for i := 0 to |us|
      invariant r == Untried(us[..i], exclude)
    {
      assert us[..i + 1][..i] == us[..i];
      if us[i].name !in exclude {
        r := r + [us[i]];
      }
    }
    assert us[..|us|] == us;
  }

  /** What one call may do to the cursor and return, given the candidates it found. */
  ghost predicate Selected(us: seq<Upstream>, before: Cursor, after: Cursor, pick: Upstream?)
    requires PositiveWeights(us)
  {
    if |us| == 0 then pick == null && after == before
    else if |us| == 1 then pick == us[0] && after == before
    else
      WheelOfIsGood(Weights(us));
      after == Rotation.Next(WheelOf(Weights(us)), before) && pick == us[after.index]
  }

  /** k calls with the same candidates: the cursors between them and what they returned. */
  ghost predicate Served(us: seq<Upstream>, cs: seq<Cursor>, ps: seq<Upstream?>)
    requires PositiveWeights(us)
  {
    |cs| == |ps| + 1 && forall k :: 0 <= k < |ps| ==> Selected(us, cs[k], cs[k + 1], ps[k])
  }

  lemma ServedSlice(us: seq<Upstream>, cs: seq<Cursor>, ps: seq<Upstream?>, a: nat, b: nat)
    requires PositiveWeights(us) && Served(us, cs, ps) && a <= b <= |ps|
    ensures Served(us, cs[a..b + 1], ps[a..b])
  {
  }

  lemma {:induction false} ServedAreThePicks(us: seq<Upstream>, cs: seq<Cursor>, ps: seq<Upstream?>)
    requires PositiveWeights(us) && |us| >= 2 && Served(us, cs, ps)
    ensures var x := WheelOf(Weights(us));
      && Good(x)
      && cs[|ps|] == Fairness.After(x, cs[0], |ps|)
      && forall k :: 0 <= k < |ps| ==>
        var i := Fairness.Picks(x, cs[0], |ps|)[k]; 0 <= i < |us| && ps[k] == us[i]
    decreases |ps|
  {
    WheelOfIsGood(Weights(us));
    if |ps| > 0 {
      assert Selected(us, cs[0], cs[1], ps[0]);
      ServedSlice(us, cs, ps, 1, |ps|);
      ServedAreThePicks(us, cs[1..|ps| + 1], ps[1..|ps|]);
    }
  }

  /** Counting what was returned is counting the indices picked. */
  lemma {:induction false} CountPicks(us: seq<Upstream>, ks: seq<int>, ps: seq<Upstream?>, i: nat)
    requires |ks| == |ps| && i < |us| && UniqueNames(us)
    requires forall k :: 0 <= k < |ps| ==> 0 <= ks[k] < |us| && ps[k] == us[ks[k]]
    ensures multiset(ps)[us[i]] == multiset(ks)[i]
  {
    if |ps| > 0 {
      var n := |ps| - 1;
      CountPicks(us, ks[..n], ps[..n], i);
      assert ps == ps[..n] + [ps[n]] && ks == ks[..n] + [ks[n]];
    }
  }

  /**
   While the candidates stay the same, any Sum(weights)/gcd consecutive calls on a balancer that was fresh at
   first return every upstream exactly its weight/gcd times.
   */
  lemma ServedByWeight(us: seq<Upstream>, cs: seq<Cursor>, ps: seq<Upstream?>, g: nat, calls: nat, j: nat, i: nat)
    requires PositiveWeights(us) && |us| >= 2 && UniqueNames(us) && i < |us|
    requires Served(us, cs, ps) && cs[0] == Cursor(-1, 0)
    requires g > 0 && g == GcdAll(Weights(us)) && calls == Sum(Weights(us)) / g && j + calls <= |ps|
    ensures calls > 0 && multiset(ps[j..j + calls])[us[i]] == us[i].weight / g
  {
    var x := WheelOf(Weights(us));
    WheelOfIsGood(Weights(us));
    ServedSlice(us, cs, ps, 0, j);
    ServedAreThePicks(us, cs[0..j + 1], ps[0..j]);
    ServedSlice(us, cs, ps, j, j + calls);
    ServedAreThePicks(us, cs[j..j + calls + 1], ps[j..j + calls]);
    Fairness.ExactFairness(x, j);
    CountPicks(us, Fairness.Picks(x, cs[j], calls), ps[j..j + calls], i);
  }

  class WeightedRoundRobin {
    var currentIndex: Index
    var currentWeight: int

    function Position(): Cursor
      reads this
    {
      Cursor(currentIndex, currentWeight)
    }

    constructor ()
      ensures Position() == FRESH && currentIndex == -1 && currentWeight == 0
    {
      currentIndex, currentWeight := -1, 0;
    }

    method Reset()
      modifies this
      ensures Position() == FRESH && currentIndex == -1 && currentWeight == 0
    {
      currentIndex, currentWeight := -1, 0;
    }

    /** main and fallback are the lists the pool hands out during this call. */
    method Next(main: seq<Upstream>, fallback: seq<Upstream>, exclude: set<string>) returns (pick: Upstream?)
      requires PositiveWeights(main) && PositiveWeights(fallback)
      modifies this
      ensures Selected(Available(main, fallback, exclude), old(Position()), Position(), pick)
      ensures pick == null <==> forall u :: u in main || u in fallback ==> u.name in exclude
      ensures pick != null ==> pick.name !in exclude && (pick in main || pick in fallback)
      ensures pick != null && pick !in main ==> forall u :: u in main ==> u.name in exclude
    {
      AvailableMeans(main, fallback, exclude);
      var us := FilterExcluded(main, exclude);
      if us == [] {
        us := FilterExcluded(fallback, exclude);
      }
      if |us| == 0 {
        return null;
      }
      if |us| == 1 {
        return us[0];
      }
      var g := GcdWeights(us);
      var max := MaxWeight(us);
      WheelOfIsGood(Weights(us));
      pick := Spin(us, g, max);
    }

    /** The selection loop: step until an upstream reaches the current threshold. */
    method Spin(us: seq<Upstream>, g: nat, max: int) returns (pick: Upstream)
      requires Good(Wheel(Weights(us), g, max))
      modifies this
      ensures Position() == Rotation.Next(Wheel(Weights(us), g, max), old(Position()))
      ensures pick == us[currentIndex]
    {
      ghost var x := Wheel(Weights(us), g, max);
      while true
        invariant Rotation.Next(x, Position()) == Rotation.Next(x, old(Position()))
        decreases Excess(x, Position()), Distance(|us|, currentIndex, Target(x, Position()))
      {
        ghost var c := Position();
        DistanceDrops(|us|, currentIndex, Target(x, c));
        Turn(|us|, g, max);
        assert Position() == Tick(x, c);
        if us[currentIndex].weight >= currentWeight {
          return us[currentIndex];
        }
      }
    }

    method Turn(n: nat, g: nat, max: int)
      requires n > 0
      modifies this
      ensures currentIndex == Mod(old(currentIndex) + 1, n)
      ensures currentWeight ==
        if currentIndex != 0 then old(currentWeight)
        else if old(currentWeight) - g <= 0 then max else old(currentWeight) - g
    {
      ModIsRemainder(currentIndex + 1, n);
      currentIndex := (currentIndex + 1) % n;
      if currentIndex == 0 {
        currentWeight := currentWeight - g;
        if currentWeight <= 0 {
          currentWeight := max;
        }
      }
    }
  }
}
