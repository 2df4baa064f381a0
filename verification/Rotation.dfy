/**
 The interleaved weighted round-robin as a stepping cursor. A wheel is the list of weights the
 balancer currently chooses from, with their common divisor and maximum; a cursor is the pair
 (currentIndex, currentWeight) the balancer carries from call to call.
 */
module Rotation {
  import opened Numbers

  /** -1 is the index of a balancer that has not been used since it was created or reset. */
  type Index = i: int | i >= -1 witness -1

  datatype Cursor = Cursor(index: Index, weight: int)

  const FRESH := Cursor(-1, 0)

  datatype Wheel = Wheel(w: seq<int>, g: int, max: int)

  /** At least two upstreams, positive weights, g a common divisor of all, max attained. */
  ghost predicate Good(x: Wheel) {
    && |x.w| >= 2
    && x.g > 0
    && Positive(x.w)
    && (forall i :: 0 <= i < |x.w| ==> IsMultiple(x.g, x.w[i]) && x.w[i] <= x.max)
    && x.max in x.w
  }

  ghost predicate IsMultiple(g: int, n: int) {
    exists q: nat :: n == Mul(q, g)
  }

  function WheelOf(w: seq<int>): Wheel
    requires Positive(w)
  {
    Wheel(w, GcdAll(w), MaxAll(w))
  }

  lemma WheelOfIsGood(w: seq<int>)
    requires Positive(w) && |w| >= 2
    ensures Good(WheelOf(w))
  {
    GcdAllIsGcd(w);
    MaxAllIsMax(w);
    var g := GcdAll(w);
    forall i | 0 <= i < |w| ensures IsMultiple(g, w[i]) {
      assert Divides(g, w[i]);
      var q :| w[i] == Times(g, q);
      if q < 0 { MultipleMagnitude(g, q); }
      MulIsProduct(q, g);
    }
  }

  /** One turn of the selection loop: step the index, and lower the threshold when it wraps. */
  function Tick(x: Wheel, c: Cursor): (d: Cursor)
    requires |x.w| > 0
    ensures 0 <= d.index < |x.w|
  {
    var i := Mod(c.index + 1, |x.w|);
    if i != 0 then Cursor(i, c.weight)
    else Cursor(i, if c.weight - x.g <= 0 then x.max else c.weight - x.g)
  }

  predicate Hit(x: Wheel, c: Cursor) {
    0 <= c.index < |x.w| && x.w[c.index] >= c.weight
  }

  function Ticks(x: Wheel, c: Cursor, k: nat): Cursor
    requires |x.w| > 0
    decreases k
  {
    if k == 0 then c else Ticks(x, Tick(x, c), k - 1)
  }

  // ----- Termination from any carried-over cursor

  /** An index of the maximal weight, where a threshold no greater than max always stops. */
  ghost function Peak(x: Wheel): (m: nat)
    requires Good(x)
    ensures m < |x.w| && x.w[m] == x.max
  {
    var m: nat :| m < |x.w| && x.w[m] == x.max;
    m
  }

  /** Turns until the index reaches target. */
  function Distance(n: nat, index: Index, target: nat): (d: nat)
    requires target < n
    ensures 1 <= d <= n
  {
    var t := Mod(index + 1, n);
    if t <= target then target - t + 1 else target - t + n + 1
  }

  lemma IndexWraps(n: nat, i: nat)
    requires i < n
    ensures Mod(i + 1, n) == if i + 1 == n then 0 else i + 1
  {
  }

  lemma DistanceDrops(n: nat, index: Index, target: nat)
    requires target < n
    ensures var t := Mod(index + 1, n); t != target ==> Distance(n, t, target) == Distance(n, index, target) - 1
  {
    var t := Mod(index + 1, n);
    IndexWraps(n, t);
  }

  ghost function Excess(x: Wheel, c: Cursor): nat {
    if c.weight > x.max then c.weight - x.max else 0
  }

  ghost function Target(x: Wheel, c: Cursor): (m: nat)
    requires Good(x)
    ensures m < |x.w|
  {
    if c.weight > x.max then 0 else Peak(x)
  }

  /** Where the selection loop stops when entered with cursor c. */
  ghost function Next(x: Wheel, c: Cursor): (d: Cursor)
    requires Good(x)
    ensures Hit(x, d)
    decreases Excess(x, c), Distance(|x.w|, c.index, Target(x, c))
  {
    var t := Tick(x, c);
    DistanceDrops(|x.w|, c.index, Target(x, c));
    if Hit(x, t) then t else Next(x, t)
  }

  /** How many turns the loop takes. */
  ghost function Turns(x: Wheel, c: Cursor): (k: nat)
    requires Good(x)
    ensures k >= 1
    decreases Excess(x, c), Distance(|x.w|, c.index, Target(x, c))
  {
    var t := Tick(x, c);
    DistanceDrops(|x.w|, c.index, Target(x, c));
    if Hit(x, t) then 1 else 1 + Turns(x, t)
  }

  /** The loop stops at the first hit after c, and nowhere else. */
  lemma {:induction false} NextIsFirstHit(x: Wheel, c: Cursor)
    requires Good(x)
    ensures Next(x, c) == Ticks(x, c, Turns(x, c)) && Hit(x, Next(x, c))
    ensures forall k :: 1 <= k < Turns(x, c) ==> !Hit(x, Ticks(x, c, k))
    decreases Excess(x, c), Distance(|x.w|, c.index, Target(x, c))
  {
    var t := Tick(x, c);
    DistanceDrops(|x.w|, c.index, Target(x, c));
    assert forall k :: k >= 1 ==> Ticks(x, c, k) == Ticks(x, t, k - 1);
    if !Hit(x, t) {
      NextIsFirstHit(x, t);
    }
  }

  /** ceil(e / g) for positive g, counted as the wraps that bring a threshold down by e. */
  function Wraps(e: int, g: int): nat
    requires g > 0
    decreases e
  {
    if e <= 0 then 0 else 1 + Wraps(e - g, g)
  }

  lemma {:induction false} WrapsIsCeiling(e: int, g: int)
    requires g > 0
    ensures var k := Wraps(e, g); e <= k * g && (k > 0 ==> (k - 1) * g < e)
    decreases e
  {
    if e > 0 {
      var k := Wraps(e - g, g);
      WrapsIsCeiling(e - g, g);
      assert (k + 1) * g == k * g + g;
      assert k > 0 ==> k * g == (k - 1) * g + g;
    }
  }

  lemma {:induction false} TurnsWithoutExcess(x: Wheel, c: Cursor)
    requires Good(x) && c.weight <= x.max
    ensures Turns(x, c) <= Distance(|x.w|, c.index, Peak(x)) <= |x.w|
    decreases Distance(|x.w|, c.index, Peak(x))
  {
    DistanceDrops(|x.w|, c.index, Peak(x));
    if !Hit(x, Tick(x, c)) {
      TurnsWithoutExcess(x, Tick(x, c));
    }
  }

  lemma {:induction false} TurnsWithExcess(x: Wheel, c: Cursor)
    requires Good(x) && c.weight > x.max
    ensures Turns(x, c) <= Distance(|x.w|, c.index, 0) + Mul(Wraps(c.weight - x.max, x.g), |x.w|)
    decreases Excess(x, c), Distance(|x.w|, c.index, 0)
  {
    var t := Tick(x, c);
    DistanceDrops(|x.w|, c.index, 0);
    if !Hit(x, t) {
      if t.weight > x.max { TurnsWithExcess(x, t); } else { TurnsWithoutExcess(x, t); }
    }
  }

  /** The loop stops within n turns, plus n for every wrap a stale threshold needs. */
  lemma TurnsBounded(x: Wheel, c: Cursor)
    requires Good(x)
    ensures 1 <= Turns(x, c) <= (Wraps(c.weight - x.max, x.g) + 1) * |x.w|
    ensures c.weight <= x.max ==> Turns(x, c) <= |x.w|
  {
    var k := Wraps(c.weight - x.max, x.g);
    MulIsProduct(k + 1, |x.w|);
    if c.weight > x.max { TurnsWithExcess(x, c); } else { TurnsWithoutExcess(x, c); }
  }
}
