/** Exact fairness of the weighted round-robin, and its recovery from a stale cursor. */
module Fairness {
  import opened Numbers
  import opened Rotation

  /** The indices picked by k consecutive calls, and the cursor they leave. */
  ghost function Picks(x: Wheel, c: Cursor, k: nat): (p: seq<int>)
    requires Good(x)
    ensures |p| == k
    decreases k
  {
    if k == 0 then [] else [Next(x, c).index] + Picks(x, Next(x, c), k - 1)
  }

  ghost function After(x: Wheel, c: Cursor, k: nat): Cursor
    requires Good(x)
    decreases k
  {
    if k == 0 then c else After(x, Next(x, c), k - 1)
  }

  // ----- Turns of the loop, seen one by one

  function HitAt(x: Wheel, c: Cursor): seq<int> {
    if Hit(x, c) then [c.index] else []
  }

  /** The indices hit during k turns. */
  function Hits(x: Wheel, c: Cursor, k: nat): seq<int>
    requires |x.w| > 0
    decreases k
  {
    if k == 0 then [] else HitAt(x, Tick(x, c)) + Hits(x, Tick(x, c), k - 1)
  }

  lemma {:induction false} TicksSplit(x: Wheel, c: Cursor, a: nat, b: nat)
    requires |x.w| > 0
    ensures Ticks(x, c, a + b) == Ticks(x, Ticks(x, c, a), b)
    ensures Hits(x, c, a + b) == Hits(x, c, a) + Hits(x, Ticks(x, c, a), b)
    decreases a
  {
    if a > 0 { TicksSplit(x, Tick(x, c), a - 1, b); }
  }

  lemma OneMoreTick(x: Wheel, c: Cursor, k: nat)
    requires |x.w| > 0
    ensures Ticks(x, c, k + 1) == Tick(x, Ticks(x, c, k))
  {
    TicksSplit(x, c, k, 1);
    assert Ticks(x, Ticks(x, c, k), 1) == Tick(x, Ticks(x, c, k));
  }

  /** Calls see exactly the hits: the calls made in k turns, when the k-th turn is itself a hit. */
  lemma {:induction false} PicksAreHits(x: Wheel, c: Cursor, k: nat)
    requires Good(x) && (k == 0 || Hit(x, Ticks(x, c, k)))
    ensures Picks(x, c, |Hits(x, c, k)|) == Hits(x, c, k)
    ensures After(x, c, |Hits(x, c, k)|) == Ticks(x, c, k)
    ensures k > 0 ==> |Hits(x, c, k)| > 0
    decreases k
  {
    if k > 0 {
      var t := Tick(x, c);
      PicksAreHits(x, t, k - 1);
      if !Hit(x, t) {
        assert Next(x, c) == Next(x, t);
      }
    }
  }

  // ----- One full cycle from the cursor (n - 1, g), which behaves like a fresh one

  /** w[i] / g: how often upstream i is served in one cycle. */
  function Share(x: Wheel, i: nat): nat
    requires i < |x.w| && x.g > 0
  {
    Quotient(x.w[i], x.g)
  }

  /** How many thresholds g, 2g, ..., max there are. */
  function Levels(x: Wheel): nat
    requires x.g > 0
  {
    Quotient(x.max, x.g)
  }

  function Shares(x: Wheel): seq<int>
    requires x.g > 0
  {
    seq(|x.w|, i requires 0 <= i < |x.w| => Share(x, i))
  }

  /** The calls in one cycle. */
  function Calls(x: Wheel): int
    requires x.g > 0
  {
    Sum(Shares(x))
  }

  function Start(x: Wheel): Cursor { Cursor(|x.w| - 1, x.g) }

  lemma ShareExact(x: Wheel, i: nat)
    requires Good(x) && i < |x.w|
    ensures x.w[i] == Mul(Share(x, i), x.g) && Share(x, i) == x.w[i] / x.g
    ensures 1 <= Share(x, i)
  {
    var q: nat :| x.w[i] == Mul(q, x.g);
    QuotientOfMul(q, x.g);
  }

  lemma LevelsExact(x: Wheel)
    requires Good(x)
    ensures x.max == Mul(Levels(x), x.g) && 1 <= Levels(x)
    ensures forall i: nat :: i < |x.w| ==> Share(x, i) <= Levels(x)
  {
    ShareExact(x, Peak(x));
    forall i: nat | i < |x.w| ensures Share(x, i) <= Levels(x) {
      ShareExact(x, i);
      MulOrder(Share(x, i), Levels(x), x.g);
    }
  }

  lemma CallsExact(x: Wheel)
    requires Good(x)
    ensures Calls(x) == Sum(x.w) / x.g
  {
    forall i: nat | i < |x.w| ensures x.w[i] == Mul(Shares(x)[i], x.g) { ShareExact(x, i); }
    var total := SumScales(x.g, Shares(x), x.w);
    QuotientOfMul(total, x.g);
  }

  /** The indices of weight at least `weight`, from index `from` on. */
  function Row(x: Wheel, weight: int, from: nat): seq<int>
    decreases |x.w| - from
  {
    if from >= |x.w| then [] else HitAt(x, Cursor(from, weight)) + Row(x, weight, from + 1)
  }

  lemma CountOfConcat(a: seq<int>, b: seq<int>, i: int)
    ensures multiset(a + b)[i] == multiset(a)[i] + multiset(b)[i]
  {
    assert multiset(a + b) == multiset(a) + multiset(b);
  }

  lemma CountOfOne(j: int, i: int)
    ensures multiset([j])[i] == if i == j then 1 else 0
  {
  }

  lemma {:induction false} RowCount(x: Wheel, weight: int, from: nat, i: int)
    ensures multiset(Row(x, weight, from))[i] == if from <= i < |x.w| && x.w[i] >= weight then 1 else 0
    decreases |x.w| - from
  {
    if from < |x.w| {
      RowCount(x, weight, from + 1, i);
      if x.w[from] >= weight {
        CountOfConcat([from], Row(x, weight, from + 1), i);
        CountOfOne(from, i);
      }
    }
  }

  lemma {:induction false} RowIsHit(x: Wheel, weight: int, j: nat)
    requires Good(x) && 1 <= j <= |x.w|
    ensures Hits(x, Cursor(j - 1, weight), |x.w| - j) == Row(x, weight, j)
    ensures Ticks(x, Cursor(j - 1, weight), |x.w| - j) == Cursor(|x.w| - 1, weight)
    decreases |x.w| - j
  {
    if j < |x.w| {
      assert Tick(x, Cursor(j - 1, weight)) == Cursor(j, weight);
      RowIsHit(x, weight, j + 1);
    }
  }

  lemma WholeRowIsHit(x: Wheel, c: Cursor, weight: int)
    requires Good(x) && Tick(x, c) == Cursor(0, weight)
    ensures Hits(x, c, |x.w|) == Row(x, weight, 0)
    ensures Ticks(x, c, |x.w|) == Cursor(|x.w| - 1, weight)
  {
    RowIsHit(x, weight, 1);
  }

  /** The rows at levels v, v - 1, ..., 1. */
  function Rows(x: Wheel, v: nat): seq<int> {
    if v == 0 then [] else Row(x, Mul(v, x.g), 0) + Rows(x, v - 1)
  }

  /** Upstream i is hit at level v exactly if its share reaches v. */
  lemma LevelReached(x: Wheel, v: nat, i: nat)
    requires Good(x) && i < |x.w|
    ensures x.w[i] >= Mul(v, x.g) <==> v <= Share(x, i)
  {
    ShareExact(x, i);
    MulOrder(v, Share(x, i), x.g);
  }

  lemma {:induction false} RowsCount(x: Wheel, v: nat, i: int)
    requires Good(x)
    ensures multiset(Rows(x, v))[i] ==
      if !(0 <= i < |x.w|) then 0 else if v <= Share(x, i) then v else Share(x, i)
  {
    if v > 0 {
      RowsCount(x, v - 1, i);
      CountOfConcat(Row(x, Mul(v, x.g), 0), Rows(x, v - 1), i);
      OneLevelCount(x, v, i);
    }
  }

  lemma OneLevelCount(x: Wheel, v: nat, i: int)
    requires Good(x)
    ensures multiset(Row(x, Mul(v, x.g), 0))[i] == if 0 <= i < |x.w| && v <= Share(x, i) then 1 else 0
  {
    RowCount(x, Mul(v, x.g), 0, i);
    if 0 <= i < |x.w| {
      LevelReached(x, v, i);
    }
  }

  /** Wrapping steps down exactly one level. */
  lemma TickDown(x: Wheel, u: nat)
    requires Good(x) && u > 1
    ensures Tick(x, Cursor(|x.w| - 1, Mul(u, x.g))) == Cursor(0, Mul(u - 1, x.g))
  {
    IndexWraps(|x.w|, |x.w| - 1);
    MulOrder(u - 1, 0, x.g);
  }

  lemma {:induction false} RowsAreHit(x: Wheel, c: Cursor, v: nat)
    requires Good(x) && v >= 1 && Tick(x, c) == Cursor(0, Mul(v, x.g))
    ensures Mul(v, |x.w|) >= 0
    ensures Hits(x, c, Mul(v, |x.w|)) == Rows(x, v)
    ensures Ticks(x, c, Mul(v, |x.w|)) == Start(x)
    decreases v
  {
    WholeRowIsHit(x, c, Mul(v, x.g));
    if v == 1 {
      assert Rows(x, 1) == Row(x, Mul(1, x.g), 0) + Rows(x, 0);
    } else {
      TickDown(x, v);
      RowsAreHit(x, Cursor(|x.w| - 1, Mul(v, x.g)), v - 1);
      TicksSplit(x, c, |x.w|, Mul(v - 1, |x.w|));
    }
  }

  ghost function CycleTurns(x: Wheel): (k: nat)
    requires Good(x)
    ensures k >= 1
  {
    LevelsExact(x);
    MulOrder(1, Levels(x), |x.w|);
    Mul(Levels(x), |x.w|)
  }

  /** A full cycle of turns from c returns to c and hits every index its share of times. */
  ghost predicate Periodic(x: Wheel, c: Cursor)
    requires Good(x)
  {
    && Ticks(x, c, CycleTurns(x)) == c
    && (forall i: nat :: i < |x.w| ==> multiset(Hits(x, c, CycleTurns(x)))[i] == Share(x, i))
    && (forall i :: i in multiset(Hits(x, c, CycleTurns(x))) ==> 0 <= i < |x.w|)
  }

  lemma StartIsPeriodic(x: Wheel)
    requires Good(x)
    ensures Periodic(x, Start(x))
  {
    LevelsExact(x);
    IndexWraps(|x.w|, |x.w| - 1);
    RowsAreHit(x, Start(x), Levels(x));
    forall i: int
      ensures multiset(Hits(x, Start(x), CycleTurns(x)))[i] == if 0 <= i < |x.w| then Share(x, i) else 0
    {
      RowsCount(x, Levels(x), i);
    }
  }

  /** One turn rotates the cycle. */
  lemma PeriodicRotates(x: Wheel, c: Cursor)
    requires Good(x) && Periodic(x, c)
    ensures Periodic(x, Tick(x, c))
  {
    var k, t := CycleTurns(x), Tick(x, c);
    TicksSplit(x, t, k - 1, 1);
    assert Ticks(x, t, k - 1) == c;
    assert Hits(x, c, 1) == HitAt(x, t);
    assert Hits(x, c, k) == HitAt(x, t) + Hits(x, t, k - 1);
    assert Hits(x, t, k) == Hits(x, t, k - 1) + HitAt(x, t);
    assert multiset(Hits(x, c, k)) == multiset(Hits(x, t, k));
    assert Ticks(x, t, k) == Tick(x, c);
  }

  lemma {:induction false} PeriodicAlways(x: Wheel, c: Cursor, k: nat)
    requires Good(x) && Periodic(x, c)
    ensures Periodic(x, Ticks(x, c, k))
    decreases k
  {
    if k > 0 {
      PeriodicRotates(x, c);
      PeriodicAlways(x, Tick(x, c), k - 1);
    }
  }

  /** From c, one cycle of calls returns to c and serves every upstream exactly its share. */
  ghost predicate FairCycle(x: Wheel, c: Cursor)
    requires Good(x)
  {
    && Calls(x) > 0
    && After(x, c, Calls(x)) == c
    && forall i: nat :: i < |x.w| ==> multiset(Picks(x, c, Calls(x)))[i] == Share(x, i)
  }

  lemma PeriodicIsFair(x: Wheel, c: Cursor)
    requires Good(x) && Periodic(x, c) && Hit(x, c)
    ensures FairCycle(x, c)
  {
    var h := Hits(x, c, CycleTurns(x));
    assert forall i :: 0 <= i < |Shares(x)| ==> multiset(h)[i] == Shares(x)[i];
    MultiplicitiesSum(multiset(h), Shares(x));
    PicksAreHits(x, c, CycleTurns(x));
  }

  // ----- Settled cursors are the ones the cycle passes through

  /** A cursor whose index is in range and whose threshold is one of the levels g, 2g, ..., max. */
  ghost predicate Settled(x: Wheel, c: Cursor) {
    0 <= c.index < |x.w| && IsMultiple(x.g, c.weight) && 0 < c.weight <= x.max
  }

  lemma TickSettles(x: Wheel, c: Cursor)
    requires Good(x)
    requires Settled(x, c) || (Mod(c.index + 1, |x.w|) == 0 && c.weight <= x.g)
    ensures Settled(x, Tick(x, c))
  {
    assert IsMultiple(x.g, x.w[Peak(x)]);
    if Settled(x, c) && c.weight > x.g {
      var q: nat :| c.weight == Mul(q, x.g);
      assert c.weight - x.g == Mul(q - 1, x.g);
    }
  }

  lemma {:induction false} SettledForever(x: Wheel, c: Cursor, k: nat)
    requires Good(x) && Settled(x, c)
    ensures Settled(x, Ticks(x, c, k))
    decreases k
  {
    if k > 0 {
      TickSettles(x, c);
      SettledForever(x, Tick(x, c), k - 1);
    }
  }

  /** Every settled cursor lies on the cycle through (n - 1, g). */
  lemma {:induction false} SettledOnCycle(x: Wheel, i: nat, u: nat) returns (k: nat)
    requires Good(x) && i < |x.w| && 1 <= u <= Levels(x)
    ensures Ticks(x, Start(x), k) == Cursor(i, Mul(u, x.g))
    decreases Levels(x) - u, i
  {
    k := 0;
    IndexWraps(|x.w|, |x.w| - 1);
    if i > 0 {
      k := SettledOnCycle(x, i - 1, u);
    } else if u < Levels(x) {
      k := SettledOnCycle(x, |x.w| - 1, u + 1);
      TickDown(x, u + 1);
    } else {
      LevelsExact(x);
    }
    OneMoreTick(x, Start(x), k);
    k := k + 1;
  }

  lemma SettledIsPeriodic(x: Wheel, c: Cursor)
    requires Good(x) && Settled(x, c)
    ensures Periodic(x, c)
  {
    var u: nat :| c.weight == Mul(u, x.g);
    LevelsExact(x);
    MulOrder(u, 0, x.g);
    MulOrder(u, Levels(x), x.g);
    var k := SettledOnCycle(x, c.index, u);
    StartIsPeriodic(x);
    PeriodicAlways(x, Start(x), k);
  }

  /** j calls take at least j turns. */
  lemma {:induction false} AfterIsTicks(x: Wheel, c: Cursor, j: nat) returns (k: nat)
    requires Good(x)
    ensures k >= j && After(x, c, j) == Ticks(x, c, k)
    ensures j > 0 ==> Hit(x, After(x, c, j))
    decreases j
  {
    k := 0;
    if j > 0 {
      NextIsFirstHit(x, c);
      var rest := AfterIsTicks(x, Next(x, c), j - 1);
      TicksSplit(x, c, Turns(x, c), rest);
      k := Turns(x, c) + rest;
    }
  }

  // ----- Main results

  lemma StartIsFair(x: Wheel)
    requires Good(x)
    ensures FairCycle(x, Start(x))
  {
    var last := |x.w| - 1;
    ShareExact(x, last);
    MulOrder(1, Share(x, last), x.g);
    StartIsPeriodic(x);
    PeriodicIsFair(x, Start(x));
  }

  lemma FreshBehavesLikeStart(x: Wheel, k: nat)
    requires Good(x) && k > 0
    ensures Picks(x, FRESH, k) == Picks(x, Start(x), k)
    ensures After(x, FRESH, k) == After(x, Start(x), k)
  {
  }

  lemma SharesAreQuotients(x: Wheel)
    requires Good(x)
    ensures Calls(x) == Sum(x.w) / x.g
    ensures forall i: nat :: i < |x.w| ==> Share(x, i) == x.w[i] / x.g
  {
    CallsExact(x);
    forall i: nat | i < |x.w| ensures Share(x, i) == x.w[i] / x.g { ShareExact(x, i); }
  }

  /**
   Exact weighted fairness: from the cursor left by any number j of calls on a fresh or reset
   balancer, the next Sum(w)/g calls pick upstream i exactly w[i]/g times. They return to where
   they began; a first cycle from the fresh cursor ends at (n - 1, g).
   */
  lemma ExactFairness(x: Wheel, j: nat)
    requires Good(x)
    ensures var c, calls := After(x, FRESH, j), Sum(x.w) / x.g;
      && calls > 0
      && (forall i: nat :: i < |x.w| ==> multiset(Picks(x, c, calls))[i] == x.w[i] / x.g)
      && After(x, c, calls) == if j == 0 then Cursor(|x.w| - 1, x.g) else c
  {
    if j == 0 {
      FairFromFresh(x);
    } else {
      FairAfterCalls(x, j);
    }
    SharesAreQuotients(x);
  }

  lemma FairFromFresh(x: Wheel)
    requires Good(x)
    ensures Calls(x) > 0 && After(x, FRESH, Calls(x)) == Start(x)
    ensures forall i: nat :: i < |x.w| ==> multiset(Picks(x, FRESH, Calls(x)))[i] == Share(x, i)
  {
    StartIsFair(x);
    FreshBehavesLikeStart(x, Calls(x));
  }

  lemma FairAfterCalls(x: Wheel, j: nat)
    requires Good(x) && j > 0
    ensures FairCycle(x, After(x, FRESH, j))
  {
    var k := AfterIsTicks(x, FRESH, j);
    TickSettles(x, FRESH);
    TicksSplit(x, FRESH, 1, k - 1);
    SettledForever(x, Tick(x, FRESH), k - 1);
    SettledIsPeriodic(x, After(x, FRESH, j));
    PeriodicIsFair(x, After(x, FRESH, j));
  }

  /** Turns until a stale threshold has run down and the index wraps. */
  lemma {:induction false} SettlesWithin(x: Wheel, c: Cursor) returns (k: nat)
    requires Good(x)
    ensures k <= Distance(|x.w|, c.index, 0) + Mul(Wraps(c.weight - x.g, x.g), |x.w|)
    ensures Settled(x, Ticks(x, c, k))
    decreases Wraps(c.weight - x.g, x.g), Distance(|x.w|, c.index, 0)
  {
    var t := Tick(x, c);
    DistanceDrops(|x.w|, c.index, 0);
    if t.index == 0 && c.weight <= x.g {
      TickSettles(x, c);
      assert Ticks(x, c, 1) == t;
      k := 1;
    } else {
      var rest := SettlesWithin(x, t);
      k := 1 + rest;
    }
  }

  lemma SettledAfter(x: Wheel, c: Cursor, j: nat)
    requires Good(x) && j > 0 && j >= Mul(Wraps(c.weight - x.g, x.g) + 1, |x.w|)
    ensures Settled(x, After(x, c, j)) && Hit(x, After(x, c, j))
  {
    var s := SettlesWithin(x, c);
    var k := AfterIsTicks(x, c, j);
    TicksSplit(x, c, s, k - s);
    SettledForever(x, Ticks(x, c, s), k - s);
  }

  /**
   Resynchronisation: whatever cursor was carried over from other lists, once the list stays fixed
   every cycle that begins after n * (ceil((currentWeight - g) / g) + 1) calls is exactly fair.
   */
  lemma Resynchronises(x: Wheel, c: Cursor, j: nat)
    requires Good(x)
    requires j >= (Wraps(c.weight - x.g, x.g) + 1) * |x.w|
    ensures var d, calls := After(x, c, j), Sum(x.w) / x.g;
      && calls > 0
      && (forall i: nat :: i < |x.w| ==> multiset(Picks(x, d, calls))[i] == x.w[i] / x.g)
      && After(x, d, calls) == d
  {
    var v := Wraps(c.weight - x.g, x.g);
    MulIsProduct(v + 1, |x.w|);
    MulOrder(1, v + 1, |x.w|);
    SettledAfter(x, c, j);
    SettledIsPeriodic(x, After(x, c, j));
    PeriodicIsFair(x, After(x, c, j));
    SharesAreQuotients(x);
  }

  /**
   A fresh balancer always picks the first upstream of maximal weight. A balancer created for
   every request therefore never spreads first attempts by weight.
   */
  lemma FreshPicksFirstHeaviest(x: Wheel)
    requires Good(x)
    ensures var p := Next(x, FRESH).index;
      0 <= p < |x.w| && x.w[p] == x.max && forall i :: 0 <= i < p ==> x.w[i] < x.max
  {
    assert Tick(x, FRESH) == Cursor(0, x.max);
    if !Hit(x, Cursor(0, x.max)) { FirstHeaviestFrom(x, 0); }
  }

  lemma {:induction false} FirstHeaviestFrom(x: Wheel, i: nat)
    requires Good(x) && i < |x.w| && forall j :: 0 <= j <= i ==> x.w[j] < x.max
    ensures var p := Next(x, Cursor(i, x.max)).index;
      0 <= p < |x.w| && x.w[p] == x.max && forall j :: 0 <= j < p ==> x.w[j] < x.max
    decreases |x.w| - i
  {
    assert i < Peak(x);
    assert Tick(x, Cursor(i, x.max)) == Cursor(i + 1, x.max);
    if !Hit(x, Cursor(i + 1, x.max)) { FirstHeaviestFrom(x, i + 1); }
  }
}
