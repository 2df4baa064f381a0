/** Greatest common divisors and sums, as the weighted balancer uses them. */
module Numbers {

  function Times(d: int, q: int): int { d * q }

  ghost predicate Divides(d: int, n: int) {
    exists q :: n == Times(d, q)
  }

  /** The specification of gcd: a common divisor that every common divisor divides. */
  ghost predicate IsGcd(g: int, a: int, b: int) {
    Divides(g, a) && Divides(g, b) && forall d :: Divides(d, a) && Divides(d, b) ==> Divides(d, g)
  }

  lemma DividesCombination(d: int, a: int, b: int, k: int)
    requires Divides(d, a) && Divides(d, b)
    ensures Divides(d, a + k * b)
  {
    var p :| a == Times(d, p);
    var q :| b == Times(d, q);
    assert a + k * b == Times(d, p + k * q);
  }

  lemma DividesTransitive(d: int, h: int, n: int)
    requires Divides(d, h) && Divides(h, n)
    ensures Divides(d, n)
  {
    var p :| h == Times(d, p);
    var q :| n == Times(h, q);
    assert n == Times(d, p * q);
  }

  /** One Euclidean step keeps the set of common divisors. */
  lemma EuclidStep(a: int, b: int, g: int)
    requires b > 0 && IsGcd(g, b, a % b)
    ensures IsGcd(g, a, b)
  {
    var k := a / b;
    assert a == a % b + k * b && a % b == a + (-k) * b;
    DividesCombination(g, a % b, b, k);
    forall d | Divides(d, a) && Divides(d, b) ensures Divides(d, g) {
      DividesCombination(d, a, b, -k);
    }
  }

  /** Euclid's algorithm on non-negative numbers, where Go's remainder and Dafny's agree. */
  function Gcd(a: nat, b: nat): nat
    decreases b
  {
    if b == 0 then a else Gcd(b, a % b)
  }

  lemma {:induction false} GcdIsGcd(a: nat, b: nat)
    ensures IsGcd(Gcd(a, b), a, b)
    ensures a > 0 || b > 0 ==> Gcd(a, b) > 0
    decreases b
  {
    if b == 0 {
      assert a == Times(a, 1) && 0 == Times(a, 0);
    } else {
      GcdIsGcd(b, a % b);
      EuclidStep(a, b, Gcd(b, a % b));
    }
  }

  predicate Positive(w: seq<int>) {
    forall i :: 0 <= i < |w| ==> w[i] > 0
  }

  function GcdAll(w: seq<int>): nat
    requires Positive(w)
  {
    if |w| == 0 then 0 else Gcd(GcdAll(w[..|w| - 1]), w[|w| - 1])
  }

  /** The gcd of a list of positive weights is the greatest of their common divisors. */
  lemma {:induction false} GcdAllIsGcd(w: seq<int>)
    requires Positive(w)
    ensures w != [] ==> GcdAll(w) > 0
    ensures forall i :: 0 <= i < |w| ==> Divides(GcdAll(w), w[i])
    ensures forall d :: (forall i :: 0 <= i < |w| ==> Divides(d, w[i])) ==> Divides(d, GcdAll(w))
  {
    if |w| == 0 {
      forall d ensures Divides(d, 0) { assert 0 == Times(d, 0); }
    } else {
      var v, x := w[..|w| - 1], w[|w| - 1];
      var h := GcdAll(v);
      GcdAllIsGcd(v);
      GcdIsGcd(h, x);
      var g := Gcd(h, x);
      forall i | 0 <= i < |w| ensures Divides(g, w[i]) {
        if i < |v| {
          DividesTransitive(g, h, w[i]);
        }
      }
      forall d | forall i :: 0 <= i < |w| ==> Divides(d, w[i]) ensures Divides(d, g) {
        assert Divides(d, x);
        assert forall i :: 0 <= i < |v| ==> Divides(d, w[i]) && v[i] == w[i];
      }
    }
  }

  function MaxAll(w: seq<int>): int {
    if |w| == 0 then 0 else
      var m := MaxAll(w[..|w| - 1]);
      if w[|w| - 1] > m then w[|w| - 1] else m
  }

  lemma {:induction false} MaxAllIsMax(w: seq<int>)
    requires Positive(w)
    ensures forall i :: 0 <= i < |w| ==> w[i] <= MaxAll(w)
    ensures w != [] ==> MaxAll(w) in w
  {
    if |w| > 0 {
      var v := w[..|w| - 1];
      MaxAllIsMax(v);
      assert w == v + [w[|w| - 1]];
      assert forall i :: 0 <= i < |v| ==> w[i] == v[i];
    }
  }

  function Sum(q: seq<int>): int {
    if |q| == 0 then 0 else Sum(q[..|q| - 1]) + q[|q| - 1]
  }

  /** A multiset over the indices below |q| with multiplicities q has Sum(q) elements. */
  lemma {:induction false} MultiplicitiesSum(m: multiset<int>, q: seq<int>)
    requires forall i :: 0 <= i < |q| ==> m[i] == q[i]
    requires forall x :: x in m ==> 0 <= x < |q|
    ensures |m| == Sum(q)
  {
    if |q| == 0 {
      assert forall x :: x !in m;
      assert m == multiset{};
    } else {
      var k := |q| - 1;
      var rest := m[k := 0];
      assert |m| == |rest| + m[k];
      MultiplicitiesSum(rest, q[..k]);
    }
  }

  // ----- Products, remainders and quotients by repeated addition, so that later proofs stay linear

  function Mul(k: nat, g: int): int {
    if k == 0 then 0 else Mul(k - 1, g) + g
  }

  lemma {:induction false} MulIsProduct(k: nat, g: int)
    ensures Mul(k, g) == k * g
  {
    if k > 0 {
      MulIsProduct(k - 1, g);
      assert (k - 1) * g + g == k * g;
    }
  }

  lemma {:induction false} MulIncreases(a: nat, b: nat, g: int)
    requires a < b && g > 0
    ensures Mul(a, g) + g <= Mul(b, g)
    decreases b
  {
    if a < b - 1 { MulIncreases(a, b - 1, g); }
  }

  lemma MulOrder(a: nat, b: nat, g: int)
    requires g > 0
    ensures a <= b <==> Mul(a, g) <= Mul(b, g)
  {
  }

  function Mod(a: nat, n: nat): (r: nat)
    requires n > 0
    ensures r < n
    decreases a
  {
    if a < n then a else Mod(a - n, n)
  }

  lemma {:induction false} ModIsRemainder(a: nat, n: nat)
    requires n > 0
    ensures Mod(a, n) == a % n
    decreases a
  {
    if a >= n {
      ModIsRemainder(a - n, n);
      assert a == n * (1 + (a - n) / n) + (a - n) % n;
      QuotientUnique(a, n, 1 + (a - n) / n, (a - n) % n);
    }
  }

  lemma MultipleMagnitude(g: int, k: int)
    requires g > 0
    ensures k >= 1 ==> g * k >= g
    ensures k <= -1 ==> g * k <= -g
  {
  }

  lemma QuotientUnique(a: int, g: int, q: int, r: int)
    requires g > 0 && a == g * q + r && 0 <= r < g
    ensures a / g == q && a % g == r
  {
    var q', r' := a / g, a % g;
    assert a == g * q' + r';
    assert g * (q - q') == r' - r;
    MultipleMagnitude(g, q - q');
  }

  function Quotient(a: int, g: int): nat
    requires g > 0
    decreases a
  {
    if a < g then 0 else 1 + Quotient(a - g, g)
  }

  lemma {:induction false} QuotientOfMul(q: nat, g: int)
    requires g > 0
    ensures Quotient(Mul(q, g), g) == q
    ensures Mul(q, g) / g == q
  {
    MulIsProduct(q, g);
    QuotientUnique(Mul(q, g), g, q, 0);
    if q > 0 {
      QuotientOfMul(q - 1, g);
      MulOrder(0, q - 1, g);
    }
  }

  lemma {:induction false} MulAdds(a: nat, b: nat, g: int)
    ensures Mul(a + b, g) == Mul(a, g) + Mul(b, g)
  {
    if b > 0 {
      MulAdds(a, b - 1, g);
      assert a + b - 1 == a + (b - 1);
    }
  }

  lemma {:induction false} SumScales(g: int, q: seq<int>, w: seq<int>) returns (total: nat)
    requires |q| == |w| && forall i :: 0 <= i < |q| ==> q[i] >= 0 && w[i] == Mul(q[i], g)
    ensures Sum(q) == total && Sum(w) == Mul(total, g)
  {
    total := 0;
    if |q| > 0 {
      var k := |q| - 1;
      total := SumScales(g, q[..k], w[..k]);
      MulAdds(total, q[k], g);
      total := total + q[k];
    }
  }
}
