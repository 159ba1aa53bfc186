/** Greatest common divisor and least common multiple on natural numbers, with the values
    `num::integer::gcd` and `num::integer::lcm` return (`lcm(a, b) = a * (b / gcd(a, b))`, and 0
    when both are 0). */
module Divisibility {

  /** `d` divides `n`: `n` is a multiple of `d` (0 divides only 0, everything divides 0). */
  ghost predicate Divides(d: nat, n: nat)
  {
    exists k: nat :: n == d * k
  }

  lemma MultipleDivides(d: nat, k: nat)
    ensures Divides(d, d * k)
  {
  }

  /** The greatest common divisor, by remainders. */
  function Gcd(a: nat, b: nat): (g: nat)
    ensures (a > 0 || b > 0) ==> g > 0
    decreases b
  {
    if b == 0 then a else Gcd(b, a % b)
  }

  /** `lcm` of `num::integer`: zero when both arguments are zero, else `a * (b / gcd(a, b))`. */
  function Lcm(a: nat, b: nat): (l: nat)
    ensures l == 0 <==> a == 0 || b == 0
  {
    if a == 0 && b == 0 then 0
    else
      GcdDivides(a, b);
      if b > 0 then QuotientPositive(b, Gcd(a, b)); Product(a, b / Gcd(a, b))
      else Product(a, b / Gcd(a, b))
  }

  /** A positive multiple of `d` holds `d` at least once. */
  lemma QuotientPositive(n: nat, d: nat)
    requires n > 0 && d > 0 && Divides(d, n)
    ensures n / d > 0
  {
    var k: nat :| n == d * k;
    DivisionUnique(n, d, k, 0);
  }

  function Product(x: nat, y: nat): nat
  {
    x * y
  }

  /** Quotient and remainder are determined by the division equation. */
  lemma DivisionUnique(x: nat, d: nat, q: nat, r: nat)
    requires d > 0 && x == q * d + r && r < d
    ensures x / d == q && x % d == r
  {
    var q', r' := x / d, x % d;
    assert x == q' * d + r';
    assert (q' - q) * d == r - r';
    assert (q - q') * d == r' - r;
    if q' > q {
      AtLeastOnce(q' - q, d);
    } else if q > q' {
      AtLeastOnce(q - q', d);
    }
  }

  lemma AtLeastOnce(a: int, d: int)
    requires a >= 1 && d >= 0
    ensures a * d >= d
  {
    assert a * d == (a - 1) * d + d;
  }

  /** The gcd divides both arguments. */
  lemma {:induction false} GcdDivides(a: nat, b: nat)
    ensures Divides(Gcd(a, b), a) && Divides(Gcd(a, b), b)
    decreases b
  {
    if b == 0 {
      MultipleDivides(a, 1);
      MultipleDivides(a, 0);
    } else {
      GcdDivides(b, a % b);
      var g := Gcd(b, a % b);
      var i: nat :| b == g * i;
      var j: nat :| a % b == g * j;
      var q := a / b;
      assert a == q * b + a % b;
      assert a == g * (q * i + j);
      MultipleDivides(g, q * i + j);
    }
  }

  /** Every common divisor divides the gcd. */
  lemma {:induction false} GcdGreatest(a: nat, b: nat, d: nat)
    requires Divides(d, a) && Divides(d, b)
    ensures Divides(d, Gcd(a, b))
    decreases b
  {
    if b > 0 {
      var i: nat :| a == d * i;
      var j: nat :| b == d * j;
      var q, r := a / b, a % b;
      assert a == q * b + r;
      assert r == d * (i - q * j);
      assert d > 0;
      assert d * (i - q * j) == -((q * j - i) * d);
      if i - q * j < 0 {
        AtLeastOnce(q * j - i, d);
      }
      MultipleDivides(d, i - q * j);
      GcdGreatest(b, r, d);
    }
  }

  /** Scaling both arguments scales the gcd. */
  lemma {:induction false} GcdScale(a: nat, b: nat, k: nat)
    ensures Gcd(k * a, k * b) == k * Gcd(a, b)
    decreases b
  {
    if b == 0 {
      assert k * b == 0;
    } else if k == 0 {
      assert k * a == 0 && k * b == 0;
    } else {
      var q, r := a / b, a % b;
      assert a == q * b + r;
      assert k * a == q * (k * b) + k * r;
      assert k * r < k * b by {
        AtLeastOnce(b - r, k);
        assert (b - r) * k == k * b - k * r;
      }
      DivisionUnique(k * a, k * b, q, k * r);
      GcdScale(b, r, k);
    }
  }

  lemma Cancel(x: nat, y: nat, g: nat)
    requires g > 0 && x * g == y * g
    ensures x == y
  {
    assert (x - y) * g == x * g - y * g;
    if x > y {
      AtLeastOnce(x - y, g);
    } else if y > x {
      AtLeastOnce(y - x, g);
    }
  }

  lemma DividesTransitive(a: nat, b: nat, c: nat)
    requires Divides(a, b) && Divides(b, c)
    ensures Divides(a, c)
  {
    var k: nat :| b == a * k;
    var l: nat :| c == b * l;
    assert c == a * (k * l);
    MultipleDivides(a, k * l);
  }

  /** Two numbers that divide each other are equal. */
  lemma DividesAntisymmetric(a: nat, b: nat)
    requires Divides(a, b) && Divides(b, a)
    ensures a == b
  {
    var k: nat :| b == a * k;
    var l: nat :| a == b * l;
    if a > 0 {
      assert a * 1 == a * (k * l);
      Cancel(1, k * l, a);
      if k > 1 {
        AtLeastOnce(k, l);
        AtLeastOnce(l, k);
      }
    }
  }

  /** `lcm(a, b)` is a multiple of both arguments. */
  lemma LcmMultiple(a: nat, b: nat)
    ensures Divides(a, Lcm(a, b)) && Divides(b, Lcm(a, b))
  {
    if a == 0 && b == 0 {
      MultipleDivides(0, 0);
    } else {
      var g := Gcd(a, b);
      GcdDivides(a, b);
      var p: nat :| a == g * p;
      var q: nat :| b == g * q;
      DivisionUnique(b, g, q, 0);
      assert Lcm(a, b) == a * q;
      MultipleDivides(a, q);
      assert a * q == b * p;
      MultipleDivides(b, p);
    }
  }

  /** `lcm(a, b)` divides every common multiple of `a` and `b`. */
  lemma LcmLeast(a: nat, b: nat, m: nat)
    requires Divides(a, m) && Divides(b, m)
    ensures Divides(Lcm(a, b), m)
  {
    var s: nat :| m == a * s;
    var t: nat :| m == b * t;
    if a == 0 || b == 0 {
      assert m == 0;
      MultipleDivides(Lcm(a, b), 0);
    } else {
      LcmLeastPositive(a, b, m, s, t);
    }
  }

  lemma LcmLeastPositive(a: nat, b: nat, m: nat, s: nat, t: nat)
    requires a > 0 && b > 0 && m == a * s && m == b * t
    ensures Divides(Lcm(a, b), m)
  {
    var g := Gcd(a, b);
    GcdDivides(a, b);
    var q: nat :| b == g * q;
    DivisionUnique(b, g, q, 0);
    var l := a * q;
    assert Lcm(a, b) == l;
    CommonMultipleProduct(a, b, m, s, t);
    var k: nat :| m * g == (a * b) * k;
    assert a * b == l * g;
    assert m * g == (l * k) * g;
    Cancel(m, l * k, g);
    MultipleDivides(l, k);
  }

  lemma Rearrange(x: nat, y: nat, z: nat)
    ensures (x * y) * z == (z * x) * y
  {
  }

  /** `a * b` divides `m * gcd(a, b)` for every common multiple `m`. */
  lemma CommonMultipleProduct(a: nat, b: nat, m: nat, s: nat, t: nat)
    requires m == a * s && m == b * t
    ensures Divides(a * b, m * Gcd(a, b))
  {
    GcdScale(a, b, m);
    Rearrange(b, t, a);
    Rearrange(a, s, b);
    assert a * b == b * a;
    MultipleDivides(a * b, t);
    MultipleDivides(a * b, s);
    GcdGreatest(m * a, m * b, a * b);
  }

  /** `l` is the least common multiple of the numbers in `xs`: a multiple of each of them that
      divides every other common multiple. */
  ghost predicate IsLcmOf(l: nat, xs: set<nat>)
  {
    && (forall x :: x in xs ==> Divides(x, l))
    && (forall m: nat :: (forall x :: x in xs ==> Divides(x, m)) ==> Divides(l, m))
  }

  /** The least common multiple of a set does not depend on anything but the set. */
  lemma LcmOfUnique(a: nat, b: nat, xs: set<nat>)
    requires IsLcmOf(a, xs) && IsLcmOf(b, xs)
    ensures a == b
  {
    DividesAntisymmetric(a, b);
  }

  /** The least common multiple of no numbers is 1, the start value of the fold. */
  lemma LcmOfEmpty(l: nat)
    ensures IsLcmOf(l, {}) <==> l == 1
  {
    if l == 1 {
      forall m: nat ensures Divides(1, m) {
        MultipleDivides(1, m);
      }
    }
    if IsLcmOf(l, {}) {
      assert Divides(l, 1);
      var k: nat :| 1 == l * k;
      if l > 1 {
        AtLeastOnce(k, l);
      }
    }
  }

  /** One step of the fold: `lcm(acc, x)` is the least common multiple of one more number. */
  lemma LcmOfInsert(l: nat, xs: set<nat>, x: nat)
    requires IsLcmOf(l, xs)
    ensures IsLcmOf(Lcm(l, x), xs + {x})
  {
    LcmMultiple(l, x);
    forall y | y in xs + {x} ensures Divides(y, Lcm(l, x)) {
      if y != x {
        DividesTransitive(y, l, Lcm(l, x));
      }
    }
    forall m: nat | (forall y :: y in xs + {x} ==> Divides(y, m)) ensures Divides(Lcm(l, x), m) {
      assert Divides(l, m);
      LcmLeast(l, x, m);
    }
  }
}
