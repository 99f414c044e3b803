/** Facts about multiples and quotients that the solver does not find by itself. */
module Arithmetic {

  lemma OneMoreMultiple(a: nat, b: nat, d: nat)
    requires a > b
    ensures a * d >= b * d + d
  {
    assert a * d == b * d + (a - b) * d;
    assert (a - b) * d == d + (a - b - 1) * d;
  }

  lemma QuotientIs(n: nat, d: nat, q: nat, r: nat)
    requires r < d && n == q * d + r
    ensures n / d == q && n % d == r
  {
    var q' := n / d;
    assert n == q' * d + n % d;
    if q' > q {
      OneMoreMultiple(q', q, d);
    } else if q' < q {
      OneMoreMultiple(q, q', d);
    }
  }

  lemma DivNext(n: nat, d: nat)
    requires d > 0
    ensures if n % d == d - 1 then (n + 1) % d == 0 && (n + 1) / d == n / d + 1
            else (n + 1) % d == n % d + 1 && (n + 1) / d == n / d
  {
    var q, r := n / d, n % d;
    assert n == q * d + r;
    if r == d - 1 {
      NextMultiple(q, d);
      QuotientIs(n + 1, d, q + 1, 0);
    } else {
      QuotientIs(n + 1, d, q, r + 1);
    }
  }

  lemma AtMostQuotient(a: nat, d: nat, p: nat)
    requires p > 0 && a * p <= d
    ensures a <= d / p
  {
    if a > d / p {
      assert d == d / p * p + d % p;
      OneMoreMultiple(a, d / p, p);
    }
  }

  lemma NextMultiple(k: nat, p: nat)
    ensures (k + 1) * p == k * p + p
  {
  }

  // ---- greatest common divisors ------------------------------------------------------------

  function Gcd(a: nat, b: nat): nat
    decreases b
  {
    if b == 0 then a else Gcd(b, a % b)
  }

  /** It divides both. */
  lemma {:induction false} GcdDivides(a: nat, b: nat) returns (i: nat, j: nat)
    requires a > 0 || b > 0
    ensures Gcd(a, b) > 0 && a == i * Gcd(a, b) && b == j * Gcd(a, b)
    decreases b
  {
    if b == 0 {
      i, j := 1, 0;
      assert 1 * a == a && 0 * a == 0;
    } else {
      var q, r, g := a / b, a % b, Gcd(a, b);
      hide Gcd;
      DivMod(a, b);
      var m, k := GcdDivides(b, r);
      i, j := q * m + k, m;
      CombineMultiples(a, b, q, r, m, k, g);
    }
  }

  lemma DivMod(a: nat, b: nat)
    requires b > 0
    ensures a == a / b * b + a % b
  {
  }

  lemma CombineMultiples(a: nat, b: nat, q: nat, r: nat, m: nat, k: int, g: nat)
    requires a == q * b + r && b == m * g && r == k * g
    ensures a == (q * m + k) * g
  {
    MinusTimes(q * m, -k, g);
    assert q * (m * g) == q * m * g;
  }

  /** And it is a combination of both. */
  lemma {:induction false} Bezout(a: nat, b: nat) returns (x: int, y: int)
    requires a > 0 || b > 0
    ensures x * a + y * b == Gcd(a, b)
    decreases b
  {
    if b == 0 {
      x, y := 1, 0;
    } else {
      var q := a / b;
      var u, v := Bezout(b, a % b);
      x, y := v, u - q * v;
      MinusTimes(a, q * b, v);
      MinusTimes(u, q * v, b);
    }
  }

  lemma MinusTimes(a: int, b: int, d: int)
    ensures (a - b) * d == a * d - b * d
  {
  }

  lemma PlusTimes(a: int, b: int, d: int)
    ensures (a + b) * d == a * d + b * d
  {
  }

  lemma PositiveTimes(m: int, d: int)
    requires m >= 1 && d >= 0
    ensures m * d >= d
  {
    MinusTimes(m, 1, d);
  }

  lemma {:induction false} SmallMultiple(m: int, d: int)
    requires d >= 0 && -d < m * d < d
    ensures m == 0
  {
    if m > 0 {
      PositiveTimes(m, d);
    } else if m < 0 {
      PositiveTimes(-m, d);
    }
  }

  lemma {:induction false} ResidueIs(v: int, d: nat, q: int, r: nat)
    requires r < d && v == q * d + r
    ensures v % d == r
  {
    var p, s := v / d, v % d;
    assert v == p * d + s;
    MinusTimes(p, q, d);
    SmallMultiple(p - q, d);
  }

  /** Adding multiples of p modulo w never leads above the last number below w that is congruent to the start. */
  lemma {:induction false} StepsStayBelow(start: nat, p: nat, w: nat, n: nat)
    requires p > 0 && w > 0
    ensures var g := Gcd(p, w);
            g > 0 && (start + n * p) % w <= w - g + start % g
  {
    var g := Gcd(p, w);
    var i, j := GcdDivides(p, w);
    var v := start + n * p;
    var q, r := v / w, v % w;
    assert v == q * w + r;
    var c, s := start / g, start % g;
    assert start == c * g + s;
    Collect(c, n, i, q, j, g);
    Below(c + n * i - q * j, j, g, s);
  }

  lemma Collect(c: int, n: int, i: int, q: int, j: int, g: int)
    ensures (c + n * i - q * j) * g == c * g + n * (i * g) - q * (j * g)
  {
    MinusTimes(c + n * i, q * j, g);
    MinusTimes(c, -n * i, g);
  }

  lemma Below(m: int, j: nat, g: nat, s: nat)
    requires m * g + s < j * g
    ensures m * g + s <= j * g - g + s
  {
    MinusTimes(j, m, g);
    if m >= j {
      MinusTimes(m, j, g);
    } else {
      PositiveTimes(j - m, g);
    }
  }

  /** And some number of steps leads there. */
  lemma {:induction false} StepsReach(start: nat, p: nat, w: nat) returns (n: nat)
    requires p > 0 && w > 0
    ensures var g := Gcd(p, w);
            n >= 1 && g > 0 && (start + n * p) % w == w - g + start % g
  {
    var g := Gcd(p, w);
    var i, j := GcdDivides(p, w);
    var x, y := Bezout(p, w);
    var c, s := start / g, start % g;
    assert start == c * g + s;
    assert j >= 1 by {
      assert j == 0 ==> j * g == 0;
    }
    var top := w - g + s;
    PositiveTimes(j, g);
    var t := j - 1 - c;
    assert t * g == j * g - g - c * g;
    var k, r := (x * t) / w, (x * t) % w;
    assert x * t == k * w + r;
    n := r + w;
    var q := p - k * p - t * y;
    Combine(start, p, w, x, y, t, k, r, g);
    ResidueIs(start + n * p, w, q, top);
  }

  lemma Combine(start: nat, p: nat, w: nat, x: int, y: int, t: int, k: int, r: nat, g: nat)
    requires x * p + y * w == g && x * t == k * w + r
    ensures start + (r + w) * p == (p - k * p - t * y) * w + (start + t * g)
  {
    assert (r + w) * p == r * p + w * p;
    assert r * p == (x * t - k * w) * p == (x * t) * p - (k * w) * p;
    assert (x * t) * p == t * (x * p) == t * (g - y * w) == t * g - t * (y * w);
    assert t * (y * w) == t * y * w && (k * w) * p == k * p * w;
    assert (p - k * p - t * y) * w == p * w - k * p * w - t * y * w;
  }
}
