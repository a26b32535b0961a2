/** Powers and division, in the small steps the arithmetic below needs. */
module Powers {

  function Pow(b: nat, n: nat): (p: nat)
    ensures b > 0 ==> p > 0
  {
    if n == 0 then 1 else Positive(b, Pow(b, n - 1)); b * Pow(b, n - 1)
  }

  lemma Positive(a: nat, b: nat)
    ensures a > 0 && b > 0 ==> a * b > 0
  {
  }

  lemma {:induction false} PowAdd(b: nat, m: nat, n: nat)
    ensures Pow(b, m + n) == Pow(b, m) * Pow(b, n)
  {
    if m > 0 {
      PowAdd(b, m - 1, n);
      Associates(b, Pow(b, m - 1), Pow(b, n));
    }
  }

  lemma Associates(a: int, b: int, c: int)
    ensures a * (b * c) == (a * b) * c
  {
  }

  lemma Distributes(a: int, b: int, c: int)
    ensures (a + b) * c == a * c + b * c
  {
  }

  lemma {:induction false} PowMonotone(b: nat, m: nat, n: nat)
    requires b > 0 && m <= n
    ensures Pow(b, m) <= Pow(b, n)
  {
    PowAdd(b, m, n - m);
    MulAtLeast(Pow(b, m), Pow(b, n - m));
  }

  lemma MulAtLeast(x: nat, d: nat)
    requires d > 0
    ensures x <= x * d
  {
  }

  lemma {:induction false} PowOfPow(b: nat, k: nat, n: nat)
    ensures Pow(b, k * n) == Pow(Pow(b, k), n)
  {
    if n == 0 {
      assert k * n == 0;
    } else {
      PowOfPow(b, k, n - 1);
      assert k * n == k + k * (n - 1);
      PowAdd(b, k, k * (n - 1));
    }
  }

  lemma MulMonotone(a: nat, b: nat, c: nat)
    requires a <= b
    ensures a * c <= b * c
  {
  }

  /** The quotient and remainder are the only pair of their kind. */
  lemma DivUnique(x: int, d: int, q: int, r: int)
    requires d > 0 && x == q * d + r && 0 <= r < d
    ensures x / d == q && x % d == r
  {
    var q', r' := x / d, x % d;
    assert (q' - q) * d == r - r' && (q - q') * d == r' - r;
    if q' > q {
      MulMonotone(1, q' - q, d);
    } else if q' < q {
      MulMonotone(1, q - q', d);
    }
  }

  lemma DivUniqueBy(x: int, d: int, q: int, r: int)
    requires d > 0 && x == r + d * q && 0 <= r < d
    ensures x / d == q && x % d == r
  {
    DivUnique(x, d, q, r);
  }

  lemma DivBound(x: nat, d: nat, q: nat)
    requires d > 0
    ensures x < q * d <==> x / d < q
  {
    var q', r' := x / d, x % d;
    assert x == q' * d + r';
    if q' < q {
      MulMonotone(q' + 1, q, d);
      assert (q' + 1) * d == q' * d + d;
    } else {
      MulMonotone(q, q', d);
    }
  }

  /** A larger divisor gives a smaller quotient. */
  lemma DivAntitone(x: nat, d: nat, e: nat)
    requires 0 < d <= e
    ensures x / e <= x / d
  {
    DivBound(x, d, x / d + 1);
    MulMonotone(d, e, x / d + 1);
    assert (x / d + 1) * d <= (x / d + 1) * e;
    DivBound(x, e, x / d + 1);
  }

  lemma DivAddMultiple(x: int, d: int, k: int)
    requires d > 0
    ensures (x + k * d) / d == x / d + k && (x + k * d) % d == x % d
  {
    assert x == (x / d) * d + x % d;
    assert x + k * d == (x / d + k) * d + x % d;
    DivUnique(x + k * d, d, x / d + k, x % d);
  }

  lemma DivDiv(x: nat, d: nat, e: nat)
    requires d > 0 && e > 0
    ensures d * e > 0 && (x / d) / e == x / (d * e)
  {
    var q, r := x / d, x % d;
    var p, s := q / e, q % e;
    Positive(d, e);
    assert x == q * d + r && q == p * e + s;
    assert x == p * (d * e) + (s * d + r) by {
      assert (p * e + s) * d == p * e * d + s * d;
      Associates(p, e, d);
    }
    assert s * d + r < d * e by {
      MulMonotone(s, e - 1, d);
      assert (e - 1) * d + d == d * e;
    }
    assert 0 <= s * d;
    DivUnique(x, d * e, p, s * d + r);
  }

  lemma MulCancels(q: int, d: int)
    requires d > 0
    ensures (q * d) / d == q && (q * d) % d == 0
  {
    DivUnique(q * d, d, q, 0);
  }

  lemma SmallModulo(x: nat, m: nat)
    requires x < m
    ensures x % m == x
  {
  }

  const WORD: nat := 0x1_0000_0000

  lemma PowWord()
    ensures Pow(2, 8) == 256 && Pow(2, 16) == 0x1_0000 && Pow(2, 24) == 0x100_0000 && Pow(2, 32) == WORD
    ensures Pow(2, 23) == 0x80_0000
  {
    assert Pow(2, 1) == 2 && Pow(2, 2) == 4;
    PowAdd(2, 2, 2);
    PowAdd(2, 4, 4);
    PowAdd(2, 8, 8);
    PowAdd(2, 8, 16);
    PowAdd(2, 16, 16);
    assert Pow(2, 24) == 2 * Pow(2, 23);
  }

  /** Bitwise and, of numbers of any width. */
  function BitAnd(a: nat, b: nat): (r: nat)
    ensures r <= a && r <= b
  {
    if a == 0 || b == 0 then 0 else (if a % 2 == 1 && b % 2 == 1 then 1 else 0) + 2 * BitAnd(a / 2, b / 2)
  }

  /** The remainder by twice a number, from the remainder of the half. */
  lemma HalfRemainder(h: nat, p: nat)
    requires p > 0
    ensures h % (2 * p) == 2 * (h / 2 % p) + h % 2
  {
    var m, q, r := h / 2, h / 2 / p, h / 2 % p;
    assert m == q * p + r;
    assert q * (2 * p) == 2 * (q * p);
    DivUnique(h, 2 * p, q, 2 * r + h % 2);
  }

  /** Masking with one less than a power of two is the remainder by it. */
  lemma {:induction false} MaskIsRemainder(h: nat, k: nat)
    ensures BitAnd(h, Pow(2, k) - 1) == h % Pow(2, k)
    decreases k
  {
    hide Pow;
    PowUnfolds(2, k);
    if k > 0 {
      var p := Pow(2, k - 1);
      MaskIsRemainder(h / 2, k - 1);
      HalfRemainder(h, p);
      AndLowOnes(h, p);
    }
  }

  lemma AndLowOnes(h: nat, p: nat)
    requires p > 0
    ensures BitAnd(h, 2 * p - 1) == 2 * BitAnd(h / 2, p - 1) + h % 2
  {
    assert (2 * p - 1) / 2 == p - 1 && (2 * p - 1) % 2 == 1;
  }

  lemma PowUnfolds(b: nat, k: nat)
    ensures Pow(b, 0) == 1 && (k > 0 ==> Pow(b, k) == b * Pow(b, k - 1))
  {
  }
}
