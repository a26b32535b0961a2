/** Little-endian sequences of 32-bit words, and what bit operations on a word mean for its value. */
module Limbs {
  import opened Powers

  type uint32 = x: nat | x < 0x1_0000_0000

  /** The number a sequence of words stands for, the least significant word first. */
  function Value(s: seq<uint32>): nat {
    if s == [] then 0 else Value(s[..|s| - 1]) + s[|s| - 1] * Pow(WORD, |s| - 1)
  }

  lemma ValuePrefix(s: seq<uint32>, i: nat)
    requires i < |s|
    ensures Value(s[..i + 1]) == Value(s[..i]) + s[i] * Pow(WORD, i)
  {
    assert s[..i + 1][..i] == s[..i];
  }

  lemma {:induction false} ValueBound(s: seq<uint32>)
    ensures Value(s) < Pow(WORD, |s|)
  {
    if s != [] {
      ValueBound(s[..|s| - 1]);
      BoundStep(Value(s[..|s| - 1]), s[|s| - 1], Pow(WORD, |s| - 1));
    }
  }

  lemma BoundStep(v: nat, x: nat, p: nat)
    requires v < p && x < WORD
    ensures v + x * p < WORD * p
  {
    MulMonotone(x + 1, WORD, p);
    assert (x + 1) * p == x * p + p;
  }

  lemma {:induction false} ValueZeros(s: seq<uint32>)
    requires forall i :: 0 <= i < |s| ==> s[i] == 0
    ensures Value(s) == 0
  {
    if s != [] {
      ValueZeros(s[..|s| - 1]);
    }
  }

  /** Splitting a number between two words. */
  lemma {:induction false} ValueSplit(s: seq<uint32>, k: nat)
    requires k <= |s|
    ensures Value(s) == Value(s[..k]) + Pow(WORD, k) * Value(s[k..])
    decreases |s|
  {
    if k == |s| {
      assert s[..k] == s;
    } else {
      var front, n := s[..|s| - 1], |s| - 1;
      ValueSplit(front, k);
      assert front[..k] == s[..k];
      assert front[k..] == s[k..][..n - k];
      PowAdd(WORD, k, n - k);
      SplitStep(Pow(WORD, k), Pow(WORD, n - k), Value(front[k..]), s[n]);
    }
  }

  lemma SplitStep(p: nat, q: nat, v: nat, x: nat)
    ensures p * (v + x * q) == p * v + x * (p * q)
  {
  }

  lemma ValueLow(s: seq<uint32>)
    requires |s| > 0
    ensures Value(s) == s[0] + WORD * Value(s[1..])
  {
    ValueSplit(s, 1);
    assert s[..1] == [s[0]];
    ValuePrefix(s, 0);
    assert Pow(WORD, 1) == WORD * Pow(WORD, 0);
  }

  /** The value determines the words. */
  lemma {:induction false} ValueInjective(s: seq<uint32>, t: seq<uint32>)
    requires |s| == |t| && Value(s) == Value(t)
    ensures s == t
  {
    if s != [] {
      ValueLow(s);
      ValueLow(t);
      DivUnique(Value(s), WORD, Value(s[1..]), s[0]);
      DivUnique(Value(t), WORD, Value(t[1..]), t[0]);
      ValueInjective(s[1..], t[1..]);
      assert s == [s[0]] + s[1..] && t == [t[0]] + t[1..];
    }
  }

  /** The low words are the remainder, the high words the quotient. */
  lemma ValueDivides(s: seq<uint32>, k: nat)
    requires k <= |s|
    ensures Value(s) % Pow(WORD, k) == Value(s[..k]) && Value(s) / Pow(WORD, k) == Value(s[k..])
  {
    hide Value, Pow;
    ValueSplit(s, k);
    ValueBound(s[..k]);
    DivUniqueBy(Value(s), Pow(WORD, k), Value(s[k..]), Value(s[..k]));
  }

  lemma {:induction false} ValueShifted(s: seq<uint32>, k: nat, low: seq<uint32>)
    requires |low| == k && forall i :: 0 <= i < k ==> low[i] == 0
    ensures Value(low + s) == Pow(WORD, k) * Value(s)
  {
    ValueSplit(low + s, k);
    assert (low + s)[..k] == low && (low + s)[k..] == s;
    ValueZeros(low);
  }

  // ----- words and bits -----

  /** Bitwise or. */
  function Or(a: nat, b: nat): nat {
    if a == 0 then b else (if a % 2 == 1 || b % 2 == 1 then 1 else 0) + 2 * Or(a / 2, b / 2)
  }

  /** Words whose set bits do not meet are added. */
  lemma {:induction false} OrDisjoint(a: nat, b: nat, n: nat)
    requires a % Pow(2, n) == 0 && b < Pow(2, n)
    ensures Or(a, b) == a + b && Or(b, a) == a + b
    decreases n
  {
    if n == 0 {
      OrZero(a);
    } else {
      var p := Pow(2, n - 1);
      var q := a / Pow(2, n);
      assert a == q * (2 * p);
      Associates(q, p, 2);
      assert a == (q * p) * 2;
      MulCancels(q * p, 2);
      MulCancels(q, p);
      OrDisjoint(a / 2, b / 2, n - 1);
    }
  }

  lemma {:induction false} OrZero(a: nat)
    ensures Or(a, 0) == a && Or(0, a) == a
  {
    if a > 0 {
      OrZero(a / 2);
    }
  }

  function ShiftLeft32(x: uint32, s: nat): uint32 {
    x * Pow(2, s) % WORD
  }

  function ShiftRight32(x: uint32, s: nat): uint32 {
    QuotientFits(x, Pow(2, s));
    x / Pow(2, s)
  }

  lemma QuotientFits(x: nat, d: nat)
    requires d > 0
    ensures 0 <= x / d <= x
  {
    DivBound(x, d, x + 1);
    MulAtLeast(x + 1, d);
  }

  /** Bit `k` of a word. */
  predicate BitOf(x: nat, k: nat) {
    x / Pow(2, k) % 2 == 1
  }

  lemma TopBit(x: nat, k: nat)
    requires x < Pow(2, k + 1)
    ensures BitOf(x, k) <==> x >= Pow(2, k)
  {
    var p := Pow(2, k);
    DivBound(x, p, 2);
    DivBound(x, p, 1);
  }

  // ----- carries -----

  /** One word of a carry loop: the low half stays, the high half moves on. */
  lemma CarryStep(v: nat, carry: nat, p: nat, z: nat)
    ensures var n := carry + z; v + (n % WORD) * p + (n / WORD) * (WORD * p) == v + carry * p + z * p
  {
    var n := carry + z;
    Associates(n / WORD, WORD, p);
    assert ((n / WORD) * WORD) * p + (n % WORD) * p == n * p;
    assert n * p == carry * p + z * p;
  }

  /** The words below `i + 1` after a step of a carry loop, when those below `i` and the carry make `t`. */
  lemma CarryRow(was: seq<uint32>, now: seq<uint32>, i: nat, carry: nat, z: nat, t: nat)
    requires i < |was| && now == was[i := (carry + z) % WORD]
    requires Value(was[..i]) + carry * Pow(WORD, i) == t
    ensures Value(now[..i + 1]) + ((carry + z) / WORD) * Pow(WORD, i + 1) == t + z * Pow(WORD, i)
  {
    hide Value, Pow;
    CarryStep(Value(was[..i]), carry, Pow(WORD, i), z);
    PowStep(i);
    ValuePrefix(now, i);
    assert now[..i] == was[..i];
  }

  lemma PowStep(i: nat)
    ensures Pow(WORD, i + 1) == WORD * Pow(WORD, i)
  {
  }

  lemma {:induction false} ComplementValue(s: seq<uint32>, t: seq<uint32>)
    requires |t| == |s| && forall i :: 0 <= i < |s| ==> t[i] == WORD - 1 - s[i]
    ensures Value(s) + Value(t) == Pow(WORD, |s|) - 1
  {
    if s != [] {
      var n := |s| - 1;
      ComplementValue(s[..n], t[..n]);
      Distributes(s[n], t[n], Pow(WORD, n));
    }
  }

  /** Adding one: full words roll over to zero, and the next word goes up. */
  lemma {:induction false} IncrementValue(s: seq<uint32>, t: seq<uint32>, i: nat)
    requires |t| == |s| && i < |s|
    requires forall k :: 0 <= k < i ==> s[k] == WORD - 1 && t[k] == 0
    requires t[i] as int == s[i] as int + 1 && s[i + 1..] == t[i + 1..]
    ensures Value(t) == Value(s) + 1
  {
    hide Value, Pow;
    FullValue(s[..i]);
    ValueZeros(t[..i]);
    ValueSplit(s, i + 1);
    ValueSplit(t, i + 1);
    ValuePrefix(s, i);
    ValuePrefix(t, i);
    assert t[i] * Pow(WORD, i) == s[i] * Pow(WORD, i) + Pow(WORD, i);
  }

  lemma {:induction false} FullValue(s: seq<uint32>)
    requires forall k :: 0 <= k < |s| ==> s[k] == WORD - 1
    ensures Value(s) == Pow(WORD, |s|) - 1
  {
    if s != [] {
      FullValue(s[..|s| - 1]);
    }
  }

  /** The highest word that differs decides. */
  lemma CompareAt(s: seq<uint32>, t: seq<uint32>, i: nat)
    requires |s| == |t| && i < |s| && s[i] < t[i] && s[i + 1..] == t[i + 1..]
    ensures Value(s) < Value(t)
  {
    hide Value, Pow;
    ValueSplit(s, i + 1);
    ValueSplit(t, i + 1);
    ValuePrefix(s, i);
    ValuePrefix(t, i);
    ValueBound(s[..i]);
    MulMonotone(s[i] as int + 1, t[i], Pow(WORD, i));
    Distributes(s[i], 1, Pow(WORD, i));
  }

  /** Words above the highest one that is set. */
  lemma ValueTop(s: seq<uint32>, i: nat)
    requires i < |s| && forall k :: i < k < |s| ==> s[k] == 0
    ensures s[i] * Pow(WORD, i) <= Value(s) < (s[i] as int + 1) * Pow(WORD, i)
  {
    hide Value, Pow;
    ValueSplit(s, i + 1);
    ValueZeros(s[i + 1..]);
    ValuePrefix(s, i);
    ValueBound(s[..i]);
    Distributes(s[i], 1, Pow(WORD, i));
  }

  // ----- shifting left -----

  /** What word `i - 1` shifts into word `i`. */
  function Spill(a: seq<uint32>, i: nat, s: nat): uint32
    requires i <= |a| && s < 32
  {
    if i == 0 || s == 0 then 0 else ShiftRight32(a[i - 1], 32 - s)
  }

  function ShiftedWord(a: seq<uint32>, i: nat, s: nat): nat
    requires i < |a| && s < 32
  {
    Or(Spill(a, i, s), ShiftLeft32(a[i], s))
  }

  lemma WordSplit(s: nat)
    requires s <= 32
    ensures Pow(2, s) * Pow(2, 32 - s) == WORD
  {
    PowAdd(2, s, 32 - s);
    PowWord();
  }

  /** A word times 2^s: what stays in it, a multiple of 2^s, and what leaves it. */
  lemma ShiftParts(x: uint32, s: nat)
    requires s < 32
    ensures ShiftLeft32(x, s) % Pow(2, s) == 0
    ensures s == 0 ==> ShiftLeft32(x, s) == x
    ensures x * Pow(2, s) == ShiftLeft32(x, s) + WORD * (x / Pow(2, 32 - s))
    ensures x / Pow(2, 32 - s) < Pow(2, s)
  {
    hide Pow;
    var p, q := Pow(2, s), Pow(2, 32 - s);
    WordSplit(s);
    var hi, lo := x / q, x % q;
    assert x == hi * q + lo;
    assert x * p == hi * (q * p) + lo * p;
    assert lo * p < q * p by { MulMonotone(lo + 1, q, p); }
    assert 0 <= lo * p;
    DivUnique(x * p, WORD, hi, lo * p);
    MulCancels(lo, p);
    DivBound(x, q, p);
    if s == 0 {
      assert p == 1 by { PowZero(); }
    }
  }

  lemma PowZero()
    ensures Pow(2, 0) == 1 && Pow(WORD, 0) == 1 && Pow(WORD, 1) == WORD
  {
  }

  lemma ShiftedWordSum(a: seq<uint32>, i: nat, s: nat)
    requires i < |a| && s < 32
    ensures ShiftedWord(a, i, s) == ShiftLeft32(a[i], s) + Spill(a, i, s) < WORD
    ensures a[i] * Pow(2, s) == ShiftLeft32(a[i], s) + WORD * Spill(a, i + 1, s)
  {
    hide Pow, ShiftLeft32, Or;
    ShiftParts(a[i], s);
    if i > 0 && s > 0 {
      ShiftParts(a[i - 1], s);
    }
    if s == 0 {
      PowZero();
      assert a[i] * Pow(2, s) == a[i];
    }
    SpillFits(a, i, s);
    OrDisjoint(ShiftLeft32(a[i], s), Spill(a, i, s), s);
    NextMultipleFits(ShiftLeft32(a[i], s), s, Spill(a, i, s));
  }

  lemma SpillFits(a: seq<uint32>, i: nat, s: nat)
    requires i <= |a| && s < 32
    ensures Spill(a, i, s) < Pow(2, s)
  {
    if i > 0 && s > 0 {
      ShiftParts(a[i - 1], s);
    }
  }

  lemma NextMultipleFits(x: uint32, s: nat, y: nat)
    requires s < 32 && x % Pow(2, s) == 0 && y < Pow(2, s)
    ensures x + y < WORD
  {
    hide Pow;
    var p := Pow(2, s);
    WordSplit(s);
    assert x == (x / p) * p;
    DivBound(x, p, Pow(2, 32 - s));
    MulMonotone(x / p + 1, Pow(2, 32 - s), p);
    assert (x / p + 1) * p == x + p;
  }

  /** Shifting by less than a word is multiplication with a carry. */
  lemma {:induction false} ShiftedValue(a: seq<uint32>, m: seq<uint32>, s: nat)
    requires |m| <= |a| && s < 32 && forall i :: 0 <= i < |m| ==> m[i] == ShiftedWord(a, i, s)
    ensures Value(m) + Spill(a, |m|, s) * Pow(WORD, |m|) == Value(a[..|m|]) * Pow(2, s)
  {
    if m != [] {
      var n := |m| - 1;
      ShiftedValue(a, m[..n], s);
      ValuePrefix(a, n);
      ShiftedWordSum(a, n, s);
      ShiftedStep(Value(m[..n]), Spill(a, n, s), Pow(WORD, n), Value(a[..n]), Pow(2, s), a[n], ShiftLeft32(a[n], s),
                  Spill(a, n + 1, s));
    }
  }

  lemma ShiftedStep(v: nat, spill: nat, p: nat, va: nat, t: nat, x: nat, w: nat, next: nat)
    requires v + spill * p == va * t && x * t == w + WORD * next
    ensures v + (w + spill) * p + next * (WORD * p) == (va + x * p) * t
  {
    assert (va + x * p) * t == va * t + (x * t) * p by {
      Associates(x, p, t);
      Associates(x, t, p);
    }
    assert (w + WORD * next) * p == w * p + next * (WORD * p) by {
      Associates(next, WORD, p);
    }
  }

  // ----- shifting right -----

  /** Word `i` of a number shifted right: its own high part, and the low part of the next word. */
  function DownWord(a: seq<uint32>, i: nat, s: nat): nat
    requires i < |a| && s < 32
  {
    if i + 1 < |a| && s != 0 then Or(ShiftRight32(a[i], s), ShiftLeft32(a[i + 1], 32 - s)) else ShiftRight32(a[i], s)
  }

  function LowPart(a: seq<uint32>, i: nat, s: nat): nat
    requires i <= |a|
  {
    if i < |a| then a[i] % Pow(2, s) else 0
  }

  lemma DownWordSum(a: seq<uint32>, i: nat, s: nat)
    requires i < |a| && s < 32
    ensures DownWord(a, i, s) < WORD
    ensures DownWord(a, i, s) * Pow(2, s) == a[i] - LowPart(a, i, s) + LowPart(a, i + 1, s) * WORD
  {
    hide Pow, Or, ShiftLeft32, ShiftRight32;
    DownOwn(a[i], s);
    if s == 0 {
      PowZero();
    } else if i + 1 < |a| {
      DownNext(a[i + 1], s);
      OrDisjoint(ShiftLeft32(a[i + 1], 32 - s), ShiftRight32(a[i], s), 32 - s);
      NextMultipleFits(ShiftLeft32(a[i + 1], 32 - s), 32 - s, ShiftRight32(a[i], s));
      assert (ShiftRight32(a[i], s) + ShiftLeft32(a[i + 1], 32 - s)) * Pow(2, s)
          == ShiftRight32(a[i], s) * Pow(2, s) + ShiftLeft32(a[i + 1], 32 - s) * Pow(2, s);
    }
  }

  lemma DownOwn(x: uint32, s: nat)
    requires s < 32
    ensures ShiftRight32(x, s) * Pow(2, s) == x - x % Pow(2, s) && ShiftRight32(x, s) < Pow(2, 32 - s)
  {
    hide Pow;
    WordSplit(s);
    DivBound(x, Pow(2, s), Pow(2, 32 - s));
  }

  lemma DownNext(x: uint32, s: nat)
    requires 0 < s < 32
    ensures ShiftLeft32(x, 32 - s) * Pow(2, s) == (x % Pow(2, s)) * WORD && ShiftLeft32(x, 32 - s) % Pow(2, 32 - s) == 0
  {
    hide Pow;
    WordSplit(s);
    ShiftParts(x, 32 - s);
    var p, q := Pow(2, s), Pow(2, 32 - s);
    assert x == (x / p) * p + x % p;
    assert x * q == (x / p) * (p * q) + (x % p) * q;
    assert ShiftLeft32(x, 32 - s) == (x % p) * q;
    Associates(x % p, q, p);
  }

  lemma {:induction false} DownValue(a: seq<uint32>, m: seq<uint32>, s: nat)
    requires |m| <= |a| && s < 32 && forall i :: 0 <= i < |m| ==> m[i] == DownWord(a, i, s)
    ensures Value(m) * Pow(2, s) + LowPart(a, 0, s) == Value(a[..|m|]) + LowPart(a, |m|, s) * Pow(WORD, |m|)
  {
    if m != [] {
      var n := |m| - 1;
      DownValue(a, m[..n], s);
      ValuePrefix(a, n);
      DownWordSum(a, n, s);
      DownStep(Value(m[..n]), Value(a[..n]), Pow(2, s), Pow(WORD, n), m[n], a[n], LowPart(a, n, s), LowPart(a, n + 1, s));
    }
  }

  lemma DownStep(v: int, va: int, t: int, p: int, w: int, x: int, low: int, next: int)
    requires w * t == x - low + next * WORD
    ensures (v + w * p) * t == v * t + x * p - low * p + next * (WORD * p)
  {
    assert (w * p) * t == (w * t) * p by {
      Associates(w, p, t);
      Associates(w, t, p);
    }
    assert (x - low + next * WORD) * p == x * p - low * p + next * (WORD * p) by {
      Associates(next, WORD, p);
    }
  }

  lemma PowBits(k: nat, s: nat)
    ensures Pow(2, 32 * k + s) == Pow(WORD, k) * Pow(2, s)
  {
    PowWord();
    PowOfPow(2, 32, k);
    PowAdd(2, 32 * k, s);
  }

  /** Shifting left by `k` words and `s` bits multiplies, and drops what passes the width. */
  lemma ShiftLeftValue(a: seq<uint32>, r: seq<uint32>, k: nat, s: nat)
    requires |r| == |a| && s < 32
    requires forall m :: 0 <= m < |r| ==> r[m] == if m < k then 0 else ShiftedWord(a, m - k, s)
    ensures Value(r) == Value(a) * Pow(2, 32 * k + s) % Pow(WORD, |a|)
  {
    hide Value, Pow, ShiftedWord, Spill;
    PowBits(k, s);
    var w := |a|;
    if k >= w {
      ValueZeros(r);
      PowAdd(WORD, w, k - w);
      AllBeyond(Value(a), Pow(WORD, w), Pow(WORD, k - w), Pow(2, s));
    } else {
      var m := r[k..];
      assert r == r[..k] + m;
      ValueShifted(m, k, r[..k]);
      ShiftedValue(a, m, s);
      ValueSplit(a, w - k);
      PowAdd(WORD, k, w - k);
      ValueBound(r);
      ShiftLeftAlgebra(Value(m), Spill(a, w - k, s), Pow(WORD, w - k), Value(a[..w - k]), Pow(2, s), Pow(WORD, k),
                       Value(a[w - k..]));
    }
  }

  lemma AllBeyond(v: nat, p: nat, q: nat, t: nat)
    requires p > 0
    ensures v * (p * q * t) % p == 0
  {
    assert v * (p * q * t) == (v * q * t) * p;
    MulCancels(v * q * t, p);
  }

  lemma ShiftLeftAlgebra(v: nat, spill: nat, q: nat, lo: nat, t: nat, p: nat, hi: nat)
    requires v + spill * q == lo * t && p * v < p * q
    ensures p * v == (lo + q * hi) * (p * t) % (p * q)
  {
    var x := (lo + q * hi) * (p * t);
    calc {
      x;
      (lo * t) * p + (hi * t) * (p * q);
      (v + spill * q) * p + (hi * t) * (p * q);
      p * v + spill * (p * q) + (hi * t) * (p * q);
      { Distributes(spill, hi * t, p * q); }
      p * v + (spill + hi * t) * (p * q);
    }
    DivUnique(x, p * q, spill + hi * t, p * v);
  }

  /** Shifting right by `k` words and `s` bits divides. */
  lemma ShiftRightValue(a: seq<uint32>, r: seq<uint32>, k: nat, s: nat)
    requires |r| == |a| && s < 32
    requires forall m :: 0 <= m < |r| ==> r[m] == if m + k >= |a| then 0 else DownWord(a, m + k, s)
    ensures Value(r) == Value(a) / Pow(2, 32 * k + s)
  {
    hide Value, Pow, DownWord, LowPart;
    PowBits(k, s);
    var w := |a|;
    if k >= w {
      ValueZeros(r);
      ValueBound(a);
      PowMonotone(WORD, w, k);
      MulAtLeast(Pow(WORD, k), Pow(2, s));
      DivUnique(Value(a), Pow(WORD, k) * Pow(2, s), 0, Value(a));
    } else {
      var high, m := a[k..], r[..w - k];
      forall i | 0 <= i < |m| ensures m[i] == DownWord(high, i, s) {
        SameDownWord(a, k, i, s);
      }
      DownValue(high, m, s);
      assert high[..w - k] == high;
      ValueSplit(r, w - k);
      ValueZeros(r[w - k..]);
      LowPartFits(high, s);
      DivUnique(Value(high), Pow(2, s), Value(m), LowPart(high, 0, s));
      ValueDivides(a, k);
      DivDiv(Value(a), Pow(WORD, k), Pow(2, s));
    }
  }

  lemma SameDownWord(a: seq<uint32>, k: nat, i: nat, s: nat)
    requires i + k < |a| && s < 32
    ensures DownWord(a[k..], i, s) == DownWord(a, i + k, s)
  {
  }

  lemma LowPartFits(a: seq<uint32>, s: nat)
    ensures 0 <= LowPart(a, 0, s) < Pow(2, s) && LowPart(a, |a|, s) == 0
  {
  }

  /** Or touches only the bits below those it is given. */
  lemma OrLowStep(a: nat, q: nat, c: nat)
    requires Or(a / 2 + q, c / 2) == Or(a / 2, c / 2) + q
    ensures Or(a + 2 * q, c) == Or(a, c) + 2 * q
  {
    hide Or;
    OrUnfold(a + 2 * q, c);
    OrUnfold(a, c);
    assert (a + 2 * q) / 2 == a / 2 + q;
  }

  lemma {:induction false} OrLow(a: nat, b: nat, c: nat, n: nat)
    requires a < Pow(2, n) && c < Pow(2, n)
    ensures Or(a + b * Pow(2, n), c) == Or(a, c) + b * Pow(2, n)
    decreases n
  {
    hide Pow, Or;
    PowUnfolds(2, n);
    if n == 0 {
      OrZero(b);
      OrZero(0);
    } else {
      var p := Pow(2, n - 1);
      TwiceProduct(b, p);
      OrLow(a / 2, b, c / 2, n - 1);
      OrLowStep(a, b * p, c);
    }
  }

  lemma TwiceProduct(b: nat, p: nat)
    ensures b * (2 * p) == 2 * (b * p) && b * p >= 0
  {
  }

  lemma OrUnfold(a: nat, b: nat)
    ensures Or(a, b) == (if a % 2 == 1 || b % 2 == 1 then 1 else 0) + 2 * Or(a / 2, b / 2)
  {
  }
}
