/** The compact form of a difficulty target: a byte length and a signed 23-bit mantissa. */
module Compact {
  import opened Powers
  import opened Limbs

  const SIGN: nat := 0x80_0000
  const SIZE_UNIT: nat := 0x100_0000

  /** Two to the power 256. */
  function Range(): nat { Pow(256, 32) }

  /** A word moved up by whole bytes. */
  function Raised(x: nat, bytes: nat): nat {
    NonNegative(x, Pow(256, bytes));
    x * Pow(256, bytes)
  }

  /** A word moved down by whole bytes. */
  function Lowered(x: nat, bytes: nat): nat {
    NonNegativeQuotient(x, Pow(256, bytes));
    x / Pow(256, bytes)
  }

  lemma NonNegative(x: nat, y: nat)
    ensures x * y >= 0
  {
  }

  lemma NonNegativeQuotient(x: nat, y: nat)
    requires y > 0
    ensures x / y >= 0
  {
  }

  datatype Decoded = Decoded(value: nat, negative: bool, overflow: bool)

  /** What decoding computes: the words shifted into place within 256 bits, and the two flags. */
  function SetCompact(nCompact: uint32): Decoded {
    var nSize := nCompact / SIZE_UNIT;
    var mantissa := nCompact % SIGN;
    var nWord := if nSize <= 3 then Lowered(mantissa, 3 - nSize) else mantissa;
    Decoded(
      if nSize <= 3 then nWord else Raised(nWord, nSize - 3) % Range(),
      nWord != 0 && BitOf(nCompact, 23),
      nWord != 0 && (nSize > 34 || (nWord > 0xff && nSize > 33) || (nWord > 0xffff && nSize > 32)))
  }

  /** The number that is encoded, without regard to width: the mantissa times 256 to the size less three. */
  function Magnitude(nCompact: uint32): nat {
    var nSize := nCompact / SIZE_UNIT;
    var mantissa := nCompact % SIGN;
    if nSize <= 3 then Lowered(mantissa, 3 - nSize) else Raised(mantissa, nSize - 3)
  }

  lemma {:induction false} MagnitudeCompared(word: nat, k: nat, j: nat, limit: nat)
    requires k + j == 32 && limit == Pow(256, j)
    ensures word * Pow(256, k) >= Range() <==> word >= limit
  {
    hide Pow;
    PowAdd(256, k, j);
    var p := Pow(256, k);
    if word >= limit {
      MulMonotone(limit, word, p);
    } else {
      MulMonotone(word + 1, limit, p);
      Distributes(word, 1, p);
    }
  }

  lemma SmallPowers()
    ensures Pow(256, 0) == 1 && Pow(256, 1) == 256 && Pow(256, 2) == 0x1_0000 && Pow(256, 3) == 0x100_0000
  {
    PowWord();
    PowOfPow(2, 8, 2);
    PowOfPow(2, 8, 3);
  }

  /** The overflow flag is raised exactly when the encoded magnitude does not fit 256 bits. */
  lemma OverflowExact(nCompact: uint32)
    ensures var d := SetCompact(nCompact);
            && (d.overflow <==> Magnitude(nCompact) >= Range())
            && d.value == Magnitude(nCompact) % Range()
            && (!d.overflow ==> d.value == Magnitude(nCompact))
  {
    hide Pow;
    var nSize, word := nCompact / SIZE_UNIT, nCompact % SIGN;
    SmallPowers();
    PowMonotone(256, 3, 32);
    if nSize <= 3 {
      QuotientFits(word, Pow(256, 3 - nSize));
      SmallModulo(Magnitude(nCompact), Range());
    } else {
      if nSize > 34 {
        PowMonotone(256, 32, nSize - 3);
        if word > 0 {
          MulMonotone(1, word, Pow(256, nSize - 3));
        }
      } else {
        MagnitudeCompared(word, nSize - 3, 35 - nSize, Pow(256, 35 - nSize));
        if nSize <= 32 {
          PowMonotone(256, 3, 35 - nSize);
        }
      }
      if Magnitude(nCompact) < Range() {
        SmallModulo(Magnitude(nCompact), Range());
      }
    }
  }

  // ----- encoding -----

  function ByteLength(x: nat): nat {
    if x == 0 then 0 else 1 + ByteLength(x / 256)
  }

  lemma {:induction false} ByteLengthBounds(x: nat)
    requires x > 0
    ensures ByteLength(x) >= 1 && Pow(256, ByteLength(x) - 1) <= x < Pow(256, ByteLength(x))
  {
    if x / 256 > 0 {
      ByteLengthBounds(x / 256);
    }
  }

  lemma {:induction false} ByteLengthUnique(x: nat, b: nat)
    requires b >= 1 && Pow(256, b - 1) <= x < Pow(256, b)
    ensures ByteLength(x) == b
    decreases b
  {
    if b > 1 {
      assert Pow(256, b - 1) == 256 * Pow(256, b - 2);
      ByteLengthUnique(x / 256, b - 1);
    }
  }

  /** The three leading bytes. */
  function Leading(x: nat): nat {
    var n := ByteLength(x);
    if n <= 3 then Raised(x, 3 - n) else Lowered(x, n - 3)
  }

  lemma LeadingBounds(x: nat)
    requires x > 0
    ensures 0x1_0000 <= Leading(x) < 0x100_0000
  {
    hide Pow, ByteLength;
    var n := ByteLength(x);
    ByteLengthBounds(x);
    SmallPowers();
    if n <= 3 {
      PowAdd(256, n - 1, 3 - n);
      PowAdd(256, n, 3 - n);
      MulMonotone(Pow(256, n - 1), x, Pow(256, 3 - n));
      MulMonotone(x + 1, Pow(256, n), Pow(256, 3 - n));
      Distributes(x, 1, Pow(256, 3 - n));
    } else {
      PowAdd(256, 2, n - 3);
      PowAdd(256, 3, n - 3);
      DivBound(x, Pow(256, n - 3), 0x1_0000);
      DivBound(x, Pow(256, n - 3), 0x100_0000);
    }
  }

  /** The mantissa and the size that go into the encoding: the sign bit stays clear. */
  function Mantissa(x: nat): nat { if Leading(x) >= SIGN then Leading(x) / 256 else Leading(x) }
  function Size(x: nat): nat { if Leading(x) >= SIGN then ByteLength(x) + 1 else ByteLength(x) }

  function GetCompact(x: nat, negative: bool): nat {
    Mantissa(x) + Size(x) * SIZE_UNIT + if negative && Mantissa(x) != 0 then SIGN else 0
  }

  /** The mantissa is the number, cut to its size. */
  lemma MantissaMeans(x: nat)
    requires 0 < x < Range()
    ensures 0 < Mantissa(x) < SIGN && 1 <= Size(x) <= 33
    ensures if Size(x) <= 3 then Mantissa(x) == x * Pow(256, 3 - Size(x)) else Mantissa(x) == x / Pow(256, Size(x) - 3)
  {
    hide Pow, ByteLength;
    var n := ByteLength(x);
    ByteLengthBounds(x);
    LeadingBounds(x);
    SmallPowers();
    if n > 32 {
      PowMonotone(256, 32, n - 1);
    }
    if Leading(x) >= SIGN {
      if n <= 2 {
        PowAdd(256, 2 - n, 1);
        Associates(x, Pow(256, 2 - n), 256);
        MulCancels(x * Pow(256, 2 - n), 256);
      } else {
        PowAdd(256, n - 3, 1);
        DivDiv(x, Pow(256, n - 3), 256);
      }
    }
  }

  /** The fields of an encoding can be read back. */
  lemma FieldsRead(m: nat, s: nat, sign: bool)
    requires m < SIGN && s < 256
    ensures var c := m + s * SIZE_UNIT + if sign then SIGN else 0;
            c < WORD && c / SIZE_UNIT == s && c % SIGN == m && (BitOf(c, 23) <==> sign)
  {
    hide Pow;
    PowWord();
    var c := m + s * SIZE_UNIT + if sign then SIGN else 0;
    DivUnique(c, SIZE_UNIT, s, m + if sign then SIGN else 0);
    DivUnique(c, SIGN, 2 * s + if sign then 1 else 0, m);
  }

  /** Encoding and decoding: nothing is flagged, the sign is kept, and the value is cut to a multiple of 256^(size-3). */
  lemma RoundTrip(x: nat, negative: bool)
    requires x < Range()
    ensures GetCompact(x, negative) < WORD
    ensures var d := SetCompact(GetCompact(x, negative));
            && !d.overflow && d.negative == (negative && x != 0)
            && d.value <= x
            && (if Size(x) <= 3 then d.value == x
                else d.value == Cut(x, Size(x) - 3) && x - d.value < Pow(256, Size(x) - 3))
  {
    hide Pow, Leading, ByteLength, BitOf;
    if x == 0 {
      ZeroCompact();
      FieldsRead(0, 0, false);
      OverflowExact(0);
    } else {
      MantissaMeans(x);
      var m, s := Mantissa(x), Size(x);
      FieldsRead(m, s, negative);
      var c := GetCompact(x, negative);
      OverflowExact(c);
      if s <= 3 {
        MulCancels(x, Pow(256, 3 - s));
      } else {
        CutBelow(x, Pow(256, s - 3));
      }
    }
  }

  lemma ZeroCompact()
    ensures GetCompact(0, false) == 0 && GetCompact(0, true) == 0 && Size(0) == 0
    ensures SetCompact(0).value == 0
  {
  }

  /** Decoding an encoding and encoding again changes nothing. */
  lemma Idempotent(x: nat, negative: bool)
    requires x < Range()
    ensures GetCompact(x, false) < WORD
    ensures GetCompact(SetCompact(GetCompact(x, false)).value, negative) == GetCompact(x, negative)
  {
    hide Pow, SetCompact, Leading, ByteLength, Cut;
    RoundTrip(x, false);
    if x > 0 && Size(x) > 3 {
      CutKeepsFields(x);
    }
  }

  /** A number cut to whole units of 256^k. */
  function Cut(x: nat, k: nat): nat { x / Pow(256, k) * Pow(256, k) }

  lemma CutKeepsFields(x: nat)
    requires 0 < x < Range() && Size(x) > 3
    ensures Mantissa(Cut(x, Size(x) - 3)) == Mantissa(x) && Size(Cut(x, Size(x) - 3)) == Size(x)
  {
    hide Pow, Leading, ByteLength, Cut;
    LeadingBounds(x);
    CutKeepsLength(x, Size(x) - 3);
    LeadingOfCut(x);
    if Leading(x) >= SIGN {
      TopByteKept(Leading(x));
    }
  }

  /** Rounding down to whole bytes below the top one keeps the length. */
  lemma CutKeepsLength(x: nat, k: nat)
    requires x > 0 && k < ByteLength(x)
    ensures ByteLength(Cut(x, k)) == ByteLength(x)
  {
    hide Pow, ByteLength;
    var n := ByteLength(x);
    var unit := Pow(256, k);
    ByteLengthBounds(x);
    PowAdd(256, n - 1 - k, k);
    DivBound(x, unit, Pow(256, n - 1 - k));
    CutBelow(x, unit);
    MulMonotone(Pow(256, n - 1 - k), x / unit, unit);
    ByteLengthUnique(Cut(x, k), n);
  }

  lemma CutBelow(x: nat, unit: nat)
    requires unit > 0
    ensures x / unit * unit == x - x % unit && 0 <= x % unit < unit
  {
  }

  lemma LeadingOfCut(x: nat)
    requires Size(x) > 3 && ByteLength(Cut(x, Size(x) - 3)) == ByteLength(x)
    ensures Leading(Cut(x, Size(x) - 3)) == if Leading(x) >= SIGN then Leading(x) / 256 * 256 else Leading(x)
  {
    hide Pow, ByteLength, Leading;
    var n := ByteLength(x);
    LeadingQuotient(x);
    LeadingQuotient(Cut(x, Size(x) - 3));
    if Leading(x) >= SIGN {
      CutNext(x, n - 3);
    } else {
      MulCancels(x / Pow(256, n - 3), Pow(256, n - 3));
    }
  }

  lemma LeadingQuotient(x: nat)
    requires ByteLength(x) >= 3
    ensures Leading(x) == x / Pow(256, ByteLength(x) - 3)
  {
    SmallPowers();
  }

  lemma CutNext(x: nat, k: nat)
    ensures Cut(x, k + 1) / Pow(256, k) == x / Pow(256, k) / 256 * 256
  {
    hide Pow;
    var unit := Pow(256, k);
    SmallPowers();
    PowAdd(256, k, 1);
    DivDiv(x, unit, 256);
    var q := x / (unit * 256);
    Associates(q, 256, unit);
    MulCancels(q * 256, unit);
  }

  lemma TopByteKept(m: nat)
    requires m >= SIGN
    ensures m / 256 * 256 >= SIGN && (m / 256 * 256) / 256 == m / 256
  {
  }

  // ----- the work a target stands for -----

  function WorkOf(target: nat): nat {
    QuotientFits(Range(), target + 1);
    Range() / (target + 1)
  }

  /** The expected number of hashes to meet a target. */
  function BlockProof(nBits: uint32): nat {
    var d := SetCompact(nBits);
    if d.negative || d.overflow || d.value == 0 then 0 else WorkOf(d.value)
  }

  /** An unflagged target is never the largest number, so one can be added to it. */
  lemma TargetBelowTop(nBits: uint32)
    requires !SetCompact(nBits).overflow
    ensures SetCompact(nBits).value + 1 < Range()
  {
    hide Pow;
    OverflowExact(nBits);
    SmallPowers();
    PowMonotone(256, 3, 32);
    var nSize, word := nBits / SIZE_UNIT, nBits % SIGN;
    if nSize <= 3 {
      QuotientFits(word, Pow(256, 3 - nSize));
    } else {
      PowAdd(256, nSize - 4, 1);
      PowAdd(256, 31, 1);
      MultiplesApart(word * Pow(256, nSize - 4), Pow(256, 31));
      Associates(word, Pow(256, nSize - 4), 256);
    }
  }

  lemma MultiplesApart(a: nat, b: nat)
    requires a * 256 < b * 256
    ensures a * 256 + 1 < b * 256
  {
  }

  /** The complement form used to stay within 256 bits is the quotient of 2^256. */
  lemma ProofByComplement(target: nat)
    requires target + 1 < Range()
    ensures (Range() - 1 - target) / (target + 1) + 1 == WorkOf(target)
  {
    hide Pow;
    DivAddMultiple(Range() - 1 - target, target + 1, 1);
  }

  /** Every valid target stands for some work, and a harder one for no less. */
  lemma ProofAntitone(easy: uint32, hard: uint32)
    requires var e, h := SetCompact(easy), SetCompact(hard);
      !e.negative && !e.overflow && !h.negative && !h.overflow && 0 < h.value <= e.value
    ensures 1 <= BlockProof(easy) <= BlockProof(hard) < Range()
  {
    hide SetCompact, Pow;
    var e, h := SetCompact(easy).value, SetCompact(hard).value;
    TargetBelowTop(easy);
    DivAntitone(Range(), h + 1, e + 1);
    DivBound(Range(), e + 1, 1);
    DivBound(Range(), h + 1, Range());
    MulMonotone(2, h + 1, Range());
  }
}
