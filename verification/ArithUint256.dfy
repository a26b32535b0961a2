/** The 256-bit integer: compact encoding and block proof, in word arithmetic. */
module ArithUint256 {
  import opened Powers
  import opened Limbs
  import opened ArithUint
  import opened Compact

  const WIDTH: nat := 8

  lemma RangeIsModulus()
    ensures Range() == Pow(WORD, WIDTH)
    ensures Range() > DWORD
  {
    hide Pow;
    PowWord();
    SmallPowers();
    PowOfPow(256, 4, 8);
    PowAdd(256, 3, 1);
    PowAdd(256, 4, 4);
    PowMonotone(256, 9, 32);
    PowAdd(256, 8, 1);
  }

  method SetCompact(n: BaseUint, nCompact: uint32) returns (negative: bool, overflow: bool)
    requires n.pn.Length == WIDTH
    modifies n.pn
    ensures Decoded(n.Num(), negative, overflow) == Compact.SetCompact(nCompact)
  {
    hide Value, Pow, BitOf;
    RangeIsModulus();
    PowWord();
    var nSize := nCompact / SIZE_UNIT;
    var nWord := nCompact % SIGN;
    if nSize <= 3 {
      ByteShift(3 - nSize);
      QuotientFits(nWord, Pow(256, 3 - nSize));
      nWord := nWord / Pow(2, 8 * (3 - nSize));
      n.Assign64(nWord);
    } else {
      n.Assign64(nWord);
      ByteShift(nSize - 3);
      n.ShiftLeft(8 * (nSize - 3));
    }
    negative := nWord != 0 && BitOf(nCompact, 23);
    overflow := nWord != 0 && (nSize > 34 || (nWord > 0xff && nSize > 33) || (nWord > 0xffff && nSize > 32));
  }

  method GetCompact(n: BaseUint, negative: bool) returns (nCompact: uint32)
    requires n.pn.Length == WIDTH
    ensures nCompact == Compact.GetCompact(n.Num(), negative)
  {
    hide Value, Pow, BitOf, Leading, ByteLength, Or;
    n.InRange();
    RangeIsModulus();
    var bits := n.Bits();
    BitsToBytes(n.Num(), bits);
    var nSize := (bits + 7) / 8;
    var m := LeadingBytes(n, nSize);
    LeadingTop(n.Num());
    if BitOf(m, 23) {
      m := m / 256;
      nSize := nSize + 1;
    }
    FieldsFit(n.Num());
    assert m < SIGN && nSize < 256;
    FieldsJoin(m, nSize);
    m := Or(m, nSize * SIZE_UNIT);
    if negative && m % SIGN != 0 {
      m := Or(m, SIGN);
    }
    nCompact := m;
  }

  /** The three leading bytes of a number, as a word. */
  method LeadingBytes(n: BaseUint, nSize: nat) returns (m: nat)
    requires n.pn.Length == WIDTH && nSize == ByteLength(n.Num())
    ensures m == Leading(n.Num())
  {
    hide Value, Pow, ByteLength;
    LeadingFits(n.Num());
    if nSize <= 3 {
      var low := n.GetLow64();
      ByteShift(3 - nSize);
      m := low * Pow(2, 8 * (3 - nSize)) % DWORD % WORD;
    } else {
      var bn := new BaseUint.Copy(n);
      ByteShift(nSize - 3);
      bn.ShiftRight(8 * (nSize - 3));
      m := bn.GetLow64();
      m := m % WORD;
    }
  }

  /** The work of a block with these difficulty bits. */
  method GetBlockProof(nBits: uint32) returns (proof: BaseUint)
    ensures proof.pn.Length == WIDTH && proof.Num() == BlockProof(nBits)
  {
    hide Value, Pow, Compact.SetCompact, WorkOf;
    RangeIsModulus();
    var bnTarget := new BaseUint(WIDTH);
    var negative, overflow := SetCompact(bnTarget, nBits);
    var zero := bnTarget.EqualTo(0);
    proof := new BaseUint(WIDTH);
    if negative || overflow || zero {
      return;
    }
    TargetBelowTop(nBits);
    ghost var target := bnTarget.Num();
    proof := bnTarget.Complement();
    var one := new BaseUint(WIDTH);
    one.Assign64(1);
    bnTarget.Add(one);
    SmallModulo(target + 1, Range());
    var ok := proof.Divide(bnTarget);
    proof.Add(one);
    ProofByComplement(target);
    ProofFits(target);
  }

  lemma ByteShift(k: nat)
    ensures Pow(2, 8 * k) == Pow(256, k)
  {
    PowWord();
    PowOfPow(2, 8, k);
  }

  lemma BitsToBytes(x: nat, bits: nat)
    requires if bits == 0 then x == 0 else Pow(2, bits - 1) <= x < Pow(2, bits)
    ensures ByteLength(x) == (bits + 7) / 8
  {
    hide Pow;
    if bits > 0 {
      var b := (bits + 7) / 8;
      ByteShift(b);
      ByteShift(b - 1);
      PowMonotone(2, bits, 8 * b);
      PowMonotone(2, 8 * (b - 1), bits - 1);
      ByteLengthUnique(x, b);
    }
  }

  lemma LeadingTop(x: nat)
    ensures BitOf(Leading(x), 23) <==> Leading(x) >= SIGN
  {
    hide Pow, BitOf;
    PowWord();
    LeadingSmall(x);
    TopBit(Leading(x), 23);
  }

  lemma LeadingSmall(x: nat)
    ensures Leading(x) < 0x100_0000
  {
    if x > 0 {
      LeadingBounds(x);
    }
  }

  /** The leading bytes are not cut by the machine words they pass through. */
  lemma LeadingFits(x: nat)
    ensures ByteLength(x) <= 3 ==> x % DWORD == x && x * Pow(256, 3 - ByteLength(x)) % DWORD % WORD == Leading(x)
    ensures ByteLength(x) > 3 ==> x / Pow(256, ByteLength(x) - 3) % DWORD % WORD == Leading(x)
  {
    hide Pow, ByteLength;
    LeadingSmall(x);
    SmallModulo(Leading(x), DWORD);
    SmallModulo(Leading(x), WORD);
    if ByteLength(x) <= 3 {
      MulAtLeast(x, Pow(256, 3 - ByteLength(x)));
      SmallModulo(x, DWORD);
    }
  }

  lemma FieldsFit(x: nat)
    requires x < Range()
    ensures Mantissa(x) < SIGN && Size(x) < 256
  {
    if x > 0 {
      MantissaMeans(x);
    } else {
      ZeroCompact();
    }
  }

  lemma FieldsJoin(m: nat, s: nat)
    requires m < SIGN && s < 256
    ensures Or(m, s * SIZE_UNIT) == m + s * SIZE_UNIT && (m + s * SIZE_UNIT) % SIGN == m
    ensures Or(m + s * SIZE_UNIT, SIGN) == m + s * SIZE_UNIT + SIGN < WORD
    ensures m + s * SIZE_UNIT < WORD
  {
    hide Pow, Or;
    PowWord();
    MulCancels(s, SIZE_UNIT);
    OrDisjoint(s * SIZE_UNIT, m, 24);
    FieldsRead(m, s, false);
    OrLow(m, s, SIGN, 24);
    OrDisjoint(SIGN, m, 23);
  }

  lemma ProofFits(target: nat)
    requires 0 < target && target + 1 < Range()
    ensures WorkOf(target) % Range() == WorkOf(target)
  {
    hide Pow;
    DivBound(Range(), target + 1, Range());
    MulMonotone(2, target + 1, Range());
    SmallModulo(Range() / (target + 1), Range());
  }
}
