/** Fixed-width unsigned integers: 32-bit words in an array, updated in place. */
module ArithUint {
  import opened Powers
  import opened Limbs

  const DWORD: nat := 0x1_0000_0000_0000_0000

  predicate AllZero(s: seq<uint32>) {
    forall k :: 0 <= k < |s| ==> s[k] == 0
  }

  lemma ZeroProduct(s: seq<uint32>, i: nat, k: nat, x: uint32)
    requires i < |s| && k < |s|
    ensures AllZero(s) ==> s[k] as int + x * s[i] == 0 && AllZero(s[k := 0])
  {
  }

  lemma AddModulo(v: nat, carry: nat, p: nat, t: nat)
    requires v < p && v + carry * p == t
    ensures t % p == v
  {
    DivUnique(t, p, carry, v);
  }

  class BaseUint {
    const pn: array<uint32>

    /** The number held. */
    ghost function Num(): nat
      reads pn
    {
      Value(pn[..])
    }

    /** Two to the width in bits. */
    ghost function Modulus(): nat { Pow(WORD, pn.Length) }

    lemma InRange()
      ensures Num() < Modulus()
    {
      ValueBound(pn[..]);
    }

    constructor (width: nat)
      ensures pn.Length == width && fresh(pn) && Num() == 0
    {
      pn := new uint32[width](_ => 0);
      new;
      ValueZeros(pn[..]);
    }

    constructor Copy(b: BaseUint)
      ensures pn.Length == b.pn.Length && fresh(pn) && pn[..] == b.pn[..]
    {
      var width := b.pn.Length;
      var p := new uint32[width](i requires 0 <= i < b.pn.Length reads b.pn => b.pn[i]);
      pn := p;
    }

    method Clear()
      modifies pn
      ensures Num() == 0 && forall i :: 0 <= i < pn.Length ==> pn[i] == 0
    {
      for i := 0 to pn.Length
        invariant forall k :: 0 <= k < i ==> pn[k] == 0
      {
        pn[i] := 0;
      }
      ValueZeros(pn[..]);
    }

    method Assign64(b: nat)
      requires pn.Length >= 2 && b < DWORD
      modifies pn
      ensures Num() == b
    {
      Clear();
      pn[0], pn[1] := b % WORD, b / WORD;
      Low64Value(pn[..]);
      ValueZeros(pn[2..]);
    }

    method GetLow64() returns (r: nat)
      requires pn.Length >= 2
      ensures r == Num() % DWORD
    {
      r := Or(pn[0], pn[1] * WORD);
      PowWord();
      MulCancels(pn[1], WORD);
      OrDisjoint(pn[1] * WORD, pn[0], 32);
      Low64Value(pn[..]);
      DivUniqueBy(Num(), DWORD, Value(pn[2..]), r);
    }

    // ----- addition and subtraction -----

    method Add(b: BaseUint)
      requires b.pn.Length == pn.Length
      modifies pn
      ensures Num() == (old(Num()) + old(b.Num())) % Modulus()
    {
      hide Value, Pow;
      ghost var x, y := pn[..], b.pn[..];
      var carry: nat := 0;
      ValueNone(x, y);
      ValueNone(x, pn[..]);
      for i := 0 to pn.Length
        invariant carry <= 1
        invariant pn[i..] == x[i..] && b.pn[i..] == y[i..]
        invariant Value(pn[..][..i]) + carry * Pow(WORD, i) == Value(x[..i]) + Value(y[..i])
      {
        TailHeads(pn[..], x, i);
        TailHeads(b.pn[..], y, i);
        var n := carry + pn[i] + b.pn[i];
        assert n < DWORD;
        ghost var was, c := pn[..], carry;
        pn[i] := n % WORD;
        carry := n / WORD;
        CarryRow(was, pn[..], i, c, x[i] as int + y[i] as int, Value(x[..i]) + Value(y[..i]));
        AddPrefixes(x, y, i);
      }
      WholeSums(pn[..], x, y);
      InRange();
      AddModulo(Num(), carry, Modulus(), Value(x) + Value(y));
    }

    /** The two's complement. */
    method Negated() returns (r: BaseUint)
      requires pn.Length > 0
      ensures fresh(r) && fresh(r.pn) && r.pn.Length == pn.Length
      ensures r.Num() == (Modulus() - Num()) % Modulus()
    {
      r := Complement();
      ComplementValue(pn[..], r.pn[..]);
      r.Increment();
    }

    method Complement() returns (r: BaseUint)
      ensures fresh(r) && fresh(r.pn) && r.pn.Length == pn.Length
      ensures forall i :: 0 <= i < pn.Length ==> r.pn[i] == WORD - 1 - pn[i]
      ensures r.Num() == Modulus() - 1 - Num()
    {
      r := new BaseUint(pn.Length);
      for i := 0 to pn.Length
        invariant forall k :: 0 <= k < i ==> r.pn[k] == WORD - 1 - pn[k]
      {
        r.pn[i] := WORD - 1 - pn[i];
      }
      ComplementValue(pn[..], r.pn[..]);
    }

    method Increment()
      requires pn.Length > 0
      modifies pn
      ensures Num() == (old(Num()) + 1) % Modulus()
    {
      hide Value, Pow;
      ghost var x := pn[..];
      var i := 0;
      pn[0] := (pn[0] + 1) % WORD;
      while pn[i] == 0 && i < pn.Length - 1
        invariant i < pn.Length
        invariant forall k :: 0 <= k < i ==> x[k] == WORD - 1 && pn[k] == 0
        invariant pn[i] == (x[i] as int + 1) % WORD && pn[i + 1..] == x[i + 1..]
        decreases pn.Length - i
      {
        i := i + 1;
        pn[i] := (pn[i] + 1) % WORD;
      }
      InRange();
      if pn[i] != 0 {
        IncrementValue(x, pn[..], i);
        SmallModulo(Num(), Modulus());
      } else {
        FullValue(x);
        ValueZeros(pn[..]);
        MulCancels(1, Modulus());
      }
    }

    method Decrement()
      requires pn.Length > 0
      modifies pn
      ensures Num() == (old(Num()) - 1) % Modulus()
    {
      hide Value, Pow;
      ghost var x := pn[..];
      var i := 0;
      pn[0] := (pn[0] as int - 1) % WORD;
      while pn[i] == WORD - 1 && i < pn.Length - 1
        invariant i < pn.Length
        invariant forall k :: 0 <= k < i ==> x[k] == 0 && pn[k] == WORD - 1
        invariant pn[i] == (x[i] as int - 1) % WORD && pn[i + 1..] == x[i + 1..]
        decreases pn.Length - i
      {
        i := i + 1;
        pn[i] := (pn[i] as int - 1) % WORD;
      }
      InRange();
      if pn[i] != WORD - 1 {
        IncrementValue(pn[..], x, i);
        SmallModulo(Num(), Modulus());
      } else {
        FullValue(pn[..]);
        ValueZeros(x);
        DivUnique(-1, Modulus(), -1, Modulus() - 1);
      }
    }

    method Subtract(b: BaseUint)
      requires b.pn.Length == pn.Length > 0
      modifies pn
      ensures Num() == (old(Num()) - old(b.Num())) % Modulus()
    {
      hide Value, Pow;
      b.InRange();
      var negated := b.Negated();
      Add(negated);
      SubtractModulo(old(Num()), old(b.Num()), Modulus());
    }

    // ----- comparison -----

    method CompareTo(b: BaseUint) returns (c: int)
      requires b.pn.Length == pn.Length
      ensures c == if Num() < b.Num() then -1 else if Num() > b.Num() then 1 else 0
    {
      hide Value, Pow;
      for i := pn.Length downto 0
        invariant pn[i..] == b.pn[i..]
      {
        if pn[i] < b.pn[i] {
          CompareAt(pn[..], b.pn[..], i);
          return -1;
        }
        if pn[i] > b.pn[i] {
          CompareAt(b.pn[..], pn[..], i);
          return 1;
        }
      }
      assert pn[..] == b.pn[..];
      return 0;
    }

    method EqualTo(b: nat) returns (eq: bool)
      requires pn.Length >= 2 && b < DWORD
      ensures eq == (Num() == b)
    {
      hide Value, Pow;
      ghost var s := pn[..];
      Low64Value(s);
      for i := pn.Length downto 2
        invariant forall k :: i <= k < pn.Length ==> pn[k] == 0
      {
        if pn[i] != 0 {
          NonzeroTail(s, i);
          return false;
        }
      }
      ValueZeros(s[2..]);
      DivUnique(s[0] + s[1] * WORD, WORD, s[1], s[0]);
      if pn[1] != b / WORD {
        return false;
      }
      return pn[0] == b % WORD;
    }

    /** The position of the highest bit set, plus one. */
    method Bits() returns (n: nat)
      ensures n <= 32 * pn.Length
      ensures if n == 0 then Num() == 0 else Pow(2, n - 1) <= Num() < Pow(2, n)
    {
      hide Value, Pow;
      for pos := pn.Length downto 0
        invariant forall k :: pos <= k < pn.Length ==> pn[k] == 0
      {
        if pn[pos] != 0 {
          PowWord();
          var bits := 31;
          while bits > 0
            invariant bits >= 0 && pn[pos] < Pow(2, bits + 1)
          {
            TopBit(pn[pos], bits);
            if BitOf(pn[pos], bits) {
              BitsOfValue(pn[..], pos, bits);
              return 32 * pos + bits + 1;
            }
            bits := bits - 1;
          }
          PowOne();
          BitsOfValue(pn[..], pos, 0);
          return 32 * pos + 1;
        }
      }
      ValueZeros(pn[..]);
      return 0;
    }

    // ----- multiplication -----

    method MultiplyWord(b32: uint32)
      modifies pn
      ensures Num() == (old(Num()) * b32) % Modulus()
    {
      hide Value, Pow;
      ghost var x := pn[..];
      var carry: nat := 0;
      ValueNone(x, pn[..]);
      for i := 0 to pn.Length
        invariant carry < WORD
        invariant pn[i..] == x[i..]
        invariant Value(pn[..][..i]) + carry * Pow(WORD, i) == Value(x[..i]) * b32
      {
        TailHeads(pn[..], x, i);
        WordProduct(b32, pn[i]);
        var n := carry + b32 * pn[i];
        assert n < DWORD;
        ghost var was, c := pn[..], carry;
        pn[i] := n % WORD;
        carry := n / WORD;
        CarryRow(was, pn[..], i, c, b32 * x[i], Value(x[..i]) * b32);
        MultiplyPrefix(x, i, b32);
      }
      WholeSums(pn[..], x, x);
      InRange();
      AddModulo(Num(), carry, Modulus(), Value(x) * b32);
    }

    /**
     Schoolbook multiplication. This object is cleared first, so with itself as the operand every
     row adds zero: the product is then right exactly if it is zero anyway.
     */
    method Multiply(b: BaseUint)
      requires b.pn.Length == pn.Length
      modifies pn
      ensures Num() == if b.pn == pn then 0 else (old(Num()) * old(b.Num())) % Modulus()
      ensures Num() == (old(Num()) * old(b.Num())) % Modulus() <==>
              b.pn != pn || (old(Num()) * old(Num())) % Modulus() == 0
    {
      hide Value, Pow;
      var a := new BaseUint.Copy(this);
      Clear();
      ghost var over := 0;
      ValueNone(a.pn[..], a.pn[..]);
      for j := 0 to pn.Length
        invariant a.pn[..] == old(pn[..]) && (b.pn != pn ==> b.pn[..] == old(b.pn[..]))
        invariant b.pn == pn ==> AllZero(pn[..])
        invariant over >= 0 && (b.pn != pn ==> Num() + over * Modulus() == Value(a.pn[..][..j]) * b.Num())
      {
        ghost var row := Num();
        ghost var carry := MultiplyRow(a.pn[j], b, j);
        if b.pn != pn {
          over := over + RowOverflow(a.pn[..], b.pn[..], j, carry);
          MultiplyRows(a.pn[..], b.pn[..], j, row, Num(), carry, over - RowOverflow(a.pn[..], b.pn[..], j, carry));
        }
      }
      WholeSums(a.pn[..], pn[..], pn[..]);
      InRange();
      if b.pn == pn {
        ValueZeros(pn[..]);
      } else {
        AddModulo(Num(), over, Modulus(), Value(a.pn[..]) * b.Num());
      }
    }

    /** Adds `x` times `b`, shifted by `j` words; returns what runs off the top. */
    method MultiplyRow(x: uint32, b: BaseUint, j: nat) returns (ghost overflow: nat)
      requires b.pn.Length == pn.Length && j < pn.Length
      modifies pn
      ensures b.pn != pn ==>
                Num() + overflow * Modulus() == old(Num()) + x * Pow(WORD, j) * Value(b.pn[..][..pn.Length - j])
      ensures b.pn == pn && AllZero(old(pn[..])) ==> AllZero(pn[..])
    {
      hide Value, Pow, AllZero;
      ghost var was := pn[..];
      var carry: nat := 0;
      ValueNone(b.pn[..], b.pn[..]);
      var i := 0;
      while i + j < pn.Length
        invariant i + j <= pn.Length && carry < WORD
        invariant pn[i + j..] == was[i + j..]
        invariant b.pn != pn ==> Value(pn[..][..i + j]) + carry * Pow(WORD, i + j)
                                 == Value(was[..i + j]) + x * Pow(WORD, j) * Value(b.pn[..][..i])
        invariant b.pn == pn && AllZero(was) ==> AllZero(pn[..]) && carry == 0
      {
        TailHeads(pn[..], was, i + j);
        WordProduct(x, b.pn[i]);
        var n := carry + pn[i + j] + x * b.pn[i];
        assert n < DWORD;
        ghost var prior, c := pn[..], carry;
        ZeroProduct(prior, i, i + j, x);
        pn[i + j] := n % WORD;
        carry := n / WORD;
        if b.pn != pn {
          CarryRow(prior, pn[..], i + j, c, was[i + j] as int + x * b.pn[i],
                   Value(was[..i + j]) + x * Pow(WORD, j) * Value(b.pn[..][..i]));
          RowPrefix(was, b.pn[..], i, j, x);
        }
        i := i + 1;
      }
      WholeSums(pn[..], was, was);
      overflow := carry;
    }

    // ----- shifts -----

    method ShiftLeft(shift: nat)
      modifies pn
      ensures Num() == old(Num()) * Pow(2, shift) % Modulus()
    {
      hide Value, Pow, Or, Spill, ShiftLeft32, ShiftRight32;
      var a := new BaseUint.Copy(this);
      Clear();
      var k, s := shift / 32, shift % 32;
      ghost var x := a.pn[..];
      NoSpill(x, s);
      for i := 0 to pn.Length
        invariant a.pn[..] == x == old(pn[..])
        invariant forall m :: 0 <= m < pn.Length ==> pn[m] == PartlyShifted(x, m, k, s, i)
      {
        SpillNext(x, i, s);
        if i + k + 1 < pn.Length && s != 0 {
          OrZero(ShiftRight32(a.pn[i], 32 - s));
          pn[i + k + 1] := Or(pn[i + k + 1], ShiftRight32(a.pn[i], 32 - s));
        }
        if i + k < pn.Length {
          ShiftedWordSum(x, i, s);
          pn[i + k] := Or(pn[i + k], ShiftLeft32(a.pn[i], s));
        }
      }
      ShiftLeftValue(x, pn[..], k, s);
    }

    method ShiftRight(shift: nat)
      modifies pn
      ensures Num() == old(Num()) / Pow(2, shift)
    {
      hide Value, Pow, Or, ShiftLeft32, ShiftRight32, DownWord;
      var a := new BaseUint.Copy(this);
      Clear();
      var k, s := shift / 32, shift % 32;
      ghost var x := a.pn[..];
      for i := 0 to pn.Length
        invariant a.pn[..] == x == old(pn[..])
        invariant forall m :: 0 <= m < pn.Length ==> pn[m] == PartlyLowered(x, m, k, s, i)
      {
        DownWordParts(x, i, s);
        if i - k - 1 >= 0 && s != 0 {
          pn[i - k - 1] := Or(pn[i - k - 1], ShiftLeft32(a.pn[i], 32 - s));
        }
        if i - k >= 0 {
          OrZero(ShiftRight32(a.pn[i], s));
          pn[i - k] := Or(pn[i - k], ShiftRight32(a.pn[i], s));
        }
      }
      DownWordParts(x, pn.Length, s);
      ShiftRightValue(x, pn[..], k, s);
    }

    // ----- division -----

    /** Sets a bit that is clear, like all below it. */
    method SetBit(shift: nat)
      requires shift < 32 * pn.Length && Num() % Pow(2, shift + 1) == 0
      modifies pn
      ensures Num() == old(Num()) + Pow(2, shift)
    {
      hide Value, Pow, Or;
      SetBitFits(pn[..], shift);
      var bit := Or(pn[shift / 32], Pow(2, shift % 32));
      pn[shift / 32] := bit;
      SetBitValue(old(pn[..]), pn[..], shift);
    }

    /** One bit of the quotient. */
    method QuotientBit(num: BaseUint, div: BaseUint, shift: nat, ghost d: nat, ghost n: nat)
      requires num.pn.Length == div.pn.Length == pn.Length > 0 && shift < 32 * pn.Length
      requires num.pn != div.pn && num.pn != pn && div.pn != pn
      requires Num() * d + num.Num() == n && Num() % Pow(2, shift + 1) == 0
      requires num.Num() < d * Pow(2, shift + 1) && div.Num() == d * Pow(2, shift)
      modifies pn, num.pn
      ensures Num() * d + num.Num() == n && Num() % Pow(2, shift) == 0 && num.Num() < d * Pow(2, shift)
    {
      hide Value, Pow;
      DivideStep(Num(), num.Num(), d, shift, n);
      var c := num.CompareTo(div);
      if c >= 0 {
        num.InRange();
        num.Subtract(div);
        SmallModulo(old(num.Num()) - div.Num(), num.Modulus());
        SetBit(shift);
      }
    }

    /** Division by shifting and subtracting; false is the division-by-zero error. */
    method Divide(b: BaseUint) returns (ok: bool)
      requires b.pn.Length == pn.Length > 0
      modifies pn
      ensures ok <==> old(b.Num()) != 0
      ensures Num() == if ok then old(Num()) / old(b.Num()) else 0
    {
      hide Value, Pow;
      var div := new BaseUint.Copy(b);
      var num := new BaseUint.Copy(this);
      ghost var n, d := num.Num(), div.Num();
      Clear();
      var numBits := num.Bits();
      var divBits := div.Bits();
      if divBits == 0 {
        return false;
      }
      if divBits > numBits {
        ShorterDividend(n, d, numBits, divBits);
        return true;
      }
      var shift: int := numBits - divBits;
      AlignedShift(n, d, numBits, divBits, pn.Length);
      div.ShiftLeft(shift);
      MulCancels(0, Pow(2, shift + 1));
      while shift >= 0
        invariant -1 <= shift < 32 * pn.Length
        invariant fresh(num.pn) && fresh(div.pn) && num.pn != div.pn && num.pn.Length == div.pn.Length == pn.Length
        invariant num.pn != pn && div.pn != pn
        invariant Num() * d + num.Num() == n && Num() % Pow(2, shift + 1) == 0
        invariant num.Num() < d * Pow(2, shift + 1)
        invariant shift >= 0 ==> div.Num() == d * Pow(2, shift)
      {
        QuotientBit(num, div, shift, d, n);
        HalveShift(d, shift);
        div.ShiftRight(1);
        shift := shift - 1;
      }
      PowOne();
      DivUnique(n, d, Num(), num.Num());
      return true;
    }
  }

  lemma Low64Value(s: seq<uint32>)
    requires |s| >= 2
    ensures Value(s) == s[0] + s[1] * WORD + DWORD * Value(s[2..])
  {
    ValueLow(s);
    ValueLow(s[1..]);
    assert s[1..][1..] == s[2..];
  }

  lemma ValueNone(s: seq<uint32>, t: seq<uint32>)
    ensures Value(s[..0]) == 0 && Value(t[..0]) == 0
  {
  }

  lemma TailHeads(s: seq<uint32>, t: seq<uint32>, i: nat)
    requires i < |s| == |t| && s[i..] == t[i..]
    ensures s[i] == t[i] && s[i + 1..] == t[i + 1..]
  {
    assert s[i..][0] == t[i..][0] && s[i..][1..] == s[i + 1..] && t[i..][1..] == t[i + 1..];
  }

  lemma AddPrefixes(x: seq<uint32>, y: seq<uint32>, i: nat)
    requires i < |x| == |y|
    ensures Value(x[..i + 1]) + Value(y[..i + 1])
         == Value(x[..i]) + Value(y[..i]) + (x[i] as int + y[i] as int) * Pow(WORD, i)
  {
    hide Value, Pow;
    ValuePrefix(x, i);
    ValuePrefix(y, i);
    Distributes(x[i], y[i], Pow(WORD, i));
  }

  lemma WholeSums(s: seq<uint32>, x: seq<uint32>, y: seq<uint32>)
    requires |s| == |x| == |y|
    ensures s[..|s|] == s && x[..|s|] == x && y[..|s|] == y
  {
  }

  lemma SubtractModulo(a: nat, b: nat, m: nat)
    requires b < m
    ensures (a + (m - b) % m) % m == (a - b) % m
  {
    if b == 0 {
      MulCancels(1, m);
    } else {
      SmallModulo(m - b, m);
      DivAddMultiple(a - b, m, 1);
    }
  }

  lemma NonzeroTail(s: seq<uint32>, i: nat)
    requires 2 <= i < |s| && s[i] != 0
    ensures Value(s) >= DWORD
  {
    hide Value, Pow;
    Low64Value(s);
    if Value(s[2..]) == 0 {
      AllZeros(s[2..], i - 2);
      assert false;
    }
  }

  lemma {:induction false} AllZeros(s: seq<uint32>, i: nat)
    requires Value(s) == 0 && i < |s|
    ensures s[i] == 0
  {
    hide Value, Pow;
    ValueLow(s);
    if i > 0 {
      AllZeros(s[1..], i - 1);
    }
  }

  lemma PowOne()
    ensures Pow(2, 0) == 1 && Pow(2, 1) == 2
  {
  }

  lemma BitsOfValue(s: seq<uint32>, pos: nat, bits: nat)
    requires pos < |s| && forall k :: pos < k < |s| ==> s[k] == 0
    requires Pow(2, bits) <= s[pos] < Pow(2, bits + 1)
    ensures Pow(2, 32 * pos + bits) <= Value(s) < Pow(2, 32 * pos + bits + 1)
  {
    hide Value, Pow;
    ValueTop(s, pos);
    PowWord();
    PowOfPow(2, 32, pos);
    PowAdd(2, 32 * pos, bits);
    PowAdd(2, 32 * pos, bits + 1);
    MulMonotone(Pow(2, bits), s[pos], Pow(WORD, pos));
    MulMonotone(s[pos] as int + 1, Pow(2, bits + 1), Pow(WORD, pos));
  }

  lemma WordProduct(x: nat, y: nat)
    requires x <= 0xFFFF_FFFF && y <= 0xFFFF_FFFF
    ensures 0 <= x * y <= 0xFFFF_FFFF * 0xFFFF_FFFF
  {
    MulMonotone(x, 0xFFFF_FFFF, y);
  }

  lemma MultiplyPrefix(x: seq<uint32>, i: nat, b: uint32)
    requires i < |x|
    ensures Value(x[..i + 1]) * b == Value(x[..i]) * b + (b * x[i]) * Pow(WORD, i)
  {
    hide Value, Pow;
    ValuePrefix(x, i);
    Distributes(Value(x[..i]), x[i] * Pow(WORD, i), b);
    Associates(b, x[i], Pow(WORD, i));
  }

  lemma RowPrefix(was: seq<uint32>, b: seq<uint32>, i: nat, j: nat, x: uint32)
    requires i + j < |was| == |b|
    ensures Value(was[..i + j + 1]) + x * Pow(WORD, j) * Value(b[..i + 1])
         == Value(was[..i + j]) + x * Pow(WORD, j) * Value(b[..i]) + (was[i + j] as int + x * b[i]) * Pow(WORD, i + j)
  {
    hide Value, Pow;
    ValuePrefix(was, i + j);
    ValuePrefix(b, i);
    PowAdd(WORD, j, i);
    RowAlgebra(x, Pow(WORD, j), Value(b[..i]), b[i], Pow(WORD, i), was[i + j]);
  }

  lemma RowAlgebra(x: int, p: int, v: int, y: int, q: int, w: int)
    ensures x * p * (v + y * q) == x * p * v + (x * y) * (p * q)
    ensures (w + x * y) * (p * q) == w * (p * q) + (x * y) * (p * q)
  {
    assert x * p * (y * q) == (x * y) * (p * q);
  }

  /** How much of row `j` of a product lies beyond the width. */
  ghost function RowOverflow(a: seq<uint32>, b: seq<uint32>, j: nat, carry: nat): nat
    requires j < |a| == |b|
  {
    carry + a[j] * Value(b[|b| - j..])
  }

  lemma MultiplyRows(a: seq<uint32>, b: seq<uint32>, j: nat, row: nat, next: nat, carry: nat, over: nat)
    requires j < |a| == |b|
    requires row + over * Pow(WORD, |a|) == Value(a[..j]) * Value(b)
    requires next + carry * Pow(WORD, |a|) == row + a[j] * Pow(WORD, j) * Value(b[..|b| - j])
    ensures next + (over + RowOverflow(a, b, j, carry)) * Pow(WORD, |a|) == Value(a[..j + 1]) * Value(b)
  {
    hide Value, Pow;
    ValuePrefix(a, j);
    ValueSplit(b, |b| - j);
    PowAdd(WORD, j, |b| - j);
    RowsAlgebra(a[j], Pow(WORD, j), Pow(WORD, |b| - j), Value(b[..|b| - j]), Value(b[|b| - j..]), Value(a[..j]));
    Distributes(over + carry, a[j] * Value(b[|b| - j..]), Pow(WORD, |a|));
    Distributes(over, carry, Pow(WORD, |a|));
  }

  lemma RowsAlgebra(x: int, p: int, q: int, lo: int, hi: int, v: int)
    ensures (v + x * p) * (lo + q * hi) == v * (lo + q * hi) + x * p * lo + (x * hi) * (p * q)
  {
    assert x * p * (q * hi) == (x * hi) * (p * q);
  }

  /** Word `m` of a left shift, when the first `i` words have been spread. */
  function PartlyShifted(a: seq<uint32>, m: nat, k: nat, s: nat, i: nat): nat
    requires m < |a| && i <= |a| && s < 32
  {
    if m < k || m > i + k then 0
    else if m == i + k then Spill(a, i, s)
    else ShiftedWord(a, m - k, s)
  }

  lemma NoSpill(a: seq<uint32>, s: nat)
    requires s < 32
    ensures Spill(a, 0, s) == 0
  {
  }

  lemma SpillNext(a: seq<uint32>, i: nat, s: nat)
    requires i < |a| && s < 32
    ensures Spill(a, i + 1, s) == if s == 0 then 0 else ShiftRight32(a[i], 32 - s)
  {
  }

  /** Word `m` of a right shift, when the first `i` words have been spread. */
  function PartlyLowered(a: seq<uint32>, m: nat, k: nat, s: nat, i: nat): nat
    requires m < |a| && i <= |a| && s < 32
  {
    if m + k >= i then 0
    else if m + k == i - 1 then ShiftRight32(a[i - 1], s)
    else DownWord(a, m + k, s)
  }

  lemma DownWordParts(a: seq<uint32>, i: nat, s: nat)
    requires i <= |a| && s < 32
    ensures i > 0 && (i == |a| || s == 0) ==> DownWord(a, i - 1, s) == ShiftRight32(a[i - 1], s)
    ensures 0 < i < |a| && s != 0 ==>
              DownWord(a, i - 1, s) == Or(ShiftRight32(a[i - 1], s), ShiftLeft32(a[i], 32 - s)) < WORD
  {
    if i > 0 {
      DownWordSum(a, i - 1, s);
    }
  }

  lemma ShorterDividend(n: nat, d: nat, numBits: nat, divBits: nat)
    requires numBits < divBits && Pow(2, divBits - 1) <= d
    requires if numBits == 0 then n == 0 else n < Pow(2, numBits)
    ensures d > 0 && n / d == 0
  {
    hide Pow;
    PowMonotone(2, numBits, divBits - 1);
    DivUnique(n, d, 0, n);
  }

  /** Aligning the divisor with the dividend loses no bit, and leaves at most one subtraction per bit. */
  lemma AlignedShift(n: nat, d: nat, numBits: nat, divBits: nat, width: nat)
    requires 0 < divBits <= numBits <= 32 * width
    requires n < Pow(2, numBits) && Pow(2, divBits - 1) <= d < Pow(2, divBits)
    ensures d * Pow(2, numBits - divBits) % Pow(WORD, width) == d * Pow(2, numBits - divBits)
    ensures n < d * Pow(2, numBits - divBits + 1)
  {
    hide Pow;
    var shift := numBits - divBits;
    PowAdd(2, divBits, shift);
    MulMonotone(d + 1, Pow(2, divBits), Pow(2, shift));
    Distributes(d, 1, Pow(2, shift));
    PowBits(width, 0);
    PowOne();
    PowMonotone(2, numBits, 32 * width);
    SmallModulo(d * Pow(2, shift), Pow(WORD, width));
    PowAdd(2, divBits - 1, shift + 1);
    MulMonotone(Pow(2, divBits - 1), d, Pow(2, shift + 1));
  }

  /** One bit of the quotient: subtracting keeps the sum, and the remainder falls below the divisor at hand. */
  lemma DivideStep(q: nat, r: nat, d: nat, shift: nat, n: nat)
    requires q * d + r == n && q % Pow(2, shift + 1) == 0 && r < d * Pow(2, shift + 1)
    ensures q % Pow(2, shift) == 0 && (q + Pow(2, shift)) % Pow(2, shift) == 0
    ensures d * Pow(2, shift + 1) == 2 * (d * Pow(2, shift))
    ensures (q + Pow(2, shift)) * d + (r - d * Pow(2, shift)) == n
  {
    hide Pow;
    var p := Pow(2, shift);
    Doubles(shift);
    var k := q / (2 * p);
    assert q == k * (2 * p);
    Associates(k, 2, p);
    MulCancels(k * 2, p);
    Distributes(k * 2, 1, p);
    MulCancels(k * 2 + 1, p);
    Associates(d, 2, p);
    Distributes(q, p, d);
  }

  lemma Doubles(shift: nat)
    ensures Pow(2, shift + 1) == 2 * Pow(2, shift)
  {
  }

  lemma HalveShift(d: nat, shift: nat)
    ensures shift > 0 ==> d * Pow(2, shift) / Pow(2, 1) == d * Pow(2, shift - 1)
  {
    if shift > 0 {
      Doubles(shift - 1);
      PowOne();
      Associates(d, Pow(2, shift - 1), 2);
      MulCancels(d * Pow(2, shift - 1), 2);
    }
  }

  lemma SetBitFits(s: seq<uint32>, shift: nat)
    requires shift < 32 * |s| && Value(s) % Pow(2, shift + 1) == 0
    ensures Or(s[shift / 32], Pow(2, shift % 32)) == s[shift / 32] as int + Pow(2, shift % 32) < WORD
  {
    hide Value, Pow, Or;
    var w, j := shift / 32, shift % 32;
    WordMultiple(s, w, j + 1);
    PowMonotone(2, j, j + 1);
    Doubles(j);
    OrDisjoint(s[w], Pow(2, j), j + 1);
    if j + 1 < 32 {
      NextMultipleFits(s[w], j + 1, Pow(2, j));
    } else {
      PowWord();
      SmallModulo(s[w], WORD);
    }
  }

  /** If a power of two divides the number, the part of it within a word divides that word. */
  lemma WordMultiple(s: seq<uint32>, w: nat, j: nat)
    requires w < |s| && j <= 32 && Value(s) % Pow(2, 32 * w + j) == 0
    ensures s[w] % Pow(2, j) == 0
  {
    hide Value, Pow;
    PowBits(w, j);
    var p, t := Pow(WORD, w), Pow(2, j);
    QuotientMultiple(Value(s), p, t);
    ValueDivides(s, w);
    ValueLow(s[w..]);
    WordSplit(j);
    PartMultiple(s[w], Value(s[w..][1..]), t, Pow(2, 32 - j));
  }

  lemma QuotientMultiple(v: nat, p: nat, t: nat)
    requires p > 0 && t > 0 && p * t > 0 && v % (p * t) == 0
    ensures v / p % t == 0
  {
    var k := v / (p * t);
    assert v == k * (p * t);
    Associates(k, t, p);
    MulCancels(k * t, p);
    MulCancels(k, t);
  }

  lemma PartMultiple(x: nat, high: nat, t: nat, u: nat)
    requires t > 0 && (x + t * u * high) % t == 0
    ensures x % t == 0
  {
    assert x + t * u * high == x + (u * high) * t;
    DivAddMultiple(x, t, u * high);
  }

  lemma SetBitValue(s: seq<uint32>, t: seq<uint32>, shift: nat)
    requires shift < 32 * |s|
    requires |t| == |s| && t[..shift / 32] == s[..shift / 32] && t[shift / 32 + 1..] == s[shift / 32 + 1..]
    requires t[shift / 32] as int == s[shift / 32] as int + Pow(2, shift % 32)
    ensures Value(t) == Value(s) + Pow(2, shift)
  {
    hide Value, Pow;
    WordRaised(s, t, shift / 32, Pow(2, shift % 32));
    PowBits(shift / 32, shift % 32);
  }

  lemma WordRaised(s: seq<uint32>, t: seq<uint32>, w: nat, x: nat)
    requires w < |s| == |t| && t[..w] == s[..w] && t[w + 1..] == s[w + 1..] && t[w] as int == s[w] as int + x
    ensures Value(t) == Value(s) + x * Pow(WORD, w)
  {
    hide Value, Pow;
    ValueSplit(s, w + 1);
    ValueSplit(t, w + 1);
    ValuePrefix(s, w);
    ValuePrefix(t, w);
    Distributes(s[w], x, Pow(WORD, w));
  }
}
