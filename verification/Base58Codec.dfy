/** Base58 as it is computed: digit by digit, in a buffer sized in advance. */
module Base58Codec {
  import opened Powers
  import opened Base58

  lemma NumPrepend(base: nat, d: nat, s: seq<nat>)
    ensures Num(base, [d] + s) == d * Pow(base, |s|) + Num(base, s)
  {
    NumSplit(base, [d], s);
    assert [d][..0] == [];
  }

  /** What stays in a place, and what is carried on. */
  function Low(c: nat, base: nat): (d: nat)
    requires base >= 2
    ensures d < base
  {
    c % base
  }

  function High(c: nat, base: nat): nat
    requires base >= 2
  {
    DivBound(c, base, 0);
    c / base
  }

  /** One digit of a multiplication with a carry, from the right. */
  lemma CarryDigit(base: nat, factor: nat, x: nat, was: seq<nat>, now: seq<nat>, carry: nat, total: nat)
    requires base >= 2 && |was| == |now|
    requires Num(base, now) + carry * Pow(base, |now|) == total
    ensures var c := carry + factor * x;
            Num(base, [Low(c, base)] + now) + High(c, base) * Pow(base, |now| + 1) == total + factor * (x * Pow(base, |was|))
  {
    hide Num, Pow;
    var c, p := carry + factor * x, Pow(base, |now|);
    NumPrepend(base, c % base, now);
    NextPower(base, |now|);
    Associates(c / base, base, p);
    Distributes(c % base, (c / base) * base, p);
    Distributes(carry, factor * x, p);
    Associates(factor, x, p);
  }

  lemma NextPower(base: nat, n: nat)
    ensures Pow(base, n + 1) == base * Pow(base, n)
  {
  }

  lemma NumSuffix(base: nat, x: seq<nat>, j: nat)
    requires j < |x|
    ensures Num(base, x[j..]) == x[j] * Pow(base, |x| - j - 1) + Num(base, x[j + 1..])
  {
    assert x[j..] == [x[j]] + x[j + 1..];
    NumPrepend(base, x[j], x[j + 1..]);
  }

  /** Words in front that are zero do not count. */
  lemma NumFront(base: nat, x: seq<nat>, j: nat)
    requires j <= |x| && forall k :: 0 <= k < j ==> x[k] == 0
    ensures Num(base, x) == Num(base, x[j..])
  {
    assert x == x[..j] + x[j..];
    NumSplit(base, x[..j], x[j..]);
    NumZeroes(base, x[..j]);
  }

  lemma NoCarry(base: nat, n: nat, carry: nat, p: nat)
    requires n + carry * p < p
    ensures carry == 0
  {
    if carry > 0 {
      MulMonotone(1, carry, p);
    }
  }

  /** Multiplies the number in the buffer and adds a digit; only the last `length` places are in use. */
  method MultiplyAdd(b: array<nat>, base: nat, factor: nat, digit: nat, length: nat) returns (newLength: nat)
    requires base >= 2 && Digits(base, b[..]) && length <= b.Length
    requires forall k :: 0 <= k < b.Length - length ==> b[k] == 0
    requires Num(base, b[..]) * factor + digit < Pow(base, b.Length)
    modifies b
    ensures Num(base, b[..]) == old(Num(base, b[..])) * factor + digit
    ensures Digits(base, b[..]) && newLength <= b.Length && forall k :: 0 <= k < b.Length - newLength ==> b[k] == 0
  {
    hide Num, Pow, Low, High, Partial, Product;
    ghost var x := b[..];
    ghost var n := b.Length;
    var carry: nat := digit;
    var i := 0;
    PartialStarts(base, factor, x, digit);
    while (carry != 0 || i < length) && i < b.Length
      invariant 0 <= i <= n
      invariant Digits(base, b[..]) && forall k :: 0 <= k < n - i ==> b[k] == x[k]
      invariant Partial(base, factor, x, b[..], n - i, carry, digit)
      decreases n - i
    {
      var j := b.Length - 1 - i;
      ghost var was, c := b[..], carry;
      carry := carry + Product(factor, b[j]);
      b[j] := Low(carry, base);
      carry := High(carry, base);
      MultiplyStep(base, factor, x, was, b[..], j, c, digit);
      i := i + 1;
    }
    MultiplyEnds(base, factor, x, b[..], n - i, carry, digit);
    assert carry == 0;
    newLength := i;
  }

  function Product(a: nat, b: nat): nat { a * b }

  /** From place `j` on, the multiplication is done, and the carry is what it owes to the left. */
  ghost predicate Partial(base: nat, factor: nat, x: seq<nat>, b: seq<nat>, j: nat, carry: nat, digit: nat)
    requires j <= |x| == |b|
  {
    Num(base, b[j..]) + carry * Pow(base, |x| - j) == factor * Num(base, x[j..]) + digit
  }

  lemma PartialStarts(base: nat, factor: nat, x: seq<nat>, digit: nat)
    ensures Partial(base, factor, x, x, |x|, digit, digit)
  {
    EmptySuffix(base, x);
  }

  lemma MultiplyStep(base: nat, factor: nat, x: seq<nat>, was: seq<nat>, now: seq<nat>, j: nat, carry: nat, digit: nat)
    requires base >= 2 && j < |x| == |was| && was[j] == x[j]
    requires now == was[j := Low(carry + Product(factor, x[j]), base)]
    requires Partial(base, factor, x, was, j + 1, carry, digit)
    ensures Partial(base, factor, x, now, j, High(carry + Product(factor, x[j]), base), digit)
  {
    hide Num, Pow;
    var tail := x[j + 1..];
    CarryDigit(base, factor, x[j], tail, was[j + 1..], carry, factor * Num(base, tail) + digit);
    NumSuffix(base, x, j);
    Distributes2(factor, x[j] * Pow(base, |tail|), Num(base, tail));
    assert now[j..] == [now[j]] + was[j + 1..];
  }

  lemma PartialDone(base: nat, factor: nat, x: seq<nat>, b: seq<nat>, j: nat, digit: nat)
    requires j <= |x| == |b| && Partial(base, factor, x, b, j, 0, digit)
    ensures Num(base, b[j..]) == Num(base, x[j..]) * factor + digit
  {
    hide Num, Pow;
    assert 0 * Pow(base, |x| - j) == 0;
  }

  lemma MultiplyEnds(base: nat, factor: nat, x: seq<nat>, b: seq<nat>, j: nat, carry: nat, digit: nat)
    requires base >= 2 && j <= |x| == |b| && (forall k :: 0 <= k < j ==> b[k] == x[k])
    requires Partial(base, factor, x, b, j, carry, digit)
    requires j == 0 || (carry == 0 && forall k :: 0 <= k < j ==> x[k] == 0)
    requires Num(base, x) * factor + digit < Pow(base, |x|)
    ensures carry == 0 && Num(base, b) == Num(base, x) * factor + digit
  {
    hide Num, Pow;
    if j == 0 {
      assert b[0..] == b && x[0..] == x;
      NoCarry(base, Num(base, b), carry, Pow(base, |x|));
    } else {
      hide Partial;
      NumFront(base, x, j);
      NumFront(base, b, j);
      PartialDone(base, factor, x, b, j, digit);
    }
  }

  lemma EmptyPrefix(base: nat, x: seq<nat>)
    ensures Num(base, x[..0]) == 0
  {
  }

  lemma EmptySuffix(base: nat, x: seq<nat>)
    ensures Num(base, x[|x|..]) == 0 && Pow(base, 0) == 1
  {
  }

  lemma Distributes2(a: int, b: int, c: int)
    ensures a * (b + c) == a * b + a * c
  {
  }

  // ----- the encoder -----

  method EncodeBase58(bytes: seq<byte>) returns (str: string)
    ensures str == Encode(bytes)
  {
    hide Num, Pow, ToDigits, LeadingZeroes;
    var zeroes := CountZeroes(bytes);
    var rest := bytes[zeroes..];
    var size := |rest| * 138 / 100 + 1;
    var b58 := new nat[size](_ => 0);
    NumZeroes(58, b58[..]);
    var length := 0;
    EmptyPrefix(256, rest);
    for p := 0 to |rest|
      invariant Digits(58, b58[..]) && 0 <= length <= size && forall k :: 0 <= k < size - length ==> b58[k] == 0
      invariant Num(58, b58[..]) == Num(256, rest[..p])
    {
      EncodeRoom(rest, p);
      length := MultiplyAdd(b58, 58, 256, rest[p], length);
    }
    assert rest[..|rest|] == rest;
    var it := SkipZeroes(b58, size - length);
    StrippedIsDigits(58, b58[..]);
    NumStripped(256, bytes);
    RecodeDigits(256, 58, bytes);
    str := seq(zeroes, _ => '1');
    ghost var digits, start := Recode(256, 58, bytes), it;
    assert digits == Zeroes(zeroes) + b58[..][start..];
    while it < size
      invariant start <= it <= size && |str| == zeroes + (it - start)
      invariant forall k :: 0 <= k < |str| ==> str[k] == Letter(digits[k])
    {
      str := str + [Letter(b58[it])];
      it := it + 1;
    }
  }

  /** The next byte still fits the buffer. */
  lemma EncodeRoom(rest: seq<byte>, p: nat)
    requires p < |rest|
    ensures Num(256, rest[..p]) * 256 + rest[p] == Num(256, rest[..p + 1]) < Pow(58, |rest| * 138 / 100 + 1)
  {
    hide Pow;
    assert rest[..p + 1][..p] == rest[..p];
    NumBound(256, rest[..p + 1]);
    PowMonotone(256, p + 1, |rest|);
    EncodeFits(|rest|);
  }

  method CountZeroes(d: seq<nat>) returns (n: nat)
    ensures n == LeadingZeroes(d)
  {
    hide LeadingZeroes;
    n := 0;
    while n < |d| && d[n] == 0
      invariant n <= |d| && forall i :: 0 <= i < n ==> d[i] == 0
    {
      n := n + 1;
    }
  }

  /** Where the digits start, given that everything before `from` is zero. */
  method SkipZeroes(b: array<nat>, from: nat) returns (it: nat)
    requires from <= b.Length && forall k :: 0 <= k < from ==> b[k] == 0
    ensures it == LeadingZeroes(b[..])
  {
    hide LeadingZeroes;
    it := from;
    while it < b.Length && b[it] == 0
      invariant it <= b.Length && forall k :: 0 <= k < it ==> b[k] == 0
    {
      it := it + 1;
    }
  }

  // ----- the decoder -----

  /** The position after the spaces at a position. */
  method SkipSpaces(psz: string, from: nat) returns (p: nat)
    requires from <= |psz|
    ensures from <= p <= |psz| && (forall i :: from <= i < p ==> IsSpace(psz[i])) && (p < |psz| ==> !IsSpace(psz[p]))
  {
    p := from;
    while p < |psz| && IsSpace(psz[p])
      invariant from <= p <= |psz| && forall i :: from <= i < p ==> IsSpace(psz[i])
    {
      p := p + 1;
    }
  }

  /** The letters up to the next space, into the buffer; stops at a character outside the alphabet. */
  method DecodeLetters(psz: string, from: nat, b256: array<nat>) returns (ok: bool, p: nat, length: nat)
    requires from <= |psz| && b256.Length == (|psz| - from) * 733 / 1000 + 1
    requires forall k :: 0 <= k < b256.Length ==> b256[k] == 0
    modifies b256
    ensures !ok ==> Decode(psz) == Invalid
    ensures ok ==>
      && from <= p <= |psz| && (p < |psz| ==> IsSpace(psz[p]))
      && (forall i :: from <= i < p ==> !IsSpace(psz[i]) && IndexOf(psz[i]) < 58)
      && length <= b256.Length && (forall k :: 0 <= k < b256.Length - length ==> b256[k] == 0)
      && Digits(256, b256[..]) && Num(256, b256[..]) == Num(58, Indices(psz[from..p]))
  {
    hide Num, Pow, Recode, Trim, InAlphabet, IndexOf, IsSpace, Decode;
    NumZeroes(256, b256[..]);
    p, length := from, 0;
    ghost var rest := Indices(psz[from..]);
    EmptyPrefix(58, rest);
    while p < |psz| && !IsSpace(psz[p])
      invariant from <= p <= |psz| && forall i :: from <= i < p ==> !IsSpace(psz[i]) && IndexOf(psz[i]) < 58
      invariant Digits(256, b256[..]) && length <= b256.Length && forall k :: 0 <= k < b256.Length - length ==> b256[k] == 0
      invariant Num(256, b256[..]) == Num(58, rest[..p - from])
    {
      var ch := IndexOf(psz[p]);
      if ch == 58 {
        BadCharacter(psz, p);
        return false, p, length;
      }
      DecodeRoom(psz[from..], p - from);
      length := MultiplyAdd(b256, 256, 58, ch, length);
      p := p + 1;
    }
    assert rest[..p - from] == Indices(psz[from..p]);
    return true, p, length;
  }

  /** `psz` is what a C string holds, up to its terminator. */
  method DecodeBase58(psz: string) returns (r: Result)
    ensures r == Decode(psz)
  {
    hide Num, Pow, Recode, Trim, InAlphabet, IndexOf, IsSpace, Decode;
    var first := SkipSpaces(psz, 0);
    var p := first;
    while p < |psz| && psz[p] == '1'
      invariant first <= p <= |psz| && forall i :: first <= i < p ==> psz[i] == '1'
    {
      p := p + 1;
    }
    var zeroes := p - first;
    var size := (|psz| - p) * 733 / 1000 + 1;
    var b256 := new nat[size](_ => 0);
    var from, length, ok := p, 0, true;
    ok, p, length := DecodeLetters(psz, from, b256);
    if !ok {
      return Invalid;
    }
    ghost var last := p;
    p := SkipSpaces(psz, p);
    if p != |psz| {
      SpaceInside(psz, first, last, p);
      return Invalid;
    }
    var it := SkipZeroes(b256, size - length);
    var vch := seq(zeroes, _ => 0) + b256[it..];
    Assembled(psz, first, from, last, b256[..]);
    r := Bytes(vch);
  }

  /** The next letter still fits the buffer. */
  lemma DecodeRoom(s: string, p: nat)
    requires p < |s| && forall i :: 0 <= i <= p ==> IndexOf(s[i]) < 58
    ensures Num(58, Indices(s)[..p]) * 58 + IndexOf(s[p]) == Num(58, Indices(s)[..p + 1]) < Pow(256, |s| * 733 / 1000 + 1)
  {
    hide Pow, IndexOf;
    var d := Indices(s);
    assert d[..p + 1][..p] == d[..p];
    NumBound(58, d[..p + 1]);
    PowMonotone(58, p + 1, |s|);
    DecodeFits(|s|);
  }

  /** Trimming keeps everything from the first to the last character that is not a space. */
  lemma TrimKeeps(s: string, i: nat, k: nat)
    requires i <= k < |s| && !IsSpace(s[i]) && !IsSpace(s[k])
    ensures forall j :: i <= j <= k ==> s[j] in Trim(s)
  {
    hide IsSpace;
    var a := LeadingSpaces(s);
    var core := Trim(s);
    forall j | i <= j <= k ensures s[j] in core {
      assert core[j - a] == s[a..][j - a] == s[j];
    }
  }

  lemma BadCharacter(s: string, k: nat)
    requires k < |s| && !IsSpace(s[k]) && IndexOf(s[k]) == 58
    ensures Decode(s) == Invalid
  {
    hide Recode, Trim;
    TrimKeeps(s, k, k);
  }

  lemma SpaceInside(s: string, first: nat, last: nat, p: nat)
    requires first <= last <= p < |s| && !IsSpace(s[first]) && IsSpace(s[last]) && !IsSpace(s[p])
    ensures Decode(s) == Invalid
  {
    hide Recode, Trim;
    TrimKeeps(s, first, p);
    assert IndexOf(s[last]) == 58;
  }

  lemma TrimIs(s: string, first: nat, last: nat)
    requires first <= last <= |s|
    requires (forall i :: 0 <= i < first ==> IsSpace(s[i])) && (forall i :: last <= i < |s| ==> IsSpace(s[i]))
    requires forall i :: first <= i < last ==> !IsSpace(s[i])
    requires first < |s| ==> !IsSpace(s[first])
    ensures Trim(s) == s[first..last]
  {
    hide IsSpace;
    var a := LeadingSpaces(s);
    assert a == first;
    var tail := s[a..];
    var core := WithoutTrailing(tail);
    assert |core| < |tail| ==> tail[|core|] == s[a + |core|];
    assert |core| > 0 ==> core[|core| - 1] == tail[|core| - 1] == s[a + |core| - 1];
  }

  /** The ones in front and the digits of the rest make the decoded bytes. */
  lemma Assembled(s: string, first: nat, from: nat, last: nat, b: seq<nat>)
    requires first <= from <= last <= |s|
    requires (forall i :: 0 <= i < first ==> IsSpace(s[i])) && (forall i :: last <= i < |s| ==> IsSpace(s[i]))
    requires first < |s| ==> !IsSpace(s[first])
    requires forall i :: first <= i < from ==> s[i] == '1'
    requires from < last ==> s[from] != '1'
    requires forall i :: from <= i < last ==> !IsSpace(s[i]) && IndexOf(s[i]) < 58
    requires Digits(256, b) && Num(256, b) == Num(58, Indices(s[from..last]))
    ensures Decode(s).Bytes? && Decode(s).b == Zeroes(from - first) + Stripped(b)
  {
    hide Num, Trim, ToDigits, LeadingZeroes, Recode, IsSpace, IndexOf;
    CoreRead(s, first, from, last);
    var front, back := Zeroes(from - first), Indices(s[from..last]);
    LeadingOne(s, from, last);
    RecodeFront(from - first, back);
    StrippedIsDigits(256, b);
  }

  lemma CoreRead(s: string, first: nat, from: nat, last: nat)
    requires first <= from <= last <= |s|
    requires (forall i :: 0 <= i < first ==> IsSpace(s[i])) && (forall i :: last <= i < |s| ==> IsSpace(s[i]))
    requires first < |s| ==> !IsSpace(s[first])
    requires forall i :: first <= i < from ==> s[i] == '1'
    requires forall i :: from <= i < last ==> !IsSpace(s[i]) && IndexOf(s[i]) < 58
    ensures InAlphabet(Trim(s)) && Indices(Trim(s)) == Zeroes(from - first) + Indices(s[from..last])
  {
    hide Trim;
    assert !IsSpace('1') && IndexOf('1') == 0;
    TrimIs(s, first, last);
    assert Indices(Trim(s)) == Zeroes(from - first) + Indices(s[from..last]);
  }

  lemma RecodeFront(z: nat, back: seq<nat>)
    requires back != [] ==> back[0] != 0
    ensures Recode(58, 256, Zeroes(z) + back) == Zeroes(z) + ToDigits(256, Num(58, back))
  {
    hide Num, ToDigits, LeadingZeroes;
    NumSplit(58, Zeroes(z), back);
    NumZeroes(58, Zeroes(z));
    LeadingZeroesOf(z, back);
  }

  lemma LeadingOne(s: string, from: nat, last: nat)
    requires from <= last <= |s| && (from < last ==> s[from] != '1')
    ensures from < last ==> Indices(s[from..last])[0] != 0
  {
  }

  // ----- strings with terminators, and checksums -----

  /** What a function that takes a C string sees of a string: everything up to the first NUL. */
  function CStr(s: string): (r: string)
    ensures |r| <= |s| && r == s[..|r|] && '\0' !in r && (|r| < |s| ==> s[|r|] == '\0')
  {
    if s == [] || s[0] == '\0' then [] else [s[0]] + CStr(s[1..])
  }

  method DecodeBase58String(str: string) returns (r: Result)
    ensures r == Decode(CStr(str))
  {
    r := DecodeBase58(CStr(str));
  }

  method EncodeBase58Check(h: Hash, vchIn: seq<byte>) returns (str: string)
    requires |h(vchIn)| >= 4
    ensures str == EncodeCheck(h, vchIn)
  {
    var vch := vchIn + h(vchIn)[..4];
    str := EncodeBase58(vch);
  }

  method DecodeBase58Check(h: Hash, psz: string) returns (r: Result)
    requires forall b :: |h(b)| >= 4
    ensures r == DecodeCheck(h, psz)
  {
    r := DecodeBase58(psz);
    if r.Invalid? || |r.b| < 4 {
      return Invalid;
    }
    var vch := r.b;
    if h(vch[..|vch| - 4])[..4] != vch[|vch| - 4..] {
      return Invalid;
    }
    return Bytes(vch[..|vch| - 4]);
  }
}
