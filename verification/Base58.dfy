/** Base58: byte strings as numbers, written in an alphabet of 58 letters. */
module Base58 {
  import opened Powers

  type byte = x: nat | x < 256

  // ----- numbers and digits -----

  predicate Digits(base: nat, d: seq<nat>) {
    forall i :: 0 <= i < |d| ==> d[i] < base
  }

  /** The number that digits stand for, the most significant first. */
  function Num(base: nat, d: seq<nat>): nat {
    if d == [] then 0 else Num(base, d[..|d| - 1]) * base + d[|d| - 1]
  }

  /** The digits of a number, none for zero. */
  function ToDigits(base: nat, v: nat): seq<nat>
    requires base >= 2
  {
    if v == 0 then [] else
    QuotientSmaller(v, base);
    ToDigits(base, v / base) + [v % base]
  }

  lemma QuotientSmaller(v: nat, base: nat)
    requires v > 0 && base >= 2
    ensures 0 <= v / base < v && v == v / base * base + v % base && 0 <= v % base < base
  {
    MulMonotone(2, base, v);
    DivBound(v, base, v);
  }

  lemma AppendDigit(base: nat, d: seq<nat>, x: nat)
    requires Digits(base, d) && x < base
    ensures Num(base, d + [x]) == Num(base, d) * base + x && Digits(base, d + [x])
  {
    assert (d + [x])[..|d|] == d;
  }

  function LeadingZeroes(d: seq<nat>): (n: nat)
    ensures n <= |d| && (forall i :: 0 <= i < n ==> d[i] == 0) && (n < |d| ==> d[n] != 0)
  {
    if d == [] || d[0] != 0 then 0 else 1 + LeadingZeroes(d[1..])
  }

  function Stripped(d: seq<nat>): seq<nat> { d[LeadingZeroes(d)..] }

  lemma {:induction false} NumSplit(base: nat, a: seq<nat>, b: seq<nat>)
    ensures Num(base, a + b) == Num(base, a) * Pow(base, |b|) + Num(base, b)
    decreases |b|
  {
    if b == [] {
      assert a + b == a;
    } else {
      var front, last := b[..|b| - 1], b[|b| - 1];
      NumSplit(base, a, front);
      assert (a + b)[..|a + b| - 1] == a + front;
      NumSplitStep(Num(base, a), Pow(base, |front|), Num(base, front), base);
    }
  }

  lemma NumSplitStep(v: int, p: int, w: int, base: int)
    ensures (v * p + w) * base == v * (base * p) + w * base
  {
    Distributes(v * p, w, base);
    Associates(v, p, base);
  }

  lemma {:induction false} NumZeroes(base: nat, d: seq<nat>)
    requires forall i :: 0 <= i < |d| ==> d[i] == 0
    ensures Num(base, d) == 0
  {
    if d != [] {
      NumZeroes(base, d[..|d| - 1]);
    }
  }

  lemma {:induction false} NumBound(base: nat, d: seq<nat>)
    requires base >= 2 && Digits(base, d)
    ensures Num(base, d) < Pow(base, |d|)
  {
    if d != [] {
      NumBound(base, d[..|d| - 1]);
      MulMonotone(Num(base, d[..|d| - 1]) + 1, Pow(base, |d| - 1), base);
      Distributes(Num(base, d[..|d| - 1]), 1, base);
    }
  }

  lemma NumStripped(base: nat, d: seq<nat>)
    ensures Num(base, Stripped(d)) == Num(base, d)
  {
    var z := LeadingZeroes(d);
    assert d == d[..z] + d[z..];
    NumSplit(base, d[..z], d[z..]);
    NumZeroes(base, d[..z]);
  }

  lemma {:induction false} NumPositive(base: nat, d: seq<nat>)
    requires base >= 2 && d != [] && d[0] != 0
    ensures Num(base, d) > 0
  {
    if |d| > 1 {
      NumPositive(base, d[..|d| - 1]);
      Positive(Num(base, d[..|d| - 1]), base);
    }
  }

  /** Digits without a leading zero are the digits of their number. */
  lemma {:induction false} DigitsOfNum(base: nat, d: seq<nat>)
    requires base >= 2 && Digits(base, d) && (d != [] ==> d[0] != 0)
    ensures ToDigits(base, Num(base, d)) == d
  {
    if d != [] {
      var front, last := d[..|d| - 1], d[|d| - 1];
      NumPositive(base, d);
      DivUnique(Num(base, d), base, Num(base, front), last);
      DigitsOfNum(base, front);
      assert d == front + [last];
    }
  }

  lemma {:induction false} NumOfDigits(base: nat, v: nat)
    requires base >= 2
    ensures Num(base, ToDigits(base, v)) == v && Digits(base, ToDigits(base, v))
    ensures v > 0 ==> ToDigits(base, v) != [] && ToDigits(base, v)[0] != 0
  {
    if v > 0 {
      QuotientSmaller(v, base);
      NumOfDigits(base, v / base);
      var d := ToDigits(base, v / base);
      AppendDigit(base, d, v % base);
    }
  }

  /** Dropping leading zeroes leaves the digits of the number. */
  lemma StrippedIsDigits(base: nat, d: seq<nat>)
    requires base >= 2 && Digits(base, d)
    ensures Stripped(d) == ToDigits(base, Num(base, d))
  {
    NumStripped(base, d);
    DigitsOfNum(base, Stripped(d));
  }

  // ----- the alphabet -----

  /** The letter of a digit: all digits and letters but 0, I, O and l, in runs between these. */
  function Letter(i: nat): char
    requires i < 58
  {
    if i < 9 then ('1' as int + i) as char
    else if i < 17 then ('A' as int + i - 9) as char
    else if i < 22 then ('J' as int + i - 17) as char
    else if i < 33 then ('P' as int + i - 22) as char
    else if i < 44 then ('a' as int + i - 33) as char
    else ('m' as int + i - 44) as char
  }

  /** The position of a character in the alphabet, or 58. */
  function IndexOf(c: char): (i: nat)
    ensures i <= 58
  {
    if '1' <= c <= '9' then c as int - '1' as int
    else if 'A' <= c <= 'H' then c as int - 'A' as int + 9
    else if 'J' <= c <= 'N' then c as int - 'J' as int + 17
    else if 'P' <= c <= 'Z' then c as int - 'P' as int + 22
    else if 'a' <= c <= 'k' then c as int - 'a' as int + 33
    else if 'm' <= c <= 'z' then c as int - 'm' as int + 44
    else 58
  }

  lemma LetterIndex(i: nat)
    requires i < 58
    ensures IndexOf(Letter(i)) == i
  {
  }

  lemma IndexLetter(c: char)
    requires IndexOf(c) < 58
    ensures Letter(IndexOf(c)) == c
  {
  }

  // ----- changing base -----

  function Zeroes(n: nat): (d: seq<nat>)
    ensures |d| == n && forall i :: 0 <= i < n ==> d[i] == 0
  {
    seq(n, _ => 0)
  }

  /** The same number in another base, with as many leading zeroes as before. */
  function Recode(from: nat, to: nat, d: seq<nat>): seq<nat>
    requires to >= 2
  {
    Zeroes(LeadingZeroes(d)) + ToDigits(to, Num(from, d))
  }

  lemma {:induction false} LeadingZeroesOf(z: nat, d: seq<nat>)
    requires d != [] ==> d[0] != 0
    ensures LeadingZeroes(Zeroes(z) + d) == z
  {
    if z > 0 {
      assert (Zeroes(z) + d)[1..] == Zeroes(z - 1) + d;
      LeadingZeroesOf(z - 1, d);
    }
  }

  lemma RecodeDigits(from: nat, to: nat, d: seq<nat>)
    requires to >= 2
    ensures Digits(to, Recode(from, to, d))
  {
    NumOfDigits(to, Num(from, d));
  }

  /** Changing base and back loses nothing. */
  lemma RecodeInverse(from: nat, to: nat, d: seq<nat>)
    requires from >= 2 && to >= 2 && Digits(from, d)
    ensures Recode(to, from, Recode(from, to, d)) == d
  {
    hide Num, ToDigits, LeadingZeroes;
    var z, v := LeadingZeroes(d), Num(from, d);
    var digits := ToDigits(to, v);
    NumOfDigits(to, v);
    NoDigits(to);
    LeadingZeroesOf(z, digits);
    NumSplit(to, Zeroes(z), digits);
    NumZeroes(to, Zeroes(z));
    StrippedIsDigits(from, d);
    assert d == Zeroes(z) + Stripped(d);
  }

  lemma NoDigits(base: nat)
    requires base >= 2
    ensures ToDigits(base, 0) == []
  {
  }

  // ----- encoding and decoding -----

  function Letters(d: seq<nat>): (s: string)
    requires Digits(58, d)
    ensures |s| == |d| && forall i :: 0 <= i < |s| ==> s[i] == Letter(d[i])
  {
    seq(|d|, i requires 0 <= i < |d| => Letter(d[i]))
  }

  function Indices(s: string): (d: seq<nat>)
    ensures |d| == |s| && forall i :: 0 <= i < |d| ==> d[i] == IndexOf(s[i])
  {
    seq(|s|, i requires 0 <= i < |s| => IndexOf(s[i]))
  }

  predicate IsSpace(c: char) { c == ' ' || 9 <= c as int <= 13 }

  function LeadingSpaces(s: string): (n: nat)
    ensures n <= |s| && (forall i :: 0 <= i < n ==> IsSpace(s[i])) && (n < |s| ==> !IsSpace(s[n]))
  {
    if s == [] || !IsSpace(s[0]) then 0 else 1 + LeadingSpaces(s[1..])
  }

  function WithoutTrailing(s: string): (r: string)
    ensures |r| <= |s| && r == s[..|r|] && (forall i :: |r| <= i < |s| ==> IsSpace(s[i]))
    ensures r != [] ==> !IsSpace(r[|r| - 1])
  {
    if s == [] || !IsSpace(s[|s| - 1]) then s else WithoutTrailing(s[..|s| - 1])
  }

  /** The string without the whitespace around it. */
  function Trim(s: string): string { WithoutTrailing(s[LeadingSpaces(s)..]) }

  predicate InAlphabet(s: string) {
    forall i :: 0 <= i < |s| ==> IndexOf(s[i]) < 58
  }

  function Encode(b: seq<byte>): string {
    RecodeDigits(256, 58, b);
    Letters(Recode(256, 58, b))
  }

  datatype Result = Invalid | Bytes(b: seq<byte>)

  function Decode(s: string): Result {
    if InAlphabet(Trim(s)) then
      RecodeDigits(58, 256, Indices(Trim(s)));
      Bytes(Recode(58, 256, Indices(Trim(s))))
    else Invalid
  }

  lemma LettersRead(d: seq<nat>)
    requires Digits(58, d)
    ensures Indices(Letters(d)) == d && Trim(Letters(d)) == Letters(d) && InAlphabet(Letters(d))
  {
    var s := Letters(d);
    forall i | 0 <= i < |s| ensures IndexOf(s[i]) == d[i] && !IsSpace(s[i]) {
      LetterIndex(d[i]);
    }
    assert s[LeadingSpaces(s)..] == s;
  }

  /** Decoding inverts encoding, for every byte string. */
  lemma DecodeOfEncode(b: seq<byte>)
    ensures Decode(Encode(b)) == Bytes(b)
  {
    hide Recode, Trim, Letters, Indices;
    RecodeDigits(256, 58, b);
    LettersRead(Recode(256, 58, b));
    RecodeInverse(256, 58, b);
  }

  /** What decoding accepts is what encoding produces, but for the whitespace around it. */
  lemma EncodeOfDecode(s: string)
    requires Decode(s).Bytes?
    ensures Encode(Decode(s).b) == Trim(s)
  {
    hide Recode, Trim, Num;
    var core := Trim(s);
    RecodeInverse(58, 256, Indices(core));
    forall i | 0 <= i < |core| ensures Letter(IndexOf(core[i])) == core[i] {
      IndexLetter(core[i]);
    }
  }

  // ----- with a checksum -----

  /** A hash of at least four bytes. */
  type Hash = seq<byte> -> seq<byte>

  function EncodeCheck(h: Hash, b: seq<byte>): string
    requires |h(b)| >= 4
  {
    Encode(b + h(b)[..4])
  }

  function DecodeCheck(h: Hash, s: string): Result
    requires forall b :: |h(b)| >= 4
  {
    match Decode(s)
    case Invalid => Invalid
    case Bytes(v) =>
      if |v| < 4 then Invalid
      else if h(v[..|v| - 4])[..4] != v[|v| - 4..] then Invalid
      else Bytes(v[..|v| - 4])
  }

  lemma DecodeOfEncodeCheck(h: Hash, b: seq<byte>)
    requires forall x :: |h(x)| >= 4
    ensures DecodeCheck(h, EncodeCheck(h, b)) == Bytes(b)
  {
    var v := b + h(b)[..4];
    DecodeOfEncode(v);
    assert v[..|v| - 4] == b && v[|v| - 4..] == h(b)[..4];
  }

  lemma EncodeOfDecodeCheck(h: Hash, s: string)
    requires forall x :: |h(x)| >= 4
    requires DecodeCheck(h, s).Bytes?
    ensures EncodeCheck(h, DecodeCheck(h, s).b) == Trim(s)
  {
    var v := Decode(s).b;
    EncodeOfDecode(s);
    assert v[..|v| - 4] + v[|v| - 4..] == v;
  }

  // ----- buffer sizes -----

  lemma {:induction false} PowBaseMonotone(a: nat, b: nat, n: nat)
    requires a <= b
    ensures Pow(a, n) <= Pow(b, n)
  {
    if n > 0 {
      PowBaseMonotone(a, b, n - 1);
      MulMonotone(Pow(a, n - 1), Pow(b, n - 1), a);
      MulMonotone(a, b, Pow(b, n - 1));
    }
  }

  lemma {:induction false} PowBaseStrict(a: nat, b: nat, n: nat)
    requires a < b && n > 0
    ensures Pow(a, n) < Pow(b, n)
  {
    PowBaseMonotone(a, b, n - 1);
    MulMonotone(Pow(a, n - 1), Pow(b, n - 1), a);
    MulMonotone(a + 1, b, Pow(b, n - 1));
    Distributes(a, 1, Pow(b, n - 1));
  }

  /** If `a^p <= b^q`, then `n` digits of base `a` fit into `m` digits of base `b` once `q*n <= p*m`. */
  lemma FitsBy(a: nat, b: nat, p: nat, q: nat, n: nat, m: nat)
    requires a > 0 && b > 0 && p > 0 && Pow(a, p) <= Pow(b, q) && q * n <= p * m
    ensures Pow(a, n) <= Pow(b, m)
  {
    hide Pow;
    FitsPowers(a, b, p, q, n, m, q * n, p * m);
    RootMonotone(Pow(a, n), Pow(b, m), p);
  }

  lemma FitsPowers(a: nat, b: nat, p: nat, q: nat, n: nat, m: nat, qn: nat, pm: nat)
    requires a > 0 && b > 0 && Pow(a, p) <= Pow(b, q) && qn == q * n && pm == p * m && qn <= pm
    ensures Pow(Pow(a, n), p) <= Pow(Pow(b, m), p)
  {
    hide Pow;
    PowSwap(a, n, p);
    PowSwap(b, m, p);
    PowOfPow(b, q, n);
    PowOfPow(b, p, m);
    PowBaseMonotone(Pow(a, p), Pow(b, q), n);
    PowMonotone(b, qn, pm);
  }

  lemma RootMonotone(x: nat, y: nat, p: nat)
    requires p > 0 && Pow(x, p) <= Pow(y, p)
    ensures x <= y
  {
    if x > y {
      PowBaseStrict(y, x, p);
    }
  }

  lemma PowSwap(a: nat, n: nat, p: nat)
    ensures Pow(Pow(a, n), p) == Pow(Pow(a, p), n)
  {
    hide Pow;
    PowOfPow(a, n, p);
    PowOfPow(a, p, n);
    Commutes(n, p);
  }

  lemma Commutes(a: int, b: int)
    ensures a * b == b * a
  {
  }

  lemma EightBytesInElevenLetters()
    ensures Pow(256, 8) <= Pow(58, 11)
  {
    PowWord();
    PowOfPow(2, 8, 8);
    PowAdd(2, 32, 32);
    Squares58();
    PowAdd(58, 8, 3);
  }

  lemma Squares58()
    ensures Pow(58, 1) == 58 && Pow(58, 2) == 3364 && Pow(58, 3) == 195112 && Pow(58, 4) == 11316496
    ensures Pow(58, 8) == 128063081718016
  {
    assert Pow(58, 1) == 58;
    PowAdd(58, 1, 1);
    PowAdd(58, 2, 1);
    PowAdd(58, 2, 2);
    PowAdd(58, 4, 4);
  }

  lemma MorePowers58()
    ensures Pow(58, 7) == 2207984167552
    ensures Pow(58, 32) == 268965015114358137726910587140455987105619365599731777536
  {
    hide Pow;
    Squares58();
    PowAdd(58, 8, 8);
    PowAdd(58, 16, 16);
    PowAdd(58, 4, 3);
  }

  lemma Power58()
    ensures Pow(58, 71) == 159730386663078066345306447337161584696769904898410078913243029577507397293846405390982563136983769384625594118558891106107392
  {
    hide Pow;
    MorePowers58();
    PowAdd(58, 32, 32);
    PowAdd(58, 64, 7);
  }

  lemma Power256()
    ensures Pow(256, 52) == 169230328010303641331690318856389386196071598838855992136870091590247882556495704531248437872567112920983350278405979725889536
  {
    hide Pow;
    PowWord();
    PowOfPow(2, 8, 52);
    PowAdd(2, 32, 32);
    PowAdd(2, 64, 64);
    PowAdd(2, 128, 128);
    PowAdd(2, 256, 128);
    PowAdd(2, 384, 32);
  }

  lemma SeventyOneLettersInFiftyTwoBytes()
    ensures Pow(58, 71) <= Pow(256, 52)
  {
    hide Pow;
    Power58();
    Power256();
  }

  /** The encoder's buffer is large enough. */
  lemma EncodeFits(n: nat)
    ensures Pow(256, n) <= Pow(58, n * 138 / 100 + 1)
  {
    hide Pow;
    EightBytesInElevenLetters();
    FitsBy(256, 58, 8, 11, n, n * 138 / 100 + 1);
  }

  /** The decoder's buffer is large enough. */
  lemma DecodeFits(n: nat)
    ensures Pow(58, n) <= Pow(256, n * 733 / 1000 + 1)
  {
    hide Pow;
    SeventyOneLettersInFiftyTwoBytes();
    FitsBy(58, 256, 71, 52, n, n * 733 / 1000 + 1);
  }
}
