/** The request for missing transactions: positions kept in an array, written and read as differences. */
module BlockRequest {
  import opened CompactBlocks

  class BlockTransactionsRequest {
    var indexes: array<uint16>

    constructor (list: seq<uint16>)
      ensures fresh(indexes) && indexes[..] == list
    {
      indexes := new uint16[|list|](i requires 0 <= i < |list| => list[i]);
    }

    method Write() returns (d: seq<nat>)
      ensures d == EncodeIndexes(indexes[..])
    {
      d := [];
      for i := 0 to indexes.Length
        invariant d == EncodeIndexes(indexes[..])[..i]
      {
        var index := (indexes[i] - if i == 0 then 0 else indexes[i - 1] + 1) % UINT64;
        d := d + [index];
      }
    }

    /** What the numbers in the array are after reading: an object that has enough already reads none. */
    ghost function Taken(d: seq<nat>): seq<nat>
      reads this, indexes
    {
      if indexes.Length < |d| then d else indexes[..]
    }

    /**
     Reads the differences, growing the array by a thousand at a time, then adds them up in place;
     false is an overflow error.
     */
    method Read(d: seq<nat>) returns (ok: bool)
      modifies this, indexes
      ensures ok <==> DecodeIndexes(old(Taken(d))).Indexes?
      ensures ok ==> Indexes(indexes[..]) == DecodeIndexes(old(Taken(d)))
      ensures ok && StrictlyIncreasing(indexes[..]) <==> Sum(old(Taken(d))) + |old(Taken(d))| <= UINT16
      ensures old(indexes.Length) == 0 ==> old(Taken(d)) == d
      ensures indexes == old(indexes) || fresh(indexes)
    {
      hide DecodeIndexes, Sum, StrictlyIncreasing;
      ghost var taken := Taken(d);
      DecodedIncreasing(taken);
      var i := 0;
      while indexes.Length < |d|
        invariant indexes == old(indexes) || fresh(indexes)
        invariant indexes == old(indexes) ==> i == 0 && indexes[..] == old(indexes[..])
        invariant indexes != old(indexes) ==> i == indexes.Length <= |d| == |taken| && taken == d
        invariant i <= indexes.Length && forall k :: 0 <= k < i ==> k < |d| && indexes[k] == d[k]
        decreases |d| - indexes.Length
      {
        indexes := Resized(indexes, if 1000 + indexes.Length < |d| then 1000 + indexes.Length else |d|);
        ghost var grown := indexes;
        while i < indexes.Length
          invariant indexes == grown && i <= indexes.Length && forall k :: 0 <= k < i ==> indexes[k] == d[k]
        {
          if d[i] >= UINT16 {
            TooLarge(d, i);
            return false;
          }
          indexes[i] := d[i];
          i := i + 1;
        }
      }
      ok := AddUp(indexes, taken);
    }
  }

  /** A longer array with the same beginning. */
  method Resized(a: array<uint16>, n: nat) returns (r: array<uint16>)
    requires a.Length <= n
    ensures fresh(r) && r.Length == n && r[..a.Length] == a[..]
  {
    r := new uint16[n](_ => 0);
    for i := 0 to a.Length
      invariant r[..i] == a[..i]
    {
      r[i] := a[i];
    }
  }

  method AddUp(a: array<uint16>, ghost d: seq<nat>) returns (ok: bool)
    requires a.Length == |d| && forall k :: 0 <= k < |d| ==> a[k] == d[k]
    modifies a
    ensures ok <==> DecodeIndexes(d).Indexes?
    ensures ok ==> Indexes(a[..]) == DecodeIndexes(d)
  {
    hide DecodeIndexes;
    var offset: nat := 0;
    DecodedNothing(d);
    for j := 0 to a.Length
      invariant DecodeIndexes(d[..j]) == Indexes(a[..j]) && offset == Offset(a[..j])
      invariant forall k :: j <= k < |d| ==> a[k] == d[k]
    {
      DecodedNext(d, j);
      if a[j] + offset > UINT16 - 1 {
        OverflowStays(d, j + 1);
        return false;
      }
      ghost var front := a[..j];
      a[j] := a[j] + offset;
      assert a[..j + 1] == front + [a[j]];
      offset := (a[j] + 1) % UINT16;
    }
    assert d[..|d|] == d && a[..a.Length] == a[..];
    ok := true;
  }

  lemma DecodedNothing(d: seq<nat>)
    ensures DecodeIndexes(d[..0]) == Indexes([]) && Offset([]) == 0
  {
  }

  lemma DecodedNext(d: seq<nat>, j: nat)
    requires j < |d| && DecodeIndexes(d[..j]).Indexes?
    ensures var list := DecodeIndexes(d[..j]).list;
            DecodeIndexes(d[..j + 1]) ==
              if d[j] >= UINT16 || d[j] + Offset(list) >= UINT16 then Overflow else Indexes(list + [d[j] + Offset(list)])
  {
    assert d[..j + 1][..j] == d[..j];
  }

  /** An error is never recovered from. */
  lemma {:induction false} OverflowStays(d: seq<nat>, j: nat)
    requires j <= |d| && DecodeIndexes(d[..j]) == Overflow
    ensures DecodeIndexes(d) == Overflow
    decreases |d| - j
  {
    if j == |d| {
      assert d[..j] == d;
    } else {
      assert d[..j + 1][..j] == d[..j];
      OverflowStays(d, j + 1);
    }
  }

  lemma TooLarge(d: seq<nat>, i: nat)
    requires i < |d| && d[i] >= UINT16
    ensures DecodeIndexes(d) == Overflow
  {
    assert d[..i + 1][..i] == d[..i];
    OverflowStays(d, i + 1);
  }
}
