/**
 A database transaction as a value: pending writes and deletes over a parent map, the order of
 its keys, and what it means for a cursor to stand on the next key.
 */
module DbOverlay {

  /** Keys and values are the bytes they serialize to. */
  type Bytes = seq<nat>

  /** A value with the type it was written as; one that comes from the database has none. */
  datatype Kind = Stored | Typed(id: nat)
  datatype Value = Value(bytes: Bytes, kind: Kind)
  type Table = map<Bytes, Value>

  /** A pending value, with the size it is accounted for. */
  datatype Holder = Holder(value: Value, memoryUsage: nat)
  type Writes = map<Bytes, Holder>

  ghost function Overlay(parent: Table, writes: Writes, deletes: set<Bytes>): Table {
    map k | k in parent.Keys + writes.Keys && (k in writes || (k in parent && k !in deletes)) ::
      if k in writes then writes[k].value else parent[k]
  }

  // ----- accounting -----

  ghost function Pick(s: set<Bytes>): (k: Bytes)
    requires s != {}
    ensures k in s
  {
    assert (forall x :: x !in s) ==> s == {};
    var k :| k in s;
    k
  }

  /** The bytes held by pending writes and deletes. */
  ghost function WritesUsage(writes: Writes): nat
    decreases |writes.Keys|
  {
    if writes.Keys == {} then 0 else
    var k := Pick(writes.Keys);
    KeysLess(writes, k);
    |k| + writes[k].memoryUsage + WritesUsage(writes - {k})
  }

  lemma KeysLess(writes: Writes, k: Bytes)
    requires k in writes
    ensures (writes - {k}).Keys == writes.Keys - {k} && |(writes - {k}).Keys| == |writes.Keys| - 1
  {
  }

  /** Any write can be counted first. */
  lemma {:induction false} WritesUsageSplit(writes: Writes, k: Bytes)
    requires k in writes
    ensures WritesUsage(writes) == |k| + writes[k].memoryUsage + WritesUsage(writes - {k})
    decreases |writes.Keys|
  {
    var c := Pick(writes.Keys);
    if c != k {
      KeysLess(writes, c);
      KeysLess(writes, k);
      WritesUsageSplit(writes - {c}, k);
      WritesUsageSplit(writes - {k}, c);
      assert writes - {c} - {k} == writes - {k} - {c};
    }
  }

  ghost function DeletesUsage(deletes: set<Bytes>): nat {
    if deletes == {} then 0 else
    var k := Pick(deletes);
    |k| + DeletesUsage(deletes - {k})
  }

  lemma {:induction false} DeletesUsageSplit(deletes: set<Bytes>, k: Bytes)
    requires k in deletes
    ensures DeletesUsage(deletes) == |k| + DeletesUsage(deletes - {k})
    decreases deletes
  {
    var c := Pick(deletes);
    if c != k {
      DeletesUsageSplit(deletes - {c}, k);
      DeletesUsageSplit(deletes - {k}, c);
      assert deletes - {c} - {k} == deletes - {k} - {c};
    }
  }

  ghost function Usage(writes: Writes, deletes: set<Bytes>): nat { WritesUsage(writes) + DeletesUsage(deletes) }

  /** What a write adds, once the key's delete and its earlier write are taken off. */
  lemma UsageOfWrite(writes: Writes, k: Bytes, h: Holder)
    ensures WritesUsage(writes[k := h])
         == WritesUsage(writes) + |k| + h.memoryUsage - if k in writes then |k| + writes[k].memoryUsage else 0
  {
    WritesUsageSplit(writes[k := h], k);
    if k in writes {
      WritesUsageSplit(writes, k);
      assert writes[k := h] - {k} == writes - {k};
    } else {
      assert writes[k := h] - {k} == writes;
    }
  }

  lemma UsageWithout(writes: Writes, deletes: set<Bytes>, k: Bytes)
    ensures k in writes ==> WritesUsage(writes - {k}) == WritesUsage(writes) - |k| - writes[k].memoryUsage
    ensures k in deletes ==> DeletesUsage(deletes - {k}) == DeletesUsage(deletes) - |k|
    ensures k !in deletes ==> deletes - {k} == deletes && DeletesUsage(deletes + {k}) == DeletesUsage(deletes) + |k|
  {
    if k in writes {
      WritesUsageSplit(writes, k);
    }
    if k in deletes {
      DeletesUsageSplit(deletes, k);
    } else {
      DeletesUsageSplit(deletes + {k}, k);
      assert deletes + {k} - {k} == deletes;
    }
  }

  // ----- the order of keys -----

  /** Lexicographic order on bytes. */
  predicate Less(a: Bytes, b: Bytes) {
    if b == [] then false
    else if a == [] then true
    else if a[0] != b[0] then a[0] < b[0]
    else Less(a[1..], b[1..])
  }

  lemma {:induction false} LessIrreflexive(a: Bytes)
    ensures !Less(a, a)
  {
    if a != [] {
      LessIrreflexive(a[1..]);
    }
  }

  lemma {:induction false} LessTransitive(a: Bytes, b: Bytes, c: Bytes)
    requires Less(a, b) && Less(b, c)
    ensures Less(a, c)
  {
    if a != [] && a[0] == b[0] && b[0] == c[0] {
      LessTransitive(a[1..], b[1..], c[1..]);
    }
  }

  lemma {:induction false} LessTotal(a: Bytes, b: Bytes)
    ensures a == b || Less(a, b) || Less(b, a)
  {
    if a != [] && b != [] && a[0] == b[0] {
      LessTotal(a[1..], b[1..]);
      if a[1..] == b[1..] {
        assert a == [a[0]] + a[1..] && b == [b[0]] + b[1..];
      }
    }
  }

  lemma LessAsymmetric(a: Bytes, b: Bytes)
    requires Less(a, b)
    ensures a != b && !Less(b, a)
  {
    LessIrreflexive(a);
    if Less(b, a) {
      LessTransitive(a, b, a);
    }
  }

  // ----- cursors -----

  datatype Position = End | On(key: Bytes)

  /** The keys a cursor has still to visit. */
  datatype Cut = All | From(key: Bytes) | After(key: Bytes)

  predicate Ahead(c: Cut, k: Bytes) {
    match c
    case All => true
    case From(b) => k == b || Less(b, k)
    case After(b) => Less(b, k)
  }

  lemma AheadUp(c: Cut, k: Bytes, x: Bytes)
    requires Ahead(c, k) && Less(k, x)
    ensures Ahead(c, x)
  {
    if !c.All? && k != c.key {
      LessTransitive(c.key, k, x);
    }
  }

  /** A cursor over a set of keys stands on the least one ahead. */
  ghost predicate StandsOn(s: set<Bytes>, c: Cut, p: Position) {
    match p
    case End => forall k :: k in s ==> !Ahead(c, k)
    case On(key) => key in s && Ahead(c, key) && forall k :: k in s && Ahead(c, k) ==> k == key || Less(key, k)
  }

  /** The smaller of two cursors; on the right one when they do not differ. */
  predicate RightFirst(left: Position, right: Position) {
    right.On? && (left.End? || !Less(left.key, right.key))
  }

  /** Merging two disjoint sets: the smaller cursor stands on the least key of both. */
  lemma MergeStands(left: set<Bytes>, right: set<Bytes>, c: Cut, l: Position, r: Position)
    requires StandsOn(left, c, l) && StandsOn(right, c, r)
    ensures StandsOn(left + right, c, if RightFirst(l, r) then r else l)
  {
    if l.On? && r.On? {
      LessTotal(l.key, r.key);
      forall k | k in left + right && Ahead(c, k) ensures (l.key == k || Less(l.key, k)) || (r.key == k || Less(r.key, k)) {
      }
      var (first, second) := if RightFirst(l, r) then (r.key, l.key) else (l.key, r.key);
      forall k | k in left + right && Ahead(c, k) ensures k == first || Less(first, k) {
        if k != second && Less(second, k) && second != first {
          LessTransitive(first, second, k);
        }
      }
    }
  }

  /** Passing a key leaves a cursor alone that stands further on, over keys without it. */
  lemma OtherStays(s: set<Bytes>, c: Cut, p: Position, k: Bytes)
    requires StandsOn(s, c, p) && Ahead(c, k) && (p.On? ==> Less(k, p.key))
    ensures StandsOn(s, After(k), p)
  {
    forall x | x in s && Less(k, x) ensures Ahead(c, x) {
      AheadUp(c, k, x);
    }
  }

  // ----- skipping -----

  /** The parent's keys that show through. */
  ghost function Showing(parent: set<Bytes>, writes: set<Bytes>, deletes: set<Bytes>): set<Bytes> {
    set k | k in parent && k !in deletes && k !in writes
  }

  lemma OverlayKeys(parent: Table, writes: Writes, deletes: set<Bytes>)
    ensures Overlay(parent, writes, deletes).Keys == writes.Keys + Showing(parent.Keys, writes.Keys, deletes)
  {
  }

  /** The parent's cursor is somewhere between the cut and the first key that shows. */
  ghost predicate Skipping(parent: set<Bytes>, showing: set<Bytes>, c: Cut, at: Cut) {
    && (forall x :: x in parent && Ahead(at, x) ==> Ahead(c, x))
    && (forall x :: x in showing && Ahead(c, x) ==> Ahead(at, x))
  }

  lemma SkipOne(parent: set<Bytes>, showing: set<Bytes>, c: Cut, at: Cut, k: Bytes)
    requires Skipping(parent, showing, c, at) && showing <= parent
    requires StandsOn(parent, at, On(k)) && k !in showing
    ensures Skipping(parent, showing, c, After(k))
  {
    forall x | x in parent && Less(k, x) ensures Ahead(c, x) {
      AheadUp(c, k, x);
    }
  }

  lemma SkipEnds(parent: set<Bytes>, showing: set<Bytes>, c: Cut, at: Cut, p: Position)
    requires Skipping(parent, showing, c, at) && showing <= parent
    requires StandsOn(parent, at, p) && (p.On? ==> p.key in showing)
    ensures StandsOn(showing, c, p)
  {
  }

  /** How many keys are left to visit. */
  ghost function Left(s: set<Bytes>, c: Cut): nat { |set k | k in s && Ahead(c, k)| }

  lemma LeftDrops(s: set<Bytes>, c: Cut, k: Bytes)
    requires StandsOn(s, c, On(k))
    ensures Left(s, After(k)) < Left(s, c)
  {
    var before, after := set x | x in s && Ahead(c, x), set x | x in s && Less(k, x);
    LessIrreflexive(k);
    forall x | x in after ensures x in before {
      AheadUp(c, k, x);
    }
    assert after <= before && k in before && k !in after;
    Fewer(after, before);
    assert after == set x | x in s && Ahead(After(k), x);
  }

  lemma Fewer(a: set<Bytes>, b: set<Bytes>)
    requires a < b
    ensures |a| < |b|
  {
    assert b == a + (b - a);
    assert b - a != {};
  }
}
