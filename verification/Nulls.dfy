/**
  What pushdown does to nulls (pkg/parquetquery/predicates.go). Bounds and dictionaries
  speak of non-null values only, while KeepValue is also asked about nulls, which read as
  zero, as the empty string or as a fixed text.
 */
module Nulls {
  import opened Wrappers
  import opened Parquet
  import opened Predicates

  const NULL := Value(true, 0, 0.0, [], NULL_TEXT, 0, 0)

  /** What is skipped would not have been kept, nulls included. */
  ghost predicate PagesExact(t: Test, g: RowGroup)
    requires !t.Or?
  {
    forall p, v :: p in g.pages && !LeafKeepsPage(t, p) && v in p.values ==> !LeafKeeps(t, v)
  }

  ghost predicate ChunkExact(t: Test, g: RowGroup)
    requires !t.Or?
  {
    forall p, v :: p in g.pages && !LeafKeepsChunk(t, g) && v in p.values ==> !LeafKeeps(t, v)
  }

  /** A row group as parquet-go presents it. */
  ghost predicate Honest(g: RowGroup) {
    && Truthful(g) && Numbered(g)
    && (forall p :: p in g.pages && p.bounds.Some? ==> Ordered(p.bounds.value))
    && (g.index.Some? ==> forall i :: 0 <= i < |g.index.value| ==> Ordered(g.index.value[i]))
  }

  predicate Ordered(b: Bounds) {
    Within(b.min, b)
  }

  lemma NullsAlike(t: Test, v: Value)
    requires !t.Or? && WellFormed(v) && v.isNull
    ensures LeafKeeps(t, v) == LeafKeeps(t, NULL)
  {
  }

  lemma PageSound(t: Test, g: RowGroup, p: Page, v: Value)
    requires !t.Or? && SoundRange(t) && Honest(g) && p in g.pages && !LeafKeepsPage(t, p) && v in p.values && !v.isNull
    ensures !LeafKeeps(t, v)
  {
    if t.SkipNils? {
    } else if ByBounds(t, p) {
      if LeafKeeps(t, v) {
        RangeSound(t, p.bounds.value, v);
      }
    } else {
      var k :| 0 <= k < |g.pages| && g.pages[k] == p;
      assert Covers(p.dictionary.value, g) && InDictionary(v, p.dictionary.value);
    }
  }

  /** Bounds and dictionaries say nothing about nulls: skipping pages is exact on all data if and only if nulls are not kept. */
  lemma PageNullsIff(t: Test)
    requires !t.Or? && SoundRange(t)
    ensures (forall g :: Honest(g) ==> PagesExact(t, g)) <==> !LeafKeeps(t, NULL)
  {
    if LeafKeeps(t, NULL) {
      var g := PageLosesNull(t);
    } else {
      forall g | Honest(g) ensures PagesExact(t, g) {
        forall p, v | p in g.pages && !LeafKeepsPage(t, p) && v in p.values ensures !LeafKeeps(t, v) {
          PageLeaf(t, g, p, v);
        }
      }
    }
  }

  lemma PageLeaf(t: Test, g: RowGroup, p: Page, v: Value)
    requires !t.Or? && SoundRange(t) && Honest(g) && p in g.pages && !LeafKeepsPage(t, p) && v in p.values && !LeafKeeps(t, NULL)
    ensures !LeafKeeps(t, v)
  {
    var k :| 0 <= k < |g.pages| && g.pages[k] == p;
    if v.isNull {
      NullsAlike(t, v);
    } else {
      PageSound(t, g, p, v);
    }
  }

  function Number(x: int, f: real, b: Bytes): Value {
    Value(false, x, f, b, "", 0, 0)
  }

  /** One page with a null and two values, bounded by them. */
  function Mixed(lo: Value, hi: Value): RowGroup {
    RowGroup([Page([NULL, lo, hi], Some(Bounds(lo, hi)), None)], Some([Bounds(lo, hi)]))
  }

  lemma MixedHonest(lo: Value, hi: Value)
    requires WellFormed(lo) && WellFormed(hi) && lo.r == 0 && Within(lo, Bounds(lo, hi)) && Within(hi, Bounds(lo, hi))
    ensures Honest(Mixed(lo, hi)) && NULL in Mixed(lo, hi).pages[0].values
  {
    var g := Mixed(lo, hi);
    assert g.pages[0].values[0] == NULL;
    assert BoundsHold(g.pages[0], Bounds(lo, hi));
    assert forall p :: p in g.pages ==> p == g.pages[0];
  }

  /** A row group in which a kept null is lost with its page. */
  lemma PageLosesNull(t: Test) returns (g: RowGroup)
    requires !t.Or? && LeafKeeps(t, NULL)
    ensures Honest(g) && !PagesExact(t, g)
  {
    if t.IntBetween? || t.FloatBetween? {
      var v := if t.IntBetween? then Number(t.max + 1, 0.0, []) else Number(0, t.fmax + 1.0, []);
      g := Mixed(v, v);
      MixedHonest(v, v);
    } else {
      g := RowGroup([Page([NULL], None, Some([]))], None);
      assert g.pages[0].values[0] == NULL;
    }
    var p := g.pages[0];
    assert p in g.pages && !LeafKeepsPage(t, p) && NULL in p.values;
  }

  /** Some range of values is ruled out. */
  ghost predicate RejectsSome(t: Test) {
    Ranged(t) && (t.Generic? ==> exists lo, hi :: lo <= hi && !t.rangeFn.value(lo, hi))
  }

  /** The same for column chunks, where only bounds count. */
  lemma ChunkNullsIff(t: Test)
    requires !t.Or? && SoundRange(t)
    ensures (forall g :: Honest(g) ==> ChunkExact(t, g)) <==> !(LeafKeeps(t, NULL) && RejectsSome(t))
  {
    if LeafKeeps(t, NULL) && RejectsSome(t) {
      var g := ChunkLosesNull(t);
    } else {
      forall g | Honest(g) ensures ChunkExact(t, g) {
        forall p, v | p in g.pages && !LeafKeepsChunk(t, g) && v in p.values ensures !LeafKeeps(t, v) {
          ChunkLeaf(t, g, p, v);
        }
      }
    }
  }

  lemma NeverRejects(t: Test, b: Bounds)
    requires t.Generic? && Ranged(t) && !RejectsSome(t) && Ordered(b)
    ensures RangeKeeps(t, b)
  {
    assert b.min.int64 <= b.max.int64;
  }

  function LongerThan(ss: seq<Bytes>): (n: nat)
    ensures forall i :: 0 <= i < |ss| ==> |ss[i]| < n
  {
    if ss == [] then 1
    else
      var n, last := LongerThan(ss[..|ss| - 1]), |ss[|ss| - 1]|;
      if n > last then n else last + 1
  }

  lemma {:induction false} BytesBetween(a: Bytes, b: Bytes)
    requires BytesAtMost(a, b) && BytesAtMost(b, a)
    ensures a == b
  {
    if a != [] {
      BytesBetween(a[1..], b[1..]);
      assert a == [a[0]] + a[1..] && b == [b[0]] + b[1..];
    }
  }

  lemma {:induction false} BytesAtMostSelf(a: Bytes)
    ensures BytesAtMost(a, a)
  {
    if a != [] {
      BytesAtMostSelf(a[1..]);
    }
  }

  /** A row group in which a kept null is lost with its column chunk. */
  lemma ChunkLosesNull(t: Test) returns (g: RowGroup)
    requires !t.Or? && LeafKeeps(t, NULL) && RejectsSome(t)
    ensures Honest(g) && !ChunkExact(t, g)
  {
    var lo, hi := RejectedRange(t);
    g := Mixed(lo, hi);
    MixedHonest(lo, hi);
    var p := g.pages[0];
    assert p in g.pages && !LeafKeepsChunk(t, g) && NULL in p.values;
  }

  lemma RejectedRange(t: Test) returns (lo: Value, hi: Value)
    requires RejectsSome(t)
    ensures WellFormed(lo) && WellFormed(hi) && lo.r == 0 && Within(lo, Bounds(lo, hi)) && Within(hi, Bounds(lo, hi))
    ensures !RangeKeeps(t, Bounds(lo, hi))
  {
    match t
    case IntBetween(_, max) => lo := Number(max + 1, 0.0, []); hi := lo;
    case FloatBetween(_, max) => lo := Number(0, max + 1.0, []); hi := lo;
    case Generic(_, rangeFn) =>
      var x, y :| x <= y && !rangeFn.value(x, y);
      lo, hi := Number(x, 0.0, []), Number(y, 0.0, []);
    case StringIn(ss) =>
      var long: Bytes := seq(LongerThan(ss), _ => 0);
      lo := Number(0, 0.0, long);
      hi := lo;
      BytesAtMostSelf(long);
      forall i | 0 <= i < |ss| ensures !(BytesAtMost(long, ss[i]) && BytesAtMost(ss[i], long)) {
        if BytesAtMost(long, ss[i]) && BytesAtMost(ss[i], long) {
          BytesBetween(long, ss[i]);
        }
      }
  }

  lemma ChunkLeaf(t: Test, g: RowGroup, p: Page, v: Value)
    requires !t.Or? && SoundRange(t) && Honest(g) && p in g.pages && !LeafKeepsChunk(t, g) && v in p.values
    requires !(LeafKeeps(t, NULL) && RejectsSome(t))
    ensures !LeafKeeps(t, v)
  {
    var k :| 0 <= k < |g.pages| && g.pages[k] == p;
    var b := g.index.value[k];
    assert BoundsHold(p, b) && !RangeKeeps(t, b);
    if v.isNull {
      NullsAlike(t, v);
      if t.Generic? && LeafKeeps(t, NULL) {
        NeverRejects(t, b);
      }
    } else if LeafKeeps(t, v) {
      RangeSound(t, b, v);
    }
  }
}
