/**
  What the verdicts of pushdown predicates mean (pkg/parquetquery/predicates.go), apart
  from how they are put together: bounds are consulted as sharply as they allow, and each
  kind of predicate looks at the part of a page that the source looks at.
 */
module Verdicts {
  import opened Wrappers
  import opened Parquet
  import opened Predicates
  import opened Nulls

  // ---------- Orders and texts ----------

  predicate Prefix(a: Bytes, b: Bytes) {
    |a| <= |b| && a == b[..|a|]
  }

  /** The strings agree up to position n, where the first one is smaller. */
  predicate SmallerAt(a: Bytes, b: Bytes, n: nat) {
    n < |a| && n < |b| && a[..n] == b[..n] && a[n] < b[n]
  }

  /** A common first byte may be taken off. */
  lemma SameFirst(a: Bytes, b: Bytes)
    requires a != [] && b != [] && a[0] == b[0]
    ensures Prefix(a, b) <==> Prefix(a[1..], b[1..])
    ensures forall n: nat :: SmallerAt(a[1..], b[1..], n) <==> SmallerAt(a, b, n + 1)
    ensures !SmallerAt(a, b, 0)
  {
    if |a| <= |b| {
      assert b[..|a|] == [b[0]] + b[1..][..|a| - 1] && a == [a[0]] + a[1..];
      assert b[1..][..|a| - 1] == b[..|a|][1..];
    }
    forall n: nat | n + 1 <= |a| && n + 1 <= |b|
      ensures a[1..][..n] == b[1..][..n] <==> a[..n + 1] == b[..n + 1]
    {
      assert a[..n + 1] == [a[0]] + a[1..][..n] && b[..n + 1] == [b[0]] + b[1..][..n];
      assert a[1..][..n] == a[..n + 1][1..] && b[1..][..n] == b[..n + 1][1..];
    }
  }

  lemma OtherFirst(a: Bytes, b: Bytes)
    requires a != [] && b != [] && a[0] != b[0]
    ensures !Prefix(a, b) && (SmallerAt(a, b, 0) <==> a[0] < b[0])
    ensures forall n: nat :: n > 0 ==> !SmallerAt(a, b, n)
  {
    if |a| <= |b| {
      assert b[..|a|][0] == b[0];
    }
    forall n: nat | 0 < n <= |a| && n <= |b| ensures a[..n] != b[..n] {
      assert a[..n][0] == a[0] && b[..n][0] == b[0];
    }
  }

  /** bytes.Compare(a, b) <= 0 is the lexicographic order: a prefix, or smaller at the first difference. */
  lemma {:induction false} BytesOrder(a: Bytes, b: Bytes)
    ensures BytesAtMost(a, b) <==> Prefix(a, b) || exists n: nat :: SmallerAt(a, b, n)
  {
    if a != [] && b != [] {
      if a[0] == b[0] {
        SameFirst(a, b);
        BytesOrder(a[1..], b[1..]);
        if n: nat :| SmallerAt(a, b, n) {
          assert n > 0 && SmallerAt(a[1..], b[1..], n - 1);
        }
      } else {
        OtherFirst(a, b);
      }
    }
  }

  /** strings.Contains: the text can be split around the substring. */
  lemma ContainsMeaning(s: string, sub: string)
    ensures Contains(s, sub) <==> exists before, after :: s == before + sub + after
  {
    if Contains(s, sub) {
      var i :| 0 <= i <= |s| && OccursAt(s, sub, i);
      assert s == s[..i] + sub + s[i + |sub|..];
    }
    if before, after :| s == before + sub + after {
      assert OccursAt(s, sub, |before|);
    }
  }

  // ---------- Bounds ----------

  /** A test that some value can pass. */
  predicate Passable(t: Test) {
    (t.IntBetween? ==> t.min <= t.max) && (t.FloatBetween? ==> t.fmin <= t.fmax)
  }

  /** A range of a single value is kept exactly if the value is. */
  lemma PointRange(t: Test, v: Value)
    requires Ranged(t) && !t.Generic?
    ensures RangeKeeps(t, Bounds(v, v)) <==> LeafKeeps(t, v)
  {
    if t.StringIn? {
      BytesAtMostSelf(v.bytes);
      if i :| 0 <= i < |t.ss| && BytesAtMost(v.bytes, t.ss[i]) && BytesAtMost(t.ss[i], v.bytes) {
        BytesBetween(v.bytes, t.ss[i]);
      }
      if LeafKeeps(t, v) {
        var i :| 0 <= i < |t.ss| && t.ss[i] == v.bytes;
        assert BytesAtMost(v.bytes, t.ss[i]) && BytesAtMost(t.ss[i], v.bytes);
      }
    }
  }

  ghost predicate SomeKept(t: Test, b: Bounds)
    requires !t.Or?
  {
    exists v :: Within(v, b) && LeafKeeps(t, v)
  }

  /** Bounds are kept exactly if they leave room for a kept value: no chunk or page is read in vain as far as bounds tell. */
  lemma RangeExact(t: Test, b: Bounds)
    requires Ranged(t) && !t.Generic? && Passable(t) && Ordered(b)
    ensures RangeKeeps(t, b) <==> SomeKept(t, b)
  {
    if RangeKeeps(t, b) {
      var v := b.min;
      match t {
        case IntBetween(min, max) =>
          v := v.(int64 := if min > b.min.int64 then min else b.min.int64);
        case FloatBetween(min, max) =>
          v := v.(double := if min > b.min.double then min else b.min.double);
        case StringIn(ss) =>
          var i :| 0 <= i < |ss| && BytesAtMost(b.min.bytes, ss[i]) && BytesAtMost(ss[i], b.max.bytes);
          v := v.(bytes := ss[i]);
      }
      assert Within(v, b) && LeafKeeps(t, v);
    }
    if SomeKept(t, b) {
      var v :| Within(v, b) && LeafKeeps(t, v);
      RangeSound(t, b, v);
    }
  }

  // ---------- Which part of a page is looked at ----------

  ghost predicate InDictionaryKept(t: Test, p: Page)
    requires !t.Or?
  {
    p.dictionary == None || exists i :: 0 <= i < |p.dictionary.value| && LeafKeeps(t, p.dictionary.value[i])
  }

  /** Kind by kind, what decides over the first page of a row group. */
  lemma PageVerdicts(t: Test, p: Page)
    requires !t.Or?
    ensures t.StringIn? || t.RegexIn? || t.RegexNotIn? || t.Substring? ==> (LeafKeepsPage(t, p) <==> InDictionaryKept(t, p))
    ensures t.IntBetween? || t.FloatBetween? ==>
      (LeafKeepsPage(t, p) <==> p.bounds == None || RangeKeeps(t, p.bounds.value))
    ensures t.Generic? ==>
      (LeafKeepsPage(t, p) <==>
         if t.rangeFn.Some? && p.bounds.Some? then t.rangeFn.value(p.bounds.value.min.int64, p.bounds.value.max.int64)
         else InDictionaryKept(t, p))
    ensures t.SkipNils? ==> (LeafKeepsPage(t, p) <==> exists v :: v in p.values && !v.isNull)
  {
  }

  /** And over a column chunk. */
  lemma ChunkVerdicts(t: Test, g: RowGroup)
    requires !t.Or?
    ensures t.RegexIn? || t.RegexNotIn? || t.Substring? || t.SkipNils? || (t.Generic? && t.rangeFn == None) || g.index == None ==>
      LeafKeepsChunk(t, g)
    ensures (t.StringIn? || t.IntBetween? || t.FloatBetween? || (t.Generic? && t.rangeFn.Some?)) && g.index.Some? ==>
      (LeafKeepsChunk(t, g) <==> exists i :: 0 <= i < |g.index.value| && RangeKeeps(t, g.index.value[i]))
  {
  }
}
