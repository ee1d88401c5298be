/**
  Dremel-style row numbers (pkg/parquetquery/iters.go): a fixed array of six
  indices, one per level of nesting, -1 where the level is undefined.

  The functions are the vocabulary of every other query module; the methods are
  the loops of the source, proved against them.
 */
module RowNumbers {

  const LEVELS := 6
  const MAX_INT64 := 0x7FFF_FFFF_FFFF_FFFF

  type RowNumber = t: seq<int> | |t| == LEVELS witness [-1, -1, -1, -1, -1, -1]

  const EMPTY: RowNumber := [-1, -1, -1, -1, -1, -1]
  const MAX: RowNumber := [MAX_INT64, 0, 0, 0, 0, 0]

  /** Row numbers that a column produces: a defined root row below the sentinel MAX. */
  predicate Valid(t: RowNumber) {
    0 <= t[0] < MAX_INT64
  }

  // ---------- Comparison ----------

  function CompareFrom(i: nat, d: nat, a: RowNumber, b: RowNumber): int
    requires d < LEVELS
    decreases d + 1 - i
  {
    if i > d then 0
    else if a[i] < b[i] then -1
    else if a[i] > b[i] then 1
    else CompareFrom(i + 1, d, a, b)
  }

  /** Three-way comparison of the two lineages from the root down to level d. */
  function Compare(d: nat, a: RowNumber, b: RowNumber): int
    requires d < LEVELS
  {
    CompareFrom(0, d, a, b)
  }

  /** The position of the first difference decides; no difference means equal lineages. */
  lemma {:induction false} CompareFromMeaning(i: nat, d: nat, a: RowNumber, b: RowNumber)
    requires i <= d + 1 <= LEVELS
    requires a[..i] == b[..i]
    ensures CompareFrom(i, d, a, b) == 0 <==> a[..d + 1] == b[..d + 1]
    ensures CompareFrom(i, d, a, b) < 0 <==> exists n :: i <= n <= d && a[..n] == b[..n] && a[n] < b[n]
    ensures CompareFrom(i, d, a, b) > 0 <==> exists n :: i <= n <= d && a[..n] == b[..n] && a[n] > b[n]
    ensures CompareFrom(i, d, a, b) in {-1, 0, 1}
    decreases d + 1 - i
  {
    if i <= d {
      if a[i] == b[i] {
        assert a[..i + 1] == a[..i] + [a[i]] && b[..i + 1] == b[..i] + [b[i]];
        CompareFromMeaning(i + 1, d, a, b);
      } else {
        forall n | i < n <= d + 1 ensures a[..n] != b[..n] {
          assert a[..n][i] == a[i] && b[..n][i] == b[i];
        }
      }
    }
  }

  lemma CompareMeaning(d: nat, a: RowNumber, b: RowNumber)
    requires d < LEVELS
    ensures Compare(d, a, b) == 0 <==> a[..d + 1] == b[..d + 1]
    ensures Compare(d, a, b) < 0 <==> exists n :: 0 <= n <= d && a[..n] == b[..n] && a[n] < b[n]
    ensures Compare(d, a, b) > 0 <==> exists n :: 0 <= n <= d && a[..n] == b[..n] && a[n] > b[n]
    ensures Compare(d, a, b) in {-1, 0, 1}
  {
    CompareFromMeaning(0, d, a, b);
  }

  lemma {:induction false} CompareFlip(i: nat, d: nat, a: RowNumber, b: RowNumber)
    requires d < LEVELS
    ensures CompareFrom(i, d, b, a) == -CompareFrom(i, d, a, b)
    decreases d + 1 - i
  {
    if i <= d {
      CompareFlip(i + 1, d, a, b);
    }
  }

  lemma {:induction false} CompareTransFrom(i: nat, d: nat, a: RowNumber, b: RowNumber, c: RowNumber)
    requires d < LEVELS
    requires CompareFrom(i, d, a, b) <= 0 && CompareFrom(i, d, b, c) <= 0
    ensures CompareFrom(i, d, a, c) <= 0
    ensures CompareFrom(i, d, a, c) == 0 <==> CompareFrom(i, d, a, b) == 0 && CompareFrom(i, d, b, c) == 0
    decreases d + 1 - i
  {
    if i <= d && a[i] == b[i] == c[i] {
      CompareTransFrom(i + 1, d, a, b, c);
    }
  }

  /** Compare(d, ., .) is a total preorder whose classes are the lineages down to level d. */
  lemma Order(d: nat, a: RowNumber, b: RowNumber, c: RowNumber)
    requires d < LEVELS
    ensures Compare(d, a, a) == 0
    ensures Compare(d, b, a) == -Compare(d, a, b)
    ensures Compare(d, a, b) <= 0 && Compare(d, b, c) <= 0 ==> Compare(d, a, c) <= 0
    ensures Compare(d, a, b) <= 0 && Compare(d, b, c) < 0 ==> Compare(d, a, c) < 0
    ensures Compare(d, a, b) < 0 && Compare(d, b, c) <= 0 ==> Compare(d, a, c) < 0
    ensures Compare(d, a, b) == 0 && Compare(d, b, c) == 0 ==> Compare(d, a, c) == 0
  {
    CompareMeaning(d, a, a);
    CompareFlip(0, d, a, b);
    if Compare(d, a, b) <= 0 && Compare(d, b, c) <= 0 {
      CompareTransFrom(0, d, a, b, c);
    }
  }

  lemma {:induction false} CoarserFrom(i: nat, d: nat, e: nat, a: RowNumber, b: RowNumber)
    requires d <= e < LEVELS
    ensures CompareFrom(i, d, a, b) != 0 ==> CompareFrom(i, e, a, b) == CompareFrom(i, d, a, b)
    decreases d + 1 - i
  {
    if i <= d {
      CoarserFrom(i + 1, d, e, a, b);
    }
  }

  /** A strict answer at a coarse level is the answer at every finer level. */
  lemma Coarser(d: nat, e: nat, a: RowNumber, b: RowNumber)
    requires d <= e < LEVELS
    ensures Compare(d, a, b) != 0 ==> Compare(e, a, b) == Compare(d, a, b)
    ensures Compare(e, a, b) <= 0 ==> Compare(d, a, b) <= 0
    ensures Compare(e, a, b) >= 0 ==> Compare(d, a, b) >= 0
    ensures Compare(e, a, b) == 0 ==> Compare(d, a, b) == 0
  {
    CoarserFrom(0, d, e, a, b);
  }

  method CompareRowNumbers(upToDefinitionLevel: nat, a: RowNumber, b: RowNumber) returns (c: int)
    requires upToDefinitionLevel < LEVELS
    ensures c == Compare(upToDefinitionLevel, a, b)
  {
    for i := 0 to upToDefinitionLevel + 1
      invariant Compare(upToDefinitionLevel, a, b) == CompareFrom(i, upToDefinitionLevel, a, b)
    {
      if a[i] < b[i] {
        return -1;
      }
      if a[i] > b[i] {
        return 1;
      }
    }
    return 0;
  }

  // ---------- Truncation ----------

  function Truncate(d: nat, t: RowNumber): RowNumber
    requires d < LEVELS
  {
    seq(LEVELS, i requires 0 <= i < LEVELS => if i <= d then t[i] else -1)
  }

  lemma {:induction false} TruncateKeepsFrom(i: nat, d: nat, e: nat, t: RowNumber, a: RowNumber)
    requires d <= e < LEVELS
    ensures CompareFrom(i, d, a, Truncate(e, t)) == CompareFrom(i, d, a, t)
    decreases d + 1 - i
  {
    if i <= d {
      TruncateKeepsFrom(i + 1, d, e, t, a);
    }
  }

  /** A truncated target compares as the whole one at every level that was kept. */
  lemma TruncateKeeps(d: nat, t: RowNumber, a: RowNumber)
    requires d < LEVELS
    ensures Compare(d, a, Truncate(d, t)) == Compare(d, a, t)
  {
    TruncateKeepsFrom(0, d, d, t, a);
  }

  /** Truncations are equal exactly for row numbers that agree up to the level. */
  lemma TruncateMeaning(d: nat, a: RowNumber, b: RowNumber)
    requires d < LEVELS
    ensures Truncate(d, a) == Truncate(d, b) <==> Compare(d, a, b) == 0
    ensures Truncate(d, Truncate(d, a)) == Truncate(d, a) && Compare(d, Truncate(d, a), a) == 0
    ensures forall i :: d < i < LEVELS ==> Truncate(d, a)[i] == -1
  {
    CompareMeaning(d, a, b);
    CompareMeaning(d, Truncate(d, a), a);
    if a[..d + 1] == b[..d + 1] {
      assert forall i :: 0 <= i <= d ==> a[i] == a[..d + 1][i] == b[..d + 1][i] == b[i];
    }
    if Truncate(d, a) == Truncate(d, b) {
      assert forall i :: 0 <= i <= d ==> a[i] == Truncate(d, a)[i] == b[i];
    }
  }

  /** A skip lands on the row itself, none of whose children are set. */
  lemma SkipMeaning(t: RowNumber, numRows: int)
    ensures Skip(t, numRows)[0] == t[0] + numRows && Truncate(0, Skip(t, numRows)) == Skip(t, numRows)
  {
  }


  method TruncateRowNumber(definitionLevelToKeep: nat, t: RowNumber) returns (n: RowNumber)
    requires definitionLevelToKeep < LEVELS
    ensures n == Truncate(definitionLevelToKeep, t)
  {
    n := EMPTY;
    for i := 0 to definitionLevelToKeep + 1
      invariant forall k :: 0 <= k < LEVELS ==> n[k] == if k < i then t[k] else -1
    {
      n := n[i := t[i]];
    }
  }

  // ---------- Advancing ----------

  /** The row number after a value with repetition level r and definition level d. */
  function Next(t: RowNumber, r: nat, d: nat): (n: RowNumber)
    requires r <= d < LEVELS
    ensures n[..r] == t[..r] && n[r] == t[r] + 1
  {
    seq(LEVELS, i requires 0 <= i < LEVELS =>
      if i < r then t[i] else if i == r then t[r] + 1 else if i <= d then 0 else -1)
  }

  /** The row number after passing over numRows root rows without reading them. */
  function Skip(t: RowNumber, numRows: int): RowNumber {
    [t[0] + numRows, -1, -1, -1, -1, -1]
  }

  /** Every value moves the row number strictly forward at the level it repeats. */
  lemma NextAdvances(t: RowNumber, r: nat, d: nat, e: nat)
    requires r <= d < LEVELS && e < LEVELS
    ensures r <= e ==> Compare(e, t, Next(t, r, d)) < 0
    ensures e < r ==> Compare(e, t, Next(t, r, d)) == 0
  {
    var n := Next(t, r, d);
    CompareMeaning(e, t, n);
    if r <= e {
      assert t[..r] == n[..r] && t[r] < n[r];
    } else {
      assert t[..e + 1] == t[..r][..e + 1] && n[..e + 1] == n[..r][..e + 1];
    }
  }

  /** A root value sees nothing of its predecessor but the root index. */
  lemma NextAtRoot(t: RowNumber, u: RowNumber, d: nat)
    requires d < LEVELS && t[0] == u[0]
    ensures Next(t, 0, d) == Next(u, 0, d)
  {
  }

  method NextInPlace(t: array<int>, repetitionLevel: nat, definitionLevel: nat)
    requires t.Length == LEVELS && repetitionLevel <= definitionLevel < LEVELS
    modifies t
    ensures t[..] == Next(old(t[..]), repetitionLevel, definitionLevel)
  {
    t[repetitionLevel] := t[repetitionLevel] + 1;
    ghost var bumped := t[..];
    for i := repetitionLevel + 1 to definitionLevel + 1
      invariant forall k :: 0 <= k < LEVELS ==> t[k] == if repetitionLevel < k < i then 0 else bumped[k]
    {
      t[i] := 0;
    }
    for i := definitionLevel + 1 to t.Length
      invariant forall k :: 0 <= k < LEVELS ==>
        t[k] == if repetitionLevel < k <= definitionLevel then 0 else if definitionLevel < k < i then -1 else bumped[k]
    {
      t[i] := -1;
    }
  }

  method SkipInPlace(t: array<int>, numRows: int)
    requires t.Length == LEVELS
    modifies t
    ensures t[..] == Skip(old(t[..]), numRows)
  {
    t[0] := t[0] + numRows;
    for i := 1 to t.Length
      invariant t[0] == old(t[0]) + numRows
      invariant forall k :: 1 <= k < i ==> t[k] == -1
    {
      t[i] := -1;
    }
  }
}
