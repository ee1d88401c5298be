/**
  What one round of the join and union loops does to the meaning of the streams.
 */
module Rounds {
  import opened Wrappers
  import opened RowNumbers
  import opened Cogroup

  lemma {:induction false} TruncatedSeek(d: nat, t: RowNumber, s: seq<Result>)
    requires d < LEVELS
    ensures DropBelow(d, Truncate(d, t), s) == DropBelow(d, t, s)
  {
    if s != [] {
      TruncateKeeps(d, t, s[0].rowNumber);
      TruncatedSeek(d, t, s[1..]);
    }
  }

  lemma {:induction false} FlatSnoc(g: Streams, i: nat)
    requires i < |g|
    ensures Flat(g[..i + 1]) == Flat(g[..i]) + g[i]
  {
    if i == 0 {
      assert g[..1] == [g[0]] && g[..1][1..] == [];
    } else {
      assert g[..i + 1][1..] == g[1..][..i] && g[..i][1..] == g[1..][..i - 1];
      FlatSnoc(g[1..], i - 1);
      assert g[1..][i - 1] == g[i];
    }
  }

  /** The required children from 0 on all point at the key of child 0. */
  ghost predicate Aligned(required: nat, d: nat, S: Streams, k: RowNumber)
    requires d < LEVELS
  {
    && 0 < required <= |S|
    && (forall i :: 0 <= i < required ==> S[i] != [] && Compare(d, S[i][0].rowNumber, k) == 0)
    && S[0][0].rowNumber == k
  }

  lemma SeekSorted(e: nat, d: nat, t: RowNumber, S: Streams)
    requires d < LEVELS && e < LEVELS && AllSorted(e, S)
    ensures AllSorted(e, SeekAll(d, t, S)) && Size(SeekAll(d, t, S)) <= Size(S)
  {
    forall i | 0 <= i < |S| ensures SortedAt(e, DropBelow(d, t, S[i])) && |DropBelow(d, t, S[i])| <= |S[i]| {
      DropBelowSorted(e, d, t, S[i]);
    }
    Smaller(SeekAll(d, t, S), S);
  }

  lemma {:induction false} SeekReaches(d: nat, t: RowNumber, s: seq<Result>)
    requires d < LEVELS
    ensures var u := DropBelow(d, t, s); u != [] ==> Compare(d, t, u[0].rowNumber) <= 0
  {
    if s != [] {
      Order(d, s[0].rowNumber, t, t);
      SeekReaches(d, t, s[1..]);
    }
  }

  lemma LowestIsFirst(d: nat, S: Streams, k: RowNumber)
    requires d < LEVELS && S != [] && S[0] != [] && S[0][0].rowNumber == k && HeadsFrom(d, k, 0, S)
    ensures Lowest(d, S) == k
  {
    var i := LowestOf(d, S, |S|).value;
    if i > 0 {
      Order(d, k, S[i][0].rowNumber, k);
    }
  }

  /** An aligned key, once the optional children are sought to it, is the lowest one. */
  lemma AlignedLowest(required: nat, d: nat, S: Streams, k: RowNumber)
    requires d < LEVELS && Aligned(required, d, S, k)
    ensures Aligned(required, d, SeekAll(d, k, S), k)
    ensures Lowest(d, SeekAll(d, k, S)) == k
  {
    var T: Streams := SeekAll(d, k, S);
    assert forall i :: 0 <= i < required ==> T[i] == S[i];
    forall i | 0 <= i < |T| && T[i] != [] ensures Compare(d, k, T[i][0].rowNumber) <= 0 {
      SeekReaches(d, k, S[i]);
    }
    LowestIsFirst(d, T, k);
  }

  /** A successful match: the group of the aligned key is next in the output, if it is kept. */
  lemma Matched(required: nat, d: nat, S: Streams, keep: Result -> bool, k: RowNumber)
    requires d < LEVELS && Aligned(required, d, S, k) && AllSorted(d, S)
    ensures var T := SeekAll(d, k, S);
      var r := Result(k, Entries(Flat(Members(d, k, T))));
      var rest := Meaning(required, d, Advance(d, k, T), keep);
      && Meaning(required, d, S, keep) == (if keep(r) then [r] + rest else rest)
      && Size(Advance(d, k, T)) < Size(S)
      && HeadsFrom(d, k, -1, Advance(d, k, T)) && AllSorted(d, Advance(d, k, T))
  {
    var T: Streams := SeekAll(d, k, S);
    Order(d, S[0][0].rowNumber, k, k);
    SkipBelow(required, d, S, keep, k, 0);
    AlignedLowest(required, d, S, k);
    SeekSorted(d, d, k, S);
    AdvanceShrinks(d, T);
    AdvanceSorted(d, T);
    CombineRow(d, T);
    assert Present(required, Members(d, k, T));
  }

  /** A mismatch: leaping to the highest head keeps the meaning and makes progress. */
  lemma Leaped(required: nat, d: nat, S: Streams, keep: Result -> bool, lo: nat, hi: nat)
    requires d < LEVELS && lo < required <= |S| && hi < required && AllSorted(d, S)
    requires S[lo] != [] && S[hi] != [] && Compare(d, S[lo][0].rowNumber, S[hi][0].rowNumber) < 0
    ensures var T := SeekAll(d, S[hi][0].rowNumber, S);
      Meaning(required, d, T, keep) == Meaning(required, d, S, keep) && Size(T) < Size(S)
  {
    var t := S[hi][0].rowNumber;
    Order(d, t, t, t);
    SkipBelow(required, d, S, keep, t, hi);
    SeekShrinks(d, t, S, lo);
  }

  lemma SeekShrinks(d: nat, t: RowNumber, S: Streams, lo: nat)
    requires d < LEVELS && lo < |S| && S[lo] != [] && Compare(d, S[lo][0].rowNumber, t) < 0
    ensures Size(SeekAll(d, t, S)) < Size(S)
  {
    forall i | 0 <= i < |S| ensures |DropBelow(d, t, S[i])| <= |S[i]| {
      DropBelowSorted(d, d, t, S[i]);
    }
    DropBelowSorted(d, d, t, S[lo][1..]);
    assert |SeekAll(d, t, S)[lo]| < |S[lo]|;
    Smaller(SeekAll(d, t, S), S);
  }

  /** After a rejected match the final seek finds every child already past the key. */
  lemma Discarded(d: nat, k: RowNumber, t: RowNumber, T: Streams)
    requires d < LEVELS && HeadsFrom(d, k, -1, T) && Compare(d, t, k) == 0
    ensures SeekAll(d, t, T) == T
  {
    forall i | 0 <= i < |T| && T[i] != [] ensures Compare(d, t, T[i][0].rowNumber) <= 0 {
      Order(d, t, k, T[i][0].rowNumber);
    }
    SeekNothing(d, t, T);
  }

  /** A union round: the lowest group is next in the output, if it is kept. */
  lemma Merged(d: nat, S: Streams, keep: Result -> bool)
    requires d < LEVELS && !Exhausted(S) && AllSorted(d, S)
    ensures var k := Lowest(d, S);
      var r := Result(k, Entries(Flat(Members(d, k, S))));
      var rest := Meaning(0, d, Advance(d, k, S), keep);
      && Meaning(0, d, S, keep) == (if keep(r) then [r] + rest else rest)
      && Size(Advance(d, k, S)) < Size(S)
  {
    AdvanceShrinks(d, S);
    CombineRow(d, S);
  }

  // ---------- Surveying the heads ----------

  /** The variables of a pass over the heads: the rows found, and where. */
  datatype Pass = Pass(lowest: RowNumber, highest: RowNumber, ties: nat, low: nat, hi: nat, lo: nat)

  /**
    What a pass over the first n heads has established: low is the first of the lowest
    heads and ties of them equal it, hi is a highest head, and unless all tie, head lo
    lies strictly below hi.
   */
  ghost predicate Surveyed(d: nat, S: Streams, n: nat, p: Pass)
    requires d < LEVELS
  {
    && p.low < n <= |S| && p.hi < n && p.ties <= n
    && (forall j :: 0 <= j < n ==> S[j] != [])
    && p.lowest == S[p.low][0].rowNumber && p.highest == S[p.hi][0].rowNumber
    && (forall j :: 0 <= j < n ==> Compare(d, p.lowest, S[j][0].rowNumber) <= 0)
    && (forall j :: 0 <= j < n ==> Compare(d, S[j][0].rowNumber, p.highest) <= 0)
    && (p.ties == n ==> p.low == 0 && forall j :: 0 <= j < n ==> Compare(d, S[j][0].rowNumber, p.lowest) == 0)
    && (p.ties < n ==> p.lo < n && Compare(d, S[p.lo][0].rowNumber, p.highest) < 0)
  }

  /** All required heads tie: the group of their key is next if it is kept, and the final seek finds nothing to skip. */
  lemma MatchRound(required: nat, d: nat, S: Streams, keep: Result -> bool, p: Pass)
    requires d < LEVELS && 0 < required && Surveyed(d, S, required, p) && p.ties == required && AllSorted(d, S)
    ensures Aligned(required, d, S, p.lowest)
    ensures var T := SeekAll(d, p.lowest, S);
      var r, U := Result(p.lowest, Entries(Flat(Members(d, p.lowest, T)))), Advance(d, p.lowest, T);
      && Meaning(required, d, S, keep) == (if keep(r) then [r] else []) + Meaning(required, d, U, keep)
      && Size(U) < Size(S) && SeekAll(d, p.highest, U) == U
  {
    hide SeekAll, Advance, Members, Flat, Entries, Meaning, Size;
    Matched(required, d, S, keep, p.lowest);
    Order(d, p.highest, p.lowest, p.lowest);
    Discarded(d, p.lowest, p.highest, Advance(d, p.lowest, SeekAll(d, p.lowest, S)));
  }

  /** They do not: the leap to the highest head changes nothing and makes progress. */
  lemma LeapRound(required: nat, d: nat, S: Streams, keep: Result -> bool, p: Pass)
    requires d < LEVELS && 0 < required && Surveyed(d, S, required, p) && p.ties != required && AllSorted(d, S)
    ensures var T := SeekAll(d, p.highest, S); Meaning(required, d, T, keep) == Meaning(required, d, S, keep) && Size(T) < Size(S)
  {
    hide SeekAll, Meaning, Size;
    Leaped(required, d, S, keep, p.lo, p.hi);
  }

  /** The loop body: compare the n-th head with the lowest and highest rows so far. */
  ghost function Look(d: nat, row: RowNumber, n: nat, p: Pass): Pass
    requires d < LEVELS
  {
    var c, h := Compare(d, row, p.lowest), Compare(d, row, p.highest);
    Pass(if c < 0 then row else p.lowest,
         if h > 0 then row else p.highest,
         if c < 0 then 1 else if c == 0 then p.ties + 1 else p.ties,
         if c < 0 then n else p.low,
         if h > 0 then n else p.hi,
         if n == 0 then 0 else if c < 0 then n else if c > 0 then p.low else p.lo)
  }

  lemma SurveyFirst(d: nat, S: Streams)
    requires d < LEVELS && S != [] && S[0] != [] && Valid(S[0][0].rowNumber)
    ensures Surveyed(d, S, 1, Look(d, S[0][0].rowNumber, 0, Pass(MAX, EMPTY, 0, 0, 0, 0)))
  {
    var x := S[0][0].rowNumber;
    Order(d, x, x, x);
    assert Compare(d, x, MAX) < 0 < Compare(d, x, EMPTY);
  }

  lemma SurveyNext(d: nat, S: Streams, n: nat, p: Pass)
    requires d < LEVELS && Surveyed(d, S, n, p) && n < |S| && S[n] != []
    ensures Surveyed(d, S, n + 1, Look(d, S[n][0].rowNumber, n, p))
  {
    var x, a, b := S[n][0].rowNumber, p.lowest, p.highest;
    Order(d, x, a, b);
    Order(d, x, b, x);
    Order(d, a, x, b);
    Order(d, x, x, x);
    forall j | 0 <= j < n
      ensures Compare(d, x, a) < 0 ==> Compare(d, x, S[j][0].rowNumber) < 0
      ensures Compare(d, x, b) > 0 ==> Compare(d, S[j][0].rowNumber, x) < 0
    {
      Order(d, x, a, S[j][0].rowNumber);
      Order(d, S[j][0].rowNumber, b, x);
    }
    if p.ties < n {
      Order(d, S[p.lo][0].rowNumber, b, x);
    }
  }

  // ---------- Gathering the lowest heads ----------

  /** What a union pass over the first n heads has found: the lowest row and every stream pointing at it. */
  ghost predicate Gathered(d: nat, S: Streams, n: nat, lowest: RowNumber, nums: seq<nat>)
    requires d < LEVELS
  {
    && n <= |S|
    && (LowestOf(d, S, n) == None ==> lowest == MAX && nums == [])
    && (LowestOf(d, S, n).Some? ==> lowest == S[LowestOf(d, S, n).value][0].rowNumber && nums != [])
    && (forall j :: 0 <= j < n && j !in nums ==> S[j] == [] || Compare(d, S[j][0].rowNumber, lowest) != 0)
  }

  lemma GatherNext(d: nat, S: Streams, n: nat, lowest: RowNumber, nums: seq<nat>)
    requires d < LEVELS && Gathered(d, S, n, lowest, nums) && n < |S|
    requires S[n] != [] ==> Valid(S[n][0].rowNumber)
    ensures S[n] == [] ==> Gathered(d, S, n + 1, lowest, nums)
    ensures S[n] != [] ==>
      var c := Compare(d, S[n][0].rowNumber, lowest);
      Gathered(d, S, n + 1, if c < 0 then S[n][0].rowNumber else lowest,
               if c < 0 then [n] else if c == 0 then nums + [n] else nums)
  {
    if S[n] != [] {
      var x := S[n][0].rowNumber;
      if LowestOf(d, S, n) == None {
        assert Compare(d, x, MAX) < 0;
      } else if Compare(d, x, lowest) < 0 {
        forall j | 0 <= j < n && S[j] != [] ensures Compare(d, S[j][0].rowNumber, x) != 0 {
          Order(d, x, lowest, S[j][0].rowNumber);
          Order(d, x, S[j][0].rowNumber, x);
        }
      }
    }
  }

  lemma GatherNone(d: nat, S: Streams)
    requires d < LEVELS
    ensures Gathered(d, S, 0, MAX, [])
  {
  }

  lemma GatherDone(required: nat, d: nat, S: Streams, keep: Result -> bool, lowest: RowNumber, nums: seq<nat>)
    requires d < LEVELS && required <= |S| && Gathered(d, S, |S|, lowest, nums)
    ensures nums == [] ==> Exhausted(S) && Meaning(required, d, S, keep) == []
    ensures nums != [] ==> !Exhausted(S) && lowest == Lowest(d, S)
    ensures forall j :: 0 <= j < |S| && j !in nums ==> S[j] == [] || Compare(d, S[j][0].rowNumber, lowest) != 0
  {
  }

  // ---------- Collecting ----------

  lemma CollectStep(g: Streams, i: nat)
    requires i < |g|
    ensures Entries(Flat(g[..i + 1])) == Entries(Flat(g[..i])) + Entries(g[i])
  {
    FlatSnoc(g, i);
    EntriesConcat(Flat(g[..i]), g[i]);
  }

  lemma NotListed(d: nat, k: RowNumber, s: seq<Result>)
    requires d < LEVELS && (s == [] || Compare(d, s[0].rowNumber, k) != 0)
    ensures DropKey(d, k, s) == s && Entries(TakeKey(d, k, s)) == []
  {
  }

  // ---------- Where the contract ends ----------

  /** Seeking the children and then combining is combining and then seeking. */
  ghost predicate SeekExact(e: nat, d: nat, S: Streams, t: RowNumber, keep: Result -> bool)
    requires e < LEVELS && d < LEVELS && |S| > 0
  {
    Meaning(1, e, SeekAll(d, t, S), keep) == DropBelow(d, t, Meaning(1, e, S, keep))
  }

  lemma FinerSorted(e: nat, S: Streams)
    requires e < LEVELS && AllSorted(5, S)
    ensures AllSorted(e, S)
  {
    forall i, x, y | 0 <= i < |S| && 0 <= x < y < |S[i]| ensures Compare(e, S[i][x].rowNumber, S[i][y].rowNumber) <= 0 {
      assert Compare(5, S[i][x].rowNumber, S[i][y].rowNumber) <= 0;
      Coarser(e, 5, S[i][x].rowNumber, S[i][y].rowNumber);
    }
  }

  /**
    A seek through an unfiltered join is exact on all sorted streams if and only if its
    level is not finer than the iterator's own.
   */
  lemma SeekExactIff(e: nat, d: nat, keep: Result -> bool)
    requires e < LEVELS && d < LEVELS && forall r :: keep(r)
    ensures (forall S: Streams, t: RowNumber {:trigger SeekExact(e, d, S, t, keep)} ::
               |S| > 0 && AllSorted(5, S) ==> SeekExact(e, d, S, t, keep))
            <==> d <= e
  {
    if d <= e {
      forall S: Streams, t: RowNumber | |S| > 0 && AllSorted(5, S) ensures SeekExact(e, d, S, t, keep) {
        FinerSorted(e, S);
        SeekCommutes(1, e, S, keep, d, t);
      }
    } else {
      var S, t := SeekTooFine(e, d, keep);
      assert !SeekExact(e, d, S, t, keep);
    }
  }

  /**
    Seeking the children at a level finer than the iterator's own is not seeking the
    output: for every such pair of levels there are streams on which the two differ.
   */
  lemma SeekTooFine(e: nat, d: nat, keep: Result -> bool) returns (S: Streams, t: RowNumber)
    requires e < d < LEVELS && forall r :: keep(r)
    ensures |S| == 1 && AllSorted(5, S) && !SeekExact(e, d, S, t, keep)
  {
    var a: RowNumber := [0, 0, 0, 0, 0, 0];
    t := a[e + 1 := 1];
    var x, y := Result(a, []), Result(t, []);
    var T: Streams;
    S, T := [[x, y]], [[y]];
    SiblingRows(e, d, a, t);
    assert AllSorted(5, S);
    SeekSecond(d, t, x, y);
    assert SeekAll(d, t, S) == T;
    OnlyGroup(e, T, keep);
    OnlyGroup(e, S, keep);
    SeekOnly(d, t, Meaning(1, e, S, keep));
  }

  lemma SeekOnly(d: nat, t: RowNumber, s: seq<Result>)
    requires d < LEVELS && |s| == 1 && Compare(d, s[0].rowNumber, t) < 0
    ensures DropBelow(d, t, s) == []
  {
    assert s[1..] == [];
  }

  lemma SeekSecond(d: nat, t: RowNumber, x: Result, y: Result)
    requires d < LEVELS && Compare(d, x.rowNumber, t) < 0 == Compare(d, y.rowNumber, t)
    ensures DropBelow(d, t, [x, y]) == [y]
  {
    assert [x, y][1..] == [y];
  }

  lemma SiblingRows(e: nat, d: nat, a: RowNumber, b: RowNumber)
    requires e < d < LEVELS && b == a[e + 1 := a[e + 1] + 1]
    ensures Compare(e, a, b) == 0 && Compare(e, b, a) == 0 && Compare(e, a, a) == 0 && Compare(e, b, b) == 0
    ensures Compare(d, a, b) < 0 && Compare(5, a, b) < 0 && Compare(d, b, b) == 0
  {
    CompareMeaning(e, a, b);
    CompareMeaning(d, a, b);
    CompareMeaning(5, a, b);
    assert a[..e + 1] == b[..e + 1];
    assert a[e + 1] < b[e + 1];
    Order(e, a, a, b);
    Order(e, a, b, b);
    Order(e, b, b, a);
    Order(d, b, b, a);
  }

  /** A single stream that is one group: one result, carrying the row of its first member. */
  lemma OnlyGroup(e: nat, S: Streams, keep: Result -> bool)
    requires e < LEVELS && |S| == 1 && S[0] != [] && forall r :: keep(r)
    requires forall i :: 0 <= i < |S[0]| ==> Compare(e, S[0][i].rowNumber, S[0][0].rowNumber) == 0
    ensures |Meaning(1, e, S, keep)| == 1 && Meaning(1, e, S, keep)[0].rowNumber == S[0][0].rowNumber
  {
    var k := S[0][0].rowNumber;
    assert Lowest(e, S) == k;
    AdvanceShrinks(e, S);
    AllTaken(e, k, S[0]);
    CombineRow(e, S);
    assert Exhausted(Advance(e, k, S));
    assert Members(e, k, S)[0] != [];
  }

  lemma {:induction false} AllTaken(e: nat, k: RowNumber, s: seq<Result>)
    requires e < LEVELS && forall i :: 0 <= i < |s| ==> Compare(e, s[i].rowNumber, k) == 0
    ensures DropKey(e, k, s) == []
  {
    if s != [] {
      AllTaken(e, k, s[1..]);
    }
  }
}
