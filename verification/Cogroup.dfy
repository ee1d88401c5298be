/**
  The naive meaning of the composed iterators: group the children's results by row
  number truncated to a definition level, keep the groups in which every required
  child is present and that the group predicate accepts, and emit them in order.

  JoinIterator requires all children, LeftJoinIterator the first few, UnionIterator
  none.
 */
module Cogroup {
  import opened Wrappers
  import opened RowNumbers
  import opened Parquet

  datatype Entry = Entry(key: string, value: Value)

  datatype Result = Result(rowNumber: RowNumber, entries: seq<Entry>)

  type Streams = seq<seq<Result>>

  // ---------- One stream ----------

  ghost predicate SortedAt(d: nat, s: seq<Result>)
    requires d < LEVELS
  {
    forall i, j {:trigger Compare(d, s[i].rowNumber, s[j].rowNumber)} :: 0 <= i < j < |s| ==> Compare(d, s[i].rowNumber, s[j].rowNumber) <= 0
  }

  ghost predicate StrictAt(d: nat, s: seq<Result>)
    requires d < LEVELS
  {
    forall i, j {:trigger Compare(d, s[i].rowNumber, s[j].rowNumber)} :: 0 <= i < j < |s| ==> Compare(d, s[i].rowNumber, s[j].rowNumber) < 0
  }

  /** What SeekTo(t, d) leaves of a sorted stream: its first result is the one returned. */
  ghost function DropBelow(d: nat, t: RowNumber, s: seq<Result>): seq<Result>
    requires d < LEVELS
  {
    if s != [] && Compare(d, s[0].rowNumber, t) < 0 then DropBelow(d, t, s[1..]) else s
  }

  ghost function TakeKey(d: nat, k: RowNumber, s: seq<Result>): seq<Result>
    requires d < LEVELS
  {
    if s != [] && Compare(d, s[0].rowNumber, k) == 0 then [s[0]] + TakeKey(d, k, s[1..]) else []
  }

  ghost function DropKey(d: nat, k: RowNumber, s: seq<Result>): (rest: seq<Result>)
    requires d < LEVELS
    ensures |rest| <= |s|
    ensures |rest| == |s| ==> rest == s
  {
    if s != [] && Compare(d, s[0].rowNumber, k) == 0 then DropKey(d, k, s[1..]) else s
  }

  /** The results whose lineage down to level d is that of k, wherever they are. */
  ghost function Matching(d: nat, k: RowNumber, s: seq<Result>): seq<Result>
    requires d < LEVELS
  {
    if s == [] then []
    else (if Compare(d, s[0].rowNumber, k) == 0 then [s[0]] else []) + Matching(d, k, s[1..])
  }

  lemma {:induction false} TakeDrop(d: nat, k: RowNumber, s: seq<Result>)
    requires d < LEVELS
    ensures s == TakeKey(d, k, s) + DropKey(d, k, s)
  {
    if s != [] && Compare(d, s[0].rowNumber, k) == 0 {
      TakeDrop(d, k, s[1..]);
    }
  }

  lemma {:induction false} DropKeySorted(e: nat, d: nat, k: RowNumber, s: seq<Result>)
    requires d < LEVELS && e < LEVELS && SortedAt(e, s)
    ensures SortedAt(e, DropKey(d, k, s))
  {
    if s != [] && Compare(d, s[0].rowNumber, k) == 0 {
      DropKeySorted(e, d, k, s[1..]);
    }
  }

  lemma {:induction false} DropBelowSorted(e: nat, d: nat, t: RowNumber, s: seq<Result>)
    requires d < LEVELS && e < LEVELS
    ensures SortedAt(e, s) ==> SortedAt(e, DropBelow(d, t, s))
    ensures StrictAt(e, s) ==> StrictAt(e, DropBelow(d, t, s))
    ensures |DropBelow(d, t, s)| <= |s|
    ensures DropBelow(d, t, s) == s[|s| - |DropBelow(d, t, s)|..]
    ensures forall i :: 0 <= i < |s| - |DropBelow(d, t, s)| ==> Compare(d, s[i].rowNumber, t) < 0
  {
    if s != [] && Compare(d, s[0].rowNumber, t) < 0 {
      DropBelowSorted(e, d, t, s[1..]);
    }
  }

  /** After the key is dropped, everything left lies strictly above it. */
  lemma {:induction false} DropKeyAbove(d: nat, k: RowNumber, s: seq<Result>)
    requires d < LEVELS && SortedAt(d, s)
    requires s != [] ==> Compare(d, k, s[0].rowNumber) <= 0
    ensures var rest := DropKey(d, k, s); rest != [] ==> Compare(d, k, rest[0].rowNumber) < 0
  {
    if s != [] {
      Order(d, s[0].rowNumber, k, k);
      if Compare(d, s[0].rowNumber, k) == 0 {
        if s[1..] != [] {
          Order(d, k, s[0].rowNumber, s[1].rowNumber);
          Order(d, k, s[1].rowNumber, k);
        }
        DropKeyAbove(d, k, s[1..]);
      }
    }
  }

  /** Dropping a key that lies below the seek target does not change where the seek lands. */
  lemma {:induction false} SeekPastKey(d: nat, t: RowNumber, e: nat, k: RowNumber, s: seq<Result>)
    requires d <= e < LEVELS && Compare(d, k, t) < 0
    ensures DropBelow(d, t, DropKey(e, k, s)) == DropBelow(d, t, s)
  {
    if s != [] && Compare(e, s[0].rowNumber, k) == 0 {
      Coarser(d, e, s[0].rowNumber, k);
      Order(d, s[0].rowNumber, k, t);
      SeekPastKey(d, t, e, k, s[1..]);
    }
  }

  // ---------- Several streams ----------

  ghost predicate AllSorted(d: nat, S: Streams)
    requires d < LEVELS
  {
    forall i :: 0 <= i < |S| ==> SortedAt(d, S[i])
  }

  ghost predicate Exhausted(S: Streams) {
    forall i :: 0 <= i < |S| ==> S[i] == []
  }

  /** All results still to come lie at or above b (strictly above when c is -1). */
  ghost predicate HeadsFrom(d: nat, b: RowNumber, c: int, S: Streams)
    requires d < LEVELS
  {
    forall i :: 0 <= i < |S| && S[i] != [] ==> Compare(d, b, S[i][0].rowNumber) <= c
  }

  ghost predicate IsLowest(d: nat, S: Streams, n: nat, i: nat)
    requires d < LEVELS && n <= |S|
  {
    && i < n && S[i] != []
    && (forall j :: 0 <= j < n && S[j] != [] ==> Compare(d, S[i][0].rowNumber, S[j][0].rowNumber) <= 0)
    && (forall j :: 0 <= j < i && S[j] != [] ==> Compare(d, S[i][0].rowNumber, S[j][0].rowNumber) < 0)
  }

  /** The first stream among the first n whose head is lowest at level d. */
  ghost function LowestOf(d: nat, S: Streams, n: nat): (r: Option<nat>)
    requires d < LEVELS && n <= |S|
    ensures r == None <==> forall j :: 0 <= j < n ==> S[j] == []
    ensures r.Some? ==> IsLowest(d, S, n, r.value)
  {
    if n == 0 then None
    else
      var m := LowestOf(d, S, n - 1);
      if S[n - 1] == [] then m
      else if m == None then (Order(d, S[n - 1][0].rowNumber, EMPTY, EMPTY); Some(n - 1))
      else
        var a, b := S[m.value][0].rowNumber, S[n - 1][0].rowNumber;
        LowestStep(d, S, n, m.value);
        if Compare(d, b, a) < 0 then Some(n - 1) else m
  }

  lemma LowestStep(d: nat, S: Streams, n: nat, m: nat)
    requires d < LEVELS && 0 < n <= |S| && S[n - 1] != []
    requires IsLowest(d, S, n - 1, m)
    ensures Compare(d, S[n - 1][0].rowNumber, S[m][0].rowNumber) < 0 ==> IsLowest(d, S, n, n - 1)
    ensures Compare(d, S[n - 1][0].rowNumber, S[m][0].rowNumber) >= 0 ==> IsLowest(d, S, n, m)
  {
    var a, b := S[m][0].rowNumber, S[n - 1][0].rowNumber;
    Order(d, a, b, b);
    Order(d, b, a, a);
    if Compare(d, b, a) < 0 {
      forall j | 0 <= j < n - 1 && S[j] != [] ensures Compare(d, b, S[j][0].rowNumber) < 0 {
        Order(d, b, a, S[j][0].rowNumber);
      }
    }
  }

  ghost function Lowest(d: nat, S: Streams): (k: RowNumber)
    requires d < LEVELS && !Exhausted(S)
    ensures HeadsFrom(d, k, 0, S)
    ensures exists i: nat :: IsLowest(d, S, |S|, i) && S[i][0].rowNumber == k
  {
    S[LowestOf(d, S, |S|).value][0].rowNumber
  }

  ghost function Members(d: nat, k: RowNumber, S: Streams): Streams
    requires d < LEVELS
  {
    seq(|S|, i requires 0 <= i < |S| => TakeKey(d, k, S[i]))
  }

  ghost function Advance(d: nat, k: RowNumber, S: Streams): Streams
    requires d < LEVELS
  {
    seq(|S|, i requires 0 <= i < |S| => DropKey(d, k, S[i]))
  }

  ghost function SeekAll(d: nat, t: RowNumber, S: Streams): Streams
    requires d < LEVELS
  {
    seq(|S|, i requires 0 <= i < |S| => DropBelow(d, t, S[i]))
  }

  ghost function Size(S: Streams): nat {
    if S == [] then 0 else |S[0]| + Size(S[1..])
  }

  lemma {:induction false} Smaller(S: Streams, T: Streams)
    requires |S| == |T| && forall i :: 0 <= i < |S| ==> |S[i]| <= |T[i]|
    ensures Size(S) <= Size(T)
    ensures (exists i :: 0 <= i < |S| && |S[i]| < |T[i]|) ==> Size(S) < Size(T)
  {
    if S != [] {
      Smaller(S[1..], T[1..]);
      if i :| 0 <= i < |S| && |S[i]| < |T[i]| {
        assert i > 0 ==> |S[1..][i - 1]| < |T[1..][i - 1]|;
      }
    }
  }

  lemma AdvanceShrinks(d: nat, S: Streams)
    requires d < LEVELS && !Exhausted(S)
    ensures Size(Advance(d, Lowest(d, S), S)) < Size(S)
  {
    var k := Lowest(d, S);
    var i: nat :| IsLowest(d, S, |S|, i) && S[i][0].rowNumber == k;
    Order(d, k, k, k);
    Smaller(Advance(d, k, S), S);
    assert |Advance(d, k, S)[i]| < |S[i]|;
  }

  // ---------- Groups ----------

  /** The members of a group, child by child. */
  ghost function Flat(g: Streams): seq<Result> {
    if g == [] then [] else g[0] + Flat(g[1..])
  }

  ghost function Entries(s: seq<Result>): seq<Entry> {
    if s == [] then [] else s[0].entries + Entries(s[1..])
  }

  /** One joined result: the row number of the first member and every member's entries in order. */
  ghost function Combine(g: Streams): Result {
    var all := Flat(g);
    Result(if all == [] then EMPTY else all[0].rowNumber, Entries(all))
  }

  ghost predicate Present(required: nat, g: Streams)
    requires required <= |g|
  {
    forall i :: 0 <= i < required ==> g[i] != []
  }

  ghost function Meaning(required: nat, d: nat, S: Streams, keep: Result -> bool): seq<Result>
    requires d < LEVELS && required <= |S|
    decreases Size(S)
  {
    if Exhausted(S) then []
    else
      var k := Lowest(d, S);
      AdvanceShrinks(d, S);
      var g, rest := Members(d, k, S), Meaning(required, d, Advance(d, k, S), keep);
      if Present(required, g) && keep(Combine(g)) then [Combine(g)] + rest else rest
  }

  lemma AdvanceSorted(d: nat, S: Streams)
    requires d < LEVELS && AllSorted(d, S) && !Exhausted(S)
    ensures AllSorted(d, Advance(d, Lowest(d, S), S))
    ensures HeadsFrom(d, Lowest(d, S), -1, Advance(d, Lowest(d, S), S))
  {
    var k := Lowest(d, S);
    forall i | 0 <= i < |S| ensures SortedAt(d, Advance(d, k, S)[i])
      ensures DropKey(d, k, S[i]) != [] ==> Compare(d, k, DropKey(d, k, S[i])[0].rowNumber) <= -1
    {
      DropKeySorted(d, d, k, S[i]);
      DropKeyAbove(d, k, S[i]);
    }
  }

  lemma {:induction false} FlatFirst(g: Streams, i: nat)
    requires i < |g| && g[i] != [] && forall j :: 0 <= j < i ==> g[j] == []
    ensures Flat(g) != [] && Flat(g)[0] == g[i][0]
  {
    if i > 0 {
      FlatFirst(g[1..], i - 1);
    }
  }

  /** A group carries the row number of its lowest head. */
  lemma CombineRow(d: nat, S: Streams)
    requires d < LEVELS && !Exhausted(S)
    ensures Combine(Members(d, Lowest(d, S), S)).rowNumber == Lowest(d, S)
  {
    var k, i := Lowest(d, S), LowestOf(d, S, |S|).value;
    assert IsLowest(d, S, |S|, i) && k == S[i][0].rowNumber;
    Order(d, k, k, k);
    forall j | 0 <= j < i ensures Members(d, k, S)[j] == [] {
      if S[j] != [] {
        Order(d, k, S[j][0].rowNumber, k);
      }
    }
    FlatFirst(Members(d, k, S), i);
  }

  // ---------- Laws ----------

  ghost predicate From(d: nat, b: RowNumber, c: int, s: seq<Result>)
    requires d < LEVELS
  {
    forall j :: 0 <= j < |s| ==> Compare(d, b, s[j].rowNumber) <= c
  }

  lemma BoundPersists(d: nat, b: RowNumber, c: int, S: Streams)
    requires d < LEVELS && -1 <= c <= 0 && AllSorted(d, S) && !Exhausted(S) && HeadsFrom(d, b, c, S)
    ensures Compare(d, b, Lowest(d, S)) <= c
    ensures HeadsFrom(d, b, c, Advance(d, Lowest(d, S), S))
  {
    var k := Lowest(d, S);
    var T: Streams := Advance(d, k, S);
    var i: nat :| IsLowest(d, S, |S|, i) && S[i][0].rowNumber == k;
    AdvanceSorted(d, S);
    forall i | 0 <= i < |T| && T[i] != [] ensures Compare(d, b, T[i][0].rowNumber) <= c {
      Order(d, b, k, T[i][0].rowNumber);
    }
  }

  /** Nothing is emitted below a bound that all streams respect. */
  lemma {:induction false} MeaningFrom(required: nat, d: nat, S: Streams, keep: Result -> bool, b: RowNumber, c: int)
    requires d < LEVELS && required <= |S| && AllSorted(d, S)
    requires -1 <= c <= 0 && HeadsFrom(d, b, c, S)
    ensures From(d, b, c, Meaning(required, d, S, keep))
    decreases Size(S)
  {
    if !Exhausted(S) {
      var k := Lowest(d, S);
      var T: Streams := Advance(d, k, S);
      AdvanceShrinks(d, S);
      AdvanceSorted(d, S);
      BoundPersists(d, b, c, S);
      MeaningFrom(required, d, T, keep, b, c);
      CombineRow(d, S);
      var rest, all := Meaning(required, d, T, keep), Meaning(required, d, S, keep);
      assert all == rest || (all[0].rowNumber == k && all[1..] == rest);
    }
  }

  /** The output is strictly increasing at the iterator's level: one result per key. */
  lemma {:induction false} MeaningStrict(required: nat, d: nat, S: Streams, keep: Result -> bool)
    requires d < LEVELS && required <= |S| && AllSorted(d, S)
    ensures StrictAt(d, Meaning(required, d, S, keep))
    decreases Size(S)
  {
    if !Exhausted(S) {
      var k := Lowest(d, S);
      var T: Streams := Advance(d, k, S);
      AdvanceShrinks(d, S);
      AdvanceSorted(d, S);
      CombineRow(d, S);
      MeaningFrom(required, d, T, keep, k, -1);
      MeaningStrict(required, d, T, keep);
      var rest, all := Meaning(required, d, T, keep), Meaning(required, d, S, keep);
      assert all == rest || (all[0].rowNumber == k && all[1..] == rest);
    }
  }

  /** A required child that is exhausted ends the output. */
  lemma {:induction false} MissingRequired(required: nat, d: nat, S: Streams, keep: Result -> bool, i: nat)
    requires d < LEVELS && i < required <= |S| && S[i] == []
    ensures Meaning(required, d, S, keep) == []
    decreases Size(S)
  {
    if !Exhausted(S) {
      var k := Lowest(d, S);
      AdvanceShrinks(d, S);
      assert Members(d, k, S)[i] == [];
      MissingRequired(required, d, Advance(d, k, S), keep, i);
    }
  }

  /** Seeking to a target that every head has reached changes nothing. */
  lemma SeekNothing(d: nat, t: RowNumber, S: Streams)
    requires d < LEVELS && HeadsFrom(d, t, 0, S)
    ensures SeekAll(d, t, S) == S
  {
    forall i | 0 <= i < |S| ensures DropBelow(d, t, S[i]) == S[i] {
      if S[i] != [] {
        Order(d, t, S[i][0].rowNumber, t);
      }
    }
  }

  lemma SeekPastLowest(d: nat, t: RowNumber, e: nat, k: RowNumber, S: Streams)
    requires d <= e < LEVELS && Compare(d, k, t) < 0
    ensures SeekAll(d, t, Advance(e, k, S)) == SeekAll(d, t, S)
  {
    forall i | 0 <= i < |S| ensures DropBelow(d, t, DropKey(e, k, S[i])) == DropBelow(d, t, S[i]) {
      SeekPastKey(d, t, e, k, S[i]);
    }
  }

  lemma HeadsReach(d: nat, e: nat, k: RowNumber, t: RowNumber, S: Streams)
    requires d <= e < LEVELS && HeadsFrom(e, k, 0, S) && Compare(d, k, t) >= 0
    ensures HeadsFrom(d, t, 0, S)
  {
    forall i | 0 <= i < |S| && S[i] != [] ensures Compare(d, t, S[i][0].rowNumber) <= 0 {
      Coarser(d, e, k, S[i][0].rowNumber);
      Order(d, k, t, t);
      Order(d, t, k, S[i][0].rowNumber);
    }
  }

  /** The leap of the join loop: once one required child has reached t, no group below t can be emitted. */
  lemma {:induction false} SkipBelow(required: nat, d: nat, S: Streams, keep: Result -> bool, t: RowNumber, i: nat)
    requires d < LEVELS && i < required <= |S| && AllSorted(d, S)
    requires S[i] != [] ==> Compare(d, S[i][0].rowNumber, t) >= 0
    ensures Meaning(required, d, SeekAll(d, t, S), keep) == Meaning(required, d, S, keep)
    decreases Size(S)
  {
    if Exhausted(S) {
      SeekNothing(d, t, S);
    } else {
      var k := Lowest(d, S);
      if Compare(d, k, t) >= 0 {
        HeadsReach(d, d, k, t, S);
        SeekNothing(d, t, S);
      } else {
        if S[i] != [] {
          Order(d, k, t, t);
          Order(d, S[i][0].rowNumber, k, t);
        }
        assert Members(d, k, S)[i] == [];
        AdvanceShrinks(d, S);
        AdvanceSorted(d, S);
        SeekPastLowest(d, t, d, k, S);
        SkipBelow(required, d, Advance(d, k, S), keep, t, i);
      }
    }
  }

  /** SeekTo on the children is SeekTo on the output, for every level up to the iterator's own. */
  lemma {:induction false} SeekCommutes(required: nat, e: nat, S: Streams, keep: Result -> bool, d: nat, t: RowNumber)
    requires d <= e < LEVELS && required <= |S| && AllSorted(e, S)
    ensures Meaning(required, e, SeekAll(d, t, S), keep) == DropBelow(d, t, Meaning(required, e, S, keep))
    decreases Size(S)
  {
    if Exhausted(S) {
      SeekNothing(d, t, S);
    } else {
      var k, all := Lowest(e, S), Meaning(required, e, S, keep);
      if Compare(d, k, t) >= 0 {
        HeadsReach(d, e, k, t, S);
        SeekNothing(d, t, S);
        MeaningFrom(required, e, S, keep, k, 0);
        if all != [] {
          Coarser(d, e, k, all[0].rowNumber);
          Order(d, k, all[0].rowNumber, t);
          Order(d, all[0].rowNumber, t, t);
          Order(d, t, k, all[0].rowNumber);
          Order(d, k, t, t);
        }
      } else {
        AdvanceShrinks(e, S);
        AdvanceSorted(e, S);
        SeekPastLowest(d, t, e, k, S);
        SeekCommutes(required, e, Advance(e, k, S), keep, d, t);
        CombineRow(e, S);
        var rest := Meaning(required, e, Advance(e, k, S), keep);
        assert all == rest || (all[0].rowNumber == k && all[1..] == rest);
      }
    }
  }

  // ---------- Agreement with the filter-based definition ----------

  /** The group of k by plain filtering, no order assumed. */
  ghost function Group(d: nat, k: RowNumber, S: Streams): Streams
    requires d < LEVELS
  {
    seq(|S|, i requires 0 <= i < |S| => Matching(d, k, S[i]))
  }

  lemma {:induction false} MatchingClass(d: nat, k: RowNumber, l: RowNumber, s: seq<Result>)
    requires d < LEVELS && Compare(d, k, l) == 0
    ensures Matching(d, k, s) == Matching(d, l, s)
  {
    if s != [] {
      Order(d, s[0].rowNumber, k, l);
      Order(d, k, l, k);
      Order(d, s[0].rowNumber, l, k);
      MatchingClass(d, k, l, s[1..]);
    }
  }

  lemma {:induction false} MatchingPrefix(d: nat, k: RowNumber, s: seq<Result>)
    requires d < LEVELS && SortedAt(d, s)
    requires s != [] ==> Compare(d, k, s[0].rowNumber) <= 0
    ensures Matching(d, k, s) == TakeKey(d, k, s)
  {
    if s != [] {
      Order(d, k, s[0].rowNumber, k);
      if |s| > 1 {
        Order(d, k, s[0].rowNumber, s[1].rowNumber);
        Order(d, k, s[1].rowNumber, k);
      }
      MatchingPrefix(d, k, s[1..]);
    }
  }

  lemma {:induction false} MatchingOther(d: nat, low: RowNumber, k: RowNumber, s: seq<Result>)
    requires d < LEVELS && Compare(d, low, k) != 0
    ensures Matching(d, k, DropKey(d, low, s)) == Matching(d, k, s)
  {
    if s != [] && Compare(d, s[0].rowNumber, low) == 0 {
      Order(d, s[0].rowNumber, low, low);
      Order(d, low, s[0].rowNumber, k);
      MatchingOther(d, low, k, s[1..]);
    }
  }

  lemma GroupStep(d: nat, S: Streams, k: RowNumber)
    requires d < LEVELS && AllSorted(d, S) && !Exhausted(S)
    ensures Compare(d, Lowest(d, S), k) == 0 ==> Group(d, k, S) == Members(d, Lowest(d, S), S)
    ensures Compare(d, Lowest(d, S), k) != 0 ==> Group(d, k, Advance(d, Lowest(d, S), S)) == Group(d, k, S)
  {
    var low := Lowest(d, S);
    if Compare(d, low, k) == 0 {
      forall i | 0 <= i < |S| ensures Matching(d, k, S[i]) == TakeKey(d, low, S[i]) {
        MatchingClass(d, low, k, S[i]);
        MatchingPrefix(d, low, S[i]);
      }
    } else {
      forall i | 0 <= i < |S| ensures Matching(d, k, DropKey(d, low, S[i])) == Matching(d, k, S[i]) {
        MatchingOther(d, low, k, S[i]);
      }
    }
  }

  /** Every emitted result is the naive group of its own key, wanted and kept. */
  lemma {:induction false} MeaningSound(required: nat, d: nat, S: Streams, keep: Result -> bool, r: Result)
    requires d < LEVELS && required <= |S| && AllSorted(d, S)
    requires r in Meaning(required, d, S, keep)
    ensures r == Combine(Group(d, r.rowNumber, S)) && Present(required, Group(d, r.rowNumber, S)) && keep(r)
    ensures exists i :: 0 <= i < |S| && Matching(d, r.rowNumber, S[i]) != []
    decreases Size(S)
  {
    var low := Lowest(d, S);
    var T, g := Advance(d, low, S), Members(d, low, S);
    AdvanceShrinks(d, S);
    AdvanceSorted(d, S);
    CombineRow(d, S);
    GroupStep(d, S, r.rowNumber);
    if r in Meaning(required, d, T, keep) {
      MeaningFrom(required, d, T, keep, low, -1);
      MeaningSound(required, d, T, keep, r);
      var i :| 0 <= i < |T| && Matching(d, r.rowNumber, T[i]) != [];
      assert Group(d, r.rowNumber, T)[i] == Group(d, r.rowNumber, S)[i];
    } else {
      var i: nat :| IsLowest(d, S, |S|, i) && S[i][0].rowNumber == low;
      Order(d, low, low, low);
      assert g[i] != [] && g[i] == Group(d, r.rowNumber, S)[i];
    }
  }

  /** Every key with a match, all required children present and an accepted group is emitted. */
  lemma {:induction false} MeaningComplete(required: nat, d: nat, S: Streams, keep: Result -> bool, k: RowNumber)
    requires d < LEVELS && required <= |S| && AllSorted(d, S)
    requires exists i :: 0 <= i < |S| && Matching(d, k, S[i]) != []
    requires Present(required, Group(d, k, S)) && keep(Combine(Group(d, k, S)))
    ensures Combine(Group(d, k, S)) in Meaning(required, d, S, keep)
    decreases Size(S)
  {
    var i :| 0 <= i < |S| && Matching(d, k, S[i]) != [];
    assert !Exhausted(S);
    var low := Lowest(d, S);
    AdvanceShrinks(d, S);
    AdvanceSorted(d, S);
    GroupStep(d, S, k);
    if Compare(d, low, k) != 0 {
      var T: Streams := Advance(d, low, S);
      assert Matching(d, k, T[i]) == Group(d, k, T)[i] == Group(d, k, S)[i];
      MeaningComplete(required, d, T, keep, k);
    }
  }

  // ---------- Conservation ----------

  lemma {:induction false} EntriesConcat(a: seq<Result>, b: seq<Result>)
    ensures Entries(a + b) == Entries(a) + Entries(b)
  {
    if a == [] {
      assert a + b == b;
    } else {
      assert (a + b)[1..] == a[1..] + b;
      EntriesConcat(a[1..], b);
    }
  }

  lemma {:induction false} FlatSplit(S: Streams, T: Streams, U: Streams)
    requires |S| == |T| == |U| && forall i :: 0 <= i < |S| ==> S[i] == T[i] + U[i]
    ensures multiset(Entries(Flat(S))) == multiset(Entries(Flat(T))) + multiset(Entries(Flat(U)))
  {
    if S != [] {
      FlatSplit(S[1..], T[1..], U[1..]);
      EntriesConcat(S[0], Flat(S[1..]));
      EntriesConcat(T[0], Flat(T[1..]));
      EntriesConcat(U[0], Flat(U[1..]));
      EntriesConcat(T[0], U[0]);
    }
  }

  lemma UnionStep(d: nat, S: Streams, keep: Result -> bool)
    requires d < LEVELS && !Exhausted(S) && forall r :: keep(r)
    ensures var k := Lowest(d, S);
      Meaning(0, d, S, keep) == [Combine(Members(d, k, S))] + Meaning(0, d, Advance(d, k, S), keep)
  {
    hide Members, Advance, Lowest, Combine;
  }

  lemma MembersSplit(d: nat, k: RowNumber, S: Streams)
    requires d < LEVELS
    ensures var g, T := Members(d, k, S), Advance(d, k, S);
      multiset(Entries(Flat(S))) == multiset(Combine(g).entries) + multiset(Entries(Flat(T)))
  {
    var g, T := Members(d, k, S), Advance(d, k, S);
    forall i | 0 <= i < |S| ensures S[i] == g[i] + T[i] {
      TakeDrop(d, k, S[i]);
    }
    FlatSplit(S, g, T);
  }

  /** An unfiltered union emits every entry of every child exactly as often as it occurs. */
  lemma {:induction false} UnionConserves(d: nat, S: Streams, keep: Result -> bool)
    requires d < LEVELS && forall r :: keep(r)
    ensures multiset(Entries(Meaning(0, d, S, keep))) == multiset(Entries(Flat(S)))
    decreases Size(S)
  {
    hide Members, Advance, Lowest, Combine;
    if Exhausted(S) {
      FlatEmpty(S);
    } else {
      var k := Lowest(d, S);
      AdvanceShrinks(d, S);
      UnionStep(d, S, keep);
      MembersSplit(d, k, S);
      UnionConserves(d, Advance(d, k, S), keep);
      var rest := Meaning(0, d, Advance(d, k, S), keep);
      assert Meaning(0, d, S, keep)[1..] == rest;
    }
  }

  lemma {:induction false} FlatEmpty(S: Streams)
    requires Exhausted(S)
    ensures Flat(S) == []
  {
    if S != [] {
      FlatEmpty(S[1..]);
    }
  }
}
