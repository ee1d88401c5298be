/**
  JoinIterator, LeftJoinIterator and UnionIterator (pkg/parquetquery/iters.go) over any
  tree of iterators. The Go interface value is a tagged union; the three composed
  iterators share their fields, so one class holds them and its kind selects the
  algorithm.

  The contract of every iterator is stated on the ghost list of results still to
  come: Next takes the first, SeekTo(t, d) drops those below t at level d and then
  takes the first. For a composed iterator that list is the naive meaning of its
  children (module Cogroup), so a whole tree computes its naive meaning, whatever
  mixture of Next and SeekTo the caller uses.
 */
module Iterators {
  import opened Wrappers
  import opened RowNumbers
  import opened Cogroup
  import opened Scan
  import opened Columns
  import opened Rounds

  type Level = d: nat | d < LEVELS

  datatype Kind = Join | LeftJoin | Union

  ghost function Head(s: seq<Result>): Option<Result> {
    if s == [] then None else Some(s[0])
  }

  ghost function AsSeq(peek: Option<Result>): seq<Result> {
    if peek.Some? then [peek.value] else []
  }

  datatype Iter = Column(column: ColumnIterator) | Fan(fan: FanIterator) {

    ghost function Repr(): set<object> {
      match this
      case Column(c) => {c} + c.Repr
      case Fan(f) => {f} + f.Repr
    }

    ghost function Height(): nat {
      if Column? then 0 else fan.height
    }

    /** The finest level at which the iterator can be sought. */
    ghost function SeekLevel(): Level {
      if Column? then LEVELS - 1 else fan.level
    }

    ghost predicate Valid()
      reads Repr()
      decreases Height(), 2
    {
      match this
      case Column(c) => c.Valid()
      case Fan(f) => f.Valid()
    }

    ghost function Rest(): seq<Result>
      reads Repr()
    {
      match this
      case Column(c) => c.rest
      case Fan(f) => f.rest
    }

    lemma RestOrdered()
      requires Valid()
      ensures Ordered(Rest())
    {
    }

    method Next() returns (r: Option<Result>)
      requires Valid()
      modifies Repr()
      ensures Valid()
      ensures r == Head(old(Rest())) && old(Rest()) == AsSeq(r) + Rest()
      decreases Height(), 9
    {
      hide ColumnIterator.Inv, FanIterator.Live, Meaning, Ordered;
      match this
      case Column(c) => r := c.Next();
      case Fan(f) => r := f.Next();
    }

    method SeekTo(t: RowNumber, d: nat) returns (r: Option<Result>)
      requires Valid() && d <= SeekLevel()
      modifies Repr()
      ensures Valid()
      ensures var s := DropBelow(d, t, old(Rest())); r == Head(s) && s == AsSeq(r) + Rest()
      decreases Height(), 9
    {
      hide ColumnIterator.Inv, FanIterator.Live, Meaning, Ordered, DropBelow;
      match this
      case Column(c) => r := c.SeekTo(t, d);
      case Fan(f) => r := f.SeekTo(t, d);
    }
  }

  ghost function Above(iters: seq<Iter>): (h: nat)
    ensures forall i :: 0 <= i < |iters| ==> iters[i].Height() < h
  {
    if iters == [] then 1
    else
      var h := Above(iters[1..]);
      assert forall i :: 0 < i < |iters| ==> iters[i] == iters[1..][i - 1];
      if iters[0].Height() >= h then iters[0].Height() + 1 else h
  }

  ghost function Footprint(iters: seq<Iter>): (objects: set<object>)
    ensures forall i :: 0 <= i < |iters| ==> iters[i].Repr() <= objects
  {
    if iters == [] then {}
    else
      assert forall i :: 0 < i < |iters| ==> iters[i] == iters[1..][i - 1];
      iters[0].Repr() + Footprint(iters[1..])
  }

  /** The output of a composed iterator is strictly increasing and made of its children's rows. */
  lemma OrderedMeaning(required: nat, d: Level, S: Streams, keep: Result -> bool)
    requires required <= |S| && AllSorted(d, S) && forall i :: 0 <= i < |S| ==> Ordered(S[i])
    ensures Ordered(Meaning(required, d, S, keep))
  {
    var all := Meaning(required, d, S, keep);
    MeaningStrict(required, d, S, keep);
    forall i, j | 0 <= i < j < |all| ensures Compare(5, all[i].rowNumber, all[j].rowNumber) < 0 {
      Coarser(d, 5, all[i].rowNumber, all[j].rowNumber);
    }
    MeaningValid(required, d, S, keep);
  }

  ghost predicate AllValid(s: seq<Result>) {
    forall i :: 0 <= i < |s| ==> RowNumbers.Valid(s[i].rowNumber)
  }

  lemma AdvanceValid(d: Level, k: RowNumber, S: Streams)
    requires forall i :: 0 <= i < |S| ==> AllValid(S[i])
    ensures |Advance(d, k, S)| == |S| && forall i :: 0 <= i < |S| ==> AllValid(Advance(d, k, S)[i])
  {
    var T: Streams := Advance(d, k, S);
    forall i | 0 <= i < |S| ensures AllValid(T[i]) {
      TakeDrop(d, k, S[i]);
      assert forall j :: 0 <= j < |T[i]| ==> T[i][j] == S[i][|TakeKey(d, k, S[i])| + j];
    }
  }

  lemma LowestValid(d: Level, S: Streams)
    requires !Exhausted(S) && forall i :: 0 <= i < |S| ==> AllValid(S[i])
    ensures RowNumbers.Valid(Lowest(d, S))
  {
    hide RowNumbers.Valid, Compare;
    var i := LowestOf(d, S, |S|).value;
    assert AllValid(S[i]) && Lowest(d, S) == S[i][0].rowNumber;
  }

  lemma {:induction false} MeaningValid(required: nat, d: Level, S: Streams, keep: Result -> bool)
    requires required <= |S| && forall i :: 0 <= i < |S| ==> AllValid(S[i])
    ensures AllValid(Meaning(required, d, S, keep))
    decreases Size(S)
  {
    hide Lowest, Advance, Members, Combine, Present, RowNumbers.Valid;
    if !Exhausted(S) {
      var k := Lowest(d, S);
      AdvanceShrinks(d, S);
      CombineRow(d, S);
      LowestValid(d, S);
      AdvanceValid(d, k, S);
      MeaningValid(required, d, Advance(d, k, S), keep);
    }
  }

  lemma Drained(out: seq<Result>, all: seq<Result>, before: seq<Result>, r: Option<Result>, rest: seq<Result>)
    requires out + before == all && r == Head(before) && before == AsSeq(r) + rest
    ensures if r == None then rest == [] && out == all else out + [r.value] + rest == all && |rest| < |before|
  {
  }

  /** Reading an iterator to its end yields all its results, in order. */
  method Drain(it: Iter) returns (out: seq<Result>)
    requires it.Valid()
    modifies it.Repr()
    ensures it.Valid() && it.Rest() == [] && out == old(it.Rest())
  {
    hide Iter.Valid, Iter.Rest, Iter.Height, Head, AsSeq;
    out := [];
    while true
      invariant it.Valid() && out + it.Rest() == old(it.Rest())
      decreases |it.Rest()|
    {
      ghost var before := it.Rest();
      var r := it.Next();
      Drained(out, old(it.Rest()), before, r, it.Rest());
      if r == None {
        return;
      }
      out := out + [r.value];
    }
  }

  class FanIterator {
    const kind: Kind
    const level: Level
    const iters: seq<Iter>  // required children first, then optional ones
    const required: nat
    const keep: Result -> bool  // the group predicate; a nil one accepts everything

    var peeks: seq<Option<Result>>

    ghost var streams: Streams   // per child: its peek, then what it still has
    ghost var rest: seq<Result>
    ghost const height: nat
    ghost const Repr: set<object>

    ghost predicate Wired() {
      && required <= |iters|
      && (kind.Join? ==> 0 < required == |iters|)
      && (kind.LeftJoin? ==> 0 < required)
      && (kind.Union? ==> required == 0)
      && this in Repr
      && (forall i :: 0 <= i < |iters| ==>
            iters[i].Repr() <= Repr && this !in iters[i].Repr() && iters[i].Height() < height && level <= iters[i].SeekLevel())
      && (forall i, j :: 0 <= i < |iters| && 0 <= j < |iters| && i != j ==> iters[i].Repr() !! iters[j].Repr())
    }

    /** The children are sound and streams describes them; holds throughout a call. */
    ghost predicate Live()
      reads this, Repr
      decreases height, 0
    {
      && Wired()
      && |peeks| == |iters| == |streams|
      && (forall i :: 0 <= i < |iters| ==> iters[i].Valid())
      && (forall i :: 0 <= i < |iters| ==> streams[i] == AsSeq(peeks[i]) + iters[i].Rest())
      && (forall i :: 0 <= i < |iters| ==> Ordered(streams[i]))
    }

    ghost predicate Valid()
      reads this, Repr
      decreases height, 1
    {
      Live() && rest == Meaning(required, level, streams, keep) && Ordered(rest)
    }

    /** A new iterator over children in any state: its results are their naive combination. */
    constructor (kind: Kind, level: Level, iters: seq<Iter>, required: nat, keep: Result -> bool, ghost S: Streams)
      requires kind.Join? ==> 0 < required == |iters|
      requires kind.LeftJoin? ==> 0 < required <= |iters|
      requires kind.Union? ==> required == 0
      requires |S| == |iters| && forall i :: 0 <= i < |iters| ==>
        iters[i].Valid() && S[i] == iters[i].Rest() && level <= iters[i].SeekLevel()
      requires forall i, j :: 0 <= i < |iters| && 0 <= j < |iters| && i != j ==> iters[i].Repr() !! iters[j].Repr()
      ensures Valid() && rest == Meaning(required, level, S, keep)
      ensures this.level == level && Repr == {this} + Footprint(iters)
    {
      hide Ordered, Iter.Valid, Iter.Rest, Meaning, Compare, Wired;
      this.kind, this.level, this.iters, this.required, this.keep := kind, level, iters, required, keep;
      peeks := seq(|iters|, _ => None);
      streams := S;
      rest := Meaning(required, level, S, keep);
      height := Above(iters);
      Repr := {this} + Footprint(iters);
      new;
      WireUp();
      forall i | 0 <= i < |iters| ensures Ordered(S[i]) && S[i] == AsSeq(peeks[i]) + iters[i].Rest() {
        iters[i].RestOrdered();
      }
      Sorted();
      OrderedMeaning(required, level, S, keep);
    }

    lemma WireUp()
      requires kind.Join? ==> 0 < required == |iters|
      requires kind.LeftJoin? ==> 0 < required <= |iters|
      requires kind.Union? ==> required == 0
      requires height == Above(iters) && Repr == {this} + Footprint(iters)
      requires forall i :: 0 <= i < |iters| ==> level <= iters[i].SeekLevel() && this !in iters[i].Repr()
      requires forall i, j :: 0 <= i < |iters| && 0 <= j < |iters| && i != j ==> iters[i].Repr() !! iters[j].Repr()
      ensures Wired()
    {
      hide Iter.Repr, Iter.Height, Iter.SeekLevel;
    }

    /** A child's call leaves the other children as they are. */
    method NextOf(i: nat) returns (r: Option<Result>)
      requires Live() && i < |iters|
      modifies iters[i].Repr()
      ensures iters[i].Valid() && r == Head(old(iters[i].Rest())) && old(iters[i].Rest()) == AsSeq(r) + iters[i].Rest()
      ensures forall j :: 0 <= j < |iters| && j != i ==> iters[j].Valid() && iters[j].Rest() == old(iters[j].Rest())
      decreases height, 0
    {
      hide Ordered, Iter.Valid, Iter.Rest, Head, AsSeq;
      r := iters[i].Next();
    }

    method SeekOf(i: nat, t: RowNumber, d: nat) returns (r: Option<Result>)
      requires Live() && i < |iters| && d <= level
      modifies iters[i].Repr()
      ensures var s := DropBelow(d, t, old(iters[i].Rest())); r == Head(s) && s == AsSeq(r) + iters[i].Rest()
      ensures iters[i].Valid()
      ensures forall j :: 0 <= j < |iters| && j != i ==> iters[j].Valid() && iters[j].Rest() == old(iters[j].Rest())
      decreases height, 0
    {
      hide Ordered, Iter.Valid, Iter.Rest, Head, AsSeq, DropBelow;
      r := iters[i].SeekTo(t, d);
    }

    /** peeks[i] := iters[i].Next(), whatever was peeked before. */
    method Refill(i: nat)
      requires Live() && i < |iters|
      modifies Repr
      ensures Live() && rest == old(rest)
      ensures streams == old(streams)[i := old(streams[i])[|AsSeq(old(peeks[i]))|..]]
      ensures peeks == old(peeks)[i := Head(streams[i])]
      decreases height, 1
    {
      hide Ordered, Iter.Valid, Iter.Rest, Iter.Repr, Iter.Height, Iter.SeekLevel, Wired, AsSeq, Head;
      Apart();
      ghost var s := iters[i].Rest();
      Tail(peeks[i], s, streams[i]);
      var r := NextOf(i);
      peeks, streams := peeks[i := r], streams[i := s];
    }

    /** peeks[i] := iters[i].SeekTo(t, d), when the peek is missing or below the target. */
    method Reseek(i: nat, t: RowNumber, d: nat)
      requires Live() && i < |iters| && d <= level
      requires peeks[i].Some? ==> Compare(d, peeks[i].value.rowNumber, t) < 0
      modifies Repr
      ensures Live() && rest == old(rest)
      ensures streams == old(streams)[i := DropBelow(d, t, old(streams[i]))]
      ensures peeks == old(peeks)[i := Head(streams[i])]
      decreases height, 1
    {
      hide Ordered, Iter.Valid, Iter.Rest, Iter.Repr, Iter.Height, Iter.SeekLevel, Wired, AsSeq, Head, DropBelow, Compare;
      Apart();
      ghost var s := DropBelow(d, t, iters[i].Rest());
      SeekTail(d, t, peeks[i], iters[i].Rest(), streams[i]);
      var r := SeekOf(i, t, d);
      peeks, streams := peeks[i := r], streams[i := s];
    }

    lemma Base()
      requires Wired()
      ensures this in Repr && required <= |iters| && (!kind.Union? ==> 0 < required) && (kind.Union? ==> required == 0)
      ensures kind.Join? ==> required == |iters|
    {
    }

    lemma Apart()
      requires Wired()
      ensures this in Repr && forall j :: 0 <= j < |iters| ==> iters[j].Repr() <= Repr && this !in iters[j].Repr()
    {
    }

    static lemma Tail(peek: Option<Result>, s: seq<Result>, stream: seq<Result>)
      requires stream == AsSeq(peek) + s && Ordered(stream)
      ensures s == stream[|AsSeq(peek)|..] && Ordered(s)
    {
    }

    static lemma SeekTail(d: nat, t: RowNumber, peek: Option<Result>, s: seq<Result>, stream: seq<Result>)
      requires d < LEVELS && stream == AsSeq(peek) + s && Ordered(stream)
      requires peek.Some? ==> Compare(d, peek.value.rowNumber, t) < 0
      ensures DropBelow(d, t, stream) == DropBelow(d, t, s) && Ordered(DropBelow(d, t, s))
    {
      Tail(peek, s, stream);
      DropBelowSorted(5, d, t, s);
      var u := DropBelow(d, t, s);
      assert forall i :: 0 <= i < |u| ==> u[i] == s[|s| - |u| + i];
    }

    lemma Peeked(i: nat)
      requires Live() && i < |iters|
      ensures |peeks| == |iters| == |streams| && this in Repr
      ensures peeks[i].Some? ==> peeks[i] == Head(streams[i])
    {
      hide Ordered, Iter.Valid, Compare;
    }

    method Peek(i: nat) returns (r: Option<Result>)
      requires Live() && i < |iters|
      modifies Repr
      ensures Live() && rest == old(rest) && streams == old(streams)
      ensures r == Head(streams[i]) && peeks == old(peeks)[i := r]
      decreases height, 2
    {
      hide Live, Ordered, Iter.Valid, Compare;
      Peeked(i);
      if peeks[i] == None {
        Refill(i);
        Peeked(i);
      }
      return peeks[i];
    }

    method SeekChildren(target: RowNumber, d: nat)
      requires Live() && d <= level
      modifies Repr
      ensures Live() && rest == old(rest)
      ensures streams == Cogroup.SeekAll(d, target, old(streams))
      ensures forall i :: 0 <= i < |iters| ==> peeks[i] == Head(streams[i])
      decreases height, 2
    {
      hide Ordered, Iter.Valid, Iter.Rest, Iter.Repr, Iter.Height, Iter.SeekLevel, Wired, Compare;
      Base();
      var t := Truncate(d, target);
      ghost var S := streams;
      for i := 0 to |iters|
        invariant Live() && rest == old(rest)
        invariant forall k :: 0 <= k < |iters| ==> streams[k] == if k < i then DropBelow(d, target, S[k]) else S[k]
        invariant forall k :: 0 <= k < i ==> peeks[k] == Head(streams[k])
      {
        TruncatedSeek(d, target, S[i]);
        if peeks[i].Some? {
          TruncateKeeps(d, target, peeks[i].value.rowNumber);
        }
        if peeks[i] == None || Compare(d, peeks[i].value.rowNumber, t) < 0 {
          Reseek(i, t, d);
        }
      }
      assert streams == Cogroup.SeekAll(d, target, S);
    }

    /** Append the entries of child i while it points at row k. */
    method CollectChild(i: nat, k: RowNumber, entries: seq<Entry>) returns (all: seq<Entry>)
      requires Live() && i < |iters| && peeks[i] == Head(streams[i])
      modifies Repr
      ensures Live() && rest == old(rest)
      ensures streams[i] == DropKey(level, k, old(streams[i]))
      ensures all == entries + Entries(TakeKey(level, k, old(streams[i])))
      ensures forall j :: 0 <= j < |iters| && j != i ==> streams[j] == old(streams)[j] && peeks[j] == old(peeks)[j]
      decreases height, 2
    {
      hide Ordered, Iter.Valid, Iter.Rest, Iter.Repr, Iter.Height, Iter.SeekLevel, Wired;
      Base();
      all := entries;
      ghost var s := streams[i];
      while peeks[i].Some? && Compare(level, peeks[i].value.rowNumber, k) == 0
        invariant Live() && rest == old(rest) && peeks[i] == Head(streams[i])
        invariant forall j :: 0 <= j < |iters| && j != i ==> streams[j] == old(streams)[j] && peeks[j] == old(peeks)[j]
        invariant Partial(level, k, entries, s, all, streams[i])
        decreases |streams[i]|
      {
        TakeOne(level, k, entries, s, all, streams[i]);
        all := all + peeks[i].value.entries;
        Refill(i);
      }
    }

    /** Of the entries of row k in s, those in all are collected and those still in u are not. */
    static ghost predicate Partial(d: Level, k: RowNumber, entries: seq<Entry>, s: seq<Result>, all: seq<Entry>, u: seq<Result>) {
      && DropKey(d, k, u) == DropKey(d, k, s)
      && all + Entries(TakeKey(d, k, u)) == entries + Entries(TakeKey(d, k, s))
    }

    static lemma TakeOne(d: Level, k: RowNumber, entries: seq<Entry>, s: seq<Result>, all: seq<Entry>, u: seq<Result>)
      requires u != [] && Compare(d, u[0].rowNumber, k) == 0 && Partial(d, k, entries, s, all, u)
      ensures Partial(d, k, entries, s, all + u[0].entries, u[1..])
    {
      assert TakeKey(d, k, u)[1..] == TakeKey(d, k, u[1..]);
      assert (all + u[0].entries) + Entries(TakeKey(d, k, u[1..])) == all + Entries(TakeKey(d, k, u));
    }

    /** Collect from the listed children; the others do not point at row k. */
    method Collect(iterNums: seq<nat>, k: RowNumber) returns (result: Result)
      requires Live()
      requires forall i :: 0 <= i < |iters| ==>
        if i in iterNums then peeks[i] == Head(streams[i])
        else streams[i] == [] || Compare(level, streams[i][0].rowNumber, k) != 0
      modifies Repr
      ensures Live() && rest == old(rest)
      ensures streams == Advance(level, k, old(streams))
      ensures result == Result(k, Entries(Flat(Members(level, k, old(streams)))))
      decreases height, 3
    {
      hide Ordered, Iter.Valid, Iter.Rest, Iter.Repr, Iter.Height, Iter.SeekLevel, Wired, Compare, TakeKey, DropKey, Flat, Entries;
      Base();
      ghost var S := streams;
      ghost var g := Members(level, k, S);
      var entries := [];
      assert entries == Entries(Flat(g[..0])) by { NoEntries(g); }
      for i := 0 to |iters|
        invariant Live() && rest == old(rest)
        invariant forall j :: 0 <= j < |iters| ==> streams[j] == if j < i then DropKey(level, k, S[j]) else S[j]
        invariant forall j :: i <= j < |iters| ==> peeks[j] == old(peeks)[j]
        invariant entries == Entries(Flat(g[..i]))
      {
        CollectStep(g, i);
        if i in iterNums {
          entries := CollectChild(i, k, entries);
        } else {
          NotListed(level, k, S[i]);
        }
      }
      assert g[..|iters|] == g;
      assert streams == Advance(level, k, S);
      result := Result(k, entries);
    }

    static lemma NoEntries(g: Streams)
      ensures Entries(Flat(g[..0])) == []
    {
    }

    // ---------- Join and LeftJoin ----------

    /**
      Peek at the required children. Either one of them is exhausted, or all point at the
      same row (that of child 0), or child lo lies below the highest row.
     */
    method Survey() returns (exhausted: bool, same: bool, lowest: RowNumber, highest: RowNumber, ghost p: Pass)
      requires Live() && 0 < required
      modifies Repr
      ensures Live() && rest == old(rest) && streams == old(streams)
      ensures exhausted ==> p.lo < required && streams[p.lo] == []
      ensures !exhausted ==> Surveyed(level, streams, required, p) && same == (p.ties == required)
      ensures !exhausted ==> lowest == p.lowest && highest == p.highest
      ensures !exhausted ==> forall i :: 0 <= i < required ==> peeks[i] == Head(streams[i])
      decreases height, 3
    {
      hide Ordered, Iter.Valid, Iter.Rest, Iter.Repr, Iter.Height, Iter.SeekLevel, Wired, Surveyed, Compare, Look;
      Base();
      lowest, highest := MAX, EMPTY;
      var lowestIters: seq<nat> := [];
      p := Pass(MAX, EMPTY, 0, 0, 0, 0);
      for i := 0 to required
        invariant Live() && rest == old(rest) && streams == old(streams)
        invariant forall j :: 0 <= j < i ==> peeks[j] == Head(streams[j])
        invariant if i == 0 then p == Pass(MAX, EMPTY, 0, 0, 0, 0) else Surveyed(level, streams, i, p)
        invariant lowest == p.lowest && highest == p.highest && |lowestIters| == p.ties
      {
        var res := Peek(i);
        if res == None {
          p := p.(lo := i);
          return true, false, lowest, highest, p;
        }
        var row := res.value.rowNumber;
        if i == 0 {
          ValidHead(streams[0]);
          SurveyFirst(level, streams);
        } else {
          SurveyNext(level, streams, i, p);
        }
        lowest, highest, lowestIters := Weigh(level, row, i, lowest, highest, lowestIters, p);
        p := Look(level, row, i, p);
      }
      exhausted, same := false, |lowestIters| == required;
    }

    /** The switch on the comparison with the lowest row, and the high water mark. */
    static method Weigh(d: Level, row: RowNumber, i: nat, low: RowNumber, high: RowNumber, tied: seq<nat>, ghost p: Pass)
      returns (lowest: RowNumber, highest: RowNumber, lowestIters: seq<nat>)
      requires low == p.lowest && high == p.highest && |tied| == p.ties
      ensures var q := Look(d, row, i, p); lowest == q.lowest && highest == q.highest && |lowestIters| == q.ties
    {
      lowest, highest, lowestIters := low, high, tied;
      var c := Compare(d, row, lowest);
      if c < 0 {
        lowestIters, lowest := [], row;
      }
      if c <= 0 {
        lowestIters := lowestIters + [i];
      }
      if Compare(d, row, highest) > 0 {
        highest := row;
      }
    }

    static lemma ValidHead(s: seq<Result>)
      requires Ordered(s) && s != []
      ensures RowNumbers.Valid(s[0].rowNumber)
    {
    }

    lemma Sorted()
      requires Live()
      ensures AllSorted(level, streams)
    {
      forall i, j, k | 0 <= i < |streams| && 0 <= j < k < |streams[i]|
        ensures Compare(level, streams[i][j].rowNumber, streams[i][k].rowNumber) <= 0
      {
        Coarser(level, 5, streams[i][j].rowNumber, streams[i][k].rowNumber);
      }
    }

    /** Join: all children must match. LeftJoin: optional children are sought to the match first. */
    method NextJoin() returns (r: Option<Result>)
      requires Live() && !kind.Union?
      modifies Repr
      ensures Live() && rest == old(rest)
      ensures var all := Meaning(required, level, old(streams), keep);
        r == Head(all) && all == AsSeq(r) + Meaning(required, level, streams, keep)
      decreases height, 5
    {
      hide Ordered, Iter.Valid, Iter.Rest, Iter.Repr, Iter.Height, Iter.SeekLevel, Wired, Meaning, Surveyed, Aligned, Compare, Cogroup.SeekAll, Advance, Members, Flat, Entries, Size, AllSorted;
      Base();
      ghost var all := Meaning(required, level, streams, keep);
      while true
        invariant Live() && rest == old(rest) && Meaning(required, level, streams, keep) == all
        decreases Size(streams)
      {
        Sorted();
        var exhausted, same, lowest, highest, p := Survey();
        if exhausted {
          MissingRequired(required, level, streams, keep, p.lo);
          return None;
        }
        if same {
          MatchRound(required, level, streams, keep, p);
          var result := CollectMatch(lowest);
          if keep(result) {
            return Some(result);
          }
        } else {
          LeapRound(required, level, streams, keep, p);
        }
        SeekChildren(highest, level);
      }
    }

    method CollectMatch(k: RowNumber) returns (result: Result)
      requires Live() && !kind.Union? && Aligned(required, level, streams, k)
      requires forall i :: 0 <= i < required ==> peeks[i] == Head(streams[i])
      modifies Repr
      ensures Live() && rest == old(rest)
      ensures var T := Cogroup.SeekAll(level, k, old(streams));
        streams == Advance(level, k, T) && result == Result(k, Entries(Flat(Members(level, k, T))))
      decreases height, 4
    {
      hide Ordered, Iter.Valid, Iter.Rest, Iter.Repr, Iter.Height, Iter.SeekLevel, Wired, Compare;
      Base();
      if kind.LeftJoin? {
        SeekChildren(k, level);
      } else {
        Order(level, k, k, k);
        assert Cogroup.SeekAll(level, k, streams) == streams;
      }
      var all: seq<nat> := seq(|iters|, i => i);
      forall i | 0 <= i < |iters| ensures i in all {
        assert all[i] == i;
      }
      result := Collect(all, k);
    }

    // ---------- Union ----------

    /** Peek at every child and list those that point at the lowest row. */
    method SurveyAll() returns (lowest: RowNumber, lowestIters: seq<nat>)
      requires Live()
      modifies Repr
      ensures Live() && rest == old(rest) && streams == old(streams)
      ensures forall i :: 0 <= i < |iters| ==> peeks[i] == Head(streams[i])
      ensures Gathered(level, streams, |iters|, lowest, lowestIters)
      decreases height, 3
    {
      hide Ordered, Iter.Valid, Iter.Rest, Iter.Repr, Iter.Height, Iter.SeekLevel, Wired, Compare, Gathered;
      Base();
      lowest, lowestIters := MAX, [];
      GatherNone(level, streams);
      for i := 0 to |iters|
        invariant Live() && rest == old(rest) && streams == old(streams)
        invariant forall j :: 0 <= j < i ==> peeks[j] == Head(streams[j])
        invariant Gathered(level, streams, i, lowest, lowestIters)
      {
        var res := Peek(i);
        if streams[i] != [] {
          ValidHead(streams[i]);
        }
        GatherNext(level, streams, i, lowest, lowestIters);
        if res.Some? {
          var c := Compare(level, res.value.rowNumber, lowest);
          if c < 0 {
            lowest, lowestIters := res.value.rowNumber, [i];
          } else if c == 0 {
            lowestIters := lowestIters + [i];
          }
        }
      }
    }

    method NextUnion() returns (r: Option<Result>)
      requires Live() && kind.Union?
      modifies Repr
      ensures Live() && rest == old(rest)
      ensures var all := Meaning(required, level, old(streams), keep);
        r == Head(all) && all == AsSeq(r) + Meaning(required, level, streams, keep)
      decreases height, 4
    {
      hide Ordered, Iter.Valid, Iter.Rest, Iter.Repr, Iter.Height, Iter.SeekLevel, Wired, Compare, Gathered, Meaning;
      Base();
      ghost var all := Meaning(required, level, streams, keep);
      while true
        invariant Live() && rest == old(rest) && Meaning(required, level, streams, keep) == all
        decreases Size(streams)
      {
        Sorted();
        var lowest, lowestIters := SurveyAll();
        ghost var S := streams;
        GatherDone(required, level, S, keep, lowest, lowestIters);
        var result := Collect(lowestIters, lowest);
        if lowestIters == [] {
          assert streams == S by { NothingLeft(level, lowest, S); }
          return None;
        }
        Merged(level, S, keep);
        if keep(result) {
          return Some(result);
        }
      }
    }

    static lemma NothingLeft(d: Level, k: RowNumber, S: Streams)
      requires Exhausted(S)
      ensures Advance(d, k, S) == S
    {
    }

    // ---------- The interface ----------

    method Next() returns (r: Option<Result>)
      requires Valid()
      modifies Repr
      ensures Valid()
      ensures r == Head(old(rest)) && old(rest) == AsSeq(r) + rest
      decreases height, 6
    {
      hide Ordered, Iter.Valid, Iter.Rest, Iter.Repr, Iter.Height, Iter.SeekLevel, Wired, Meaning;
      Base();
      Apart();
      if kind.Union? {
        r := NextUnion();
      } else {
        r := NextJoin();
      }
      Tail(r, Meaning(required, level, streams, keep), rest);
      rest := Meaning(required, level, streams, keep);
    }

    method SeekTo(t: RowNumber, d: nat) returns (r: Option<Result>)
      requires Valid() && d <= level
      modifies Repr
      ensures Valid()
      ensures var s := DropBelow(d, t, old(rest)); r == Head(s) && s == AsSeq(r) + rest
      decreases height, 7
    {
      hide Ordered, Iter.Valid, Iter.Rest, Iter.Repr, Iter.Height, Iter.SeekLevel, Wired, Meaning, DropBelow;
      Base();
      Apart();
      Sorted();
      SeekCommutes(required, level, streams, keep, d, t);
      SeekTail(d, t, None, rest, rest);
      SeekChildren(t, d);
      rest := DropBelow(d, t, rest);
      r := Next();
    }
  }
}
