/**
  ColumnIterator (pkg/parquetquery/iters.go): a goroutine scans row groups and pages
  and sends buffers over a channel of capacity one, while the consumer calls Next and
  SeekTo. Both run in one object here; Yield lets the goroutine take any number of
  steps, so every interleaving of the two is covered.
 */
module Columns {
  import opened Wrappers
  import opened RowNumbers
  import opened Parquet
  import opened Cogroup
  import opened Scan
  import opened Predicates

  /** The meaning of an optional filter, as a function of the value. */
  ghost function KeepOf(filter: Predicate?): (keep: Value -> bool)
    requires filter != null ==> filter.Wired()
    ensures forall v :: keep(v) == (filter == null || filter.Keeps(v))
  {
    (v: Value) => filter == null || (filter.Wired() && filter.Keeps(v))
  }

  ghost predicate SkipsNever(filter: Predicate?)
    requires filter != null ==> filter.Wired()
  {
    filter == null || filter.NeverSkips()
  }

  lemma RejectedPage(p: Predicate, nullsKept: bool, page: Page)
    requires p.Wired() && !nullsKept && p.RejectsPage(page) && SafeValues(nullsKept, KeepOf(p), page.values)
    ensures forall v :: v in page.values ==> !KeepOf(p)(v)
  {
  }

  lemma {:induction false} RejectedPages(p: Predicate, nullsKept: bool, ps: seq<Page>)
    requires p.Wired() && !nullsKept && SafePages(nullsKept, KeepOf(p), ps)
    requires forall i :: 0 <= i < |ps| ==> p.RejectsPage(ps[i])
    ensures forall v :: v in PageValues(ps) ==> !KeepOf(p)(v)
  {
    if ps != [] {
      RejectedPage(p, nullsKept, ps[0]);
      RejectedPages(p, nullsKept, ps[1..]);
      assert forall v :: v in PageValues(ps) ==> v in ps[0].values || v in PageValues(ps[1..]);
    }
  }

  class ColumnIterator {
    const filter: Predicate?
    const selectAs: string
    const readSize: nat

    var seekTo: RowNumber
    var ch: Option<seq<Result>>  // the buffered channel: at most one buffer in flight
    var closed: bool

    var curr: Option<seq<Result>>  // the consumer's buffer and its position in it
    var currN: int
    var work: Work                 // the goroutine's position

    ghost var rest: seq<Result>  // what is still to be delivered
    ghost var pending: seq<Result>  // in the consumer's hands, in the channel, or found by a full scan from here on
    ghost const keep: Value -> bool
    ghost const Repr: set<object>

    /** The filter is ready for the given pages of its row group. */
    ghost predicate Filtered(pages: seq<Page>)
      reads Repr - {this}
    {
      && this in Repr
      && (filter != null ==> filter in Repr && filter.Repr <= Repr && this !in filter.Repr && filter.Valid())
      && keep == KeepOf(filter)
      && (filter != null && pages != [] ==> filter.group.Some? && Truthful(filter.group.value))
      && (filter != null && pages != [] ==>
            forall i :: 0 <= i < |pages| ==> pages[i] in filter.group.value.pages)
    }

    /** Holds throughout, also in the middle of a call. */
    ghost predicate Inv()
      reads this, Repr
    {
      && Filtered(work.pages)
      && Shape(ch, closed, curr, currN, work)
      && Tracks(SkipsNever(filter), keep, selectAs, InHand(curr, currN) + Sent(ch), work, pending)
    }

    ghost predicate Shape(ch: Option<seq<Result>>, closed: bool, curr: Option<seq<Result>>, currN: int, work: Work) {
      && 0 < readSize && (ch.Some? ==> ch.value != []) && (curr.Some? ==> 0 <= currN < |curr.value|)
      && (closed ==> work.groups == [] && work.pages == [] && work.values == [])
    }

    static ghost function Sent(ch: Option<seq<Result>>): seq<Result> {
      if ch.Some? then ch.value else []
    }

    static ghost function InHand(curr: Option<seq<Result>>, currN: int): seq<Result> {
      if curr.Some? && 0 <= currN < |curr.value| then curr.value[currN + 1..] else []
    }

    /** Between calls: exactly rest is pending, and none of it can be skipped any more. */
    ghost predicate Valid()
      reads this, Repr
    {
      Inv() && pending == rest && forall i :: 0 <= i < |rest| ==> rest[i].rowNumber[0] >= seekTo[0]
    }

    constructor (rgs: seq<RowGroup>, filter: Predicate?, readSize: nat, selectAs: string)
      requires 0 < readSize && NumRows(GroupValues(rgs)) <= MAX_INT64
      requires filter != null ==> filter.Valid()
      requires SafeGroups(SkipsNever(filter), KeepOf(filter), rgs)
      ensures Valid() && Repr == {this} + (if filter == null then {} else filter.Repr)
      ensures StartsRow(GroupValues(rgs))
      ensures rest == Full(KeepOf(filter), selectAs, EMPTY, GroupValues(rgs))
    {
      hide Tracks, Full, SafeGroups, Levelled;
      this.filter, this.readSize, this.selectAs := filter, readSize, selectAs;
      seekTo := [0, 0, 0, 0, 0, 0];
      ch, closed, curr, currN, work := None, false, None, -1, Work(rgs, [], [], EMPTY);
      keep := KeepOf(filter);
      Repr := {this} + (if filter == null then {} else filter.Repr);
      FreshTracks(SkipsNever(filter), KeepOf(filter), selectAs, rgs);
      rest := Full(KeepOf(filter), selectAs, EMPTY, GroupValues(rgs));
      pending := rest;
    }

    // ---------- The goroutine ----------

    predicate Enabled()
      reads this
    {
      !closed && (work.values == [] || ch == None)
    }

    /** Whether all of the next numRows rows lie below the seek target. */
    predicate KeepSeeking(numRows: nat)
      reads this
    {
      Compare(0, Skip(work.rn, numRows), seekTo) < 0
    }

    /** Seek first, then ask the filter: a skipped row group is below the target or has nothing to keep. */
    method SkipsGroup() returns (skip: bool)
      requires Filtered(work.pages) && work.pages == [] && work.groups != [] && SafeGroups(SkipsNever(filter), keep, work.groups)
      modifies Repr - {this}
      ensures Filtered(work.pages)
      ensures filter != null && !skip ==> filter.group == Some(work.groups[0])
      ensures var vs := PageValues(work.groups[0].pages);
        skip ==> work.rn[0] + NumRows(vs) < seekTo[0] || forall v :: v in vs ==> !keep(v)
      ensures skip <==>
        (work.rn[0] + NumRows(PageValues(work.groups[0].pages)) < seekTo[0] || (filter != null && !filter.ChunkKeeps(work.groups[0])))
    {
      skip := KeepSeeking(NumRows(PageValues(work.groups[0].pages)));
      if !skip && filter != null {
        var kept := filter.KeepColumnChunk(work.groups[0]);
        skip := !kept;
        if skip {
          RejectedPages(filter, SkipsNever(filter), work.groups[0].pages);
        }
      }
    }

    lemma InRepr()
      requires Filtered(work.pages)
      ensures this in Repr
    {
    }

    lemma WiredFilter()
      requires Filtered(work.pages)
      ensures this in Repr && (filter != null ==> filter.Wired())
    {
    }

    lemma SafeAhead()
      requires Inv()
      ensures Levelled(work.values) && Ordered(pending)
      ensures SafePages(SkipsNever(filter), keep, work.pages) && SafeGroups(SkipsNever(filter), keep, work.groups)
    {
    }

    method NextGroup()
      requires Inv() && !closed && work.values == [] && work.pages == [] && work.groups != []
      modifies this`ch, this`closed, this`work, this`pending, Repr - {this}
      ensures Inv() && Effort(work) < Effort(old(work))
      ensures Thinned(seekTo[0], old(pending), pending)
    {
      hide Tracks, Thinned, Effort;
      SafeAhead();
      var skip := SkipsGroup();
      pending := TrackGroup(SkipsNever(filter), keep, selectAs, InHand(curr, currN) + Sent(ch), work, pending, seekTo[0], skip);
      work := PassGroup(work, skip);
    }

    method SkipsPage() returns (skip: bool)
      requires Filtered(work.pages) && work.pages != [] && SafePages(SkipsNever(filter), keep, work.pages)
      modifies Repr - {this}
      ensures Filtered(work.pages)
      ensures var vs := work.pages[0].values;
        skip ==> work.rn[0] + NumRows(vs) < seekTo[0] || forall v :: v in vs ==> !keep(v)
      ensures skip <==>
        (work.rn[0] + NumRows(work.pages[0].values) < seekTo[0] || (filter != null && !old(filter.PageKeeps(work.pages[0]))))
    {
      skip := KeepSeeking(NumRows(work.pages[0].values));
      if !skip && filter != null {
        var kept := filter.KeepPage(work.pages[0]);
        skip := !kept;
        if skip {
          RejectedPage(filter, SkipsNever(filter), work.pages[0]);
        }
      }
    }

    method NextPage()
      requires Inv() && !closed && work.values == [] && work.pages != []
      modifies this`ch, this`closed, this`work, this`pending, Repr - {this}
      ensures Inv() && Effort(work) < Effort(old(work))
      ensures Thinned(seekTo[0], old(pending), pending)
    {
      hide Tracks, Thinned, Effort;
      SafeAhead();
      var skip := SkipsPage();
      pending := TrackPage(SkipsNever(filter), keep, selectAs, InHand(curr, currN) + Sent(ch), work, pending, seekTo[0], skip);
      work := PassPage(work, skip);
    }

    /** Number and filter the next n values of the open page. */
    method ReadChunk(n: nat) returns (buffer: seq<Result>, t: RowNumber)
      requires Filtered(work.pages) && Levelled(work.values) && n <= |work.values|
      modifies Repr - {this}
      ensures Filtered(work.pages) && Levelled(work.values[..n])
      ensures buffer == Full(keep, selectAs, work.rn, work.values[..n]) && t == After(work.rn, work.values[..n])
    {
      hide Filtered, Full, After, Levelled;
      buffer, t := [], work.rn;
      FullOfNone(keep, selectAs, work.rn);
      for i := 0 to n
        invariant Filtered(work.pages) && Levelled(work.values[..i])
        invariant buffer == Full(keep, selectAs, work.rn, work.values[..i]) && t == After(work.rn, work.values[..i])
      {
        var v := work.values[i];
        FullLast(keep, selectAs, work.rn, work.values, i);
        t := RowNumbers.Next(t, v.r, v.d);
        var kept := Keeps(v);
        if kept {
          buffer := buffer + [MakeResult(selectAs, t, v)];
        }
      }
    }

    /** The filter's verdict; no filter keeps everything. */
    method Keeps(v: Value) returns (kept: bool)
      requires Filtered(work.pages)
      modifies Repr - {this}
      ensures Filtered(work.pages) && kept == keep(v)
    {
      kept := true;
      if filter != null {
        kept := filter.KeepValue(v);
      }
    }

    /** Read some values and send what was kept; an empty buffer is not sent. */
    method SendChunk()
      requires Inv() && !closed && work.values != [] && ch == None
      modifies this`ch, this`closed, this`work, this`pending, Repr - {this}
      ensures Inv() && Effort(work) < Effort(old(work))
      ensures pending == old(pending) && (ch.Some? ==> |ch.value| <= readSize)
    {
      hide Tracks, Effort;
      SafeAhead();
      var n: nat :| 1 <= n <= |work.values| && n <= readSize;
      var buffer, t := ReadChunk(n);
      FullShort(keep, selectAs, work.rn, work.values[..n]);
      TrackRead(SkipsNever(filter), keep, selectAs, InHand(curr, currN), work, pending, n);
      work := work.(values := work.values[n..], rn := t);
      if buffer != [] {
        ch := Some(buffer);
      }
    }

    /** One step of the goroutine. */
    method Step()
      requires Inv() && Enabled()
      modifies this`ch, this`closed, this`work, this`pending, Repr - {this}
      ensures Inv() && Thinned(seekTo[0], old(pending), pending)
      ensures Effort(work) < Effort(old(work)) || (closed && work == old(work))
    {
      hide Tracks, Thinned, Effort;
      if work.values != [] {
        SendChunk();
        ThinnedSame(seekTo[0], pending);
      } else if work.pages != [] {
        NextPage();
      } else if work.groups != [] {
        NextGroup();
      } else {
        ThinnedSame(seekTo[0], pending);
        closed := true;
      }
    }

    /** The scheduler lets the goroutine run for as long as it likes. */
    method Yield()
      requires Inv()
      modifies this`ch, this`closed, this`work, this`pending, Repr - {this}
      ensures Inv() && Thinned(seekTo[0], old(pending), pending)
    {
      hide Tracks, Thinned, Effort, Filtered;
      ThinnedSame(seekTo[0], pending);
      while *
        invariant Inv() && Thinned(seekTo[0], old(pending), pending)
        decreases Effort(work), !closed
      {
        if !Enabled() {
          break;
        }
        ghost var before := pending;
        Step();
        ThinnedTwice(seekTo[0], old(pending), before, pending);
      }
    }

    // ---------- The consumer ----------

    /** The next result of the current buffer, if it has one left. */
    method TakeCurrent() returns (r: Option<Result>)
      requires Inv()
      modifies this`curr, this`currN, this`pending
      ensures Inv()
      ensures r.Some? ==> old(pending) == [r.value] + pending
      ensures r.None? ==> pending == old(pending) && curr == None
    {
      hide Tracks;
      if curr.Some? {
        currN := currN + 1;
        if currN < |curr.value| {
          var t := curr.value[currN];
          assert InHand(curr, old(currN)) + Sent(ch) == [t] + (InHand(curr, currN) + Sent(ch));
          TrackPop(SkipsNever(filter), keep, selectAs, t, InHand(curr, currN) + Sent(ch), work, pending);
          // The source loops here until it meets a valid row number, without moving on: it
          // ends because every buffered row number is valid.
          assert RowNumbers.Valid(t.rowNumber);
          pending := pending[1..];
          return Some(t);
        }
        assert InHand(curr, old(currN)) == [] == InHand(None, currN);
        curr := None;
      }
      return None;
    }

    /** Block on the channel: the goroutine runs until it sends or closes. */
    method Receive() returns (r: Option<Result>)
      requires Inv() && curr == None
      modifies this`ch, this`closed, this`work, this`pending, this`curr, this`currN, Repr - {this}
      ensures Inv()
      ensures Thinned(seekTo[0], old(pending), Ahead(r, pending)) && (r.None? ==> pending == [])
    {
      hide Tracks, Thinned, Inv;
      Await();
      r := TakeBuffer();
    }

    method Await()
      requires Inv() && curr == None
      modifies this`ch, this`closed, this`work, this`pending, Repr - {this}
      ensures Inv() && Thinned(seekTo[0], old(pending), pending) && (ch.Some? || closed)
    {
      hide Tracks, Thinned, Effort, Filtered, Shape;
      ThinnedSame(seekTo[0], pending);
      while ch == None && !closed
        invariant Inv() && curr == None && Thinned(seekTo[0], old(pending), pending)
        decreases Effort(work), !closed
      {
        ghost var before := pending;
        Step();
        ThinnedTwice(seekTo[0], old(pending), before, pending);
      }
    }

    method TakeBuffer() returns (r: Option<Result>)
      requires Inv() && curr == None && (ch.Some? || closed)
      modifies this`ch, this`curr, this`currN, this`pending
      ensures Inv() && old(pending) == Ahead(r, pending) && (r.None? ==> pending == [])
    {
      hide Tracks, Filtered;
      WiredFilter();
      if ch.Some? {
        assert InHand(curr, currN) + Sent(ch) == [ch.value[0]] + (InHand(ch, 0) + Sent(None));
        TrackPop(SkipsNever(filter), keep, selectAs, ch.value[0], InHand(ch, 0) + Sent(None), work, pending);
        assert pending == [pending[0]] + pending[1..];
        curr, currN, ch, pending := ch, 0, None, pending[1..];
        return Some(curr.value[0]);
      }
      assert InHand(curr, currN) + Sent(ch) == [];
      TrackEnd(SkipsNever(filter), keep, selectAs, work, pending);
      return None;
    }

    /** next(): consume the current buffer, then read another one from the channel. */
    method Pull() returns (r: Option<Result>)
      requires Inv()
      modifies this`ch, this`closed, this`work, this`pending, this`curr, this`currN, Repr - {this}
      ensures Inv()
      ensures Thinned(seekTo[0], old(pending), Ahead(r, pending)) && (r.None? ==> pending == [])
    {
      hide Tracks, Thinned;
      Yield();
      ghost var before := pending;
      r := TakeCurrent();
      if r == None {
        r := Receive();
        ThinnedTwice(seekTo[0], old(pending), before, Ahead(r, pending));
      }
    }

    method Next() returns (r: Option<Result>)
      requires Valid()
      modifies Repr
      ensures Valid()
      ensures old(rest) == [] ==> r == None && rest == []
      ensures old(rest) != [] ==> r == Some(old(rest)[0]) && rest == old(rest)[1..]
    {
      hide Tracks, Thinned;
      r := Pull();
      Popped(seekTo[0], rest, r, pending);
      rest := pending;
    }

    /** Between two calls the goroutine runs on under the old target: nothing that is due gets lost. */
    method Idle()
      requires Valid()
      modifies this`ch, this`closed, this`work, this`pending, Repr - {this}
      ensures Valid()
    {
      hide Tracks, Thinned, Filtered;
      Yield();
      ThinnedNothing(seekTo[0], rest, pending);
    }

    /** Signal the goroutine where to skip to, then read up to the target. */
    method SeekTo(to: RowNumber, d: nat) returns (r: Option<Result>)
      requires Valid() && d < LEVELS
      modifies Repr
      ensures Valid()
      ensures var s := DropBelow(d, to, old(rest));
        if s == [] then r == None && rest == [] else r == Some(s[0]) && rest == s[1..]
    {
      hide Tracks, Thinned, DropBelow, Ordered, Filtered, Shape;
      InRepr();
      Idle();
      SafeAhead();
      seekTo := to;
      r := ReadTo(to, d);
      rest := pending;
    }

    /** Read until the target is reached. */
    method ReadTo(to: RowNumber, d: nat) returns (r: Option<Result>)
      requires Inv() && seekTo == to && d < LEVELS && Ordered(pending)
      modifies this`ch, this`closed, this`work, this`pending, this`curr, this`currN, Repr - {this}
      ensures Inv() && DropBelow(d, to, old(pending)) == Ahead(r, pending)
      ensures (r.None? ==> pending == []) && forall i :: 0 <= i < |pending| ==> pending[i].rowNumber[0] >= to[0]
    {
      hide Tracks, Thinned, DropBelow, Ordered, Inv, Compare;
      ghost var all := pending;
      r := Pull();
      Landed(d, to, all, r, pending);
      while r.Some? && Compare(d, r.value.rowNumber, to) < 0
        invariant Inv() && seekTo == to
        invariant DropBelow(d, to, Ahead(r, pending)) == DropBelow(d, to, all) && (r.None? ==> pending == [])
        invariant Ordered(Ahead(r, pending))
        decreases |Ahead(r, pending)|
      {
        ghost var before := pending;
        Below(d, to, r.value, pending);
        r := Pull();
        Landed(d, to, before, r, pending);
      }
      Found(d, to, r, pending);
    }

    static ghost function Ahead(r: Option<Result>, pending: seq<Result>): seq<Result> {
      if r.Some? then [r.value] + pending else []
    }

    static lemma Popped(floor: int, rest: seq<Result>, r: Option<Result>, pending: seq<Result>)
      requires Thinned(floor, rest, Ahead(r, pending)) && (r.None? ==> pending == [])
      requires forall i :: 0 <= i < |rest| ==> rest[i].rowNumber[0] >= floor
      ensures r.None? ==> rest == []
      ensures r.Some? ==> rest != [] && r.value == rest[0] && pending == rest[1..]
      ensures forall i :: 0 <= i < |pending| ==> pending[i].rowNumber[0] >= floor
    {
      ThinnedNothing(floor, rest, Ahead(r, pending));
    }

    static lemma Below(d: nat, to: RowNumber, x: Result, pending: seq<Result>)
      requires d < LEVELS && Compare(d, x.rowNumber, to) < 0 && Ordered([x] + pending)
      ensures DropBelow(d, to, [x] + pending) == DropBelow(d, to, pending) && Ordered(pending)
    {
      assert ([x] + pending)[1..] == pending;
    }

    static lemma Found(d: nat, to: RowNumber, r: Option<Result>, pending: seq<Result>)
      requires d < LEVELS && Ordered(Ahead(r, pending))
      requires r.Some? ==> Compare(d, r.value.rowNumber, to) >= 0
      ensures DropBelow(d, to, Ahead(r, pending)) == Ahead(r, pending)
      ensures r.Some? ==> forall i :: 0 <= i < |pending| ==> pending[i].rowNumber[0] >= to[0]
    {
      if r.Some? {
        RootAtLeast(d, to, Ahead(r, pending));
        forall i | 0 <= i < |pending| ensures pending[i].rowNumber[0] >= to[0] {
          assert Ahead(r, pending)[i + 1] == pending[i];
        }
      }
    }

    static lemma Landed(d: nat, to: RowNumber, before: seq<Result>, r: Option<Result>, pending: seq<Result>)
      requires d < LEVELS && Ordered(before) && Thinned(to[0], before, Ahead(r, pending))
      ensures DropBelow(d, to, Ahead(r, pending)) == DropBelow(d, to, before)
      ensures Ordered(Ahead(r, pending)) && |Ahead(r, pending)| <= |before|
    {
      ThinnedSeek(d, to, before, Ahead(r, pending));
      ThinnedOrdered(to[0], before, Ahead(r, pending));
      ThinnedKeeps(to[0], before, Ahead(r, pending));
    }
  }
}
