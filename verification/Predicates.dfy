/**
  Pushdown predicates (pkg/parquetquery/predicates.go). A predicate answers three
  questions, for a column chunk, for a page and for a value; the first two only
  exist to skip work. The classes keep the source's mutable state: the memo of text
  matches and the dictionary verdict that is cached for a whole row group.
 */
module Predicates {
  import opened Wrappers
  import opened Parquet

  type Regex = string -> bool

  datatype Test =
    | StringIn(ss: seq<Bytes>)
    | RegexIn(regs: seq<Regex>)
    | RegexNotIn(regs: seq<Regex>)
    | Substring(substring: string)
    | IntBetween(min: int, max: int)
    | FloatBetween(fmin: real, fmax: real)
    | Generic(fn: int -> bool, rangeFn: Option<(int, int) -> bool>)
    | SkipNils
    | Or

  predicate OccursAt(s: string, sub: string, i: nat) {
    i + |sub| <= |s| && s[i..i + |sub|] == sub
  }

  predicate Contains(s: string, sub: string) {
    exists i :: 0 <= i <= |s| && OccursAt(s, sub, i)
  }

  predicate Memoized(t: Test) {
    t.RegexIn? || t.RegexNotIn? || t.Substring?
  }

  predicate UsesDictionary(t: Test) {
    t.StringIn? || Memoized(t) || t.Generic?
  }

  /** Bounds are looked at. */
  predicate Ranged(t: Test) {
    t.StringIn? || t.IntBetween? || t.FloatBetween? || (t.Generic? && t.rangeFn.Some?)
  }

  /** The text question that the memo remembers the answers of. */
  predicate MatchesText(t: Test, s: string)
    requires Memoized(t)
  {
    match t
    case RegexIn(regs) => exists i :: 0 <= i < |regs| && regs[i](s)
    case RegexNotIn(regs) => exists i :: 0 <= i < |regs| && !regs[i](s)
    case Substring(sub) => Contains(s, sub)
  }

  /** What KeepValue means for a predicate other than Or; levels play no part. */
  predicate LeafKeeps(t: Test, v: Value)
    requires !t.Or?
  {
    match t
    case StringIn(ss) => v.bytes in ss
    case RegexIn(_) => !v.isNull && MatchesText(t, v.text)
    case RegexNotIn(_) => !v.isNull && MatchesText(t, v.text)
    case Substring(_) => MatchesText(t, v.text)
    case IntBetween(min, max) => min <= v.int64 <= max
    case FloatBetween(min, max) => min <= v.double <= max
    case Generic(fn, _) => fn(v.int64)
    case SkipNils => !v.isNull
  }

  /** Whether a value inside the bounds could be kept, as far as the bounds tell. */
  predicate RangeKeeps(t: Test, b: Bounds)
    requires Ranged(t)
  {
    match t
    case StringIn(ss) => exists i :: 0 <= i < |ss| && BytesAtMost(b.min.bytes, ss[i]) && BytesAtMost(ss[i], b.max.bytes)
    case IntBetween(min, max) => max >= b.min.int64 && min <= b.max.int64
    case FloatBetween(min, max) => max >= b.min.double && min <= b.max.double
    case Generic(_, rangeFn) => rangeFn.value(b.min.int64, b.max.int64)
  }

  /** A caller's RangeFn must not reject a range that holds an accepted point. */
  ghost predicate SoundRange(t: Test) {
    t.Generic? && t.rangeFn.Some? ==>
      forall lo, hi, x :: lo <= x <= hi && t.fn(x) ==> t.rangeFn.value(lo, hi)
  }

  lemma RangeSound(t: Test, b: Bounds, v: Value)
    requires Ranged(t)
    requires SoundRange(t) && Within(v, b) && LeafKeeps(t, v)
    ensures RangeKeeps(t, b)
  {
    if t.StringIn? {
      var i :| 0 <= i < |t.ss| && t.ss[i] == v.bytes;
      assert BytesAtMost(b.min.bytes, t.ss[i]) && BytesAtMost(t.ss[i], b.max.bytes);
    }
  }

  /** A leaf's verdict on a column chunk: only bounds in the column index can rule it out. */
  predicate LeafKeepsChunk(t: Test, g: RowGroup)
    requires !t.Or?
  {
    Ranged(t) && g.index.Some? ==> exists i :: 0 <= i < |g.index.value| && RangeKeeps(t, g.index.value[i])
  }

  /** Page bounds are looked at, and are there. */
  predicate ByBounds(t: Test, p: Page) {
    Ranged(t) && !t.StringIn? && p.bounds.Some?
  }

  /** A leaf's verdict on the first page of a row group: by nulls, by bounds or by the dictionary. */
  predicate LeafKeepsPage(t: Test, p: Page)
    requires !t.Or?
  {
    if t.SkipNils? then exists v :: v in p.values && !v.isNull
    else if ByBounds(t, p) then RangeKeeps(t, p.bounds.value)
    else UsesDictionary(t) && p.dictionary.Some? ==> exists i :: 0 <= i < |p.dictionary.value| && LeafKeeps(t, p.dictionary.value[i])
  }

  function CountNulls(vs: seq<Value>): nat {
    if vs == [] then 0 else (if vs[0].isNull then 1 else 0) + CountNulls(vs[1..])
  }

  lemma {:induction false} AllNull(vs: seq<Value>)
    ensures CountNulls(vs) <= |vs|
    ensures CountNulls(vs) == |vs| <==> forall v :: v in vs ==> v.isNull
  {
    if vs != [] {
      AllNull(vs[1..]);
      assert forall v :: v in vs ==> v == vs[0] || v in vs[1..];
    }
  }

  class Predicate {
    const test: Test
    const children: seq<Predicate?>  // of an Or; null stands for "keep everything"

    // DictionaryPredicateHelper
    var newRowGroup: bool
    var keepPagesInRowGroup: bool

    var matches: map<string, bool>

    ghost var group: Option<RowGroup>  // the row group of the last KeepColumnChunk
    ghost const height: nat
    ghost const Repr: set<object>

    /** The tree is finite and its nodes are not shared. */
    ghost predicate Wired()
      decreases height
    {
      && this in Repr
      && SoundRange(test)
      && (!test.Or? ==> children == [])
      && (forall i :: 0 <= i < |children| && children[i] != null ==>
            && children[i].height < height && children[i] in Repr
            && children[i].Repr <= Repr && this !in children[i].Repr && children[i].Wired())
      && (forall i, j :: 0 <= i < j < |children| && children[i] != null && children[j] != null ==>
            children[i].Repr !! children[j].Repr)
    }

    /** The meaning of the predicate, independent of all caches. */
    ghost predicate Keeps(v: Value)
      requires Wired()
      decreases height
    {
      if test.Or? then exists i :: 0 <= i < |children| && (children[i] == null || children[i].Keeps(v))
      else LeafKeeps(test, v)
    }

    /** An Or with a nil branch accepts everything at every level. */
    ghost predicate NeverSkips()
      requires Wired()
      decreases height
    {
      test.Or? && exists i :: 0 <= i < |children| && (children[i] == null || children[i].NeverSkips())
    }

    /** The exact verdict on a column chunk: only bounds in the column index can rule it out. */
    ghost predicate ChunkKeeps(g: RowGroup)
      requires Wired()
      decreases height
    {
      if test.Or? then exists i :: 0 <= i < |children| && (children[i] == null || children[i].ChunkKeeps(g))
      else LeafKeepsChunk(test, g)
    }

    /** The exact verdict on a page: by bounds or nulls where they are used, else what the dictionary says or said. */
    ghost predicate PageKeeps(p: Page)
      requires Wired()
      reads this, Repr
      decreases height
    {
      if test.Or? then exists i :: 0 <= i < |children| && (children[i] == null || children[i].PageKeeps(p))
      else if UsesDictionary(test) && !ByBounds(test, p) && !newRowGroup then keepPagesInRowGroup
      else LeafKeepsPage(test, p)
    }

    ghost predicate DictionaryKeeps(p: Page)
      requires Wired()
    {
      p.dictionary.Some? ==> exists i :: 0 <= i < |p.dictionary.value| && Keeps(p.dictionary.value[i])
    }

    ghost predicate RejectsPage(p: Page)
      requires Wired()
    {
      forall v :: v in p.values && !v.isNull ==> !Keeps(v)
    }

    ghost predicate RejectsGroup(g: RowGroup)
      requires Wired()
    {
      forall i :: 0 <= i < |g.pages| ==> RejectsPage(g.pages[i])
    }

    ghost predicate Valid()
      reads this, Repr
      decreases height
    {
      && Wired()
      && (Memoized(test) ==> forall s :: s in matches ==> matches[s] == MatchesText(test, s))
      && (group.Some? && UsesDictionary(test) && !newRowGroup && !keepPagesInRowGroup ==> RejectsGroup(group.value))
      && (forall i :: 0 <= i < |children| && children[i] != null ==>
            children[i].Valid() && children[i].group == group)
    }

    constructor (test: Test, children: seq<Predicate?>)
      requires SoundRange(test) && (!test.Or? ==> children == [])
      requires forall i :: 0 <= i < |children| && children[i] != null ==> children[i].Valid() && children[i].group == None
      requires forall i, j :: 0 <= i < j < |children| && children[i] != null && children[j] != null ==>
        children[i].Repr !! children[j].Repr
      ensures Valid() && group == None && this.test == test && this.children == children
      ensures Repr == {this} + Footprint(children)
    {
      this.test, this.children := test, children;
      newRowGroup, keepPagesInRowGroup, matches := false, false, map[];
      group := None;
      height := Above(children);
      Repr := {this} + Footprint(children);
    }

    // ---------- Values ----------

    /** The verdict on a text, from the memo or by asking and remembering. */
    method MatchText(s: string) returns (matched: bool)
      requires Valid() && Memoized(test)
      modifies this`matches
      ensures Valid() && matched == MatchesText(test, s)
    {
      if s in matches {
        return matches[s];
      }
      matched := false;
      if test.Substring? {
        matched := Contains(s, test.substring);
      } else {
        for i := 0 to |test.regs|
          invariant !matched
          invariant forall k :: 0 <= k < i ==> test.regs[k](s) == test.RegexNotIn?
        {
          if test.regs[i](s) == test.RegexIn? {
            matched := true;
            break;
          }
        }
      }
      matches := matches[s := matched];
    }

    method KeepValue(v: Value) returns (keep: bool)
      requires Valid()
      modifies Repr
      ensures Valid() && group == old(group) && keep == Keeps(v)
      ensures newRowGroup == old(newRowGroup) && keepPagesInRowGroup == old(keepPagesInRowGroup)
      decreases height
    {
      match test {
        case Or =>
          keep := OrKeepValue(v);
        case StringIn(ss) =>
          keep := v.bytes in ss;
        case RegexIn(_) =>
          if v.isNull { return false; }
          keep := MatchText(v.text);
        case RegexNotIn(_) =>
          if v.isNull { return false; }
          keep := MatchText(v.text);
        case Substring(_) =>
          keep := MatchText(v.text);
        case IntBetween(min, max) =>
          keep := min <= v.int64 && v.int64 <= max;
        case FloatBetween(min, max) =>
          keep := min <= v.double && v.double <= max;
        case Generic(fn, _) =>
          keep := fn(v.int64);
        case SkipNils =>
          keep := !v.isNull;
      }
    }

    method OrKeepValue(v: Value) returns (keep: bool)
      requires Valid() && test.Or?
      modifies Repr
      ensures Valid() && group == old(group) && keep == Keeps(v)
      ensures newRowGroup == old(newRowGroup) && keepPagesInRowGroup == old(keepPagesInRowGroup)
      decreases height, 0
    {
      for i := 0 to |children|
        invariant Valid() && group == old(group)
        invariant newRowGroup == old(newRowGroup) && keepPagesInRowGroup == old(keepPagesInRowGroup)
        invariant forall k :: 0 <= k < i ==> children[k] != null && !children[k].Keeps(v)
      {
        if children[i] == null {
          return true;
        }
        keep := children[i].KeepValue(v);
        if keep {
          return;
        }
      }
      return false;
    }

    // ---------- Column chunks ----------

    /** Whether any page's bounds in the column index leave room for a kept value. */
    method IndexKeeps(index: seq<Bounds>) returns (keep: bool)
      requires Ranged(test)
      ensures keep == exists i :: 0 <= i < |index| && RangeKeeps(test, index[i])
    {
      for i := 0 to |index|
        invariant forall k :: 0 <= k < i ==> !RangeKeeps(test, index[k])
      {
        if RangeKeeps(test, index[i]) {
          return true;
        }
      }
      return false;
    }

    lemma IndexRejects(g: RowGroup)
      requires Wired() && Truthful(g) && g.index.Some?
      requires Ranged(test)
      requires forall i :: 0 <= i < |g.index.value| ==> !RangeKeeps(test, g.index.value[i])
      ensures RejectsGroup(g)
    {
      forall i, v | 0 <= i < |g.pages| && v in g.pages[i].values && !v.isNull ensures !Keeps(v) {
        assert BoundsHold(g.pages[i], g.index.value[i]);
        if LeafKeeps(test, v) {
          RangeSound(test, g.index.value[i], v);
        }
      }
    }

    method KeepColumnChunk(g: RowGroup) returns (keep: bool)
      requires Valid() && Truthful(g)
      modifies Repr
      ensures Valid() && group == Some(g) && keep == ChunkKeeps(g)
      ensures !keep ==> RejectsGroup(g)
      ensures NeverSkips() ==> keep
      decreases height
    {
      if UsesDictionary(test) {
        newRowGroup := true;
      }
      if Memoized(test) {
        matches := map[];
      }
      keep := true;
      if test.Or? {
        keep := OrKeepColumnChunk(g);
      } else if Ranged(test) {
        if g.index.Some? {
          keep := IndexKeeps(g.index.value);
          if !keep {
            IndexRejects(g);
          }
        }
      }
      group := Some(g);
    }

    /** Every branch is told about the new row group, whatever the others answer. */
    method OrKeepColumnChunk(g: RowGroup) returns (keep: bool)
      requires Valid() && Truthful(g) && test.Or?
      modifies Repr
      ensures Wired() && unchanged(this)
      ensures forall i :: 0 <= i < |children| && children[i] != null ==> children[i].Valid() && children[i].group == Some(g)
      ensures keep == ChunkKeeps(g)
      ensures !keep ==> RejectsGroup(g)
      ensures NeverSkips() ==> keep
      decreases height, 0
    {
      keep := false;
      for i := 0 to |children|
        invariant unchanged(this)
        invariant forall k :: 0 <= k < |children| && children[k] != null ==> children[k].Valid()
        invariant forall k :: 0 <= k < i && children[k] != null ==> children[k].group == Some(g)
        invariant !keep ==> forall k :: 0 <= k < i ==>
          children[k] != null && children[k].RejectsGroup(g) && !children[k].NeverSkips() && !children[k].ChunkKeeps(g)
        invariant keep ==> ChunkKeeps(g)
      {
        if children[i] == null {
          keep := true;
        } else {
          var k := children[i].KeepColumnChunk(g);
          keep := keep || k;
        }
      }
      if !keep {
        OrRejects(g);
      }
    }

    lemma OrRejects(g: RowGroup)
      requires Wired() && test.Or?
      requires forall i :: 0 <= i < |children| ==> children[i] != null && children[i].RejectsGroup(g)
      ensures RejectsGroup(g)
    {
      forall i | 0 <= i < |g.pages| ensures RejectsPage(g.pages[i]) {
        forall k | 0 <= k < |children| ensures children[k].RejectsPage(g.pages[i]) {}
      }
    }

    // ---------- Pages ----------

    /** DictionaryPredicateHelper.keepPage: the dictionary is asked once and answers for the whole row group. */
    method DictionaryKeepPage(p: Page) returns (keep: bool)
      requires Valid() && UsesDictionary(test)
      requires group.Some? && Truthful(group.value) && p in group.value.pages
      modifies Repr
      ensures Valid() && group == old(group)
      ensures keep == if old(newRowGroup) then DictionaryKeeps(p) else old(keepPagesInRowGroup)
      ensures !newRowGroup && keepPagesInRowGroup == keep
      ensures !keep ==> RejectsGroup(group.value)
      decreases height, 2
    {
      if !newRowGroup {
        return keepPagesInRowGroup;
      }
      newRowGroup, keepPagesInRowGroup := false, true;
      if p.dictionary == None {
        return true;
      }
      keep := false;
      for i := 0 to |p.dictionary.value|
        invariant Valid() && group == old(group) && !newRowGroup && keepPagesInRowGroup && !keep
        invariant forall k :: 0 <= k < i ==> !Keeps(p.dictionary.value[k])
      {
        keep := KeepValue(p.dictionary.value[i]);
        if keep {
          break;
        }
      }
      if !keep {
        DictionaryRejects(group.value, p);
      }
      keepPagesInRowGroup := keep;
    }

    lemma DictionaryRejects(g: RowGroup, p: Page)
      requires Wired() && !test.Or? && Truthful(g) && p in g.pages && p.dictionary.Some?
      requires forall i :: 0 <= i < |p.dictionary.value| ==> !Keeps(p.dictionary.value[i])
      ensures RejectsGroup(g)
    {
      forall i, v | 0 <= i < |g.pages| && v in g.pages[i].values && !v.isNull ensures !Keeps(v) {
        assert Covers(p.dictionary.value, g);
        assert InDictionary(v, p.dictionary.value);
        var k :| 0 <= k < |p.dictionary.value| && SamePayload(p.dictionary.value[k], v);
        assert !Keeps(p.dictionary.value[k]);
      }
    }

    method KeepPage(p: Page) returns (keep: bool)
      requires Valid()
      requires group.Some? && Truthful(group.value) && p in group.value.pages
      modifies Repr
      ensures Valid() && group == old(group) && keep == old(PageKeeps(p))
      ensures !keep ==> RejectsPage(p)
      ensures NeverSkips() ==> keep
      decreases height, 3
    {
      if test.Or? {
        keep := OrKeepPage(p);
      } else if test.SkipNils? {
        AllNull(p.values);
        keep := |p.values| > CountNulls(p.values);
      } else if ByBounds(test, p) {
        keep := RangeKeeps(test, p.bounds.value);
        if !keep {
          BoundsReject(p);
        }
      } else if UsesDictionary(test) {
        keep := DictionaryKeepPage(p);
      } else {
        keep := true;
      }
    }

    /** Branches are asked in turn until one keeps the page. */
    method OrKeepPage(p: Page) returns (keep: bool)
      requires Valid() && test.Or?
      requires group.Some? && Truthful(group.value) && p in group.value.pages
      modifies Repr
      ensures Valid() && group == old(group) && keep == old(PageKeeps(p))
      ensures !keep ==> RejectsPage(p)
      ensures NeverSkips() ==> keep
      decreases height, 0
    {
      for i := 0 to |children|
        invariant Valid() && group == old(group)
        invariant forall k :: 0 <= k < i ==>
          children[k] != null && children[k].RejectsPage(p) && !children[k].NeverSkips() && !old(children[k].PageKeeps(p))
        invariant forall k :: i <= k < |children| && children[k] != null ==> children[k].PageKeeps(p) == old(children[k].PageKeeps(p))
      {
        if children[i] == null {
          return true;
        }
        keep := children[i].KeepPage(p);
        if keep {
          return;
        }
      }
      return false;
    }

    lemma BoundsReject(p: Page)
      requires Wired() && p.bounds.Some? && BoundsHold(p, p.bounds.value)
      requires Ranged(test) && !test.StringIn?
      requires !RangeKeeps(test, p.bounds.value)
      ensures RejectsPage(p)
    {
      forall v | v in p.values && !v.isNull ensures !Keeps(v) {
        if LeafKeeps(test, v) {
          RangeSound(test, p.bounds.value, v);
        }
      }
    }
  }

  ghost function Above(ps: seq<Predicate?>): (h: nat)
    ensures forall i :: 0 <= i < |ps| && ps[i] != null ==> ps[i].height < h
  {
    if ps == [] then 1
    else
      var h := Above(ps[1..]);
      assert forall i :: 0 < i < |ps| ==> ps[i] == ps[1..][i - 1];
      if ps[0] != null && ps[0].height >= h then ps[0].height + 1 else h
  }

  ghost function Footprint(ps: seq<Predicate?>): (objects: set<object>)
    ensures forall i :: 0 <= i < |ps| && ps[i] != null ==> ps[i].Repr <= objects
  {
    if ps == [] then {}
    else
      assert forall i :: 0 < i < |ps| ==> ps[i] == ps[1..][i - 1];
      (if ps[0] == null then {} else ps[0].Repr) + Footprint(ps[1..])
  }
}
