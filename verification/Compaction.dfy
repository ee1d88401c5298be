/**
  Compaction selection and ownership (pkg/deepdb): which blocks are merged together,
  and why two compactors never merge the same block.
 */
module Compaction {
  import opened Arithmetic
  import opened Formatting

  const ACTIVE_WINDOW_SECONDS := 24 * 60 * 60

  datatype Meta = Meta(
    blockId: nat, tenant: string, level: nat, endTime: int,
    totalObjects: int, size: nat, encoding: string, version: string)

  datatype Entry = Entry(meta: Meta, group: string, order: string, hash: string)

  // ---------- Windows ----------

  /** Integer division as in Go: truncated towards zero. */
  function TruncDiv(a: int, b: int): int
    requires b > 0
  {
    if a >= 0 then a / b else -((-a) / b)
  }

  function WindowForTime(t: int, range: int): int
    requires range > 0
  {
    TruncDiv(t, range)
  }

  function ActiveWindow(now: int, range: int): int
    requires range > 0
  {
    WindowForTime(now - ACTIVE_WINDOW_SECONDS, range)
  }

  /** Blocks in the window that is turning from active to inactive are left alone. */
  predicate Eligible(b: Meta, now: int, range: int)
    requires range > 0
  {
    WindowForTime(b.endTime, range) != ActiveWindow(now, range)
  }

  function MakeEntry(b: Meta, now: int, range: int): Entry
    requires range > 0
  {
    var w := WindowForTime(b.endTime, range);
    var age := WindowForTime(now, range) - w;
    if ActiveWindow(now, range) <= w then
      Entry(b,
            "A-" + Dec(b.level) + "-" + Hex16(age),
            Hex16(b.totalObjects) + "-" + b.version,
            b.tenant + "-" + Dec(b.level) + "-" + DecInt(w))
    else
      Entry(b,
            "B-" + Hex16(age),
            Dec(b.level) + "-" + Hex16(b.totalObjects) + "-" + b.version,
            b.tenant + "-" + DecInt(w))
  }

  lemma Hex16Injective(a: int, b: int)
    requires Hex16(a) == Hex16(b)
    ensures a == b
  {
    Hex16RoundTrip(a);
    Hex16RoundTrip(b);
  }

  lemma TailOf(x: string, a: string, b: string)
    requires x + a == x + b
    ensures a == b
  {
    assert a == (x + a)[|x|..] && b == (x + b)[|x|..];
  }

  /** Entries of one tenant in one group carry one hash: a group belongs to one owner. */
  lemma GroupFixesHash(a: Meta, b: Meta, now: int, range: int)
    requires range > 0 && a.tenant == b.tenant
    requires MakeEntry(a, now, range).group == MakeEntry(b, now, range).group
    ensures MakeEntry(a, now, range).hash == MakeEntry(b, now, range).hash
  {
    hide Digits, Hex16, DecInt, TruncDiv;
    var wa, wb := WindowForTime(a.endTime, range), WindowForTime(b.endTime, range);
    var current := WindowForTime(now, range);
    var ga, gb := MakeEntry(a, now, range).group, MakeEntry(b, now, range).group;
    assert ga[0] == gb[0];
    if ActiveWindow(now, range) <= wa {
      DigitsRoundTrip(a.level, 10);
      DigitsRoundTrip(b.level, 10);
      var ta, tb := Dec(a.level) + "-" + Hex16(current - wa), Dec(b.level) + "-" + Hex16(current - wb);
      assert ga == "A-" + ta && gb == "A-" + tb;
      TailOf("A-", ta, tb);
      SplitAtDash(Dec(a.level), Hex16(current - wa), Dec(b.level), Hex16(current - wb));
      Hex16Injective(current - wa, current - wb);
    } else {
      TailOf("B-", Hex16(current - wa), Hex16(current - wb));
      Hex16Injective(current - wa, current - wb);
    }
  }

  // ---------- Ownership across clocks ----------

  /** Times at most one window apart lie in windows at most one apart. */
  lemma ClocksClose(s: int, t: int, range: int)
    requires range > 0 && s <= t <= s + range
    ensures TruncDiv(s, range) <= TruncDiv(t, range) <= TruncDiv(s, range) + 1
  {
    if s >= 0 {
      DivClose(s, t, range);
    } else if t <= 0 {
      DivClose(-t, -s, range);
    } else {
      // the two times lie on either side of the epoch, so less than a window from it
      DivUnique(t, range, 0, t);
      DivUnique(-s, range, 0, -s);
    }
  }

  ghost predicate AgreeOn(b: Meta, now1: int, now2: int, range: int)
    requires range > 0
  {
    Eligible(b, now1, range) && Eligible(b, now2, range) ==> MakeEntry(b, now1, range).hash == MakeEntry(b, now2, range).hash
  }

  /**
    Two compactors give every block that both consider the same ownership hash, exactly
    when their active windows are at most one apart: the excluded window is what makes
    one step of disagreement harmless, and two steps are too many.
   */
  lemma SameHashIff(now1: int, now2: int, range: int)
    requires range > 0
    ensures (forall b: Meta {:trigger AgreeOn(b, now1, now2, range)} :: AgreeOn(b, now1, now2, range))
      <==> -1 <= ActiveWindow(now1, range) - ActiveWindow(now2, range) <= 1
  {
    hide Digits, Hex16, DecInt, TruncDiv;
    var a1, a2 := ActiveWindow(now1, range), ActiveWindow(now2, range);
    if a1 - a2 > 1 {
      Disagree(now2, now1, range);
    } else if a2 - a1 > 1 {
      Disagree(now1, now2, range);
    }
  }

  /** A block just above the earlier active window is active for one compactor and inactive for the other. */
  lemma Disagree(now1: int, now2: int, range: int)
    requires range > 0 && ActiveWindow(now1, range) + 1 < ActiveWindow(now2, range)
    ensures exists b: Meta :: !AgreeOn(b, now1, now2, range) && !AgreeOn(b, now2, now1, range)
  {
    var w := ActiveWindow(now1, range) + 1;
    var b := Meta(0, "", 0, w * range, 0, 0, "", "");
    TimeOfWindow(w, range);
    var e1, e2 := MakeEntry(b, now1, range), MakeEntry(b, now2, range);
    assert |e1.hash| == |e2.hash| + |Dec(0)| + 1;
    DigitsRoundTrip(0, 10);
    assert e1.hash != e2.hash;
    assert !AgreeOn(b, now1, now2, range);
  }

  lemma TimeOfWindow(w: int, range: int)
    requires range > 0
    ensures WindowForTime(w * range, range) == w
  {
    if w >= 0 {
      DivUnique(w * range, range, w, 0);
    } else {
      assert -(w * range) == (-w) * range;
      DivUnique((-w) * range, range, -w, 0);
    }
  }

  /** The promise in terms of the clocks: a drift of up to one window is harmless. */
  lemma DriftIsHarmless(b: Meta, now1: int, now2: int, range: int)
    requires range > 0 && -range <= now1 - now2 <= range
    ensures AgreeOn(b, now1, now2, range)
  {
    hide TruncDiv, AgreeOn;
    if now1 <= now2 {
      ClocksClose(now1 - ACTIVE_WINDOW_SECONDS, now2 - ACTIVE_WINDOW_SECONDS, range);
    } else {
      ClocksClose(now2 - ACTIVE_WINDOW_SECONDS, now1 - ACTIVE_WINDOW_SECONDS, range);
    }
    SameHashIff(now1, now2, range);
  }

  // ---------- Stripes ----------

  function TotalObjects(es: seq<Entry>): int {
    if es == [] then 0 else TotalObjects(es[..|es| - 1]) + es[|es| - 1].meta.totalObjects
  }

  function TotalSize(es: seq<Entry>): nat {
    if es == [] then 0 else TotalSize(es[..|es| - 1]) + es[|es| - 1].meta.size
  }

  /** The blocks can be merged together: one group, one encoding, one version. */
  predicate OneKind(es: seq<Entry>) {
    forall x, y :: 0 <= x < |es| && 0 <= y < |es| ==>
      && es[x].group == es[y].group
      && es[x].meta.encoding == es[y].meta.encoding
      && es[x].meta.version == es[y].meta.version
  }

  datatype Limits = Limits(minInputBlocks: nat, maxInputBlocks: int, maxObjects: int, maxBytes: nat)

  predicate WithinLimits(es: seq<Entry>, l: Limits) {
    |es| <= l.maxInputBlocks && TotalObjects(es) <= l.maxObjects && TotalSize(es) <= l.maxBytes
  }

  /** The n blocks from position i are of one kind and may be merged together. */
  predicate StripeAt(es: seq<Entry>, i: nat, n: nat, l: Limits) {
    && 2 <= n && i + n <= |es|
    && OneKind(es[i..i + n]) && WithinLimits(es[i..i + n], l)
  }

  /** A stripe that cannot be extended to the right. */
  predicate MaximalAt(es: seq<Entry>, i: nat, n: nat, l: Limits) {
    StripeAt(es, i, n, l) && !StripeAt(es, i, n + 1, l)
  }

  /** From none of the first positions do two blocks go together. */
  ghost predicate NoPairBefore(es: seq<Entry>, at: nat, l: Limits) {
    forall k :: 0 <= k < at ==> !StripeAt(es, k, 2, l)
  }

  lemma StripeShifted(es: seq<Entry>, at: nat, i: nat, n: nat, l: Limits)
    requires at <= |es|
    ensures StripeAt(es[at..], i, n, l) <==> StripeAt(es, at + i, n, l)
  {
    if at + i + n <= |es| {
      assert es[at..][i..i + n] == es[at + i..at + i + n];
    }
  }

  /** The totals of a stripe, computed as the source does. */
  method Totals(es: seq<Entry>) returns (objects: int, size: nat)
    ensures objects == TotalObjects(es) && size == TotalSize(es)
  {
    objects, size := 0, 0;
    for k := 0 to |es|
      invariant objects == TotalObjects(es[..k]) && size == TotalSize(es[..k])
    {
      assert es[..k + 1][..k] == es[..k];
      objects := objects + es[k].meta.totalObjects;
      size := size + es[k].meta.size;
    }
    assert es[..|es|] == es;
  }

  /** The sums are sums: nothing for no blocks, a block's own figures, and additive. */
  lemma {:induction false} TotalsAdd(a: seq<Entry>, b: seq<Entry>)
    ensures TotalObjects(a + b) == TotalObjects(a) + TotalObjects(b) && TotalSize(a + b) == TotalSize(a) + TotalSize(b)
    ensures |b| == 1 ==> TotalObjects(b) == b[0].meta.totalObjects && TotalSize(b) == b[0].meta.size
  {
    if b == [] {
      assert a + b == a;
    } else {
      var n := |b| - 1;
      assert (a + b)[..|a| + n] == a + b[..n];
      TotalsAdd(a, b[..n]);
    }
  }

  // ---------- The selector ----------

  predicate Before(a: Entry, b: Entry) {
    if a.group == b.group then Less(a.order, b.order) else Less(a.group, b.group)
  }

  /** No entry sorts before the one it follows. */
  predicate Sorted(es: seq<Entry>) {
    forall i :: 0 < i < |es| ==> !Before(es[i], es[i - 1])
  }

  /** Stable insertion: after every entry that does not sort after e. */
  function Insert(es: seq<Entry>, e: Entry): (r: seq<Entry>)
    ensures |r| == |es| + 1
  {
    if es == [] || Before(e, es[0]) then [e] + es else [es[0]] + Insert(es[1..], e)
  }

  lemma {:induction false} InsertSorts(es: seq<Entry>, e: Entry)
    requires Sorted(es)
    ensures Sorted(Insert(es, e)) && multiset(Insert(es, e)) == multiset(es) + multiset{e}
    ensures forall x :: x in Insert(es, e) <==> x == e || x in es
    ensures Insert(es, e)[0] == e || (es != [] && Insert(es, e)[0] == es[0])
  {
    if es == [] || Before(e, es[0]) {
      if es != [] {
        LessAsymmetric(e.order, es[0].order);
        LessAsymmetric(e.group, es[0].group);
      }
    } else {
      InsertSorts(es[1..], e);
      assert es == [es[0]] + es[1..];
      assert forall i :: 0 < i < |es[1..]| ==> es[1..][i] == es[i + 1] && es[1..][i - 1] == es[i];
    }
  }

  // ---------- What comes first ----------

  lemma NotBeforeTransitive(a: Entry, b: Entry, c: Entry)
    requires !Before(b, a) && !Before(c, b)
    ensures !Before(c, a)
  {
    LessTotal(a.group, b.group);
    LessTotal(b.group, c.group);
    LessAsymmetric(c.group, a.group);
    LessTotal(a.order, b.order);
    LessTotal(b.order, c.order);
    LessAsymmetric(c.order, a.order);
    if Less(a.group, b.group) && Less(b.group, c.group) {
      LessTransitive(a.group, b.group, c.group);
    }
    if Less(a.order, b.order) && Less(b.order, c.order) {
      LessTransitive(a.order, b.order, c.order);
    }
    LessAsymmetric(a.group, a.group);
  }

  lemma {:induction false} SortedPairs(es: seq<Entry>, i: nat, j: nat)
    requires Sorted(es) && i < j < |es|
    ensures !Before(es[j], es[i])
  {
    hide Before;
    if i < j - 1 {
      SortedPairs(es, i, j - 1);
      NotBeforeTransitive(es[i], es[j - 1], es[j]);
    }
  }

  predicate Active(b: Meta, now: int, range: int)
    requires range > 0
  {
    ActiveWindow(now, range) <= WindowForTime(b.endTime, range)
  }

  /** Windows between a block's and the present one. */
  function Age(b: Meta, now: int, range: int): int
    requires range > 0
  {
    WindowForTime(now, range) - WindowForTime(b.endTime, range)
  }

  /** Not in the future, and of a size that 16 digits hold: figures that sort as they should. */
  predicate Sortable(n: int) {
    0 <= n < Pow16(16)
  }

  lemma Irreflexive(s: string)
    ensures !Less(s, s)
  {
    LessAsymmetric(s, s);
  }

  /** A smaller figure after a common prefix sorts first, whatever follows. */
  lemma FigureFirst(prefix: string, a: int, b: int, x: string, y: string)
    requires Sortable(a) && Sortable(b) && a < b
    ensures Less(prefix + Hex16(a) + x, prefix + Hex16(b) + y) && prefix + Hex16(a) + x != prefix + Hex16(b) + y
  {
    hide Hex16, Less;
    Hex16Less(a, b);
    LessExtends(Hex16(a), Hex16(b), x, y);
    LessCommon(prefix, Hex16(a) + x, Hex16(b) + y);
    assert prefix + (Hex16(a) + x) == prefix + Hex16(a) + x && prefix + (Hex16(b) + y) == prefix + Hex16(b) + y;
    Irreflexive(prefix + Hex16(b) + y);
  }

  lemma Groups(b: Meta, now: int, range: int)
    requires range > 0
    ensures var e := MakeEntry(b, now, range);
      if Active(b, now, range) then
        e.group == "A-" + Dec(b.level) + "-" + Hex16(Age(b, now, range)) + "" && e.order == "" + Hex16(b.totalObjects) + ("-" + b.version)
      else
        e.group == "B-" + Hex16(Age(b, now, range)) + "" && e.order == Dec(b.level) + "-" + Hex16(b.totalObjects) + ("-" + b.version)
  {
    hide Hex16, Dec;
    assert "" + Hex16(b.totalObjects) + ("-" + b.version) == Hex16(b.totalObjects) + "-" + b.version;
    assert Dec(b.level) + "-" + Hex16(b.totalObjects) + ("-" + b.version) == Dec(b.level) + "-" + Hex16(b.totalObjects) + "-" + b.version;
  }

  /** And one hash belongs to one group: ownership is spread as widely as groups allow. */
  lemma HashFixesGroup(a: Meta, b: Meta, now: int, range: int)
    requires range > 0 && a.tenant == b.tenant && Active(a, now, range) == Active(b, now, range)
    requires MakeEntry(a, now, range).hash == MakeEntry(b, now, range).hash
    ensures MakeEntry(a, now, range).group == MakeEntry(b, now, range).group
  {
    hide Digits, Hex16, DecInt, TruncDiv;
    var wa, wb := WindowForTime(a.endTime, range), WindowForTime(b.endTime, range);
    var prefix := a.tenant + "-";
    if Active(a, now, range) {
      DigitsRoundTrip(a.level, 10);
      DigitsRoundTrip(b.level, 10);
      var ta, tb := Dec(a.level) + "-" + DecInt(wa), Dec(b.level) + "-" + DecInt(wb);
      assert MakeEntry(a, now, range).hash == prefix + ta && MakeEntry(b, now, range).hash == prefix + tb;
      TailOf(prefix, ta, tb);
      SplitAtDash(Dec(a.level), DecInt(wa), Dec(b.level), DecInt(wb));
      DecIntInjective(wa, wb);
      SameDigits(a.level, b.level);
    } else {
      TailOf(prefix, DecInt(wa), DecInt(wb));
      DecIntInjective(wa, wb);
    }
  }

  lemma SameDigits(m: nat, n: nat)
    requires Dec(m) == Dec(n)
    ensures m == n
  {
    DigitsRoundTrip(m, 10);
    DigitsRoundTrip(n, 10);
  }

  /** More recent windows come first, among active blocks of one level and among inactive ones. */
  lemma RecentFirst(es: seq<Entry>, i: nat, j: nat, now: int, range: int)
    requires range > 0 && Sorted(es) && i < j < |es|
    requires es[i] == MakeEntry(es[i].meta, now, range) && es[j] == MakeEntry(es[j].meta, now, range)
    requires Active(es[i].meta, now, range) == Active(es[j].meta, now, range)
    requires Active(es[i].meta, now, range) ==> es[i].meta.level == es[j].meta.level
    requires Sortable(Age(es[i].meta, now, range)) && Sortable(Age(es[j].meta, now, range))
    ensures WindowForTime(es[i].meta.endTime, range) >= WindowForTime(es[j].meta.endTime, range)
  {
    hide Hex16, Dec, MakeEntry, Less, WindowForTime, Sorted;
    var a, b := es[i].meta, es[j].meta;
    Groups(a, now, range);
    Groups(b, now, range);
    SortedPairs(es, i, j);
    if Age(b, now, range) < Age(a, now, range) {
      FigureFirst(if Active(a, now, range) then "A-" + Dec(a.level) + "-" else "B-", Age(b, now, range), Age(a, now, range), "", "");
    }
  }

  /** Within a group, blocks with fewer objects come first; outside the active window, within a level of it. */
  lemma SmallFirst(es: seq<Entry>, i: nat, j: nat, now: int, range: int)
    requires range > 0 && Sorted(es) && i < j < |es| && es[i].group == es[j].group
    requires es[i] == MakeEntry(es[i].meta, now, range) && es[j] == MakeEntry(es[j].meta, now, range)
    requires Active(es[i].meta, now, range) == Active(es[j].meta, now, range)
    requires !Active(es[i].meta, now, range) ==> es[i].meta.level == es[j].meta.level
    requires Sortable(es[i].meta.totalObjects) && Sortable(es[j].meta.totalObjects)
    ensures es[i].meta.totalObjects <= es[j].meta.totalObjects
  {
    hide Hex16, Dec, MakeEntry, Less, WindowForTime, Sorted;
    var a, b := es[i].meta, es[j].meta;
    Groups(a, now, range);
    Groups(b, now, range);
    SortedPairs(es, i, j);
    if b.totalObjects < a.totalObjects {
      FigureFirst(if Active(a, now, range) then "" else Dec(a.level) + "-", b.totalObjects, a.totalObjects, "-" + b.version, "-" + a.version);
    }
  }

  /** Active blocks come before inactive ones. */
  lemma ActiveFirst(es: seq<Entry>, i: nat, j: nat, now: int, range: int)
    requires range > 0 && Sorted(es) && i < j < |es|
    requires es[i] == MakeEntry(es[i].meta, now, range) && es[j] == MakeEntry(es[j].meta, now, range)
    ensures Active(es[j].meta, now, range) ==> Active(es[i].meta, now, range)
  {
    hide Hex16, Dec, WindowForTime, Sorted;
    SortedPairs(es, i, j);
    var a, b := es[i].group, es[j].group;
    assert a[0] == (if Active(es[i].meta, now, range) then 'A' else 'B') && b[0] == (if Active(es[j].meta, now, range) then 'A' else 'B');
  }

  /** The entries of the eligible blocks, in the order of the list. */
  function EligibleEntries(blocklist: seq<Meta>, now: int, range: int): seq<Entry>
    requires range > 0
  {
    if blocklist == [] then []
    else
      var last := blocklist[|blocklist| - 1];
      EligibleEntries(blocklist[..|blocklist| - 1], now, range) + if Eligible(last, now, range) then [MakeEntry(last, now, range)] else []
  }

  lemma {:induction false} EligibleExactly(blocklist: seq<Meta>, now: int, range: int)
    requires range > 0
    ensures forall e :: e in EligibleEntries(blocklist, now, range) <==>
      e.meta in blocklist && Eligible(e.meta, now, range) && e == MakeEntry(e.meta, now, range)
  {
    hide Eligible;
    if blocklist != [] {
      var front, last := blocklist[..|blocklist| - 1], blocklist[|blocklist| - 1];
      assert blocklist == front + [last];
      EligibleExactly(front, now, range);
      assert MakeEntry(last, now, range).meta == last;
    }
  }

  predicate DistinctIds(blocklist: seq<Meta>) {
    forall i, j :: 0 <= i < |blocklist| && 0 <= j < |blocklist| && blocklist[i].blockId == blocklist[j].blockId ==> i == j
  }

  /** No block occurs twice. */
  ghost predicate Distinct(es: multiset<Entry>) {
    && (forall e :: e in es ==> es[e] == 1)
    && (forall a, b :: a in es && b in es && a.meta.blockId == b.meta.blockId ==> a == b)
  }

  lemma DistinctAdd(es: seq<Entry>, e: Entry)
    requires Distinct(multiset(es)) && forall x :: x in es ==> x.meta.blockId != e.meta.blockId
    ensures Distinct(multiset(es + [e]))
  {
    assert forall x :: x in multiset(es) ==> x in es;
  }

  lemma {:induction false} EligibleDistinct(blocklist: seq<Meta>, now: int, range: int)
    requires range > 0 && DistinctIds(blocklist)
    ensures Distinct(multiset(EligibleEntries(blocklist, now, range)))
  {
    hide Eligible, MakeEntry, Distinct;
    if blocklist == [] {
      assert Distinct(multiset([])) by { NoneDistinct(); }
    } else {
      var front, last := blocklist[..|blocklist| - 1], blocklist[|blocklist| - 1];
      assert forall i :: 0 <= i < |front| ==> front[i] == blocklist[i];
      EligibleDistinct(front, now, range);
      EligibleExactly(front, now, range);
      var es := EligibleEntries(front, now, range);
      forall e | e in es ensures e.meta.blockId != last.blockId {
        assert e.meta in front;
        var k :| 0 <= k < |front| && front[k] == e.meta;
        assert blocklist[k].blockId == e.meta.blockId;
      }
      MadeOf(last, now, range);
      DistinctAdd(es, MakeEntry(last, now, range));
      assert es + [] == es;
    }
  }

  lemma NoneDistinct()
    ensures Distinct(multiset([]))
  {
  }

  lemma MadeOf(b: Meta, now: int, range: int)
    requires range > 0
    ensures MakeEntry(b, now, range).meta == b
  {
  }

  class TimeWindowBlockSelector {
    const limits: Limits
    var entries: seq<Entry>

    ghost const now: int
    ghost const range: int
    ghost const tenant: string

    /** Every entry was made from an eligible block of the tenant. */
    ghost predicate Valid()
      reads this
    {
      range > 0 && limits.minInputBlocks >= 1 && AllFromTenant(entries)
    }

    ghost predicate AllFromTenant(es: seq<Entry>) {
      forall i :: 0 <= i < |es| ==> FromTenant(es[i])
    }

    lemma RestFromTenant(es: seq<Entry>, k: nat)
      requires AllFromTenant(es) && k <= |es|
      ensures AllFromTenant(es[k..])
    {
      hide FromTenant;
    }

    ghost predicate FromTenant(e: Entry) {
      range > 0 && e.meta.tenant == tenant && Eligible(e.meta, now, range) && e == MakeEntry(e.meta, now, range)
    }

    constructor (blocklist: seq<Meta>, range: int, limits: Limits, now: int, ghost tenant: string)
      requires range > 0 && limits.minInputBlocks >= 1
      requires forall i :: 0 <= i < |blocklist| ==> blocklist[i].tenant == tenant
      ensures Valid() && this.now == now && this.range == range && this.tenant == tenant && this.limits == limits
      ensures Sorted(entries)
      ensures multiset(entries) == multiset(EligibleEntries(blocklist, now, range))
    {
      hide MakeEntry, Eligible, Sorted, EligibleEntries;
      var es := SortedEntries(blocklist, range, now);
      this.limits, this.now, this.range, this.tenant := limits, now, range, tenant;
      entries := es;
      new;
      EligibleExactly(blocklist, now, range);
      forall i | 0 <= i < |es| ensures FromTenant(es[i]) {
        assert es[i] in multiset(es);
      }
    }

    /** Appends an entry per eligible block and sorts, here in one pass. */
    static method SortedEntries(blocklist: seq<Meta>, range: int, now: int) returns (es: seq<Entry>)
      requires range > 0
      ensures Sorted(es) && multiset(es) == multiset(EligibleEntries(blocklist, now, range))
    {
      hide MakeEntry, Eligible, Before, Insert;
      es := [];
      for i := 0 to |blocklist|
        invariant Sorted(es)
        invariant multiset(es) == multiset(EligibleEntries(blocklist[..i], now, range))
      {
        OneMoreBlock(blocklist, i, range, now);
        if Eligible(blocklist[i], now, range) {
          InsertSorts(es, MakeEntry(blocklist[i], now, range));
          es := Insert(es, MakeEntry(blocklist[i], now, range));
        }
      }
      assert blocklist[..|blocklist|] == blocklist;
    }

    static lemma OneMoreBlock(blocklist: seq<Meta>, i: nat, range: int, now: int)
      requires range > 0 && i < |blocklist|
      ensures var before, after := EligibleEntries(blocklist[..i], now, range), EligibleEntries(blocklist[..i + 1], now, range);
        after == if Eligible(blocklist[i], now, range) then before + [MakeEntry(blocklist[i], now, range)] else before
    {
      hide MakeEntry, Eligible;
      assert blocklist[..i + 1][..i] == blocklist[..i];
    }

    /** The longest stripe that starts at i, grown one block at a time; 0 if there is none. */
    method LongestFrom(i: nat) returns (n: nat)
      requires i < |entries|
      ensures n == 0 ==> !StripeAt(entries, i, 2, limits)
      ensures n > 0 ==> MaximalAt(entries, i, n, limits)
    {
      hide OneKind, TotalObjects, TotalSize;
      n := 0;
      var j := i + 1;
      OneAlone(entries, i);
      while j < |entries|
        invariant i < j <= |entries| && n == (if j == i + 1 then 0 else j - i)
        invariant OneKind(entries[i..j])
        invariant n > 0 ==> StripeAt(entries, i, n, limits)
      {
        OneMore(entries, i, j);
        var objects, size := Totals(entries[i..j + 1]);
        if entries[i].group == entries[j].group
          && entries[i].meta.encoding == entries[j].meta.encoding
          && entries[i].meta.version == entries[j].meta.version
          && |entries[i..j + 1]| <= limits.maxInputBlocks
          && objects <= limits.maxObjects
          && size <= limits.maxBytes
        {
          n := j - i + 1;
        } else {
          return;
        }
        j := j + 1;
      }
    }

    static lemma OneAlone(es: seq<Entry>, i: nat)
      requires i < |es|
      ensures OneKind(es[i..i + 1])
    {
    }

    /** A block joins the stripe exactly if it is like its first block. */
    static lemma OneMore(es: seq<Entry>, i: nat, j: nat)
      requires i < j < |es| && OneKind(es[i..j])
      ensures OneKind(es[i..j + 1]) <==>
        es[i].group == es[j].group && es[i].meta.encoding == es[j].meta.encoding && es[i].meta.version == es[j].meta.version
    {
      assert es[i..j + 1] == es[i..j] + [es[j]];
      assert es[i..j + 1][0] == es[i] && es[i..j + 1][j - i] == es[j] && es[i..j][0] == es[i];
    }

    /** Scan for the first position from which at least two blocks can be merged. */
    method FirstStripe() returns (i: nat, n: nat)
      requires entries != []
      ensures i + n <= |entries| && (n == 0 ==> i == |entries|)
      ensures n > 0 ==> MaximalAt(entries, i, n, limits)
      ensures NoPairBefore(entries, i, limits)
    {
      i, n := 0, 0;
      while i < |entries|
        invariant 0 <= i <= |entries| && n == 0
        invariant forall k :: 0 <= k < i ==> !StripeAt(entries, k, 2, limits)
      {
        n := LongestFrom(i);
        if n > 0 {
          return;
        }
        i := i + 1;
      }
    }

    /** The next stripe with enough blocks; everything up to its end is never considered again. */
    method BlocksToCompact() returns (chosen: seq<Entry>, ghost at: nat)
      requires Valid()
      modifies this
      ensures Valid()
      ensures at + |chosen| <= |old(entries)| && chosen == old(entries)[at..at + |chosen|]
      ensures entries == old(entries)[at + |chosen|..]
      ensures chosen != [] ==> |chosen| >= limits.minInputBlocks && MaximalAt(old(entries), at, |chosen|, limits)
      ensures OneKind(chosen) && (chosen != [] ==> WithinLimits(chosen, limits))
      ensures chosen == [] ==> entries == []
      ensures limits.minInputBlocks <= 2 ==> NoPairBefore(old(entries), at, limits)
    {
      hide StripeAt, MaximalAt, AllFromTenant, NoPairBefore, OneKind, WithinLimits;
      at := 0;
      NoPairYet(entries, limits);
      while entries != []
        invariant Valid() && at <= |old(entries)| && entries == old(entries)[at..]
        invariant limits.minInputBlocks <= 2 ==> NoPairBefore(old(entries), at, limits)
        decreases |entries|
      {
        var i, n := FirstStripe();
        RestFromTenant(entries, i + n);
        Located(old(entries), at, i, n, limits);
        chosen := entries[i..i + n];
        entries := entries[i + n..];
        if n >= limits.minInputBlocks {
          at := at + i;
          ChosenKind(old(entries), at, n, limits);
          return;
        }
        at := at + i + n;
      }
      chosen := [];
      assert OneKind(chosen) by { NoneIsOneKind(); }
    }

    static lemma NoneIsOneKind()
      ensures OneKind([])
    {
    }

    static lemma ChosenKind(es: seq<Entry>, at: nat, n: nat, l: Limits)
      requires MaximalAt(es, at, n, l)
      ensures at + n <= |es| && OneKind(es[at..at + n]) && WithinLimits(es[at..at + n], l)
    {
    }

    static lemma NoPairYet(es: seq<Entry>, l: Limits)
      ensures NoPairBefore(es, 0, l)
    {
    }

    static lemma TwoAtLeast(es: seq<Entry>, i: nat, n: nat, l: Limits)
      ensures MaximalAt(es, i, n, l) ==> n >= 2
    {
    }

    /** What the scan of the remaining entries found, in terms of all entries. */
    static lemma Located(es: seq<Entry>, at: nat, i: nat, n: nat, l: Limits)
      requires at + i + n <= |es|
      requires n > 0 ==> MaximalAt(es[at..], i, n, l)
      requires NoPairBefore(es[at..], i, l)
      ensures es[at..][i..i + n] == es[at + i..at + i + n] && es[at..][i + n..] == es[at + i + n..]
      ensures n > 0 ==> 2 <= n && MaximalAt(es, at + i, n, l)
      ensures NoPairBefore(es, at, l) ==> NoPairBefore(es, at + i, l)
    {
      hide StripeAt;
      assert es[at..][i..i + n] == es[at + i..at + i + n] && es[at..][i + n..] == es[at + i + n..];
      TwoAtLeast(es[at..], i, n, l);
      StripeShifted(es, at, i, n, l);
      StripeShifted(es, at, i, n + 1, l);
      forall k | at <= k < at + i ensures !StripeAt(es, k, 2, l) {
        StripeShifted(es, at, k - at, 2, l);
      }
    }

    /** All blocks of a stripe have the hash that decides its owner. */
    lemma StripeOneHash(es: seq<Entry>, i: nat, n: nat, k: nat)
      requires AllFromTenant(es)
      requires StripeAt(es, i, n, limits) && i <= k < i + n
      ensures es[k].hash == es[i].hash
    {
      assert es[i..i + n][0] == es[i] && es[i..i + n][k - i] == es[k];
      GroupFixesHash(es[i].meta, es[k].meta, now, range);
    }
  }

  // ---------- A compaction cycle ----------

  /** A position and a length in the sorted list. */
  datatype Run = Run(at: nat, n: nat)

  /** Runs that follow each other without overlap. */
  ghost predicate Disjoint(runs: seq<Run>) {
    forall i, j :: 0 <= i < j < |runs| ==> runs[i].at + runs[i].n <= runs[j].at
  }

  /** Stripes of es that one owner may merge: maximal, large enough, each of one owned hash. */
  ghost predicate OwnedStripes(es: seq<Entry>, runs: seq<Run>, l: Limits, owns: string -> bool) {
    forall k :: 0 <= k < |runs| ==>
      && l.minInputBlocks <= runs[k].n && MaximalAt(es, runs[k].at, runs[k].n, l)
      && forall x :: runs[k].at <= x < runs[k].at + runs[k].n ==> owns(es[x].hash)
  }

  /** The merged stripes are the runs' slices of the list. */
  ghost predicate Cut(es: seq<Entry>, runs: seq<Run>, merged: seq<seq<Entry>>) {
    && |merged| == |runs|
    && (forall k :: 0 <= k < |runs| ==>
          runs[k].at + runs[k].n <= |es| && merged[k] == es[runs[k].at..runs[k].at + runs[k].n])
  }

  /** The stripes merged so far all end before done. */
  ghost predicate Progress(es: seq<Entry>, runs: seq<Run>, merged: seq<seq<Entry>>, done: nat, l: Limits, owns: string -> bool) {
    && |merged| == |runs| && Disjoint(runs) && OwnedStripes(es, runs, l, owns)
    && (forall k :: 0 <= k < |runs| ==> runs[k].at + runs[k].n <= done)
    && (forall k :: 0 <= k < |runs| ==> merged[k] == es[runs[k].at..runs[k].at + runs[k].n])
  }

  lemma Another(es: seq<Entry>, runs: seq<Run>, merged: seq<seq<Entry>>, done: nat, l: Limits, owns: string -> bool, r: Run)
    requires Progress(es, runs, merged, done, l, owns) && done <= r.at
    requires l.minInputBlocks <= r.n && MaximalAt(es, r.at, r.n, l)
    ensures Progress(es, runs, merged, r.at + r.n, l, owns)
    ensures (forall x :: r.at <= x < r.at + r.n ==> owns(es[x].hash)) ==>
      Progress(es, runs + [r], merged + [es[r.at..r.at + r.n]], r.at + r.n, l, owns)
  {
    hide OneKind, WithinLimits;
  }

  /** The loop of doCompaction: take stripes until none is left, and merge those this compactor owns. */
  method Cycle(selector: TimeWindowBlockSelector, owns: string -> bool)
    returns (merged: seq<seq<Entry>>, ghost runs: seq<Run>)
    requires selector.Valid()
    modifies selector
    ensures selector.Valid() && selector.entries == [] && Disjoint(runs) && Cut(old(selector.entries), runs, merged)
    ensures OwnedStripes(old(selector.entries), runs, selector.limits, owns)
    ensures forall k :: 0 <= k < |merged| ==> OneKind(merged[k]) && WithinLimits(merged[k], selector.limits)
    ensures Distinct(multiset(old(selector.entries))) ==> NoneTwice(merged)
  {
    hide OneKind, WithinLimits, StripeAt, Progress, MakeEntry, Eligible, Distinct, NoneTwice;
    merged, runs := [], [];
    ghost var es := selector.entries;
    ghost var done: nat := 0;
    Nothing(es, selector.limits, owns);
    while true
      invariant selector.Valid() && done <= |es| && selector.entries == es[done..]
      invariant Progress(es, runs, merged, done, selector.limits, owns)
      decreases |selector.entries|
    {
      var chosen, at := selector.BlocksToCompact();
      if chosen == [] {
        Result(es, runs, merged, done, selector.limits, owns);
        if Distinct(multiset(es)) {
          MergedOnce(es, runs, merged);
        }
        return;
      }
      ghost var r := Run(done + at, |chosen|);
      StripeShifted(es, done, at, r.n, selector.limits);
      StripeShifted(es, done, at, r.n + 1, selector.limits);
      Another(es, runs, merged, done, selector.limits, owns, r);
      assert chosen == es[r.at..r.at + r.n];
      if owns(chosen[0].hash) {
        forall x | r.at <= x < r.at + r.n ensures owns(es[x].hash) {
          selector.StripeOneHash(es, r.at, r.n, x);
        }
        merged, runs := merged + [chosen], runs + [r];
      }
      done := r.at + r.n;
    }
  }

  lemma Nothing(es: seq<Entry>, l: Limits, owns: string -> bool)
    ensures Progress(es, [], [], 0, l, owns)
  {
  }

  lemma Result(es: seq<Entry>, runs: seq<Run>, merged: seq<seq<Entry>>, done: nat, l: Limits, owns: string -> bool)
    requires Progress(es, runs, merged, done, l, owns)
    ensures Disjoint(runs) && OwnedStripes(es, runs, l, owns) && Cut(es, runs, merged)
    ensures forall k :: 0 <= k < |merged| ==> OneKind(merged[k]) && WithinLimits(merged[k], l)
  {
  }

  /** No block is merged twice, neither within a stripe nor in two of them. */
  ghost predicate NoneTwice(merged: seq<seq<Entry>>) {
    forall k, x, l, y :: 0 <= k < |merged| && 0 <= x < |merged[k]| && 0 <= l < |merged| && 0 <= y < |merged[l]| ==>
      (merged[k][x].meta.blockId == merged[l][y].meta.blockId ==> k == l && x == y)
  }

  lemma PositionOf(es: seq<Entry>, x: nat, y: nat)
    requires Distinct(multiset(es)) && x < |es| && y < |es| && es[x].meta.blockId == es[y].meta.blockId
    ensures x == y
  {
    assert es[x] in multiset(es) && es[y] in multiset(es);
    if x < y {
      SeenTwice(es, x, y);
    } else if y < x {
      SeenTwice(es, y, x);
    }
  }

  lemma SeenTwice(es: seq<Entry>, x: nat, y: nat)
    requires x < y < |es| && es[x] == es[y]
    ensures multiset(es)[es[x]] >= 2
  {
    assert es == es[..y] + es[y..];
    assert es[x] in es[..y] && es[y..][0] == es[y];
  }

  lemma MergedOnce(es: seq<Entry>, runs: seq<Run>, merged: seq<seq<Entry>>)
    requires Distinct(multiset(es)) && Disjoint(runs) && Cut(es, runs, merged)
    ensures NoneTwice(merged)
  {
    hide Distinct;
    forall i, x, j, y | 0 <= i < |merged| && 0 <= x < |merged[i]| && 0 <= j < |merged| && 0 <= y < |merged[j]|
      && merged[i][x].meta.blockId == merged[j][y].meta.blockId
      ensures i == j && x == y
    {
      PositionOf(es, runs[i].at + x, runs[j].at + y);
    }
  }

  /** Every merged block is an eligible block of the list whose hash this compactor owns. */
  ghost predicate OwnMerges(merged: seq<seq<Entry>>, blocklist: seq<Meta>, now: int, range: int, owns: string -> bool)
    requires range > 0
  {
    forall k, x :: 0 <= k < |merged| && 0 <= x < |merged[k]| ==>
      var e := merged[k][x];
      e.meta in blocklist && Eligible(e.meta, now, range) && e == MakeEntry(e.meta, now, range) && owns(e.hash)
  }

  /**
    doCompaction for one tenant: every merged block is an eligible, owned block of the
    list, and none is merged twice if the list has none twice.
   */
  method CompactTenant(blocklist: seq<Meta>, range: int, limits: Limits, now: int, ghost tenant: string, owns: string -> bool)
    returns (merged: seq<seq<Entry>>)
    requires range > 0 && limits.minInputBlocks >= 1
    requires forall i :: 0 <= i < |blocklist| ==> blocklist[i].tenant == tenant
    ensures OwnMerges(merged, blocklist, now, range, owns)
    ensures forall k :: 0 <= k < |merged| ==>
      |merged[k]| >= limits.minInputBlocks && OneKind(merged[k]) && WithinLimits(merged[k], limits)
    ensures DistinctIds(blocklist) ==> NoneTwice(merged)
  {
    hide Eligible, MakeEntry, Distinct, NoneTwice, OwnMerges, OwnedStripes, Disjoint, EligibleEntries, WithinLimits;
    var selector := new TimeWindowBlockSelector(blocklist, range, limits, now, tenant);
    ghost var es := selector.entries;
    if DistinctIds(blocklist) {
      EligibleDistinct(blocklist, now, range);
    }
    ghost var runs;
    merged, runs := Cycle(selector, owns);
    MergesAreOwn(es, runs, merged, blocklist, now, range, owns, limits);
  }

  lemma MergesAreOwn(es: seq<Entry>, runs: seq<Run>, merged: seq<seq<Entry>>, blocklist: seq<Meta>, now: int, range: int,
                     owns: string -> bool, l: Limits)
    requires range > 0 && multiset(es) == multiset(EligibleEntries(blocklist, now, range))
    requires OwnedStripes(es, runs, l, owns) && Cut(es, runs, merged)
    ensures OwnMerges(merged, blocklist, now, range, owns)
    ensures forall k :: 0 <= k < |merged| ==> |merged[k]| >= l.minInputBlocks && OneKind(merged[k]) && WithinLimits(merged[k], l)
  {
    hide Eligible, MakeEntry, EligibleEntries, OneKind, WithinLimits;
    EligibleExactly(blocklist, now, range);
    forall k, x | 0 <= k < |merged| && 0 <= x < |merged[k]|
      ensures merged[k][x] in multiset(es) && owns(merged[k][x].hash)
    {
      assert merged[k][x] == es[runs[k].at + x];
    }
  }

  /**
    No block is merged by two compactors: if their clocks are at most one window apart and
    no hash is owned by both, their merges have no block in common.
   */
  lemma NoDoubleCompaction(merged1: seq<seq<Entry>>, list1: seq<Meta>, now1: int, owns1: string -> bool,
                           merged2: seq<seq<Entry>>, list2: seq<Meta>, now2: int, owns2: string -> bool,
                           range: int, i: nat, x: nat, j: nat, y: nat)
    requires range > 0 && -range <= now1 - now2 <= range
    requires OwnMerges(merged1, list1, now1, range, owns1) && OwnMerges(merged2, list2, now2, range, owns2)
    requires forall h :: !(owns1(h) && owns2(h))
    requires forall a, b :: a in list1 && b in list2 && a.blockId == b.blockId ==> a == b
    requires i < |merged1| && x < |merged1[i]| && j < |merged2| && y < |merged2[j]|
    ensures merged1[i][x].meta.blockId != merged2[j][y].meta.blockId
  {
    hide MakeEntry, Eligible;
    var e, f := merged1[i][x], merged2[j][y];
    assert owns1(e.hash) && owns2(f.hash);
    assert e.meta in list1 && f.meta in list2;
    DriftIsHarmless(e.meta, now1, now2, range);
  }
}
