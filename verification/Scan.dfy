/**
  The naive column scan: number every value, filter it. Also the one liberty the
  real scan takes, dropping results that lie in rows below the seek target.
 */
module Scan {
  import opened RowNumbers
  import opened Parquet
  import opened Cogroup

  function MakeResult(selectAs: string, t: RowNumber, v: Value): Result {
    Result(t, if selectAs != "" then [Entry(selectAs, v)] else [])
  }

  /** Number and filter the values, continuing from row number t. */
  ghost function Full(keep: Value -> bool, selectAs: string, t: RowNumber, vs: seq<Value>): seq<Result>
    requires Levelled(vs)
    decreases vs
  {
    if vs == [] then []
    else
      var n := Next(t, vs[0].r, vs[0].d);
      (if keep(vs[0]) then [MakeResult(selectAs, n, vs[0])] else []) + Full(keep, selectAs, n, vs[1..])
  }

  ghost function After(t: RowNumber, vs: seq<Value>): RowNumber
    requires Levelled(vs)
    decreases vs
  {
    if vs == [] then t else After(Next(t, vs[0].r, vs[0].d), vs[1..])
  }

  lemma Associates<T>(a: seq<T>, b: seq<T>, c: seq<T>)
    ensures a + (b + c) == a + b + c
  {
  }

  /** What the first value contributes, and what follows. */
  ghost function First(keep: Value -> bool, selectAs: string, t: RowNumber, v: Value): seq<Result>
    requires WellFormed(v)
  {
    if keep(v) then [MakeResult(selectAs, Next(t, v.r, v.d), v)] else []
  }

  lemma FullStep(keep: Value -> bool, name: string, t: RowNumber, vs: seq<Value>)
    requires Levelled(vs) && vs != []
    ensures var n := Next(t, vs[0].r, vs[0].d);
      && Full(keep, name, t, vs) == First(keep, name, t, vs[0]) + Full(keep, name, n, vs[1..])
      && After(t, vs) == After(n, vs[1..])
  {
    hide Next, MakeResult;
  }

  lemma LevelledConcat(a: seq<Value>, b: seq<Value>)
    ensures Levelled(a + b) <==> Levelled(a) && Levelled(b)
  {
    hide WellFormed;
    if Levelled(a + b) {
      assert forall i :: 0 <= i < |a| ==> a[i] == (a + b)[i];
      assert forall i :: 0 <= i < |b| ==> b[i] == (a + b)[|a| + i];
    }
  }

  lemma {:induction false} FullConcat(keep: Value -> bool, name: string, t: RowNumber, a: seq<Value>, b: seq<Value>)
    requires Levelled(a) && Levelled(b)
    ensures Levelled(a + b)
    ensures Full(keep, name, t, a + b) == Full(keep, name, t, a) + Full(keep, name, After(t, a), b)
    ensures After(t, a + b) == After(After(t, a), b)
    decreases a
  {
    hide Next, First, Levelled;
    LevelledConcat(a, b);
    if a == [] {
      FullOfNone(keep, name, t);
      assert a + b == b;
      assert [] + Full(keep, name, t, b) == Full(keep, name, t, b);
    } else {
      LevelledConcat([a[0]], a[1..]);
      assert [a[0]] + a[1..] == a && (a + b)[1..] == a[1..] + b;
      assert WellFormed(a[0]) by { FirstWellFormed(a); }
      var n := Next(t, a[0].r, a[0].d);
      FullConcat(keep, name, n, a[1..], b);
      FullStep(keep, name, t, a);
      FullStep(keep, name, t, a + b);
      Associates(First(keep, name, t, a[0]), Full(keep, name, n, a[1..]), Full(keep, name, After(n, a[1..]), b));
    }
  }

  /** One more value. */
  lemma FullLast(keep: Value -> bool, name: string, t: RowNumber, vs: seq<Value>, i: nat)
    requires Levelled(vs) && i < |vs|
    ensures Levelled(vs[..i]) && Levelled(vs[..i + 1]) && WellFormed(vs[i])
    ensures var u := After(t, vs[..i]); var n := Next(u, vs[i].r, vs[i].d);
      && After(t, vs[..i + 1]) == n
      && Full(keep, name, t, vs[..i + 1]) == Full(keep, name, t, vs[..i]) + if keep(vs[i]) then [MakeResult(name, n, vs[i])] else []
  {
    hide Next, MakeResult;
    assert vs[..i + 1] == vs[..i] + [vs[i]];
    FullConcat(keep, name, t, vs[..i], [vs[i]]);
    var u := After(t, vs[..i]);
    FullStep(keep, name, u, [vs[i]]);
    assert [vs[i]][1..] == [];
    FullOfNone(keep, name, Next(u, vs[i].r, vs[i].d));
  }

  lemma {:induction false} FullShort(keep: Value -> bool, name: string, t: RowNumber, vs: seq<Value>)
    requires Levelled(vs)
    ensures |Full(keep, name, t, vs)| <= |vs|
    decreases vs
  {
    if vs != [] {
      FullShort(keep, name, Next(t, vs[0].r, vs[0].d), vs[1..]);
    }
  }

  lemma FirstWellFormed(vs: seq<Value>)
    requires Levelled(vs) && vs != []
    ensures WellFormed(vs[0])
  {
  }

  lemma FullOfNone(keep: Value -> bool, name: string, t: RowNumber)
    ensures Levelled([]) && Full(keep, name, t, []) == [] && After(t, []) == t
  {
  }

  lemma {:induction false} NumRowsConcat(a: seq<Value>, b: seq<Value>)
    ensures NumRows(a + b) == NumRows(a) + NumRows(b)
  {
    if a == [] {
      assert a + b == b;
    } else {
      assert (a + b)[1..] == a[1..] + b;
      NumRowsConcat(a[1..], b);
    }
  }

  lemma {:induction false} AfterRoot(t: RowNumber, vs: seq<Value>)
    requires Levelled(vs)
    ensures After(t, vs)[0] == t[0] + NumRows(vs)
    decreases vs
  {
    if vs != [] {
      var n := Next(t, vs[0].r, vs[0].d);
      assert vs[0].r > 0 ==> n[..vs[0].r][0] == t[..vs[0].r][0];
      AfterRoot(n, vs[1..]);
    }
  }

  /** On a row boundary only the root index of the starting point matters, so Skip is a faithful shortcut. */
  lemma FullFromRoot(keep: Value -> bool, name: string, t: RowNumber, u: RowNumber, vs: seq<Value>)
    requires StartsRow(vs) && t[0] == u[0]
    ensures Full(keep, name, t, vs) == Full(keep, name, u, vs)
  {
    if vs != [] {
      NextAtRoot(t, u, vs[0].d);
    }
  }

  /** Row numbers rise strictly, above the start and within the rows counted. */
  lemma {:induction false} FullRises(keep: Value -> bool, name: string, t: RowNumber, vs: seq<Value>)
    requires Levelled(vs)
    ensures StrictAt(5, Full(keep, name, t, vs)) && From(5, t, -1, Full(keep, name, t, vs))
    ensures RowsWithin(t[0], t[0] + NumRows(vs), Full(keep, name, t, vs))
    decreases vs
  {
    if vs != [] {
      var n := Next(t, vs[0].r, vs[0].d);
      var rest := Full(keep, name, n, vs[1..]);
      NextAdvances(t, vs[0].r, vs[0].d, 5);
      assert vs[0].r > 0 ==> n[..vs[0].r][0] == t[..vs[0].r][0];
      FullRises(keep, name, n, vs[1..]);
      forall j | 0 <= j < |rest| ensures Compare(5, t, rest[j].rowNumber) < 0 {
        Order(5, t, n, rest[j].rowNumber);
      }
    }
  }

  lemma FullRootRises(keep: Value -> bool, name: string, t: RowNumber, vs: seq<Value>)
    requires StartsRow(vs)
    ensures RowsWithin(t[0] + 1, t[0] + NumRows(vs), Full(keep, name, t, vs))
  {
    if vs != [] {
      FullRises(keep, name, Next(t, 0, vs[0].d), vs[1..]);
    }
  }

  ghost predicate RowsWithin(lo: int, hi: int, s: seq<Result>) {
    forall i :: 0 <= i < |s| ==> lo <= s[i].rowNumber[0] <= hi
  }

  /** How many values are kept. */
  ghost function Count(keep: Value -> bool, vs: seq<Value>): nat {
    if vs == [] then 0 else (if keep(vs[0]) then 1 else 0) + Count(keep, vs[1..])
  }

  /** The k-th kept value's result has the row number reached there and carries the value under its name, if it has one. */
  ghost predicate Carries(name: string, t: RowNumber, vs: seq<Value>, i: nat, r: Result)
    requires Levelled(vs) && i < |vs|
  {
    && Levelled(vs[..i + 1]) && r.rowNumber == After(t, vs[..i + 1])
    && r.entries == if name == "" then [] else [Entry(name, vs[i])]
  }

  /** One result per kept value, in order, and no others. */
  lemma {:induction false} FullCarries(keep: Value -> bool, name: string, t: RowNumber, vs: seq<Value>)
    requires Levelled(vs)
    ensures |Full(keep, name, t, vs)| == Count(keep, vs)
    ensures forall i :: 0 <= i < |vs| && keep(vs[i]) ==>
      Count(keep, vs[..i]) < Count(keep, vs) && Carries(name, t, vs, i, Full(keep, name, t, vs)[Count(keep, vs[..i])])
    decreases vs
  {
    if vs != [] {
      var n, rest := Next(t, vs[0].r, vs[0].d), vs[1..];
      FullCarries(keep, name, n, rest);
      FullStep(keep, name, t, vs);
      forall i | 0 <= i < |vs| && keep(vs[i])
        ensures Count(keep, vs[..i]) < Count(keep, vs) && Carries(name, t, vs, i, Full(keep, name, t, vs)[Count(keep, vs[..i])])
      {
        CarriesFrom(keep, name, t, vs, i);
      }
    }
  }

  lemma CarriesFrom(keep: Value -> bool, name: string, t: RowNumber, vs: seq<Value>, i: nat)
    requires Levelled(vs) && i < |vs| && keep(vs[i])
    requires var n, rest := Next(t, vs[0].r, vs[0].d), vs[1..];
      && |Full(keep, name, n, rest)| == Count(keep, rest)
      && Full(keep, name, t, vs) == First(keep, name, t, vs[0]) + Full(keep, name, n, rest)
      && (i > 0 ==> Count(keep, rest[..i - 1]) < Count(keep, rest)
                    && Carries(name, n, rest, i - 1, Full(keep, name, n, rest)[Count(keep, rest[..i - 1])]))
    ensures Count(keep, vs[..i]) < Count(keep, vs)
    ensures |Full(keep, name, t, vs)| == Count(keep, vs)
    ensures Carries(name, t, vs, i, Full(keep, name, t, vs)[Count(keep, vs[..i])])
  {
    hide Full, Next;
    var n, rest := Next(t, vs[0].r, vs[0].d), vs[1..];
    assert Levelled(vs[..i + 1]);
    if i == 0 {
      assert vs[..1][1..] == [] && vs[..0] == [];
      assert After(t, vs[..1]) == After(n, []) == n;
    } else {
      assert vs[..i][1..] == rest[..i - 1] && vs[..i + 1][1..] == rest[..i];
      assert After(t, vs[..i + 1]) == After(n, rest[..i]);
    }
  }

  /** A page or chunk in which nothing is kept scans to nothing. */
  lemma {:induction false} FullNothing(keep: Value -> bool, name: string, t: RowNumber, vs: seq<Value>)
    requires Levelled(vs) && forall v :: v in vs ==> !keep(v)
    ensures Full(keep, name, t, vs) == []
    decreases vs
  {
    if vs != [] {
      FullNothing(keep, name, Next(t, vs[0].r, vs[0].d), vs[1..]);
    }
  }

  // ---------- Thinning ----------

  /** u is s without some of its results in rows below the floor. */
  ghost predicate Thinned(floor: int, s: seq<Result>, u: seq<Result>) {
    if s == [] then u == []
    else
      || (u != [] && u[0] == s[0] && Thinned(floor, s[1..], u[1..]))
      || (s[0].rowNumber[0] < floor && Thinned(floor, s[1..], u))
  }

  lemma {:induction false} ThinnedSame(floor: int, s: seq<Result>)
    ensures Thinned(floor, s, s)
  {
    if s != [] {
      ThinnedSame(floor, s[1..]);
    }
  }

  lemma {:induction false} ThinnedAll(floor: int, s: seq<Result>)
    requires forall i :: 0 <= i < |s| ==> s[i].rowNumber[0] < floor
    ensures Thinned(floor, s, [])
  {
    if s != [] {
      ThinnedAll(floor, s[1..]);
    }
  }

  lemma {:induction false} ThinnedTwice(floor: int, s: seq<Result>, u: seq<Result>, w: seq<Result>)
    requires Thinned(floor, s, u) && Thinned(floor, u, w)
    ensures Thinned(floor, s, w)
    decreases s
  {
    if s != [] {
      if s[0].rowNumber[0] < floor && Thinned(floor, s[1..], u) {
        ThinnedTwice(floor, s[1..], u, w);
      } else if w != [] && w[0] == u[0] && Thinned(floor, u[1..], w[1..]) {
        ThinnedTwice(floor, s[1..], u[1..], w[1..]);
      } else {
        ThinnedTwice(floor, s[1..], u[1..], w);
      }
    }
  }

  lemma {:induction false} ThinnedConcat(floor: int, a: seq<Result>, b: seq<Result>, c: seq<Result>, d: seq<Result>)
    requires Thinned(floor, a, b) && Thinned(floor, c, d)
    ensures Thinned(floor, a + c, b + d)
    decreases a
  {
    if a == [] {
      assert a + c == c && b + d == d;
    } else {
      assert (a + c)[1..] == a[1..] + c;
      if b != [] && b[0] == a[0] && Thinned(floor, a[1..], b[1..]) {
        assert (b + d)[1..] == b[1..] + d;
        ThinnedConcat(floor, a[1..], b[1..], c, d);
      } else {
        ThinnedConcat(floor, a[1..], b, c, d);
      }
    }
  }

  /** Thinning introduces nothing and keeps the order. */
  lemma {:induction false} ThinnedKeeps(floor: int, s: seq<Result>, u: seq<Result>)
    requires Thinned(floor, s, u)
    ensures |u| <= |s| && forall r :: r in u ==> r in s
    ensures StrictAt(5, s) ==> StrictAt(5, u)
    decreases s
  {
    if s != [] {
      if u != [] && u[0] == s[0] && Thinned(floor, s[1..], u[1..]) {
        ThinnedKeeps(floor, s[1..], u[1..]);
        assert forall r :: r in u ==> r == u[0] || r in u[1..];
        forall j | StrictAt(5, s) && 0 < j < |u| ensures Compare(5, u[0].rowNumber, u[j].rowNumber) < 0 {
          assert u[j] == u[1..][j - 1] && u[j] in s[1..];
        }
        assert StrictAt(5, s) ==> StrictAt(5, s[1..]);
      } else {
        ThinnedKeeps(floor, s[1..], u);
        assert StrictAt(5, s) ==> StrictAt(5, s[1..]);
      }
    }
  }

  /** With nothing below the floor there is nothing to thin. */
  lemma {:induction false} ThinnedNothing(floor: int, s: seq<Result>, u: seq<Result>)
    requires Thinned(floor, s, u) && forall i :: 0 <= i < |s| ==> s[i].rowNumber[0] >= floor
    ensures u == s
  {
    if s != [] {
      ThinnedNothing(floor, s[1..], u[1..]);
    }
  }

  /** Thinning below the target's root row is invisible to a seek to that target, at every level. */
  lemma {:induction false} ThinnedSeek(d: nat, t: RowNumber, s: seq<Result>, u: seq<Result>)
    requires d < LEVELS && StrictAt(5, s) && Thinned(t[0], s, u)
    ensures DropBelow(d, t, u) == DropBelow(d, t, s)
    decreases s
  {
    if s != [] {
      assert StrictAt(5, s[1..]);
      if Compare(d, s[0].rowNumber, t) < 0 {
        if u != [] && u[0] == s[0] && Thinned(t[0], s[1..], u[1..]) {
          ThinnedSeek(d, t, s[1..], u[1..]);
        } else {
          ThinnedSeek(d, t, s[1..], u);
        }
      } else {
        RootAtLeast(d, t, s);
        ThinnedNothing(t[0], s, u);
      }
    }
  }

  lemma RootAtLeast(d: nat, t: RowNumber, s: seq<Result>)
    requires d < LEVELS && StrictAt(5, s) && s != [] && Compare(d, s[0].rowNumber, t) >= 0
    ensures forall i :: 0 <= i < |s| ==> s[i].rowNumber[0] >= t[0]
  {
    Coarser(0, d, s[0].rowNumber, t);
    forall i | 0 < i < |s| ensures s[i].rowNumber[0] >= s[0].rowNumber[0] {
      Coarser(0, 5, s[0].rowNumber, s[i].rowNumber);
    }
  }

  // ---------- Scan positions ----------

  /** Where the scan is: row groups, pages of the open group and values of the open page still to read. */
  datatype Work = Work(groups: seq<RowGroup>, pages: seq<Page>, values: seq<Value>, rn: RowNumber)

  /**
    What a scan may skip by its filter: keep is the filter's verdict on values, and
    nullsKept says that it never skips anything.
   */
  ghost predicate SafeValues(nullsKept: bool, keep: Value -> bool, vs: seq<Value>) {
    Levelled(vs) && (!nullsKept ==> forall v :: v in vs && v.isNull ==> !keep(v))
  }

  ghost predicate SafePages(nullsKept: bool, keep: Value -> bool, ps: seq<Page>) {
    forall i :: 0 <= i < |ps| ==> StartsRow(ps[i].values) && SafeValues(nullsKept, keep, ps[i].values)
  }

  ghost predicate SafeGroups(nullsKept: bool, keep: Value -> bool, gs: seq<RowGroup>) {
    forall i :: 0 <= i < |gs| ==> Truthful(gs[i]) && SafePages(nullsKept, keep, gs[i].pages)
  }

  lemma {:induction false} PagesStart(nullsKept: bool, keep: Value -> bool, ps: seq<Page>)
    requires SafePages(nullsKept, keep, ps)
    ensures StartsRow(PageValues(ps)) && SafeValues(nullsKept, keep, PageValues(ps))
  {
    if ps != [] {
      PagesStart(nullsKept, keep, ps[1..]);
      assert forall v :: v in PageValues(ps) ==> v in ps[0].values || v in PageValues(ps[1..]);
    }
  }

  lemma {:induction false} GroupsStart(nullsKept: bool, keep: Value -> bool, gs: seq<RowGroup>)
    requires SafeGroups(nullsKept, keep, gs)
    ensures StartsRow(GroupValues(gs))
  {
    if gs != [] {
      PagesStart(nullsKept, keep, gs[0].pages);
      GroupsStart(nullsKept, keep, gs[1..]);
    }
  }

  ghost function Later(w: Work): seq<Value> {
    PageValues(w.pages) + GroupValues(w.groups)
  }

  ghost predicate Scannable(nullsKept: bool, keep: Value -> bool, w: Work) {
    && Levelled(w.values) && SafePages(nullsKept, keep, w.pages) && SafeGroups(nullsKept, keep, w.groups)
    && StartsRow(Later(w))
    && 0 <= w.rn[0] + 1 && w.rn[0] + NumRows(w.values) + NumRows(Later(w)) < MAX_INT64
  }

  /** What a full scan from here would deliver. */
  ghost function Remaining(keep: Value -> bool, name: string, w: Work): seq<Result>
    requires Levelled(w.values) && Levelled(Later(w))
  {
    Full(keep, name, w.rn, w.values) + Full(keep, name, After(w.rn, w.values), Later(w))
  }

  lemma StartLevelled(vs: seq<Value>)
    requires StartsRow(vs)
    ensures Levelled(vs)
  {
  }

  lemma SkipRoot(t: RowNumber, n: int)
    ensures Skip(t, n)[0] == t[0] + n
  {
  }

  /** Passing over values that the scan does not read: nothing kept, or only rows below the floor. */
  lemma PassOver(keep: Value -> bool, name: string, t: RowNumber, a: seq<Value>, b: seq<Value>, floor: int)
    requires StartsRow(a) && StartsRow(b)
    requires t[0] + NumRows(a) < floor || forall v :: v in a ==> !keep(v)
    ensures Levelled(a + b) && NumRows(a + b) == NumRows(a) + NumRows(b)
    ensures Thinned(floor, Full(keep, name, t, a + b), Full(keep, name, Skip(t, NumRows(a)), b))
  {
    hide Full, After, Thinned, Skip, NumRows, Levelled;
    StartLevelled(a);
    StartLevelled(b);
    var skipped, left := Full(keep, name, t, a), Full(keep, name, After(t, a), b);
    SkipRoot(t, NumRows(a));
    FullConcat(keep, name, t, a, b);
    NumRowsConcat(a, b);
    AfterRoot(t, a);
    FullFromRoot(keep, name, After(t, a), Skip(t, NumRows(a)), b);
    if t[0] + NumRows(a) < floor {
      FullRises(keep, name, t, a);
      ThinnedAll(floor, skipped);
    } else {
      FullNothing(keep, name, t, a);
      ThinnedSame(floor, []);
    }
    ThinnedSame(floor, left);
    ThinnedConcat(floor, skipped, [], left, left);
    assert [] + left == left;
  }

  /** The first page and what comes after it. */
  lemma PageAhead(nullsKept: bool, keep: Value -> bool, w: Work)
    requires Scannable(nullsKept, keep, w) && w.pages != []
    ensures var w' := w.(pages := w.pages[1..]);
      && StartsRow(w.pages[0].values) && StartsRow(Later(w')) && Later(w) == w.pages[0].values + Later(w')
      && SafePages(nullsKept, keep, w.pages[1..]) && SafeGroups(nullsKept, keep, w.groups)
      && NumRows(Later(w)) == NumRows(w.pages[0].values) + NumRows(Later(w'))
  {
    hide NumRows, SafeGroups, SafeValues, Levelled;
    var a, w' := w.pages[0].values, w.(pages := w.pages[1..]);
    RestSafe(nullsKept, keep, w.pages);
    GroupsStart(nullsKept, keep, w.groups);
    PagesStart(nullsKept, keep, w.pages[1..]);
    Associates(a, PageValues(w.pages[1..]), GroupValues(w.groups));
    LevelledConcat(PageValues(w.pages[1..]), GroupValues(w.groups));
    NumRowsConcat(a, Later(w'));
  }

  lemma RestSafe(nullsKept: bool, keep: Value -> bool, ps: seq<Page>)
    requires SafePages(nullsKept, keep, ps) && ps != []
    ensures SafePages(nullsKept, keep, ps[1..]) && StartsRow(ps[0].values)
  {
    hide SafeValues, StartsRow;
  }

  lemma SkipPage(nullsKept: bool, keep: Value -> bool, name: string, w: Work, floor: int)
    requires Scannable(nullsKept, keep, w) && w.values == [] && w.pages != []
    requires w.rn[0] + NumRows(w.pages[0].values) < floor || forall v :: v in w.pages[0].values ==> !keep(v)
    ensures var w' := Work(w.groups, w.pages[1..], [], Skip(w.rn, NumRows(w.pages[0].values)));
      Scannable(nullsKept, keep, w') && Thinned(floor, Remaining(keep, name, w), Remaining(keep, name, w'))
  {
    hide Later, Remaining, SafePages, SafeGroups, NumRows, Skip, Thinned, Full, Levelled;
    var a, w' := w.pages[0].values, Work(w.groups, w.pages[1..], [], Skip(w.rn, NumRows(w.pages[0].values)));
    PageAhead(nullsKept, keep, w);
    SameLater(w.(pages := w.pages[1..]), w');
    RowsOfNone();
    SkipRoot(w.rn, NumRows(a));
    StartLevelled(Later(w'));
    StartLevelled(Later(w));
    PassOver(keep, name, w.rn, a, Later(w'), floor);
    EmptyFront(keep, name, w);
    EmptyFront(keep, name, w');
  }

  lemma SkipGroup(nullsKept: bool, keep: Value -> bool, name: string, w: Work, floor: int)
    requires Scannable(nullsKept, keep, w) && w.values == [] && w.pages == [] && w.groups != []
    requires var vs := PageValues(w.groups[0].pages);
      w.rn[0] + NumRows(vs) < floor || forall v :: v in vs ==> !keep(v)
    ensures var w' := Work(w.groups[1..], [], [], Skip(w.rn, NumRows(PageValues(w.groups[0].pages))));
      Scannable(nullsKept, keep, w') && Thinned(floor, Remaining(keep, name, w), Remaining(keep, name, w'))
  {
    var a := PageValues(w.groups[0].pages);
    var w' := Work(w.groups[1..], [], [], Skip(w.rn, NumRows(a)));
    GroupsStart(nullsKept, keep, w.groups[1..]);
    PagesStart(nullsKept, keep, w.groups[0].pages);
    assert Later(w') == GroupValues(w.groups[1..]);
    assert Later(w) == a + Later(w');
    PassOver(keep, name, w.rn, a, Later(w'), floor);
    EmptyFront(keep, name, w);
    EmptyFront(keep, name, w');
  }

  lemma SameLater(w: Work, w': Work)
    requires w.groups == w'.groups && w.pages == w'.pages
    ensures Later(w) == Later(w')
  {
  }

  lemma RowsOfNone()
    ensures Levelled([]) && NumRows([]) == 0
  {
  }

  lemma EmptyFront(keep: Value -> bool, name: string, w: Work)
    requires w.values == [] && Levelled(Later(w))
    ensures Remaining(keep, name, w) == Full(keep, name, w.rn, Later(w))
  {
    assert [] + Full(keep, name, w.rn, Later(w)) == Full(keep, name, w.rn, Later(w));
  }

  lemma OpenPage(nullsKept: bool, keep: Value -> bool, name: string, w: Work)
    requires Scannable(nullsKept, keep, w) && w.values == [] && w.pages != []
    ensures var w' := Work(w.groups, w.pages[1..], w.pages[0].values, w.rn);
      Scannable(nullsKept, keep, w') && Remaining(keep, name, w) == Remaining(keep, name, w')
  {
    hide Later, SafePages, SafeGroups, NumRows, Full, Levelled;
    var w' := Work(w.groups, w.pages[1..], w.pages[0].values, w.rn);
    PageAhead(nullsKept, keep, w);
    SameLater(w.(pages := w.pages[1..]), w');
    RowsOfNone();
    StartLevelled(w'.values);
    StartLevelled(Later(w'));
    StartLevelled(Later(w));
    FullConcat(keep, name, w.rn, w'.values, Later(w'));
    EmptyFront(keep, name, w);
  }

  lemma OpenGroup(nullsKept: bool, keep: Value -> bool, name: string, w: Work)
    requires Scannable(nullsKept, keep, w) && w.values == [] && w.pages == [] && w.groups != []
    ensures var w' := Work(w.groups[1..], w.groups[0].pages, [], w.rn);
      Scannable(nullsKept, keep, w') && Remaining(keep, name, w) == Remaining(keep, name, w')
  {
    var w' := Work(w.groups[1..], w.groups[0].pages, [], w.rn);
    GroupsStart(nullsKept, keep, w.groups[1..]);
    PagesStart(nullsKept, keep, w.groups[0].pages);
    assert Later(w) == Later(w');
  }

  /** Reading the next n values of the page moves their results from the scan into a buffer. */
  lemma ReadValues(nullsKept: bool, keep: Value -> bool, name: string, w: Work, n: nat)
    requires Scannable(nullsKept, keep, w) && n <= |w.values|
    ensures Levelled(w.values[..n])
    ensures var w' := w.(values := w.values[n..], rn := After(w.rn, w.values[..n]));
      Scannable(nullsKept, keep, w') &&
      Remaining(keep, name, w) == Full(keep, name, w.rn, w.values[..n]) + Remaining(keep, name, w')
  {
    hide Later, SafePages, SafeGroups, NumRows, Full, After, Levelled;
    var a, b := w.values[..n], w.values[n..];
    assert w.values == a + b;
    LevelledConcat(a, b);
    var w' := w.(values := b, rn := After(w.rn, a));
    SameLater(w, w');
    StartLevelled(Later(w));
    FullConcat(keep, name, w.rn, a, b);
    NumRowsConcat(a, b);
    AfterRoot(w.rn, a);
    AfterConcat(w.rn, a, b);
    Associates(Full(keep, name, w.rn, a), Full(keep, name, w'.rn, b), Full(keep, name, After(w'.rn, b), Later(w)));
  }

  lemma AfterConcat(t: RowNumber, a: seq<Value>, b: seq<Value>)
    requires Levelled(a) && Levelled(b) && Levelled(a + b)
    ensures After(t, a + b) == After(After(t, a), b)
  {
    FullConcat(_ => false, "", t, a, b);
  }

  ghost predicate Ordered(s: seq<Result>) {
    StrictAt(5, s) && forall i :: 0 <= i < |s| ==> Valid(s[i].rowNumber)
  }

  lemma ThinnedOrdered(floor: int, s: seq<Result>, u: seq<Result>)
    requires Thinned(floor, s, u) && Ordered(s)
    ensures Ordered(u)
  {
    ThinnedKeeps(floor, s, u);
    forall i | 0 <= i < |u| ensures Valid(u[i].rowNumber) {
      assert u[i] in u;
    }
  }

  /** A full scan yields valid, strictly increasing row numbers. */
  lemma FreshScan(nullsKept: bool, keep: Value -> bool, name: string, gs: seq<RowGroup>)
    requires SafeGroups(nullsKept, keep, gs) && NumRows(GroupValues(gs)) <= MAX_INT64
    ensures StartsRow(GroupValues(gs)) && Scannable(nullsKept, keep, Work(gs, [], [], EMPTY))
    ensures Remaining(keep, name, Work(gs, [], [], EMPTY)) == Full(keep, name, EMPTY, GroupValues(gs))
    ensures Ordered(Full(keep, name, EMPTY, GroupValues(gs)))
  {
    GroupsStart(nullsKept, keep, gs);
    assert Later(Work(gs, [], [], EMPTY)) == GroupValues(gs);
    EmptyFront(keep, name, Work(gs, [], [], EMPTY));
    FullRises(keep, name, EMPTY, GroupValues(gs));
    FullRootRises(keep, name, EMPTY, GroupValues(gs));
  }

  // ---------- The scan against what has arrived ----------

  /** pending is what has arrived at the consumer's end followed by what a full scan would still find. */
  ghost predicate Tracks(nullsKept: bool, keep: Value -> bool, name: string, arrived: seq<Result>, w: Work,
                         pending: seq<Result>)
  {
    && Scannable(nullsKept, keep, w)
    && pending == arrived + Remaining(keep, name, w)
    && Ordered(pending)
  }

  /** Before anything was read, everything is still to be scanned. */
  lemma FreshTracks(nullsKept: bool, keep: Value -> bool, name: string, gs: seq<RowGroup>)
    requires SafeGroups(nullsKept, keep, gs) && NumRows(GroupValues(gs)) <= MAX_INT64
    ensures StartsRow(GroupValues(gs)) && Tracks(nullsKept, keep, name, [] + [], Work(gs, [], [], EMPTY), Full(keep, name, EMPTY, GroupValues(gs)))
    ensures forall i :: 0 <= i < |Full(keep, name, EMPTY, GroupValues(gs))| ==> Full(keep, name, EMPTY, GroupValues(gs))[i].rowNumber[0] >= 0
  {
    hide Full, Scannable, Remaining;
    FreshScan(nullsKept, keep, name, gs);
    var all := Full(keep, name, EMPTY, GroupValues(gs));
    assert [] + [] + all == all;
  }

  /** Upper bound on the steps left: one per row group, per page and per value. */
  ghost function Effort(w: Work): nat {
    GroupEffort(w.groups) + PageEffort(w.pages) + |w.values|
  }

  ghost function PageEffort(ps: seq<Page>): nat {
    if ps == [] then 0 else 1 + |ps[0].values| + PageEffort(ps[1..])
  }

  ghost function GroupEffort(gs: seq<RowGroup>): nat {
    if gs == [] then 0 else 1 + PageEffort(gs[0].pages) + GroupEffort(gs[1..])
  }

  /** The goroutine's next position when it passes over a row group, or opens it. */
  function PassGroup(w: Work, skip: bool): Work
    requires w.groups != []
  {
    var g := w.groups[0];
    if skip then Work(w.groups[1..], [], [], Skip(w.rn, NumRows(PageValues(g.pages))))
    else Work(w.groups[1..], g.pages, [], w.rn)
  }

  function PassPage(w: Work, skip: bool): Work
    requires w.pages != []
  {
    var p := w.pages[0];
    if skip then Work(w.groups, w.pages[1..], [], Skip(w.rn, NumRows(p.values)))
    else Work(w.groups, w.pages[1..], p.values, w.rn)
  }

  lemma TrackGroup(nullsKept: bool, keep: Value -> bool, name: string, arrived: seq<Result>, w: Work,
                   pending: seq<Result>, floor: int, skip: bool) returns (after: seq<Result>)
    requires Tracks(nullsKept, keep, name, arrived, w, pending) && w.values == [] && w.pages == [] && w.groups != []
    requires var vs := PageValues(w.groups[0].pages);
      skip ==> w.rn[0] + NumRows(vs) < floor || forall v :: v in vs ==> !keep(v)
    ensures Tracks(nullsKept, keep, name, arrived, PassGroup(w, skip), after) && Thinned(floor, pending, after)
    ensures Effort(PassGroup(w, skip)) < Effort(w)
  {
    var w' := PassGroup(w, skip);
    if skip {
      SkipGroup(nullsKept, keep, name, w, floor);
    } else {
      OpenGroup(nullsKept, keep, name, w);
      ThinnedSame(floor, Remaining(keep, name, w));
    }
    Passed(floor, arrived, Remaining(keep, name, w), Remaining(keep, name, w'));
    after := arrived + Remaining(keep, name, w');
  }

  lemma TrackPage(nullsKept: bool, keep: Value -> bool, name: string, arrived: seq<Result>, w: Work,
                  pending: seq<Result>, floor: int, skip: bool) returns (after: seq<Result>)
    requires Tracks(nullsKept, keep, name, arrived, w, pending) && w.values == [] && w.pages != []
    requires var vs := w.pages[0].values;
      skip ==> w.rn[0] + NumRows(vs) < floor || forall v :: v in vs ==> !keep(v)
    ensures Tracks(nullsKept, keep, name, arrived, PassPage(w, skip), after) && Thinned(floor, pending, after)
    ensures Effort(PassPage(w, skip)) < Effort(w)
  {
    var w' := PassPage(w, skip);
    if skip {
      SkipPage(nullsKept, keep, name, w, floor);
    } else {
      OpenPage(nullsKept, keep, name, w);
      ThinnedSame(floor, Remaining(keep, name, w));
    }
    Passed(floor, arrived, Remaining(keep, name, w), Remaining(keep, name, w'));
    after := arrived + Remaining(keep, name, w');
  }

  /** Thinning what remains to be scanned thins everything pending, and keeps its order. */
  lemma Passed(floor: int, arrived: seq<Result>, r: seq<Result>, r': seq<Result>)
    requires Thinned(floor, r, r') && Ordered(arrived + r)
    ensures Thinned(floor, arrived + r, arrived + r') && Ordered(arrived + r')
  {
    ThinnedSame(floor, arrived);
    ThinnedConcat(floor, arrived, arrived, r, r');
    ThinnedOrdered(floor, arrived + r, arrived + r');
  }

  lemma TrackRead(nullsKept: bool, keep: Value -> bool, name: string, inHand: seq<Result>, w: Work,
                  pending: seq<Result>, n: nat)
    requires Tracks(nullsKept, keep, name, inHand + [], w, pending) && 0 < n <= |w.values|
    ensures Levelled(w.values[..n])
    ensures var w' := w.(values := w.values[n..], rn := After(w.rn, w.values[..n]));
      && Tracks(nullsKept, keep, name, inHand + Full(keep, name, w.rn, w.values[..n]), w', pending)
      && Effort(w') < Effort(w)
  {
    assert inHand + [] == inHand;
    ReadValues(nullsKept, keep, name, w, n);
  }

  /** Handing the first arrived result to the caller. */
  lemma TrackPop(nullsKept: bool, keep: Value -> bool, name: string, x: Result, arrived: seq<Result>, w: Work,
                 pending: seq<Result>)
    requires Tracks(nullsKept, keep, name, [x] + arrived, w, pending)
    ensures pending != [] && pending[0] == x && Valid(x.rowNumber)
    ensures Tracks(nullsKept, keep, name, arrived, w, pending[1..])
  {
    assert pending == [x] + (arrived + Remaining(keep, name, w));
    assert Ordered(pending[1..]);
  }

  lemma TrackEnd(nullsKept: bool, keep: Value -> bool, name: string, w: Work, pending: seq<Result>)
    requires Tracks(nullsKept, keep, name, [], w, pending) && w.groups == [] && w.pages == [] && w.values == []
    ensures pending == []
  {
  }
}
