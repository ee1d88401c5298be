/**
  From a query plan to its results: iterators built over column data
  (pkg/parquetquery/iters.go, predicates.go) and read to the end yield what the plan
  means, a function of the data alone.
 */
module Plans {
  import opened Wrappers
  import opened RowNumbers
  import opened Parquet
  import opened Cogroup
  import opened Scan
  import opened Predicates
  import opened Columns
  import opened Iterators

  // ---------- Filters ----------

  /** All is the nil predicate, which keeps everything. */
  datatype Filter = All | Leaf(test: Test) | Either(branches: seq<Filter>)

  ghost predicate SoundFilter(f: Filter) {
    match f
    case All => true
    case Leaf(test) => !test.Or? && SoundRange(test)
    case Either(branches) => forall i :: 0 <= i < |branches| ==> SoundFilter(branches[i])
  }

  ghost predicate Keeps(f: Filter, v: Value)
    requires SoundFilter(f)
  {
    match f
    case All => true
    case Leaf(test) => LeafKeeps(test, v)
    case Either(branches) => exists i :: 0 <= i < |branches| && Keeps(branches[i], v)
  }

  ghost predicate NeverSkips(f: Filter) {
    match f
    case All => true
    case Leaf(_) => false
    case Either(branches) => exists i :: 0 <= i < |branches| && NeverSkips(branches[i])
  }

  ghost function Keep(f: Filter): (keep: Value -> bool)
    requires SoundFilter(f)
    ensures forall v :: keep(v) == Keeps(f, v)
  {
    (v: Value) => SoundFilter(f) && Keeps(f, v)
  }

  /** The predicate object does what the filter says. */
  ghost predicate Implements(p: Predicate?, f: Filter)
    requires SoundFilter(f) && (p != null ==> p.Wired())
  {
    && (p == null <==> f.All?)
    && (p != null ==> (p.NeverSkips() <==> NeverSkips(f)) && forall v :: p.Keeps(v) <==> Keeps(f, v))
  }

  lemma {:induction false} FootprintAppend(ps: seq<Predicate?>, p: Predicate?)
    ensures Predicates.Footprint(ps + [p]) == Predicates.Footprint(ps) + if p == null then {} else p.Repr
  {
    if ps != [] {
      assert (ps + [p])[1..] == ps[1..] + [p];
      FootprintAppend(ps[1..], p);
    } else {
      assert (ps + [p])[1..] == [];
    }
  }

  method BuildFilter(f: Filter) returns (p: Predicate?)
    requires SoundFilter(f)
    ensures p != null ==> fresh(p.Repr) && p.Valid() && p.group == None
    ensures Implements(p, f)
    decreases f, 1
  {
    match f {
      case All =>
        p := null;
      case Leaf(test) =>
        p := new Predicate(test, []);
      case Either(branches) =>
        var ps := BuildBranches(branches, f);
        p := new Predicate(Or, ps);
    }
  }

  /** Predicates that do what the branches say and share nothing. */
  ghost predicate Branched(ps: seq<Predicate?>, branches: seq<Filter>)
    reads Predicates.Footprint(ps)
  {
    && |ps| <= |branches|
    && (forall i :: 0 <= i < |ps| && ps[i] != null ==> ps[i] in ps[i].Repr && ps[i].Valid() && ps[i].group == None)
    && (forall i, j :: 0 <= i < |ps| && 0 <= j < |ps| && i != j && ps[i] != null && ps[j] != null ==> ps[i].Repr !! ps[j].Repr)
    && (forall i :: 0 <= i < |ps| ==> SoundFilter(branches[i]) && (ps[i] != null ==> ps[i].Wired()) && Implements(ps[i], branches[i]))
  }

  lemma ValidWired(p: Predicate)
    requires p.Valid()
    ensures p.Wired() && p in p.Repr
  {
  }

  lemma BranchedMore(ps: seq<Predicate?>, branches: seq<Filter>, p: Predicate?)
    requires Branched(ps, branches) && |ps| < |branches| && SoundFilter(branches[|ps|])
    requires p != null ==> p.Valid() && p.Wired() && p.group == None && p.Repr !! Predicates.Footprint(ps)
    requires Implements(p, branches[|ps|])
    ensures Branched(ps + [p], branches)
  {
    hide Predicate.Keeps, Predicate.NeverSkips, Implements, SoundFilter, Predicate.Valid, Predicate.Wired;
    if p != null {
      ValidWired(p);
    }
    var more := ps + [p];
    assert forall i :: 0 <= i < |ps| ==> more[i] == ps[i] && (ps[i] != null ==> ps[i].Repr <= Predicates.Footprint(ps));
  }

  /** A predicate per branch; they share nothing. */
  method BuildBranches(branches: seq<Filter>, ghost f: Filter) returns (ps: seq<Predicate?>)
    requires f == Either(branches) && SoundFilter(f)
    ensures |ps| == |branches| && fresh(Predicates.Footprint(ps)) && Branched(ps, branches)
    decreases f, 0
  {
    hide Predicate.Valid, Predicate.Wired, Predicate.Keeps, Predicate.NeverSkips, Implements, SoundFilter, Branched;
    SoundBranches(branches);
    ps := [];
    BranchedNone(branches);
    ghost var taken: set<object> := {};
    for i := 0 to |branches|
      invariant taken == Predicates.Footprint(ps)
      invariant |ps| == i && fresh(Predicates.Footprint(ps)) && Branched(ps, branches)
    {
      var q := BuildFilter(branches[i]);
      BranchedMore(ps, branches, q);
      FootprintAppend(ps, q);
      ps := ps + [q];
      taken := Predicates.Footprint(ps);
    }
  }

  lemma BranchedNone(branches: seq<Filter>)
    ensures Branched([], branches)
  {
  }

  lemma SoundBranches(branches: seq<Filter>)
    requires SoundFilter(Either(branches))
    ensures forall i :: 0 <= i < |branches| ==> SoundFilter(branches[i])
  {
  }

  // ---------- Plans ----------

  /** A column scan, or a Join, LeftJoin or Union whose required children come first. */
  datatype Plan =
    | Column(rgs: seq<RowGroup>, filter: Filter, readSize: nat, selectAs: string)
    | Fan(kind: Kind, level: Level, children: seq<Plan>, required: nat, keep: Result -> bool)

  /** The finest level at which the plan's iterator can be sought. */
  function Finest(p: Plan): Level {
    if p.Column? then LEVELS - 1 else p.level
  }

  ghost predicate Sound(p: Plan) {
    match p
    case Column(rgs, filter, readSize, _) =>
      && SoundFilter(filter) && 0 < readSize && NumRows(GroupValues(rgs)) <= MAX_INT64
      && SafeGroups(NeverSkips(filter), Keep(filter), rgs)
    case Fan(kind, level, children, required, _) =>
      && required <= |children|
      && (kind.Join? ==> 0 < required == |children|) && (kind.LeftJoin? ==> 0 < required) && (kind.Union? ==> required == 0)
      && forall i :: 0 <= i < |children| ==> Sound(children[i]) && level <= Finest(children[i])
  }

  /** What the plan means: the filtered, numbered values of a column, or the naive combination of the children. */
  ghost function Rows(p: Plan): seq<Result>
    requires Sound(p)
  {
    match p
    case Column(rgs, filter, _, selectAs) =>
      GroupsStart(NeverSkips(filter), Keep(filter), rgs);
      Full(Keep(filter), selectAs, EMPTY, GroupValues(rgs))
    case Fan(_, level, children, required, keep) =>
      Meaning(required, level, seq(|children|, i requires 0 <= i < |children| => Rows(children[i])), keep)
  }

  /** A column yields one result per kept value, in order, carrying the value under the selected name. */
  lemma ColumnRows(p: Plan)
    requires Sound(p) && p.Column?
    ensures var vs := GroupValues(p.rgs);
      && StartsRow(vs) && |Rows(p)| == Count(Keep(p.filter), vs)
      && forall i :: 0 <= i < |vs| && Keeps(p.filter, vs[i]) ==>
           var k := Count(Keep(p.filter), vs[..i]);
           k < |Rows(p)| && Carries(p.selectAs, EMPTY, vs, i, Rows(p)[k])
  {
    GroupsStart(NeverSkips(p.filter), Keep(p.filter), p.rgs);
    FullCarries(Keep(p.filter), p.selectAs, EMPTY, GroupValues(p.rgs));
  }

  lemma {:induction false} FullSame(keep: Value -> bool, same: Value -> bool, name: string, t: RowNumber, vs: seq<Value>)
    requires Levelled(vs) && forall v :: keep(v) == same(v)
    ensures Full(keep, name, t, vs) == Full(same, name, t, vs)
    decreases vs
  {
    if vs != [] {
      FullSame(keep, same, name, Next(t, vs[0].r, vs[0].d), vs[1..]);
    }
  }

  lemma SafeSame(nullsKept: bool, keep: Value -> bool, same: Value -> bool, gs: seq<RowGroup>)
    requires SafeGroups(nullsKept, keep, gs) && forall v :: keep(v) == same(v)
    ensures SafeGroups(nullsKept, same, gs)
  {
    forall i | 0 <= i < |gs| ensures SafePages(nullsKept, same, gs[i].pages) {
      assert SafePages(nullsKept, keep, gs[i].pages);
      forall j | 0 <= j < |gs[i].pages| ensures SafeValues(nullsKept, same, gs[i].pages[j].values) {
        assert SafeValues(nullsKept, keep, gs[i].pages[j].values);
      }
    }
  }

  lemma {:induction false} IterFootprintAppend(iters: seq<Iter>, it: Iter)
    ensures Iterators.Footprint(iters + [it]) == Iterators.Footprint(iters) + it.Repr()
  {
    if iters != [] {
      assert (iters + [it])[1..] == iters[1..] + [it];
      IterFootprintAppend(iters[1..], it);
    } else {
      assert (iters + [it])[1..] == [];
    }
  }

  method BuildColumn(p: Plan) returns (it: Iter)
    requires Sound(p) && p.Column?
    ensures it.Valid() && fresh(it.Repr()) && it.Rest() == Rows(p) && it.SeekLevel() == Finest(p)
  {
    hide Predicate.Valid, Predicate.Keeps, Predicate.NeverSkips, ColumnIterator.Inv, Full;
    var filter := BuildFilter(p.filter);
    FilterOf(filter, p.filter);
    SafeSame(NeverSkips(p.filter), Keep(p.filter), KeepOf(filter), p.rgs);
    var c := new ColumnIterator(p.rgs, filter, p.readSize, p.selectAs);
    FullSame(Keep(p.filter), KeepOf(filter), p.selectAs, EMPTY, GroupValues(p.rgs));
    it := Iter.Column(c);
  }

  lemma FilterOf(p: Predicate?, f: Filter)
    requires SoundFilter(f) && (p != null ==> p.Valid()) && Implements(p, f)
    ensures p != null ==> p.Wired()
    ensures SkipsNever(p) == NeverSkips(f) && forall v :: Keep(f)(v) == KeepOf(p)(v)
  {
  }

  /** The iterators of a plan: what they will deliver is what the plan means. */
  method Build(p: Plan) returns (it: Iter)
    requires Sound(p)
    ensures it.Valid() && fresh(it.Repr()) && it.Rest() == Rows(p) && it.SeekLevel() == Finest(p)
    decreases p, 1, 0
  {
    hide Iter.Valid, Iter.Rest, Iter.Repr, Iter.SeekLevel, Rows;
    if p.Column? {
      it := BuildColumn(p);
    } else {
      it := BuildFan(p);
    }
  }

  method BuildFan(p: Plan) returns (it: Iter)
    requires Sound(p) && p.Fan?
    ensures it.Valid() && fresh(it.Repr()) && it.Rest() == Rows(p) && it.SeekLevel() == Finest(p)
    decreases p, 0, 1
  {
    hide FanIterator.Valid, ColumnIterator.Valid, Meaning;
    var iters, S := BuildChildren(p);
    var f := new FanIterator(p.kind, p.level, iters, p.required, p.keep, S);
    it := Iter.Fan(f);
  }

  /** Children that share nothing, with what they will deliver. */
  ghost predicate Ready(iters: seq<Iter>, S: Streams, level: Level)
    reads Iterators.Footprint(iters)
  {
    && |S| == |iters|
    && (forall i :: 0 <= i < |iters| ==> iters[i].Valid() && S[i] == iters[i].Rest() && level <= iters[i].SeekLevel())
    && (forall i, j :: 0 <= i < |iters| && 0 <= j < |iters| && i != j ==> iters[i].Repr() !! iters[j].Repr())
  }

  lemma ReadyMore(iters: seq<Iter>, S: Streams, level: Level, it: Iter)
    requires Ready(iters, S, level) && it.Valid() && level <= it.SeekLevel() && it.Repr() !! Iterators.Footprint(iters)
    ensures Ready(iters + [it], S + [it.Rest()], level)
  {
    hide Iter.Valid, Iter.Rest, Iter.Repr, Iter.SeekLevel;
    var more := iters + [it];
    assert forall i :: 0 <= i < |iters| ==> more[i] == iters[i] && iters[i].Repr() <= Iterators.Footprint(iters);
  }

  method BuildChildren(p: Plan) returns (iters: seq<Iter>, ghost S: Streams)
    requires Sound(p) && p.Fan?
    ensures |iters| == |p.children| && fresh(Iterators.Footprint(iters)) && Ready(iters, S, p.level)
    ensures S == seq(|p.children|, i requires 0 <= i < |p.children| => Rows(p.children[i]))
    decreases p, 0, 0
  {
    hide Iter.Valid, Iter.Rest, Iter.Repr, Iter.SeekLevel, Rows, Ready;
    iters, S := [], [];
    ReadyNone(p.level);
    ghost var taken: set<object> := {};
    for i := 0 to |p.children|
      invariant taken == Iterators.Footprint(iters)
      invariant |iters| == i && fresh(Iterators.Footprint(iters)) && Ready(iters, S, p.level)
      invariant |S| == i && forall k :: 0 <= k < i ==> S[k] == Rows(p.children[k])
    {
      var it := Build(p.children[i]);
      ReadyMore(iters, S, p.level, it);
      IterFootprintAppend(iters, it);
      iters, S, taken := iters + [it], S + [it.Rest()], taken + it.Repr();
    }
  }

  lemma ReadyNone(level: Level)
    ensures Ready([], [], level)
  {
  }

  /** Building the iterators of any plan and reading them to the end yields what the plan means. */
  method Query(p: Plan) returns (out: seq<Result>)
    requires Sound(p)
    ensures out == Rows(p)
  {
    hide Iter.Valid, Rows;
    var it := Build(p);
    out := Drain(it);
  }
}
