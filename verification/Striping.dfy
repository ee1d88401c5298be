/**
  What RowNumber.Next computes: running it over the (repetition, definition) levels that
  column striping emits numbers each value with its path in the record tree, for every
  list of records, if and only if no optional field of the column lies above a repeated
  one.

  Levels are those of "Repetition and Definition Levels", section 4.1 of the Dremel
  paper. Required fields add no level and are left away.
 */
module Striping {
  import opened RowNumbers

  datatype Kind = Optional | Repeated

  /** The fields on the way to the column, from the outermost one in. */
  type Column = seq<Kind>

  /** A field instance; without children it is where the column's value (or null) is recorded. */
  datatype Node = Node(children: seq<Node>)

  datatype Levels = Levels(r: nat, d: nat)

  /** Instances at this depth are as the column's fields allow. */
  predicate Conforms(c: Column, n: Node, depth: nat)
    decreases n, 1
  {
    && (n.children != [] ==> depth < |c|)
    && (|n.children| > 1 ==> c[depth].Repeated?)
    && AllConform(c, n.children, depth + 1)
  }

  predicate AllConform(c: Column, ns: seq<Node>, depth: nat)
    decreases ns, 0
  {
    ns == [] || (Conforms(c, ns[0], depth) && AllConform(c, ns[1..], depth))
  }

  predicate Fits(n: Node, depth: nat)
    decreases n, 1
  {
    depth < LEVELS && AllFit(n.children, depth + 1)
  }

  predicate AllFit(ns: seq<Node>, depth: nat)
    decreases ns, 0
  {
    ns == [] || (Fits(ns[0], depth) && AllFit(ns[1..], depth))
  }

  lemma {:induction false} ConformsFits(c: Column, n: Node, depth: nat)
    requires depth <= |c| < LEVELS && Conforms(c, n, depth)
    ensures Fits(n, depth)
    decreases n, 1
  {
    if n.children != [] {
      AllConformFit(c, n.children, depth + 1);
    }
  }

  lemma {:induction false} AllConformFit(c: Column, ns: seq<Node>, depth: nat)
    requires depth <= |c| < LEVELS && AllConform(c, ns, depth)
    ensures AllFit(ns, depth)
    decreases ns, 0
  {
    if ns != [] {
      ConformsFits(c, ns[0], depth);
      AllConformFit(c, ns[1..], depth);
    }
  }

  /** The repetition level of a field: the repeated fields among it and those above. */
  function RepetitionLevel(c: Column, depth: nat): (r: nat)
    ensures r <= depth
  {
    if depth == 0 then 0
    else RepetitionLevel(c, depth - 1) + if depth <= |c| && c[depth - 1].Repeated? then 1 else 0
  }

  /** Column striping: the first child inherits the repetition level, later siblings repeat at that of their field. */
  function Stripe(c: Column, n: Node, depth: nat, r: nat): (ls: seq<Levels>)
    decreases n, 1
  {
    if n.children == [] then [Levels(r, depth)] else StripeAll(c, n.children, depth + 1, r)
  }

  function StripeAll(c: Column, ns: seq<Node>, depth: nat, r: nat): seq<Levels>
    decreases ns, 0
  {
    if ns == [] then [] else Stripe(c, ns[0], depth, r) + StripeAll(c, ns[1..], depth, RepetitionLevel(c, depth))
  }

  /** The tree positions, in document order: the path of child indices, padded with -1. */
  function Positions(n: Node, path: seq<int>): seq<RowNumber>
    requires 0 < |path| && Fits(n, |path| - 1)
    decreases n, 1
  {
    if n.children == [] then [Pad(path)] else PositionsAll(n.children, path, 0)
  }

  function PositionsAll(ns: seq<Node>, parent: seq<int>, index: nat): seq<RowNumber>
    requires AllFit(ns, |parent|)
    decreases ns, 0
  {
    if ns == [] then []
    else Positions(ns[0], parent + [index]) + PositionsAll(ns[1..], parent, index + 1)
  }

  function Pad(path: seq<int>): RowNumber
    requires |path| <= LEVELS
  {
    path + seq(LEVELS - |path|, _ => -1)
  }

  /** The row numbers that the scan assigns, starting from t. */
  function Number(t: RowNumber, ls: seq<Levels>): seq<RowNumber>
    requires Legal(ls)
    decreases ls
  {
    if ls == [] then []
    else var n := Next(t, ls[0].r, ls[0].d); [n] + Number(n, ls[1..])
  }

  function Last(t: RowNumber, ls: seq<Levels>): RowNumber
    requires Legal(ls)
    decreases ls
  {
    if ls == [] then t else Last(Next(t, ls[0].r, ls[0].d), ls[1..])
  }

  predicate Legal(ls: seq<Levels>) {
    forall i :: 0 <= i < |ls| ==> ls[i].r <= ls[i].d < LEVELS
  }

  lemma {:induction false} NumberConcat(t: RowNumber, a: seq<Levels>, b: seq<Levels>)
    requires Legal(a) && Legal(b)
    ensures Number(t, a + b) == Number(t, a) + Number(Last(t, a), b)
    ensures Last(t, a + b) == Last(Last(t, a), b)
    decreases a
  {
    if a == [] {
      assert a + b == b;
    } else {
      assert (a + b)[1..] == a[1..] + b;
      NumberConcat(Next(t, a[0].r, a[0].d), a[1..], b);
    }
  }

  /** The value at path is the next one after t when it repeats at level r. */
  ghost predicate Follows(t: RowNumber, r: nat, path: seq<int>) {
    && r < |path| <= LEVELS
    && path[..r] == t[..r]
    && path[r] == t[r] + 1
    && forall j :: r < j < |path| ==> path[j] == 0
  }

  /** No optional field lies above a repeated one. */
  predicate RepeatedFirst(c: Column) {
    forall i, j :: 0 <= i < j < |c| && c[i].Optional? ==> c[j].Optional?
  }

  lemma {:induction false} AllRepeated(c: Column, depth: nat)
    requires depth <= |c| && forall i :: 0 <= i < depth ==> c[i].Repeated?
    ensures RepetitionLevel(c, depth) == depth
  {
    if depth > 0 {
      AllRepeated(c, depth - 1);
    }
  }

  lemma {:induction false} NumberNode(c: Column, t: RowNumber, n: Node, path: seq<int>, r: nat)
    requires |c| < LEVELS && RepeatedFirst(c)
    requires 0 < |path| <= |c| + 1 && Fits(n, |path| - 1) && Conforms(c, n, |path| - 1) && Follows(t, r, path)
    ensures Legal(Stripe(c, n, |path| - 1, r))
    ensures Number(t, Stripe(c, n, |path| - 1, r)) == Positions(n, path)
    ensures Last(t, Stripe(c, n, |path| - 1, r))[..|path|] == path
    decreases n, 1
  {
    if n.children == [] {
      var ls := [Levels(r, |path| - 1)];
      assert Next(t, r, |path| - 1) == Pad(path);
      assert ls[1..] == [];
    } else {
      assert Fits(n.children[0], |path|);
      if |n.children| > 1 {
        AllRepeated(c, |path|);
      }
      NumberSiblings(c, t, n.children, path, 0, r);
    }
  }

  lemma {:induction false} NumberSiblings(c: Column, t: RowNumber, ns: seq<Node>, parent: seq<int>, index: nat, r: nat)
    requires |parent| <= |c| < LEVELS && RepeatedFirst(c) && (|ns| > 1 ==> RepetitionLevel(c, |parent|) == |parent|)
    requires ns != [] && AllFit(ns, |parent|) && AllConform(c, ns, |parent|) && Follows(t, r, parent + [index])
    ensures Legal(StripeAll(c, ns, |parent|, r))
    ensures Number(t, StripeAll(c, ns, |parent|, r)) == PositionsAll(ns, parent, index)
    ensures Last(t, StripeAll(c, ns, |parent|, r))[..|parent|] == parent
    decreases ns, 0
  {
    var path, here := parent + [index], Stripe(c, ns[0], |parent|, r);
    NumberNode(c, t, ns[0], path, r);
    var t' := Last(t, here);
    assert t'[..|parent|] == path[..|parent|] == parent && t'[|parent|] == index;
    if ns[1..] == [] {
      assert here + StripeAll(c, ns[1..], |parent|, RepetitionLevel(c, |parent|)) == here;
      assert PositionsAll(ns, parent, index) == Positions(ns[0], path);
    } else {
      NumberSiblings(c, t', ns[1..], parent, index + 1, |parent|);
      NumberConcat(t, here, StripeAll(c, ns[1..], |parent|, |parent|));
    }
  }

  /** Next, started from the empty row number, recovers every value's position in the records. */
  ghost predicate NumbersArePositions(c: Column, records: seq<Node>)
    requires AllFit(records, 0)
  {
    && Legal(StripeAll(c, records, 0, 0))
    && Number(EMPTY, StripeAll(c, records, 0, 0)) == PositionsAll(records, [], 0)
  }

  lemma RepeatedFirstSuffices(c: Column, records: seq<Node>)
    requires |c| < LEVELS && RepeatedFirst(c) && AllConform(c, records, 0)
    ensures AllFit(records, 0) && NumbersArePositions(c, records)
  {
    AllConformFit(c, records, 0);
    if records != [] {
      NumberSiblings(c, EMPTY, records, [], 0, 0);
    }
  }

  // ---------- An optional field above a repeated one ----------

  const LEAF := Node([])

  /** k single instances above two siblings. */
  function Fork(k: nat): Node {
    if k == 0 then Node([LEAF, LEAF]) else Node([Fork(k - 1)])
  }

  lemma {:induction false} ForkConforms(c: Column, k: nat, depth: nat)
    requires depth + k < |c| && c[depth + k].Repeated?
    ensures Conforms(c, Fork(k), depth)
  {
    if k == 0 {
      assert [LEAF, LEAF][1..] == [LEAF] && [LEAF][1..] == [];
      assert Conforms(c, LEAF, depth + 1) && AllConform(c, [LEAF], depth + 1);
      assert AllConform(c, [LEAF, LEAF], depth + 1);
    } else {
      ForkConforms(c, k - 1, depth + 1);
      assert AllConform(c, [Fork(k - 1)][1..], depth + 1);
    }
  }

  lemma StripeOne(c: Column, n: Node, depth: nat, r: nat)
    ensures StripeAll(c, [n], depth, r) == Stripe(c, n, depth, r)
  {
    assert [n][1..] == [];
  }

  lemma PositionsOne(n: Node, parent: seq<int>)
    requires Fits(n, |parent|) && AllFit([n], |parent|)
    ensures PositionsAll([n], parent, 0) == Positions(n, parent + [0])
  {
    assert [n][1..] == [];
  }

  lemma {:induction false} ForkStripes(c: Column, k: nat, depth: nat, r: nat)
    ensures Stripe(c, Fork(k), depth, r) ==
      [Levels(r, depth + k + 1), Levels(RepetitionLevel(c, depth + k + 1), depth + k + 1)]
  {
    if k == 0 {
      var later := RepetitionLevel(c, depth + 1);
      assert [LEAF, LEAF][1..] == [LEAF];
      StripeOne(c, LEAF, depth + 1, later);
      assert StripeAll(c, [LEAF, LEAF], depth + 1, r) == Stripe(c, LEAF, depth + 1, r) + StripeAll(c, [LEAF], depth + 1, later);
    } else {
      ForkStripes(c, k - 1, depth + 1, r);
      StripeOne(c, Fork(k - 1), depth + 1, r);
    }
  }

  lemma {:induction false} ForkPositions(k: nat, path: seq<int>)
    requires 0 < |path| && Fits(Fork(k), |path| - 1)
    ensures |path| + k < LEVELS && |Positions(Fork(k), path)| == 2 && Positions(Fork(k), path)[1][|path| + k] == 1
  {
    if k == 0 {
      assert [LEAF, LEAF][1..] == [LEAF] && [LEAF][1..] == [];
      assert Fits(LEAF, |path|);
      assert PositionsAll([LEAF], path, 1) == Positions(LEAF, path + [1]) + PositionsAll([], path, 2);
      assert PositionsAll([LEAF, LEAF], path, 0) == Positions(LEAF, path + [0]) + PositionsAll([LEAF], path, 1);
      assert Positions(LEAF, path + [1]) == [Pad(path + [1])];
    } else {
      assert Fits(Fork(k - 1), |path|);
      PositionsOne(Fork(k - 1), path);
      ForkPositions(k - 1, path + [0]);
    }
  }

  /** An optional field above keeps the repetition level below the depth. */
  lemma {:induction false} OptionalLowers(c: Column, i: nat, depth: nat)
    requires i < depth <= |c| && c[i].Optional?
    ensures RepetitionLevel(c, depth) < depth
  {
    if i < depth - 1 {
      OptionalLowers(c, i, depth - 1);
    }
  }

  /** The second of two siblings is numbered as if an outer field had been repeated. */
  lemma ForkMisnumbered(c: Column, i: nat, j: nat)
    requires i < j < |c| < LEVELS && c[i].Optional? && c[j].Repeated?
    ensures AllConform(c, [Fork(j)], 0) && AllFit([Fork(j)], 0) && !NumbersArePositions(c, [Fork(j)])
  {
    var records := [Fork(j)];
    ForkConforms(c, j, 0);
    assert records[1..] == [];
    AllConformFit(c, records, 0);
    ForkStripes(c, j, 0, 0);
    StripeOne(c, Fork(j), 0, 0);
    ForkPositions(j, [0]);
    PositionsOne(Fork(j), []);
    OptionalLowers(c, i, j + 1);
    NumberTwo(RepetitionLevel(c, j + 1), j + 1);
    assert [] + [0] == [0];
  }

  lemma NumberTwo(r: nat, d: nat)
    requires r < d < LEVELS
    ensures var ls := [Levels(0, d), Levels(r, d)]; |Number(EMPTY, ls)| == 2 && Number(EMPTY, ls)[1][d] == 0
  {
    var ls := [Levels(0, d), Levels(r, d)];
    assert ls[1..] == [Levels(r, d)] && ls[1..][1..] == [];
    var first := Next(EMPTY, 0, d);
    assert Number(EMPTY, ls) == [first] + Number(first, ls[1..]);
    assert Number(first, ls[1..]) == [Next(first, r, d)] + Number(Next(first, r, d), ls[1..][1..]);
  }

  /** For a column: all records are numbered by position exactly if its repeated fields come first. */
  lemma NumbersArePositionsIff(c: Column)
    requires |c| < LEVELS
    ensures (forall records :: AllConform(c, records, 0) ==> AllFit(records, 0) && NumbersArePositions(c, records))
      <==> RepeatedFirst(c)
  {
    if RepeatedFirst(c) {
      forall records | AllConform(c, records, 0) ensures AllFit(records, 0) && NumbersArePositions(c, records) {
        RepeatedFirstSuffices(c, records);
      }
    } else {
      var i, j :| 0 <= i < j < |c| && c[i].Optional? && !c[j].Optional?;
      ForkMisnumbered(c, i, j);
    }
  }
}
