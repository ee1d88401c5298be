/**
  How a lookup by snapshot ID is split over block IDs: the boundaries
  (modules/frontend/snapshotbyidsharding.go) and the test each querier applies to a
  block (pkg/deepdb/deepdb.go).
 */
module BlockBoundaries {

  type Byte = b: int | 0 <= b < 256

  const ID_BYTES := 16
  const MAX_UINT64 := 0xffff_ffff_ffff_ffff

  // ---------- Byte strings ----------

  /** bytes.Compare. */
  function Compare(a: seq<Byte>, b: seq<Byte>): int {
    if a == [] && b == [] then 0
    else if a == [] then -1
    else if b == [] then 1
    else if a[0] != b[0] then (if a[0] < b[0] then -1 else 1)
    else Compare(a[1..], b[1..])
  }

  /** It tells strings apart and is antisymmetric, whatever their lengths. */
  lemma {:induction false} CompareOrder(a: seq<Byte>, b: seq<Byte>)
    ensures Compare(a, b) == 0 <==> a == b
    ensures Compare(b, a) == -Compare(a, b)
  {
    if a != [] && b != [] {
      CompareOrder(a[1..], b[1..]);
      assert a == [a[0]] + a[1..] && b == [b[0]] + b[1..];
    }
  }

  function LittleEndian(v: nat, width: nat): (bytes: seq<Byte>)
    ensures |bytes| == width
  {
    if width == 0 then [] else [v % 256] + LittleEndian(v / 256, width - 1)
  }

  function Repeat(b: Byte, n: nat): seq<Byte> {
    seq(n, _ => b)
  }

  lemma {:induction false} ZeroBytes(width: nat)
    ensures LittleEndian(0, width) == Repeat(0, width)
  {
    if width > 0 {
      ZeroBytes(width - 1);
    }
  }

  lemma {:induction false} ZerosLeast(s: seq<Byte>)
    ensures Compare(s, Repeat(0, |s|)) >= 0
    ensures Compare(s, Repeat(0, |s|)) == 0 <==> s == Repeat(0, |s|)
    ensures Compare(Repeat(0, |s|), s) == -Compare(s, Repeat(0, |s|))
  {
    if s != [] {
      ZerosLeast(s[1..]);
      assert Repeat(0, |s|)[1..] == Repeat(0, |s| - 1);
      assert s == [s[0]] + s[1..] && Repeat(0, |s|) == [0] + Repeat(0, |s| - 1);
    }
  }

  lemma {:induction false} OnesGreatest(s: seq<Byte>)
    ensures Compare(s, Repeat(255, |s|)) <= 0
  {
    if s != [] {
      OnesGreatest(s[1..]);
      assert Repeat(255, |s|)[1..] == Repeat(255, |s| - 1);
    }
  }

  // ---------- The boundaries ----------

  /** First byte of boundary i when n ranges are asked for. */
  function FirstByte(n: nat, i: nat): nat
    requires n > 0
  {
    255 / n * i
  }

  /** Boundary i of n ranges: a first byte followed by zeros, and all ones at the end. */
  function Boundary(n: nat, i: nat): (s: seq<Byte>)
    requires 0 < n && i <= n
    ensures |s| == ID_BYTES
  {
    if i == n then Repeat(255, ID_BYTES)
    else
      FirstByteFits(n, i);
      [FirstByte(n, i)] + Repeat(0, ID_BYTES - 1)
  }

  lemma FirstByteFits(n: nat, i: nat)
    requires i < n
    ensures FirstByte(n, i) < 255
  {
    var c := 255 / n;
    assert n * c <= 255;
    if c == 0 {
      assert FirstByte(n, i) == 0 * i;
    } else {
      ProductRoom(c, n, i);
    }
  }

  lemma ProductRoom(c: nat, n: nat, i: nat)
    requires 0 < c && i < n
    ensures c * i < c * n
  {
  }

  lemma FirstByteRises(n: nat, i: nat, j: nat)
    requires i < j < n <= 255
    ensures FirstByte(n, i) < FirstByte(n, j)
  {
    ProductRoom(255 / n, j, i);
  }

  /** Ranges are of one width, counted in first bytes; only the last is wider, by less than their number. */
  lemma EvenWidths(n: nat, i: nat)
    requires 0 < n && i < n
    ensures FirstByte(n, 0) == 0
    ensures i + 1 < n ==> FirstByte(n, i + 1) == FirstByte(n, i) + FirstByte(n, 1)
    ensures FirstByte(n, 1) <= 255 - FirstByte(n, n - 1) < FirstByte(n, 1) + n
  {
    var c := 255 / n;
    assert 255 == c * n + 255 % n;
    assert c * (n - 1) == c * n - c && c * (i + 1) == c * i + c;
  }

  /** Comparing an ID with an inner boundary is comparing its first byte, from below. */
  lemma AgainstBoundary(n: nat, i: nat, id: seq<Byte>)
    requires i < n && |id| == ID_BYTES
    ensures Compare(id, Boundary(n, i)) >= 0 <==> id[0] >= FirstByte(n, i)
    ensures Compare(id, Boundary(n, i)) == 0 <==> id == Boundary(n, i)
    ensures Compare(Boundary(n, i), id) == -Compare(id, Boundary(n, i))
    ensures -1 <= Compare(id, Boundary(n, i))
  {
    hide FirstByte, Repeat;
    FirstByteFits(n, i);
    var first: Byte := FirstByte(n, i);
    ZerosLeast(id[1..]);
    assert |id[1..]| == ID_BYTES - 1;
    AgainstLed(first, Repeat(0, ID_BYTES - 1), id[0], id[1..]);
    assert id == [id[0]] + id[1..];
  }

  /** Byte strings compare by their first byte, then by the rest. */
  lemma AgainstLed(x: Byte, xs: seq<Byte>, y: Byte, ys: seq<Byte>)
    ensures Compare([y] + ys, [x] + xs) == if y < x then -1 else if y > x then 1 else Compare(ys, xs)
    ensures Compare([x] + xs, [y] + ys) == if x < y then -1 else if x > y then 1 else Compare(xs, ys)
    ensures [y] + ys == [x] + xs <==> y == x && ys == xs
  {
    assert ([y] + ys)[1..] == ys && ([x] + xs)[1..] == xs;
    assert ([y] + ys)[0] == y && ([x] + xs)[0] == x;
  }

  lemma EndBoundary(n: nat, id: seq<Byte>)
    requires n > 0 && |id| == ID_BYTES
    ensures Compare(id, Boundary(n, n)) <= 0
    ensures id[0] < 255 ==> Compare(id, Boundary(n, n)) < 0
  {
    OnesGreatest(id);
  }

  ghost predicate StrictlyIncreasing(n: nat)
    requires n > 0
  {
    forall i, j :: 0 <= i < j <= n ==> Compare(Boundary(n, i), Boundary(n, j)) < 0
  }

  /** The boundaries are in strict byte order exactly for the shard counts that are let through. */
  lemma IncreasingIff(n: nat)
    requires n > 0
    ensures StrictlyIncreasing(n) <==> n <= 255
  {
    if n <= 255 {
      forall i, j | 0 <= i < j <= n ensures Compare(Boundary(n, i), Boundary(n, j)) < 0 {
        FirstByteFits(n, i);
        if j == n {
          EndBoundary(n, Boundary(n, i));
        } else {
          FirstByteRises(n, i, j);
          AgainstBoundary(n, j, Boundary(n, i));
        }
      }
    } else {
      AgainstBoundary(n, 1, Boundary(n, 0));
      assert FirstByte(n, 0) == FirstByte(n, 1) == 0;
    }
  }

  // ---------- In place ----------

  function Row(b: array2<Byte>, i: nat): (s: seq<Byte>)
    requires i < b.Length0
    reads b
    ensures |s| == b.Length1
  {
    seq(b.Length1, k requires 0 <= k < b.Length1 reads b => b[i, k])
  }

  /** binary.LittleEndian.PutUint64 into the eight bytes of a row from offset on. */
  method PutUint64(b: array2<Byte>, row: nat, offset: nat, v: nat)
    requires row < b.Length0 && offset + 8 <= b.Length1 && v <= MAX_UINT64
    modifies b
    ensures Row(b, row) == old(Row(b, row))[..offset] + LittleEndian(v, 8) + old(Row(b, row))[offset + 8..]
    ensures forall i :: 0 <= i < b.Length0 && i != row ==> Row(b, i) == old(Row(b, i))
  {
    var rest := v;
    for k := 0 to 8
      invariant rest >= 0
      invariant Row(b, row)[..offset + k] + LittleEndian(rest, 8 - k) == old(Row(b, row))[..offset] + LittleEndian(v, 8)
      invariant Row(b, row)[offset + k..] == old(Row(b, row))[offset + k..]
      invariant forall i :: 0 <= i < b.Length0 && i != row ==> Row(b, i) == old(Row(b, i))
    {
      ghost var before := Row(b, row);
      b[row, offset + k] := rest % 256;
      assert Row(b, row) == before[offset + k := rest % 256];
      assert Row(b, row)[..offset + k + 1] == before[..offset + k] + [rest % 256];
      assert LittleEndian(rest, 8 - k) == [rest % 256] + LittleEndian(rest / 256, 8 - k - 1);
      assert Row(b, row)[offset + k + 1..] == before[offset + k..][1..];
      rest := rest / 256;
    }
    assert LittleEndian(rest, 0) == [];
    assert Row(b, row) == Row(b, row)[..offset + 8] + Row(b, row)[offset + 8..];
  }

  lemma SmallLittleEndian(v: nat)
    requires v < 256
    ensures LittleEndian(v, 8) + LittleEndian(0, 8) == [v] + Repeat(0, ID_BYTES - 1)
  {
    assert LittleEndian(v, 8) == [v % 256] + LittleEndian(v / 256, 7);
    assert v % 256 == v && v / 256 == 0;
    ZeroBytes(7);
    ZeroBytes(8);
    assert Repeat(0, 7) + Repeat(0, 8) == Repeat(0, ID_BYTES - 1);
  }

  lemma {:induction false} OnesLittleEndian(v: nat, width: nat)
    requires v == Pow256(width) - 1
    ensures LittleEndian(v, width) == Repeat(255, width)
  {
    if width > 0 {
      assert v == 256 * (Pow256(width - 1) - 1) + 255;
      OnesLittleEndian(v / 256, width - 1);
    }
  }

  function Pow256(width: nat): (p: nat)
    ensures p > 0
  {
    if width == 0 then 1 else 256 * Pow256(width - 1)
  }

  lemma AllOnes()
    ensures LittleEndian(MAX_UINT64, 8) + LittleEndian(MAX_UINT64, 8) == Repeat(255, ID_BYTES)
  {
    assert Pow256(4) == 0x1_0000_0000;
    assert Pow256(8) == 256 * (256 * (256 * (256 * Pow256(4))));
    OnesLittleEndian(MAX_UINT64, 8);
  }

  /** createBlockBoundaries: none for no shards, otherwise one row per boundary. */
  method CreateBlockBoundaries(n: nat) returns (b: array2<Byte>)
    ensures fresh(b) && b.Length1 == ID_BYTES
    ensures b.Length0 == if n == 0 then 0 else n + 1
    ensures forall i :: 0 <= i < b.Length0 ==> Row(b, i) == Boundary(n, i)
  {
    if n == 0 {
      b := new Byte[0, ID_BYTES];
      return;
    }
    b := new Byte[n + 1, ID_BYTES]((i, k) => 0);
    for i := 0 to n
      invariant fresh(b)
      invariant forall j :: 0 <= j < i ==> Row(b, j) == Boundary(n, j)
    {
      FirstByteFits(n, i);
      PutUint64(b, i, 0, 255 / n * i);
      PutUint64(b, i, 8, 0);
      SmallLittleEndian(255 / n * i);
      assert Row(b, i) == LittleEndian(255 / n * i, 8) + LittleEndian(0, 8);
    }
    PutUint64(b, n, 0, MAX_UINT64);
    PutUint64(b, n, 8, MAX_UINT64);
    AllOnes();
    assert Row(b, n) == LittleEndian(MAX_UINT64, 8) + LittleEndian(MAX_UINT64, 8);
  }

  // ---------- The requests ----------

  datatype ShardRequest = Unbuilt | Ingesters | Blocks(start: seq<Byte>, end: seq<Byte>)

  /** buildShardedRequests: the first request goes to the ingesters, each other one to a range of block IDs. */
  method BuildShardedRequests(queryShards: nat) returns (reqs: array<ShardRequest>)
    requires queryShards > 0
    ensures fresh(reqs) && reqs.Length == queryShards
    ensures reqs[0] == if queryShards == 1 then Unbuilt else Ingesters
    ensures forall i :: 0 < i < queryShards ==>
      reqs[i] == Blocks(Boundary(queryShards - 1, i - 1), Boundary(queryShards - 1, i))
  {
    var b := CreateBlockBoundaries(queryShards - 1);
    reqs := new ShardRequest[queryShards](_ => Unbuilt);
    for i := 0 to b.Length0
      invariant fresh(reqs)
      invariant i == 0 ==> forall k :: 0 <= k < queryShards ==> reqs[k] == Unbuilt
      invariant i > 0 ==> reqs[0] == Ingesters
      invariant forall k :: 0 < k < i ==> reqs[k] == Blocks(Boundary(queryShards - 1, k - 1), Boundary(queryShards - 1, k))
      invariant forall k :: 0 <= k < b.Length0 ==> Row(b, k) == Boundary(queryShards - 1, k)
    {
      reqs[i] := if i == 0 then Ingesters else Blocks(Row(b, i - 1), Row(b, i));
    }
  }

  // ---------- Which requests take a block ----------

  datatype BlockMeta = BlockMeta(id: seq<Byte>, startTime: int, endTime: int)

  predicate InTime(m: BlockMeta, timeStart: int, timeEnd: int) {
    timeStart != 0 && timeEnd != 0 ==> m.startTime < timeEnd && timeStart < m.endTime
  }

  predicate IncludeBlock(m: BlockMeta, start: seq<Byte>, end: seq<Byte>, timeStart: int, timeEnd: int) {
    if timeStart != 0 && timeEnd != 0 && (m.startTime >= timeEnd || m.endTime <= timeStart) then false
    else !(Compare(m.id, start) == -1 || Compare(m.id, end) == 1)
  }

  /** Block request i of n, counted from 1, takes the block. */
  predicate TakenBy(n: nat, i: nat, m: BlockMeta, timeStart: int, timeEnd: int)
    requires 0 < i <= n
  {
    IncludeBlock(m, Boundary(n, i - 1), Boundary(n, i), timeStart, timeEnd)
  }

  /** The block requests that take the block. */
  ghost function Takers(n: nat, m: BlockMeta, timeStart: int, timeEnd: int): set<nat> {
    set i: nat | 0 < i <= n && TakenBy(n, i, m, timeStart, timeEnd)
  }

  /** Where an ID lies: the last boundary whose first byte is not above its own. */
  ghost predicate Lies(n: nat, id: seq<Byte>, i: nat)
    requires 0 < n && |id| == ID_BYTES
  {
    0 < i <= n && FirstByte(n, i - 1) <= id[0] && (i < n ==> id[0] < FirstByte(n, i))
  }

  lemma {:induction false} Locate(n: nat, id: seq<Byte>, k: nat) returns (i: nat)
    requires 0 < k <= n && |id| == ID_BYTES && (k < n ==> id[0] < FirstByte(n, k))
    ensures Lies(n, id, i)
  {
    i := k;
    if k > 1 && id[0] < FirstByte(n, k - 1) {
      i := Locate(n, id, k - 1);
    } else if k == 1 {
      assert FirstByte(n, 0) == 0;
    }
  }

  lemma TakenIff(n: nat, i: nat, m: BlockMeta, timeStart: int, timeEnd: int)
    requires 0 < i <= n && |m.id| == ID_BYTES
    ensures TakenBy(n, i, m, timeStart, timeEnd) <==>
      InTime(m, timeStart, timeEnd) && FirstByte(n, i - 1) <= m.id[0]
      && (i == n || m.id[0] < FirstByte(n, i) || m.id == Boundary(n, i))
  {
    AgainstBoundary(n, i - 1, m.id);
    if i == n {
      EndBoundary(n, m.id);
    } else {
      AgainstBoundary(n, i, m.id);
      CompareRange(m.id, Boundary(n, i));
    }
  }

  lemma {:induction false} CompareRange(a: seq<Byte>, b: seq<Byte>)
    ensures -1 <= Compare(a, b) <= 1
  {
    if a != [] && b != [] {
      CompareRange(a[1..], b[1..]);
    }
  }

  /** However many shards: a block is looked at if and only if it is not ruled out by time. */
  lemma BlockTakenIff(n: nat, m: BlockMeta, timeStart: int, timeEnd: int)
    requires n > 0 && |m.id| == ID_BYTES
    ensures Takers(n, m, timeStart, timeEnd) != {} <==> InTime(m, timeStart, timeEnd)
  {
    var i := Locate(n, m.id, n);
    TakenIff(n, i, m, timeStart, timeEnd);
    if InTime(m, timeStart, timeEnd) {
      assert i in Takers(n, m, timeStart, timeEnd);
    }
  }

  /** For the shard counts that are let through, it is looked at once, or twice if it sits on an inner boundary. */
  lemma TakersAre(n: nat, m: BlockMeta, timeStart: int, timeEnd: int)
    requires 0 < n <= 255 && |m.id| == ID_BYTES && InTime(m, timeStart, timeEnd)
    ensures |Takers(n, m, timeStart, timeEnd)| ==
      if exists k :: 0 < k < n && m.id == Boundary(n, k) then 2 else 1
  {
    hide FirstByte, Boundary, TakenBy, Lies;
    var l := Locate(n, m.id, n);
    var takers := Takers(n, m, timeStart, timeEnd);
    forall i: nat | 0 < i <= n
      ensures TakenBy(n, i, m, timeStart, timeEnd) <==> i == l || (i < n && m.id == Boundary(n, i))
      ensures i < n && m.id == Boundary(n, i) ==> i == l - 1
    {
      TakerIs(n, m, timeStart, timeEnd, l, i);
    }
    assert 0 < l <= n by { LiesIn(n, m.id, l); }
    if k :| 0 < k < n && m.id == Boundary(n, k) {
      assert takers == {l - 1, l};
    } else {
      assert takers == {l};
    }
  }

  lemma LiesIn(n: nat, id: seq<Byte>, l: nat)
    requires 0 < n && |id| == ID_BYTES && Lies(n, id, l)
    ensures 0 < l <= n
  {
  }

  lemma TakerIs(n: nat, m: BlockMeta, timeStart: int, timeEnd: int, l: nat, i: nat)
    requires 0 < n <= 255 && |m.id| == ID_BYTES && InTime(m, timeStart, timeEnd)
    requires Lies(n, m.id, l) && 0 < i <= n
    ensures TakenBy(n, i, m, timeStart, timeEnd) <==> i == l || (i < n && m.id == Boundary(n, i))
    ensures i < n && m.id == Boundary(n, i) ==> i == l - 1
  {
    hide TakenBy, FirstByte;
    TakenIff(n, i, m, timeStart, timeEnd);
    Between(n, m.id, l, i);
    if i < n && m.id == Boundary(n, i) {
      BoundaryFirst(n, i);
      FirstByteRises(n, i - 1, i);
    }
  }

  lemma BoundaryFirst(n: nat, i: nat)
    requires i < n
    ensures Boundary(n, i)[0] == FirstByte(n, i)
  {
  }

  /** An ID lies in one place only. */
  lemma Between(n: nat, id: seq<Byte>, l: nat, i: nat)
    requires 0 < n <= 255 && |id| == ID_BYTES && Lies(n, id, l) && 0 < i <= n
    ensures Lies(n, id, i) <==> i == l
    ensures i < n && id[0] == FirstByte(n, i) ==> i == l - 1
  {
    if i < l - 1 {
      FirstByteRises(n, i, l - 1);
    } else if l < i - 1 {
      FirstByteRises(n, l, i - 1);
    }
    if l < i < n {
      FirstByteRises(n, l, i);
    }
  }
}
