/**
  tenantBlockManager (modules/ingester/tenantBlockManager.go): the blocks of one tenant
  and the way a snapshot moves through them. Calls are atomic and nothing fails except
  where the source rejects the input.

  The promise proved here is about lookups: an accepted snapshot is found, with the
  bytes it was pushed with, until its block has been written to the remote store and
  cleared, or was given up.
 */
module TenantBlocks {
  import opened Wrappers

  type SnapshotId = nat
  type BlockId = nat
  type Token = nat
  type Bytes = seq<bv8>

  datatype Row = Row(id: SnapshotId, bytes: Bytes)

  datatype LiveSnapshot = LiveSnapshot(row: Row, lastAppend: int)

  datatype Block = Block(blockId: BlockId, rows: seq<Row>)

  datatype LocalBlock = LocalBlock(block: Block, flushedTime: Option<int>)

  // ---------- Rows held in a place ----------

  ghost function RowsOf(rows: seq<Row>): set<Row> {
    set r | r in rows
  }

  ghost function BlockRows(bs: seq<Block>): set<Row> {
    if bs == [] then {} else RowsOf(bs[0].rows) + BlockRows(bs[1..])
  }

  ghost function LocalRows(bs: seq<LocalBlock>): set<Row> {
    if bs == [] then {} else RowsOf(bs[0].block.rows) + LocalRows(bs[1..])
  }

  ghost function LiveRows(live: map<Token, LiveSnapshot>): set<Row> {
    set t | t in live :: live[t].row
  }

  lemma {:induction false} BlockRowsConcat(a: seq<Block>, b: seq<Block>)
    ensures BlockRows(a + b) == BlockRows(a) + BlockRows(b)
  {
    if a == [] {
      assert a + b == b;
    } else {
      assert (a + b)[1..] == a[1..] + b;
      BlockRowsConcat(a[1..], b);
    }
  }

  lemma {:induction false} LocalRowsConcat(a: seq<LocalBlock>, b: seq<LocalBlock>)
    ensures LocalRows(a + b) == LocalRows(a) + LocalRows(b)
  {
    if a == [] {
      assert a + b == b;
    } else {
      assert (a + b)[1..] == a[1..] + b;
      LocalRowsConcat(a[1..], b);
    }
  }

  lemma RowsBasics(b: Block, t: Option<int>, x: seq<Row>, y: seq<Row>)
    ensures BlockRows([b]) == RowsOf(b.rows) == LocalRows([LocalBlock(b, t)])
    ensures RowsOf([]) == {} && RowsOf(x + y) == RowsOf(x) + RowsOf(y)
  {
  }

  /** Each ID stands for one snapshot. */
  ghost predicate Unique(rows: set<Row>) {
    forall a, b :: a in rows && b in rows && a.id == b.id ==> a == b
  }

  /** Taking one block out of a list. */
  lemma BlockRowsWithout(bs: seq<Block>, i: nat)
    requires i < |bs|
    ensures BlockRows(bs) == BlockRows(bs[..i] + bs[i + 1..]) + RowsOf(bs[i].rows)
  {
    BlockRowsConcat(bs[..i], bs[i..]);
    BlockRowsConcat(bs[..i], bs[i + 1..]);
    assert bs == bs[..i] + bs[i..] && bs[i..][1..] == bs[i + 1..];
  }

  lemma LocalRowsWithout(bs: seq<LocalBlock>, i: nat)
    requires i < |bs|
    ensures LocalRows(bs) == LocalRows(bs[..i] + bs[i + 1..]) + RowsOf(bs[i].block.rows)
  {
    LocalRowsConcat(bs[..i], bs[i..]);
    LocalRowsConcat(bs[..i], bs[i + 1..]);
    assert bs == bs[..i] + bs[i..] && bs[i..][1..] == bs[i + 1..];
  }

  lemma LocalRowsReplace(bs: seq<LocalBlock>, i: nat, t: Option<int>)
    requires i < |bs|
    ensures LocalRows(bs[i := bs[i].(flushedTime := t)]) == LocalRows(bs)
  {
    var cs := bs[i := bs[i].(flushedTime := t)];
    LocalRowsWithout(bs, i);
    LocalRowsWithout(cs, i);
    assert cs[..i] + cs[i + 1..] == bs[..i] + bs[i + 1..];
  }

  // ---------- Lookup in a place ----------

  /** found is what a lookup of id among these rows must return. */
  ghost predicate Answers(rows: set<Row>, id: SnapshotId, found: Option<Bytes>) {
    if found.Some? then Row(id, found.value) in rows else forall r :: r in rows ==> r.id != id
  }

  method FindIn(rows: seq<Row>, id: SnapshotId) returns (found: Option<Bytes>)
    ensures Answers(RowsOf(rows), id, found)
  {
    for i := 0 to |rows|
      invariant forall k :: 0 <= k < i ==> rows[k].id != id
    {
      if rows[i].id == id {
        return Some(rows[i].bytes);
      }
    }
    return None;
  }

  method FindInBlocks(bs: seq<Block>, id: SnapshotId) returns (found: Option<Bytes>)
    ensures Answers(BlockRows(bs), id, found)
  {
    for i := 0 to |bs|
      invariant forall r :: r in BlockRows(bs[..i]) ==> r.id != id
    {
      BlockRowsConcat(bs[..i], bs[i..]);
      assert bs == bs[..i] + bs[i..] && bs[i..][0] == bs[i];
      found := FindIn(bs[i].rows, id);
      if found.Some? {
        return;
      }
      BlockRowsConcat(bs[..i], [bs[i]]);
      assert bs[..i + 1] == bs[..i] + [bs[i]];
    }
    assert bs[..|bs|] == bs;
    return None;
  }

  method FindInLocal(bs: seq<LocalBlock>, id: SnapshotId) returns (found: Option<Bytes>)
    ensures Answers(LocalRows(bs), id, found)
  {
    for i := 0 to |bs|
      invariant forall r :: r in LocalRows(bs[..i]) ==> r.id != id
    {
      LocalRowsConcat(bs[..i], bs[i..]);
      assert bs == bs[..i] + bs[i..] && bs[i..][0] == bs[i];
      found := FindIn(bs[i].block.rows, id);
      if found.Some? {
        return;
      }
      LocalRowsConcat(bs[..i], [bs[i]]);
      assert bs[..i + 1] == bs[..i] + [bs[i]];
    }
    assert bs[..|bs|] == bs;
    return None;
  }

  // ---------- Sorting the cut ----------

  predicate SortedById(rows: seq<Row>) {
    forall i, j :: 0 <= i < j < |rows| ==> rows[i].id <= rows[j].id
  }

  function InsertById(rows: seq<Row>, r: Row): seq<Row> {
    if rows == [] || r.id <= rows[0].id then [r] + rows else [rows[0]] + InsertById(rows[1..], r)
  }

  lemma {:induction false} InsertByIdSorts(rows: seq<Row>, r: Row)
    requires SortedById(rows)
    ensures RowsOf(InsertById(rows, r)) == RowsOf(rows) + {r} && SortedById(InsertById(rows, r))
  {
    hide RowsOf;
    if rows == [] || r.id <= rows[0].id {
      RowsLed(r, rows);
    } else {
      var rest := InsertById(rows[1..], r);
      assert SortedById(rows[1..]) && forall j :: 0 <= j < |rows[1..]| ==> rows[0].id <= rows[1..][j].id;
      InsertByIdSorts(rows[1..], r);
      RowsLed(rows[0], rows[1..]);
      RowsLed(rows[0], rest);
      assert rows == [rows[0]] + rows[1..];
      forall j | 0 <= j < |rest| ensures rows[0].id <= rest[j].id {
        InsertedOrOld(rows[1..], r, j);
      }
    }
  }

  lemma RowsLed(r: Row, rows: seq<Row>)
    ensures RowsOf([r] + rows) == {r} + RowsOf(rows)
  {
  }

  lemma {:induction false} InsertedOrOld(rows: seq<Row>, r: Row, j: nat)
    requires j < |InsertById(rows, r)|
    ensures InsertById(rows, r)[j] == r || InsertById(rows, r)[j] in rows
  {
    if rows != [] && r.id > rows[0].id && j > 0 {
      InsertedOrOld(rows[1..], r, j - 1);
    }
  }

  function DataLength(rows: seq<Row>): nat {
    if rows == [] then 0 else |rows[0].bytes| + DataLength(rows[1..])
  }

  /** The data of a block is that of its rows. */
  lemma {:induction false} DataLengthAdds(a: seq<Row>, b: seq<Row>)
    ensures DataLength(a + b) == DataLength(a) + DataLength(b)
    ensures |b| == 1 ==> DataLength(b) == |b[0].bytes|
  {
    if a == [] {
      assert a + b == b;
    } else {
      assert (a + b)[1..] == a[1..] + b;
      DataLengthAdds(a[1..], b);
    }
  }

  ghost predicate Conserved(stored: set<Row>, accepted: set<Row>, remote: set<Row>, dropped: set<Row>) {
    stored <= accepted <= stored + remote + dropped
  }

  /** The first block with this ID. */
  ghost predicate FirstBlock(bs: seq<Block>, i: nat, id: BlockId) {
    i < |bs| && bs[i].blockId == id && forall k :: 0 <= k < i ==> bs[k].blockId != id
  }

  ghost predicate ToBeFlushed(b: LocalBlock, id: BlockId) {
    b.block.blockId == id && b.flushedTime == None
  }

  ghost predicate Due(b: LocalBlock, now: int, timeout: int) {
    b.flushedTime.Some? && b.flushedTime.value + timeout < now
  }

  ghost predicate FirstToBeFlushed(bs: seq<LocalBlock>, i: nat, id: BlockId) {
    i < |bs| && ToBeFlushed(bs[i], id) && forall k :: 0 <= k < i ==> !ToBeFlushed(bs[k], id)
  }

  ghost predicate FirstDue(bs: seq<LocalBlock>, i: nat, now: int, timeout: int) {
    i < |bs| && Due(bs[i], now, timeout) && forall k :: 0 <= k < i ==> !Due(bs[k], now, timeout)
  }

  // ---------- The manager ----------

  class TenantBlockManager {
    const token: SnapshotId -> Token  // 32-bit hash of the ID
    const maxBytes: nat               // per snapshot; 0 means no limit

    var liveSnapshots: map<Token, LiveSnapshot>
    var snapshotSizes: map<Token, nat>
    var snapshotCount: nat

    var headBlock: Block
    var completingBlocks: seq<Block>
    var completeBlocks: seq<LocalBlock>
    var lastBlockCut: int

    ghost var accepted: set<Row>  // everything pushed successfully
    ghost var remote: set<Row>    // everything written to the remote store
    ghost var dropped: set<Row>   // everything whose WAL was deleted without a local copy

    /** Everything the ingester still holds. */
    ghost function Stored(): set<Row>
      reads this
    {
      LiveRows(liveSnapshots) + RowsOf(headBlock.rows) + BlockRows(completingBlocks) + LocalRows(completeBlocks)
    }

    /**
      Nothing is invented, nothing accepted is lost before it is remote unless it was
      dropped, and what a complete block claims to have flushed is remote.
     */
    ghost predicate Valid()
      reads this
    {
      && Unique(accepted)
      && Conserved(Stored(), accepted, remote, dropped)
      && (forall i :: 0 <= i < |completeBlocks| && completeBlocks[i].flushedTime.Some? ==>
            RowsOf(completeBlocks[i].block.rows) <= remote)
      && (forall t :: t in liveSnapshots ==> token(liveSnapshots[t].row.id) == t)
      && snapshotCount == |liveSnapshots|
    }

    constructor (token: SnapshotId -> Token, maxBytes: nat, headId: BlockId, now: int)
      ensures Valid() && accepted == {} && remote == {} && dropped == {} && this.token == token && this.maxBytes == maxBytes
    {
      this.token, this.maxBytes := token, maxBytes;
      liveSnapshots, snapshotSizes, snapshotCount := map[], map[], 0;
      headBlock, completingBlocks, completeBlocks, lastBlockCut := Block(headId, []), [], [], now;
      accepted, remote, dropped := {}, {}, {};
    }

    function SizeOf(tkn: Token): nat
      reads this
    {
      if tkn in snapshotSizes then snapshotSizes[tkn] else 0
    }

    /** Accept a new snapshot unless it would exceed the byte limit. */
    method Push(id: SnapshotId, bytes: Bytes, now: int) returns (ok: bool)
      requires Valid()
      requires forall r :: r in accepted ==> r.id != id  // each ID is pushed once
      requires token(id) !in liveSnapshots               // tokens of live IDs do not collide
      modifies this`liveSnapshots, this`snapshotSizes, this`snapshotCount, this`accepted
      ensures Valid()
      ensures ok == (maxBytes == 0 || old(SizeOf(token(id))) + |bytes| <= maxBytes)
      ensures accepted == if ok then old(accepted) + {Row(id, bytes)} else old(accepted)
      ensures snapshotCount == old(snapshotCount) + if ok then 1 else 0
      ensures liveSnapshots == if ok then old(liveSnapshots)[token(id) := LiveSnapshot(Row(id, bytes), now)] else old(liveSnapshots)
      ensures ok && maxBytes > 0 ==> SizeOf(token(id)) == old(SizeOf(token(id))) + |bytes|
      ensures forall t :: t != token(id) || !ok ==> SizeOf(t) == old(SizeOf(t))
    {
      hide RowsOf, LiveRows, BlockRows, LocalRows, Unique, Conserved;
      var tkn := token(id);
      if maxBytes > 0 && SizeOf(tkn) + |bytes| > maxBytes {
        return false;
      }
      Inserted(liveSnapshots, tkn, LiveSnapshot(Row(id, bytes), now));
      ghost var stored := Stored();
      StillConserved(stored, accepted, remote, dropped, Row(id, bytes));
      MoreLive(LiveRows(liveSnapshots), RowsOf(headBlock.rows), BlockRows(completingBlocks), LocalRows(completeBlocks), Row(id, bytes));
      StillUnique(accepted, Row(id, bytes));
      if maxBytes > 0 {
        snapshotSizes := snapshotSizes[tkn := SizeOf(tkn) + |bytes|];
      }
      liveSnapshots := liveSnapshots[tkn := LiveSnapshot(Row(id, bytes), now)];
      snapshotCount := snapshotCount + 1;
      accepted := accepted + {Row(id, bytes)};
      return true;
    }

    static lemma MoreLive(live: set<Row>, head: set<Row>, completing: set<Row>, complete: set<Row>, r: Row)
      ensures live + {r} + head + completing + complete == live + head + completing + complete + {r}
    {
    }

    static lemma StillConserved(stored: set<Row>, accepted: set<Row>, remote: set<Row>, dropped: set<Row>, r: Row)
      requires Conserved(stored, accepted, remote, dropped)
      ensures Conserved(stored + {r}, accepted + {r}, remote, dropped)
    {
    }

    static lemma StillUnique(rows: set<Row>, r: Row)
      requires Unique(rows) && forall x :: x in rows ==> x.id != r.id
      ensures Unique(rows + {r})
    {
    }

    static lemma Inserted(live: map<Token, LiveSnapshot>, t: Token, s: LiveSnapshot)
      requires t !in live
      ensures LiveRows(live[t := s]) == LiveRows(live) + {s.row}
    {
      var more := live[t := s];
      assert more[t] == s && t in more;
      forall r | r in LiveRows(live) ensures r in LiveRows(more) {
        var u :| u in live && live[u].row == r;
        assert u in more && more[u].row == r;
      }
    }

    /** Split the live snapshots into those that stay and those to cut, the latter in ID order. */
    static method SnapshotsToCut(all: map<Token, LiveSnapshot>, now: int, cutoff: int, immediate: bool)
      returns (live: map<Token, LiveSnapshot>, cut: seq<Row>)
      ensures live.Keys <= all.Keys && forall t :: t in live ==> live[t] == all[t]
      ensures forall t :: t in all ==> (t in live <==> !immediate && now + cutoff <= all[t].lastAppend)
      ensures LiveRows(live) + RowsOf(cut) == LiveRows(all) && SortedById(cut)
    {
      hide RowsOf, LiveRows;
      var left := all.Keys;
      live, cut := all, [];
      RowsBasics(Block(0, []), None, [], []);
      while left != {}
        invariant left <= live.Keys <= all.Keys && SortedById(cut)
        invariant forall t :: t in live ==> live[t] == all[t]
        invariant LiveRows(live) + RowsOf(cut) == LiveRows(all)
        invariant forall t :: t in all && t !in left ==> (t in live <==> !immediate && now + cutoff <= all[t].lastAppend)
        decreases left
      {
        var t :| t in left;
        if now + cutoff > live[t].lastAppend || immediate {
          Removed(live, t);
          InsertByIdSorts(cut, live[t].row);
          cut := InsertById(cut, live[t].row);
          live := live - {t};
        }
        left := left - {t};
      }
    }

    /** Move the ripe live snapshots (all of them if immediate) into the head block. */
    method CutSnapshots(now: int, cutoff: int, immediate: bool)
      requires Valid()
      modifies this
      ensures Valid() && accepted == old(accepted) && remote == old(remote) && dropped == old(dropped) && Stored() == old(Stored())
      ensures forall t :: t in liveSnapshots <==>
        t in old(liveSnapshots) && !immediate && now + cutoff <= old(liveSnapshots)[t].lastAppend
      ensures forall t :: t in liveSnapshots ==> liveSnapshots[t] == old(liveSnapshots)[t]
      ensures snapshotCount == |liveSnapshots|
      ensures old(headBlock.rows) <= headBlock.rows && SortedById(headBlock.rows[|old(headBlock.rows)|..])
      ensures completingBlocks == old(completingBlocks) && completeBlocks == old(completeBlocks)
    {
      hide RowsOf, LiveRows, BlockRows, LocalRows, Unique, Conserved, SortedById;
      var live, cut := SnapshotsToCut(liveSnapshots, now, cutoff, immediate);
      RowsBasics(headBlock, None, headBlock.rows, cut);
      assert headBlock.rows <= headBlock.rows + cut && (headBlock.rows + cut)[|headBlock.rows|..] == cut;
      liveSnapshots, snapshotCount := live, |live|;
      headBlock := headBlock.(rows := headBlock.rows + cut);
      assert Stored() == old(Stored());
    }

    static lemma Removed(live: map<Token, LiveSnapshot>, t: Token)
      requires t in live
      ensures LiveRows(live) == LiveRows(live - {t}) + {live[t].row}
    {
      var rest := live - {t};
      forall r | r in LiveRows(live) ensures r in LiveRows(rest) + {live[t].row} {
        var u :| u in live && live[u].row == r;
        assert u != t ==> u in rest && rest[u].row == r;
      }
    }

    /** Queue the head block for completion and start a new one, if it has data and is due. */
    method CutBlockIfReady(now: int, maxLifetime: int, maxBlockBytes: nat, immediate: bool, newId: BlockId) returns (cut: Option<BlockId>)
      requires Valid()
      modifies this
      ensures Valid() && accepted == old(accepted) && remote == old(remote) && dropped == old(dropped) && Stored() == old(Stored())
      ensures var length := old(DataLength(headBlock.rows));
        cut.Some? <==> length != 0 && (old(lastBlockCut) + maxLifetime < now || length >= maxBlockBytes || immediate)
      ensures cut.Some? ==> cut.value == old(headBlock.blockId) && headBlock == Block(newId, [])
      ensures cut.Some? ==> completingBlocks == old(completingBlocks) + [old(headBlock)]
      ensures cut.Some? ==> snapshotSizes == map[] && lastBlockCut == now
      ensures cut.None? ==> unchanged(this)
    {
      hide RowsOf, LiveRows, BlockRows, LocalRows, Unique, Conserved, DataLength;
      var length := DataLength(headBlock.rows);
      if length == 0 || !(lastBlockCut + maxLifetime < now || length >= maxBlockBytes || immediate) {
        return None;
      }
      cut := Some(headBlock.blockId);
      BlockRowsConcat(completingBlocks, [headBlock]);
      RowsBasics(headBlock, None, [], []);
      completingBlocks := completingBlocks + [headBlock];
      snapshotSizes := map[];
      headBlock, lastBlockCut := Block(newId, []), now;
      assert Stored() == old(Stored());
    }

    method FindCompleting(blockId: BlockId) returns (i: Option<nat>)
      ensures i.Some? ==> i.value < |completingBlocks| && completingBlocks[i.value].blockId == blockId
      ensures i.Some? ==> forall k :: 0 <= k < i.value ==> completingBlocks[k].blockId != blockId
      ensures i.None? ==> forall k :: 0 <= k < |completingBlocks| ==> completingBlocks[k].blockId != blockId
    {
      for j := 0 to |completingBlocks|
        invariant forall k :: 0 <= k < j ==> completingBlocks[k].blockId != blockId
      {
        if completingBlocks[j].blockId == blockId {
          return Some(j);
        }
      }
      return None;
    }

    /** Write a completing block to local disk; it stays completing until cleared. */
    method CompleteBlock(blockId: BlockId) returns (ok: bool)
      requires Valid()
      modifies this`completeBlocks
      ensures Valid() && accepted == old(accepted) && remote == old(remote) && dropped == old(dropped) && Stored() == old(Stored())
      ensures ok <==> exists i: nat :: FirstBlock(completingBlocks, i, blockId)
      ensures completingBlocks == old(completingBlocks)
      ensures !ok ==> unchanged(this)
      ensures ok ==> exists i: nat ::
        && FirstBlock(completingBlocks, i, blockId)
        && completeBlocks == old(completeBlocks) + [LocalBlock(completingBlocks[i], None)]
        && RowsOf(completingBlocks[i].rows) <= LocalRows(completeBlocks)
    {
      hide RowsOf, LiveRows, BlockRows, LocalRows, Unique, Conserved;
      var i := FindCompleting(blockId);
      if i == None {
        return false;
      }
      assert FirstBlock(completingBlocks, i.value, blockId);
      var added := LocalBlock(completingBlocks[i.value], None);
      LocalRowsConcat(completeBlocks, [added]);
      RowsBasics(added.block, None, [], []);
      BlockRowsWithout(completingBlocks, i.value);
      completeBlocks := completeBlocks + [added];
      assert Stored() == old(Stored());
      return true;
    }

    /** Delete the WAL of a block: harmless once a local copy exists, as after CompleteBlock. */
    method ClearCompletingBlock(blockId: BlockId) returns (ok: bool, ghost at: nat)
      requires Valid()
      modifies this`completingBlocks, this`dropped
      ensures Valid()
      ensures ok <==> exists i: nat :: FirstBlock(old(completingBlocks), i, blockId)
      ensures !ok ==> unchanged(this)
      ensures ok ==> FirstBlock(old(completingBlocks), at, blockId)
      ensures ok ==> completingBlocks == old(completingBlocks)[..at] + old(completingBlocks)[at + 1..]
      ensures ok ==> Stored() + RowsOf(old(completingBlocks)[at].rows) == old(Stored())
      ensures ok ==> dropped == old(dropped) + (RowsOf(old(completingBlocks)[at].rows) - LocalRows(completeBlocks))
    {
      hide RowsOf, LiveRows, BlockRows, LocalRows, Unique, Conserved;
      var i := FindCompleting(blockId);
      if i == None {
        return false, 0;
      }
      BlockRowsWithout(completingBlocks, i.value);
      assert FirstBlock(completingBlocks, i.value, blockId);
      Cleared(LiveRows(liveSnapshots) + RowsOf(headBlock.rows),
              BlockRows(completingBlocks[..i.value] + completingBlocks[i.value + 1..]), RowsOf(completingBlocks[i.value].rows),
              LocalRows(completeBlocks), accepted, remote, dropped);
      dropped := dropped + (RowsOf(completingBlocks[i.value].rows) - LocalRows(completeBlocks));
      completingBlocks := completingBlocks[..i.value] + completingBlocks[i.value + 1..];
      return true, i.value;
    }

    static lemma Cleared(recent: set<Row>, others: set<Row>, rows: set<Row>, local: set<Row>,
                         accepted: set<Row>, remote: set<Row>, dropped: set<Row>)
      requires Conserved(recent + (others + rows) + local, accepted, remote, dropped)
      ensures recent + others + local + rows == recent + (others + rows) + local
      ensures Conserved(recent + others + local, accepted, remote, dropped + (rows - local))
    {
    }

    /** handleComplete: the first completing block with the ID becomes a local block, and nothing stored is lost. */
    method HandleComplete(blockId: BlockId) returns (ok: bool)
      requires Valid()
      modifies this`completingBlocks, this`completeBlocks, this`dropped
      ensures Valid() && accepted == old(accepted) && remote == old(remote) && dropped == old(dropped) && Stored() == old(Stored())
      ensures ok <==> exists i: nat :: FirstBlock(old(completingBlocks), i, blockId)
      ensures !ok ==> unchanged(this)
      ensures ok ==> exists i: nat ::
        && FirstBlock(old(completingBlocks), i, blockId)
        && completingBlocks == old(completingBlocks)[..i] + old(completingBlocks)[i + 1..]
        && completeBlocks == old(completeBlocks) + [LocalBlock(old(completingBlocks)[i], None)]
    {
      hide RowsOf, LiveRows, BlockRows, LocalRows, Unique, Conserved;
      ok := CompleteBlock(blockId);
      if !ok {
        return;
      }
      ghost var i: nat :| FirstBlock(completingBlocks, i, blockId)
        && completeBlocks == old(completeBlocks) + [LocalBlock(completingBlocks[i], None)]
        && RowsOf(completingBlocks[i].rows) <= LocalRows(completeBlocks);
      ghost var blocks := completingBlocks;
      ghost var at;
      ok, at := ClearCompletingBlock(blockId);
      OnlyFirst(blocks, i, blockId);
      assert Stored() == old(Stored());
    }

    static lemma OnlyFirst(bs: seq<Block>, i: nat, id: BlockId)
      requires FirstBlock(bs, i, id)
      ensures forall j: nat :: FirstBlock(bs, j, id) ==> j == i
    {
    }

    /** WriteBlock: copy the first unflushed block of this ID to the remote store, then mark it. */
    method FlushBlock(blockId: BlockId, now: int) returns (ok: bool)
      requires Valid()
      modifies this`completeBlocks, this`remote
      ensures Valid() && accepted == old(accepted) && Stored() == old(Stored()) && old(remote) <= remote
      ensures dropped == old(dropped) && completingBlocks == old(completingBlocks)
      ensures ok <==> exists i: nat :: FirstToBeFlushed(old(completeBlocks), i, blockId)
      ensures !ok ==> unchanged(this)
      ensures ok ==> exists i: nat ::
        && FirstToBeFlushed(old(completeBlocks), i, blockId)
        && completeBlocks == old(completeBlocks)[i := old(completeBlocks)[i].(flushedTime := Some(now))]
        && remote == old(remote) + RowsOf(old(completeBlocks)[i].block.rows)
    {
      hide RowsOf, LiveRows, BlockRows, LocalRows, Unique;
      for i := 0 to |completeBlocks|
        invariant unchanged(this)
        invariant forall k :: 0 <= k < i ==> !ToBeFlushed(completeBlocks[k], blockId)
      {
        if completeBlocks[i].block.blockId == blockId && completeBlocks[i].flushedTime == None {
          assert FirstToBeFlushed(completeBlocks, i, blockId);
          remote := remote + RowsOf(completeBlocks[i].block.rows);
          LocalRowsReplace(completeBlocks, i, Some(now));
          completeBlocks := completeBlocks[i := completeBlocks[i].(flushedTime := Some(now))];
          return true;
        }
      }
      return false;
    }

    /** Drop the first local block that was flushed long enough ago; all of it is remote. */
    method ClearFlushedBlocks(now: int, timeout: int) returns (cleared: bool)
      requires Valid()
      modifies this`completeBlocks
      ensures Valid() && accepted == old(accepted) && remote == old(remote) && dropped == old(dropped)
      ensures Stored() <= old(Stored()) <= Stored() + remote
      ensures cleared <==> exists i: nat :: FirstDue(old(completeBlocks), i, now, timeout)
      ensures !cleared ==> unchanged(this)
      ensures cleared ==> exists i: nat ::
        && FirstDue(old(completeBlocks), i, now, timeout)
        && completeBlocks == old(completeBlocks)[..i] + old(completeBlocks)[i + 1..]
    {
      hide RowsOf, LiveRows, BlockRows, LocalRows, Unique;
      for i := 0 to |completeBlocks|
        invariant unchanged(this)
        invariant forall k :: 0 <= k < i ==> !Due(completeBlocks[k], now, timeout)
      {
        var flushed := completeBlocks[i].flushedTime;
        if flushed.Some? && flushed.value + timeout < now {
          assert FirstDue(completeBlocks, i, now, timeout);
          LocalRowsWithout(completeBlocks, i);
          completeBlocks := completeBlocks[..i] + completeBlocks[i + 1..];
          return true;
        }
      }
      return false;
    }

    /** A snapshot that was accepted is found as it was pushed, until it is remote; nothing else is found. */
    method FindSnapshotByID(id: SnapshotId) returns (found: Option<Bytes>)
      requires Valid()
      requires token(id) in liveSnapshots ==> liveSnapshots[token(id)].row.id == id  // no token collision
      ensures Answers(Stored(), id, found)
      ensures found.Some? ==> Row(id, found.value) in accepted
      ensures forall r :: r in accepted && r.id == id ==> found == Some(r.bytes) || (found == None && r in remote + dropped)
    {
      if token(id) in liveSnapshots {
        assert liveSnapshots[token(id)].row in LiveRows(liveSnapshots);
        return Some(liveSnapshots[token(id)].row.bytes);
      }
      found := FindIn(headBlock.rows, id);
      if found.Some? {
        return;
      }
      found := FindInBlocks(completingBlocks, id);
      if found.Some? {
        return;
      }
      found := FindInLocal(completeBlocks, id);
    }
  }
}
