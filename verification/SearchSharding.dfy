/**
  How a search is split (modules/frontend/searchsharding.go): by time between ingesters
  and backend, and by page within each backend block.
 */
module SearchSharding {
  import opened Wrappers

  // ---------- By time ----------

  /** Closed range of Unix seconds. */
  datatype TimeRange = TimeRange(start: nat, end: nat)

  predicate Covers(r: Option<TimeRange>, second: nat) {
    r.Some? && r.value.start <= second <= r.value.end
  }

  /** The part of the query that ingesters answer; none if it lies before what they keep. */
  function IngesterRange(query: TimeRange, ingesterUntil: nat): Option<TimeRange> {
    if query.end < ingesterUntil then None
    else
      var start := if query.start < ingesterUntil then ingesterUntil else query.start;
      if start == query.end then None else Some(TimeRange(start, query.end))
  }

  /** The part of the query that backend blocks answer; skipped when it is a single point. */
  function BackendRange(query: TimeRange, backendAfter: nat): Option<TimeRange> {
    var end := if query.end > backendAfter then backendAfter else query.end;
    var start := if query.start > backendAfter then backendAfter else query.start;
    if start == end then None else Some(TimeRange(start, end))
  }

  function Min(a: int, b: int): int {
    if a < b then a else b
  }

  function Max(a: int, b: int): int {
    if a > b then a else b
  }

  /** Nothing outside the query is searched: what is issued is the part on its side of the boundary, unless that is a single second. */
  lemma RangesWithin(query: TimeRange, ingesterUntil: nat, backendAfter: nat)
    requires query.start <= query.end
    ensures BackendRange(query, backendAfter) ==
      if query.start < Min(query.end, backendAfter) then Some(TimeRange(query.start, Min(query.end, backendAfter))) else None
    ensures IngesterRange(query, ingesterUntil) ==
      if Max(query.start, ingesterUntil) < query.end then Some(TimeRange(Max(query.start, ingesterUntil), query.end)) else None
  {
  }

  ghost predicate Searched(query: TimeRange, ingesterUntil: nat, backendAfter: nat, second: nat) {
    Covers(IngesterRange(query, ingesterUntil), second) || Covers(BackendRange(query, backendAfter), second)
  }

  /** Every second of the query is searched somewhere. */
  ghost predicate Complete(query: TimeRange, ingesterUntil: nat, backendAfter: nat) {
    forall second :: query.start <= second <= query.end ==> Searched(query, ingesterUntil, backendAfter, second)
  }

  /** Exactly when the two boundaries leave no second of the query out; a query of a single second is never searched. */
  lemma SplitCompleteIff(query: TimeRange, ingesterUntil: nat, backendAfter: nat)
    ensures Complete(query, ingesterUntil, backendAfter) <==>
      query.start > query.end
      || (query.start < query.end
          && (query.end <= backendAfter
              || (ingesterUntil < query.end
                  && (ingesterUntil <= query.start || (ingesterUntil <= backendAfter + 1 && query.start < backendAfter)))))
  {
    if query.start <= query.end && Complete(query, ingesterUntil, backendAfter) {
      assert Searched(query, ingesterUntil, backendAfter, query.start);
      assert Searched(query, ingesterUntil, backendAfter, query.end);
      if query.start < ingesterUntil && ingesterUntil < query.end {
        assert Searched(query, ingesterUntil, backendAfter, ingesterUntil - 1);
      }
    }
  }

  /**
    The configuration check that ingesters are queried at least as far back as the backend
    starts makes every split complete; the ingester boundary is computed first, so its
    clock reading is not the later one.
   */
  lemma ConfiguredSplitIsComplete(query: TimeRange, now: nat, later: nat, queryIngestersUntil: nat, queryBackendAfter: nat)
    requires query.start < query.end
    requires queryIngestersUntil >= queryBackendAfter && queryIngestersUntil <= now <= later
    ensures Complete(query, now - queryIngestersUntil, later - queryBackendAfter)
  {
    SplitCompleteIff(query, now - queryIngestersUntil, later - queryBackendAfter);
  }

  // ---------- By page ----------

  const UINT32 := 0x1_0000_0000

  type uint32 = n: int | 0 <= n < 0x1_0000_0000

  type BlockId = string

  datatype Meta = Meta(blockId: BlockId, start: int, end: int, size: nat, totalRecords: uint32)

  datatype Request = Request(block: BlockId, startPage: nat, pages: nat)

  predicate Overlaps(m: Meta, start: int, end: int) {
    m.start <= end && m.end >= start
  }

  /** The blocks whose time span overlaps the range, in order. */
  function Overlapping(all: seq<Meta>, start: int, end: int): seq<Meta> {
    if all == [] then []
    else
      var last := all[|all| - 1];
      Overlapping(all[..|all| - 1], start, end) + if Overlaps(last, start, end) then [last] else []
  }

  method BlockMetas(all: seq<Meta>, start: int, end: int) returns (metas: seq<Meta>)
    ensures metas == Overlapping(all, start, end)
  {
    metas := [];
    for i := 0 to |all|
      invariant metas == Overlapping(all[..i], start, end)
    {
      assert all[..i + 1][..i] == all[..i];
      if all[i].start <= end && all[i].end >= start {
        metas := metas + [all[i]];
      }
    }
    assert all[..|all|] == all;
  }

  predicate DistinctIds(metas: seq<Meta>) {
    forall i, j :: 0 <= i < |metas| && 0 <= j < |metas| && metas[i].blockId == metas[j].blockId ==> i == j
  }

  /** Filtering keeps exactly the overlapping blocks, each once. */
  lemma {:induction false} OverlappingKeeps(all: seq<Meta>, start: int, end: int)
    ensures forall m :: m in Overlapping(all, start, end) <==> m in all && Overlaps(m, start, end)
    ensures DistinctIds(all) ==> DistinctIds(Overlapping(all, start, end))
  {
    if all != [] {
      var front, last := all[..|all| - 1], all[|all| - 1];
      assert all == front + [last];
      OverlappingKeeps(front, start, end);
      var kept := Overlapping(front, start, end);
      if DistinctIds(all) {
        assert forall i :: 0 <= i < |front| ==> all[i] == front[i];
        forall i | 0 <= i < |kept| ensures kept[i].blockId != last.blockId {
          assert kept[i] in front;
          var k :| 0 <= k < |front| && front[k] == kept[i];
          assert all[k].blockId == kept[i].blockId;
        }
      }
    }
  }

  predicate Searchable(m: Meta) {
    m.size != 0 && m.totalRecords != 0
  }

  function BytesPerPage(m: Meta): nat
    requires Searchable(m)
  {
    m.size / m.totalRecords
  }

  function PagesPerQuery(m: Meta, target: nat): nat
    requires Searchable(m) && BytesPerPage(m) != 0
  {
    var pages := target / BytesPerPage(m);
    if pages == 0 then 1 else pages
  }

  /** The estimate is the block's size spread evenly over its pages, rounded down. */
  lemma PageEstimate(m: Meta)
    requires Searchable(m)
    ensures BytesPerPage(m) * m.totalRecords <= m.size < (BytesPerPage(m) + 1) * m.totalRecords
  {
    var n: nat := m.totalRecords;
    assert m.size == m.size / n * n + m.size % n;
    assert (BytesPerPage(m) + 1) * n == BytesPerPage(m) * n + n;
  }

  predicate Searches(r: Request, block: BlockId, page: nat) {
    r.block == block && r.startPage <= page < r.startPage + r.pages
  }

  /** Requests from n pages on: steps of per pages, the count cut to 32 bits as in the request. */
  function PageRequests(block: BlockId, m: Meta, per: nat, startPage: nat): seq<Request>
    requires per > 0
    decreases m.totalRecords - startPage
  {
    if startPage >= m.totalRecords then []
    else [Request(block, startPage, per % UINT32)] + PageRequests(block, m, per, startPage + per)
  }

  function BlockRequests(m: Meta, target: nat): seq<Request>
    requires Searchable(m) ==> BytesPerPage(m) != 0
  {
    if Searchable(m) then PageRequests(m.blockId, m, PagesPerQuery(m, target), 0) else []
  }

  predicate AllSized(metas: seq<Meta>) {
    forall i :: 0 <= i < |metas| && Searchable(metas[i]) ==> BytesPerPage(metas[i]) != 0
  }

  function AllRequests(metas: seq<Meta>, target: nat, n: nat): seq<Request>
    requires n <= |metas| && AllSized(metas[..n])
  {
    if n == 0 then []
    else
      assert metas[..n][n - 1] == metas[n - 1];
      assert AllSized(metas[..n - 1]) by {
        assert forall i :: 0 <= i < n - 1 ==> metas[..n - 1][i] == metas[..n][i];
      }
      AllRequests(metas, target, n - 1) + BlockRequests(metas[n - 1], target)
  }

  lemma AllSizedNext(metas: seq<Meta>, i: nat)
    requires i < |metas| && AllSized(metas[..i])
    ensures AllSized(metas[..i + 1]) <==> (Searchable(metas[i]) ==> BytesPerPage(metas[i]) != 0)
  {
    hide BytesPerPage;
    assert metas[..i + 1][i] == metas[i];
    assert metas[..i + 1] == metas[..i] + [metas[i]];
  }

  lemma AllSizedPrefix(metas: seq<Meta>, i: nat)
    requires i <= |metas| && AllSized(metas)
    ensures AllSized(metas[..i])
  {
    hide BytesPerPage;
    assert forall k :: 0 <= k < i ==> metas[..i][k] == metas[k];
  }

  /** One request per run of pages of a block. */
  method RequestPages(block: BlockId, m: Meta, per: nat, before: seq<Request>) returns (out: seq<Request>)
    requires per > 0
    ensures out == before + PageRequests(block, m, per, 0)
  {
    out := before;
    var startPage := 0;
    while startPage < m.totalRecords
      invariant startPage >= 0
      invariant out + PageRequests(block, m, per, startPage) == before + PageRequests(block, m, per, 0)
      decreases m.totalRecords - startPage
    {
      out := out + [Request(block, startPage, per % UINT32)];
      startPage := startPage + per;
    }
  }

  /** backendRequests: fails on a block whose pages would be empty, otherwise one request per page run. */
  method BackendRequests(metas: seq<Meta>, target: nat) returns (reqs: Option<seq<Request>>)
    ensures reqs.Some? <==> AllSized(metas)
    ensures reqs.Some? ==> AllSized(metas[..|metas|]) && reqs.value == AllRequests(metas, target, |metas|)
  {
    hide AllSized, BytesPerPage, PageRequests;
    var out: seq<Request> := [];
    assert AllSized(metas[..0]) by { NoneSized(metas); }
    for i := 0 to |metas|
      invariant AllSized(metas[..i]) && out == AllRequests(metas, target, i)
    {
      var m := metas[i];
      AllSizedNext(metas, i);
      if Searchable(m) {
        if BytesPerPage(m) == 0 {
          assert !AllSized(metas) by {
            if AllSized(metas) { AllSizedPrefix(metas, i + 1); }
          }
          return None;
        }
        out := RequestPages(m.blockId, m, PagesPerQuery(m, target), out);
      }
    }
    assert metas[..|metas|] == metas;
    return Some(out);
  }

  lemma NoneSized(metas: seq<Meta>)
    ensures AllSized(metas[..0])
  {
  }

  // ---------- Every page once ----------

  /** Exactly the request at index j searches the page. */
  ghost predicate OnlyAt(reqs: seq<Request>, j: nat, block: BlockId, page: nat) {
    j < |reqs| && forall k :: 0 <= k < |reqs| ==> (Searches(reqs[k], block, page) <==> k == j)
  }

  lemma {:induction false} RequestsFrom(block: BlockId, m: Meta, per: nat, startPage: nat)
    requires per > 0
    ensures forall k :: 0 <= k < |PageRequests(block, m, per, startPage)| ==>
      var r := PageRequests(block, m, per, startPage)[k]; r.block == block && startPage <= r.startPage && r.pages == per % UINT32
    decreases m.totalRecords - startPage
  {
    if startPage < m.totalRecords {
      RequestsFrom(block, m, per, startPage + per);
    }
  }

  lemma {:induction false} PageOnce(block: BlockId, m: Meta, per: nat, startPage: nat, page: nat) returns (j: nat)
    requires 0 < per < UINT32 && startPage <= page < m.totalRecords
    ensures OnlyAt(PageRequests(block, m, per, startPage), j, block, page)
    decreases m.totalRecords - startPage
  {
    var reqs := PageRequests(block, m, per, startPage);
    RequestsFrom(block, m, per, startPage + per);
    assert forall k :: 0 < k < |reqs| ==> reqs[k] == reqs[1..][k - 1];
    if page < startPage + per {
      j := 0;
    } else {
      var i := PageOnce(block, m, per, startPage + per, page);
      j := i + 1;
    }
  }

  ghost predicate Once(reqs: seq<Request>, block: BlockId, page: nat) {
    exists j: nat :: OnlyAt(reqs, j, block, page)
  }

  /** The page count of a request survives its 32 bits: it does not wrap, or what is left covers the block. */
  predicate CountFits(m: Meta, target: nat)
    requires Searchable(m) && BytesPerPage(m) != 0
  {
    var per := PagesPerQuery(m, target);
    per < UINT32 || per % UINT32 >= m.totalRecords
  }

  /** Past 2^32 pages per query there is a single request, with the count wrapped. */
  lemma WrappedCount(block: BlockId, m: Meta, per: nat, page: nat)
    requires 0 < m.totalRecords && UINT32 <= per && page < m.totalRecords
    ensures Once(PageRequests(block, m, per, 0), block, page) <==> page < per % UINT32
  {
    var reqs := PageRequests(block, m, per, 0);
    assert PageRequests(block, m, per, 0 + per) == [];
    assert reqs == [Request(block, 0, per % UINT32)];
    assert Searches(reqs[0], block, page) <==> page < per % UINT32;
    if page < per % UINT32 {
      assert OnlyAt(reqs, 0, block, page);
    }
  }

  /** Each page of a block is in exactly one of its requests if and only if the page count fits. */
  lemma PagesOnceIff(m: Meta, target: nat)
    requires Searchable(m) && BytesPerPage(m) != 0
    ensures (forall page: nat :: page < m.totalRecords ==> Once(BlockRequests(m, target), m.blockId, page)) <==> CountFits(m, target)
  {
    hide BytesPerPage, PagesPerQuery, Once;
    var per := PagesPerQuery(m, target);
    var reqs := BlockRequests(m, target);
    assert per > 0 by { PagesSmall(m, target); }
    forall page: nat | page < m.totalRecords
      ensures Once(reqs, m.blockId, page) <==> per < UINT32 || page < per % UINT32
    {
      if per < UINT32 {
        var j := PageOnce(m.blockId, m, per, 0, page);
        OnceAt(reqs, j, m.blockId, page);
      } else {
        WrappedCount(m.blockId, m, per, page);
      }
    }
    var last: nat := m.totalRecords - 1;
    assert Once(reqs, m.blockId, last) <==> per < UINT32 || last < per % UINT32;
  }

  lemma OnceAt(reqs: seq<Request>, j: nat, block: BlockId, page: nat)
    requires OnlyAt(reqs, j, block, page)
    ensures Once(reqs, block, page)
  {
  }

  // ---------- The whole search ----------

  lemma SizedPrefix(metas: seq<Meta>, n: nat)
    requires 0 < n <= |metas| && AllSized(metas[..n])
    ensures AllSized(metas[..n - 1]) && metas[..n][n - 1] == metas[n - 1]
  {
    hide BytesPerPage;
    assert forall i :: 0 <= i < n - 1 ==> metas[..n - 1][i] == metas[..n][i];
  }

  lemma BlockTags(m: Meta, target: nat)
    requires Searchable(m) ==> BytesPerPage(m) != 0
    ensures forall k :: 0 <= k < |BlockRequests(m, target)| ==> BlockRequests(m, target)[k].block == m.blockId
  {
    if Searchable(m) {
      RequestsFrom(m.blockId, m, PagesPerQuery(m, target), 0);
    }
  }

  /** Only blocks of the list are asked for. */
  lemma {:induction false} RequestTags(metas: seq<Meta>, target: nat, n: nat, k: nat) returns (i: nat)
    requires n <= |metas| && AllSized(metas[..n]) && k < |AllRequests(metas, target, n)|
    ensures i < n && Searchable(metas[i]) && AllRequests(metas, target, n)[k].block == metas[i].blockId
  {
    SizedPrefix(metas, n);
    var front := AllRequests(metas, target, n - 1);
    if k < |front| {
      i := RequestTags(metas, target, n - 1, k);
    } else {
      i := n - 1;
      BlockTags(metas[n - 1], target);
    }
  }

  /** Requests for other blocks do not matter. */
  lemma OnceAmong(front: seq<Request>, reqs: seq<Request>, back: seq<Request>, block: BlockId, page: nat)
    requires forall k :: 0 <= k < |front| ==> front[k].block != block
    requires forall k :: 0 <= k < |back| ==> back[k].block != block
    ensures Once(front + reqs + back, block, page) <==> Once(reqs, block, page)
  {
    var all := front + reqs + back;
    assert forall k :: 0 <= k < |reqs| ==> all[|front| + k] == reqs[k];
    if Once(reqs, block, page) {
      var j: nat :| OnlyAt(reqs, j, block, page);
      assert OnlyAt(all, |front| + j, block, page);
    }
    if Once(all, block, page) {
      var j: nat :| OnlyAt(all, j, block, page);
      assert Searches(all[j], block, page);
      assert OnlyAt(reqs, j - |front|, block, page);
    }
  }

  /** What a block's pages get from the whole list is what they get from its own requests. */
  lemma {:induction false} OwnRequests(metas: seq<Meta>, target: nat, n: nat, i: nat, page: nat)
    requires n <= |metas| && AllSized(metas[..n]) && DistinctIds(metas) && i < n
    requires Searchable(metas[i]) ==> BytesPerPage(metas[i]) != 0
    ensures Once(AllRequests(metas, target, n), metas[i].blockId, page) <==> Once(BlockRequests(metas[i], target), metas[i].blockId, page)
  {
    hide BytesPerPage, Once, BlockRequests;
    SizedPrefix(metas, n);
    var front, last, id := AllRequests(metas, target, n - 1), BlockRequests(metas[n - 1], target), metas[i].blockId;
    BlockTags(metas[n - 1], target);
    if i == n - 1 {
      forall k | 0 <= k < |front| ensures front[k].block != id {
        var j := RequestTags(metas, target, n - 1, k);
      }
      OnceAmong(front, last, [], id, page);
      assert front + last + [] == front + last;
    } else {
      OwnRequests(metas, target, n - 1, i, page);
      OnceAmong([], front, last, id, page);
      assert [] + front + last == front + last;
    }
  }

  /** Every page of the block is in exactly one request. */
  ghost predicate Covered(reqs: seq<Request>, m: Meta) {
    forall page: nat :: page < m.totalRecords ==> Once(reqs, m.blockId, page)
  }

  lemma EveryPageOnceIff(metas: seq<Meta>, target: nat, i: nat)
    requires AllSized(metas) && AllSized(metas[..|metas|]) && DistinctIds(metas) && i < |metas| && Searchable(metas[i])
    ensures Covered(AllRequests(metas, target, |metas|), metas[i]) <==> CountFits(metas[i], target)
  {
    hide BytesPerPage, Once, BlockRequests;
    var m := metas[i];
    forall page: nat ensures Once(AllRequests(metas, target, |metas|), m.blockId, page) <==> Once(BlockRequests(m, target), m.blockId, page) {
      OwnRequests(metas, target, |metas|, i, page);
    }
    PagesOnceIff(m, target);
  }

  /** A block with pages whose span meets the query's part before backendAfter, when that is more than one second. */
  predicate Wanted(m: Meta, query: TimeRange, backendAfter: nat) {
    var lo, hi := Min(query.start, backendAfter), Min(query.end, backendAfter);
    lo != hi && m.start <= hi && lo <= m.end && m.size != 0 && m.totalRecords != 0
  }

  /** Nothing is asked for but wanted blocks of the tenant. */
  ghost predicate OnlyWanted(reqs: seq<Request>, all: seq<Meta>, query: TimeRange, backendAfter: nat) {
    forall k :: 0 <= k < |reqs| ==> exists m :: m in all && Wanted(m, query, backendAfter) && m.blockId == reqs[k].block
  }

  /**
    The backend part of a search: every page of every wanted block is in exactly one
    request, if and only if the block's page count fits; nothing else is asked for; an
    error exactly if some wanted block has pages of zero bytes.
   */
  method SearchBackend(query: TimeRange, backendAfter: nat, all: seq<Meta>, target: nat) returns (reqs: Option<seq<Request>>)
    requires DistinctIds(all)
    ensures reqs.Some? <==> forall m :: m in all && Wanted(m, query, backendAfter) ==> BytesPerPage(m) != 0
    ensures reqs.Some? ==> forall m :: m in all && Wanted(m, query, backendAfter) && BytesPerPage(m) != 0 ==>
      (Covered(reqs.value, m) <==> CountFits(m, target))
    ensures reqs.Some? ==> OnlyWanted(reqs.value, all, query, backendAfter)
  {
    hide BytesPerPage, Covered, CountFits;
    var range := BackendRange(query, backendAfter);
    if range == None {
      return Some([]);
    }
    var metas := BlockMetas(all, range.value.start, range.value.end);
    OverlappingKeeps(all, range.value.start, range.value.end);
    reqs := BackendRequests(metas, target);
    AllSizedMembers(metas);
    assert forall m :: m in metas && Searchable(m) <==> m in all && Wanted(m, query, backendAfter);
    if reqs.Some? {
      forall m | m in all && Wanted(m, query, backendAfter) ensures BytesPerPage(m) != 0 && (Covered(reqs.value, m) <==> CountFits(m, target)) {
        assert m in metas;
        var i :| 0 <= i < |metas| && metas[i] == m;
        EveryPageOnceIff(metas, target, i);
      }
      forall k | 0 <= k < |reqs.value|
        ensures exists m :: m in all && Wanted(m, query, backendAfter) && m.blockId == reqs.value[k].block
      {
        var i := RequestTags(metas, target, |metas|, k);
        assert metas[i] in metas;
      }
    }
  }

  lemma AllSizedMembers(metas: seq<Meta>)
    ensures AllSized(metas) <==> forall m :: m in metas && Searchable(m) ==> BytesPerPage(m) != 0
  {
    hide BytesPerPage;
    if AllSized(metas) {
      forall m | m in metas && Searchable(m) ensures BytesPerPage(m) != 0 {
        var i :| 0 <= i < |metas| && metas[i] == m;
      }
    }
  }

  /** A request stays within the target by the per-page estimate, or is a single page. */
  lemma PagesSmall(m: Meta, target: nat)
    requires Searchable(m) && BytesPerPage(m) != 0
    ensures var per := PagesPerQuery(m, target); per > 0 && (per * BytesPerPage(m) <= target || per == 1)
    ensures target < (PagesPerQuery(m, target) + 1) * BytesPerPage(m)
    ensures target < UINT32 ==> CountFits(m, target)
  {
    var b := BytesPerPage(m);
    var q := target / b;
    assert target == q * b + target % b;
    if q > 0 {
      assert (b - 1) * q >= 0;
      assert q * b == (b - 1) * q + q;
    }
  }
}
