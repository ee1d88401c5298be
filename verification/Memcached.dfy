/**
  Fetching from memcached (pkg/cache/memcached.go): one request for all keys, or one per
  batch over a pool of workers whose answers arrive in any order.
 */
module Memcached {
  import opened Wrappers
  import opened Arithmetic

  type Key = string
  type Buf = seq<bv8>

  /** What GetMulti answers: the stored items among the keys, or an error. */
  type Answer = Option<map<Key, Buf>>

  datatype Fetched = Fetched(found: seq<Key>, bufs: seq<Buf>, missed: seq<Key>) {
    function Plus(more: Fetched): Fetched {
      Fetched(found + more.found, bufs + more.bufs, missed + more.missed)
    }
  }

  const NOTHING := Fetched([], [], [])

  // ---------- One request ----------

  function Lookup(items: map<Key, Buf>, keys: seq<Key>): Fetched {
    if keys == [] then NOTHING
    else
      Lookup(items, keys[..|keys| - 1]).Plus(One(items, keys[|keys| - 1]))
  }

  function Fetch(answer: Answer, keys: seq<Key>): Fetched {
    if answer.None? then Fetched([], [], keys) else Lookup(answer.value, keys)
  }

  /** fetch: an error makes every key a miss. */
  method FetchKeys(answer: Answer, keys: seq<Key>) returns (r: Fetched)
    ensures r == Fetch(answer, keys)
  {
    if answer.None? {
      return Fetched([], [], keys);
    }
    var items := answer.value;
    var found, bufs, missed := [], [], [];
    for i := 0 to |keys|
      invariant Fetched(found, bufs, missed) == Lookup(items, keys[..i])
    {
      var key := keys[i];
      assert keys[..i + 1][..i] == keys[..i];
      if key in items {
        found := found + [key];
        bufs := bufs + [items[key]];
      } else {
        missed := missed + [key];
      }
    }
    assert keys[..|keys|] == keys;
    return Fetched(found, bufs, missed);
  }

  /** Number of hits before position i. */
  function Hits(items: map<Key, Buf>, keys: seq<Key>, i: nat): nat
    requires i <= |keys|
  {
    if i == 0 then 0 else Hits(items, keys, i - 1) + if keys[i - 1] in items then 1 else 0
  }

  /** Key i is in one list, at the place its order among the hits or the misses gives it. */
  ghost predicate Placed(items: map<Key, Buf>, keys: seq<Key>, r: Fetched, i: nat)
    requires i < |keys|
  {
    var h := Hits(items, keys, i);
    if keys[i] in items then h < |r.found| == |r.bufs| && r.found[h] == keys[i] && r.bufs[h] == items[keys[i]]
    else h <= i && i - h < |r.missed| && r.missed[i - h] == keys[i]
  }

  ghost predicate Counted(items: map<Key, Buf>, keys: seq<Key>, r: Fetched, n: nat)
    requires n <= |keys|
  {
    |r.found| == |r.bufs| == Hits(items, keys, n) && |r.found| + |r.missed| == n
  }

  /** The lists hold each key once, in the order of the keys, and nothing else. */
  lemma {:induction false} LookupPlaces(items: map<Key, Buf>, keys: seq<Key>, n: nat)
    requires n <= |keys|
    ensures Counted(items, keys, Lookup(items, keys[..n]), n)
    ensures forall i :: 0 <= i < n ==> Placed(items, keys, Lookup(items, keys[..n]), i)
  {
    if n > 0 {
      assert keys[..n][..n - 1] == keys[..n - 1];
      var r, one := Lookup(items, keys[..n - 1]), Lookup(items, keys[..n]);
      LookupPlaces(items, keys, n - 1);
      forall i | 0 <= i < n ensures Placed(items, keys, one, i) {
        if i < n - 1 {
          assert Placed(items, keys, r, i);
        }
      }
    }
  }

  /** What a single key adds. */
  function One(items: map<Key, Buf>, key: Key): Fetched {
    if key in items then Fetched([key], [items[key]], []) else Fetched([], [], [key])
  }

  lemma LookupLast(items: map<Key, Buf>, keys: seq<Key>, key: Key)
    ensures Lookup(items, keys + [key]) == Lookup(items, keys).Plus(One(items, key))
  {
    assert (keys + [key])[..|keys|] == keys;
  }

  lemma PlusAssociates(a: Fetched, b: Fetched, c: Fetched)
    ensures a.Plus(b).Plus(c) == a.Plus(b.Plus(c)) && a.Plus(NOTHING) == a
  {
  }

  lemma {:induction false} LookupConcat(items: map<Key, Buf>, a: seq<Key>, b: seq<Key>)
    ensures Lookup(items, a + b) == Lookup(items, a).Plus(Lookup(items, b))
  {
    hide One, Fetched.Plus;
    if b == [] {
      assert a + b == a;
      PlusAssociates(Lookup(items, a), NOTHING, NOTHING);
    } else {
      var front, key := b[..|b| - 1], b[|b| - 1];
      LookupConcat(items, a, front);
      assert b == front + [key] && a + b == (a + front) + [key];
      LookupLast(items, a + front, key);
      LookupLast(items, front, key);
      PlusAssociates(Lookup(items, a), Lookup(items, front), One(items, key));
    }
  }

  /** The answer is what the store holds of the keys; it may be silent, or say anything, about others. */
  ghost predicate Agrees(answer: Answer, items: map<Key, Buf>, keys: seq<Key>) {
    && answer.Some?
    && forall k :: k in keys ==> (k in answer.value <==> k in items) && (k in items ==> answer.value[k] == items[k])
  }

  lemma {:induction false} FetchAgrees(answer: Answer, items: map<Key, Buf>, keys: seq<Key>)
    requires Agrees(answer, items, keys)
    ensures Fetch(answer, keys) == Lookup(items, keys)
  {
    if keys != [] {
      var front := keys[..|keys| - 1];
      assert forall k :: k in front ==> k in keys;
      assert keys[|keys| - 1] in keys;
      FetchAgrees(answer, items, front);
    }
  }

  /** No key is lost or doubled, errors included. */
  ghost predicate Partitions(r: Fetched, keys: seq<Key>) {
    |r.found| == |r.bufs| && multiset(r.found) + multiset(r.missed) == multiset(keys)
  }

  lemma {:induction false} FetchPartitions(answer: Answer, keys: seq<Key>)
    ensures Partitions(Fetch(answer, keys), keys)
  {
    if answer.Some? && keys != [] {
      var n := |keys| - 1;
      assert keys == keys[..n] + [keys[n]];
      FetchPartitions(answer, keys[..n]);
    }
  }

  lemma PartitionsPlus(r: Fetched, a: seq<Key>, s: Fetched, b: seq<Key>)
    requires Partitions(r, a) && Partitions(s, b)
    ensures Partitions(r.Plus(s), a + b)
  {
  }

  lemma PartitionsNothing()
    ensures Partitions(NOTHING, [])
  {
  }

  // ---------- Batches ----------

  function Min(a: int, b: int): int {
    if a < b then a else b
  }

  function NumResults(keys: seq<Key>, size: nat): nat
    requires size > 0
  {
    |keys| / size + if |keys| % size != 0 then 1 else 0
  }

  /** Where batch id starts, no further than the end of the keys. */
  function Start(keys: seq<Key>, size: nat, id: nat): (at: nat)
    ensures at <= |keys|
  {
    Min(id * size, |keys|)
  }

  function Batch(keys: seq<Key>, size: nat, id: nat): seq<Key> {
    assert id * size <= (id + 1) * size;
    keys[Start(keys, size, id)..Start(keys, size, id + 1)]
  }

  lemma StartZero(keys: seq<Key>, size: nat)
    ensures Start(keys, size, 0) == 0 && keys[..Start(keys, size, 0)] == []
  {
  }

  /** The expected count is the number of batches: those that start inside the keys. */
  lemma CountIsBatches(keys: seq<Key>, size: nat, id: nat)
    requires size > 0
    ensures id < NumResults(keys, size) <==> id * size < |keys|
  {
    var q, rem := |keys| / size, |keys| % size;
    assert |keys| == q * size + rem;
    if id < q {
      MulApart(id, q, size);
    } else if q < id {
      MulApart(q, id, size);
    }
  }

  /** Every batch is full but the last, which has at least one key. */
  lemma BatchSizes(keys: seq<Key>, size: nat, id: nat)
    requires size > 0 && id < NumResults(keys, size)
    ensures 0 < |Batch(keys, size, id)| <= size
    ensures id + 1 < NumResults(keys, size) ==> |Batch(keys, size, id)| == size
  {
    CountIsBatches(keys, size, id);
    CountIsBatches(keys, size, id + 1);
    assert (id + 1) * size == id * size + size;
  }

  /** The answers of the batches in got, in batch order. */
  function Merged(answers: nat -> Answer, keys: seq<Key>, size: nat, got: set<nat>, n: nat): Fetched {
    if n == 0 then NOTHING
    else
      Merged(answers, keys, size, got, n - 1).Plus(
        if n - 1 in got then Fetch(answers(n - 1), Batch(keys, size, n - 1)) else NOTHING)
  }

  /** Identifiers of the first n batches. */
  ghost predicate All(got: set<nat>, n: nat) {
    forall id: nat :: id < n ==> id in got
  }

  lemma BatchExtends(keys: seq<Key>, size: nat, n: nat)
    ensures keys[..Start(keys, size, n)] + Batch(keys, size, n) == keys[..Start(keys, size, n + 1)]
  {
    assert n * size <= (n + 1) * size;
  }

  /** One store answers the first n batches. */
  ghost predicate Served(answers: nat -> Answer, items: map<Key, Buf>, keys: seq<Key>, size: nat, n: nat) {
    forall id: nat :: id < n ==> Agrees(answers(id), items, Batch(keys, size, id))
  }

  lemma {:induction false} MergedIsLookup(answers: nat -> Answer, items: map<Key, Buf>, keys: seq<Key>, size: nat, got: set<nat>, n: nat)
    requires All(got, n) && Served(answers, items, keys, size, n)
    ensures Merged(answers, keys, size, got, n) == Lookup(items, keys[..Start(keys, size, n)])
  {
    hide Batch, Start, Fetch, Agrees;
    if n == 0 {
      StartZero(keys, size);
    } else {
      var batch := Batch(keys, size, n - 1);
      MergedIsLookup(answers, items, keys, size, got, n - 1);
      FetchAgrees(answers(n - 1), items, batch);
      BatchExtends(keys, size, n - 1);
      LookupConcat(items, keys[..Start(keys, size, n - 1)], batch);
    }
  }

  /** Batching is invisible: with one store behind all workers the lists are those of a single request to it. */
  lemma BatchedIsUnbatched(answers: nat -> Answer, items: map<Key, Buf>, keys: seq<Key>, size: nat, got: set<nat>, whole: Answer)
    requires size > 0 && All(got, NumResults(keys, size)) && Served(answers, items, keys, size, NumResults(keys, size))
    requires Agrees(whole, items, keys)
    ensures Merged(answers, keys, size, got, NumResults(keys, size)) == Fetch(whole, keys) == Lookup(items, keys)
  {
    hide Served, Agrees;
    var n := NumResults(keys, size);
    MergedIsLookup(answers, items, keys, size, got, n);
    CountIsBatches(keys, size, n);
    assert keys[..Start(keys, size, n)] == keys;
    FetchAgrees(whole, items, keys);
  }

  lemma {:induction false} MergedPartitions(answers: nat -> Answer, keys: seq<Key>, size: nat, got: set<nat>, n: nat)
    requires All(got, n)
    ensures Partitions(Merged(answers, keys, size, got, n), keys[..Start(keys, size, n)])
  {
    hide Batch, Start, Partitions, Fetch;
    if n == 0 {
      StartZero(keys, size);
      PartitionsNothing();
    } else {
      MergedPartitions(answers, keys, size, got, n - 1);
      BatchExtends(keys, size, n - 1);
      var batch := Batch(keys, size, n - 1);
      FetchPartitions(answers(n - 1), batch);
      PartitionsPlus(Merged(answers, keys, size, got, n - 1), keys[..Start(keys, size, n - 1)], Fetch(answers(n - 1), batch), batch);
    }
  }

  /** Whatever requests fail, each key asked for comes back once, as found or as missed. */
  lemma BatchedPartitions(answers: nat -> Answer, keys: seq<Key>, size: nat, got: set<nat>)
    requires size > 0 && All(got, NumResults(keys, size))
    ensures Partitions(Merged(answers, keys, size, got, NumResults(keys, size)), keys)
  {
    var n := NumResults(keys, size);
    MergedPartitions(answers, keys, size, got, n);
    CountIsBatches(keys, size, n);
    assert keys[..Start(keys, size, n)] == keys;
  }

  // ---------- The pool ----------

  datatype Result = Result(batchID: nat, lists: Fetched)

  /** The batch with this identifier is with a worker, answered, or not handed out yet. */
  ghost predicate Sound(answers: nat -> Answer, keys: seq<Key>, size: nat, sent: nat, working: map<nat, seq<Key>>,
    results: seq<Option<Result>>)
  {
    && sent <= |results|
    && (forall id :: id in working ==> id < sent && results[id].None? && working[id] == Batch(keys, size, id))
    && (forall id :: 0 <= id < |results| && results[id].Some? ==>
         id < sent && results[id].value == Result(id, Fetch(answers(id), Batch(keys, size, id))))
    && (forall id: nat :: id < sent && results[id].None? ==> id in working)
  }

  function Got(results: seq<Option<Result>>): set<nat> {
    set id: nat | id < |results| && results[id].Some?
  }

  lemma SendKeeps(answers: nat -> Answer, keys: seq<Key>, size: nat, sent: nat, working: map<nat, seq<Key>>, results: seq<Option<Result>>)
    requires Sound(answers, keys, size, sent, working, results) && sent < |results|
    ensures Sound(answers, keys, size, sent + 1, working[sent := Batch(keys, size, sent)], results)
    ensures sent !in working
  {
    hide Batch;
  }

  lemma OneMore(working: map<nat, seq<Key>>, id: nat, keys: seq<Key>)
    requires id !in working
    ensures |working[id := keys].Keys| == |working.Keys| + 1
  {
    assert working[id := keys].Keys == working.Keys + {id};
  }

  lemma ReceiveKeeps(answers: nat -> Answer, keys: seq<Key>, size: nat, sent: nat, working: map<nat, seq<Key>>,
    results: seq<Option<Result>>, id: nat)
    requires Sound(answers, keys, size, sent, working, results) && id in working
    ensures id < |results| && results[id].None?
    ensures Sound(answers, keys, size, sent, working - {id}, results[id := Some(Result(id, Fetch(answers(id), working[id])))])
    ensures |(working - {id}).Keys| == |working.Keys| - 1
    ensures Got(results[id := Some(Result(id, Fetch(answers(id), working[id])))]) == Got(results) + {id}
  {
    hide Batch, Fetch;
    assert (working - {id}).Keys == working.Keys - {id};
  }

  /** Nobody working and nothing left to hand out: every answer is in. */
  lemma AllIn(answers: nat -> Answer, keys: seq<Key>, size: nat, working: map<nat, seq<Key>>, results: seq<Option<Result>>)
    requires Sound(answers, keys, size, |results|, working, results) && |working.Keys| == 0
    ensures All(Got(results), |results|)
  {
  }

  /** One of the workers, whichever is first, gets its answer to the collector. */
  method Receive(answers: nat -> Answer, keys: seq<Key>, size: nat, ghost sent: nat, working: map<nat, seq<Key>>, results: array<Option<Result>>)
    returns (left: map<nat, seq<Key>>)
    requires Sound(answers, keys, size, sent, working, results[..]) && working.Keys != {}
    modifies results
    ensures Sound(answers, keys, size, sent, left, results[..])
    ensures |left.Keys| == |working.Keys| - 1 && left.Keys < working.Keys
    ensures exists id :: id in working.Keys && Got(results[..]) == old(Got(results[..])) + {id}
  {
    hide Batch, Sound, Got, Fetch;
    var id :| id in working;
    ReceiveKeeps(answers, keys, size, sent, working, results[..], id);
    var lists := FetchKeys(answers(id), working[id]);
    ghost var before := results[..];
    results[id] := Some(Result(id, lists));
    left := working - {id};
    assert results[..] == before[id := Some(Result(id, lists))];
  }

  /** Appends the lists of the answers that are there, in batch order. */
  method Collate(answers: nat -> Answer, keys: seq<Key>, size: nat, results: array<Option<Result>>, ghost sent: nat, ghost working: map<nat, seq<Key>>)
    returns (r: Fetched)
    requires Sound(answers, keys, size, sent, working, results[..])
    ensures r == Merged(answers, keys, size, Got(results[..]), results.Length)
  {
    hide Batch, Fetch;
    r := NOTHING;
    for n := 0 to results.Length
      invariant r == Merged(answers, keys, size, Got(results[..]), n)
    {
      assert n in Got(results[..]) <==> results[..][n].Some?;
      if results[n].Some? {
        r := r.Plus(results[n].value.lists);
      } else {
        assert r == r.Plus(NOTHING);
      }
    }
  }

  /**
    The producer hands a batch to an idle worker, a worker's answer reaches the collector,
    or the client quits, in any order; until all answers are in, one of the first two can
    happen.
   */
  method RunPool(answers: nat -> Answer, keys: seq<Key>, size: nat, parallelism: nat, mayQuit: bool, results: array<Option<Result>>)
    returns (quit: bool, ghost sent: nat, ghost working: map<nat, seq<Key>>)
    requires size > 0 && parallelism > 0 && results.Length == NumResults(keys, size)
    requires forall id :: 0 <= id < results.Length ==> results[id].None?
    modifies results
    ensures Sound(answers, keys, size, sent, working, results[..])
    ensures quit ==> mayQuit
    ensures !quit ==> sent == results.Length && |working.Keys| == 0
  {
    hide Batch, Sound, Got, Fetch, NumResults, SentUpTo, Min;
    var i, next, received := 0, 0, 0;
    var busy: map<nat, seq<Key>> := map[];
    quit := false;
    StartSound(answers, keys, size, results[..]);
    NoneSent(size);
    while received < results.Length && !quit
      invariant 0 <= received <= results.Length && i == SentUpTo(next, size) && next <= results.Length
      invariant received + |busy.Keys| == next && |busy.Keys| <= parallelism
      invariant Sound(answers, keys, size, next, busy, results[..])
      invariant quit ==> mayQuit
      decreases !quit, results.Length - next, results.Length - received
    {
      var stop: bool := *;
      if mayQuit && stop {
        quit := true;
      } else {
        LeftToSend(keys, size, i, next);
        if
        case i < |keys| && |busy.Keys| < parallelism =>
          BatchIs(keys, size, i, next);
          SendKeeps(answers, keys, size, next, busy, results[..]);
          OneMore(busy, next, Batch(keys, size, next));
          busy := busy[next := keys[i..Min(i + size, |keys|)]];
          i, next := i + size, next + 1;
        case busy.Keys != {} =>
          busy := Receive(answers, keys, size, next, busy, results);
          received := received + 1;
      }
    }
    sent, working := next, busy;
  }

  /** fetchKeysBatched: the lists of the answers received, which are all of them unless the client quits. */
  method FetchKeysBatched(answers: nat -> Answer, keys: seq<Key>, size: nat, parallelism: nat, mayQuit: bool)
    returns (r: Fetched, got: set<nat>, quit: bool)
    requires size > 0 && parallelism > 0
    ensures r == Merged(answers, keys, size, got, NumResults(keys, size))
    ensures !quit ==> All(got, NumResults(keys, size))
    ensures quit ==> mayQuit
  {
    hide Batch, Sound, Got, Merged, All, Fetch, NumResults;
    var results := new Option<Result>[NumResults(keys, size)](_ => None);
    ghost var sent, working;
    quit, sent, working := RunPool(answers, keys, size, parallelism, mayQuit, results);
    if !quit {
      AllIn(answers, keys, size, working, results[..]);
    }
    r := Collate(answers, keys, size, results, sent, working);
    got := Got(results[..]);
  }

  /** Each request that Fetch makes is answered from one store. */
  ghost predicate OneStore(answers: nat -> Answer, items: map<Key, Buf>, keys: seq<Key>, size: nat) {
    if size == 0 then Agrees(answers(0), items, keys) else Served(answers, items, keys, size, NumResults(keys, size))
  }

  /** Fetch: batches unless the batch size is zero, and the caller cannot tell. */
  method FetchAll(answers: nat -> Answer, keys: seq<Key>, size: nat, parallelism: nat, mayQuit: bool, ghost items: map<Key, Buf>)
    returns (r: Fetched, quit: bool)
    requires size > 0 ==> parallelism > 0
    ensures quit ==> mayQuit
    ensures !quit ==> Partitions(r, keys)
    ensures !quit && OneStore(answers, items, keys, size) ==> r == Lookup(items, keys)
  {
    hide Merged, All, Fetch, NumResults, Partitions, Agrees, Served;
    if size == 0 {
      r := FetchKeys(answers(0), keys);
      FetchPartitions(answers(0), keys);
      if Agrees(answers(0), items, keys) {
        FetchAgrees(answers(0), items, keys);
      }
      return r, false;
    }
    var got;
    r, got, quit := FetchKeysBatched(answers, keys, size, parallelism, mayQuit);
    if !quit {
      BatchedPartitions(answers, keys, size, got);
      if Served(answers, items, keys, size, NumResults(keys, size)) {
        StoreAgrees(items, keys);
        BatchedIsUnbatched(answers, items, keys, size, got, Some(items));
      }
    }
  }

  lemma StoreAgrees(items: map<Key, Buf>, keys: seq<Key>)
    ensures Agrees(Some(items), items, keys)
  {
  }

  lemma StartSound(answers: nat -> Answer, keys: seq<Key>, size: nat, results: seq<Option<Result>>)
    requires forall id :: 0 <= id < |results| ==> results[id].None?
    ensures Sound(answers, keys, size, 0, map[], results)
  {
  }

  /** The producer's index when it has handed out this many batches. */
  ghost function SentUpTo(sent: nat, size: nat): nat {
    sent * size
  }

  lemma NoneSent(size: nat)
    ensures 0 == SentUpTo(0, size)
  {
  }

  lemma LeftToSend(keys: seq<Key>, size: nat, i: int, sent: nat)
    requires size > 0 && i == SentUpTo(sent, size)
    ensures i >= 0 && (i < |keys| <==> sent < NumResults(keys, size))
  {
    CountIsBatches(keys, size, sent);
  }

  lemma BatchIs(keys: seq<Key>, size: nat, i: int, sent: nat)
    requires i == SentUpTo(sent, size) && 0 <= i < |keys|
    ensures i <= Min(i + size, |keys|) <= |keys|
    ensures Batch(keys, size, sent) == keys[i..Min(i + size, |keys|)]
    ensures i + size == SentUpTo(sent + 1, size)
  {
  }
}
