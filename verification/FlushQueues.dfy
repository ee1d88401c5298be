/**
  Flush queues (pkg/flushqueues): a priority queue on a binary heap that holds each key
  at most once, and a set of such queues that keeps a key exclusive from Enqueue until
  Clear. Each call is one atomic step.
 */
module FlushQueues {
  import opened Wrappers
  import opened Arithmetic

  type Key = string

  datatype Op = Op(key: Key, priority: int)

  // ---------- The heap ----------

  function Parent(i: nat): nat
    requires i > 0
  {
    (i - 1) / 2
  }

  predicate Heap(q: seq<Op>) {
    forall i :: 0 < i < |q| ==> q[i].priority <= q[Parent(i)].priority
  }

  /** The root of a heap has maximal priority. */
  lemma {:induction false} RootIsMax(q: seq<Op>, i: nat)
    requires Heap(q) && i < |q|
    ensures q[i].priority <= q[0].priority
  {
    if i > 0 {
      RootIsMax(q, Parent(i));
    }
  }

  function Swap(q: seq<Op>, i: nat, j: nat): seq<Op>
    requires i < |q| && j < |q|
  {
    q[i := q[j]][j := q[i]]
  }

  lemma SwapPermutes(q: seq<Op>, i: nat, j: nat)
    requires i < |q| && j < |q|
    ensures multiset(Swap(q, i, j)) == multiset(q) && |Swap(q, i, j)| == |q|
  {
  }

  /** A heap except that j may exceed its parent; the children of j already fit under that parent. */
  ghost predicate HeapButUp(q: seq<Op>, j: nat) {
    && j < |q|
    && (forall i :: 0 < i < |q| && i != j ==> q[i].priority <= q[Parent(i)].priority)
    && (forall i :: 0 < i < |q| && j > 0 && Parent(i) == j ==> q[i].priority <= q[Parent(j)].priority)
  }

  lemma UpStep(q: seq<Op>, j: nat)
    requires HeapButUp(q, j) && j > 0 && q[j].priority > q[Parent(j)].priority
    ensures HeapButUp(Swap(q, Parent(j), j), Parent(j))
  {
    var p, s := Parent(j), Swap(q, Parent(j), j);
    forall i | 0 < i < |s| && i != p ensures s[i].priority <= s[Parent(i)].priority {
      if Parent(i) == p && i != j {
        assert q[i].priority <= q[p].priority;
      }
    }
    forall i | 0 < i < |s| && p > 0 && Parent(i) == p ensures s[i].priority <= s[Parent(p)].priority {
      assert q[p].priority <= q[Parent(p)].priority;
    }
  }

  /** container/heap up: sift the last element towards the root. */
  method Up(q0: seq<Op>, j0: nat) returns (q: seq<Op>)
    requires HeapButUp(q0, j0)
    ensures Heap(q) && multiset(q) == multiset(q0) && |q| == |q0|
  {
    q := q0;
    var j := j0;
    while j > 0 && q[j].priority > q[Parent(j)].priority
      invariant |q| == |q0| && HeapButUp(q, j) && multiset(q) == multiset(q0)
      decreases j
    {
      UpStep(q, j);
      SwapPermutes(q, Parent(j), j);
      q, j := Swap(q, Parent(j), j), Parent(j);
    }
  }

  /** A heap except that j may be below its children; they already fit under the parent of j. */
  ghost predicate HeapButDown(q: seq<Op>, j: nat) {
    && (forall i :: 0 < i < |q| && Parent(i) != j ==> q[i].priority <= q[Parent(i)].priority)
    && (forall i :: 0 < i < |q| && Parent(i) == j && j > 0 && j < |q| ==> q[i].priority <= q[Parent(j)].priority)
  }

  lemma DownStep(q: seq<Op>, i: nat, j: nat)
    requires HeapButDown(q, i) && 0 < j < |q| && Parent(j) == i && q[j].priority > q[i].priority
    requires forall k :: 0 < k < |q| && Parent(k) == i ==> q[k].priority <= q[j].priority
    ensures HeapButDown(Swap(q, i, j), j)
  {
    var s := Swap(q, i, j);
    forall k | 0 < k < |s| && Parent(k) != j ensures s[k].priority <= s[Parent(k)].priority {
      if k == i {
        assert q[j].priority <= q[Parent(i)].priority;
      } else if Parent(k) == i {
        assert q[k].priority <= q[j].priority;
      }
    }
    forall k | 0 < k < |s| && Parent(k) == j ensures s[k].priority <= s[Parent(j)].priority {
      assert q[k].priority <= q[j].priority;
    }
  }

  function LargerChild(q: seq<Op>, i: nat): nat
    requires 2 * i + 1 < |q|
  {
    var j := 2 * i + 1;
    if j + 1 < |q| && q[j + 1].priority > q[j].priority then j + 1 else j
  }

  lemma DownChild(q: seq<Op>, i: nat)
    requires HeapButDown(q, i) && 2 * i + 1 < |q|
    ensures var j := LargerChild(q, i);
      && i < j < |q|
      && (q[j].priority > q[i].priority ==> HeapButDown(Swap(q, i, j), j))
      && (q[j].priority <= q[i].priority ==> Heap(q))
  {
    var j := LargerChild(q, i);
    assert Parent(j) == i;
    forall k | 0 < k < |q| && Parent(k) == i ensures q[k].priority <= q[j].priority {
      assert k == 2 * i + 1 || k == 2 * i + 2;
    }
    if q[j].priority > q[i].priority {
      DownStep(q, i, j);
    }
  }

  lemma DownLeaf(q: seq<Op>, i: nat)
    requires HeapButDown(q, i) && 2 * i + 1 >= |q|
    ensures Heap(q)
  {
  }

  /** container/heap down: sift the root towards the leaves. */
  method Down(q0: seq<Op>) returns (q: seq<Op>)
    requires HeapButDown(q0, 0)
    ensures Heap(q) && multiset(q) == multiset(q0) && |q| == |q0|
  {
    hide Heap, HeapButDown, Swap;
    q := q0;
    var i: nat := 0;
    while 2 * i + 1 < |q|
      invariant |q| == |q0| && HeapButDown(q, i) && multiset(q) == multiset(q0)
      decreases |q| - i
    {
      DownChild(q, i);
      var j := LargerChild(q, i);
      if q[j].priority <= q[i].priority {
        return;
      }
      SwapPermutes(q, i, j);
      q, i := Swap(q, i, j), j;
    }
    DownLeaf(q, i);
  }

  ghost predicate Tops(op: Op, q: seq<Op>) {
    forall x :: x in q ==> x.priority <= op.priority
  }

  method HeapPush(q0: seq<Op>, op: Op) returns (q: seq<Op>)
    requires Heap(q0)
    ensures Heap(q) && multiset(q) == multiset(q0) + multiset{op}
  {
    q := Up(q0 + [op], |q0|);
  }

  method HeapPop(q0: seq<Op>) returns (q: seq<Op>, op: Op)
    requires Heap(q0) && q0 != []
    ensures Heap(q) && op in q0 && multiset(q0) == multiset(q) + multiset{op}
    ensures Tops(op, q0)
  {
    var n := |q0| - 1;
    op := q0[0];
    forall x | x in q0 ensures x.priority <= op.priority {
      var i :| 0 <= i < |q0| && q0[i] == x;
      RootIsMax(q0, i);
    }
    var s := Swap(q0, 0, n);
    SwapPermutes(q0, 0, n);
    assert s == s[..n] + [op];
    assert multiset(q0) == multiset(s[..n]) + multiset{op};
    q := Down(s[..n]);
  }

  // ---------- Keys ----------

  ghost function Keys(m: multiset<Op>): set<Key> {
    set op | op in m :: op.key
  }

  /** Each key occurs at most once. */
  ghost predicate Distinct(m: multiset<Op>) {
    && (forall a :: a in m ==> m[a] == 1)
    && (forall a, b :: a in m && b in m && a.key == b.key ==> a == b)
  }

  lemma KeysAdd(m: multiset<Op>, op: Op)
    ensures Keys(m + multiset{op}) == Keys(m) + {op.key}
    ensures op.key !in Keys(m) && Distinct(m) ==> Distinct(m + multiset{op})
  {
    forall k | k in Keys(m) ensures k in Keys(m + multiset{op}) {
      var x :| x in m && x.key == k;
      assert x in m + multiset{op};
    }
    assert op in m + multiset{op};
    if op.key !in Keys(m) {
      assert forall x :: x in m ==> x.key in Keys(m);
    }
  }

  lemma KeysRemove(rest: multiset<Op>, op: Op)
    requires Distinct(rest + multiset{op})
    ensures Distinct(rest) && Keys(rest) == Keys(rest + multiset{op}) - {op.key} && op.key !in Keys(rest)
  {
    var m := rest + multiset{op};
    assert op in m && m[op] == 1;
    assert forall x :: x in rest ==> x in m && rest[x] == m[x];
    KeysAdd(rest, op);
  }

  lemma Popped(q0: seq<Op>, q: seq<Op>, op: Op)
    requires Distinct(multiset(q0)) && multiset(q0) == multiset(q) + multiset{op}
    ensures Distinct(multiset(q)) && Keys(multiset(q)) == Keys(multiset(q0)) - {op.key}
  {
    hide Keys, Distinct;
    KeysRemove(multiset(q), op);
  }

  lemma NoKeys()
    ensures Keys(multiset{}) == {} && Distinct(multiset{})
  {
  }

  /** Every accepted operation is queued, was delivered or was discarded. */
  ghost predicate Balanced(accepted: multiset<Op>, queue: seq<Op>, delivered: multiset<Op>, discarded: multiset<Op>) {
    accepted == multiset(queue) + delivered + discarded
  }

  lemma Emptied(accepted: multiset<Op>, delivered: multiset<Op>, discarded: multiset<Op>)
    requires Balanced(accepted, [], delivered, discarded)
    ensures accepted == delivered + discarded
  {
  }

  lemma Delivering(accepted: multiset<Op>, q0: seq<Op>, q: seq<Op>, op: Op, delivered: multiset<Op>, discarded: multiset<Op>)
    requires Balanced(accepted, q0, delivered, discarded) && multiset(q0) == multiset(q) + multiset{op}
    ensures Balanced(accepted, q, delivered + multiset{op}, discarded)
  {
  }

  lemma NoKeysNone(m: multiset<Op>)
    ensures Keys(m) == {} <==> m == multiset{}
  {
    if m != multiset{} {
      var op :| op in m;
      assert op.key in Keys(m);
    }
  }

  // ---------- One queue ----------

  class PriorityQueue {
    var closing: bool
    var closed: bool
    var hit: set<Key>
    var queue: seq<Op>

    ghost var accepted: multiset<Op>
    ghost var delivered: multiset<Op>
    ghost var discarded: multiset<Op>

    /**
      The queue is a heap of distinct keys, hit is exactly those keys, and every accepted
      operation is queued, was delivered or was discarded; a closed queue is empty.
     */
    ghost predicate Valid()
      reads this
    {
      && Heap(queue) && Distinct(multiset(queue)) && hit == Keys(multiset(queue))
      && Balanced(accepted, queue, delivered, discarded)
      && (closed ==> queue == [])
    }

    constructor ()
      ensures Valid() && queue == [] && !closing && !closed && accepted == multiset{} == discarded
    {
      closing, closed, hit, queue := false, false, {}, [];
      accepted, delivered, discarded := multiset{}, multiset{}, multiset{};
    }

    method Close()
      requires Valid()
      modifies this
      ensures Valid() && closing && closed == old(closed) && queue == old(queue)
      ensures accepted == old(accepted) && delivered == old(delivered) && discarded == old(discarded)
    {
      closing := true;
    }

    method DiscardAndClose()
      requires Valid()
      modifies this
      ensures Valid() && closed && queue == [] && closing == old(closing)
      ensures accepted == old(accepted) && delivered == old(delivered)
      ensures discarded == old(discarded) + multiset(old(queue))
    {
      hide Keys, Distinct;
      NoKeys();
      discarded := discarded + multiset(queue);
      closed, queue, hit := true, [], {};
    }

    /** Adds the operation unless its key is queued already; an error only on a closed queue. */
    method Enqueue(op: Op) returns (added: bool, err: bool)
      requires Valid()
      modifies this
      ensures Valid() && closing == old(closing) && closed == old(closed) && err == old(closed)
      ensures added == (!old(closed) && op.key !in Keys(multiset(old(queue))))
      ensures multiset(queue) == multiset(old(queue)) + if added then multiset{op} else multiset{}
      ensures accepted == old(accepted) + if added then multiset{op} else multiset{}
      ensures delivered == old(delivered) && discarded == old(discarded)
    {
      hide Heap, Keys, Distinct;
      if closed {
        return false, true;
      }
      if op.key in hit {
        return false, false;
      }
      KeysAdd(multiset(queue), op);
      hit := hit + {op.key};
      queue := HeapPush(queue, op);
      accepted := accepted + multiset{op};
      return true, false;
    }

    /** The step after the wait: an operation of maximal priority, or none and the queue is closed for good. */
    method Dequeue() returns (op: Option<Op>)
      requires Valid()
      requires queue != [] || closing || closed  // otherwise the caller waits
      modifies this`closed, this`hit, this`queue, this`delivered
      ensures Valid()
      ensures op == None <==> old(queue) == []
      ensures op == None ==> closed && queue == [] && delivered == old(delivered)
      ensures op == None ==> accepted == delivered + discarded  // everything accepted has come out
      ensures op.Some? ==> closed == old(closed) && op.value in old(queue)
      ensures op.Some? ==> Tops(op.value, old(queue))
      ensures op.Some? ==> multiset(old(queue)) == multiset(queue) + multiset{op.value}
      ensures op.Some? ==> delivered == old(delivered) + multiset{op.value}
      ensures op.Some? ==> hit == old(hit) - {op.value.key}
    {
      hide Heap, Keys, Distinct, Tops, Balanced;
      if queue == [] {
        Emptied(accepted, delivered, discarded);
        closed := true;
        return None;
      }
      var q, top := HeapPop(queue);
      Popped(queue, q, top);
      Delivering(accepted, queue, q, top, delivered, discarded);
      queue, hit := q, hit - {top.key};
      delivered := delivered + multiset{top};
      return Some(top);
    }
  }

  // ---------- Several queues ----------

  ghost function Sum(ms: seq<multiset<Op>>): multiset<Op> {
    if ms == [] then multiset{} else ms[0] + Sum(ms[1..])
  }

  lemma {:induction false} SumWithin(ms: seq<multiset<Op>>, i: nat)
    requires i < |ms|
    ensures ms[i] <= Sum(ms)
  {
    if i > 0 {
      SumWithin(ms[1..], i - 1);
    }
  }

  lemma {:induction false} SumPlus(ms: seq<multiset<Op>>, i: nat, op: Op)
    requires i < |ms|
    ensures Sum(ms[i := ms[i] + multiset{op}]) == Sum(ms) + multiset{op}
  {
    var more := ms[i := ms[i] + multiset{op}];
    if i == 0 {
      assert more[1..] == ms[1..];
      assert ms[0] + multiset{op} + Sum(ms[1..]) == ms[0] + Sum(ms[1..]) + multiset{op};
    } else {
      assert more[1..] == ms[1..][i - 1 := ms[1..][i - 1] + multiset{op}];
      SumPlus(ms[1..], i - 1, op);
      assert ms[0] + (Sum(ms[1..]) + multiset{op}) == ms[0] + Sum(ms[1..]) + multiset{op};
    }
  }

  lemma SumMinus(ms: seq<multiset<Op>>, i: nat, rest: multiset<Op>, op: Op)
    requires i < |ms| && ms[i] == rest + multiset{op}
    ensures Sum(ms) == Sum(ms[i := rest]) + multiset{op}
  {
    var less := ms[i := rest];
    assert less[i := less[i] + multiset{op}] == ms;
    SumPlus(less, i, op);
  }

  lemma KeysWithin(part: multiset<Op>, all: multiset<Op>)
    requires part <= all
    ensures Keys(part) <= Keys(all)
  {
    assert forall op :: op in part ==> op in all;
  }

  /** Round robin. */
  function Slot(index: nat, n: nat): (i: nat)
    requires n > 0
    ensures i < n
  {
    index % n
  }

  /** As many turns in a row as there are queues go to different queues. */
  lemma SlotsDiffer(index: nat, i: nat, j: nat, n: nat)
    requires i < j < n
    ensures Slot(index + i, n) != Slot(index + j, n)
  {
    var a, b := index + i, index + j;
    if a % n == b % n {
      assert a == a / n * n + a % n && b == b / n * n + b % n;
      MulApart(a / n, b / n, n);
    }
  }

  class ExclusiveQueues {
    const queues: seq<PriorityQueue>
    var index: nat
    var activeKeys: set<Key>
    var stopped: bool

    ghost var queued: seq<multiset<Op>>  // the contents of each queue
    ghost var running: multiset<Op>      // dequeued and neither cleared nor requeued since
    ghost var stuck: set<Key>            // active keys whose operation a closed queue refused

    /** Everything that is queued, running or waiting for a retry. */
    ghost function Outstanding(): multiset<Op>
      reads this`queued, this`running
    {
      Sum(queued) + running
    }

    ghost predicate Mirrored()
      reads this`queued, queues
    {
      && 0 < |queues| == |queued|
      && (forall i, j :: 0 <= i < |queues| && 0 <= j < |queues| && i != j ==> queues[i] != queues[j])
      && (forall i :: 0 <= i < |queues| ==> queues[i].Valid())
      && (forall i :: 0 <= i < |queues| ==> queued[i] == multiset(queues[i].queue))
    }

    /** At most one outstanding operation per key, and the active keys are theirs (or stuck). */
    static ghost predicate Exclusive(active: set<Key>, outstanding: multiset<Op>, stuck: set<Key>) {
      && Distinct(outstanding)
      && active == Keys(outstanding) + stuck
      && stuck !! Keys(outstanding)
    }

    ghost predicate Valid()
      reads this, queues
    {
      Mirrored() && Exclusive(activeKeys, Outstanding(), stuck)
    }

    constructor (n: nat)
      requires n > 0
      ensures Valid() && |queues| == n && Outstanding() == multiset{} && activeKeys == {} && !stopped
      ensures fresh(queues)
    {
      hide Exclusive, Sum, PriorityQueue.Valid;
      var qs := NewQueues(n);
      queues := qs;
      index, activeKeys, stopped := 0, {}, false;
      ghost var none: seq<multiset<Op>> := seq(n, _ => multiset{});
      queued, running, stuck := none, multiset{}, {};
      NoneQueued(none);
      NoneActive();
    }

    static method NewQueues(n: nat) returns (qs: seq<PriorityQueue>)
      ensures |qs| == n && fresh(qs)
      ensures forall i :: 0 <= i < n ==> qs[i].Valid() && qs[i].queue == []
      ensures forall i, j :: 0 <= i < n && 0 <= j < n && i != j ==> qs[i] != qs[j]
    {
      hide Heap, Keys, Distinct, Balanced;
      qs := [];
      while |qs| < n
        invariant |qs| <= n && fresh(qs)
        invariant forall i :: 0 <= i < |qs| ==> qs[i].Valid() && qs[i].queue == []
        invariant forall i, j :: 0 <= i < |qs| && 0 <= j < |qs| && i != j ==> qs[i] != qs[j]
      {
        var q := new PriorityQueue();
        qs := qs + [q];
      }
    }

    static lemma NoneActive()
      ensures Exclusive({}, multiset{} + multiset{}, {})
    {
      NoKeys();
    }

    static lemma {:induction false} NoneQueued(ms: seq<multiset<Op>>)
      requires forall i :: 0 <= i < |ms| ==> ms[i] == multiset{}
      ensures Sum(ms) == multiset{}
    {
      if ms != [] {
        NoneQueued(ms[1..]);
      }
    }

    /** Every queue is told to close; what is queued can still be taken out. */
    method Stop()
      requires Valid()
      modifies this`stopped, queues
      ensures Valid() && stopped && Outstanding() == old(Outstanding()) && activeKeys == old(activeKeys)
      ensures forall i :: 0 <= i < |queues| ==> queues[i].closing
    {
      hide Exclusive, Sum, Mirrored, PriorityQueue.Valid;
      stopped := true;
      for i := 0 to |queues|
        invariant Mirrored() && stopped
        invariant forall k :: 0 <= k < i ==> queues[k].closing
      {
        CloseOne(i);
      }
    }

    method CloseOne(i: nat)
      requires Mirrored() && i < |queues|
      modifies queues[i]
      ensures Mirrored() && queues[i].closing
      ensures forall k :: 0 <= k < |queues| && k != i ==> queues[k].closing == old(queues[k].closing)
    {
      hide PriorityQueue.Valid;
      assert forall k :: 0 <= k < |queues| && k != i ==> queues[k] != queues[i];
      queues[i].Close();
    }

    lemma Sizes()
      requires Mirrored()
      ensures 0 < |queues| == |queued|
    {
    }

    /** Put an operation whose key is active, but not outstanding, on the next queue in turn. */
    method Place(op: Op) returns (err: bool)
      requires Mirrored() && op.key in activeKeys && Exclusive(activeKeys - {op.key}, Outstanding(), stuck)
      modifies this`index, this`queued, this`stuck, queues
      ensures Valid() && index == old(index) + 1
      ensures err == old(queues[Slot(index + 1, |queues|)].closed)
      ensures !err ==> Outstanding() == old(Outstanding()) + multiset{op} && stuck == old(stuck)
      ensures |old(queued)| == |queues|
      ensures queued == if err then old(queued) else var i := Slot(old(index) + 1, |queues|); old(queued)[i := old(queued)[i] + multiset{op}]
      ensures err ==> Outstanding() == old(Outstanding()) && stuck == old(stuck) + {op.key}
    {
      hide Keys, Sum, Exclusive, Slot, Mirrored;
      Sizes();
      index := index + 1;
      var i := Slot(index, |queues|);
      Fits(activeKeys, stuck, queued, running, i, op);
      err := Insert(i, op);
      if err {
        stuck := stuck + {op.key};
      }
    }

    method Insert(i: nat, op: Op) returns (refused: bool)
      requires Mirrored() && i < |queues| && op.key !in Keys(queued[i])
      modifies this`queued, queues
      ensures Mirrored() && refused == old(queues[i].closed)
      ensures queued == if refused then old(queued) else old(queued)[i := old(queued)[i] + multiset{op}]
    {
      hide Keys, Distinct, Heap, Balanced;
      var added, err := queues[i].Enqueue(op);
      if !err {
        queued := queued[i := queued[i] + multiset{op}];
      }
      return err;
    }

    static lemma Fits(active: set<Key>, stuck: set<Key>, queued: seq<multiset<Op>>, running: multiset<Op>, i: nat, op: Op)
      requires i < |queued| && op.key in active && Exclusive(active - {op.key}, Sum(queued) + running, stuck)
      ensures op.key !in Keys(queued[i])
      ensures var more := Sum(queued[i := queued[i] + multiset{op}]) + running;
        more == Sum(queued) + running + multiset{op} && Exclusive(active, more, stuck)
      ensures Exclusive(active, Sum(queued) + running, stuck + {op.key})
    {
      SumWithin(queued, i);
      KeysWithin(queued[i], Sum(queued) + running);
      KeysAdd(Sum(queued) + running, op);
      SumPlus(queued, i, op);
      assert Sum(queued) + multiset{op} + running == Sum(queued) + running + multiset{op};
    }

    /** Accept the operation unless its key is outstanding already. */
    method Enqueue(op: Op) returns (err: bool)
      requires Valid()
      modifies this`index, this`activeKeys, this`queued, this`stuck, queues
      ensures Valid() && activeKeys == old(activeKeys) + {op.key} && running == old(running)
      ensures op.key in old(activeKeys) ==> !err && Outstanding() == old(Outstanding())
      ensures op.key !in old(activeKeys) && !err ==> Outstanding() == old(Outstanding()) + multiset{op}
      ensures err ==> Outstanding() == old(Outstanding())
      ensures op.key !in old(activeKeys) ==> index == old(index) + 1 && err == old(queues[Slot(index + 1, |queues|)].closed)
      ensures |old(queued)| == |queues|
      ensures queued ==
        if op.key in old(activeKeys) || err then old(queued)
        else var i := Slot(old(index) + 1, |queues|); old(queued)[i := old(queued)[i] + multiset{op}]
    {
      hide Keys, Distinct, Sum, Slot, Exclusive, Mirrored, PriorityQueue.Valid;
      Sizes();
      if op.key in activeKeys {
        return false;
      }
      assert activeKeys + {op.key} - {op.key} == activeKeys;
      activeKeys := activeKeys + {op.key};
      err := Place(op);
    }

    /** A retry: the operation comes back under the same key, with a new due time. */
    method Requeue(op: Op, ghost was: Op) returns (err: bool)
      requires Valid() && was in running && was.key == op.key
      modifies this`index, this`queued, this`running, this`stuck, queues
      ensures Valid() && running == old(running) - multiset{was}
      ensures !err ==> Outstanding() == old(Outstanding()) - multiset{was} + multiset{op}
      ensures err ==> Outstanding() == old(Outstanding()) - multiset{was}
      ensures index == old(index) + 1 && err == old(queues[Slot(index + 1, |queues|)].closed)
      ensures |old(queued)| == |queues|
      ensures queued == if err then old(queued) else var i := Slot(old(index) + 1, |queues|); old(queued)[i := old(queued)[i] + multiset{op}]
    {
      hide Keys, Distinct, Sum, Slot, Exclusive, Mirrored, PriorityQueue.Valid;
      Freed(activeKeys, Sum(queued), running, stuck, was);
      running := running - multiset{was};
      err := Place(op);
    }

    /** Without a running operation its key is nobody's. */
    static lemma Freed(active: set<Key>, q: multiset<Op>, running: multiset<Op>, stuck: set<Key>, op: Op)
      requires op in running && Exclusive(active, q + running, stuck)
      ensures op.key in active && q + (running - multiset{op}) == q + running - multiset{op}
      ensures Exclusive(active - {op.key}, q + (running - multiset{op}), stuck)
    {
      hide Keys, Distinct;
      Release(q, running, op);
    }

    static lemma Release(q: multiset<Op>, running: multiset<Op>, op: Op)
      requires op in running && Distinct(q + running)
      ensures q + (running - multiset{op}) == q + running - multiset{op}
      ensures Distinct(q + (running - multiset{op})) && op.key in Keys(q + running)
      ensures Keys(q + (running - multiset{op})) == Keys(q + running) - {op.key}
    {
      var rest := q + (running - multiset{op});
      assert rest + multiset{op} == q + running;
      KeysRemove(rest, op);
      assert op in q + running;
    }

    method Clear(op: Op)
      requires Valid() && op in running
      modifies this`activeKeys, this`running
      ensures Valid() && activeKeys == old(activeKeys) - {op.key} && running == old(running) - multiset{op}
      ensures Outstanding() == old(Outstanding()) - multiset{op}
    {
      hide Keys, Distinct, Sum, Exclusive, Mirrored;
      Freed(activeKeys, Sum(queued), running, stuck, op);
      running := running - multiset{op};
      activeKeys := activeKeys - {op.key};
    }

    /** What was queued is now running: nothing is lost or doubled. */
    method Dequeue(q: nat) returns (op: Option<Op>)
      requires Valid() && q < |queues|
      requires queues[q].queue != [] || queues[q].closing || queues[q].closed
      modifies this, queues
      ensures Valid() && activeKeys == old(activeKeys) && Outstanding() == old(Outstanding())
      ensures op == None <==> old(queues[q].queue) == []
      ensures op.Some? ==> running == old(running) + multiset{op.value}
      ensures op.Some? ==> op.value in old(queues[q].queue) && Tops(op.value, old(queues[q].queue))
      ensures op == None ==> queues[q].closed && running == old(running)
    {
      hide Keys, Distinct, Sum, Exclusive, Mirrored, Tops;
      ghost var rest;
      op, rest := Take(q);
      if op.Some? {
        Moved(old(queued), running, q, rest, op.value);
        running := running + multiset{op.value};
      }
    }

    /** Takes an operation out of one queue; the others stay as they are. */
    method Take(q: nat) returns (op: Option<Op>, ghost rest: multiset<Op>)
      requires Mirrored() && q < |queues|
      requires queues[q].queue != [] || queues[q].closing || queues[q].closed
      modifies this`queued, queues[q]
      ensures Mirrored() && q < |old(queued)|
      ensures op == None <==> old(queues[q].queue) == []
      ensures op == None ==> queues[q].closed && queued == old(queued)
      ensures op.Some? ==> queued == old(queued)[q := rest] && old(queued)[q] == rest + multiset{op.value}
      ensures op.Some? ==> op.value in old(queues[q].queue) && Tops(op.value, old(queues[q].queue))
    {
      hide PriorityQueue.Valid, Tops;
      assert forall k :: 0 <= k < |queues| && k != q ==> queues[k] != queues[q];
      op := queues[q].Dequeue();
      rest := multiset(queues[q].queue);
      if op.Some? {
        queued := queued[q := rest];
      }
    }

    static lemma Moved(queued: seq<multiset<Op>>, running: multiset<Op>, q: nat, rest: multiset<Op>, op: Op)
      requires q < |queued| && queued[q] == rest + multiset{op}
      ensures Sum(queued) + running == Sum(queued[q := rest]) + (running + multiset{op})
    {
      hide Sum;
      SumMinus(queued, q, rest, op);
      assert Sum(queued[q := rest]) + multiset{op} + running == Sum(queued[q := rest]) + (running + multiset{op});
    }

    method IsEmpty() returns (empty: bool)
      requires Valid()
      ensures empty ==> Outstanding() == multiset{}
      ensures Outstanding() == multiset{} && stuck == {} ==> empty
    {
      empty := activeKeys == {};
      NoKeysNone(Outstanding());
    }
  }
}
