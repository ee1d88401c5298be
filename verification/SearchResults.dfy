/**
  Results of a parallel search (pkg/search/results.go): workers, the goroutine that closes
  the results channel, callers of Close and the consumer, interleaved in any order.
 */
module SearchResults {

  type Result = nat

  /**
    Running: between calls. Sending: in AddResult, past the quit check. Handed: the
    consumer has the value, AddResult has not returned yet.
   */
  datatype Status = Running | Sending(r: Result) | Handed(r: Result) | Finished

  /** A worker and the results for which AddResult returned false to it. */
  datatype Worker = Worker(status: Status, added: seq<Result>)

  /** The goroutine of AllWorkersStarted: in Wait, past it, or done. */
  datatype Closer = None | Waiting | Woken | Closed

  datatype Consumer = Draining | Ended | Left

  datatype Delivery = Delivery(worker: nat, r: Result)

  datatype State = State(
    workers: map<nat, Worker>,
    wg: int,
    started: bool,
    closer: Closer,
    resultsCloses: nat,
    quit: bool,
    closing: bool,
    doneCloses: nat,
    cancelled: bool,
    consumer: Consumer,
    received: seq<Delivery>,
    late: bool)  // history: a worker was started after the closing goroutine had passed its wait

  const INIT := State(map[], 0, false, None, 0, false, false, 0, false, Draining, [], false)

  datatype Action =
    | StartWorker(w: nat)
    | AllWorkersStarted
    | WaitReturns
    | CloseResults
    | AddResult(w: nat, r: Result)
    | HandOver(w: nat)
    | ReturnAdded(w: nat)
    | ReturnQuit(w: nat)
    | FinishWorker(w: nat)
    | CloseSwap
    | CloseDone
    | Cancel
    | RangeEnds
    | ConsumerLeaves

  predicate Has(s: State, w: nat, status: Status) {
    w in s.workers && s.workers[w].status == status
  }

  predicate IsSending(s: State, w: nat) {
    w in s.workers && s.workers[w].status.Sending?
  }

  predicate Active(s: State, w: nat) {
    w in s.workers && !s.workers[w].status.Finished?
  }

  /** What the code allows to happen next. */
  predicate Possible(s: State, a: Action) {
    match a
    case StartWorker(w) => w !in s.workers
    case AllWorkersStarted => true
    case WaitReturns => s.closer.Waiting? && s.wg == 0
    case CloseResults => s.closer.Woken?
    case AddResult(w, _) => Has(s, w, Running)
    case HandOver(w) => IsSending(s, w) && s.consumer.Draining?
    case ReturnAdded(w) => w in s.workers && s.workers[w].status.Handed?
    case ReturnQuit(w) => IsSending(s, w) && (s.cancelled || s.doneCloses > 0)
    case FinishWorker(w) => Has(s, w, Running)
    case CloseSwap => true
    case CloseDone => s.closing
    case Cancel => true
    case RangeEnds => s.consumer.Draining? && s.resultsCloses > 0
    case ConsumerLeaves => s.consumer.Draining?
  }

  /** The goroutine that closes the results channel no longer waits for workers. */
  predicate PastWait(s: State) {
    s.closer.Woken? || s.closer.Closed?
  }

  /**
    What callers must keep to: a worker is started while the closing goroutine would still
    wait for it, or when it will not send because Close was called. Starting all workers
    before AllWorkersStarted, as the source asks, is one way to do so.
   */
  predicate Obeys(s: State, a: Action) {
    a.StartWorker? ==> s.quit || !PastWait(s)
  }

  function SetStatus(s: State, w: nat, status: Status): State
    requires w in s.workers
  {
    s.(workers := s.workers[w := s.workers[w].(status := status)])
  }

  function Next(s: State, a: Action): State
    requires Possible(s, a)
  {
    match a
    case StartWorker(w) => s.(workers := s.workers[w := Worker(Running, [])], wg := s.wg + 1, late := s.late || PastWait(s))
    case AllWorkersStarted => if s.started then s else s.(started := true, closer := Waiting)
    case WaitReturns => s.(closer := Woken)
    case CloseResults => s.(closer := Closed, resultsCloses := s.resultsCloses + 1)
    case AddResult(w, r) => if s.quit then s else SetStatus(s, w, Sending(r))
    case HandOver(w) =>
      var r := s.workers[w].status.r;
      SetStatus(s, w, Handed(r)).(received := s.received + [Delivery(w, r)])
    case ReturnAdded(w) =>
      s.(workers := s.workers[w := Worker(Running, s.workers[w].added + [s.workers[w].status.r])])
    case ReturnQuit(w) => SetStatus(s, w, Running)
    case FinishWorker(w) => SetStatus(s, w, Finished).(wg := s.wg - 1)
    case CloseSwap => if s.quit then s else s.(quit := true, closing := true)
    case CloseDone => s.(closing := false, doneCloses := s.doneCloses + 1)
    case Cancel => s.(cancelled := true)
    case RangeEnds => s.(consumer := Ended)
    case ConsumerLeaves => s.(consumer := Left)
  }

  ghost predicate Legal(s: State, run: seq<Action>)
    decreases |run|
  {
    run == [] || (Possible(s, run[0]) && Obeys(s, run[0]) && Legal(Next(s, run[0]), run[1..]))
  }

  ghost function After(s: State, run: seq<Action>): State
    requires Legal(s, run)
    decreases |run|
  {
    if run == [] then s else After(Next(s, run[0]), run[1..])
  }

  // ---------- Invariant ----------

  /** A panic: a channel closed twice, a send on a closed channel, a negative wait group. */
  ghost predicate Broken(s: State) {
    s.resultsCloses > 1 || s.doneCloses > 1 || s.wg < 0 || (s.resultsCloses > 0 && exists w :: IsSending(s, w))
  }

  ghost function ActiveWorkers(s: State): set<nat> {
    set w | w in s.workers && Active(s, w)
  }

  /** What the consumer received from a worker, in order. */
  ghost function From(received: seq<Delivery>, w: nat): seq<Result> {
    if received == [] then []
    else
      var last := received[|received| - 1];
      From(received[..|received| - 1], w) + if last.worker == w then [last.r] else []
  }

  function HandedOver(worker: Worker): seq<Result> {
    worker.added + if worker.status.Handed? then [worker.status.r] else []
  }

  ghost predicate Counts(s: State) {
    s.wg == |ActiveWorkers(s)|
  }

  ghost predicate Channels(s: State) {
    && (s.started <==> !s.closer.None?)
    && s.resultsCloses == (if s.closer.Closed? then 1 else 0)
    && (PastWait(s) ==> forall w :: w in ActiveWorkers(s) ==> s.late && s.workers[w].status.Running?)
    && (s.late ==> s.quit)
    && s.doneCloses == (if s.quit && !s.closing then 1 else 0)
    && (s.closing ==> s.quit)
    && (s.consumer.Ended? ==> s.resultsCloses > 0)
  }

  ghost predicate Delivered(s: State) {
    && (forall w :: w in s.workers ==> From(s.received, w) == HandedOver(s.workers[w]))
    && (forall i :: 0 <= i < |s.received| ==> s.received[i].worker in s.workers)
  }

  ghost predicate Inv(s: State) {
    Counts(s) && Channels(s) && Delivered(s)
  }

  lemma {:induction false} FromNobody(received: seq<Delivery>, w: nat)
    requires forall i :: 0 <= i < |received| ==> received[i].worker != w
    ensures From(received, w) == []
  {
    if received != [] {
      FromNobody(received[..|received| - 1], w);
    }
  }

  lemma StartKeeps(s: State, w: nat)
    requires Inv(s) && w !in s.workers && (s.quit || !PastWait(s))
    ensures Inv(Next(s, StartWorker(w)))
  {
    var t := Next(s, StartWorker(w));
    assert ActiveWorkers(t) == ActiveWorkers(s) + {w};
    FromNobody(s.received, w);
  }

  lemma FinishKeeps(s: State, w: nat)
    requires Inv(s) && Has(s, w, Running)
    ensures Inv(Next(s, FinishWorker(w)))
  {
    var t := Next(s, FinishWorker(w));
    assert w in ActiveWorkers(s);
    assert ActiveWorkers(t) == ActiveWorkers(s) - {w};
  }

  /** Replacing a worker at work by one that is still at work keeps the count and the channels. */
  lemma SameActive(s: State, t: State, w: nat)
    requires Counts(s) && Channels(s) && Active(s, w) && Active(t, w)
    requires t.workers == s.workers[w := t.workers[w]] && t == s.(workers := t.workers, received := t.received)
    requires PastWait(s) ==> t.workers[w].status.Running?
    ensures Counts(t) && Channels(t)
  {
    assert ActiveWorkers(t) == ActiveWorkers(s);
  }

  lemma HandOverKeeps(s: State, w: nat)
    requires Inv(s) && Possible(s, HandOver(w))
    ensures Inv(Next(s, HandOver(w)))
  {
    var t := Next(s, HandOver(w));
    assert w in ActiveWorkers(s);
    SameActive(s, t, w);
    assert t.received[..|t.received| - 1] == s.received;
    forall v | v in t.workers ensures From(t.received, v) == HandedOver(t.workers[v]) {
      assert From(s.received, v) == HandedOver(s.workers[v]);
    }
  }

  lemma WorkerKeeps(s: State, a: Action)
    requires Inv(s) && Possible(s, a) && (a.AddResult? || a.ReturnAdded? || a.ReturnQuit?)
    ensures Inv(Next(s, a))
  {
    var t := Next(s, a);
    if t != s {
      assert a.w in ActiveWorkers(s);
      SameActive(s, t, a.w);
    }
    assert HandedOver(t.workers[a.w]) == HandedOver(s.workers[a.w]);
  }

  lemma CloserKeeps(s: State, a: Action)
    requires Inv(s) && Possible(s, a)
    requires !(a.AddResult? || a.HandOver? || a.ReturnAdded? || a.ReturnQuit? || a.StartWorker? || a.FinishWorker?)
    ensures Inv(Next(s, a))
  {
    var t := Next(s, a);
    assert ActiveWorkers(t) == ActiveWorkers(s);
  }

  lemma StepKeeps(s: State, a: Action)
    requires Inv(s) && Possible(s, a) && Obeys(s, a)
    ensures Inv(Next(s, a))
  {
    match a
    case StartWorker(w) => StartKeeps(s, w);
    case FinishWorker(w) => FinishKeeps(s, w);
    case AddResult(_, _) => WorkerKeeps(s, a);
    case HandOver(w) => HandOverKeeps(s, w);
    case ReturnAdded(_) => WorkerKeeps(s, a);
    case ReturnQuit(_) => WorkerKeeps(s, a);
    case _ => CloserKeeps(s, a);
  }

  lemma {:induction false} RunKeeps(s: State, run: seq<Action>)
    requires Inv(s) && Legal(s, run)
    ensures Inv(After(s, run))
    decreases |run|
  {
    if run != [] {
      StepKeeps(s, run[0]);
      RunKeeps(Next(s, run[0]), run[1..]);
    }
  }

  // ---------- What runs guarantee ----------

  lemma InvNotBroken(s: State)
    requires Inv(s)
    ensures !Broken(s)
  {
    forall w | IsSending(s, w) ensures s.resultsCloses == 0 {
      assert w in ActiveWorkers(s);
    }
  }

  /** No run of callers who keep to that panics. */
  lemma NeverBroken(run: seq<Action>)
    requires Legal(INIT, run)
    ensures !Broken(After(INIT, run))
  {
    InitHolds();
    RunKeeps(INIT, run);
    InvNotBroken(After(INIT, run));
  }

  lemma InitHolds()
    ensures Inv(INIT)
  {
    assert ActiveWorkers(INIT) == {};
  }

  /**
    A consumer that ranges to the end has, from each worker and in the worker's order,
    exactly the results whose AddResult reported success, and no worker is still at work.
   */
  lemma DrainedExactly(run: seq<Action>, w: nat)
    requires Legal(INIT, run) && After(INIT, run).consumer.Ended?
    ensures var s := After(INIT, run);
      From(s.received, w) == if w in s.workers then s.workers[w].added else []
    ensures var s := After(INIT, run); w in s.workers && !s.late ==> s.workers[w].status.Finished?
    ensures var s := After(INIT, run); w in s.workers ==> s.workers[w].status.Finished? || (s.quit && s.workers[w].status.Running?)
  {
    InitHolds();
    RunKeeps(INIT, run);
    var s := After(INIT, run);
    if w in s.workers {
      assert w in ActiveWorkers(s) <==> !s.workers[w].status.Finished?;
    } else {
      FromNobody(s.received, w);
    }
  }

  /** The same results for the same workers; others may have come, but too late to add any. */
  ghost predicate SameResults(s: State, t: State) {
    && t.received == s.received
    && (forall w :: w in s.workers ==> w in t.workers && t.workers[w].added == s.workers[w].added)
    && (forall w :: w in t.workers && w !in s.workers ==> t.workers[w].added == [])
    && (!t.late ==> t.workers == s.workers)
  }

  lemma EndedStep(s: State, a: Action)
    requires Inv(s) && s.consumer.Ended? && Possible(s, a) && Obeys(s, a)
    ensures SameResults(s, Next(s, a)) && Next(s, a).consumer.Ended? && (s.late ==> Next(s, a).late)
  {
    forall v | v in s.workers ensures s.workers[v].status.Finished? || (s.late && s.workers[v].status.Running?) {
      assert v in ActiveWorkers(s) <==> !s.workers[v].status.Finished?;
    }
    assert !a.HandOver? && !a.ReturnAdded? && !a.ReturnQuit?;
  }

  lemma SameTwice(s: State, t: State, u: State)
    requires SameResults(s, t) && SameResults(t, u) && (t.late ==> u.late)
    ensures SameResults(s, u)
  {
  }

  /** Once ended, it stays that way: nothing is delivered or reported as added any more. */
  lemma {:induction false} EndedStays(s: State, run: seq<Action>)
    requires Inv(s) && Legal(s, run) && s.consumer.Ended?
    ensures SameResults(s, After(s, run)) && (s.late ==> After(s, run).late)
    decreases |run|
  {
    hide Inv, Possible, Obeys, Next, SameResults;
    if run == [] {
      assert SameResults(s, s) by { SameSelf(s); }
    } else {
      EndedStep(s, run[0]);
      StepKeeps(s, run[0]);
      EndedStays(Next(s, run[0]), run[1..]);
      SameTwice(s, Next(s, run[0]), After(s, run));
    }
  }

  lemma SameSelf(s: State)
    ensures SameResults(s, s)
  {
  }

  lemma NoNewSender(s: State, a: Action, w: nat)
    requires s.quit && Possible(s, a) && IsSending(Next(s, a), w)
    ensures IsSending(s, w)
  {
  }

  lemma QuitStays(s: State, a: Action)
    requires s.quit && Possible(s, a)
    ensures Next(s, a).quit
  {
    match a
    case AddResult(w, r) =>
    case HandOver(w) => assert SetStatus(s, w, Handed(s.workers[w].status.r)).quit;
    case ReturnQuit(w) => assert SetStatus(s, w, Running).quit;
    case FinishWorker(w) => assert SetStatus(s, w, Finished).quit;
    case _ =>
  }

  /** After Close no worker enters a blocking send, and one that is in it can return by itself. */
  lemma ClosedFrees(s: State, a: Action, w: nat)
    requires Channels(s) && s.quit && Possible(s, a)
    ensures Next(s, a).quit
    ensures IsSending(Next(s, a), w) ==> IsSending(s, w)
    ensures IsSending(s, w) ==> if s.closing then Possible(s, CloseDone) else Possible(s, ReturnQuit(w))
  {
    hide Next;
    QuitStays(s, a);
    if IsSending(Next(s, a), w) {
      NoNewSender(s, a, w);
    }
  }

  /** So from Close on the workers in a send only become fewer. */
  lemma {:induction false} SendingShrinks(s: State, run: seq<Action>, w: nat)
    requires Inv(s) && s.quit && Legal(s, run)
    ensures After(s, run).quit && (IsSending(After(s, run), w) ==> IsSending(s, w))
    decreases |run|
  {
    hide Possible, Obeys, Next, Counts, Channels, Delivered;
    if run != [] {
      ClosedFrees(s, run[0], w);
      StepKeeps(s, run[0]);
      SendingShrinks(Next(s, run[0]), run[1..], w);
    }
  }

  /** Steps of workers already started and of the goroutines that close channels, not of new callers. */
  predicate OfWorkers(a: Action) {
    a.WaitReturns? || a.CloseResults? || a.HandOver? || a.ReturnAdded? || a.ReturnQuit? || a.FinishWorker? || a.CloseDone?
  }

  /** With a consumer there, or after Close, somebody can always take a step until the results channel is closed. */
  lemma NoDeadlock(s: State)
    requires Inv(s) && s.started && s.resultsCloses == 0 && (s.consumer.Draining? || s.quit || s.cancelled)
    ensures exists a :: Possible(s, a) && OfWorkers(a) && Next(s, a) != s
  {
    var a: Action;
    if s.closer.Woken? {
      a := CloseResults;
    } else if ActiveWorkers(s) == {} {
      a := WaitReturns;
    } else {
      var w :| w in ActiveWorkers(s);
      match s.workers[w].status
      case Running => a := FinishWorker(w);
      case Sending(_) => a := if s.consumer.Draining? then HandOver(w) else if s.closing then CloseDone else ReturnQuit(w);
      case Handed(_) => a := ReturnAdded(w);
    }
    assert Possible(s, a) && OfWorkers(a) && Next(s, a) != s;
  }

  // ---------- What the calls bring about ----------

  lemma LegalOne(s: State, a: Action)
    requires Possible(s, a) && Obeys(s, a)
    ensures Legal(s, [a]) && After(s, [a]) == Next(s, a)
  {
    assert [a][1..] == [];
  }

  lemma LegalTwo(s: State, a: Action, b: Action)
    requires Possible(s, a) && Obeys(s, a) && Possible(Next(s, a), b) && Obeys(Next(s, a), b)
    ensures Legal(s, [a, b]) && After(s, [a, b]) == Next(Next(s, a), b)
  {
    assert [a, b][1..] == [b];
    LegalOne(Next(s, a), b);
  }

  lemma LegalThree(s: State, a: Action, b: Action, c: Action)
    requires Possible(s, a) && Obeys(s, a) && Possible(Next(s, a), b) && Obeys(Next(s, a), b)
    requires Possible(Next(Next(s, a), b), c) && Obeys(Next(Next(s, a), b), c)
    ensures Legal(s, [a, b, c]) && After(s, [a, b, c]) == Next(Next(Next(s, a), b), c)
  {
    assert [a, b, c][1..] == [b, c];
    LegalTwo(Next(s, a), b, c);
  }

  /** The steps that let a worker out of AddResult after Close. */
  function WayOut(s: State, w: nat): seq<Action> {
    if s.closing then [CloseDone, ReturnQuit(w)] else [ReturnQuit(w)]
  }

  lemma LeavesSend(s: State, w: nat)
    requires IsSending(s, w) && (s.closing || s.doneCloses > 0)
    ensures Legal(s, WayOut(s, w)) && Has(After(s, WayOut(s, w)), w, Running)
  {
    if s.closing {
      LegalTwo(s, CloseDone, ReturnQuit(w));
    } else {
      LegalOne(s, ReturnQuit(w));
    }
  }

  /** Close signals quit for good, and every worker that is sending gets out by itself. */
  lemma CloseWorks(s: State, w: nat)
    requires Inv(s)
    ensures var t := Next(s, CloseSwap);
      && t.quit && (t.closing || t.doneCloses == 1)
      && (IsSending(s, w) ==> IsSending(t, w) && Legal(t, WayOut(t, w)) && Has(After(t, WayOut(t, w)), w, Running))
  {
    hide WayOut, After, Legal;
    var t := Next(s, CloseSwap);
    if IsSending(s, w) {
      LeavesSend(t, w);
    }
  }

  /** When the done channel is being closed, it is closed. */
  lemma CloseEnds(s: State)
    requires Inv(s) && s.closing
    ensures Possible(s, CloseDone) && Next(s, CloseDone).doneCloses == 1 && !Next(s, CloseDone).closing && Next(s, CloseDone).quit
  {
  }

  /** A cancelled context lets every sending worker out. */
  lemma CancelWorks(s: State, w: nat)
    requires IsSending(s, w)
    ensures var t := Next(s, Cancel);
      t.cancelled && IsSending(t, w) && Possible(t, ReturnQuit(w)) && Has(Next(t, ReturnQuit(w)), w, Running)
  {
  }

  /** AddResult, taken by a consumer that is there, delivers the result and reports success, unless Close was called. */
  lemma AddWorks(s: State, w: nat, r: Result)
    requires Has(s, w, Running) && s.consumer.Draining? && !s.quit
    ensures var run := [AddResult(w, r), HandOver(w), ReturnAdded(w)];
      && Legal(s, run)
      && var t := After(s, run);
         t == s.(workers := s.workers[w := Worker(Running, s.workers[w].added + [r])], received := s.received + [Delivery(w, r)])
  {
    LegalThree(s, AddResult(w, r), HandOver(w), ReturnAdded(w));
  }

  /** Results go to a consumer that is there. */
  lemma DeliveryNeedsConsumer(s: State, a: Action)
    requires Possible(s, a)
    ensures Next(s, a).received == s.received || (a.HandOver? && s.consumer.Draining?)
  {
    match a
    case HandOver(w) => assert s.consumer.Draining?;
    case AddResult(w, r) => assert SetStatus(s, w, Sending(r)).received == s.received;
    case ReturnQuit(w) => assert SetStatus(s, w, Running).received == s.received;
    case FinishWorker(w) => assert SetStatus(s, w, Finished).received == s.received;
    case _ =>
  }

  /** AddResult gives up a result only after Close or cancellation. */
  lemma QuitNeedsReason(s: State, a: Action, w: nat)
    requires Possible(s, a) && IsSending(s, w) && !IsSending(Next(s, a), w)
    ensures s.cancelled || s.doneCloses > 0 || Has(Next(s, a), w, Handed(s.workers[w].status.r))
  {
  }

  /** After Close AddResult returns at once and nothing changes. */
  lemma AddQuits(s: State, w: nat, r: Result)
    requires Has(s, w, Running) && s.quit
    ensures Next(s, AddResult(w, r)) == s
  {
  }

  /** AllWorkersStarted sets the closing goroutine going, once. */
  lemma StartedWorks(s: State)
    requires Inv(s)
    ensures var t := Next(s, AllWorkersStarted);
      t.started && !t.closer.None? && (s.started ==> t == s) && (!s.started ==> t.closer.Waiting?)
  {
  }

  /** When all workers have finished, it closes the results channel, and a consumer that is still there ends. */
  lemma DrainEnds(s: State)
    requires Inv(s) && s.closer.Waiting? && s.wg == 0 && s.consumer.Draining?
    ensures var run := [WaitReturns, CloseResults, RangeEnds];
      Legal(s, run) && After(s, run).consumer.Ended? && After(s, run).resultsCloses == 1 && After(s, run).received == s.received
  {
    LegalThree(s, WaitReturns, CloseResults, RangeEnds);
  }

  /** A worker is counted from StartWorker to FinishWorker. */
  lemma WorkerCounts(s: State, w: nat)
    ensures w !in s.workers ==>
      var t := Next(s, StartWorker(w)); Has(t, w, Running) && t.wg == s.wg + 1 && t.workers[w].added == []
    ensures Has(s, w, Running) ==>
      var t := Next(s, FinishWorker(w)); Has(t, w, Finished) && t.wg == s.wg - 1 && t.workers[w].added == s.workers[w].added
  {
  }

  // ---------- When a worker may be started ----------

  /** Some continuation in which callers keep to the rule ends in a panic. */
  ghost predicate MayBreak(s: State) {
    exists run :: Legal(s, run) && Broken(After(s, run))
  }

  /** The failing half: the worker sends, and the channel is or gets closed under it. */
  lemma LateWorkerBreaks(s: State, w: nat)
    requires Inv(s) && w !in s.workers && !s.quit && PastWait(s)
    ensures MayBreak(Next(s, StartWorker(w)))
  {
    var t := Next(s, StartWorker(w));
    var u := Next(t, AddResult(w, 0));
    assert IsSending(u, w);
    if s.closer.Closed? {
      LegalOne(t, AddResult(w, 0));
      assert Broken(After(t, [AddResult(w, 0)]));
    } else {
      LegalTwo(t, AddResult(w, 0), CloseResults);
      assert IsSending(Next(u, CloseResults), w);
      assert Broken(After(t, [AddResult(w, 0), CloseResults]));
    }
  }

  /** Starting a worker can lead to a panic if and only if the closing goroutine is past its wait and Close was not called. */
  lemma LateStartIff(s: State, w: nat)
    requires Inv(s) && w !in s.workers
    ensures MayBreak(Next(s, StartWorker(w))) <==> PastWait(s) && !s.quit
  {
    if PastWait(s) && !s.quit {
      LateWorkerBreaks(s, w);
    } else {
      StartKeeps(s, w);
      var t := Next(s, StartWorker(w));
      forall run | Legal(t, run) ensures !Broken(After(t, run)) {
        RunKeeps(t, run);
        InvNotBroken(After(t, run));
      }
    }
  }

  /** What callers can see: before AllWorkersStarted, or while another worker is active, the rule is kept. */
  lemma OrderSuffices(s: State, w: nat)
    requires Inv(s) && (!s.started || s.wg > 0)
    ensures Obeys(s, StartWorker(w))
  {
    if s.wg > 0 {
      var v :| v in ActiveWorkers(s);
    }
  }
}
