/**
  BufferedReaderAt (pkg/io/buffered.go): concurrent ReadAt calls over several buffers
  with two levels of locks. A state machine whose steps are the sections between lock
  operations; while a buffer is being populated its contents are arbitrary.

  Proved for every interleaving of any number of calls: each in-range read returns
  exactly the underlying bytes, and some call can always proceed.
 */
module BufferedReader {
  import opened Wrappers

  type Byte = bv8

  /** A window of the underlying reader, its last use, and the holders of its lock. */
  datatype Buffer = Buffer(off: nat, data: seq<Byte>, count: nat, writer: Option<nat>, readers: set<nat>)

  /** Where a ReadAt call is; the index is that of the buffer it uses. */
  datatype Stage =
    | Start
    | Locked             // holds the top-level lock
    | WaitWrite(i: nat)  // holds the top-level lock, wants the buffer's write lock
    | WaitRead(i: nat)   // holds the top-level lock, wants the buffer's read lock
    | Filling(i: nat)    // holds the write lock
    | Filled(i: nat)     // holds the write lock, contents complete
    | Reading(i: nat)    // holds the read lock
    | Done(bytes: seq<Byte>)

  datatype Call = Call(offset: nat, length: nat, stage: Stage)

  datatype State = State(mtx: Option<nat>, count: nat, buffers: seq<Buffer>, calls: seq<Call>)

  // ---------- Choosing a buffer ----------

  predicate CanRead(b: Buffer, offset: nat, length: nat) {
    offset >= b.off && offset + length <= b.off + |b.data|
  }

  /** The window that a read needs: at least bufferSize bytes, moved back at the end of the reader. */
  function CalculateBounds(offset: nat, length: nat, bufferSize: nat, readerSize: nat): (w: (nat, nat))
    requires offset + length <= readerSize
    ensures w.0 <= offset && offset + length <= w.0 + w.1 <= readerSize
  {
    var wide := if length < bufferSize then bufferSize else length;
    var sz := if wide > readerSize then readerSize else wide;
    if offset + sz >= readerSize then (readerSize - sz, sz) else (offset, sz)
  }

  /** It is as wide as the buffers are, or as the read needs, and starts at the read unless that runs past the end. */
  lemma BoundsMeaning(offset: nat, length: nat, bufferSize: nat, readerSize: nat)
    requires offset + length <= readerSize
    ensures var w := CalculateBounds(offset, length, bufferSize, readerSize);
      && w.1 <= readerSize && (w.1 == readerSize || w.1 == length || w.1 == bufferSize)
      && (w.1 >= bufferSize || w.1 == readerSize) && (w.1 > length ==> w.1 <= bufferSize)
      && (w.0 == offset || w.0 + w.1 == readerSize)
  {
  }

  function FirstReadable(bs: seq<Buffer>, offset: nat, length: nat, from: nat): (r: Option<nat>)
    requires from <= |bs|
    ensures r.Some? ==> from <= r.value < |bs| && CanRead(bs[r.value], offset, length)
    ensures r == None ==> forall i :: from <= i < |bs| ==> !CanRead(bs[i], offset, length)
    decreases |bs| - from
  {
    if from == |bs| then None
    else if CanRead(bs[from], offset, length) then Some(from)
    else FirstReadable(bs, offset, length, from + 1)
  }

  function LeastRecentlyUsed(bs: seq<Buffer>, n: nat): (r: nat)
    requires 0 < n <= |bs|
    ensures r < n && forall i :: 0 <= i < n ==> bs[r].count <= bs[i].count
  {
    if n == 1 then 0
    else
      var r := LeastRecentlyUsed(bs, n - 1);
      if bs[n - 1].count < bs[r].count then n - 1 else r
  }

  // ---------- Steps ----------

  datatype Step =
    | Lock
    | Choose
    | TakeWrite(stale: seq<Byte>)  // what the resized buffer happens to contain
    | TakeRead
    | Scribble(part: seq<Byte>)    // populate has written some of it
    | Populate
    | CopyFilled
    | CopyRead

  datatype Config = Config(src: seq<Byte>, bufferSize: nat)

  ghost predicate InRange(c: Config, call: Call) {
    call.offset + call.length <= |c.src|
  }

  function Window(c: Config, off: nat, length: nat): seq<Byte>
    requires off + length <= |c.src|
  {
    c.src[off..off + length]
  }

  function Extract(b: Buffer, call: Call): seq<Byte>
    requires CanRead(b, call.offset, call.length)
  {
    b.data[call.offset - b.off..call.offset - b.off + call.length]
  }

  predicate Enabled(c: Config, s: State, t: nat, a: Step) {
    t < |s.calls| && s.calls[t].offset + s.calls[t].length <= |c.src| &&
    var call := s.calls[t];
    match a
    case Lock => call.stage.Start? && s.mtx == None
    case Choose => call.stage.Locked?
    case TakeWrite(stale) =>
      && call.stage.WaitWrite? && call.stage.i < |s.buffers|
      && s.buffers[call.stage.i].writer == None && s.buffers[call.stage.i].readers == {}
      && |stale| == CalculateBounds(call.offset, call.length, c.bufferSize, |c.src|).1
    case TakeRead => call.stage.WaitRead? && call.stage.i < |s.buffers| && s.buffers[call.stage.i].writer == None
    case Scribble(part) =>
      call.stage.Filling? && call.stage.i < |s.buffers| && |part| == |s.buffers[call.stage.i].data|
    case Populate =>
      call.stage.Filling? && call.stage.i < |s.buffers|
      && s.buffers[call.stage.i].off + |s.buffers[call.stage.i].data| <= |c.src|
    case CopyFilled =>
      call.stage.Filled? && call.stage.i < |s.buffers| && CanRead(s.buffers[call.stage.i], call.offset, call.length)
    case CopyRead =>
      call.stage.Reading? && call.stage.i < |s.buffers| && CanRead(s.buffers[call.stage.i], call.offset, call.length)
  }

  function Move(s: State, t: nat, stage: Stage): State
    requires t < |s.calls|
  {
    s.(calls := s.calls[t := s.calls[t].(stage := stage)])
  }

  function SetBuffer(s: State, i: nat, b: Buffer): State
    requires i < |s.buffers|
  {
    s.(buffers := s.buffers[i := b])
  }

  function Apply(c: Config, s: State, t: nat, a: Step): State
    requires Enabled(c, s, t, a)
  {
    var call := s.calls[t];
    match a
    case Lock => Move(s, t, Locked).(mtx := Some(t))
    case Choose =>
      if |s.buffers| == 0 then
        // no buffers: read the underlying reader directly
        Move(s, t, Done(Window(c, call.offset, call.length))).(mtx := None)
      else
        var found := FirstReadable(s.buffers, call.offset, call.length, 0);
        var stage := if found.Some? then WaitRead(found.value) else WaitWrite(LeastRecentlyUsed(s.buffers, |s.buffers|));
        Move(s, t, stage).(count := s.count + 1)
    case TakeWrite(stale) =>
      var w := CalculateBounds(call.offset, call.length, c.bufferSize, |c.src|);
      var b := Buffer(w.0, stale, s.count, Some(t), {});
      SetBuffer(Move(s, t, Filling(call.stage.i)), call.stage.i, b).(mtx := None)
    case TakeRead =>
      var b := s.buffers[call.stage.i];
      SetBuffer(Move(s, t, Reading(call.stage.i)), call.stage.i, b.(readers := b.readers + {t}, count := s.count)).(mtx := None)
    case Scribble(part) => SetBuffer(s, call.stage.i, s.buffers[call.stage.i].(data := part))
    case Populate =>
      var b := s.buffers[call.stage.i];
      SetBuffer(Move(s, t, Filled(call.stage.i)), call.stage.i, b.(data := Window(c, b.off, |b.data|)))
    case CopyFilled =>
      var b := s.buffers[call.stage.i];
      SetBuffer(Move(s, t, Done(Extract(b, call))), call.stage.i, b.(writer := None))
    case CopyRead =>
      var b := s.buffers[call.stage.i];
      SetBuffer(Move(s, t, Done(Extract(b, call))), call.stage.i, b.(readers := b.readers - {t}))
  }

  // ---------- Invariant ----------

  ghost predicate BufferOk(c: Config, s: State, i: nat)
    requires i < |s.buffers|
  {
    var b := s.buffers[i];
    && b.off + |b.data| <= |c.src|
    && (b.writer == None ==> b.data == Window(c, b.off, |b.data|))
    && (b.writer.Some? ==> b.readers == {} && b.writer.value < |s.calls|)
    && (b.writer.Some? ==> s.calls[b.writer.value].stage in {Filling(i), Filled(i)})
    && (forall t :: t in b.readers ==> t < |s.calls| && s.calls[t].stage == Reading(i))
  }

  ghost predicate CallOk(c: Config, s: State, t: nat)
    requires t < |s.calls|
  {
    var call := s.calls[t];
    && InRange(c, call)
    && match call.stage
       case Start => true
       case Locked => s.mtx == Some(t)
       case WaitWrite(i) => s.mtx == Some(t) && i < |s.buffers|
       case WaitRead(i) => s.mtx == Some(t) && i < |s.buffers| && CanRead(s.buffers[i], call.offset, call.length)
       case Filling(i) =>
         i < |s.buffers| && s.buffers[i].writer == Some(t) && CanRead(s.buffers[i], call.offset, call.length)
       case Filled(i) =>
         && i < |s.buffers| && s.buffers[i].writer == Some(t) && CanRead(s.buffers[i], call.offset, call.length)
         && s.buffers[i].off + |s.buffers[i].data| <= |c.src|
         && s.buffers[i].data == Window(c, s.buffers[i].off, |s.buffers[i].data|)
       case Reading(i) =>
         i < |s.buffers| && t in s.buffers[i].readers && CanRead(s.buffers[i], call.offset, call.length)
       case Done(bytes) => bytes == Window(c, call.offset, call.length)
  }

  ghost predicate Inv(c: Config, s: State) {
    && (forall i :: 0 <= i < |s.buffers| ==> BufferOk(c, s, i))
    && (forall t :: 0 <= t < |s.calls| ==> CallOk(c, s, t))
    && (s.mtx.Some? ==> s.mtx.value < |s.calls| && var stage := s.calls[s.mtx.value].stage;
          stage.Locked? || stage.WaitWrite? || stage.WaitRead?)
  }

  lemma ExtractExact(c: Config, b: Buffer, call: Call)
    requires CanRead(b, call.offset, call.length) && b.off + |b.data| <= |c.src| && b.data == Window(c, b.off, |b.data|)
    ensures Extract(b, call) == Window(c, call.offset, call.length)
  {
    var i := call.offset - b.off;
    assert c.src[b.off..b.off + |b.data|][i..i + call.length] == c.src[b.off + i..b.off + i + call.length];
  }

  lemma BuffersKept(c: Config, s: State, t: nat, a: Step)
    requires Inv(c, s) && Enabled(c, s, t, a)
    ensures var s' := Apply(c, s, t, a); forall i :: 0 <= i < |s'.buffers| ==> BufferOk(c, s', i)
  {
    assert CallOk(c, s, t);
    var s' := Apply(c, s, t, a);
    forall i | 0 <= i < |s'.buffers| ensures BufferOk(c, s', i) {
      assert BufferOk(c, s, i);
    }
  }

  /** Copying ends a call with exactly its bytes. */
  lemma CopyDone(c: Config, s: State, t: nat, a: Step)
    requires Inv(c, s) && Enabled(c, s, t, a) && (a.CopyFilled? || a.CopyRead?)
    ensures InRange(c, s.calls[t])
    ensures var s' := Apply(c, s, t, a);
      t < |s'.calls| && s'.calls[t] == s.calls[t].(stage := Done(Window(c, s.calls[t].offset, s.calls[t].length)))
  {
    hide Window;
    assert CallOk(c, s, t) && BufferOk(c, s, s.calls[t].stage.i);
    ExtractExact(c, s.buffers[s.calls[t].stage.i], s.calls[t]);
  }

  lemma LockedKept(c: Config, s: State, t: nat, a: Step)
    requires Inv(c, s) && Enabled(c, s, t, a) && (a.Lock? || a.Choose?)
    ensures CallOk(c, Apply(c, s, t, a), t)
  {
    hide Window;
    assert CallOk(c, s, t);
  }

  lemma BufferedKept(c: Config, s: State, t: nat, a: Step)
    requires Inv(c, s) && Enabled(c, s, t, a) && (a.TakeWrite? || a.TakeRead? || a.Scribble? || a.Populate?)
    ensures CallOk(c, Apply(c, s, t, a), t)
  {
    hide CalculateBounds;
    assert CallOk(c, s, t);
  }

  lemma OwnCallKept(c: Config, s: State, t: nat, a: Step)
    requires Inv(c, s) && Enabled(c, s, t, a)
    ensures CallOk(c, Apply(c, s, t, a), t)
  {
    hide Inv, Enabled, Apply, Window;
    if a.CopyFilled? || a.CopyRead? {
      CopyDone(c, s, t, a);
    } else if a.Lock? || a.Choose? {
      LockedKept(c, s, t, a);
    } else {
      BufferedKept(c, s, t, a);
    }
  }

  /** A step changes the stage of its own call only. */
  lemma OtherStage(c: Config, s: State, t: nat, a: Step, u: nat)
    requires Enabled(c, s, t, a) && u < |s.calls| && u != t
    ensures var s' := Apply(c, s, t, a);
      |s'.calls| == |s.calls| && s'.calls[u] == s.calls[u] && |s'.buffers| == |s.buffers|
  {
  }

  /** Only a call that holds the top-level lock can release it or move a window. */
  lemma LockKept(c: Config, s: State, t: nat, a: Step, u: nat, i: nat)
    requires Inv(c, s) && Enabled(c, s, t, a) && s.mtx == Some(u) && u != t && i < |s.buffers|
    ensures var s' := Apply(c, s, t, a);
      && s'.mtx == s.mtx && |s'.buffers| == |s.buffers|
      && s'.buffers[i].off == s.buffers[i].off && |s'.buffers[i].data| == |s.buffers[i].data|
  {
    assert CallOk(c, s, t);
  }

  /** A buffer locked by one call is not touched by another; a reader shares it with readers. */
  lemma BufferKept(c: Config, s: State, t: nat, a: Step, u: nat, i: nat)
    requires Inv(c, s) && Enabled(c, s, t, a) && u != t && i < |s.buffers|
    ensures var s' := Apply(c, s, t, a);
      && |s'.buffers| == |s.buffers|
      && (s.buffers[i].writer == Some(u) ==> s'.buffers[i] == s.buffers[i])
      && (u in s.buffers[i].readers ==>
            u in s'.buffers[i].readers && s'.buffers[i].off == s.buffers[i].off && s'.buffers[i].data == s.buffers[i].data)
  {
    assert CallOk(c, s, t) && BufferOk(c, s, i);
  }

  /** No step of one call moves or half fills the window another call relies on. */
  lemma OtherCallKept(c: Config, s: State, t: nat, a: Step, u: nat)
    requires Inv(c, s) && Enabled(c, s, t, a) && u < |s.calls| && u != t
    ensures CallOk(c, Apply(c, s, t, a), u)
  {
    hide Apply, Enabled, Inv, BufferOk;
    assert CallOk(c, s, u) by { CallHolds(c, s, u); }
    OtherStage(c, s, t, a, u);
    var stage := s.calls[u].stage;
    if stage.WaitWrite? || stage.WaitRead? {
      LockKept(c, s, t, a, u, stage.i);
    } else if HoldsBuffer(stage) {
      BufferKept(c, s, t, a, u, stage.i);
    } else if stage.Locked? {
      MutexKept(c, s, t, a, u);
    }
  }

  lemma CallHolds(c: Config, s: State, u: nat)
    requires Inv(c, s) && u < |s.calls|
    ensures CallOk(c, s, u)
  {
  }

  lemma MutexKept(c: Config, s: State, t: nat, a: Step, u: nat)
    requires Inv(c, s) && Enabled(c, s, t, a) && s.mtx == Some(u) && u != t
    ensures Apply(c, s, t, a).mtx == s.mtx
  {
    assert CallOk(c, s, t);
  }

  lemma StepKeeps(c: Config, s: State, t: nat, a: Step)
    requires Inv(c, s) && Enabled(c, s, t, a)
    ensures Inv(c, Apply(c, s, t, a))
  {
    assert CallOk(c, s, t);
    BuffersKept(c, s, t, a);
    forall u | 0 <= u < |s.calls| ensures CallOk(c, Apply(c, s, t, a), u) {
      if u == t {
        OwnCallKept(c, s, t, a);
      } else {
        OtherCallKept(c, s, t, a, u);
      }
    }
  }

  // ---------- Runs ----------

  ghost predicate Initial(c: Config, s: State) {
    && s.mtx == None
    && (forall i :: 0 <= i < |s.buffers| ==> s.buffers[i] == Buffer(0, [], 0, None, {}))
    && (forall t :: 0 <= t < |s.calls| ==> InRange(c, s.calls[t]) && s.calls[t].stage.Start?)
  }

  ghost predicate Run(c: Config, states: seq<State>, who: seq<nat>, steps: seq<Step>) {
    && |states| == |steps| + 1 && |who| == |steps| && Initial(c, states[0])
    && (forall n :: 0 <= n < |steps| ==>
          Enabled(c, states[n], who[n], steps[n]) && states[n + 1] == Apply(c, states[n], who[n], steps[n]))
  }

  lemma {:induction false} RunKeeps(c: Config, states: seq<State>, who: seq<nat>, steps: seq<Step>, n: nat)
    requires Run(c, states, who, steps) && n < |states|
    ensures Inv(c, states[n])
  {
    if n > 0 {
      RunKeeps(c, states, who, steps, n - 1);
      StepKeeps(c, states[n - 1], who[n - 1], steps[n - 1]);
    }
  }

  /** Every finished call, at every moment of every run, returned exactly the underlying bytes. */
  lemma ReadsAreExact(c: Config, states: seq<State>, who: seq<nat>, steps: seq<Step>, n: nat, t: nat)
    requires Run(c, states, who, steps) && n < |states| && t < |states[n].calls| && states[n].calls[t].stage.Done?
    ensures var call := states[n].calls[t]; InRange(c, call) && call.stage.bytes == Window(c, call.offset, call.length)
  {
    RunKeeps(c, states, who, steps, n);
    assert CallOk(c, states[n], t);
  }

  // ---------- No deadlock ----------

  ghost predicate HoldsBuffer(stage: Stage) {
    stage.Filling? || stage.Filled? || stage.Reading?
  }

  lemma HolderProceeds(c: Config, s: State, t: nat) returns (a: Step)
    requires Inv(c, s) && t < |s.calls| && HoldsBuffer(s.calls[t].stage)
    ensures Enabled(c, s, t, a) && !a.Scribble?
  {
    assert CallOk(c, s, t);
    assert BufferOk(c, s, s.calls[t].stage.i);
    a := match s.calls[t].stage
      case Filling(_) => Populate
      case Filled(_) => CopyFilled
      case _ => CopyRead;
  }

  /** The lock order is acyclic: while a call is unfinished, some call can move on, not just scribble. */
  lemma NoDeadlock(c: Config, s: State, t: nat) returns (u: nat, a: Step)
    requires Inv(c, s) && t < |s.calls| && !s.calls[t].stage.Done?
    ensures Enabled(c, s, u, a) && !a.Scribble?
  {
    if h: nat :| h < |s.calls| && HoldsBuffer(s.calls[h].stage) {
      a := HolderProceeds(c, s, h);
      return h, a;
    }
    assert CallOk(c, s, t);
    if s.mtx == None {
      return t, Lock;
    }
    u := s.mtx.value;
    assert CallOk(c, s, u);
    var stage := s.calls[u].stage;
    if stage.Locked? {
      return u, Choose;
    }
    assert BufferOk(c, s, stage.i);
    var b := s.buffers[stage.i];
    assert b.writer == None;
    if stage.WaitRead? {
      return u, TakeRead;
    }
    if r :| r in b.readers {
      assert HoldsBuffer(s.calls[r].stage);
    }
    var call := s.calls[u];
    a := TakeWrite(seq(CalculateBounds(call.offset, call.length, c.bufferSize, |c.src|).1, _ => 0));
  }

  // ---------- Every call finishes ----------

  /** How far a call is from its end. */
  function Rank(stage: Stage): nat {
    match stage
    case Start => 5
    case Locked => 4
    case WaitWrite(_) => 3
    case WaitRead(_) => 3
    case Filling(_) => 2
    case Filled(_) => 1
    case Reading(_) => 1
    case Done(_) => 0
  }

  lemma StepRanks(c: Config, s: State, t: nat, a: Step)
    requires Enabled(c, s, t, a)
    ensures var s' := Apply(c, s, t, a); |s'.calls| == |s.calls|
    ensures var s' := Apply(c, s, t, a); Rank(s'.calls[t].stage) + (if a.Scribble? then 0 else 1) <= Rank(s.calls[t].stage)
  {
  }

  function Work(calls: seq<Call>): nat {
    if calls == [] then 0 else Work(calls[..|calls| - 1]) + Rank(calls[|calls| - 1].stage)
  }

  lemma {:induction false} WorkSplits(calls: seq<Call>, others: seq<Call>, t: nat, less: nat)
    requires |calls| == |others| && t < |calls| && Rank(others[t].stage) + less <= Rank(calls[t].stage)
    requires forall u :: 0 <= u < |calls| && u != t ==> others[u] == calls[u]
    ensures Work(others) + less <= Work(calls)
  {
    var n := |calls| - 1;
    if t == n {
      assert others[..n] == calls[..n];
    } else {
      WorkSplits(calls[..n], others[..n], t, less);
    }
  }

  lemma StepWorks(c: Config, s: State, t: nat, a: Step)
    requires Enabled(c, s, t, a)
    ensures Work(Apply(c, s, t, a).calls) + (if a.Scribble? then 0 else 1) <= Work(s.calls)
  {
    hide Apply, Enabled, Work, Rank;
    StepRanks(c, s, t, a);
    var s' := Apply(c, s, t, a);
    forall u | 0 <= u < |s.calls| && u != t ensures s'.calls[u] == s.calls[u] {
      OtherStage(c, s, t, a, u);
    }
    assert t < |s.calls| by { Acting(c, s, t, a); }
    WorkSplits(s.calls, s'.calls, t, if a.Scribble? then 0 else 1);
  }

  lemma Acting(c: Config, s: State, t: nat, a: Step)
    requires Enabled(c, s, t, a)
    ensures t < |s.calls|
  {
  }

  lemma {:induction false} WorkBound(calls: seq<Call>)
    ensures Work(calls) <= 5 * |calls|
    ensures Work(calls) == 0 <==> forall t :: 0 <= t < |calls| ==> calls[t].stage.Done?
  {
    if calls != [] {
      var n := |calls| - 1;
      WorkBound(calls[..n]);
      assert forall t :: 0 <= t < n ==> calls[t] == calls[..n][t];
    }
  }

  /** Steps that move a call on. */
  function Useful(steps: seq<Step>): nat {
    if steps == [] then 0 else Useful(steps[..|steps| - 1]) + if steps[|steps| - 1].Scribble? then 0 else 1
  }

  lemma {:induction false} WorkDone(c: Config, states: seq<State>, who: seq<nat>, steps: seq<Step>, n: nat)
    requires Run(c, states, who, steps) && n < |states|
    ensures Useful(steps[..n]) + Work(states[n].calls) <= Work(states[0].calls)
  {
    hide Enabled, Apply, Work;
    if n > 0 {
      WorkDone(c, states, who, steps, n - 1);
      StepWorks(c, states[n - 1], who[n - 1], steps[n - 1]);
      assert steps[..n][..n - 1] == steps[..n - 1];
    }
  }

  /**
    Every call finishes: a run has at most five useful steps per call, and as long as a
    call is unfinished there is a useful step to take.
   */
  lemma EveryCallFinishes(c: Config, states: seq<State>, who: seq<nat>, steps: seq<Step>, n: nat)
    requires Run(c, states, who, steps) && n < |states|
    ensures Useful(steps[..n]) <= 5 * |states[0].calls|
    ensures (forall t :: 0 <= t < |states[n].calls| ==> states[n].calls[t].stage.Done?)
      || exists u: nat, a: Step :: Enabled(c, states[n], u, a) && !a.Scribble?
  {
    WorkDone(c, states, who, steps, n);
    WorkBound(states[0].calls);
    RunKeeps(c, states, who, steps, n);
    if t: nat :| t < |states[n].calls| && !states[n].calls[t].stage.Done? {
      var u, a := NoDeadlock(c, states[n], t);
    }
  }

  // ---------- Least recently used ----------

  /** A call takes the first buffer that has its bytes, else it refills one with the least count; without buffers it reads directly. */
  lemma ChoosePath(c: Config, s: State, t: nat)
    requires Enabled(c, s, t, Choose)
    ensures var call, s' := s.calls[t], Apply(c, s, t, Choose);
      var stage := s'.calls[t].stage;
      if s.buffers == [] then stage == Done(Window(c, call.offset, call.length)) && s'.mtx == None
      else if exists i :: 0 <= i < |s.buffers| && CanRead(s.buffers[i], call.offset, call.length) then
        stage.WaitRead? && stage.i < |s.buffers| && CanRead(s.buffers[stage.i], call.offset, call.length)
      else
        stage.WaitWrite? && stage.i < |s.buffers| && forall i :: 0 <= i < |s.buffers| ==> s.buffers[stage.i].count <= s.buffers[i].count
  {
  }


  /** The step takes buffer i, for reading or for filling. */
  predicate Uses(s: State, t: nat, a: Step, i: nat) {
    && t < |s.calls|
    && ((a.TakeRead? && s.calls[t].stage == WaitRead(i)) || (a.TakeWrite? && s.calls[t].stage == WaitWrite(i)))
  }

  ghost predicate Choosing(s: State) {
    exists t: nat :: t < |s.calls| && (s.calls[t].stage.WaitWrite? || s.calls[t].stage.WaitRead?)
  }

  /** Counts are past readings of the counter, and a call that has chosen its buffer has advanced it since. */
  ghost predicate Counted(s: State) {
    forall i :: 0 <= i < |s.buffers| ==> s.buffers[i].count <= s.count && (Choosing(s) ==> s.buffers[i].count < s.count)
  }

  /** A buffer's count changes only when it is taken, and is then the highest. */
  lemma CountsStep(c: Config, s: State, t: nat, a: Step, i: nat)
    requires Inv(c, s) && Counted(s) && Enabled(c, s, t, a) && i < |s.buffers|
    ensures var s' := Apply(c, s, t, a);
      && |s'.buffers| == |s.buffers| && s.count <= s'.count
      && s'.buffers[i].count == (if Uses(s, t, a, i) then s.count else s.buffers[i].count)
  {
  }

  lemma ChooserAlone(c: Config, s: State, t: nat, u: nat)
    requires Inv(c, s) && t < |s.calls| && u < |s.calls|
    requires s.calls[t].stage.WaitWrite? || s.calls[t].stage.WaitRead?
    requires s.calls[u].stage.Locked? || s.calls[u].stage.WaitWrite? || s.calls[u].stage.WaitRead?
    ensures t == u
  {
    assert CallOk(c, s, t) && CallOk(c, s, u);
  }

  /** After a step some call has chosen only if it had before, or if it just chose and advanced the counter. */
  lemma ChoosingStep(c: Config, s: State, t: nat, a: Step)
    requires Inv(c, s) && Enabled(c, s, t, a) && Choosing(Apply(c, s, t, a))
    ensures if a.Choose? then Apply(c, s, t, a).count == s.count + 1 else Choosing(s) && forall i :: !Uses(s, t, a, i)
  {
    var s' := Apply(c, s, t, a);
    var u: nat :| u < |s'.calls| && (s'.calls[u].stage.WaitWrite? || s'.calls[u].stage.WaitRead?);
    if a.Choose? {
      if u != t {
        OtherStage(c, s, t, a, u);
        ChooserAlone(c, s, u, t);
      }
    } else {
      assert u != t;
      OtherStage(c, s, t, a, u);
      if a.TakeRead? || a.TakeWrite? {
        ChooserAlone(c, s, u, t);
      }
    }
  }

  lemma CountedStep(c: Config, s: State, t: nat, a: Step)
    requires Inv(c, s) && Counted(s) && Enabled(c, s, t, a)
    ensures Counted(Apply(c, s, t, a))
  {
    hide Apply, Enabled, Inv, Choosing;
    var s' := Apply(c, s, t, a);
    SameBuffers(c, s, t, a);
    forall i | 0 <= i < |s'.buffers|
      ensures s'.buffers[i].count <= s'.count && (Choosing(s') ==> s'.buffers[i].count < s'.count)
    {
      CountsStep(c, s, t, a, i);
      if Choosing(s') {
        ChoosingStep(c, s, t, a);
      }
    }
  }

  lemma SameBuffers(c: Config, s: State, t: nat, a: Step)
    requires Enabled(c, s, t, a)
    ensures |Apply(c, s, t, a).buffers| == |s.buffers|
  {
  }

  lemma TakerChooses(s: State, t: nat, a: Step, i: nat)
    requires Uses(s, t, a, i)
    ensures Choosing(s)
  {
  }

  lemma {:induction false} RunCounted(c: Config, states: seq<State>, who: seq<nat>, steps: seq<Step>, n: nat)
    requires Run(c, states, who, steps) && n < |states|
    ensures Counted(states[n]) && |states[n].buffers| == |states[0].buffers|
  {
    hide Apply, Enabled, Inv, Choosing;
    if n == 0 {
      assert !Choosing(states[0]) by { NobodyChoosing(c, states[0]); }
    } else {
      RunCounted(c, states, who, steps, n - 1);
      RunKeeps(c, states, who, steps, n - 1);
      CountedStep(c, states[n - 1], who[n - 1], steps[n - 1]);
      SameBuffers(c, states[n - 1], who[n - 1], steps[n - 1]);
    }
  }

  lemma NobodyChoosing(c: Config, s: State)
    requires Initial(c, s)
    ensures !Choosing(s)
  {
  }

  ghost predicate NotUsed(states: seq<State>, who: seq<nat>, steps: seq<Step>, i: nat, from: nat, to: nat) {
    forall k :: from <= k < to && k < |steps| && k < |who| && k < |states| ==> !Uses(states[k], who[k], steps[k], i)
  }

  /** Counts order buffers by their last use: one used at step k has a higher count than one not used since. */
  lemma {:induction false} UsedLater(c: Config, states: seq<State>, who: seq<nat>, steps: seq<Step>, k: nat, n: nat, i: nat, j: nat)
    requires Run(c, states, who, steps) && k < n < |states| && i < |states[0].buffers| && j < |states[0].buffers| && i != j
    requires Uses(states[k], who[k], steps[k], j) && NotUsed(states, who, steps, i, k, n)
    ensures |states[n].buffers| == |states[0].buffers| && states[n].buffers[i].count < states[n].buffers[j].count
  {
    hide Apply, Enabled, Inv, Choosing;
    var s, t, a := states[n - 1], who[n - 1], steps[n - 1];
    RunCounted(c, states, who, steps, n - 1);
    RunCounted(c, states, who, steps, n);
    RunKeeps(c, states, who, steps, n - 1);
    CountsStep(c, s, t, a, i);
    CountsStep(c, s, t, a, j);
    if Uses(s, t, a, j) {
      TakerChooses(s, t, a, j);
    } else {
      UsedLater(c, states, who, steps, k, n - 1, i, j);
    }
  }
}
