/**
  The life of ingester blocks across crashes (modules/ingester): head WAL block,
  completing block, local complete block, remote block, local copy cleared. A state
  machine whose steps are the durable writes and the lock-protected updates, with a
  crash possible between any two of them.

  The state is kept per block: which copies exist on disk and in the remote store,
  what history promises, and what the process remembers about the block. Flush workers
  may run a queued complete operation, or a flush operation, at any time. That a block's
  complete operation is queued at most once is proved; of the flush queues it is used
  that a block has at most one flush operation at a time.
 */
module BlockLifecycle {
  import opened Wrappers

  type Id = nat
  type Snapshot = nat

  /** A block directory on local disk; the meta file is written last, the marker after the remote copy. */
  datatype Local = Local(meta: bool, data: Option<set<Snapshot>>, marker: bool)

  datatype CompleteOp = Writing | Written | Listed

  datatype FlushOp = Copying | Copied | Marked

  /** What the process remembers about a block. */
  datatype Memory = Memory(
    todo: bool,                // still to be handled by the recovery phase under way
    completing: nat,           // entries in completingBlocks; more than one after a failed cut
    queued: bool,              // its complete operation is queued, running or awaiting retry
    enqueued: nat,             // how often that operation was enqueued
    complete: bool,            // in completeBlocks
    flushed: bool,             // some entry of completeBlocks has a flushed time
    clearing: bool,            // its local directory is being removed
    orphaned: bool,            // gave up on it, but its WAL could not be deleted
    op: Option<CompleteOp>,
    attempts: nat,
    flush: Option<FlushOp>)

  const BLANK := Memory(false, 0, false, 0, false, false, false, false, None, 0, None)

  const MAX_COMPLETE_ATTEMPTS := 3

  datatype Block = Block(
    wal: Option<set<Snapshot>>,
    local: Option<Local>,
    remote: Option<set<Snapshot>>,
    kept: set<Snapshot>,       // history: everything ever flushed to its WAL
    failures: nat,             // history: failed completions
    dropped: bool,             // history: deleted after the last allowed failure
    mem: Memory)

  datatype Phase = Replaying | Rediscovering | Serving

  datatype Process = Process(phase: Phase, head: Id, pending: set<Snapshot>)

  datatype State = State(blocks: map<Id, Block>, process: Option<Process>)

  const START := State(map[], None)

  // ---------- Steps ----------

  /** Steps that concern one block the process already knows. */
  datatype Move =
    | StartComplete
    | WriteData(part: set<Snapshot>)
    | WriteMeta
    | ListComplete
    | FailComplete
    | GiveUp(walDeleted: bool)
    | ClearWal(deleted: bool)
    | StartFlush
    | CopyRemote
    | WriteMarker
    | MarkFlushed
    | FailFlush
    | ForgetFlushed(again: bool)
    | RemoveFiles(meta: bool, data: bool, marker: bool)
    | RemoveDone
    | ReplayClear
    | ReplayAdd
    | Rediscover

  datatype Action =
    | Append(s: Snapshot)
    | FlushHead
    | CutBlock(newId: Id)
    | CutFails
    | Touch(id: Id, move: Move)
    | Crash
    | Boot(newId: Id)
    | ReplayDone
    | RediscoverDone

  predicate Intact(l: Option<Local>) {
    l.Some? && l.value.meta && l.value.data.Some?
  }

  function LocalOr(l: Option<Local>): Local {
    if l.Some? then l.value else Local(false, None, false)
  }

  function Update(s: State, id: Id, b: Block): State {
    s.(blocks := s.blocks[id := b])
  }

  function Flush(b: Block, pending: set<Snapshot>): Block
    requires b.wal.Some?
  {
    b.(wal := Some(b.wal.value + pending), kept := b.kept + pending)
  }

  function NewBlock(): Block {
    Block(Some({}), None, None, {}, 0, false, BLANK)
  }

  function Rediscovered(b: Block): Block {
    var m := b.mem.(todo := false);
    if b.mem.completing > 0 || b.local == None then b.(mem := m)
    else if !b.local.value.meta then b.(mem := m.(clearing := true))
    else b.(mem := m.(complete := true, flushed := m.flushed || b.local.value.marker))
  }

  /** Which steps on a block the process may take now. */
  predicate MoveEnabled(b: Block, a: Move, phase: Phase) {
    var m := b.mem;
    match a
    case StartComplete => m.queued && m.op == None
    case WriteData(part) => m.op == Some(Writing) && b.wal.Some? && part <= b.wal.value
    case WriteMeta => m.op == Some(Writing) && b.wal.Some?
    case ListComplete => m.op == Some(Written)
    case FailComplete => m.op in {Some(Writing), Some(Written)} && m.attempts < MAX_COMPLETE_ATTEMPTS
    case GiveUp(_) => m.op in {Some(Writing), Some(Written)} && m.attempts >= MAX_COMPLETE_ATTEMPTS && phase.Serving?
    case ClearWal(_) => m.op == Some(Listed)
    case StartFlush => m.complete && m.flush == None
    case CopyRemote => m.flush == Some(Copying) && Intact(b.local)
    case WriteMarker => m.flush == Some(Copied)
    case MarkFlushed => m.flush == Some(Marked)
    case FailFlush => m.flush.Some?
    case ForgetFlushed(_) => m.complete && m.flushed
    case RemoveFiles(_, _, _) => m.clearing && b.local.Some?
    case RemoveDone => m.clearing
    case ReplayClear => phase.Replaying? && m.todo
    case ReplayAdd => phase.Replaying? && m.todo && b.local == None && !m.clearing
    case Rediscover => phase.Rediscovering? && m.todo
  }

  /** One more entry in completingBlocks, and the complete operation goes to the flush queues. */
  function Enqueued(m: Memory): Memory {
    m.(completing := m.completing + 1, queued := true, enqueued := m.enqueued + 1)
  }

  /** The first entry is removed from completingBlocks and the operation is over. */
  function Dequeued(m: Memory): Memory {
    m.(op := None, queued := false, completing := if m.completing == 0 then 0 else m.completing - 1)
  }

  function Moved(b: Block, a: Move, phase: Phase): Block
    requires MoveEnabled(b, a, phase)
  {
    var m := b.mem;
    match a
    case StartComplete => b.(mem := m.(op := Some(Writing), attempts := m.attempts + 1))
    case WriteData(part) => b.(local := Some(LocalOr(b.local).(data := Some(part))))
    case WriteMeta =>
      b.(local := Some(LocalOr(b.local).(data := Some(b.wal.value), meta := true)), mem := m.(op := Some(Written)))
    case ListComplete =>
      b.(mem := m.(op := Some(Listed), complete := true, flushed := m.flushed || LocalOr(b.local).marker))
    case FailComplete => b.(failures := b.failures + 1, mem := m.(op := None))
    case GiveUp(deleted) =>
      b.(failures := b.failures + 1,
         wal := if deleted then None else b.wal, dropped := b.dropped || deleted,
         mem := Dequeued(m).(orphaned := !deleted))
    case ClearWal(deleted) =>
      b.(wal := if deleted then None else b.wal, mem := Dequeued(m))
    case StartFlush => b.(mem := m.(flush := Some(Copying)))
    case CopyRemote => b.(remote := b.local.value.data, mem := m.(flush := Some(Copied)))
    case WriteMarker => b.(local := Some(LocalOr(b.local).(marker := true)), mem := m.(flush := Some(Marked)))
    case MarkFlushed => b.(mem := m.(flush := None, flushed := true))
    case FailFlush => b.(mem := m.(flush := None))
    case ForgetFlushed(again) => b.(mem := m.(complete := again, clearing := true))
    case RemoveFiles(meta, data, marker) =>
      var l := b.local.value;
      b.(local := Some(Local(l.meta && !meta, if data then None else l.data, l.marker && !marker)))
    case RemoveDone => b.(local := None, mem := m.(clearing := false))
    case ReplayClear => b.(mem := m.(clearing := true))
    case ReplayAdd => b.(mem := Enqueued(m).(todo := false))
    case Rediscover => Rediscovered(b)
  }

  predicate NoneTodo(s: State) {
    forall id :: id in s.blocks ==> !s.blocks[id].mem.todo
  }

  predicate HeadReady(s: State) {
    s.process.Some? && s.process.value.head in s.blocks && s.blocks[s.process.value.head].wal.Some?
  }

  predicate Enabled(s: State, a: Action) {
    match a
    case Boot(newId) => s.process == None && newId !in s.blocks
    case Crash => s.process.Some?
    case Append(_) => s.process.Some?
    case FlushHead => HeadReady(s)
    case CutBlock(newId) =>
      && HeadReady(s) && s.process.value.phase.Serving? && newId !in s.blocks
      && s.blocks[s.process.value.head].wal.value + s.process.value.pending != {}
    case CutFails =>
      && HeadReady(s) && s.process.value.phase.Serving?
      && s.blocks[s.process.value.head].wal.value + s.process.value.pending != {}
    case Touch(id, move) => s.process.Some? && id in s.blocks && MoveEnabled(s.blocks[id], move, s.process.value.phase)
    case ReplayDone => s.process.Some? && s.process.value.phase.Replaying? && NoneTodo(s)
    case RediscoverDone => s.process.Some? && s.process.value.phase.Rediscovering? && NoneTodo(s)
  }

  /** Rescanning finds every WAL file and deletes the empty ones; all other memory starts blank. */
  function Rescanned(b: Block): Block {
    if b.wal == Some({}) then b.(wal := None, mem := BLANK)
    else b.(mem := BLANK.(todo := b.wal.Some?))
  }

  /** With the WAL replayed, every local directory is to be looked at. */
  function Replayed(b: Block): Block {
    b.(mem := b.mem.(todo := b.local.Some?))
  }

  function Cut(b: Block): Block {
    b.(mem := Enqueued(b.mem))
  }

  /** The head was listed as completing, but no new head could be made: it stays head and nothing is enqueued. */
  function CutFailed(b: Block): Block {
    b.(mem := b.mem.(completing := b.mem.completing + 1))
  }

  function Apply(s: State, a: Action): State
    requires Enabled(s, a)
  {
    match a
    case Boot(newId) =>
      State((map id | id in s.blocks :: Rescanned(s.blocks[id]))[newId := NewBlock()], Some(Process(Replaying, newId, {})))
    case Crash => s.(process := None)
    case Append(x) => s.(process := Some(s.process.value.(pending := s.process.value.pending + {x})))
    case FlushHead =>
      var p := s.process.value;
      State(s.blocks[p.head := Flush(s.blocks[p.head], p.pending)], Some(p.(pending := {})))
    case CutBlock(newId) =>
      var p := s.process.value;
      State(s.blocks[p.head := Cut(Flush(s.blocks[p.head], p.pending))][newId := NewBlock()],
            Some(Process(p.phase, newId, {})))
    case CutFails =>
      var p := s.process.value;
      State(s.blocks[p.head := CutFailed(Flush(s.blocks[p.head], p.pending))], Some(p.(pending := {})))
    case Touch(id, move) => Update(s, id, Moved(s.blocks[id], move, s.process.value.phase))
    case ReplayDone =>
      State(map id | id in s.blocks :: Replayed(s.blocks[id]), Some(s.process.value.(phase := Rediscovering)))
    case RediscoverDone => s.(process := Some(s.process.value.(phase := Serving)))
  }

  // ---------- Runs ----------

  ghost predicate Run(states: seq<State>, actions: seq<Action>) {
    && |states| == |actions| + 1
    && states[0] == START
    && (forall i :: 0 <= i < |actions| ==> Enabled(states[i], actions[i]) && states[i + 1] == Apply(states[i], actions[i]))
  }

  // ---------- What must never be lost ----------

  ghost predicate HeldRemotely(b: Block) {
    b.remote == Some(b.kept)
  }

  ghost predicate HeldLocally(b: Block) {
    Intact(b.local) && b.local.value.data == Some(b.kept)
  }

  /** Everything the block ever held is in its WAL, in an intact local copy or in the remote store. */
  ghost predicate Preserved(b: Block) {
    b.kept == {} || b.wal == Some(b.kept) || HeldLocally(b) || HeldRemotely(b)
  }

  ghost predicate BlockSafe(b: Block) {
    && (!b.dropped ==> Preserved(b))
    && (b.dropped ==> b.wal == None && b.failures >= MAX_COMPLETE_ATTEMPTS)
    && (b.local.Some? && b.local.value.marker ==> b.remote.Some? && (b.dropped || HeldRemotely(b)))
    && (b.local.Some? && !Intact(b.local) && b.wal == None ==> HeldRemotely(b) || b.dropped)
    && b.mem.attempts <= MAX_COMPLETE_ATTEMPTS && b.mem.enqueued <= 1
  }

  /** While serving, the process still knows of every block that is not yet remote. */
  ghost predicate Tracked(b: Block, isHead: bool) {
    b.kept == {} || b.dropped || b.remote.Some? || b.mem.queued || b.mem.complete || b.mem.orphaned || isHead
  }

  /** What a complete operation finds when it starts for the first time: the WAL, and no leftover of an earlier completion. */
  ghost predicate CleanStart(b: Block) {
    b.mem.queued && b.mem.attempts == 0 ==> b.wal == Some(b.kept) && b.local == None
  }

  ghost predicate Safe(s: State) {
    && (s.process.Some? ==> forall id :: id in s.blocks ==> CleanStart(s.blocks[id]))
    && (forall id :: id in s.blocks ==> BlockSafe(s.blocks[id]))
    && (s.process.Some? && s.process.value.phase.Serving? ==>
          forall id :: id in s.blocks ==> Tracked(s.blocks[id], id == s.process.value.head))
  }

  // ---------- Why it holds ----------

  /** What is true of a block on disk, with or without a process. */
  ghost predicate OnDisk(b: Block) {
    && (b.wal.Some? ==> b.wal.value == b.kept)
    && (b.kept == {} ==> b.local == None && b.remote == None)
    && (!b.dropped && b.wal == None && b.kept != {} ==> HeldLocally(b) || HeldRemotely(b))
    && (!b.dropped && b.wal == None && Intact(b.local) ==> HeldLocally(b))
    && (b.local.Some? && b.local.value.marker ==> b.remote.Some?)
    && (b.remote.Some? ==> b.dropped || HeldRemotely(b))
    && (b.dropped ==> b.wal == None && b.failures >= MAX_COMPLETE_ATTEMPTS)
    && b.mem.attempts <= MAX_COMPLETE_ATTEMPTS && b.mem.enqueued <= 1
  }

  /** What a running process knows about a block other than its head. */
  ghost predicate InMemory(b: Block, phase: Phase) {
    var m := b.mem;
    && (m.queued ==> b.wal.Some? && b.kept != {} && m.completing > 0)
    && (!phase.Serving? ==> m.completing == if m.queued then 1 else 0)
    && (m.queued && m.attempts == 0 ==> b.local == None)
    && (m.op.Some? ==> m.queued && m.attempts >= 1)
    && (m.queued && m.op == None ==> m.attempts < MAX_COMPLETE_ATTEMPTS)
    && (m.queued ==> m.attempts <= b.failures + if m.op.Some? then 1 else 0)
    && (m.queued && m.flush.Some? ==> m.op == Some(Listed))
    && (m.queued && m.complete ==> m.op == Some(Listed))
    && (m.op in {Some(Written), Some(Listed)} ==> HeldLocally(b) || HeldRemotely(b))
    && (m.op in {Some(Written), Some(Listed)} && Intact(b.local) ==> HeldLocally(b))
    && (m.complete && !b.dropped ==> b.kept != {} && (HeldLocally(b) || b.remote.Some?))
    && (m.complete && !b.dropped && Intact(b.local) ==> HeldLocally(b))
    && (m.complete ==> b.kept != {})
    && (m.flush.Some? ==> b.kept != {})
    && (m.flush in {Some(Copied), Some(Marked)} ==> b.remote.Some?)
    && (m.flush == Some(Copying) && !b.dropped && Intact(b.local) ==> HeldLocally(b))
    && (m.flushed ==> b.remote.Some?)
    && (m.clearing ==> b.dropped || b.remote.Some? || (phase.Replaying? && m.todo))
    && (phase.Replaying? && m.todo ==> b.wal.Some? && b.kept != {} && m == BLANK.(todo := true, clearing := m.clearing))
    && (m.orphaned ==> phase.Serving?)
    && (b.wal.Some? ==> (phase.Replaying? && m.todo) || m.queued || m.complete || m.orphaned || b.remote.Some?)
    && (m.op == Some(Listed) ==> m.complete || b.remote.Some?)
    && (!m.queued && !m.orphaned && !(phase.Replaying? && m.todo) && !b.dropped && Intact(b.local) ==> HeldLocally(b))
    && (phase.Serving? ==> Tracked(b, false))
    && (phase.Rediscovering? ==> Tracked(b, false) || m.todo)
  }

  /** The head has a WAL file and nothing else; only a failed cut has listed it as completing. */
  ghost predicate IsHead(b: Block) {
    b.wal.Some? && b.local == None && b.remote == None && !b.dropped && b.mem == BLANK.(completing := b.mem.completing)
  }

  ghost predicate Inv(s: State) {
    && (forall id :: id in s.blocks ==> OnDisk(s.blocks[id]))
    && (s.process.Some? ==>
          && s.process.value.head in s.blocks
          && (forall id :: id in s.blocks ==>
                if id == s.process.value.head then IsHead(s.blocks[id]) else InMemory(s.blocks[id], s.process.value.phase)))
  }

  ghost predicate Good(b: Block, phase: Phase) {
    OnDisk(b) && InMemory(b, phase)
  }

  lemma CompleteKeeps(b: Block, a: Move, phase: Phase)
    requires a.StartComplete? || a.WriteData? || a.WriteMeta? || a.ListComplete? || a.FailComplete?
    requires Good(b, phase) && MoveEnabled(b, a, phase)
    ensures Good(Moved(b, a, phase), phase)
  {
  }

  lemma DeleteKeeps(b: Block, a: Move, phase: Phase)
    requires a.GiveUp? || a.ClearWal? || a.ForgetFlushed? || a.RemoveFiles? || a.RemoveDone?
    requires Good(b, phase) && MoveEnabled(b, a, phase)
    ensures Good(Moved(b, a, phase), phase)
  {
  }

  lemma FlushKeeps(b: Block, a: Move, phase: Phase)
    requires a.StartFlush? || a.CopyRemote? || a.WriteMarker? || a.MarkFlushed? || a.FailFlush?
    requires Good(b, phase) && MoveEnabled(b, a, phase)
    ensures Good(Moved(b, a, phase), phase)
  {
  }

  lemma ReplayClearKeeps(b: Block, phase: Phase)
    requires Good(b, phase) && MoveEnabled(b, ReplayClear, phase)
    ensures Good(Moved(b, ReplayClear, phase), phase)
  {
  }

  lemma ReplayAddKeeps(b: Block, phase: Phase)
    requires Good(b, phase) && MoveEnabled(b, ReplayAdd, phase)
    ensures Good(Moved(b, ReplayAdd, phase), phase)
  {
  }

  lemma PassOverKeeps(b: Block, phase: Phase)
    requires Good(b, phase) && MoveEnabled(b, Rediscover, phase) && (b.mem.completing > 0 || b.local == None)
    ensures Good(b.(mem := b.mem.(todo := false)), phase)
  {
  }

  lemma ClearPartialKeeps(b: Block, phase: Phase)
    requires Good(b, phase) && MoveEnabled(b, Rediscover, phase) && b.mem.completing == 0 && b.local.Some? && !b.local.value.meta
    ensures Good(b.(mem := b.mem.(todo := false, clearing := true)), phase)
  {
  }

  lemma ReloadKeeps(b: Block, phase: Phase)
    requires Good(b, phase) && MoveEnabled(b, Rediscover, phase) && b.mem.completing == 0 && b.local.Some? && b.local.value.meta
    ensures Good(b.(mem := b.mem.(todo := false, complete := true, flushed := b.mem.flushed || b.local.value.marker)), phase)
  {
  }

  lemma RediscoverKeeps(b: Block, phase: Phase)
    requires Good(b, phase) && MoveEnabled(b, Rediscover, phase)
    ensures Good(Moved(b, Rediscover, phase), phase)
  {
    hide Good;
    if b.mem.completing > 0 || b.local == None {
      PassOverKeeps(b, phase);
    } else if !b.local.value.meta {
      ClearPartialKeeps(b, phase);
    } else {
      ReloadKeeps(b, phase);
    }
  }

  lemma RecoverKeeps(b: Block, a: Move, phase: Phase)
    requires a.ReplayClear? || a.ReplayAdd? || a.Rediscover?
    requires Good(b, phase) && MoveEnabled(b, a, phase)
    ensures Good(Moved(b, a, phase), phase)
  {
    hide *;
    match a
    case ReplayClear => ReplayClearKeeps(b, phase);
    case ReplayAdd => ReplayAddKeeps(b, phase);
    case Rediscover => RediscoverKeeps(b, phase);
  }

  lemma MoveKeeps(b: Block, a: Move, phase: Phase)
    requires Good(b, phase) && MoveEnabled(b, a, phase)
    ensures Good(Moved(b, a, phase), phase)
  {
    hide *;
    match a
    case GiveUp(_) => DeleteKeeps(b, a, phase);
    case ClearWal(_) => DeleteKeeps(b, a, phase);
    case ForgetFlushed(_) => DeleteKeeps(b, a, phase);
    case RemoveFiles(_, _, _) => DeleteKeeps(b, a, phase);
    case RemoveDone => DeleteKeeps(b, a, phase);
    case StartFlush => FlushKeeps(b, a, phase);
    case CopyRemote => FlushKeeps(b, a, phase);
    case WriteMarker => FlushKeeps(b, a, phase);
    case MarkFlushed => FlushKeeps(b, a, phase);
    case FailFlush => FlushKeeps(b, a, phase);
    case ReplayClear => RecoverKeeps(b, a, phase);
    case ReplayAdd => RecoverKeeps(b, a, phase);
    case Rediscover => RecoverKeeps(b, a, phase);
    case _ => CompleteKeeps(b, a, phase);
  }

  /** The head takes no part in completion, flushing or recovery. */
  lemma HeadIdle(b: Block, a: Move, phase: Phase)
    requires IsHead(b)
    ensures !MoveEnabled(b, a, phase)
  {
  }

  lemma RescanKeeps(b: Block)
    requires OnDisk(b)
    ensures Good(Rescanned(b), Replaying)
  {
  }

  lemma PhaseKeeps(b: Block)
    requires !b.mem.todo
    ensures Good(b, Replaying) ==> Good(Replayed(b), Rediscovering)
    ensures Good(b, Rediscovering) ==> Good(b, Serving)
    ensures OnDisk(b) && IsHead(b) ==> OnDisk(Replayed(b)) && IsHead(Replayed(b))
  {
  }

  lemma HeadGrows(b: Block, pending: set<Snapshot>)
    requires OnDisk(b) && IsHead(b)
    ensures OnDisk(Flush(b, pending)) && IsHead(Flush(b, pending))
    ensures b.wal.value + pending != {} ==> Good(Cut(Flush(b, pending)), Serving)
    ensures OnDisk(CutFailed(Flush(b, pending))) && IsHead(CutFailed(Flush(b, pending)))
  {
  }

  lemma NewBlockHolds()
    ensures OnDisk(NewBlock()) && IsHead(NewBlock())
  {
  }

  lemma StepKeeps(s: State, a: Action)
    requires Inv(s) && Enabled(s, a)
    ensures Inv(Apply(s, a))
  {
    hide OnDisk, InMemory, IsHead, MoveEnabled, Moved, Rescanned, Replayed, Flush, Cut, CutFailed, NewBlock;
    match a
    case Boot(_) =>
      forall id | id in s.blocks ensures Good(Rescanned(s.blocks[id]), Replaying) { RescanKeeps(s.blocks[id]); }
      NewBlockHolds();
    case Crash =>
    case Append(_) =>
    case FlushHead =>
      HeadGrows(s.blocks[s.process.value.head], s.process.value.pending);
    case CutBlock(_) =>
      HeadGrows(s.blocks[s.process.value.head], s.process.value.pending);
      NewBlockHolds();
    case CutFails =>
      HeadGrows(s.blocks[s.process.value.head], s.process.value.pending);
    case Touch(id, move) =>
      if id == s.process.value.head {
        HeadIdle(s.blocks[id], move, s.process.value.phase);
      } else {
        MoveKeeps(s.blocks[id], move, s.process.value.phase);
      }
    case ReplayDone =>
      forall id | id in s.blocks { PhaseKeeps(s.blocks[id]); }
    case RediscoverDone =>
      forall id | id in s.blocks { PhaseKeeps(s.blocks[id]); }
  }

  /** Crash safety: in every state of every run, with crashes and restarts anywhere. */
  lemma {:induction false} CrashSafe(states: seq<State>, actions: seq<Action>, n: nat)
    requires Run(states, actions) && n < |states|
    ensures Inv(states[n]) && Safe(states[n])
  {
    if n > 0 {
      CrashSafe(states, actions, n - 1);
      StepKeeps(states[n - 1], actions[n - 1]);
    }
  }

  // ---------- What was appended ----------

  /** Some block has the snapshot in its WAL history, which CrashSafe protects. */
  ghost predicate Kept(s: State, x: Snapshot) {
    exists id :: id in s.blocks && x in s.blocks[id].kept
  }

  ghost predicate Pending(s: State, x: Snapshot) {
    s.process.Some? && x in s.process.value.pending
  }

  predicate FlushesHead(a: Action) {
    a.FlushHead? || a.CutBlock? || a.CutFails?
  }

  /** History only grows, whatever happens to the block. */
  lemma MoveKept(b: Block, a: Move, phase: Phase)
    requires MoveEnabled(b, a, phase)
    ensures Moved(b, a, phase).kept == b.kept
  {
  }

  lemma StepKept(s: State, a: Action, x: Snapshot)
    requires Inv(s) && Enabled(s, a) && Kept(s, x)
    ensures Kept(Apply(s, a), x)
  {
    hide Inv, MoveEnabled, Moved;
    var id :| id in s.blocks && x in s.blocks[id].kept;
    match a
    case Touch(i, move) =>
      MoveKept(s.blocks[i], move, s.process.value.phase);
      assert id in Apply(s, a).blocks && x in Apply(s, a).blocks[id].kept;
    case _ =>
      assert id in Apply(s, a).blocks && x in Apply(s, a).blocks[id].kept;
  }

  /** Flushing or cutting the head moves everything pending into its WAL. */
  lemma FlushKept(s: State, a: Action, x: Snapshot)
    requires Inv(s) && Enabled(s, a) && FlushesHead(a) && Pending(s, x)
    ensures Kept(Apply(s, a), x)
    ensures var t := Apply(s, a); var head := s.process.value.head;
      head in t.blocks && t.blocks[head].wal.Some? && x in t.blocks[head].wal.value
  {
    hide Inv;
    var t, head := Apply(s, a), s.process.value.head;
    assert head in t.blocks && x in t.blocks[head].kept;
  }

  lemma PendingStep(s: State, a: Action, x: Snapshot)
    requires Inv(s) && Enabled(s, a) && !a.Crash? && Pending(s, x)
    ensures Pending(Apply(s, a), x) || Kept(Apply(s, a), x)
  {
    hide Inv, MoveEnabled, Moved;
    if FlushesHead(a) {
      FlushKept(s, a, x);
    }
  }

  lemma {:induction false} KeptFrom(states: seq<State>, actions: seq<Action>, m: nat, n: nat, x: Snapshot)
    requires Run(states, actions) && m <= n < |states| && Kept(states[m], x)
    ensures Kept(states[n], x)
  {
    hide Inv, Safe, Enabled, Kept;
    if m < n {
      KeptFrom(states, actions, m, n - 1, x);
      CrashSafe(states, actions, n - 1);
      StepKept(states[n - 1], actions[n - 1], x);
    }
  }

  ghost predicate NoCrash(actions: seq<Action>, i: nat, j: nat) {
    forall k :: i <= k < j && k < |actions| ==> !actions[k].Crash?
  }

  /** Until a crash, an appended snapshot is in memory or in a WAL. */
  lemma {:induction false} AppendedIsHeld(states: seq<State>, actions: seq<Action>, i: nat, n: nat, x: Snapshot)
    requires Run(states, actions) && i < n < |states| && actions[i] == Append(x) && NoCrash(actions, i, n)
    ensures Pending(states[n], x) || Kept(states[n], x)
  {
    hide Inv, Safe, Kept;
    if n > i + 1 {
      AppendedIsHeld(states, actions, i, n - 1, x);
      CrashSafe(states, actions, n - 1);
      if Kept(states[n - 1], x) {
        StepKept(states[n - 1], actions[n - 1], x);
      } else {
        PendingStep(states[n - 1], actions[n - 1], x);
      }
    }
  }

  /** Once the head was flushed or cut after the append, it is in a block's history for good, crashes or not. */
  lemma AppendedIsKept(states: seq<State>, actions: seq<Action>, i: nat, j: nat, n: nat, x: Snapshot)
    requires Run(states, actions) && i < j < n < |states| && actions[i] == Append(x)
    requires FlushesHead(actions[j]) && NoCrash(actions, i, j)
    ensures Kept(states[n], x)
  {
    hide Inv, Safe, Kept, Enabled;
    AppendedIsHeld(states, actions, i, j, x);
    CrashSafe(states, actions, j);
    if Kept(states[j], x) {
      StepKept(states[j], actions[j], x);
    } else {
      FlushKept(states[j], actions[j], x);
    }
    KeptFrom(states, actions, j + 1, n, x);
  }

  // ---------- What the steps bring about ----------

  /** A sequence of moves on one block, each of them allowed when its turn comes. */
  ghost predicate Allowed(b: Block, moves: seq<Move>, phase: Phase)
    decreases |moves|
  {
    moves == [] || (MoveEnabled(b, moves[0], phase) && Allowed(Moved(b, moves[0], phase), moves[1..], phase))
  }

  ghost function AfterMoves(b: Block, moves: seq<Move>, phase: Phase): Block
    requires Allowed(b, moves, phase)
    decreases |moves|
  {
    if moves == [] then b else AfterMoves(Moved(b, moves[0], phase), moves[1..], phase)
  }

  lemma FirstMove(b: Block, a: Move, rest: seq<Move>, phase: Phase)
    requires MoveEnabled(b, a, phase) && Allowed(Moved(b, a, phase), rest, phase)
    ensures Allowed(b, [a] + rest, phase) && AfterMoves(b, [a] + rest, phase) == AfterMoves(Moved(b, a, phase), rest, phase)
  {
    assert ([a] + rest)[1..] == rest;
  }

  const COMPLETE := [StartComplete, WriteMeta, ListComplete, ClearWal(true)]

  /** A queued block can be completed: its whole WAL becomes an intact, listed local copy, and the WAL is gone. */
  lemma CompletionPath(b: Block, phase: Phase)
    requires Good(b, phase) && b.mem.queued && b.mem.op == None
    ensures Allowed(b, COMPLETE, phase)
    ensures var c := AfterMoves(b, COMPLETE, phase);
      && c.wal == None && HeldLocally(c) && c.kept == b.kept && c.remote == b.remote && !c.dropped
      && c.mem.complete && !c.mem.queued && c.mem.completing == b.mem.completing - 1
  {
    var b1 := Moved(b, StartComplete, phase);
    var b2 := Moved(b1, WriteMeta, phase);
    var b3 := Moved(b2, ListComplete, phase);
    assert Allowed(Moved(b3, ClearWal(true), phase), [], phase);
    FirstMove(b3, ClearWal(true), [], phase);
    FirstMove(b2, ListComplete, [ClearWal(true)], phase);
    FirstMove(b1, WriteMeta, [ListComplete] + [ClearWal(true)], phase);
    FirstMove(b, StartComplete, [WriteMeta] + ([ListComplete] + [ClearWal(true)]), phase);
    assert COMPLETE == [StartComplete] + ([WriteMeta] + ([ListComplete] + [ClearWal(true)]));
  }

  const FLUSH := [StartFlush, CopyRemote, WriteMarker, MarkFlushed]

  /** A complete block with an intact copy can be flushed: the remote store has it, and then the marker and the memory say so. */
  lemma FlushPath(b: Block, phase: Phase)
    requires Good(b, phase) && b.mem.complete && b.mem.flush == None && Intact(b.local) && !b.dropped
    ensures Allowed(b, FLUSH, phase)
    ensures var c := AfterMoves(b, FLUSH, phase);
      && HeldRemotely(c) && c.kept == b.kept && c.local == Some(b.local.value.(marker := true)) && c.wal == b.wal
      && c.mem == b.mem.(flushed := true)
  {
    var b1 := Moved(b, StartFlush, phase);
    var b2 := Moved(b1, CopyRemote, phase);
    var b3 := Moved(b2, WriteMarker, phase);
    assert Allowed(Moved(b3, MarkFlushed, phase), [], phase);
    FirstMove(b3, MarkFlushed, [], phase);
    FirstMove(b2, WriteMarker, [MarkFlushed], phase);
    FirstMove(b1, CopyRemote, [WriteMarker] + [MarkFlushed], phase);
    FirstMove(b, StartFlush, [CopyRemote] + ([WriteMarker] + [MarkFlushed]), phase);
    assert FLUSH == [StartFlush] + ([CopyRemote] + ([WriteMarker] + [MarkFlushed]));
  }

  /** A flushed block can be cleared from local disk and from memory. */
  lemma ClearPath(b: Block, phase: Phase)
    requires Good(b, phase) && b.mem.complete && b.mem.flushed
    ensures Allowed(b, [ForgetFlushed(false), RemoveDone], phase)
    ensures var c := AfterMoves(b, [ForgetFlushed(false), RemoveDone], phase);
      c.local == None && !c.mem.complete && !c.mem.clearing && c.remote == b.remote && c.remote.Some?
  {
    var b1 := Moved(b, ForgetFlushed(false), phase);
    assert Allowed(Moved(b1, RemoveDone, phase), [], phase);
    FirstMove(b1, RemoveDone, [], phase);
    FirstMove(b, ForgetFlushed(false), [RemoveDone], phase);
    assert [ForgetFlushed(false), RemoveDone] == [ForgetFlushed(false)] + [RemoveDone];
  }

  /** A cut hands the head over to completion and starts an empty one; if none can be made, the head stays, listed but not queued. */
  lemma CutPath(s: State, a: Action)
    requires Inv(s) && Enabled(s, a) && (a.CutBlock? || a.CutFails?)
    ensures var head, t := s.process.value.head, Apply(s, a);
      && head in t.blocks && t.process.Some? && t.process.value.pending == {}
      && t.blocks[head].wal == Some(s.blocks[head].wal.value + s.process.value.pending)
      && t.blocks[head].mem.completing == s.blocks[head].mem.completing + 1
      && t.blocks[head].mem.queued == a.CutBlock?
      && t.blocks[head].mem.enqueued == (if a.CutBlock? then 1 else 0)
      && t.process.value.head == (if a.CutBlock? then a.newId else head)
    ensures a.CutBlock? ==> Apply(s, a).blocks[a.newId].wal == Some({})
  {
  }

  /** A failed completion is tried again, up to the last allowed attempt; after that the WAL is deleted and the block counts as dropped. */
  lemma FailurePath(b: Block, phase: Phase)
    requires Good(b, phase) && b.mem.queued && b.mem.op == None && phase.Serving?
    ensures MoveEnabled(b, StartComplete, phase)
    ensures var b1 := Moved(b, StartComplete, phase);
      if b.mem.attempts + 1 < MAX_COMPLETE_ATTEMPTS then
        MoveEnabled(b1, FailComplete, phase)
        && Moved(b1, FailComplete, phase) == b.(failures := b.failures + 1, mem := b.mem.(attempts := b.mem.attempts + 1))
      else
        MoveEnabled(b1, GiveUp(true), phase)
        && var c := Moved(b1, GiveUp(true), phase); c.dropped && c.wal == None && !c.mem.queued && c.mem.completing == b.mem.completing - 1
  {
  }

  /** After a restart a WAL block loses its leftover local copy and its complete operation is queued again, with all its snapshots. */
  lemma ReplayPath(b: Block)
    requires Good(b, Replaying) && b.mem.todo
    ensures Allowed(b, [ReplayClear, RemoveDone, ReplayAdd], Replaying)
    ensures var c := AfterMoves(b, [ReplayClear, RemoveDone, ReplayAdd], Replaying);
      c.wal == Some(b.kept) && c.local == None && c.mem.queued && c.mem.completing == 1 && c.mem.enqueued == 1 && !c.mem.todo && c.mem.attempts == 0
  {
    var b1 := Moved(b, ReplayClear, Replaying);
    var b2 := Moved(b1, RemoveDone, Replaying);
    assert Allowed(Moved(b2, ReplayAdd, Replaying), [], Replaying);
    FirstMove(b2, ReplayAdd, [], Replaying);
    FirstMove(b1, RemoveDone, [ReplayAdd], Replaying);
    FirstMove(b, ReplayClear, [RemoveDone] + [ReplayAdd], Replaying);
    assert [ReplayClear, RemoveDone, ReplayAdd] == [ReplayClear] + ([RemoveDone] + [ReplayAdd]);
  }

  /** A local block without a WAL is listed again if it is intact, with its flushed marker, and removed if it is not. */
  lemma RediscoverPath(b: Block)
    requires Good(b, Rediscovering) && b.mem.todo && b.mem.completing == 0 && b.local.Some?
    ensures MoveEnabled(b, Rediscover, Rediscovering)
    ensures var c := Moved(b, Rediscover, Rediscovering);
      && !c.mem.todo && c.local == b.local
      && (b.local.value.meta ==> c.mem.complete && (b.local.value.marker ==> c.mem.flushed))
      && (!b.local.value.meta ==> c.mem.clearing && c.mem.complete == b.mem.complete)
  {
  }
}
