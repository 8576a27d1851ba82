/**
 * The write path of one plain collection as a transition system: batches of upserts or deletes,
 * snapshots made of separate renames, log truncation, start-up recovery, and a crash of the
 * process between any two steps, in the middle of any log write included.
 */
module Protocol {
  import opened Base
  import opened WalReplay
  import opened WalFormat
  import opened PointInTime
  import opened Snapshot

  // ---- State ----

  /** The renames of `save_collection`, in order. */
  datatype SaveStep = SaveConfig | SaveTimestamp | SavePoints | SaveChecksum | SaveIndex

  datatype Phase =
    | Down
    | Idle
    | Logging(batch: seq<Entry>, written: nat, torn: nat)
    | Mutating(batch: seq<Entry>, next: nat, missing: nat)
    | Saving(image: seq<Point>, step: SaveStep, truncate: bool)
    | Truncating
    | WritingHeader(bytes: nat, creating: bool)

  /** The process: its memory, its operation counter, and the storage options it was started with. */
  datatype Process = Process(phase: Phase, mem: Store, ops: nat, compress: bool, binary: bool)

  /**
   * What a client may rely on. `acked` is what memory held when the last call returned, or when
   * a snapshot replaced the log; `pending` are the operations of the call in flight, of
   * which `inLog` are wholly logged and `applied` are in memory. `logged` are the entries the
   * log holds; all but the last `inLog` of them turn `base`, the last snapshot, into `acked`.
   */
  datatype History = History(
    acked: Store, pending: seq<Operation>, inLog: nat, applied: nat, base: Store, logged: seq<Entry>)

  datatype State = State(disk: Disk, proc: Process, hist: History)

  // ---- Transitions ----

  datatype Action =
    | Create(compress: bool, binary: bool)
    | Start(compress: bool, binary: bool, image: seq<Point>)
    | Call(batch: seq<Entry>)
    | WriteChunk(count: nat)
    | Refuse
    | BeginMutation
    | MutateOne
    | FinishCall(image: seq<Point>)
    | Rename
    | Truncate
    | WriteHeader(count: nat)
    | Crash

  ghost predicate AllUpserts(batch: seq<Entry>) {
    forall i :: 0 <= i < |batch| ==> batch[i].operation.Upsert?
  }

  ghost predicate AllDeletes(batch: seq<Entry>) {
    forall i :: 0 <= i < |batch| ==> batch[i].operation.Delete?
  }

  /** `delete_points` found none of its ids. */
  ghost predicate NothingFound(batch: seq<Entry>, missing: nat) {
    batch != [] && AllDeletes(batch) && missing == |batch|
  }

  ghost function Count(b: seq<Byte>, env: Env): nat {
    match CountEntries(env.codec, b)
    case Ok(n) => n
    case Err(_) => 0
  }

  ghost predicate Enabled(s: State, a: Action, env: Env) {
    var phase := s.proc.phase;
    match a
    case Create(_, _) => phase.Down? && !s.disk.config && CountEntries(env.codec, s.disk.log).Ok?
    case Start(_, _, image) =>
      && phase.Down?
      && Recover(s.disk, env).Ok? && Recover(s.disk, env).value.Some?
      && CountEntries(env.codec, s.disk.log).Ok?
      && ListsStore(image, Recover(s.disk, env).value.value)
    case Call(batch) => phase.Idle? && (AllUpserts(batch) || AllDeletes(batch))
    case WriteChunk(count) =>
      && phase.Logging? && phase.written < |phase.batch|
      && (phase.torn == 0 ==> s.proc.ops < MAX_OPS_BEFORE_BACKPRESSURE)
      && 0 < count && phase.torn + count <= |Record(env.codec, s.proc.compress, phase.batch[phase.written])|
    case Refuse =>
      && phase.Logging? && phase.written < |phase.batch| && phase.torn == 0
      && s.proc.ops >= MAX_OPS_BEFORE_BACKPRESSURE
    case BeginMutation => phase.Logging? && phase.written == |phase.batch|
    case MutateOne => phase.Mutating? && phase.next < |phase.batch|
    case FinishCall(image) => phase.Mutating? && phase.next == |phase.batch| && ListsStore(image, s.proc.mem)
    case Rename => phase.Saving?
    case Truncate => phase.Truncating?
    case WriteHeader(count) =>
      && phase.WritingHeader? && phase.bytes + count <= |Header(s.proc.compress)|
      && (count > 0 || phase.bytes == |Header(s.proc.compress)|)
    case Crash => !phase.Down?
  }

  /** The call in flight returns, with or without an error: what memory holds now is what a client sees. */
  ghost function Acknowledge(s: State): State {
    s.(proc := s.proc.(phase := Idle),
       hist := s.hist.(acked := s.proc.mem, pending := [], inLog := 0, applied := 0))
  }

  ghost function OpenLog(s: State, creating: bool): State {
    if s.proc.compress && s.disk.log == [] then s.(proc := s.proc.(phase := WritingHeader(0, creating)))
    else if creating then s.(proc := s.proc.(phase := Saving([], SaveConfig, false)))
    else s.(proc := s.proc.(phase := Idle))
  }

  ghost function DoCreate(s: State, compress: bool, binary: bool, env: Env): State {
    var proc := Process(Down, map[], Count(s.disk.log, env), compress, binary);
    OpenLog(s.(proc := proc, hist := History(map[], [], 0, 0, map[], [])), true)
  }

  /** Start-up: recover, open the log, and consolidate with a snapshot if the log counts any entry. */
  ghost function DoStart(s: State, compress: bool, binary: bool, image: seq<Point>, env: Env): State
    requires Enabled(s, Start(compress, binary, image), env)
  {
    var mem := Recover(s.disk, env).value.value;
    var n := Count(s.disk.log, env);
    var hist := History(mem, [], 0, 0, Load(s.disk, env).value, ReadEntries(env.codec, s.disk.log).value);
    if n > 0 then State(s.disk, Process(Saving(image, SaveConfig, true), mem, n, compress, binary), hist)
    else OpenLog(State(s.disk, Process(Idle, mem, n, compress, binary), hist), false)
  }

  ghost function DoCall(s: State, batch: seq<Entry>): State {
    s.(proc := s.proc.(phase := Logging(batch, 0, 0)),
       hist := s.hist.(pending := Operations(batch), inLog := 0, applied := 0))
  }

  ghost function DoWriteChunk(s: State, count: nat, env: Env): State
    requires Enabled(s, WriteChunk(count), env)
  {
    var Logging(batch, written, torn) := s.proc.phase;
    var record := Record(env.codec, s.proc.compress, batch[written]);
    var disk := s.disk.(log := s.disk.log + record[torn..torn + count]);
    if torn + count == |record| then
      State(disk, s.proc.(phase := Logging(batch, written + 1, 0), ops := s.proc.ops + 1),
            s.hist.(inLog := written + 1, logged := s.hist.logged + [batch[written]]))
    else s.(disk := disk, proc := s.proc.(phase := Logging(batch, written, torn + count)))
  }

  ghost predicate Rejects(op: Operation, env: Env) {
    op.Upsert? && !env.accepts(op.point)
  }

  /** An upsert that `insert` rejects ends the call with an error; a delete of an absent id goes on. */
  ghost function DoMutateOne(s: State, env: Env): State
    requires Enabled(s, MutateOne, env)
  {
    var Mutating(batch, next, missing) := s.proc.phase;
    var op := batch[next].operation;
    if Rejects(op, env) then Acknowledge(s)
    else
      var absent := op.Delete? && op.id !in s.proc.mem;
      s.(proc := s.proc.(phase := Mutating(batch, next + 1, if absent then missing + 1 else missing),
                         mem := Apply(s.proc.mem, op, env.accepts)),
         hist := s.hist.(applied := next + 1))
  }

  ghost function DoFinishCall(s: State, image: seq<Point>, env: Env): State
    requires Enabled(s, FinishCall(image), env)
  {
    var Mutating(batch, _, missing) := s.proc.phase;
    if NothingFound(batch, missing) then Acknowledge(s)
    else if s.proc.ops >= SNAPSHOT_THRESHOLD then
      s.(proc := s.proc.(phase := Saving(image, SaveConfig, true)))
    else Acknowledge(s)
  }

  /** One rename of a temporary file onto its target; the temporary files themselves are never read. */
  ghost function DoRename(s: State): State
    requires s.proc.phase.Saving?
  {
    var Saving(image, step, truncate) := s.proc.phase;
    var disk := s.disk;
    match step
    case SaveConfig =>
      s.(disk := disk.(config := true), proc := s.proc.(phase := Saving(image, SaveTimestamp, truncate)))
    case SaveTimestamp => s.(proc := s.proc.(phase := Saving(image, SavePoints, truncate)))
    case SavePoints =>
      s.(disk := if s.proc.binary then disk.(bin := Some(image)) else disk.(jsonl := Some(image)),
         proc := s.proc.(phase := Saving(image, SaveChecksum, truncate)))
    case SaveChecksum =>
      s.(disk := disk.(checksum := Some(if s.proc.binary then Binary(image) else JsonLines(image))),
         proc := s.proc.(phase := Saving(image, SaveIndex, truncate)))
    case SaveIndex =>
      if truncate then s.(proc := s.proc.(phase := Truncating)) else Acknowledge(s)
  }

  /** The log is emptied; from here on the snapshot alone carries the call. */
  ghost function DoTruncate(s: State): State {
    State(s.disk.(log := []),
          s.proc.(phase := WritingHeader(0, false), ops := 0),
          History(s.proc.mem, [], 0, 0, s.proc.mem, []))
  }

  ghost function DoWriteHeader(s: State, count: nat, env: Env): State
    requires Enabled(s, WriteHeader(count), env)
  {
    var WritingHeader(bytes, creating) := s.proc.phase;
    var header := Header(s.proc.compress);
    if count == 0 then
      if creating then s.(proc := s.proc.(phase := Saving([], SaveConfig, false)))
      else s.(proc := s.proc.(phase := Idle))
    else
      s.(disk := s.disk.(log := s.disk.log + header[bytes..bytes + count]),
         proc := s.proc.(phase := WritingHeader(bytes + count, creating)))
  }

  ghost function Step(s: State, a: Action, env: Env): State
    requires Enabled(s, a, env)
  {
    match a
    case Create(compress, binary) => DoCreate(s, compress, binary, env)
    case Start(compress, binary, image) => DoStart(s, compress, binary, image, env)
    case Call(batch) => DoCall(s, batch)
    case WriteChunk(count) => DoWriteChunk(s, count, env)
    case Refuse => Acknowledge(s)
    case BeginMutation => s.(proc := s.proc.(phase := Mutating(s.proc.phase.batch, 0, 0)))
    case MutateOne => DoMutateOne(s, env)
    case FinishCall(image) => DoFinishCall(s, image, env)
    case Rename => DoRename(s)
    case Truncate => DoTruncate(s)
    case WriteHeader(count) => DoWriteHeader(s, count, env)
    case Crash => s.(proc := s.proc.(phase := Down))
  }

  ghost predicate SameFiles(d: Disk, e: Disk) {
    d.bin == e.bin && d.jsonl == e.jsonl && d.checksum == e.checksum
  }

  lemma {:induction false} OpeningFiles(s: State, a: Action, env: Env)
    requires Enabled(s, a, env) && (a.Create? || a.Start?)
    ensures SameFiles(Step(s, a, env).disk, s.disk) && Step(s, a, env).disk.config == s.disk.config
    ensures s.proc.phase.Down? && Step(s, a, env).proc.binary == a.binary && !Step(s, a, env).proc.phase.Down?
  {
  }

  lemma {:induction false} CallFiles(s: State, a: Action, env: Env)
    requires Enabled(s, a, env) && (a.Call? || a.WriteChunk? || a.Refuse? || a.BeginMutation? || a.MutateOne? || a.FinishCall?)
    ensures SameFiles(Step(s, a, env).disk, s.disk) && Step(s, a, env).disk.config == s.disk.config
    ensures !s.proc.phase.Down? && Step(s, a, env).proc.binary == s.proc.binary && !Step(s, a, env).proc.phase.Down?
  {
  }

  lemma {:induction false} SnapshotFiles(s: State, a: Action, env: Env)
    requires Enabled(s, a, env) && (a.Rename? || a.Truncate? || a.WriteHeader? || a.Crash?)
    ensures !a.Rename? ==> SameFiles(Step(s, a, env).disk, s.disk)
    ensures s.disk.config ==> Step(s, a, env).disk.config
    ensures !s.proc.phase.Down? && Step(s, a, env).proc.binary == s.proc.binary
    ensures Step(s, a, env).proc.phase.Down? <==> a.Crash?
  {
  }

  /** Only a rename touches the snapshot, only opening sets the options, and the collection is never removed. */
  lemma {:induction false} StepFiles(s: State, a: Action, env: Env)
    requires Enabled(s, a, env)
    ensures !a.Rename? ==> SameFiles(Step(s, a, env).disk, s.disk)
    ensures s.disk.config ==> Step(s, a, env).disk.config
    ensures a.Create? || a.Start? ==> s.proc.phase.Down? && Step(s, a, env).proc.binary == a.binary
    ensures !a.Create? && !a.Start? ==> Step(s, a, env).proc.binary == s.proc.binary && !s.proc.phase.Down?
    ensures Step(s, a, env).proc.phase.Down? <==> a.Crash?
  {
    if a.Create? || a.Start? {
      OpeningFiles(s, a, env);
    } else if a.Rename? || a.Truncate? || a.WriteHeader? || a.Crash? {
      SnapshotFiles(s, a, env);
    } else {
      CallFiles(s, a, env);
    }
  }

  /** The window between the renames of points and checksum is left by the second of them or a crash. */
  lemma {:induction false} WindowSteps(s: State, a: Action, env: Env)
    requires Enabled(s, a, env) && s.proc.phase.Saving?
    ensures a.Rename? || a.Crash?
  {
  }

  /** Nothing on disk, nothing running. */
  const INITIAL := State(
    Disk(false, None, None, None, []),
    Process(Down, map[], 0, false, false),
    History(map[], [], 0, 0, map[], []))

  // ---- What the caller must avoid ----

  /** A log that can be appended to in this format: empty, or nothing but its header. */
  predicate Clean(log: seq<Byte>, compress: bool) {
    log == [] || log == Header(compress)
  }

  /**
   * The guards of the branches that break the promise, all checkable beforehand: a point that
   * `insert` rejects after it was logged; a batch that is refused when a part of it is logged; a
   * frame over the reader's limit; and reopening a log whose content is not counted, so that no
   * snapshot follows, and yet is not a clean header.
   */
  ghost predicate Safe(s: State, a: Action, env: Env)
    requires Enabled(s, a, env)
  {
    match a
    case Call(batch) => s.proc.compress ==> AllFit(env.codec, batch)
    case Refuse => s.proc.phase.written == 0
    case MutateOne => !Rejects(s.proc.phase.batch[s.proc.phase.next].operation, env)
    case Start(compress, _, _) => Count(s.disk.log, env) == 0 ==> Clean(s.disk.log, compress)
    case Create(compress, _) => Clean(s.disk.log, compress)
    case _ => true
  }

  /** The state after a run of enabled and safe actions. */
  ghost predicate Run(s: State, actions: seq<Action>, t: State, env: Env)
    decreases |actions|
  {
    if actions == [] then s == t
    else (
      && Enabled(s, actions[0], env) && Safe(s, actions[0], env)
      && Run(Step(s, actions[0], env), actions[1..], t, env))
  }

  // ---- The promise ----

  /**
   * Recovering from this disk yields the acknowledged state plus a prefix of the call in
   * flight, or an explicit error, or, before the first snapshot, no collection at all.
   */
  ghost predicate Recoverable(s: State, env: Env) {
    var r := Recover(s.disk, env);
    || r.Err?
    || (r.value.None? && s.hist.acked == map[])
    || (r.value.Some? && AckedPlusPrefix(s.hist, r.value.value, env))
  }

  ghost predicate AckedPlusPrefix(h: History, recovered: Store, env: Env) {
    exists k :: 0 <= k <= |h.pending| && recovered == Replay(h.acked, h.pending[..k], env.accepts)
  }
}
