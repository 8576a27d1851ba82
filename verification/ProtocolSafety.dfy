/** The protocol's invariant, and the promise it gives for every run. */
module ProtocolSafety {
  import opened Base
  import opened WalReplay
  import opened WalFormat
  import opened PointInTime
  import opened Snapshot
  import opened Protocol

  // ---- The invariant ----

  ghost predicate Sound(s: Store, accepts: Checks) {
    WellKeyed(s) && forall id :: id in s ==> accepts(s[id])
  }

  /** The part of the log that the acknowledged state already contains. */
  ghost function Covered(h: History): seq<Operation>
    requires h.inLog <= |h.logged|
  {
    Operations(h.logged)[..|h.logged| - h.inLog]
  }

  ghost predicate HistoryOk(h: History, env: Env) {
    && h.inLog <= |h.pending| && h.applied <= |h.pending| && h.inLog <= |h.logged|
    && Sound(h.base, env.accepts) && LinkFree(h.pending) && LinkFree(Operations(h.logged))
    && Operations(h.logged) == Covered(h) + h.pending[..h.inLog]
    && h.acked == Replay(h.base, Covered(h), env.accepts)
  }

  /** Whatever snapshot the disk yields, it is this store. */
  ghost predicate LoadsOnly(d: Disk, s: Store, env: Env) {
    Load(d, env).Ok? ==> Load(d, env).value == s
  }

  ghost predicate NoFiles(d: Disk) {
    d.bin.None? && d.jsonl.None? && d.checksum.None?
  }

  ghost predicate LogIs(s: State, env: Env) {
    && s.disk.log == LogBytes(env.codec, s.proc.compress, s.hist.logged)
    && (s.proc.compress ==> AllFit(env.codec, s.hist.logged))
  }

  /** In memory the call in flight is wholly applied or, if it was refused, not at all. */
  ghost predicate Settled(h: History) {
    h.applied == h.inLog || h.applied == 0
  }

  ghost predicate SavingOk(s: State, env: Env)
    requires s.proc.phase.Saving?
  {
    var h, step := s.hist, s.proc.phase.step;
    && ListsStore(s.proc.phase.image, s.proc.mem) && Settled(h)
    && ReadEntries(env.codec, s.disk.log) == Ok(h.logged)
    && (step != SaveConfig ==> s.disk.config)
    && (s.proc.phase.truncate || (LogIs(s, env) && h.pending == [] && h.logged == []))
    && (step == SaveChecksum || step == SaveIndex ==>
          Some(s.proc.phase.image) == if s.proc.binary then s.disk.bin else s.disk.jsonl)
    && match step
       case SaveConfig | SaveTimestamp | SavePoints => LoadsOnly(s.disk, h.base, env)
       case SaveChecksum => LoadsOnly(s.disk, h.base, env) || LoadsOnly(s.disk, s.proc.mem, env)
       case SaveIndex => LoadsOnly(s.disk, s.proc.mem, env)
  }

  ghost predicate LoggingOk(s: State, env: Env)
    requires s.proc.phase.Logging?
  {
    var Logging(batch, written, torn) := s.proc.phase;
    var h := s.hist;
    && s.disk.config && LoadsOnly(s.disk, h.base, env) && h.applied == 0
    && written <= |batch|
    && (forall i :: 0 <= i < |batch| ==> !batch[i].operation.Link?)
    && (s.proc.compress ==> AllFit(env.codec, batch) && AllFit(env.codec, h.logged))
    && h.pending == Operations(batch) && h.inLog == written
    && (if written < |batch| then
          && torn < |Record(env.codec, s.proc.compress, batch[written])|
          && s.disk.log == LogBytes(env.codec, s.proc.compress, h.logged)
                         + Record(env.codec, s.proc.compress, batch[written])[..torn]
        else torn == 0 && s.disk.log == LogBytes(env.codec, s.proc.compress, h.logged))
  }

  ghost predicate MutatingOk(s: State, env: Env)
    requires s.proc.phase.Mutating?
  {
    var Mutating(batch, next, missing) := s.proc.phase;
    var h := s.hist;
    && s.disk.config && LoadsOnly(s.disk, h.base, env) && LogIs(s, env) && next <= |batch|
    && h.applied == next
    && h.pending == Operations(batch) && h.inLog == |batch|
  }

  ghost predicate WritingHeaderOk(s: State, env: Env)
    requires s.proc.phase.WritingHeader?
  {
    var WritingHeader(bytes, creating) := s.proc.phase;
    && bytes <= |Header(s.proc.compress)| && s.disk.log == Header(s.proc.compress)[..bytes]
    && s.hist.logged == [] && s.hist.pending == [] && LoadsOnly(s.disk, s.hist.base, env)
    && (if creating then s.proc.mem == map[] else s.disk.config)
  }

  /** After a crash only this is known: the files recover to the acknowledged state plus a prefix. */
  ghost predicate DownOk(s: State, env: Env) {
    if !s.disk.config then NoFiles(s.disk) && s.hist.acked == map[]
    else
      Load(s.disk, env).Ok? && ReadEntries(env.codec, s.disk.log).Ok? ==>
        var ops := Operations(ReadEntries(env.codec, s.disk.log).value);
        && Sound(Load(s.disk, env).value, env.accepts) && LinkFree(ops)
        && AckedPlusPrefix(s.hist, Replay(Load(s.disk, env).value, ops, env.accepts), env)
  }

  ghost predicate IdleOk(s: State, env: Env) {
    && s.disk.config && LoadsOnly(s.disk, s.hist.base, env) && LogIs(s, env) && s.hist.pending == []
  }

  ghost predicate TruncatingOk(s: State, env: Env) {
    && s.disk.config && LoadsOnly(s.disk, s.proc.mem, env) && Settled(s.hist)
    && ReadEntries(env.codec, s.disk.log) == Ok(s.hist.logged)
  }

  /** What holds in each phase of a running process. */
  ghost predicate PhaseOk(s: State, env: Env) {
    match s.proc.phase
    case Down => false
    case Idle => IdleOk(s, env)
    case Logging(_, _, _) => LoggingOk(s, env)
    case Mutating(_, _, _) => MutatingOk(s, env)
    case Saving(_, _, _) => SavingOk(s, env)
    case Truncating => TruncatingOk(s, env)
    case WritingHeader(_, _) => WritingHeaderOk(s, env)
  }

  /** What holds in all of them. */
  ghost predicate MemoryOk(s: State, env: Env) {
    var h := s.hist;
    && HistoryOk(h, env)
    && s.proc.mem == Replay(h.acked, h.pending[..h.applied], env.accepts)
    && (!s.disk.config ==> NoFiles(s.disk) && h.acked == map[] && h.base == map[] && h.pending == [])
  }

  ghost predicate RunningOk(s: State, env: Env) {
    MemoryOk(s, env) && PhaseOk(s, env)
  }

  lemma {:induction false} SameMemory(s: State, t: State, env: Env)
    requires MemoryOk(s, env) && t.hist == s.hist && t.proc.mem == s.proc.mem
    requires t.disk.config || (!s.disk.config && NoFiles(t.disk))
    ensures MemoryOk(t, env)
  {
  }

  ghost predicate Inv(s: State, env: Env) {
    if s.proc.phase.Down? then DownOk(s, env) else RunningOk(s, env)
  }

  // ---- Replay facts ----

  lemma {:induction false} ReplaySound(s: Store, ops: seq<Operation>, accepts: Checks)
    requires Sound(s, accepts) && LinkFree(ops)
    ensures Sound(Replay(s, ops, accepts), accepts)
  {
    if ops != [] {
      ReplaySound(s, ops[..|ops| - 1], accepts);
    }
  }

  lemma {:induction false} MemorySound(s: State, env: Env)
    requires HistoryOk(s.hist, env)
    requires s.proc.mem == Replay(s.hist.acked, s.hist.pending[..s.hist.applied], env.accepts)
    ensures Sound(s.hist.acked, env.accepts) && Sound(s.proc.mem, env.accepts)
  {
    ReplaySound(s.hist.base, Covered(s.hist), env.accepts);
    ReplaySound(s.hist.acked, s.hist.pending[..s.hist.applied], env.accepts);
  }

  /** The log replayed on the last snapshot: the acknowledged state plus what is wholly logged. */
  lemma {:induction false} BaseReplays(h: History, env: Env)
    requires HistoryOk(h, env)
    ensures Replay(h.base, Operations(h.logged), env.accepts)
         == Replay(h.acked, h.pending[..h.inLog], env.accepts)
  {
    ReplayConcat(h.base, Covered(h), h.pending[..h.inLog], env.accepts);
  }

  /** The log replayed on the new snapshot: the same state. */
  lemma {:induction false} MemoryReplays(s: State, env: Env)
    requires HistoryOk(s.hist, env) && Settled(s.hist)
    requires s.proc.mem == Replay(s.hist.acked, s.hist.pending[..s.hist.applied], env.accepts)
    ensures Replay(s.proc.mem, Operations(s.hist.logged), env.accepts)
         == Replay(s.hist.acked, s.hist.pending[..s.hist.inLog], env.accepts)
  {
    var h := s.hist;
    BaseReplays(h, env);
    if h.applied == h.inLog {
      ReplayAbsorbsSuffix(h.base, Operations(h.logged), 0, env.accepts);
      assert Operations(h.logged)[0..] == Operations(h.logged);
    } else {
      assert s.proc.mem == h.acked;
      ReplayAbsorbsSuffix(h.base, Covered(h), 0, env.accepts);
      assert Covered(h)[0..] == Covered(h);
      ReplayConcat(h.acked, Covered(h), h.pending[..h.inLog], env.accepts);
    }
  }

  // ---- What a crash finds ----

  /** The snapshot is the old or the new one, and the log reads as what is logged. */
  lemma {:induction false} CrashOnWholeLog(s: State, env: Env)
    requires HistoryOk(s.hist, env) && s.disk.config
    requires s.proc.mem == Replay(s.hist.acked, s.hist.pending[..s.hist.applied], env.accepts)
    requires ReadEntries(env.codec, s.disk.log) == Ok(s.hist.logged)
    requires LoadsOnly(s.disk, s.hist.base, env) || (Settled(s.hist) && LoadsOnly(s.disk, s.proc.mem, env))
    ensures DownOk(s, env)
  {
    MemorySound(s, env);
    if Load(s.disk, env).Ok? {
      BaseReplays(s.hist, env);
      if Load(s.disk, env).value != s.hist.base {
        MemoryReplays(s, env);
      }
    }
  }

  /** In the middle of an append the log may show one operation more than is wholly written. */
  lemma {:induction false} CrashWhileLogging(s: State, env: Env)
    requires RunningOk(s, env) && s.proc.phase.Logging? && Laws(env.codec)
    ensures DownOk(s, env)
  {
    var Logging(batch, written, torn) := s.proc.phase;
    var h, c := s.hist, env.codec;
    if written == |batch| || torn == 0 {
      LogReadsBack(c, s.proc.compress, h.logged);
      if written < |batch| {
        var record := Record(c, s.proc.compress, batch[written]);
        assert LogBytes(c, s.proc.compress, h.logged) + record[..torn] == LogBytes(c, s.proc.compress, h.logged);
      }
      CrashOnWholeLog(s, env);
    } else {
      var e := batch[written];
      TornAppend(c, s.proc.compress, h.logged, e, torn);
      if ReadEntries(c, s.disk.log) == Ok(h.logged) {
        CrashOnWholeLog(s, env);
      } else if Load(s.disk, env).Ok? && ReadEntries(c, s.disk.log).Ok? {
        OneMoreOperation(h, e, env);
        assert AckedPlusPrefix(h, Replay(h.base, Operations(h.logged + [e]), env.accepts), env);
      }
    }
  }

  lemma {:induction false} OneMoreOperation(h: History, e: Entry, env: Env)
    requires HistoryOk(h, env) && h.inLog < |h.pending| && h.pending[h.inLog] == e.operation
    ensures LinkFree(Operations(h.logged + [e]))
    ensures Operations(h.logged + [e]) == Covered(h) + h.pending[..h.inLog + 1]
    ensures Replay(h.base, Operations(h.logged + [e]), env.accepts)
         == Replay(h.acked, h.pending[..h.inLog + 1], env.accepts)
  {
    OperationsConcat(h.logged, [e]);
    assert h.pending[..h.inLog + 1] == h.pending[..h.inLog] + [e.operation];
    assert Operations([e]) == [e.operation];
    ReplayConcat(h.base, Covered(h), h.pending[..h.inLog + 1], env.accepts);
  }

  lemma {:induction false} HeaderReads(c: Codec, compress: bool, bytes: nat)
    requires Laws(c) && bytes <= |Header(compress)|
    ensures ReadEntries(c, Header(compress)[..bytes]) == Ok([])
    ensures LogBytes(c, compress, []) == Header(compress)
  {
    TornHeader(c, bytes);
  }

  lemma {:induction false} CrashPreserves(s: State, env: Env)
    requires RunningOk(s, env) && Laws(env.codec)
    ensures DownOk(s, env)
  {
    match s.proc.phase
    case Down =>
    case Idle =>
      LogReadsBack(env.codec, s.proc.compress, s.hist.logged);
      CrashOnWholeLog(s, env);
    case Logging(_, _, _) => CrashWhileLogging(s, env);
    case Mutating(_, _, _) =>
      LogReadsBack(env.codec, s.proc.compress, s.hist.logged);
      CrashOnWholeLog(s, env);
    case Saving(_, _, _) =>
      if s.disk.config {
        CrashOnWholeLog(s, env);
      }
    case Truncating => CrashOnWholeLog(s, env);
    case WritingHeader(bytes, _) =>
      HeaderReads(env.codec, s.proc.compress, bytes);
      if s.disk.config {
        CrashOnWholeLog(s, env);
      }
  }

  // ---- The steps ----

  lemma {:induction false} EmptyHistory(s: Store, env: Env)
    requires Sound(s, env.accepts)
    ensures HistoryOk(History(s, [], 0, 0, s, []), env)
    ensures Replay(s, [], env.accepts) == s
  {
    assert Operations([]) == [];
  }

  lemma {:induction false} NothingLoads(d: Disk, env: Env)
    requires NoFiles(d)
    ensures Load(d, env) == Ok(map[])
  {
  }

  /** A clean log is the log of no entries, and reads as such. */
  lemma {:induction false} CleanLogIsEmpty(c: Codec, compress: bool)
    requires Laws(c)
    ensures LogBytes(c, compress, []) == Header(compress)
    ensures ReadEntries(c, Header(compress)) == Ok([])
  {
    HeaderReads(c, compress, |Header(compress)|);
    assert Header(compress)[..|Header(compress)|] == Header(compress);
  }

  lemma {:induction false} CreatedMemoryOk(t: State, env: Env)
    requires t.hist == History(map[], [], 0, 0, map[], []) && t.proc.mem == map[] && NoFiles(t.disk)
    ensures MemoryOk(t, env)
  {
    EmptyHistory(map[], env);
    assert t.hist.pending[..0] == [];
  }

  lemma {:induction false} CreatedPhaseOk(t: State, env: Env)
    requires t.hist == History(map[], [], 0, 0, map[], []) && t.proc.mem == map[] && NoFiles(t.disk)
    requires Laws(env.codec) && !t.disk.config
    requires || (t.proc.phase == WritingHeader(0, true) && t.disk.log == [])
             || (t.proc.phase == Saving([], SaveConfig, false) && t.disk.log == Header(t.proc.compress))
    ensures PhaseOk(t, env)
  {
    NothingLoads(t.disk, env);
    CleanLogIsEmpty(env.codec, t.proc.compress);
    assert Header(t.proc.compress)[..0] == [];
  }

  lemma {:induction false} CreatePreserves(s: State, compress: bool, binary: bool, env: Env)
    requires DownOk(s, env) && Laws(env.codec)
    requires Enabled(s, Create(compress, binary), env) && Safe(s, Create(compress, binary), env)
    ensures Inv(DoCreate(s, compress, binary, env), env)
  {
    var t := DoCreate(s, compress, binary, env);
    CreatedMemoryOk(t, env);
    CreatedPhaseOk(t, env);
  }

  lemma {:induction false} RecoveredHistory(base: Store, es: seq<Entry>, env: Env)
    requires Sound(base, env.accepts) && LinkFree(Operations(es))
    ensures HistoryOk(History(Replay(base, Operations(es), env.accepts), [], 0, 0, base, es), env)
  {
    var h := History(Replay(base, Operations(es), env.accepts), [], 0, 0, base, es);
    assert Covered(h) == Operations(es);
    assert Covered(h) + h.pending[..0] == Operations(es);
  }

  /** Replaying the log on the loaded snapshot is the memory the process starts with. */
  lemma {:induction false} StartedMemoryOk(t: State, base: Store, es: seq<Entry>, env: Env)
    requires Sound(base, env.accepts) && LinkFree(Operations(es)) && t.disk.config
    requires t.proc.mem == Replay(base, Operations(es), env.accepts)
    requires t.hist == History(t.proc.mem, [], 0, 0, base, es)
    ensures MemoryOk(t, env)
  {
    RecoveredHistory(base, es, env);
    assert t.hist.pending[..0] == [];
  }

  /** A log with entries is consolidated by a snapshot first. */
  lemma {:induction false} ConsolidatingPhaseOk(t: State, env: Env)
    requires t.disk.config && Settled(t.hist) && LoadsOnly(t.disk, t.hist.base, env)
    requires t.proc.phase.Saving? && t.proc.phase.step == SaveConfig && t.proc.phase.truncate
    requires ListsStore(t.proc.phase.image, t.proc.mem)
    requires ReadEntries(env.codec, t.disk.log) == Ok(t.hist.logged)
    ensures PhaseOk(t, env)
  {
  }

  /** A log without any is appended to, after its header. */
  lemma {:induction false} StartedPhaseOk(t: State, env: Env)
    requires t.disk.config && t.hist.logged == [] && t.hist.pending == [] && t.hist.applied == 0
    requires LoadsOnly(t.disk, t.hist.base, env) && Laws(env.codec)
    requires || (t.proc.phase == WritingHeader(0, false) && t.disk.log == [])
             || (t.proc.phase == Idle && t.disk.log == Header(t.proc.compress))
    ensures PhaseOk(t, env)
  {
    CleanLogIsEmpty(env.codec, t.proc.compress);
    assert Header(t.proc.compress)[..0] == [];
  }

  lemma {:induction false} CleanLogHasNoEntries(log: seq<Byte>, compress: bool, env: Env)
    requires Clean(log, compress) && Laws(env.codec)
    ensures ReadEntries(env.codec, log) == Ok([])
  {
    CleanLogIsEmpty(env.codec, compress);
    HeaderReads(env.codec, compress, 0);
    assert Header(compress)[..0] == [];
  }

  lemma {:induction false} StartPreserves(s: State, compress: bool, binary: bool, image: seq<Point>, env: Env)
    requires DownOk(s, env) && Laws(env.codec)
    requires Enabled(s, Start(compress, binary, image), env) && Safe(s, Start(compress, binary, image), env)
    ensures Inv(DoStart(s, compress, binary, image, env), env)
  {
    var t := DoStart(s, compress, binary, image, env);
    var base, es := Load(s.disk, env).value, ReadEntries(env.codec, s.disk.log).value;
    StartedMemoryOk(t, base, es, env);
    if Count(s.disk.log, env) > 0 {
      ConsolidatingPhaseOk(t, env);
    } else {
      CleanLogHasNoEntries(s.disk.log, compress, env);
      StartedPhaseOk(t, env);
    }
  }

  lemma {:induction false} CallPreserves(s: State, batch: seq<Entry>, env: Env)
    requires RunningOk(s, env)
    requires Enabled(s, Call(batch), env) && Safe(s, Call(batch), env)
    ensures RunningOk(DoCall(s, batch), env)
  {
    var t := DoCall(s, batch);
    assert s.hist.pending[..s.hist.inLog] == [] && t.hist.pending[..0] == [];
    assert s.hist.pending[..s.hist.applied] == [];
    if batch != [] {
      NothingTorn(s.disk.log, env.codec, s.proc.compress, batch[0]);
    }
  }

  lemma {:induction false} AppendPiece(log: seq<Byte>, x: seq<Byte>, i: nat, j: nat)
    requires i <= j <= |x|
    ensures log + x[..i] + x[i..j] == log + x[..j]
  {
  }

  lemma {:induction false} MorePieces(file: seq<Byte>, log: seq<Byte>, x: seq<Byte>, i: nat, j: nat)
    requires i <= j <= |x| && file == log + x[..i]
    ensures file + x[i..j] == log + x[..j]
  {
    AppendPiece(log, x, i, j);
  }

  /** More bytes of the same record. */
  lemma {:induction false} LoggingFurther(s: State, log: seq<Byte>, torn: nat, t: State, env: Env)
    requires s.proc.phase.Logging? && LoggingOk(s, env) && s.proc.phase.written < |s.proc.phase.batch|
    requires torn < |Record(env.codec, s.proc.compress, s.proc.phase.batch[s.proc.phase.written])|
    requires log == LogBytes(env.codec, s.proc.compress, s.hist.logged)
                  + Record(env.codec, s.proc.compress, s.proc.phase.batch[s.proc.phase.written])[..torn]
    requires t == s.(disk := s.disk.(log := log), proc := s.proc.(phase := s.proc.phase.(torn := torn)))
    ensures LoggingOk(t, env) && t.disk.config
  {
    assert Load(t.disk, env) == Load(s.disk, env);
  }

  lemma {:induction false} PartOfRecordStep(s: State, count: nat, env: Env)
    requires Enabled(s, WriteChunk(count), env)
    requires s.proc.phase.torn + count < |Record(env.codec, s.proc.compress, s.proc.phase.batch[s.proc.phase.written])|
    ensures var Logging(batch, written, torn) := s.proc.phase;
            var record := Record(env.codec, s.proc.compress, batch[written]);
            DoWriteChunk(s, count, env) ==
            s.(disk := s.disk.(log := s.disk.log + record[torn..torn + count]),
               proc := s.proc.(phase := s.proc.phase.(torn := torn + count)))
  {
  }

  lemma {:induction false} PartOfRecordLog(s: State, count: nat, env: Env)
    requires s.proc.phase.Logging? && LoggingOk(s, env) && Enabled(s, WriteChunk(count), env)
    ensures var Logging(batch, written, torn) := s.proc.phase;
            var record := Record(env.codec, s.proc.compress, batch[written]);
            s.disk.log + record[torn..torn + count] ==
            LogBytes(env.codec, s.proc.compress, s.hist.logged) + record[..torn + count]
  {
    var Logging(batch, written, torn) := s.proc.phase;
    MorePieces(s.disk.log, LogBytes(env.codec, s.proc.compress, s.hist.logged),
               Record(env.codec, s.proc.compress, batch[written]), torn, torn + count);
  }

  lemma {:induction false} PartOfRecordPreserves(s: State, count: nat, env: Env)
    requires RunningOk(s, env) && Enabled(s, WriteChunk(count), env)
    requires s.proc.phase.torn + count < |Record(env.codec, s.proc.compress, s.proc.phase.batch[s.proc.phase.written])|
    ensures RunningOk(DoWriteChunk(s, count, env), env)
  {
    var t := DoWriteChunk(s, count, env);
    PartOfRecordLog(s, count, env);
    PartOfRecordStep(s, count, env);
    LoggingFurther(s, t.disk.log, s.proc.phase.torn + count, t, env);
    SameMemory(s, t, env);
  }

  lemma {:induction false} LogExtended(c: Codec, compress: bool, es: seq<Entry>, e: Entry)
    ensures LogBytes(c, compress, es) + Record(c, compress, e) == LogBytes(c, compress, es + [e])
  {
    AppendedBytes(c, compress, es, e);
  }

  lemma {:induction false} RecordCompletedHistory(h: History, e: Entry, env: Env)
    requires HistoryOk(h, env) && h.inLog < |h.pending| && h.pending[h.inLog] == e.operation
    ensures HistoryOk(h.(inLog := h.inLog + 1, logged := h.logged + [e]), env)
  {
    OneMoreOperation(h, e, env);
    OperationsConcat(h.logged, [e]);
    assert Covered(h.(inLog := h.inLog + 1, logged := h.logged + [e])) == Covered(h);
  }

  lemma {:induction false} RecordCompletedLog(s: State, count: nat, env: Env)
    requires s.proc.phase.Logging? && LoggingOk(s, env) && Enabled(s, WriteChunk(count), env)
    requires s.proc.phase.torn + count == |Record(env.codec, s.proc.compress, s.proc.phase.batch[s.proc.phase.written])|
    ensures DoWriteChunk(s, count, env).disk.log
         == LogBytes(env.codec, s.proc.compress, s.hist.logged + [s.proc.phase.batch[s.proc.phase.written]])
  {
    var Logging(batch, written, torn) := s.proc.phase;
    var record := Record(env.codec, s.proc.compress, batch[written]);
    AppendPiece(LogBytes(env.codec, s.proc.compress, s.hist.logged), record, torn, |record|);
    assert record[..|record|] == record;
    LogExtended(env.codec, s.proc.compress, s.hist.logged, batch[written]);
  }

  lemma {:induction false} RecordCompletedLogging(s: State, count: nat, env: Env)
    requires s.proc.phase.Logging? && LoggingOk(s, env) && Enabled(s, WriteChunk(count), env)
    requires s.proc.phase.torn + count == |Record(env.codec, s.proc.compress, s.proc.phase.batch[s.proc.phase.written])|
    ensures var t := DoWriteChunk(s, count, env); t.proc.phase.Logging? && LoggingOk(t, env)
  {
    var Logging(batch, written, torn) := s.proc.phase;
    RecordCompletedLog(s, count, env);
    var t := DoWriteChunk(s, count, env);
    assert Load(t.disk, env) == Load(s.disk, env);
    if written + 1 < |batch| {
      NothingTorn(t.disk.log, env.codec, s.proc.compress, batch[written + 1]);
    }
  }

  lemma {:induction false} RecordCompletedPreserves(s: State, count: nat, env: Env)
    requires RunningOk(s, env) && Enabled(s, WriteChunk(count), env)
    requires s.proc.phase.torn + count == |Record(env.codec, s.proc.compress, s.proc.phase.batch[s.proc.phase.written])|
    ensures RunningOk(DoWriteChunk(s, count, env), env)
  {
    RecordCompletedLogging(s, count, env);
    RecordCompletedStep(s, count, env);
    RecordCompletedMemory(s, s.proc.phase.batch[s.proc.phase.written], DoWriteChunk(s, count, env), env);
  }

  lemma {:induction false} RecordCompletedStep(s: State, count: nat, env: Env)
    requires Enabled(s, WriteChunk(count), env)
    requires s.proc.phase.torn + count == |Record(env.codec, s.proc.compress, s.proc.phase.batch[s.proc.phase.written])|
    ensures var t, written := DoWriteChunk(s, count, env), s.proc.phase.written;
            && t.hist == s.hist.(inLog := written + 1, logged := s.hist.logged + [s.proc.phase.batch[written]])
            && t.proc.mem == s.proc.mem && t.disk.config == s.disk.config
  {
  }

  lemma {:induction false} RecordCompletedMemory(s: State, e: Entry, t: State, env: Env)
    requires MemoryOk(s, env) && s.disk.config && t.disk.config && t.proc.mem == s.proc.mem
    requires s.hist.inLog < |s.hist.pending| && s.hist.pending[s.hist.inLog] == e.operation
    requires t.hist == s.hist.(inLog := s.hist.inLog + 1, logged := s.hist.logged + [e])
    ensures MemoryOk(t, env)
  {
    RecordCompletedHistory(s.hist, e, env);
  }

  lemma {:induction false} WriteChunkPreserves(s: State, count: nat, env: Env)
    requires RunningOk(s, env) && Enabled(s, WriteChunk(count), env)
    ensures RunningOk(DoWriteChunk(s, count, env), env)
  {
    var Logging(batch, written, torn) := s.proc.phase;
    if torn + count < |Record(env.codec, s.proc.compress, batch[written])| {
      PartOfRecordPreserves(s, count, env);
    } else {
      RecordCompletedPreserves(s, count, env);
    }
  }

  /** A record of which no byte is written yet. */
  lemma {:induction false} NothingTorn(log: seq<Byte>, c: Codec, compress: bool, e: Entry)
    ensures |Record(c, compress, e)| > 0
    ensures log + Record(c, compress, e)[..0] == log
  {
  }

  lemma {:induction false} MutateOnePreserves(s: State, env: Env)
    requires RunningOk(s, env) && Enabled(s, MutateOne, env) && Safe(s, MutateOne, env)
    ensures RunningOk(DoMutateOne(s, env), env)
  {
    var h, next := s.hist, s.proc.phase.next;
    assert h.pending[next] == s.proc.phase.batch[next].operation;
    ReplayOneMore(h.acked, h.pending, next, env.accepts);
  }

  lemma {:induction false} ReplayOneMore(s: Store, ops: seq<Operation>, i: nat, accepts: Checks)
    requires i < |ops|
    ensures Replay(s, ops[..i + 1], accepts) == Apply(Replay(s, ops[..i], accepts), ops[i], accepts)
  {
    assert ops[..i + 1][..i] == ops[..i];
  }

  lemma {:induction false} AcknowledgePreserves(s: State, env: Env)
    requires HistoryOk(s.hist, env) && LogIs(s, env) && s.disk.config && LoadsOnly(s.disk, s.hist.base, env)
    requires s.proc.mem == Replay(s.hist.acked, s.hist.pending[..s.hist.inLog], env.accepts)
    ensures RunningOk(Acknowledge(s), env)
  {
    BaseReplays(s.hist, env);
    var t := Acknowledge(s);
    assert Covered(t.hist) == Operations(s.hist.logged);
    assert Covered(t.hist) + [] == Operations(s.hist.logged);
  }

  lemma {:induction false} NothingTornIsLog(s: State, env: Env)
    requires s.proc.phase.Logging? && LoggingOk(s, env) && s.proc.phase.torn == 0
    ensures LogIs(s, env)
  {
    var Logging(batch, written, _) := s.proc.phase;
    if written < |batch| {
      NothingTorn(LogBytes(env.codec, s.proc.compress, s.hist.logged), env.codec, s.proc.compress, batch[written]);
    }
  }

  lemma {:induction false} RefusePreserves(s: State, env: Env)
    requires RunningOk(s, env) && Enabled(s, Refuse, env) && Safe(s, Refuse, env)
    ensures RunningOk(Acknowledge(s), env)
  {
    NothingTornIsLog(s, env);
    AcknowledgePreserves(s, env);
  }

  lemma {:induction false} FinishCallPreserves(s: State, image: seq<Point>, env: Env)
    requires RunningOk(s, env) && Enabled(s, FinishCall(image), env) && Laws(env.codec)
    ensures RunningOk(DoFinishCall(s, image, env), env)
  {
    if NothingFound(s.proc.phase.batch, s.proc.phase.missing) || s.proc.ops < SNAPSHOT_THRESHOLD {
      AcknowledgePreserves(s, env);
    } else {
      LogReadsBack(env.codec, s.proc.compress, s.hist.logged);
    }
  }

  /** Over a new points file the old checksum admits the old image, the new one, or none. */
  lemma {:induction false} PointsReplaced(
      d: Disk, image: seq<Point>, binary: bool, before: Store, after: Store, env: Env)
    requires LoadsOnly(d, before, env) && FromPoints(image) == after
    ensures var e := if binary then d.(bin := Some(image)) else d.(jsonl := Some(image));
            LoadsOnly(e, before, env) || LoadsOnly(e, after, env)
  {
  }

  lemma {:induction false} PointsRenamedFrom(s: State, base: Store, env: Env)
    requires s.proc.phase.Saving? && s.proc.phase.step == SavePoints
    requires LoadsOnly(s.disk, base, env) && FromPoints(s.proc.phase.image) == s.proc.mem
    ensures var d := DoRename(s).disk;
            LoadsOnly(d, base, env) || LoadsOnly(d, s.proc.mem, env)
  {
    PointsReplaced(s.disk, s.proc.phase.image, s.proc.binary, base, s.proc.mem, env);
  }

  lemma {:induction false} SavingPoints(s: State, env: Env)
    requires RunningOk(s, env) && s.proc.phase.Saving? && s.proc.phase.step == SavePoints
    ensures LoadsOnly(s.disk, s.hist.base, env) && ListsStore(s.proc.phase.image, s.proc.mem)
  {
  }

  lemma {:induction false} PointsRenamed(s: State, env: Env)
    requires RunningOk(s, env) && s.proc.phase.Saving? && s.proc.phase.step == SavePoints
    ensures var d := DoRename(s).disk;
            LoadsOnly(d, s.hist.base, env) || LoadsOnly(d, s.proc.mem, env)
  {
    MemorySound(s, env);
    SavingPoints(s, env);
    ListingLoadsBack(s.proc.phase.image, s.proc.mem);
    PointsRenamedFrom(s, s.hist.base, env);
  }

  lemma {:induction false} ChecksumRenamed(s: State, env: Env)
    requires s.proc.phase.Saving? && s.proc.phase.step == SaveChecksum && SavingOk(s, env)
    requires Sound(s.proc.mem, env.accepts) && ListsStore(s.proc.phase.image, s.proc.mem)
    ensures LoadsOnly(DoRename(s).disk, s.proc.mem, env)
  {
    ListingLoadsBack(s.proc.phase.image, s.proc.mem);
  }

  lemma {:induction false} RenameConfigOk(s: State, env: Env)
    requires s.proc.phase.Saving? && SavingOk(s, env)
    requires s.proc.phase.step == SaveConfig || s.proc.phase.step == SaveTimestamp
    ensures DoRename(s).proc.phase.Saving? && SavingOk(DoRename(s), env) && DoRename(s).disk.config
  {
    var t := DoRename(s);
    assert Load(t.disk, env) == Load(s.disk, env);
    assert t.disk.log == s.disk.log && t.hist == s.hist && t.proc == s.proc.(phase := t.proc.phase);
  }

  lemma {:induction false} RenameConfigPreserves(s: State, env: Env)
    requires RunningOk(s, env) && s.proc.phase.Saving?
    requires s.proc.phase.step == SaveConfig || s.proc.phase.step == SaveTimestamp
    ensures RunningOk(DoRename(s), env)
  {
    RenameConfigOk(s, env);
    SameMemory(s, DoRename(s), env);
  }

  lemma {:induction false} RenamePointsOk(s: State, env: Env)
    requires s.proc.phase.Saving? && SavingOk(s, env) && s.proc.phase.step == SavePoints
    requires LoadsOnly(DoRename(s).disk, s.hist.base, env) || LoadsOnly(DoRename(s).disk, s.proc.mem, env)
    ensures DoRename(s).proc.phase.Saving? && SavingOk(DoRename(s), env) && DoRename(s).disk.config
  {
  }

  lemma {:induction false} RenamePointsPreserves(s: State, env: Env)
    requires RunningOk(s, env) && s.proc.phase.Saving? && s.proc.phase.step == SavePoints
    ensures RunningOk(DoRename(s), env)
  {
    PointsRenamed(s, env);
    RenamePointsOk(s, env);
    SameMemory(s, DoRename(s), env);
  }

  lemma {:induction false} RenameChecksumOk(s: State, env: Env)
    requires s.proc.phase.Saving? && SavingOk(s, env) && s.proc.phase.step == SaveChecksum
    requires LoadsOnly(DoRename(s).disk, s.proc.mem, env)
    ensures DoRename(s).proc.phase.Saving? && SavingOk(DoRename(s), env) && DoRename(s).disk.config
  {
  }

  lemma {:induction false} RenameChecksumPreserves(s: State, env: Env)
    requires RunningOk(s, env) && s.proc.phase.Saving? && s.proc.phase.step == SaveChecksum
    ensures RunningOk(DoRename(s), env)
  {
    MemorySound(s, env);
    ChecksumRenamed(s, env);
    RenameChecksumOk(s, env);
    SameMemory(s, DoRename(s), env);
  }

  lemma {:induction false} RenameIndexPreserves(s: State, env: Env)
    requires RunningOk(s, env) && s.proc.phase.Saving? && s.proc.phase.step == SaveIndex
    ensures RunningOk(DoRename(s), env)
  {
    if !s.proc.phase.truncate {
      assert Covered(s.hist) == [];
      assert s.proc.mem == s.hist.acked == s.hist.base;
      AcknowledgePreserves(s, env);
    }
  }

  lemma {:induction false} TruncatedMemoryOk(t: State, env: Env)
    requires Sound(t.proc.mem, env.accepts) && t.disk.config
    requires t.hist == History(t.proc.mem, [], 0, 0, t.proc.mem, [])
    ensures MemoryOk(t, env)
  {
    EmptyHistory(t.proc.mem, env);
    assert t.hist.pending[..0] == [];
  }

  lemma {:induction false} TruncatedPhaseOk(s: State, env: Env)
    requires TruncatingOk(s, env)
    ensures PhaseOk(DoTruncate(s), env)
  {
    assert Load(DoTruncate(s).disk, env) == Load(s.disk, env);
  }

  lemma {:induction false} PrefixGrows(x: seq<Byte>, i: nat, j: nat)
    requires i <= j <= |x|
    ensures x[..i] + x[i..j] == x[..j]
  {
  }

  lemma {:induction false} HeaderGrows(s: State, count: nat, env: Env)
    requires RunningOk(s, env) && Enabled(s, WriteHeader(count), env) && count > 0
    ensures RunningOk(DoWriteHeader(s, count, env), env)
  {
    HeaderGrowsOk(s, count, env);
    SameMemory(s, DoWriteHeader(s, count, env), env);
  }

  lemma {:induction false} HeaderGrowsOk(s: State, count: nat, env: Env)
    requires s.proc.phase.WritingHeader? && WritingHeaderOk(s, env)
    requires Enabled(s, WriteHeader(count), env) && count > 0
    ensures WritingHeaderOk(DoWriteHeader(s, count, env), env)
  {
    var bytes := s.proc.phase.bytes;
    PrefixGrows(Header(s.proc.compress), bytes, bytes + count);
    assert Load(DoWriteHeader(s, count, env).disk, env) == Load(s.disk, env);
  }

  lemma {:induction false} HeaderDoneOk(s: State, env: Env)
    requires s.proc.phase.WritingHeader? && WritingHeaderOk(s, env) && HistoryOk(s.hist, env)
    requires ListsStore([], map[]) && Enabled(s, WriteHeader(0), env) && Laws(env.codec)
    ensures PhaseOk(DoWriteHeader(s, 0, env), env)
  {
    var header := Header(s.proc.compress);
    HeaderReads(env.codec, s.proc.compress, |header|);
    assert header[..|header|] == header;
    assert header + Records(env.codec, s.proc.compress, []) == header;
  }

  lemma {:induction false} HeaderDone(s: State, env: Env)
    requires RunningOk(s, env) && Enabled(s, WriteHeader(0), env) && Laws(env.codec)
    ensures RunningOk(DoWriteHeader(s, 0, env), env)
  {
    HeaderDoneOk(s, env);
    SameMemory(s, DoWriteHeader(s, 0, env), env);
  }

  lemma {:induction false} BeginMutationPreserves(s: State, env: Env)
    requires RunningOk(s, env) && Enabled(s, BeginMutation, env)
    ensures RunningOk(Step(s, BeginMutation, env), env)
  {
    SameMemory(s, Step(s, BeginMutation, env), env);
  }

  lemma {:induction false} LoggingStepPreserves(s: State, a: Action, env: Env)
    requires RunningOk(s, env) && Enabled(s, a, env) && Safe(s, a, env)
    requires a.Call? || a.WriteChunk? || a.Refuse?
    ensures RunningOk(Step(s, a, env), env)
  {
    match a
    case Call(batch) => CallPreserves(s, batch, env);
    case WriteChunk(count) => WriteChunkPreserves(s, count, env);
    case Refuse => RefusePreserves(s, env);
  }

  lemma {:induction false} MutatingStepPreserves(s: State, a: Action, env: Env)
    requires RunningOk(s, env) && Enabled(s, a, env) && Safe(s, a, env) && Laws(env.codec)
    requires a.BeginMutation? || a.MutateOne? || a.FinishCall?
    ensures RunningOk(Step(s, a, env), env)
  {
    match a
    case BeginMutation => BeginMutationPreserves(s, env);
    case MutateOne => MutateOnePreserves(s, env);
    case FinishCall(image) => FinishCallPreserves(s, image, env);
  }

  lemma {:induction false} RenamePreserves(s: State, env: Env)
    requires RunningOk(s, env) && s.proc.phase.Saving?
    ensures RunningOk(DoRename(s), env)
  {
    match s.proc.phase.step
    case SaveConfig | SaveTimestamp => RenameConfigPreserves(s, env);
    case SavePoints => RenamePointsPreserves(s, env);
    case SaveChecksum => RenameChecksumPreserves(s, env);
    case SaveIndex => RenameIndexPreserves(s, env);
  }

  lemma {:induction false} TruncatePreserves(s: State, env: Env)
    requires RunningOk(s, env) && s.proc.phase.Truncating?
    ensures RunningOk(DoTruncate(s), env)
  {
    MemorySound(s, env);
    TruncatedMemoryOk(DoTruncate(s), env);
    TruncatedPhaseOk(s, env);
  }

  lemma {:induction false} HeaderPreserves(s: State, count: nat, env: Env)
    requires RunningOk(s, env) && Enabled(s, WriteHeader(count), env) && Laws(env.codec)
    ensures RunningOk(DoWriteHeader(s, count, env), env)
  {
    if count > 0 {
      HeaderGrows(s, count, env);
    } else {
      HeaderDone(s, env);
    }
  }

  lemma {:induction false} SnapshotStepPreserves(s: State, a: Action, env: Env)
    requires RunningOk(s, env) && Enabled(s, a, env) && Laws(env.codec)
    requires a.Rename? || a.Truncate? || a.WriteHeader?
    ensures RunningOk(Step(s, a, env), env)
  {
    match a
    case Rename => RenamePreserves(s, env);
    case Truncate => TruncatePreserves(s, env);
    case WriteHeader(count) => HeaderPreserves(s, count, env);
  }

  lemma {:induction false} RunningStepPreserves(s: State, a: Action, env: Env)
    requires RunningOk(s, env) && Enabled(s, a, env) && Safe(s, a, env) && Laws(env.codec)
    requires !a.Create? && !a.Start? && !a.Crash?
    ensures RunningOk(Step(s, a, env), env)
  {
    if a.Call? || a.WriteChunk? || a.Refuse? {
      LoggingStepPreserves(s, a, env);
    } else if a.BeginMutation? || a.MutateOne? || a.FinishCall? {
      MutatingStepPreserves(s, a, env);
    } else {
      SnapshotStepPreserves(s, a, env);
    }
  }

  lemma {:induction false} OpeningStepPreserves(s: State, a: Action, env: Env)
    requires DownOk(s, env) && Enabled(s, a, env) && Safe(s, a, env) && Laws(env.codec) && (a.Create? || a.Start?)
    ensures Inv(Step(s, a, env), env)
  {
    match a
    case Create(compress, binary) => CreatePreserves(s, compress, binary, env);
    case Start(compress, binary, image) => StartPreserves(s, compress, binary, image, env);
  }

  lemma {:induction false} StepPreserves(s: State, a: Action, env: Env)
    requires Inv(s, env) && Enabled(s, a, env) && Safe(s, a, env) && Laws(env.codec)
    ensures Inv(Step(s, a, env), env)
  {
    if a.Create? || a.Start? {
      OpeningStepPreserves(s, a, env);
    } else if a.Crash? {
      CrashPreserves(s, env);
    } else {
      RunningStepPreserves(s, a, env);
    }
  }

  lemma {:induction false} RunPreserves(s: State, actions: seq<Action>, t: State, env: Env)
    requires Inv(s, env) && Run(s, actions, t, env) && Laws(env.codec)
    ensures Inv(t, env)
    decreases |actions|
  {
    if actions != [] {
      StepPreserves(s, actions[0], env);
      RunPreserves(Step(s, actions[0], env), actions[1..], t, env);
    }
  }

  lemma {:induction false} InvIsRecoverable(s: State, env: Env)
    requires Inv(s, env) && Laws(env.codec)
    ensures Recoverable(s, env)
  {
    if !s.proc.phase.Down? {
      CrashPreserves(s, env);
    }
  }

  /**
   * At every point of every safe run from an empty directory, crashes and restarts included,
   * recovery would return the acknowledged state plus a prefix of the call in flight, or an
   * explicit error; never another collection.
   */
  lemma {:induction false} EveryRunIsRecoverable(actions: seq<Action>, t: State, env: Env)
    requires Run(INITIAL, actions, t, env) && Laws(env.codec)
    ensures Recoverable(t, env)
  {
    RunPreserves(INITIAL, actions, t, env);
    InvIsRecoverable(t, env);
  }
}
