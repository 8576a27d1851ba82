/** Reopening a directory is safe exactly under the guard of the protocol: each residue it excludes costs a call. */
module ProtocolGuards {
  import opened Base
  import opened WalReplay
  import opened WalFormat
  import opened PointInTime
  import opened Snapshot
  import opened Protocol
  import opened ProtocolSafety
  import opened ProtocolRuns

  // ---- What the log of a safe run looks like ----

  /** Whole records and the first n bytes of one more. */
  ghost predicate IsTorn(c: Codec, compress: bool, log: seq<Byte>, es: seq<Entry>, e: Entry, n: nat) {
    && n <= |Record(c, compress, e)| && log == LogBytes(c, compress, es) + Record(c, compress, e)[..n]
    && (compress ==> AllFit(c, es) && Fits(c, e))
  }

  ghost predicate TornLog(c: Codec, compress: bool, log: seq<Byte>) {
    exists es, e, n: nat :: IsTorn(c, compress, log, es, e, n)
  }

  ghost predicate Shaped(d: Disk, c: Codec) {
    if d.config then d.log <= MAGIC || TornLog(c, false, d.log) || TornLog(c, true, d.log) else d.log <= MAGIC
  }

  lemma {:induction false} WholeIsTorn(c: Codec, compress: bool, es: seq<Entry>, e: Entry)
    requires compress ==> AllFit(c, es) && Fits(c, e)
    ensures IsTorn(c, compress, LogBytes(c, compress, es), es, e, 0)
  {
    assert LogBytes(c, compress, es) + Record(c, compress, e)[..0] == LogBytes(c, compress, es);
  }

  lemma {:induction false} LoggingIsTorn(t: State, env: Env)
    requires t.proc.phase.Logging? && LoggingOk(t, env) && t.proc.phase.batch != []
    ensures TornLog(env.codec, t.proc.compress, t.disk.log)
  {
    var Logging(batch, written, torn) := t.proc.phase;
    if written < |batch| {
      assert IsTorn(env.codec, t.proc.compress, t.disk.log, t.hist.logged, batch[written], torn);
    } else {
      WholeIsTorn(env.codec, t.proc.compress, t.hist.logged, batch[0]);
    }
  }

  /** Only logging and header bytes lengthen the log. */
  lemma {:induction false} OtherStepsLog(s: State, a: Action, env: Env)
    requires Enabled(s, a, env) && !a.WriteChunk? && (a.WriteHeader? ==> a.count == 0)
    ensures Step(s, a, env).disk.log == s.disk.log || Step(s, a, env).disk.log == []
    ensures s.disk.config ==> Step(s, a, env).disk.config
  {
  }

  lemma {:induction false} ChunkKeepsShape(s: State, count: nat, env: Env)
    requires RunningOk(s, env) && Enabled(s, WriteChunk(count), env)
    requires RunningOk(DoWriteChunk(s, count, env), env)
    ensures Shaped(DoWriteChunk(s, count, env).disk, env.codec)
  {
    var t := DoWriteChunk(s, count, env);
    assert t.proc.phase.Logging? && LoggingOk(t, env) && t.proc.phase.batch == s.proc.phase.batch;
    LoggingIsTorn(t, env);
  }

  lemma {:induction false} HeaderKeepsShape(s: State, count: nat, env: Env)
    requires Enabled(s, WriteHeader(count), env) && count > 0
    requires WritingHeaderOk(DoWriteHeader(s, count, env), env)
    ensures Shaped(DoWriteHeader(s, count, env).disk, env.codec)
  {
    assert DoWriteHeader(s, count, env).disk.log <= MAGIC;
  }

  lemma {:induction false} StepKeepsShape(s: State, a: Action, env: Env)
    requires Inv(s, env) && Shaped(s.disk, env.codec) && Enabled(s, a, env) && Inv(Step(s, a, env), env)
    ensures Shaped(Step(s, a, env).disk, env.codec)
  {
    if a.WriteChunk? {
      ChunkKeepsShape(s, a.count, env);
    } else if a.WriteHeader? && a.count > 0 {
      HeaderKeepsShape(s, a.count, env);
    } else {
      OtherStepsLog(s, a, env);
    }
  }

  lemma {:induction false} RunKeepsShape(s: State, actions: seq<Action>, t: State, env: Env)
    requires Inv(s, env) && Shaped(s.disk, env.codec) && Run(s, actions, t, env) && Laws(env.codec)
    ensures Inv(t, env) && Shaped(t.disk, env.codec)
    decreases |actions|
  {
    if actions != [] {
      StepPreserves(s, actions[0], env);
      StepKeepsShape(s, actions[0], env);
      RunKeepsShape(Step(s, actions[0], env), actions[1..], t, env);
    }
  }

  // ---- The residues that count no entry ----

  ghost predicate TornLength(c: Codec, log: seq<Byte>, e: Entry, k: nat) {
    k <= 3 && log == MAGIC + Record(c, true, e)[..k]
  }

  ghost predicate TornCharacter(c: Codec, log: seq<Byte>, e: Entry, n: nat) {
    0 < n < |c.format(e)| && log == c.format(e)[..n] && !c.utf8(log)
  }

  lemma {:induction false} LinesAreCounted(c: Codec, b: seq<Byte>)
    ensures |ReadLines(c, b)| <= CountLines(c, b)
    decreases |b|
  {
    if b != [] {
      LinesAreCounted(c, AfterLine(b));
    }
  }

  lemma {:induction false} UncountedReadsEmpty(c: Codec, b: seq<Byte>)
    requires CountEntries(c, b) == Ok(0)
    ensures ReadEntries(c, b) == Ok([])
  {
    if !IsCompressed(b) {
      LinesAreCounted(c, b);
    }
  }

  lemma {:induction false} UncountedFrames(c: Codec, log: seq<Byte>, es: seq<Entry>, e: Entry, n: nat)
    requires JsonLaws(c) && ZstdLaws(c) && IsTorn(c, true, log, es, e, n) && CountEntries(c, log) == Ok(0)
    ensures TornLength(c, log, e, n)
  {
    var torn := Record(c, true, e)[..n];
    AppendAssoc(MAGIC, Records(c, true, es), torn);
    CompressedBody(c, Records(c, true, es) + torn);
    ReadTornFrames(c, es, e, n);
    NoRecords(c, es, torn);
  }

  lemma {:induction false} NoRecords(c: Codec, es: seq<Entry>, torn: seq<Byte>)
    ensures es == [] ==> Records(c, true, es) + torn == torn
  {
  }

  lemma {:induction false} CountedLine(c: Codec, e: Entry, rest: seq<Byte>)
    requires JsonLaws(c) && (rest == [] || rest[0] == NEWLINE)
    ensures CountLines(c, c.format(e) + rest) > 0
  {
    assert PrintLaws(c, e);
    LineEndAt(c.format(e), rest);
    assert c.format(e)[..|c.format(e)|] == c.format(e);
  }

  lemma {:induction false} FirstLine(c: Codec, es: seq<Entry>, torn: seq<Byte>) returns (rest: seq<Byte>)
    requires es != []
    ensures Records(c, false, es) + torn == c.format(es[0]) + rest && rest != [] && rest[0] == NEWLINE
  {
    rest := [NEWLINE] + (Records(c, false, es[1..]) + torn);
  }

  lemma {:induction false} UncountedLines(c: Codec, log: seq<Byte>, es: seq<Entry>, e: Entry, n: nat)
    requires JsonLaws(c) && IsTorn(c, false, log, es, e, n) && CountEntries(c, log) == Ok(0)
    ensures log == [] || TornCharacter(c, log, e, n)
  {
    var torn := Record(c, false, e)[..n];
    assert log == Records(c, false, es) + torn;
    JsonLogIsNotCompressed(c, es, e, n);
    if es == [] {
      assert log == torn;
      UncountedLine(c, e, n);
    } else {
      var rest := FirstLine(c, es, torn);
      CountedLine(c, es[0], rest);
    }
  }

  lemma {:induction false} UncountedLine(c: Codec, e: Entry, n: nat)
    requires JsonLaws(c) && n <= |Record(c, false, e)| && CountLines(c, Record(c, false, e)[..n]) == 0
    ensures n == 0 || TornCharacter(c, Record(c, false, e)[..n], e, n)
  {
    var torn := Record(c, false, e)[..n];
    assert PrintLaws(c, e);
    if n >= |c.format(e)| {
      var rest := torn[|c.format(e)|..];
      assert torn == c.format(e) + rest;
      CountedLine(c, e, rest);
    } else if n > 0 {
      assert torn == c.format(e)[..n];
      LineEndAt(torn, []);
      assert torn + [] == torn && torn[..|torn|] == torn;
    }
  }

  // ---- The lost call ----

  /** An entry whose point is accepted and changes the store. */
  ghost predicate Tells(s: Store, e: Entry, accepts: Checks) {
    && e.operation.Upsert? && accepts(e.operation.point)
    && s[e.operation.point.id := e.operation.point] != s
  }

  lemma {:induction false} ReplayOne(s: Store, e: Entry, accepts: Checks)
    requires e.operation.Upsert? && accepts(e.operation.point)
    ensures Replay(s, Operations([e]), accepts) == s[e.operation.point.id := e.operation.point]
  {
    assert Operations([e])[..0] == [];
  }

  /** A call whose record changes nothing of what recovery returns is acknowledged and lost. */
  lemma {:induction false} UnreadCallIsLost(s: State, e: Entry, env: Env) returns (actions: seq<Action>, t: State)
    requires Ready(s, [e], env) && Tells(s.proc.mem, e, env.accepts)
    requires Recover(s.disk.(log := s.disk.log + Record(env.codec, s.proc.compress, e)), env) == Ok(Some(s.proc.mem))
    ensures Enabled(s, Call([e]), env) && Run(Step(s, Call([e]), env), actions, t, env) && !Recoverable(t, env)
  {
    actions := CallRuns(s, [e], env);
    t := AfterCall(s, [e], env);
    RecordsOne(env.codec, s.proc.compress, e);
    ReplayOne(s.proc.mem, e, env.accepts);
    assert t.hist.pending[..0] == [];
  }

  /** The three low bytes of the frame's length are not zero, and the lowest is an ASCII character. */
  ghost predicate LongFrame(c: Codec, e: Entry) {
    var length := Le(|Payload(c, e)|, 4);
    Fits(c, e) && 0 < length[0] < 0x80 && length[1] != 0 && length[2] != 0
  }

  /** A frame without a newline byte, whose first byte is not a letter of the magic. */
  ghost predicate OneLineFrame(c: Codec, e: Entry) {
    Fits(c, e) && NEWLINE !in Record(c, true, e) && Record(c, true, e)[0] !in MAGIC
  }

  ghost predicate CanTell(env: Env, s: Store) {
    && (exists e :: Tells(s, e, env.accepts) && LongFrame(env.codec, e))
    && (exists e :: Tells(s, e, env.accepts) && OneLineFrame(env.codec, e))
  }

  /** No store is the last one: some point still changes it, with a frame of either kind. */
  ghost predicate Varied(env: Env) {
    forall s: Store :: CanTell(env, s)
  }

  ghost predicate ReopeningLaws(c: Codec) {
    Laws(c) && Utf8Laws(c) && ObjectLaw(c) && FrameNumberLaw(c)
  }

  lemma {:induction false} LongByte(c: Codec, e: Entry, k: nat)
    requires LongFrame(c, e) && 1 <= k <= 3
    ensures Le(|Payload(c, e)|, 4)[3 - k] != 0
  {
    assert k == 1 || k == 2 || k == 3;
  }

  lemma {:induction false} FrameAfterLength(c: Codec, torn: Entry, k: nat, e: Entry)
    requires FrameNumberLaw(c) && 1 <= k <= 3 && LongFrame(c, e)
    ensures ReadEntries(c, MAGIC + Record(c, true, torn)[..k] + Record(c, true, e)) == Ok([])
  {
    RecordsOne(c, true, e);
    LongByte(c, e, k);
    var es := [e];
    TornLengthSwallowsLog(c, torn, k, es);
  }

  lemma {:induction false} LineAfterLength(c: Codec, torn: Entry, k: nat, e: Entry)
    requires JsonLaws(c) && k <= 3
    ensures ReadEntries(c, MAGIC + Record(c, true, torn)[..k] + Record(c, false, e)) == Ok([])
  {
    RecordsOne(c, false, e);
    FormatSwitchSwallowsLog(c, torn, k, [e]);
  }

  lemma {:induction false} AfterCharacterUnread(c: Codec, compress: bool, log: seq<Byte>, torn: Entry, n: nat, e: Entry)
    requires ReopeningLaws(c) && TornCharacter(c, log, torn, n) && LongFrame(c, e)
    ensures ReadEntries(c, log + Record(c, compress, e)) == Ok([])
  {
    TornCharacterResidue(c, torn, n);
    if compress {
      assert Record(c, true, e)[0] == Le(|Payload(c, e)|, 4)[0];
    } else {
      JsonStarts(c, e);
      assert Record(c, false, e)[0] == Record(c, false, e)[..4][0];
    }
    TornCharacterStops(c, log, Record(c, compress, e));
  }

  lemma {:induction false} AfterLengthUnread(c: Codec, compress: bool, log: seq<Byte>, torn: Entry, k: nat, e: Entry)
    requires ReopeningLaws(c) && TornLength(c, log, torn, k) && (k == 0 ==> !compress)
    requires LongFrame(c, e)
    ensures ReadEntries(c, log + Record(c, compress, e)) == Ok([])
  {
    if compress {
      FrameAfterLength(c, torn, k, e);
    } else {
      LineAfterLength(c, torn, k, e);
    }
  }

  /** Nothing appended to an uncounted log that is not clean for the format is read. */
  lemma {:induction false} UncleanLogHidesCall(c: Codec, compress: bool, log: seq<Byte>, e: Entry)
    requires ReopeningLaws(c) && LongFrame(c, e)
    requires log <= MAGIC || TornLog(c, false, log) || TornLog(c, true, log)
    requires CountEntries(c, log) == Ok(0) && !Clean(log, compress)
    ensures ReadEntries(c, log + Record(c, compress, e)) == Ok([])
  {
    if TornLog(c, false, log) {
      var es, torn, n: nat :| IsTorn(c, false, log, es, torn, n);
      UncountedLines(c, log, es, torn, n);
      AfterCharacterUnread(c, compress, log, torn, n, e);
    } else if TornLog(c, true, log) {
      var es, torn, n: nat :| IsTorn(c, true, log, es, torn, n);
      UncountedFrames(c, log, es, torn, n);
      assert n == 0 ==> Record(c, true, torn)[..n] == [] && log == MAGIC;
      AfterLengthUnread(c, compress, log, torn, n, e);
    } else {
      BareMagic(c, log);
      assert MAGIC + Record(c, true, e)[..0] == MAGIC;
      AfterLengthUnread(c, compress, log, e, 0, e);
    }
  }

  lemma {:induction false} BareMagic(c: Codec, log: seq<Byte>)
    requires MagicLaws(c) && log <= MAGIC && CountEntries(c, log) == Ok(0)
    ensures log == [] || log == MAGIC
  {
    assert log == MAGIC[..|log|];
    TornHeader(c, |log|);
  }

  /** Nor is one record appended to a torn magic, or a line to a whole one. */
  lemma {:induction false} UncleanMagicHidesCall(c: Codec, compress: bool, log: seq<Byte>, e: Entry)
    requires ReopeningLaws(c) && OneLineFrame(c, e)
    requires log <= MAGIC && !Clean(log, compress)
    ensures ReadEntries(c, log + Record(c, compress, e)) == Ok([])
  {
    var k := |log|;
    assert log == MAGIC[..k];
    if k == 4 {
      assert MAGIC + Record(c, true, e)[..0] == log;
      LineAfterLength(c, e, 0, e);
    } else if compress {
      TornMagicSwallowsFrame(c, k, e);
    } else {
      RecordsOne(c, false, e);
      TornMagicSwallowsLine(c, k, [e]);
    }
  }

  // ---- The guards are exact ----

  /** An idle process over a loaded store and a log that hides its next call has a run that loses the call. */
  lemma {:induction false} IdleLoses(s: State, e: Entry, env: Env) returns (actions: seq<Action>, t: State)
    requires s.proc.phase.Idle? && s.proc.ops + 1 < SNAPSHOT_THRESHOLD && WellKeyed(s.proc.mem)
    requires s.disk.config && Load(s.disk, env) == Ok(s.proc.mem)
    requires Tells(s.proc.mem, e, env.accepts) && Fits(env.codec, e)
    requires ReadEntries(env.codec, s.disk.log + Record(env.codec, s.proc.compress, e)) == Ok([])
    ensures Run(s, actions, t, env) && !Recoverable(t, env)
  {
    var d := s.disk.(log := s.disk.log + Record(env.codec, s.proc.compress, e));
    assert Load(d, env) == Load(s.disk, env) && Operations([]) == [];
    actions, t := UnreadCallIsLost(s, e, env);
    RunStep(s, Call([e]), actions, t, env);
    actions := [Call([e])] + actions;
  }

  lemma {:induction false} StartedIdle(s: State, compress: bool, binary: bool, image: seq<Point>, env: Env)
    requires DownOk(s, env) && Enabled(s, Start(compress, binary, image), env)
    requires Count(s.disk.log, env) == 0 && s.disk.log != []
    ensures var t := DoStart(s, compress, binary, image, env);
            && t.proc.phase.Idle? && t.proc.ops == 0 && t.proc.compress == compress && WellKeyed(t.proc.mem)
            && t.disk == s.disk && t.disk.config && Load(t.disk, env) == Ok(t.proc.mem)
  {
    UncountedReadsEmpty(env.codec, s.disk.log);
    assert Operations([]) == [];
  }

  lemma {:induction false} UnsafeStartLoses(s: State, a: Action, env: Env) returns (actions: seq<Action>, t: State)
    requires DownOk(s, env) && Shaped(s.disk, env.codec) && ReopeningLaws(env.codec) && Varied(env)
    requires a.Start? && Enabled(s, a, env) && !Safe(s, a, env)
    ensures Run(Step(s, a, env), actions, t, env) && !Recoverable(t, env)
  {
    var u := Step(s, a, env);
    StartedIdle(s, a.compress, a.binary, a.image, env);
    assert CanTell(env, u.proc.mem);
    var e :| Tells(u.proc.mem, e, env.accepts) && LongFrame(env.codec, e);
    UncleanLogHidesCall(env.codec, a.compress, s.disk.log, e);
    actions, t := IdleLoses(u, e, env);
  }

  /** The state after the five renames that create a collection. */
  ghost function Saved(s: State): State {
    var disk := if s.proc.binary then s.disk.(config := true, bin := Some([]), checksum := Some(Binary([])))
                else s.disk.(config := true, jsonl := Some([]), checksum := Some(JsonLines([])));
    State(disk, s.proc.(phase := Idle), s.hist.(acked := s.proc.mem, pending := [], inLog := 0, applied := 0))
  }

  lemma {:induction false} CreationSaves(s: State)
    requires s.proc.phase == Saving([], SaveConfig, false)
    ensures var t := DoRename(DoRename(s));
            t.proc.phase == Saving([], SavePoints, false) && DoRename(DoRename(DoRename(t))) == Saved(s)
  {
  }

  lemma {:induction false} CreationRun(s: State, rest: seq<Action>, t: State, env: Env) returns (actions: seq<Action>)
    requires s.proc.phase == Saving([], SaveConfig, false) && Run(Saved(s), rest, t, env)
    ensures Run(s, actions, t, env)
  {
    CreationSaves(s);
    var s2 := DoRename(DoRename(s));
    actions := [Rename] + rest;
    RunStep(DoRename(DoRename(s2)), Rename, rest, t, env);
    RunStep(DoRename(s2), Rename, actions, t, env);
    actions := [Rename] + actions;
    RunStep(s2, Rename, actions, t, env);
    actions := [Rename] + actions;
    RunStep(DoRename(s), Rename, actions, t, env);
    actions := [Rename] + actions;
    RunStep(s, Rename, actions, t, env);
    actions := [Rename] + actions;
  }

  lemma {:induction false} SavedLoads(s: State, env: Env)
    requires NoFiles(s.disk) && s.proc.mem == map[]
    ensures Load(Saved(s).disk, env) == Ok(map[])
  {
    assert FromPoints([]) == map[];
  }

  lemma {:induction false} UnsafeCreateLoses(s: State, a: Action, env: Env) returns (actions: seq<Action>, t: State)
    requires DownOk(s, env) && Shaped(s.disk, env.codec) && ReopeningLaws(env.codec) && Varied(env)
    requires a.Create? && Enabled(s, a, env) && !Safe(s, a, env)
    ensures Run(Step(s, a, env), actions, t, env) && !Recoverable(t, env)
  {
    var u := Step(s, a, env);
    MagicCount(s.disk.log, env);
    SavedLoads(u, env);
    assert CanTell(env, map[]);
    var e :| Tells(map[], e, env.accepts) && OneLineFrame(env.codec, e);
    UncleanMagicHidesCall(env.codec, a.compress, s.disk.log, e);
    actions, t := IdleLoses(Saved(u), e, env);
    actions := CreationRun(u, actions, t, env);
  }

  lemma {:induction false} MagicCount(log: seq<Byte>, env: Env)
    requires log <= MAGIC && MagicLaws(env.codec)
    ensures Count(log, env) <= 1
  {
    assert log == MAGIC[..|log|];
    TornHeader(env.codec, |log|);
  }

  /**
   * Whatever safe run led here, opening or creating the collection keeps the promise under every
   * safe continuation exactly when the guard holds: the log is counted, and so consolidated, or it
   * is clean for the format it is opened in.
   */
  lemma {:induction false} ReopeningIsSafeIff(before: seq<Action>, s: State, a: Action, env: Env)
    requires ReopeningLaws(env.codec) && Varied(env) && Run(INITIAL, before, s, env)
    requires Enabled(s, a, env) && (a.Start? || a.Create?)
    ensures Safe(s, a, env) <==> KeepsPromise(Step(s, a, env), env)
  {
    RunKeepsShape(INITIAL, before, s, env);
    if Safe(s, a, env) {
      StepPreserves(s, a, env);
      KeptByInvariant(Step(s, a, env), env);
    } else if a.Start? {
      var actions, t := UnsafeStartLoses(s, a, env);
    } else {
      var actions, t := UnsafeCreateLoses(s, a, env);
    }
  }
}
