/** When recovery refuses, what an acknowledged call means, and what the unsafe branches cost. */
module ProtocolRefusals {
  import opened Base
  import opened WalReplay
  import opened WalFormat
  import opened PointInTime
  import opened Snapshot
  import opened Protocol
  import opened ProtocolSafety

  // ---- Acknowledged calls ----

  /** A call that has gone through all its operations has the effect of its whole batch on the acknowledged state. */
  lemma {:induction false} FinishedCallHasItsEffect(s: State, env: Env)
    requires RunningOk(s, env) && s.proc.phase.Mutating? && s.proc.phase.next == |s.proc.phase.batch|
    ensures s.proc.mem == Replay(s.hist.acked, Operations(s.proc.phase.batch), env.accepts)
  {
    assert s.hist.pending[..|s.proc.phase.batch|] == s.hist.pending;
  }

  // ---- Refusals ----

  /** Between the rename of the points file and the rename of its checksum. */
  ghost predicate InWindow(s: State) {
    s.proc.phase.Saving? && s.proc.phase.step == SaveChecksum
  }

  /** A binary image left behind by a process that wrote binary snapshots, under the checksum of JSON lines. */
  ghost predicate Stale(d: Disk) {
    d.bin.Some? && d.checksum.Some? && d.checksum.value.JsonLines?
  }

  ghost predicate ImagesAccepted(d: Disk, env: Env) {
    && (d.bin.Some? ==> Accepted(d.bin.value, env.accepts))
    && (d.jsonl.Some? ==> Accepted(d.jsonl.value, env.accepts))
  }

  ghost predicate Intact(s: State, env: Env) {
    && ImagesAccepted(s.disk, env)
    && (!s.proc.phase.Down? ==> ChecksumMatches(s.disk) || InWindow(s) || Stale(s.disk))
  }

  lemma {:induction false} ListedIsAccepted(image: seq<Point>, s: Store, accepts: Checks)
    requires Sound(s, accepts) && ListsStore(image, s)
    ensures Accepted(image, accepts)
  {
    forall i | 0 <= i < |image|
      ensures accepts(image[i])
    {
      assert image[i] in image;
      assert s[image[i].id] == image[i];
    }
  }

  lemma {:induction false} RenameKeepsIntact(s: State, env: Env)
    requires s.proc.phase.Saving? && Accepted(s.proc.phase.image, env.accepts)
    requires s.proc.phase.step == SaveChecksum ==>
               Some(s.proc.phase.image) == if s.proc.binary then s.disk.bin else s.disk.jsonl
    requires Intact(s, env)
    ensures Intact(DoRename(s), env)
  {
  }

  /** Starting succeeds only when the checksum matches, and creating only where no file is. */
  lemma {:induction false} OpeningKeepsIntact(s: State, a: Action, env: Env)
    requires Enabled(s, a, env) && ImagesAccepted(s.disk, env)
    requires a.Start? || (a.Create? && NoFiles(s.disk))
    ensures Intact(Step(s, a, env), env)
  {
    var d := Step(s, a, env).disk;
    assert d.bin == s.disk.bin && d.jsonl == s.disk.jsonl && d.checksum == s.disk.checksum;
  }

  /** No other step but a rename touches the snapshot, and none leaves the window but a rename or a crash. */
  lemma {:induction false} OtherStepKeepsIntact(s: State, a: Action, env: Env)
    requires Enabled(s, a, env) && Intact(s, env)
    requires !a.Rename? && !a.Start? && !a.Create?
    ensures Intact(Step(s, a, env), env)
  {
    var d := Step(s, a, env).disk;
    assert d.bin == s.disk.bin && d.jsonl == s.disk.jsonl && d.checksum == s.disk.checksum;
  }

  lemma {:induction false} SavedImageIsAccepted(s: State, env: Env)
    requires RunningOk(s, env) && s.proc.phase.Saving?
    ensures Accepted(s.proc.phase.image, env.accepts)
    ensures s.proc.phase.step == SaveChecksum ==>
              Some(s.proc.phase.image) == if s.proc.binary then s.disk.bin else s.disk.jsonl
  {
    MemorySound(s, env);
    ListedIsAccepted(s.proc.phase.image, s.proc.mem, env.accepts);
  }

  lemma {:induction false} StepKeepsIntact(s: State, a: Action, env: Env)
    requires Inv(s, env) && Intact(s, env) && Enabled(s, a, env)
    ensures Intact(Step(s, a, env), env)
  {
    if a.Rename? {
      SavedImageIsAccepted(s, env);
      RenameKeepsIntact(s, env);
    } else if a.Start? || a.Create? {
      OpeningKeepsIntact(s, a, env);
    } else {
      OtherStepKeepsIntact(s, a, env);
    }
  }

  lemma {:induction false} RunKeepsIntact(s: State, actions: seq<Action>, t: State, env: Env)
    requires Inv(s, env) && Intact(s, env) && Run(s, actions, t, env) && Laws(env.codec)
    ensures Inv(t, env) && Intact(t, env)
    decreases |actions|
  {
    if actions != [] {
      StepPreserves(s, actions[0], env);
      StepKeepsIntact(s, actions[0], env);
      RunKeepsIntact(Step(s, actions[0], env), actions[1..], t, env);
    }
  }

  lemma {:induction false} TornLogReads(s: State, env: Env)
    requires s.proc.phase.Logging? && LoggingOk(s, env) && Laws(env.codec)
    requires s.proc.compress ==> s.proc.phase.torn < 4
    ensures ReadEntries(env.codec, s.disk.log).Ok?
  {
    var Logging(batch, written, torn) := s.proc.phase;
    if written < |batch| {
      TornAppend(env.codec, s.proc.compress, s.hist.logged, batch[written], torn);
    } else {
      LogReadsBack(env.codec, s.proc.compress, s.hist.logged);
    }
  }

  lemma {:induction false} RunningLogReads(s: State, env: Env)
    requires RunningOk(s, env) && Laws(env.codec)
    requires s.proc.phase.Logging? && s.proc.compress ==> s.proc.phase.torn < 4
    ensures ReadEntries(env.codec, s.disk.log).Ok?
  {
    match s.proc.phase
    case Idle | Mutating(_, _, _) => LogReadsBack(env.codec, s.proc.compress, s.hist.logged);
    case Logging(_, _, _) => TornLogReads(s, env);
    case WritingHeader(bytes, _) => HeaderReads(env.codec, s.proc.compress, bytes);
    case _ =>
  }

  /** A compressed record of which the length is written and the payload is not, or not wholly. */
  ghost predicate InPayload(s: State) {
    s.proc.phase.Logging? && s.proc.compress && s.proc.phase.torn >= 4
  }

  lemma {:induction false} TornPayloadRefuses(s: State, env: Env)
    requires InPayload(s) && LoggingOk(s, env) && Laws(env.codec)
    ensures ReadEntries(env.codec, s.disk.log).Err?
  {
    var Logging(batch, written, torn) := s.proc.phase;
    var e := batch[written];
    var body := Records(env.codec, true, s.hist.logged) + Record(env.codec, true, e)[..torn];
    ReadTornFrames(env.codec, s.hist.logged, e, torn);
    assert s.disk.log == MAGIC + body;
    CompressedBody(env.codec, body);
  }

  lemma {:induction false} LoadsIff(d: Disk, env: Env)
    requires ImagesAccepted(d, env)
    ensures Load(d, env).Ok? <==> ChecksumMatches(d)
    ensures Stale(d) ==> !ChecksumMatches(d)
  {
  }

  /**
   * A crash leaves an unrecoverable collection exactly over a stale binary image, between the two
   * renames of a snapshot when the checksum is of another image, and inside a compressed payload.
   */
  lemma {:induction false} EveryRefusalIsExplained(actions: seq<Action>, t: State, env: Env)
    requires Run(INITIAL, actions, t, env) && Laws(env.codec) && !t.proc.phase.Down?
    ensures Recover(t.disk, env).Err? <==> Stale(t.disk) || (InWindow(t) && !ChecksumMatches(t.disk)) || InPayload(t)
  {
    RunKeepsIntact(INITIAL, actions, t, env);
    LoadsIff(t.disk, env);
    if InPayload(t) {
      TornPayloadRefuses(t, env);
    } else {
      RunningLogReads(t, env);
    }
  }

  /** In that window recovery refuses exactly when a checksum of another image is still in place. */
  lemma {:induction false} WindowRefusesIff(s: State, env: Env)
    requires RunningOk(s, env) && InWindow(s) && (s.proc.binary || s.disk.bin.None?)
    ensures Recover(s.disk, env).Err? <==>
      && s.disk.checksum.Some?
      && s.disk.checksum.value != if s.proc.binary then Binary(s.proc.phase.image) else JsonLines(s.proc.phase.image)
  {
    assert ReadEntries(env.codec, s.disk.log).Ok? && s.disk.config;
    MemorySound(s, env);
    ListedIsAccepted(s.proc.phase.image, s.proc.mem, env.accepts);
    WindowLoads(s.disk, s.proc.phase.image, s.proc.binary, env);
  }

  lemma {:induction false} WindowLoads(d: Disk, image: seq<Point>, binary: bool, env: Env)
    requires Accepted(image, env.accepts)
    requires if binary then d.bin == Some(image) else d.bin.None? && d.jsonl == Some(image)
    ensures Load(d, env).Err? <==>
            d.checksum.Some? && d.checksum.value != if binary then Binary(image) else JsonLines(image)
  {
  }

  /**
   * Turning binary snapshots off does not remove `points.bin`, which the loader prefers: when the
   * window closes the collection is refused exactly if it was saved as JSON lines next to one.
   */
  lemma {:induction false} SwitchToJsonLinesRefusesIff(s: State, env: Env)
    requires RunningOk(s, env) && InWindow(s)
    ensures Recover(DoRename(s).disk, env).Err? <==> !s.proc.binary && s.disk.bin.Some?
    ensures Stale(DoRename(s).disk) <==> !s.proc.binary && s.disk.bin.Some?
  {
    SavedImageIsAccepted(s, env);
    WindowIsReadable(s, env);
    ClosedWindowLoadsIff(s.disk, s.proc.phase.image, s.proc.binary, env);
    RecoversFrom(DoRename(s).disk, s.hist.logged, env);
  }

  lemma {:induction false} WindowIsReadable(s: State, env: Env)
    requires RunningOk(s, env) && InWindow(s)
    ensures s.disk.config && ReadEntries(env.codec, s.disk.log) == Ok(s.hist.logged)
    ensures DoRename(s).disk == s.disk.(
              checksum := Some(if s.proc.binary then Binary(s.proc.phase.image) else JsonLines(s.proc.phase.image)))
  {
  }

  lemma {:induction false} ClosedWindowLoadsIff(d: Disk, image: seq<Point>, binary: bool, env: Env)
    requires Accepted(image, env.accepts) && Some(image) == if binary then d.bin else d.jsonl
    ensures var e := d.(checksum := Some(if binary then Binary(image) else JsonLines(image)));
            (Load(e, env).Ok? <==> binary || d.bin.None?) && (Stale(e) <==> !binary && d.bin.Some?)
  {
  }

  // ---- Staleness over runs ----

  /** Outside the window only a process that writes JSON lines is over a stale image. */
  ghost predicate StaleIsJsonLines(s: State) {
    Stale(s.disk) && !s.proc.phase.Down? ==> !s.proc.binary || InWindow(s)
  }

  /** A stale directory that nothing writes binary snapshots to. */
  ghost predicate StuckStale(s: State) {
    Stale(s.disk) && s.disk.config && (s.proc.phase.Down? || !s.proc.binary)
  }

  lemma {:induction false} StepKeepsStuck(s: State, a: Action, env: Env)
    requires StuckStale(s) && Enabled(s, a, env)
    ensures StuckStale(Step(s, a, env))
  {
    StepFiles(s, a, env);
    if a.Rename? {
      RenameKeepsBinary(s);
    } else if a.Start? {
      StuckRefuses(s, env);
    }
  }

  /** A rename by a process that writes JSON lines. */
  lemma {:induction false} RenameKeepsBinary(s: State)
    requires s.proc.phase.Saving? && !s.proc.binary
    ensures var d := DoRename(s).disk;
            d.bin == s.disk.bin && (d.checksum == s.disk.checksum || (d.checksum.Some? && d.checksum.value.JsonLines?))
  {
  }

  /** A rename by a process that writes binary images leaves no stale one, except in the window. */
  lemma {:induction false} RenameClearsStale(s: State)
    requires s.proc.phase.Saving? && s.proc.binary && (Stale(s.disk) ==> InWindow(s))
    ensures Stale(DoRename(s).disk) ==> InWindow(DoRename(s))
  {
  }

  lemma {:induction false} RunKeepsStuck(s: State, actions: seq<Action>, t: State, env: Env)
    requires StuckStale(s) && Run(s, actions, t, env)
    ensures StuckStale(t)
    decreases |actions|
  {
    if actions != [] {
      StepKeepsStuck(s, actions[0], env);
      RunKeepsStuck(Step(s, actions[0], env), actions[1..], t, env);
    }
  }

  lemma {:induction false} StuckRefuses(s: State, env: Env)
    requires Stale(s.disk) && s.disk.config
    ensures Recover(s.disk, env).Err?
  {
  }

  lemma {:induction false} StepKeepsStaleIsJsonLines(s: State, a: Action, env: Env)
    requires StaleIsJsonLines(s) && Inv(s, env) && Enabled(s, a, env)
    ensures StaleIsJsonLines(Step(s, a, env))
  {
    StepFiles(s, a, env);
    if a.Rename? {
      if s.proc.binary {
        RenameClearsStale(s);
      }
    } else if a.Start? || a.Create? {
      OpenedIsNotStale(s, a, env);
    } else if InWindow(s) {
      WindowSteps(s, a, env);
    }
  }

  lemma {:induction false} OpenedIsNotStale(s: State, a: Action, env: Env)
    requires Inv(s, env) && Enabled(s, a, env) && (a.Start? || a.Create?)
    ensures !Stale(s.disk)
  {
  }

  lemma {:induction false} RunKeepsStaleIsJsonLines(s: State, actions: seq<Action>, t: State, env: Env)
    requires StaleIsJsonLines(s) && Inv(s, env) && Run(s, actions, t, env) && Laws(env.codec)
    ensures StaleIsJsonLines(t)
    decreases |actions|
  {
    if actions != [] {
      StepPreserves(s, actions[0], env);
      StepKeepsStaleIsJsonLines(s, actions[0], env);
      RunKeepsStaleIsJsonLines(Step(s, actions[0], env), actions[1..], t, env);
    }
  }

  /** A running process outside the window whose directory does not load never leaves that state. */
  lemma {:induction false} UnloadableIsStuck(before: seq<Action>, s: State, env: Env)
    requires Run(INITIAL, before, s, env) && Laws(env.codec) && Load(s.disk, env).Err?
    requires !s.proc.phase.Down? && !InWindow(s) && s.disk.config
    ensures StuckStale(s)
  {
    RunKeepsIntact(INITIAL, before, s, env);
    RunKeepsStaleIsJsonLines(INITIAL, before, s, env);
    LoadsIff(s.disk, env);
  }

  // ---- Runs that keep one snapshot format ----

  ghost predicate FixedFormat(actions: seq<Action>, binary: bool) {
    forall a :: a in actions ==> (a.Create? || a.Start? ==> a.binary == binary)
  }

  ghost predicate OneFormat(s: State, binary: bool) {
    && (!s.proc.phase.Down? ==> s.proc.binary == binary)
    && (if binary then s.disk.checksum.Some? ==> s.disk.checksum.value.Binary? else s.disk.bin.None?)
  }

  lemma {:induction false} StepKeepsFormat(s: State, a: Action, binary: bool, env: Env)
    requires OneFormat(s, binary) && Enabled(s, a, env)
    requires a.Create? || a.Start? ==> a.binary == binary
    ensures OneFormat(Step(s, a, env), binary)
  {
    StepFiles(s, a, env);
    if a.Rename? {
      RenameKeepsFormat(s, binary);
    }
  }

  lemma {:induction false} RenameKeepsFormat(s: State, binary: bool)
    requires s.proc.phase.Saving? && OneFormat(s, binary)
    ensures OneFormat(DoRename(s), binary)
  {
  }

  lemma {:induction false} FixedFormatIsNeverStale(s: State, actions: seq<Action>, t: State, binary: bool, env: Env)
    requires OneFormat(s, binary) && FixedFormat(actions, binary) && Run(s, actions, t, env)
    ensures OneFormat(t, binary) && !Stale(t.disk)
    decreases |actions|
  {
    if actions != [] {
      StepKeepsFormat(s, actions[0], binary, env);
      FixedFormatIsNeverStale(Step(s, actions[0], env), actions[1..], t, binary, env);
    }
  }

  // ---- A call that returns with less in memory than in the log ----

  ghost predicate CanReturn(s: State, env: Env) {
    && HistoryOk(s.hist, env) && LogIs(s, env) && s.disk.config && LoadsOnly(s.disk, s.hist.base, env)
  }

  /** Recovery after a call that returns: what is in the log, whatever is in memory. */
  lemma {:induction false} ReturnedRecovers(s: State, env: Env)
    requires CanReturn(s, env) && Laws(env.codec)
    ensures ReadEntries(env.codec, s.disk.log) == Ok(s.hist.logged)
    ensures Load(s.disk, env).Ok? ==>
              Recover(s.disk, env) == Ok(Some(Replay(s.hist.acked, s.hist.pending[..s.hist.inLog], env.accepts)))
  {
    LogReadsBack(env.codec, s.proc.compress, s.hist.logged);
    RecoversFrom(s.disk, s.hist.logged, env);
    BaseReplays(s.hist, env);
  }

  /** What the call had logged is the end of the log. */
  lemma {:induction false} LoggedLast(h: History, env: Env)
    requires HistoryOk(h, env)
    ensures Operations(h.logged)[|h.logged| - h.inLog..] == h.pending[..h.inLog]
  {
  }

  lemma {:induction false} ReturnEnds(s: State, env: Env)
    requires CanReturn(s, env) && Laws(env.codec)
    ensures var t, logged := Acknowledge(s), s.hist.pending[..s.hist.inLog];
            && t.proc.phase == Idle && t.hist.pending == [] && t.proc.mem == t.hist.acked == s.proc.mem
            && ReadEntries(env.codec, t.disk.log) == Ok(t.hist.logged)
            && |logged| <= |t.hist.logged| && Operations(t.hist.logged)[|t.hist.logged| - |logged|..] == logged
            && (Load(t.disk, env).Ok? ==> Recover(t.disk, env) == Ok(Some(Replay(s.hist.acked, logged, env.accepts))))
  {
    ReturnedRecovers(s, env);
    LoggedLast(s.hist, env);
  }

  lemma {:induction false} MutatingCanReturn(s: State, env: Env)
    requires RunningOk(s, env) && s.proc.phase.Mutating?
    ensures CanReturn(s, env) && s.hist.pending == Operations(s.proc.phase.batch)
    ensures s.hist.pending[..s.hist.inLog] == s.hist.pending
    ensures s.proc.mem == Replay(s.hist.acked, s.hist.pending[..s.proc.phase.next], env.accepts)
  {
  }

  // ---- The unsafe branches ----

  /** The upserts of a batch that `insert` takes before it rejects one; the whole batch is already logged. */
  ghost predicate FirstRejected(batch: seq<Entry>, i: nat, env: Env) {
    && i < |batch| && AllUpserts(batch)
    && !env.accepts(batch[i].operation.point)
    && forall j :: 0 <= j < i ==> env.accepts(batch[j].operation.point)
  }

  /**
   * A rejected point ends the call, but the points after it stay in the log. Memory and
   * recovery agree afterwards, whatever the store was, exactly when every accepted point after
   * the rejected one repeats what the batch had already stored before it.
   */
  lemma {:induction false} RejectedPointHarmlessIff(batch: seq<Entry>, i: nat, env: Env)
    requires FirstRejected(batch, i, env)
    ensures SameOnEveryStore(Operations(batch), Operations(batch)[..i], env.accepts)
       <==> Repeats(Effect(Operations(batch)[i + 1..], env.accepts), Effect(Operations(batch)[..i], env.accepts))
  {
    var ops := Operations(batch);
    var before, after := Effect(ops[..i], env.accepts), Effect(ops[i + 1..], env.accepts);
    assert ops == ops[..i] + ([ops[i]] + ops[i + 1..]);
    EffectConcat(ops[..i], [ops[i]] + ops[i + 1..], env.accepts);
    EffectConcat([ops[i]], ops[i + 1..], env.accepts);
    assert [ops[i]][..0] == [];
    assert Effect([ops[i]], env.accepts) == map[];
    assert Effect(ops, env.accepts) == before + after;
    SameOnEveryStoreIff(ops, ops[..i], env.accepts);
    if before + after == before {
      assert forall id :: id in after ==> (before + after)[id] == after[id];
    }
  }

  /**
   * The rejecting step: the call returns with the whole batch at the end of the log and only the
   * operations before the rejected one in memory, while recovery would bring the whole batch back.
   */
  lemma {:induction false} RejectedPointEndsCall(s: State, env: Env)
    requires RunningOk(s, env) && Laws(env.codec) && Enabled(s, MutateOne, env)
    requires Rejects(s.proc.phase.batch[s.proc.phase.next].operation, env)
    ensures var t, ops := DoMutateOne(s, env), Operations(s.proc.phase.batch);
            && t.proc.phase == Idle && t.hist.pending == []
            && ReadEntries(env.codec, t.disk.log) == Ok(t.hist.logged)
            && |ops| <= |t.hist.logged|
            && Operations(t.hist.logged)[|t.hist.logged| - |ops|..] == ops
            && t.proc.mem == t.hist.acked == Replay(s.hist.acked, ops[..s.proc.phase.next], env.accepts)
            && (Load(t.disk, env).Ok? ==> Recover(t.disk, env) == Ok(Some(Replay(s.hist.acked, ops, env.accepts))))
  {
    MutatingCanReturn(s, env);
    ReturnEnds(s, env);
  }
}
