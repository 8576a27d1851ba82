/** The guards on a call: a rejected point, a refusal half-way, and a frame over the reader's limit. */
module ProtocolCalls {
  import opened Base
  import opened WalReplay
  import opened WalFormat
  import opened PointInTime
  import opened Snapshot
  import opened Protocol
  import opened ProtocolSafety
  import opened ProtocolRefusals
  import opened ProtocolRuns
  import opened ProtocolGuards

  // ---- A call that returns with less in memory than in the log ----

  lemma {:induction false} StuckKeepsPromise(s: State, env: Env)
    requires StuckStale(s)
    ensures KeepsPromise(s, env)
  {
    forall actions, t | Run(s, actions, t, env)
      ensures Recoverable(t, env)
    {
      RunKeepsStuck(s, actions, t, env);
      StuckRefuses(t, env);
    }
  }

  lemma {:induction false} DifferentReturnBreaks(s: State, recovered: Store, env: Env)
    requires Recover(s.disk, env) == Ok(Some(recovered)) && recovered != s.proc.mem
    ensures !KeepsPromise(Acknowledge(s), env)
  {
    var t := Acknowledge(s);
    assert t.hist.pending[..0] == [];
    assert Run(t, [], t, env);
  }

  lemma {:induction false} ReturnIsSafeIff(s: State, env: Env)
    requires CanReturn(s, env) && Laws(env.codec) && Load(s.disk, env).Ok?
    ensures KeepsPromise(Acknowledge(s), env)
       <==> s.proc.mem == Replay(s.hist.acked, s.hist.pending[..s.hist.inLog], env.accepts)
  {
    if s.proc.mem == Replay(s.hist.acked, s.hist.pending[..s.hist.inLog], env.accepts) {
      AcknowledgePreserves(s, env);
      KeptByInvariant(Acknowledge(s), env);
    } else {
      ReturnedRecovers(s, env);
      DifferentReturnBreaks(s, Replay(s.hist.acked, s.hist.pending[..s.hist.inLog], env.accepts), env);
    }
  }

  // ---- The guard on a rejected point ----

  /** After the batch as a whole, the store is what it is after the operations before the rejected one. */
  ghost predicate RestChangesNothing(s: State, env: Env)
    requires Enabled(s, MutateOne, env)
  {
    var ops := Operations(s.proc.phase.batch);
    Replay(s.hist.acked, ops, env.accepts) == Replay(s.hist.acked, ops[..s.proc.phase.next], env.accepts)
  }

  /**
   * Whatever safe run led to a rejected point, the promise is kept under every safe continuation
   * exactly when the rest of the batch, which is in the log already, changes nothing, or when the
   * directory is refused from now on anyway.
   */
  lemma {:induction false} RejectionIsSafeIff(before: seq<Action>, s: State, env: Env)
    requires Laws(env.codec) && Run(INITIAL, before, s, env) && Enabled(s, MutateOne, env)
    requires Rejects(s.proc.phase.batch[s.proc.phase.next].operation, env)
    ensures KeepsPromise(DoMutateOne(s, env), env) <==> Load(s.disk, env).Err? || RestChangesNothing(s, env)
  {
    RunPreserves(INITIAL, before, s, env);
    MutatingCanReturn(s, env);
    if Load(s.disk, env).Err? {
      UnloadableIsStuck(before, s, env);
      StuckKeepsPromise(Acknowledge(s), env);
    } else {
      ReturnIsSafeIff(s, env);
    }
  }

  // ---- The guard on a refusal half-way ----

  lemma {:induction false} LoggingCanReturn(s: State, env: Env)
    requires RunningOk(s, env) && s.proc.phase.Logging? && s.proc.phase.torn == 0
    ensures CanReturn(s, env) && s.proc.mem == s.hist.acked && s.hist.inLog == s.proc.phase.written
    ensures s.hist.pending == Operations(s.proc.phase.batch)
  {
    NothingTornIsLog(s, env);
  }

  /**
   * The refusing step: the call returns an error with nothing of its batch in memory, and what it had
   * logged before is at the end of the log, from where recovery would bring it back.
   */
  lemma {:induction false} RefusalEndsCall(s: State, env: Env)
    requires RunningOk(s, env) && Laws(env.codec) && Enabled(s, Refuse, env)
    ensures var t, logged := Step(s, Refuse, env), Operations(s.proc.phase.batch)[..s.proc.phase.written];
            && t.proc.phase == Idle && t.hist.pending == [] && t.proc.mem == t.hist.acked == s.hist.acked
            && ReadEntries(env.codec, t.disk.log) == Ok(t.hist.logged)
            && |logged| <= |t.hist.logged|
            && Operations(t.hist.logged)[|t.hist.logged| - |logged|..] == logged
            && (Load(t.disk, env).Ok? ==> Recover(t.disk, env) == Ok(Some(Replay(s.hist.acked, logged, env.accepts))))
  {
    LoggingCanReturn(s, env);
    ReturnEnds(s, env);
  }

  /**
   * Whatever safe run led to a refusal, the promise is kept under every safe continuation exactly
   * when what was logged of the batch changes nothing, or the directory is refused from now on anyway.
   */
  lemma {:induction false} RefusalIsSafeIff(before: seq<Action>, s: State, env: Env)
    requires Laws(env.codec) && Run(INITIAL, before, s, env) && Enabled(s, Refuse, env)
    ensures KeepsPromise(Step(s, Refuse, env), env)
       <==> || Load(s.disk, env).Err?
            || Replay(s.hist.acked, Operations(s.proc.phase.batch)[..s.proc.phase.written], env.accepts) == s.hist.acked
  {
    RunPreserves(INITIAL, before, s, env);
    LoggingCanReturn(s, env);
    if Load(s.disk, env).Err? {
      UnloadableIsStuck(before, s, env);
      StuckKeepsPromise(Acknowledge(s), env);
    } else {
      ReturnIsSafeIff(s, env);
    }
  }

  lemma {:induction false} NoEffectIff(ops: seq<Operation>, env: Env)
    requires LinkFree(ops)
    ensures Effect(ops, env.accepts) == map[] <==> forall i :: 0 <= i < |ops| ==> Rejects(ops[i], env)
  {
    if ops != [] {
      var n := |ops| - 1;
      NoEffectIff(ops[..n], env);
      assert forall i :: 0 <= i < n ==> ops[..n][i] == ops[i];
      assert (forall i :: 0 <= i < |ops| ==> Rejects(ops[i], env))
          == (Rejects(ops[n], env) && forall i :: 0 <= i < n ==> Rejects(ops[..n][i], env));
      EffectOfLast(ops, env);
    }
  }

  lemma {:induction false} EffectOfLast(ops: seq<Operation>, env: Env)
    requires LinkFree(ops) && ops != []
    ensures var n := |ops| - 1;
            Effect(ops, env.accepts) == map[] <==> Rejects(ops[n], env) && Effect(ops[..n], env.accepts) == map[]
  {
    var last := ops[|ops| - 1];
    if !Rejects(last, env) {
      assert (if last.Upsert? then last.point.id else last.id) in Effect(ops, env.accepts);
    }
  }

  /** On every store, that is exactly when each logged operation is an upsert `insert` would have rejected. */
  lemma {:induction false} RefusalHarmlessIff(batch: seq<Entry>, written: nat, env: Env)
    requires written <= |batch| && LinkFree(Operations(batch))
    ensures SameOnEveryStore(Operations(batch)[..written], [], env.accepts)
       <==> forall i :: 0 <= i < written ==> Rejects(batch[i].operation, env)
  {
    var ops := Operations(batch)[..written];
    SameOnEveryStoreIff(ops, [], env.accepts);
    NoEffectIff(ops, env);
    assert forall i :: 0 <= i < written ==> ops[i] == batch[i].operation;
  }

  /** A batch that does not fit below the limit is logged up to it, and then refused. */
  lemma {:induction false} LongBatchIsRefused(
      s: State, batch: seq<Entry>, env: Env) returns (actions: seq<Action>, t: State)
    requires s.proc.phase.Idle? && Enabled(s, Call(batch), env)
    requires s.proc.ops < MAX_OPS_BEFORE_BACKPRESSURE < s.proc.ops + |batch|
    ensures Run(Step(s, Call(batch), env), actions, t, env) && Enabled(t, Refuse, env)
    ensures t.proc.phase.batch == batch && t.proc.phase.written == MAX_OPS_BEFORE_BACKPRESSURE - s.proc.ops > 0
    ensures t.proc.mem == s.proc.mem
  {
    var m := MAX_OPS_BEFORE_BACKPRESSURE - s.proc.ops;
    var called := Step(s, Call(batch), env);
    actions := LogAll(called, m, env);
    t := LoggedTo(called, m, env);
  }

  // ---- After a refusal ----

  /** Steps without regard to the guards. */
  ghost predicate Reaches(s: State, actions: seq<Action>, t: State, env: Env)
    decreases |actions|
  {
    if actions == [] then s == t
    else Enabled(s, actions[0], env) && Reaches(Step(s, actions[0], env), actions[1..], t, env)
  }

  /** Idle over a log that is too long, or about to refuse a batch. */
  ghost predicate Refusing(s: State) {
    && s.proc.ops >= MAX_OPS_BEFORE_BACKPRESSURE
    && (s.proc.phase.Idle? ||
        (s.proc.phase.Logging? && s.proc.phase.batch != [] && s.proc.phase.written == 0 == s.proc.phase.torn))
  }

  ghost predicate NeitherCrashNorEmpty(a: Action) {
    !a.Crash? && (a.Call? ==> a.batch != [])
  }

  lemma {:induction false} StepStaysRefused(s: State, a: Action, env: Env)
    requires Refusing(s) && Enabled(s, a, env) && NeitherCrashNorEmpty(a)
    ensures var t := Step(s, a, env); Refusing(t) && t.disk == s.disk && t.proc == s.proc.(phase := t.proc.phase)
  {
  }

  /** From then on every call with anything in it is refused and changes nothing, until the process is restarted. */
  lemma {:induction false} StaysRefused(s: State, actions: seq<Action>, t: State, env: Env)
    requires Refusing(s) && Reaches(s, actions, t, env)
    requires forall i :: 0 <= i < |actions| ==> NeitherCrashNorEmpty(actions[i])
    ensures Refusing(t) && t.disk == s.disk && t.proc == s.proc.(phase := t.proc.phase)
    decreases |actions|
  {
    if actions != [] {
      StepStaysRefused(s, actions[0], env);
      assert forall i :: 0 <= i < |actions[1..]| ==> actions[1..][i] == actions[i + 1];
      StaysRefused(Step(s, actions[0], env), actions[1..], t, env);
    }
  }

  /** An empty call logs nothing, is not refused, and ends with the snapshot that empties the log. */
  lemma {:induction false} EmptyCallSaves(s: State, image: seq<Point>, env: Env)
    requires Refusing(s) && s.proc.phase.Idle? && ListsStore(image, s.proc.mem)
    ensures Enabled(s, Call([]), env)
    ensures var called := Step(s, Call([]), env);
            && Enabled(called, BeginMutation, env)
            && Enabled(Step(called, BeginMutation, env), FinishCall(image), env)
            && Step(Step(called, BeginMutation, env), FinishCall(image), env).proc
            == s.proc.(phase := Saving(image, SaveConfig, true))
  {
  }

  // ---- The guard on a frame over the reader's limit ----

  /** The frames before an oversize one are read, it and what follows are not. */
  lemma {:induction false} ReadUpToOversize(c: Codec, es: seq<Entry>, e: Entry, rest: seq<Byte>)
    requires JsonLaws(c) && ZstdLaws(c) && AllFit(c, es) && MAX_FRAME < |Payload(c, e)| < 0x1_0000_0000
    ensures ReadFrames(c, Records(c, true, es) + (Record(c, true, e) + rest)) == Ok(es)
  {
    var last := Record(c, true, e) + rest;
    if es == [] {
      assert Records(c, true, es) + last == last;
      OversizeFrameHidesRest(c, e, rest);
    } else {
      ReadUpToOversize(c, es[1..], e, rest);
      RecordsCons(c, true, es, last);
      ReadOneFrame(c, es[0], Records(c, true, es[1..]) + last);
      assert [es[0]] + es[1..] == es;
    }
  }

  lemma {:induction false} OversizeUnread(c: Codec, es: seq<Entry>, e: Entry, rest: seq<Byte>)
    requires JsonLaws(c) && ZstdLaws(c) && AllFit(c, es) && MAX_FRAME < |Payload(c, e)| < 0x1_0000_0000
    ensures ReadEntries(c, LogBytes(c, true, es) + (Record(c, true, e) + rest)) == Ok(es)
  {
    var last := Record(c, true, e) + rest;
    ReadUpToOversize(c, es, e, rest);
    CompressedBody(c, Records(c, true, es) + last);
    AppendAssoc(MAGIC, Records(c, true, es), last);
  }

  /** Where the frames stop to fit. */
  lemma {:induction false} FirstOversize(c: Codec, batch: seq<Entry>) returns (i: nat)
    requires !AllFit(c, batch)
    ensures i < |batch| && AllFit(c, batch[..i]) && !Fits(c, batch[i])
  {
    if !Fits(c, batch[0]) {
      i := 0;
    } else {
      var k := FirstOversize(c, batch[1..]);
      i := k + 1;
      assert forall j :: 0 < j < i ==> batch[..i][j] == batch[1..][..k][j - 1];
    }
  }

  lemma {:induction false} Regrouped(
      h: seq<Byte>, a: seq<Byte>, b: seq<Byte>, r: seq<Byte>, t: seq<Byte>, rest: seq<Byte>)
    ensures h + a + (b + (r + t)) + rest == h + (a + b) + (r + (t + rest))
  {
  }

  lemma {:induction false} SplitLog(c: Codec, logged: seq<Entry>, batch: seq<Entry>, i: nat, rest: seq<Byte>)
    requires i < |batch|
    ensures LogBytes(c, true, logged) + Records(c, true, batch) + rest
         == LogBytes(c, true, logged + batch[..i]) + (Record(c, true, batch[i]) + (Records(c, true, batch[i + 1..]) + rest))
  {
    RecordsConcat(c, true, logged, batch[..i]);
    SplitAt(c, true, batch, i);
    Regrouped(MAGIC, Records(c, true, logged), Records(c, true, batch[..i]), Record(c, true, batch[i]),
              Records(c, true, batch[i + 1..]), rest);
  }

  /** Nothing of a batch from its first oversize frame on is read, and nothing that is logged later. */
  lemma {:induction false} OversizeBatchUnread(c: Codec, logged: seq<Entry>, batch: seq<Entry>, i: nat, rest: seq<Byte>)
    requires Laws(c) && AllFit(c, logged) && i < |batch| && AllFit(c, batch[..i])
    requires MAX_FRAME < |Payload(c, batch[i])| < 0x1_0000_0000
    ensures ReadEntries(c, LogBytes(c, true, logged) + Records(c, true, batch) + rest) == Ok(logged + batch[..i])
  {
    SplitLog(c, logged, batch, i, rest);
    OversizeUnread(c, logged + batch[..i], batch[i], Records(c, true, batch[i + 1..]) + rest);
  }

  /** An idle process: its memory is what recovery would return. */
  lemma {:induction false} IdleMemory(s: State, env: Env)
    requires RunningOk(s, env) && s.proc.phase.Idle?
    ensures WellKeyed(s.proc.mem) && s.proc.mem == s.hist.acked && LogIs(s, env) && s.disk.config
    ensures Load(s.disk, env).Ok? ==>
              Replay(Load(s.disk, env).value, Operations(s.hist.logged), env.accepts) == s.proc.mem
  {
    MemorySound(s, env);
    BaseReplays(s.hist, env);
    assert s.hist.pending[..s.hist.inLog] == [] == s.hist.pending[..s.hist.applied];
  }

  lemma {:induction false} OversizeBatchRecovers(s: State, batch: seq<Entry>, i: nat, rest: seq<Byte>, env: Env)
    requires RunningOk(s, env) && Laws(env.codec) && s.proc.phase.Idle? && s.proc.compress && Load(s.disk, env).Ok?
    requires i < |batch| && AllFit(env.codec, batch[..i])
    requires MAX_FRAME < |Payload(env.codec, batch[i])| < 0x1_0000_0000
    ensures Recover(s.disk.(log := s.disk.log + Records(env.codec, true, batch) + rest), env)
         == Ok(Some(Replay(s.proc.mem, Operations(batch)[..i], env.accepts)))
  {
    IdleMemory(s, env);
    OversizeBatchUnread(env.codec, s.hist.logged, batch, i, rest);
    RecoversMore(s.disk, s.disk.log + Records(env.codec, true, batch) + rest, s.hist.logged, batch, i, env);
  }

  /** The same snapshot under a log of which more is read. */
  lemma {:induction false} RecoversMore(
      d: Disk, log: seq<Byte>, logged: seq<Entry>, batch: seq<Entry>, i: nat, env: Env)
    requires d.config && Load(d, env).Ok? && i <= |batch| && ReadEntries(env.codec, log) == Ok(logged + batch[..i])
    ensures Recover(d.(log := log), env)
         == Ok(Some(Replay(Replay(Load(d, env).value, Operations(logged), env.accepts),
                           Operations(batch)[..i], env.accepts)))
  {
    var e := d.(log := log);
    assert Load(e, env) == Load(d, env);
    RecoversFrom(e, logged + batch[..i], env);
    OperationsConcat(logged, batch[..i]);
    assert Operations(batch[..i]) == Operations(batch)[..i];
    ReplayConcat(Load(d, env).value, Operations(logged), Operations(batch)[..i], env.accepts);
  }

  /** The call is idle again over a log of which nothing more is read: it has lost something, or the next call will. */
  lemma {:induction false} HiddenLogLoses(s: State, recovered: Store, env: Env) returns (actions: seq<Action>, t: State)
    requires s.proc.phase.Idle? && s.proc.ops + 1 < SNAPSHOT_THRESHOLD && WellKeyed(s.proc.mem)
    requires s.hist.pending == [] && s.hist.acked == s.proc.mem && Recover(s.disk, env) == Ok(Some(recovered))
    requires forall rest :: Recover(s.disk.(log := s.disk.log + rest), env) == Ok(Some(recovered))
    requires recovered == s.proc.mem ==> CanTell(env, s.proc.mem)
    ensures Run(s, actions, t, env) && !Recoverable(t, env)
  {
    if recovered != s.proc.mem {
      actions, t := [], s;
      assert s.hist.pending[..0] == [];
    } else {
      var e :| Tells(s.proc.mem, e, env.accepts) && LongFrame(env.codec, e);
      actions, t := UnreadCallIsLost(s, e, env);
      RunStep(s, Call([e]), actions, t, env);
      actions := [Call([e])] + actions;
    }
  }

  lemma {:induction false} OversizeCallLoses(
      s: State, batch: seq<Entry>, env: Env) returns (actions: seq<Action>, t: State)
    requires RunningOk(s, env) && Laws(env.codec) && s.proc.compress && Load(s.disk, env).Ok?
    requires Ready(s, batch, env) && s.proc.ops + |batch| + 1 < SNAPSHOT_THRESHOLD && !AllFit(env.codec, batch)
    requires forall i :: 0 <= i < |batch| ==> |Payload(env.codec, batch[i])| < 0x1_0000_0000
    requires Varied(env) || (|batch| == 1 && Tells(s.proc.mem, batch[0], env.accepts))
    ensures Enabled(s, Call(batch), env) && Run(Step(s, Call(batch), env), actions, t, env) && !Recoverable(t, env)
  {
    var i := FirstOversize(env.codec, batch);
    var u := AfterCall(s, batch, env);
    OversizeHides(s, batch, i, env);
    ReplayWellKeyed(s.proc.mem, Operations(batch), env.accepts);
    if !Varied(env) {
      LostAlone(s.proc.mem, batch, env);
    } else {
      assert CanTell(env, u.proc.mem);
    }
    actions, t := HiddenLogLoses(u, Replay(s.proc.mem, Operations(batch)[..i], env.accepts), env);
    var calling := CallRuns(s, batch, env);
    actions := RunOn(Step(s, Call(batch), env), calling, u, actions, t, env);
  }

  /** A single point that changes the store is missed by what is read without it. */
  lemma {:induction false} LostAlone(s: Store, batch: seq<Entry>, env: Env)
    requires |batch| == 1 && Tells(s, batch[0], env.accepts)
    ensures Replay(s, Operations(batch)[..0], env.accepts) != Replay(s, Operations(batch), env.accepts)
  {
    ReplayOne(s, batch[0], env.accepts);
    assert batch == [batch[0]] && Operations(batch)[..0] == [];
  }

  /** Whatever is logged after the call, recovery reads up to its first oversize frame. */
  lemma {:induction false} OversizeHides(s: State, batch: seq<Entry>, i: nat, env: Env)
    requires RunningOk(s, env) && Laws(env.codec) && s.proc.phase.Idle? && s.proc.compress && Load(s.disk, env).Ok?
    requires i < |batch| && AllFit(env.codec, batch[..i])
    requires MAX_FRAME < |Payload(env.codec, batch[i])| < 0x1_0000_0000
    ensures var d := AfterCall(s, batch, env).disk;
            var recovered := Ok(Some(Replay(s.proc.mem, Operations(batch)[..i], env.accepts)));
            Recover(d, env) == recovered && forall rest :: Recover(d.(log := d.log + rest), env) == recovered
  {
    var d := AfterCall(s, batch, env).disk;
    forall rest: seq<Byte>
      ensures Recover(d.(log := d.log + rest), env)
           == Ok(Some(Replay(s.proc.mem, Operations(batch)[..i], env.accepts)))
    {
      OversizeBatchRecovers(s, batch, i, rest, env);
    }
    assert d.(log := d.log + []) == d;
  }

  /**
   * Whatever safe run led here, a batch of which no point is rejected and after which the log is still
   * below the snapshot threshold keeps the promise under every safe continuation exactly when the
   * reader takes all its records, or the directory is refused from now on anyway.
   */
  lemma {:induction false} CallIsSafeIff(before: seq<Action>, s: State, batch: seq<Entry>, env: Env)
    requires Laws(env.codec) && Run(INITIAL, before, s, env) && s.proc.phase.Idle? && Enabled(s, Call(batch), env)
    requires s.proc.ops + |batch| + 1 < SNAPSHOT_THRESHOLD && AllTaken(batch, env)
    requires forall i :: 0 <= i < |batch| ==> |Payload(env.codec, batch[i])| < 0x1_0000_0000
    requires Varied(env) || (|batch| == 1 && Tells(s.proc.mem, batch[0], env.accepts))
    ensures KeepsPromise(Step(s, Call(batch), env), env)
       <==> Load(s.disk, env).Err? || (s.proc.compress ==> AllFit(env.codec, batch))
  {
    RunPreserves(INITIAL, before, s, env);
    IdleMemory(s, env);
    if Load(s.disk, env).Err? {
      UnloadableIsStuck(before, s, env);
      StuckKeepsPromise(Step(s, Call(batch), env), env);
    } else if s.proc.compress ==> AllFit(env.codec, batch) {
      StepPreserves(s, Call(batch), env);
      KeptByInvariant(Step(s, Call(batch), env), env);
    } else {
      var actions, t := OversizeCallLoses(s, batch, env);
    }
  }
}
