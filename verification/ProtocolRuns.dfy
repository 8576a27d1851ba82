/** Runs of whole calls: what a batch that nothing interrupts leaves on disk and in memory. */
module ProtocolRuns {
  import opened Base
  import opened WalReplay
  import opened WalFormat
  import opened PointInTime
  import opened Snapshot
  import opened Protocol
  import opened ProtocolSafety

  // ---- Putting runs together ----

  lemma {:induction false} RunStep(s: State, a: Action, rest: seq<Action>, t: State, env: Env)
    requires Enabled(s, a, env) && Safe(s, a, env) && Run(Step(s, a, env), rest, t, env)
    ensures Run(s, [a] + rest, t, env)
  {
    assert ([a] + rest)[1..] == rest;
  }

  /** The process is neither created nor started in between. */
  ghost predicate Uninterrupted(actions: seq<Action>) {
    forall a :: a in actions ==> !a.Create? && !a.Start?
  }

  /** No safe continuation of this state breaks the promise. */
  ghost predicate KeepsPromise(s: State, env: Env) {
    forall actions, t :: Run(s, actions, t, env) ==> Recoverable(t, env)
  }

  lemma {:induction false} KeptByInvariant(s: State, env: Env)
    requires Inv(s, env) && Laws(env.codec)
    ensures KeepsPromise(s, env)
  {
    forall actions, t | Run(s, actions, t, env)
      ensures Recoverable(t, env)
    {
      RunPreserves(s, actions, t, env);
      InvIsRecoverable(t, env);
    }
  }

  lemma {:induction false} ListingOf(s: Store) returns (image: seq<Point>)
    requires WellKeyed(s)
    ensures ListsStore(image, s)
    decreases |s|
  {
    image := [];
    if s != map[] {
      var id :| id in s;
      var rest := ListingOf(s - {id});
      image := rest + [s[id]];
      assert s == (s - {id})[id := s[id]];
    }
  }

  // ---- Logging a whole batch ----

  lemma {:induction false} RecordNotEmpty(c: Codec, compress: bool, e: Entry)
    ensures |Record(c, compress, e)| > 0
  {
  }

  /** The records up to the m-th can be written without being refused. */
  ghost predicate LogsTo(s: State, m: nat) {
    && s.proc.phase.Logging? && s.proc.phase.torn == 0 && s.proc.phase.written <= m <= |s.proc.phase.batch|
    && s.hist.inLog == s.proc.phase.written
    && s.proc.ops + m - s.proc.phase.written <= MAX_OPS_BEFORE_BACKPRESSURE
  }

  /** The state once they are. */
  ghost function LoggedTo(s: State, m: nat, env: Env): State
    requires LogsTo(s, m)
  {
    var Logging(batch, written, _) := s.proc.phase;
    State(s.disk.(log := s.disk.log + Records(env.codec, s.proc.compress, batch[written..m])),
          s.proc.(phase := Logging(batch, m, 0), ops := s.proc.ops + m - written),
          s.hist.(inLog := m, logged := s.hist.logged + batch[written..m]))
  }

  /** The record at the front of what is still to be written. */
  lemma {:induction false} RecordFirst(c: Codec, compress: bool, log: seq<Byte>, batch: seq<Entry>, i: nat, m: nat)
    requires i < m <= |batch|
    ensures log + Records(c, compress, batch[i..m])
         == log + Record(c, compress, batch[i]) + Records(c, compress, batch[i + 1..m])
  {
    assert batch[i..m][1..] == batch[i + 1..m];
    assert Records(c, compress, batch[i..m]) == Record(c, compress, batch[i]) + Records(c, compress, batch[i + 1..m]);
  }

  /** The state after one more record. */
  ghost function OneLogged(s: State, env: Env): State
    requires s.proc.phase.Logging? && s.proc.phase.written < |s.proc.phase.batch|
  {
    var Logging(batch, written, _) := s.proc.phase;
    State(s.disk.(log := s.disk.log + Record(env.codec, s.proc.compress, batch[written])),
          s.proc.(phase := Logging(batch, written + 1, 0), ops := s.proc.ops + 1),
          s.hist.(inLog := written + 1, logged := s.hist.logged + [batch[written]]))
  }

  lemma {:induction false} LogOne(s: State, m: nat, chunk: Action, env: Env)
    requires LogsTo(s, m) && s.proc.phase.written < m
    requires chunk == WriteChunk(|Record(env.codec, s.proc.compress, s.proc.phase.batch[s.proc.phase.written])|)
    ensures Enabled(s, chunk, env) && Step(s, chunk, env) == OneLogged(s, env)
  {
    var record := Record(env.codec, s.proc.compress, s.proc.phase.batch[s.proc.phase.written]);
    RecordNotEmpty(env.codec, s.proc.compress, s.proc.phase.batch[s.proc.phase.written]);
    assert record[0..|record|] == record;
  }

  lemma {:induction false} SameWhole(s: State, m: nat, env: Env)
    requires LogsTo(s, m) && s.proc.phase.written < m
    ensures LoggedTo(OneLogged(s, env), m, env) == LoggedTo(s, m, env)
  {
    var Logging(batch, written, _) := s.proc.phase;
    RecordFirst(env.codec, s.proc.compress, s.disk.log, batch, written, m);
    assert s.hist.logged + batch[written..m] == s.hist.logged + [batch[written]] + batch[written + 1..m];
  }

  lemma {:induction false} LogAll(s: State, m: nat, env: Env) returns (actions: seq<Action>)
    requires LogsTo(s, m)
    ensures Run(s, actions, LoggedTo(s, m, env), env) && Uninterrupted(actions)
    decreases if s.proc.phase.Logging? then m - s.proc.phase.written else 0
  {
    if s.proc.phase.written == m {
      actions := [];
    } else {
      var chunk := WriteChunk(|Record(env.codec, s.proc.compress, s.proc.phase.batch[s.proc.phase.written])|);
      LogOne(s, m, chunk, env);
      SameWhole(s, m, env);
      var rest := LogAll(Step(s, chunk, env), m, env);
      RunStep(s, chunk, rest, LoggedTo(s, m, env), env);
      actions := [chunk] + rest;
    }
  }

  // ---- Applying a whole batch ----

  /** No point of the batch is rejected. */
  ghost predicate AllTaken(batch: seq<Entry>, env: Env) {
    forall i :: 0 <= i < |batch| ==> !Rejects(batch[i].operation, env)
  }

  ghost predicate MutatesOn(s: State, env: Env) {
    && s.proc.phase.Mutating? && s.proc.phase.next <= |s.proc.phase.batch| && AllTaken(s.proc.phase.batch, env)
    && s.hist.applied == s.proc.phase.next
  }

  ghost predicate WhollyApplied(s: State, t: State, env: Env)
    requires MutatesOn(s, env)
  {
    var Mutating(batch, next, _) := s.proc.phase;
    && t.proc.phase.Mutating? && t.proc.phase.batch == batch && t.proc.phase.next == |batch|
    && t.disk == s.disk && t.hist == s.hist.(applied := |batch|)
    && t.proc == s.proc.(phase := t.proc.phase, mem := Replay(s.proc.mem, Operations(batch)[next..], env.accepts))
  }

  lemma {:induction false} ReplayFirst(s: Store, ops: seq<Operation>, accepts: Checks)
    requires ops != []
    ensures Replay(s, ops, accepts) == Replay(Apply(s, ops[0], accepts), ops[1..], accepts)
  {
    assert ops == [ops[0]] + ops[1..];
    ReplayConcat(s, [ops[0]], ops[1..], accepts);
    assert [ops[0]][..0] == [];
    assert Replay(s, [], accepts) == s;
  }

  lemma {:induction false} ApplyOne(s: State, t: State, env: Env)
    requires MutatesOn(s, env) && s.proc.phase.next < |s.proc.phase.batch|
    requires MutatesOn(DoMutateOne(s, env), env) ==> WhollyApplied(DoMutateOne(s, env), t, env)
    ensures MutatesOn(DoMutateOne(s, env), env) && WhollyApplied(s, t, env)
  {
    var Mutating(batch, next, _) := s.proc.phase;
    var ops := Operations(batch);
    ReplayFirst(s.proc.mem, ops[next..], env.accepts);
    assert ops[next..][1..] == ops[next + 1..];
  }

  lemma {:induction false} ApplyAll(s: State, env: Env) returns (actions: seq<Action>, t: State)
    requires MutatesOn(s, env)
    ensures Run(s, actions, t, env) && WhollyApplied(s, t, env) && Uninterrupted(actions)
    decreases if s.proc.phase.Mutating? then |s.proc.phase.batch| - s.proc.phase.next else 0
  {
    var Mutating(batch, next, _) := s.proc.phase;
    if next == |batch| {
      actions, t := [], s;
      assert Operations(batch)[next..] == [];
    } else {
      actions, t := ApplyAll(DoMutateOne(s, env), env);
      ApplyOne(s, t, env);
      RunStep(s, MutateOne, actions, t, env);
      actions := [MutateOne] + actions;
    }
  }

  // ---- A whole call ----

  /** An idle process about to take a batch that needs no snapshot. */
  ghost predicate Ready(s: State, batch: seq<Entry>, env: Env) {
    && s.proc.phase.Idle? && s.proc.ops + |batch| < SNAPSHOT_THRESHOLD && WellKeyed(s.proc.mem)
    && (AllUpserts(batch) || AllDeletes(batch)) && AllTaken(batch, env)
  }

  /** The call has returned: the records are in the log, the operations in memory, and both are acknowledged. */
  ghost function AfterCall(s: State, batch: seq<Entry>, env: Env): State {
    var mem := Replay(s.proc.mem, Operations(batch), env.accepts);
    State(s.disk.(log := s.disk.log + Records(env.codec, s.proc.compress, batch)),
          s.proc.(phase := Idle, ops := s.proc.ops + |batch|, mem := mem),
          History(mem, [], 0, 0, s.hist.base, s.hist.logged + batch))
  }

  /** The same before the first operation is applied, and after the last. */
  ghost function Begun(s: State, batch: seq<Entry>, env: Env): State {
    State(AfterCall(s, batch, env).disk, s.proc.(phase := Mutating(batch, 0, 0), ops := s.proc.ops + |batch|),
          History(s.hist.acked, Operations(batch), |batch|, 0, s.hist.base, s.hist.logged + batch))
  }

  ghost function Ended(s: State, batch: seq<Entry>, missing: nat, env: Env): State {
    State(AfterCall(s, batch, env).disk, AfterCall(s, batch, env).proc.(phase := Mutating(batch, |batch|, missing)),
          History(s.hist.acked, Operations(batch), |batch|, |batch|, s.hist.base, s.hist.logged + batch))
  }

  lemma {:induction false} CallLogs(s: State, batch: seq<Entry>, env: Env)
    requires Ready(s, batch, env)
    ensures Enabled(s, Call(batch), env) && LogsTo(Step(s, Call(batch), env), |batch|)
    ensures var t := LoggedTo(Step(s, Call(batch), env), |batch|, env);
            Enabled(t, BeginMutation, env) && Step(t, BeginMutation, env) == Begun(s, batch, env)
  {
    assert batch[0..|batch|] == batch;
  }

  lemma {:induction false} CallApplies(s: State, batch: seq<Entry>, t: State, env: Env)
    requires Ready(s, batch, env) && MutatesOn(Begun(s, batch, env), env)
    requires WhollyApplied(Begun(s, batch, env), t, env)
    ensures t == Ended(s, batch, t.proc.phase.missing, env)
  {
    assert Operations(batch)[0..] == Operations(batch);
  }

  lemma {:induction false} CallReturns(s: State, batch: seq<Entry>, missing: nat, image: seq<Point>, env: Env)
    requires Ready(s, batch, env) && ListsStore(image, AfterCall(s, batch, env).proc.mem)
    ensures var t := Ended(s, batch, missing, env);
            Enabled(t, FinishCall(image), env) && Step(t, FinishCall(image), env) == AfterCall(s, batch, env)
  {
  }

  lemma {:induction false} CallRuns(s: State, batch: seq<Entry>, env: Env) returns (actions: seq<Action>)
    requires Ready(s, batch, env)
    ensures Enabled(s, Call(batch), env) && Run(Step(s, Call(batch), env), actions, AfterCall(s, batch, env), env)
    ensures Uninterrupted(actions)
  {
    CallLogs(s, batch, env);
    var called := Step(s, Call(batch), env);
    var logging := LogAll(called, |batch|, env);
    var applying, t := ApplyAll(Begun(s, batch, env), env);
    CallApplies(s, batch, t, env);
    ReplayWellKeyed(s.proc.mem, Operations(batch), env.accepts);
    var image := ListingOf(AfterCall(s, batch, env).proc.mem);
    CallReturns(s, batch, t.proc.phase.missing, image, env);
    actions := FinishRun(
      called, logging, LoggedTo(called, |batch|, env), applying, t, image, AfterCall(s, batch, env), env);
  }

  lemma {:induction false} FinishRun(
      called: State, logging: seq<Action>, logged: State, applying: seq<Action>, t: State, image: seq<Point>,
      last: State, env: Env)
    returns (actions: seq<Action>)
    requires Run(called, logging, logged, env) && Enabled(logged, BeginMutation, env)
    requires Run(Step(logged, BeginMutation, env), applying, t, env)
    requires Enabled(t, FinishCall(image), env) && Step(t, FinishCall(image), env) == last
    requires Uninterrupted(logging) && Uninterrupted(applying)
    ensures Run(called, actions, last, env) && Uninterrupted(actions)
  {
    RunStep(t, FinishCall(image), [], last, env);
    actions := RunOn(Step(logged, BeginMutation, env), applying, t, [FinishCall(image)] + [], last, env);
    RunStep(logged, BeginMutation, actions, last, env);
    actions := RunOn(called, logging, logged, [BeginMutation] + actions, last, env);
  }

  lemma {:induction false} RunOn(s: State, a: seq<Action>, t: State, b: seq<Action>, u: State, env: Env)
    returns (both: seq<Action>)
    requires Run(s, a, t, env) && Run(t, b, u, env)
    ensures Run(s, both, u, env) && forall x :: x in both ==> x in a || x in b
    decreases |a|
  {
    if a == [] {
      both := b;
    } else {
      both := RunOn(Step(s, a[0], env), a[1..], t, b, u, env);
      RunStep(s, a[0], both, u, env);
      both := [a[0]] + both;
    }
  }
}
