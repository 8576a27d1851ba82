/** When a change of the snapshot format at a restart is harmless. */
module ProtocolSwitch {
  import opened Base
  import opened WalReplay
  import opened WalFormat
  import opened PointInTime
  import opened Snapshot
  import opened Protocol
  import opened ProtocolSafety
  import opened ProtocolRefusals
  import opened ProtocolRuns
  import opened ProtocolGuards

  // ---- Why it is harmless ----

  /** The process writes this format, and is not over a stale image unless it is in the window. */
  ghost predicate Switched(s: State, binary: bool) {
    && (!s.proc.phase.Down? ==> s.proc.binary == binary)
    && (if binary then Stale(s.disk) ==> s.proc.phase.Down? || InWindow(s) else s.disk.bin.None?)
  }

  lemma {:induction false} OpeningSwitches(s: State, a: Action, env: Env)
    requires Inv(s, env) && Enabled(s, a, env) && (a.Start? || a.Create?)
    requires a.binary || s.disk.bin.None?
    ensures Switched(Step(s, a, env), a.binary)
  {
    StepFiles(s, a, env);
    OpenedIsNotStale(s, a, env);
  }

  lemma {:induction false} StepKeepsSwitched(s: State, a: Action, binary: bool, env: Env)
    requires Switched(s, binary) && Inv(s, env) && Enabled(s, a, env)
    requires a.Create? || a.Start? ==> a.binary == binary
    ensures Switched(Step(s, a, env), binary)
  {
    StepFiles(s, a, env);
    if a.Rename? {
      if binary {
        RenameClearsStale(s);
      } else {
        RenameKeepsBinary(s);
      }
    } else if a.Create? || a.Start? {
      OpenedIsNotStale(s, a, env);
    } else if InWindow(s) {
      WindowSteps(s, a, env);
    }
  }

  lemma {:induction false} RunKeepsSwitched(s: State, actions: seq<Action>, t: State, binary: bool, env: Env)
    requires Switched(s, binary) && Inv(s, env) && FixedFormat(actions, binary) && Run(s, actions, t, env)
    requires Laws(env.codec)
    ensures Switched(t, binary)
    decreases |actions|
  {
    if actions != [] {
      StepPreserves(s, actions[0], env);
      StepKeepsSwitched(s, actions[0], binary, env);
      RunKeepsSwitched(Step(s, actions[0], env), actions[1..], t, binary, env);
    }
  }

  // ---- What it costs otherwise ----

  /** Two renames in a row. */
  lemma {:induction false} TwoRenames(s: State, rest: seq<Action>, t: State, env: Env) returns (actions: seq<Action>)
    requires s.proc.phase.Saving? && DoRename(s).proc.phase.Saving?
    requires Run(DoRename(DoRename(s)), rest, t, env) && FixedFormat(rest, false)
    ensures Run(s, actions, t, env) && FixedFormat(actions, false)
  {
    RunStep(DoRename(s), Rename, rest, t, env);
    RunStep(s, Rename, [Rename] + rest, t, env);
    actions := [Rename] + ([Rename] + rest);
  }

  lemma {:induction false} RenamesGoStale(s: State)
    requires s.proc.phase.Saving? && s.proc.phase.step == SaveConfig && !s.proc.binary && s.disk.bin.Some?
    ensures DoRename(s).proc.phase.Saving?
    ensures var s2 := DoRename(DoRename(s));
            && s2.proc.phase.Saving? && DoRename(s2).proc.phase.Saving?
            && var t := DoRename(DoRename(s2));
               t.proc.phase.Saving? && t.proc.phase.step == SaveIndex && Stale(t.disk) && t.disk.config
  {
  }

  /** Four renames into a snapshot as JSON lines. */
  lemma {:induction false} SavingGoesStale(s: State, env: Env) returns (actions: seq<Action>, t: State)
    requires s.proc.phase.Saving? && s.proc.phase.step == SaveConfig && !s.proc.binary && s.disk.bin.Some?
    ensures Run(s, actions, t, env) && FixedFormat(actions, false)
    ensures t.proc.phase.Saving? && t.proc.phase.step == SaveIndex && Stale(t.disk) && t.disk.config
  {
    RenamesGoStale(s);
    var s2 := DoRename(DoRename(s));
    t := DoRename(DoRename(s2));
    actions := TwoRenames(s2, [], t, env);
    actions := TwoRenames(s, actions, t, env);
  }

  lemma {:induction false} CountedLog(c: Codec, compress: bool, es: seq<Entry>)
    requires Laws(c) && es != [] && (compress ==> AllFit(c, es))
    ensures CountEntries(c, LogBytes(c, compress, es)).Ok? && CountEntries(c, LogBytes(c, compress, es)).value > 0
  {
    if compress {
      CompressedBody(c, Records(c, true, es));
      ReadWholeFrames(c, es);
    } else {
      var rest := FirstLine(c, es, []);
      CountedLine(c, es[0], rest);
      assert LogBytes(c, false, es) == Records(c, false, es) + [];
      JsonLogIsNotCompressed(c, es, es[0], 0);
    }
  }

  /** The state is safe to go on from, and the format of its snapshots is JSON lines next to a binary image. */
  ghost predicate AtRisk(s: State, env: Env) {
    RunningOk(s, env) && Laws(env.codec) && !s.proc.binary && s.disk.bin.Some? && Load(s.disk, env).Ok?
  }

  /** The first header of an empty log, up to the idle process. */
  lemma {:induction false} HeaderRun(s: State, env: Env) returns (actions: seq<Action>, t: State)
    requires AtRisk(s, env) && s.proc.phase == WritingHeader(0, false) && s.proc.compress && s.disk.config
    ensures Run(s, actions, t, env) && FixedFormat(actions, false)
    ensures AtRisk(t, env) && t.proc.phase.Idle? && t.proc.ops == s.proc.ops
  {
    var written := DoWriteHeader(s, 4, env);
    t := DoWriteHeader(written, 0, env);
    StepPreserves(s, WriteHeader(4), env);
    StepPreserves(written, WriteHeader(0), env);
    RunStep(written, WriteHeader(0), [], t, env);
    RunStep(s, WriteHeader(4), [WriteHeader(0)] + [], t, env);
    actions := [WriteHeader(4)] + ([WriteHeader(0)] + []);
    assert Load(t.disk, env) == Load(s.disk, env);
  }

  ghost predicate CanStore(env: Env, e: Entry) {
    e.operation.Upsert? && env.accepts(e.operation.point) && Fits(env.codec, e)
  }

  lemma {:induction false} StoredState(s: State, e: Entry, t: State, env: Env)
    requires AtRisk(s, env) && s.proc.phase.Idle? && s.proc.ops == 0 && CanStore(env, e)
    ensures Ready(s, [e], env) && Safe(s, Call([e]), env)
    ensures t == AfterCall(s, [e], env) && RunningOk(t, env) ==> Reopenable(t, env)
  {
    MemorySound(s, env);
    if t == AfterCall(s, [e], env) && RunningOk(t, env) {
      assert Load(t.disk, env) == Load(s.disk, env);
      IdleIsReopenable(t, env);
    }
  }

  /** A directory that opening will consolidate first. */
  ghost predicate Reopenable(s: State, env: Env) {
    && s.proc.phase.Idle? && s.disk.config && s.disk.bin.Some? && WellKeyed(s.proc.mem)
    && Recover(s.disk, env) == Ok(Some(s.proc.mem))
    && CountEntries(env.codec, s.disk.log).Ok? && CountEntries(env.codec, s.disk.log).value > 0
  }

  lemma {:induction false} IdleIsReopenable(t: State, env: Env)
    requires RunningOk(t, env) && Laws(env.codec) && t.proc.phase.Idle? && t.hist.logged != []
    requires t.disk.bin.Some? && Load(t.disk, env).Ok?
    ensures Reopenable(t, env)
  {
    MemorySound(t, env);
    CountedLog(env.codec, t.proc.compress, t.hist.logged);
    LogReadsBack(env.codec, t.proc.compress, t.hist.logged);
    BaseReplays(t.hist, env);
    assert t.hist.pending[..t.hist.inLog] == [] == t.hist.pending[..t.hist.applied];
  }

  /** One call, so that the log counts an entry. */
  lemma {:induction false} StoreRun(s: State, e: Entry, env: Env) returns (actions: seq<Action>, t: State)
    requires AtRisk(s, env) && s.proc.phase.Idle? && s.proc.ops == 0 && CanStore(env, e)
    ensures Run(s, actions, t, env) && FixedFormat(actions, false) && Reopenable(t, env)
  {
    t := AfterCall(s, [e], env);
    StoredState(s, e, t, env);
    actions := CallRuns(s, [e], env);
    RunStep(s, Call([e]), actions, t, env);
    actions := [Call([e])] + actions;
    RunPreserves(s, actions, t, env);
    StoredState(s, e, t, env);
  }

  /** A crash, a restart, and the snapshot that the restart begins with. */
  lemma {:induction false} ReopenGoesStale(s: State, env: Env) returns (actions: seq<Action>, t: State)
    requires Reopenable(s, env)
    ensures Run(s, actions, t, env) && FixedFormat(actions, false)
    ensures t.proc.phase.Saving? && t.proc.phase.step == SaveIndex && Stale(t.disk) && t.disk.config
  {
    var image := ListingOf(s.proc.mem);
    var down, start := Step(s, Crash, env), Start(s.proc.compress, false, image);
    var u := Step(down, start, env);
    actions, t := SavingGoesStale(u, env);
    RunStep(down, start, actions, t, env);
    RunStep(s, Crash, [start] + actions, t, env);
    actions := [Crash] + ([start] + actions);
  }

  lemma {:induction false} IdleGoesStale(s: State, e: Entry, env: Env) returns (actions: seq<Action>, t: State)
    requires AtRisk(s, env) && s.proc.phase.Idle? && s.proc.ops == 0 && CanStore(env, e)
    ensures Run(s, actions, t, env) && FixedFormat(actions, false)
    ensures t.proc.phase.Saving? && t.proc.phase.step == SaveIndex && Stale(t.disk) && t.disk.config
  {
    var storing, stored := StoreRun(s, e, env);
    actions, t := ReopenGoesStale(stored, env);
    actions := RunOn(s, storing, stored, actions, t, env);
  }

  /** However the process starts, as long as it writes JSON lines next to a binary image. */
  lemma {:induction false} StartedGoesStale(s: State, e: Entry, env: Env) returns (actions: seq<Action>, t: State)
    requires AtRisk(s, env) && s.disk.config && CanStore(env, e)
    requires || (s.proc.phase.Saving? && s.proc.phase.step == SaveConfig)
             || (s.proc.phase.Idle? && s.proc.ops == 0)
             || (s.proc.phase == WritingHeader(0, false) && s.proc.compress && s.proc.ops == 0)
    ensures Run(s, actions, t, env) && FixedFormat(actions, false)
    ensures t.proc.phase.Saving? && t.proc.phase.step == SaveIndex && Stale(t.disk) && t.disk.config
  {
    if s.proc.phase.Saving? {
      actions, t := SavingGoesStale(s, env);
    } else if s.proc.phase.Idle? {
      actions, t := IdleGoesStale(s, e, env);
    } else {
      var header, idle := HeaderRun(s, env);
      actions, t := IdleGoesStale(idle, e, env);
      actions := RunOn(s, header, idle, actions, t, env);
    }
  }

  // ---- The condition ----

  /** Every running state that a safe continuation with one format reaches recovers, but for the two known windows. */
  ghost predicate KeepsLoading(s: State, binary: bool, env: Env) {
    forall actions, t ::
      Run(s, actions, t, env) && FixedFormat(actions, binary) && !t.proc.phase.Down? && !InWindow(t) && !InPayload(t) ==>
        Recover(t.disk, env).Ok?
  }

  lemma {:induction false} HarmlessSwitch(before: seq<Action>, s: State, a: Action, env: Env)
    requires Laws(env.codec) && Run(INITIAL, before, s, env) && Enabled(s, a, env) && Safe(s, a, env) && a.Start?
    requires a.binary || s.disk.bin.None?
    ensures KeepsLoading(Step(s, a, env), a.binary, env)
  {
    RunPreserves(INITIAL, before, s, env);
    OpeningSwitches(s, a, env);
    StepPreserves(s, a, env);
    forall actions, t | Run(Step(s, a, env), actions, t, env) && FixedFormat(actions, a.binary)
                        && !t.proc.phase.Down? && !InWindow(t) && !InPayload(t)
      ensures Recover(t.disk, env).Ok?
    {
      RunKeepsSwitched(Step(s, a, env), actions, t, a.binary, env);
      RunStep(s, a, actions, t, env);
      var whole := RunOn(INITIAL, before, s, [a] + actions, t, env);
      EveryRefusalIsExplained(whole, t, env);
    }
  }

  lemma {:induction false} SwitchedAtRisk(s: State, a: Action, env: Env)
    requires Laws(env.codec) && Inv(s, env) && Enabled(s, a, env) && Safe(s, a, env) && a.Start?
    requires !a.binary && s.disk.bin.Some?
    ensures var t := Step(s, a, env);
            && AtRisk(t, env) && t.disk.config
            && (|| (t.proc.phase.Saving? && t.proc.phase.step == SaveConfig)
                || (t.proc.phase.Idle? && t.proc.ops == 0)
                || (t.proc.phase == WritingHeader(0, false) && t.proc.compress && t.proc.ops == 0))
  {
    StepPreserves(s, a, env);
    assert Step(s, a, env).disk == s.disk;
  }

  lemma {:induction false} HarmfulSwitch(s: State, a: Action, e: Entry, env: Env)
    requires Laws(env.codec) && Inv(s, env) && Enabled(s, a, env) && Safe(s, a, env) && a.Start? && CanStore(env, e)
    requires !a.binary && s.disk.bin.Some?
    ensures !KeepsLoading(Step(s, a, env), a.binary, env)
  {
    SwitchedAtRisk(s, a, env);
    var actions, t := StartedGoesStale(Step(s, a, env), e, env);
    StuckRefuses(t, env);
    assert !InWindow(t) && !InPayload(t);
  }

  /**
   * Whatever safe run led to a start, its snapshot format is harmless, over every safe continuation that
   * keeps it, exactly when snapshots are binary or no binary image is there: turning binary snapshots on
   * never makes the collection unreadable, and turning them off does unless none was ever saved.
   */
  lemma {:induction false} SwitchIsHarmlessIff(before: seq<Action>, s: State, a: Action, e: Entry, env: Env)
    requires Laws(env.codec) && Run(INITIAL, before, s, env) && Enabled(s, a, env) && Safe(s, a, env) && a.Start?
    requires CanStore(env, e)
    ensures KeepsLoading(Step(s, a, env), a.binary, env) <==> a.binary || s.disk.bin.None?
  {
    if a.binary || s.disk.bin.None? {
      HarmlessSwitch(before, s, a, env);
    } else {
      RunPreserves(INITIAL, before, s, env);
      HarmfulSwitch(s, a, e, env);
    }
  }
}
