/** One trackable unit of migration work (migrate/step.go): whether it needs
    processing at all, whether and when it started, whether it finished, the
    error it failed with, and the log lines it emitted. */
module Steps {
  import opened Basics
  import opened Decimal

  const StatusDisabled: string := "-"
  const StatusWaiting: string := "(waiting)"
  const StatusDone: string := "done"
  const StatusError: string := "error"

  /** `running(%ds)` with the whole seconds elapsed since the start. */
  function RunningStatus(seconds: int): string {
    "running(" + IntToString(seconds) + "s)"
  }

  /** Which kind of line a step wrote to its logger; the text itself is not modelled. */
  datatype LogEntry = LogStarted | LogFinished | LogError(error: Error)

  /** `startTime` is in whole seconds; `hasLogger` says whether the step's logger is non-nil. */
  datatype Step = Step(
    needProcess: bool,
    hasLogger: bool,
    started: bool,
    startTime: int,
    done: bool,
    err: Option<Error>,
    log: seq<LogEntry>)

  /** A step as the build phase creates it: enabled or not, nothing happened yet. */
  function NewStep(needProcess: bool, hasLogger: bool): Step {
    Step(needProcess, hasLogger, false, 0, false, None, [])
  }

  /** The log after an attempted emission: every `log*` helper returns early
      for a disabled step and writes only through a non-nil logger. */
  function Emit(s: Step, entry: LogEntry): (log: seq<LogEntry>)
    ensures log == s.log || log == s.log + [entry]
    ensures log != s.log <==> s.needProcess && s.hasLogger
  {
    if s.needProcess && s.hasLogger then s.log + [entry] else s.log
  }

  /** `start` records the start time and marks the step started, even when it is disabled. */
  function Start(s: Step, now: int): (r: Step)
    ensures r.started && r.startTime == now
    ensures r.needProcess == s.needProcess && r.hasLogger == s.hasLogger
    ensures r.done == s.done && r.err == s.err
    ensures r.log == s.log + (if s.needProcess && s.hasLogger then [LogStarted] else [])
  {
    var begun := s.(startTime := now, started := true);
    begun.(log := Emit(begun, LogStarted))
  }

  /** `finalize` marks the step done the first time and does nothing afterwards. */
  function Finalize(s: Step): (r: Step)
    ensures r.done
    ensures r.needProcess == s.needProcess && r.hasLogger == s.hasLogger
    ensures r.started == s.started && r.startTime == s.startTime && r.err == s.err
    ensures s.done ==> r == s
    ensures !s.done ==> r.log == s.log + (if s.needProcess && s.hasLogger then [LogFinished] else [])
  {
    if !s.done then
      var finished := s.(done := true);
      finished.(log := Emit(finished, LogFinished))
    else s
  }

  /** `setError` stores the error, replacing any earlier one. */
  function SetError(s: Step, e: Error): (r: Step)
    ensures r.err == Some(e)
    ensures r.needProcess == s.needProcess && r.hasLogger == s.hasLogger
    ensures r.started == s.started && r.startTime == s.startTime && r.done == s.done
    ensures r.log == s.log + (if s.needProcess && s.hasLogger then [LogError(e)] else [])
  {
    var failed := s.(err := Some(e));
    failed.(log := Emit(failed, LogError(e)))
  }

  /** `Status()` at time `now`: an error wins over everything, a disabled step
      shows `-`, and otherwise `done` overrides `running(Ns)`, which overrides
      `(waiting)`. */
  function Status(s: Step, now: int): (r: string)
    ensures s.err.Some? ==> r == StatusError
    ensures s.err.None? && !s.needProcess ==> r == StatusDisabled
    ensures s.err.None? && s.needProcess && !s.started && !s.done ==> r == StatusWaiting
    ensures s.err.None? && s.needProcess && s.started && !s.done ==> r == RunningStatus(now - s.startTime)
    ensures s.err.None? && s.needProcess && s.done ==> r == StatusDone
  {
    if s.err.Some? then StatusError
    else if !s.needProcess then StatusDisabled
    else
      var status := if s.started then RunningStatus(now - s.startTime) else StatusWaiting;
      if s.done then StatusDone else status
  }

  // ---------------------------------------------------------------------------
  // The five-state machine a step is meant to follow: Disabled until an
  // error is set, or Waiting, then Running, then Done or Failed.

  datatype Phase = Disabled | Waiting | Running(seconds: int) | Done | Failed

  function Label(p: Phase): string {
    match p
    case Disabled => StatusDisabled
    case Waiting => StatusWaiting
    case Running(n) => RunningStatus(n)
    case Done => StatusDone
    case Failed => StatusError
  }

  /** The phase a step is in at time `now`. */
  function PhaseOf(s: Step, now: int): Phase {
    if s.err.Some? then Failed
    else if !s.needProcess then Disabled
    else if s.done then Done
    else if s.started then Running(now - s.startTime)
    else Waiting
  }

  datatype StepOp = OpStart(at: int) | OpFinalize | OpSetError(error: Error)

  function ApplyOp(s: Step, op: StepOp): Step {
    match op
    case OpStart(t) => Start(s, t)
    case OpFinalize => Finalize(s)
    case OpSetError(e) => SetError(s, e)
  }

  function ApplyOps(s: Step, ops: seq<StepOp>): Step
    decreases |ops|
  {
    if |ops| == 0 then s else ApplyOps(ApplyOp(s, ops[0]), ops[1..])
  }

  /** The abstract transition relation, observed at time `now`. */
  function NextPhase(p: Phase, op: StepOp, now: int): Phase {
    match op
    case OpSetError(_) => Failed
    case OpStart(t) =>
      (match p
       case Waiting => Running(now - t)
       case Running(_) => Running(now - t)
       case _ => p)
    case OpFinalize =>
      (match p
       case Waiting => Done
       case Running(_) => Done
       case _ => p)
  }

  function Rank(p: Phase): nat {
    match p
    case Disabled => 0
    case Waiting => 1
    case Running(_) => 2
    case Done => 3
    case Failed => 4
  }

  /** The rendered status is exactly the label of the step's phase. */
  lemma StatusIsPhaseLabel(s: Step, now: int)
    ensures Status(s, now) == Label(PhaseOf(s, now))
  {
  }

  /** Distinct phases render as distinct strings, so a status string tells
      the phase (and the elapsed seconds) apart unambiguously. */
  lemma LabelInjective(p: Phase, q: Phase)
    ensures Label(p) == Label(q) ==> p == q
  {
    if Label(p) == Label(q) {
      if p.Running? && q.Running? {
        var a := IntToString(p.seconds);
        var b := IntToString(q.seconds);
        assert Label(p) == "running(" + a + "s)";
        assert a == Label(p)[8..|Label(p)| - 2];
        assert b == Label(q)[8..|Label(q)| - 2];
        IntToStringInjective(p.seconds, q.seconds);
      }
    }
  }

  /** Every operation on a step moves its phase exactly as the abstract
      machine says: the concrete step refines the five-state machine. */
  lemma PhaseSimulation(s: Step, op: StepOp, now: int)
    ensures PhaseOf(ApplyOp(s, op), now) == NextPhase(PhaseOf(s, now), op, now)
  {
  }

  /** Phases never move backwards; a disabled step leaves `Disabled` only
      through an error; `Done` and `Failed` are never left except `Done`
      towards `Failed`. */
  lemma PhaseMonotone(s: Step, op: StepOp, now: int)
    ensures Rank(PhaseOf(ApplyOp(s, op), now)) >= Rank(PhaseOf(s, now))
    ensures PhaseOf(s, now) == Disabled && !op.OpSetError? ==> PhaseOf(ApplyOp(s, op), now) == Disabled
    ensures PhaseOf(s, now) == Failed ==> PhaseOf(ApplyOp(s, op), now) == Failed
    ensures PhaseOf(s, now) == Done ==> PhaseOf(ApplyOp(s, op), now) in {Done, Failed}
  {
    PhaseSimulation(s, op, now);
  }

  /** An error, once set, stays: whatever happens afterwards the step reports `error`. */
  lemma {:induction false} ErrorIsPermanent(s: Step, ops: seq<StepOp>, now: int)
    requires s.err.Some?
    ensures ApplyOps(s, ops).err.Some?
    ensures Status(ApplyOps(s, ops), now) == StatusError
    decreases |ops|
  {
    if |ops| > 0 {
      ErrorIsPermanent(ApplyOp(s, ops[0]), ops[1..], now);
    }
  }

  /** Once finished without error, a step reports `done` until an error is set. */
  lemma {:induction false} DoneIsPermanent(s: Step, ops: seq<StepOp>, now: int)
    requires s.done && s.err.None? && s.needProcess
    requires forall i :: 0 <= i < |ops| ==> !ops[i].OpSetError?
    ensures Status(ApplyOps(s, ops), now) == StatusDone
    decreases |ops|
  {
    if |ops| > 0 {
      DoneIsPermanent(ApplyOp(s, ops[0]), ops[1..], now);
    }
  }

  /** A disabled step shows `-` through any sequence of starts and finalizes. */
  lemma {:induction false} DisabledIsPermanent(s: Step, ops: seq<StepOp>, now: int)
    requires !s.needProcess && s.err.None?
    requires forall i :: 0 <= i < |ops| ==> !ops[i].OpSetError?
    ensures Status(ApplyOps(s, ops), now) == StatusDisabled
    ensures ApplyOps(s, ops).log == s.log
    decreases |ops|
  {
    if |ops| > 0 {
      DisabledIsPermanent(ApplyOp(s, ops[0]), ops[1..], now);
    }
  }

  /** `b` is a later state of `a` as far as enablement goes: `needProcess`
      never changes, and a step that was disabled and error-free is still
      error-free and has logged nothing more. */
  predicate EnablementKept(a: Step, b: Step) {
    && b.needProcess == a.needProcess
    && (!a.needProcess && a.err.None? ==> b.err.None? && b.log == a.log)
  }

  /** Starts and finalizes keep enablement, and so does an error set on an
      enabled step; only an error set on a disabled step would break it. */
  lemma ApplyOpKeepsEnablement(s: Step, op: StepOp)
    requires !op.OpSetError? || s.needProcess
    ensures EnablementKept(s, ApplyOp(s, op))
  {
  }

  /** A step that kept its enablement from a disabled, error-free state still shows `-`. */
  lemma EnablementKeptShowsDisabled(a: Step, b: Step, now: int)
    requires EnablementKept(a, b) && !a.needProcess && a.err.None?
    ensures Status(b, now) == StatusDisabled
  {
  }

  /** `finalize` is idempotent: a second call changes nothing and logs nothing,
      and the first logs at most one line. */
  lemma FinalizeIdempotent(s: Step)
    ensures Finalize(Finalize(s)) == Finalize(s)
    ensures |Finalize(s).log| <= |s.log| + 1
  {
  }

  /** A later `setError` overwrites an earlier one. */
  lemma SetErrorOverwrites(s: Step, e1: Error, e2: Error)
    ensures SetError(SetError(s, e1), e2).err == Some(e2)
  {
  }

  /** While running, the reported seconds never decrease as time passes. */
  lemma RunningSecondsMonotone(s: Step, now1: int, now2: int)
    requires now1 <= now2
    requires PhaseOf(s, now1).Running?
    ensures PhaseOf(s, now2).Running? && PhaseOf(s, now1).seconds <= PhaseOf(s, now2).seconds
  {
  }
}
