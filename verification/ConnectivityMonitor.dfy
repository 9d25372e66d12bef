/**
 * The monitor's loop against `stop()` and `kick()` from other threads. Testing
 * the stop event, beginning a sweep, waiting and clearing the kick are separate
 * steps, and `stop()` sets its two events in two steps.
 */
module ConnectivityMonitor {

  datatype Pc = Testing | Passed | Sweeping | Waiting | Clearing | Exited

  /** The two events and the loop's position. */
  datatype Monitor = Monitor(pc: Pc, stop: bool, kick: bool, stopping: set<int>)

  /**
   * What an observer counts: whether some `stop()` has returned, the sweeps begun
   * and the waits that ran out after that; whether a kick is owed a sweep, the
   * loop's steps and the waits that ran out since; and over the whole run the
   * sweeps begun, the kicks set and the waits that ran out.
   */
  datatype Log = Log(
    stopped: bool, sweepsAfter: int, timeoutsAfter: int, owed: bool, stepsOwed: int, timeoutsOwed: int,
    sweeps: int, kicks: int, timeouts: int)

  datatype State = State(m: Monitor, log: Log)

  /** `Loop(timeout)` is the loop's next step; a wait on an unset kick ends only by its timeout. */
  datatype Step = Kick | StopBegins(caller: int) | StopReturns(caller: int) | Loop(timeout: bool)

  const START: State := State(Monitor(Testing, false, false, {}), Log(false, 0, 0, false, 0, 0, 0, 0, 0))

  predicate Blocked(m: Monitor, timeout: bool) {
    m.pc == Exited || (m.pc == Waiting && !m.kick && !timeout)
  }

  function LoopStep(m: Monitor): Monitor {
    match m.pc
    case Testing => m.(pc := if m.stop then Exited else Passed)
    case Passed => m.(pc := Sweeping)
    case Sweeping => m.(pc := Waiting)
    case Waiting => m.(pc := Clearing)
    case Clearing => m.(pc := Testing, kick := false)
    case Exited => m
  }

  function Exec(s: State, step: Step): State {
    var State(m, log) := s;
    match step
    case Kick => State(m.(kick := true), log.(owed := true, stepsOwed := if log.owed then log.stepsOwed else 0, kicks := log.kicks + 1))
    case StopBegins(caller) => State(m.(stop := true, stopping := m.stopping + {caller}), log)
    case StopReturns(caller) =>
      if caller in m.stopping
      then State(m.(kick := true, stopping := m.stopping - {caller}), log.(stopped := true, kicks := log.kicks + 1))
      else s
    case Loop(timeout) =>
      if Blocked(m, timeout) then s
      else
        var begins, runsOut := m.pc == Passed, m.pc == Waiting && !m.kick;
        State(LoopStep(m), Log(
          log.stopped,
          log.sweepsAfter + (if log.stopped && begins then 1 else 0),
          log.timeoutsAfter + (if log.stopped && runsOut then 1 else 0),
          log.owed && !begins,
          if log.owed && !begins then log.stepsOwed + 1 else 0,
          log.timeoutsOwed + (if log.owed && runsOut then 1 else 0),
          log.sweeps + (if begins then 1 else 0), log.kicks, log.timeouts + (if runsOut then 1 else 0)))
  }

  function Run(s: State, steps: seq<Step>): State
    decreases |steps|
  {
    if steps == [] then s else Run(Exec(s, steps[0]), steps[1..])
  }

  /** Loop steps between the end of a sweep's beginning and a position. */
  function Rank(pc: Pc): int {
    match pc
    case Sweeping => 0
    case Waiting => 1
    case Clearing => 2
    case Testing => 3
    case Passed => 4
    case Exited => 4
  }

  /** A signal that must not be lost keeps the kick set wherever the loop could still wait for it. */
  ghost predicate Inv(s: State) {
    var State(m, log) := s;
    && (m.stopping != {} ==> m.stop)
    && (log.stopped ==> m.stop && (m.pc in {Passed, Sweeping, Waiting} ==> m.kick))
    && log.timeoutsAfter == 0
    && 0 <= log.sweepsAfter && log.sweepsAfter + (if log.stopped && m.pc == Passed then 1 else 0) <= 1
    && (!log.stopped ==> log.sweepsAfter == 0)
    && (log.owed && m.pc in {Sweeping, Waiting} ==> m.kick)
    && log.timeoutsOwed == 0
    && (log.owed ==> 0 <= log.stepsOwed <= Rank(m.pc))
    && (m.pc == Exited ==> m.stop)
    && log.sweeps + Due(m) <= 1 + log.kicks + log.timeouts
  }

  /** The sweeps a position and a set kick still stand for. */
  function Due(m: Monitor): int {
    match m.pc
    case Exited => 0
    case Clearing => 1
    case Testing => 1 + (if m.kick then 1 else 0)
    case Passed => 1 + (if m.kick then 1 else 0)
    case _ => if m.kick then 1 else 0
  }

  lemma ExecKeeps(s: State, step: Step)
    requires Inv(s)
    ensures Inv(Exec(s, step))
  {
  }

  lemma {:induction false} RunKeeps(s: State, steps: seq<Step>)
    requires Inv(s)
    ensures Inv(Run(s, steps))
    decreases |steps|
  {
    hide Exec, Inv;
    if steps != [] {
      ExecKeeps(s, steps[0]);
      RunKeeps(Exec(s, steps[0]), steps[1..]);
    }
  }

  /** After `stop()` has returned the loop begins at most one more sweep and never waits out its interval. */
  lemma StopIsHeard(steps: seq<Step>)
    ensures var log := Run(START, steps).log;
            log.sweepsAfter <= 1 && log.timeoutsAfter == 0
  {
    hide Exec, Run;
    RunKeeps(START, steps);
  }

  /** No interval runs out between a kick and the next sweep, and the loop is never more than four steps into the way there. */
  lemma KickIsHeard(steps: seq<Step>)
    ensures var s := Run(START, steps);
            s.log.timeoutsOwed == 0 && (s.log.owed ==> s.log.stepsOwed <= 4)
  {
    hide Exec, Run;
    RunKeeps(START, steps);
  }

  /** The loop can always take the next step towards an owed sweep, unless it was stopped. */
  lemma OwedNeverBlocks(steps: seq<Step>)
    ensures var s := Run(START, steps);
            s.log.owed && !s.m.stop ==> !Blocked(s.m, false)
  {
    hide Exec, Run;
    RunKeeps(START, steps);
  }

  /** A stopped loop exits within five of its own steps, without waiting for its interval. */
  lemma StopExits(steps: seq<Step>)
    requires Run(START, steps).log.stopped
    ensures var m := Run(START, steps).m;
            LoopStep(LoopStep(LoopStep(LoopStep(LoopStep(m))))).pc == Exited
            && (m.pc != Exited ==> !Blocked(m, false))
  {
    hide Exec, Run;
    RunKeeps(START, steps);
  }

  /** What may wake the loop: the kicks, the stops that return, and the intervals that elapse. */
  function Causes(steps: seq<Step>): nat {
    if steps == [] then 0
    else (if steps[0] == Loop(false) || steps[0].StopBegins? then 0 else 1) + Causes(steps[1..])
  }

  lemma StepCaused(s: State, step: Step)
    ensures var after := Exec(s, step).log;
            after.kicks + after.timeouts
            <= s.log.kicks + s.log.timeouts + (if step == Loop(false) || step.StopBegins? then 0 else 1)
  {
  }

  lemma {:induction false} RunCaused(s: State, steps: seq<Step>)
    ensures Run(s, steps).log.kicks + Run(s, steps).log.timeouts <= s.log.kicks + s.log.timeouts + Causes(steps)
    decreases |steps|
  {
    hide Exec;
    if steps != [] {
      StepCaused(s, steps[0]);
      RunCaused(Exec(s, steps[0]), steps[1..]);
    }
  }

  /** The loop never spins: beside the first, every sweep has a kick, a stop or an elapsed interval to itself. */
  lemma SweepsHaveCauses(steps: seq<Step>)
    ensures Run(START, steps).log.sweeps <= 1 + Causes(steps)
  {
    hide Exec, Run, Causes;
    RunKeeps(START, steps);
    RunCaused(START, steps);
  }

  /** It sweeps before it waits for anything, and never parks: five of its own steps begin one sweep, wherever it stands. */
  lemma NeverParks(steps: seq<Step>)
    requires !Run(START, steps).m.stop
    ensures Run(START, [Loop(false), Loop(false)]).log.sweeps == 1
    ensures var s := Run(START, steps);
            Exec(Exec(Exec(Exec(Exec(s, Loop(true)), Loop(true)), Loop(true)), Loop(true)), Loop(true)).log.sweeps
            == s.log.sweeps + 1
  {
    var two := [Loop(false), Loop(false)];
    assert two[1..] == [Loop(false)];
    assert Run(START, two) == Run(Exec(START, Loop(false)), [Loop(false)]);
    assert Run(Exec(START, Loop(false)), [Loop(false)]) == Exec(Exec(START, Loop(false)), Loop(false));
    hide Run;
    RunKeeps(START, steps);
  }
}
