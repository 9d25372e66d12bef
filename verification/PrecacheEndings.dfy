/**
 * How a job's run ends, over every interleaving: what a cancel stops and how soon,
 * what each final state says, and that a worker left to itself comes to an end.
 */
module PrecacheEndings {
  import opened Precache
  import opened PrecacheThreads

  /** No step of the run is an admitted start. */
  predicate NoStart(j: Job, steps: seq<Step>)
    decreases |steps|
  {
    steps != [] ==> !Admits(j, steps[0]) && NoStart(Exec(j, steps[0]), steps[1..])
  }

  /** Own steps of the job's current worker. */
  function OwnSteps(j: Job, steps: seq<Step>): nat
    decreases |steps|
  {
    if steps == [] then 0 else (if WorksFor(steps[0], j.current) then 1 else 0) + OwnSteps(Exec(j, steps[0]), steps[1..])
  }

  lemma Reachable(front: seq<Step>)
    ensures Inv(Run(NEW_JOB, front))
  {
    hide *;
    NewJobKeeps();
    RunKeeps(NEW_JOB, front);
  }

  // ---- A cancel arrives ----

  lemma {:induction false} CheckedStays(j: Job, caller: int, steps: seq<Step>)
    requires caller in j.cancelling && CancelSet(caller) !in steps
    ensures caller in Run(j, steps).cancelling
    decreases |steps|
  {
    hide Recorded;
    if steps != [] {
      CheckedStays(Exec(j, steps[0]), caller, steps[1..]);
    }
  }

  /** A cancel that found a run, whatever happens between its check and its setting of the event, sets it. */
  lemma CancelArrives(j: Job, caller: int, between: seq<Step>)
    requires IsRunning(j) && CancelSet(caller) !in between
    ensures Exec(Run(Exec(j, CancelCheck(caller)), between), CancelSet(caller)).cancel
  {
    CheckedStays(Exec(j, CancelCheck(caller)), caller, between);
    hide Run;
  }

  /** A start is refused while a worker runs, without games, and without credentials; else it begins anew and forgets every cancel. */
  lemma StartExact(j: Job, games: seq<int>, allowed: bool, starts: bool)
    requires Inv(j)
    ensures var after := Exec(j, StartJob(games, allowed, starts));
            if IsRunning(j) || games == [] || !allowed then after == j
            else
              && !after.cancel && after.progress.state == Running
              && after.progress.games == games && after.progress.total == |games| && after.progress.outcomes == []
              && (IsRunning(after) <==> starts) && after.current != j.current
  {
    hide Accounts, NoAuth;
  }

  /** Step `k` let a cancel through that has not set the event since. */
  ghost predicate Awaited(steps: seq<Step>, caller: int, k: int) {
    && 0 <= k < |steps| && steps[k] == CancelCheck(caller) && IsRunning(Before(steps, k))
    && forall m :: k < m < |steps| ==> steps[m] != CancelSet(caller)
  }

  /** Step `k` set the event, and no start has cleared it since. */
  ghost predicate SetBy(steps: seq<Step>, k: int) {
    && 0 <= k < |steps| && steps[k].CancelSet? && steps[k].caller in Before(steps, k).cancelling
    && forall m :: k < m < |steps| ==> !Starts(steps, m)
  }

  lemma AwaitedSnoc(front: seq<Step>, step: Step, caller: int)
    ensures (exists k :: Awaited(front + [step], caller, k)) <==>
            || ((exists k :: Awaited(front, caller, k)) && step != CancelSet(caller))
            || (step == CancelCheck(caller) && IsRunning(Run(NEW_JOB, front)))
  {
    hide Run, IsRunning;
    var steps := front + [step];
    assert steps[..|front|] == front && steps[|front|] == step;
    forall k | 0 <= k < |front|
      ensures Awaited(steps, caller, k) <==> Awaited(front, caller, k) && step != CancelSet(caller)
    {
      assert steps[..k] == front[..k];
      assert forall m :: k < m < |front| ==> steps[m] == front[m];
      if Awaited(steps, caller, k) {
        assert steps[|front|] != CancelSet(caller);
        assert forall m :: k < m < |front| ==> steps[m] != CancelSet(caller);
      }
    }
    if step == CancelCheck(caller) && IsRunning(Run(NEW_JOB, front)) {
      assert Awaited(steps, caller, |front|);
    }
    if k :| Awaited(front, caller, k) && step != CancelSet(caller) {
      assert Awaited(steps, caller, k);
    }
  }

  lemma SetBySnoc(front: seq<Step>, step: Step)
    ensures (exists k :: SetBy(front + [step], k)) <==>
            || ((exists k :: SetBy(front, k)) && !Admits(Run(NEW_JOB, front), step))
            || (step.CancelSet? && step.caller in Run(NEW_JOB, front).cancelling)
  {
    hide Run, Admits, Starts, Before;
    var steps := front + [step];
    StartsSnoc(front, step);
    BeforeSnoc(front, step);
    assert steps[|front|] == step;
    forall k | 0 <= k < |front|
      ensures SetBy(steps, k) <==> SetBy(front, k) && !Admits(Run(NEW_JOB, front), step)
    {
      assert steps[k] == front[k];
      if SetBy(steps, k) {
        assert !Starts(steps, |front|);
        assert forall m :: k < m < |front| ==> !Starts(steps, m);
      }
    }
    if step.CancelSet? && step.caller in Run(NEW_JOB, front).cancelling {
      assert SetBy(steps, |front|);
    }
    if k :| SetBy(front, k) && !Admits(Run(NEW_JOB, front), step) {
      assert SetBy(steps, k);
    }
  }

  lemma BeforeSnoc(front: seq<Step>, step: Step)
    ensures Before(front + [step], |front|) == Run(NEW_JOB, front)
    ensures forall k :: 0 <= k < |front| ==> Before(front + [step], k) == Before(front, k)
  {
    hide Run;
    assert (front + [step])[..|front|] == front;
    forall k | 0 <= k < |front|
      ensures Before(front + [step], k) == Before(front, k)
    {
      assert (front + [step])[..k] == front[..k];
    }
  }

  /**
   * In every state of every interleaving: a caller is about to set the event exactly
   * when its check found a run and it has not set it since; and the event is set
   * exactly when such a caller set it and no start has cleared it since.
   */
  lemma {:induction false} CancelExact(steps: seq<Step>, caller: int)
    ensures caller in Run(NEW_JOB, steps).cancelling <==> exists k :: Awaited(steps, caller, k)
    ensures Run(NEW_JOB, steps).cancel <==> exists k :: SetBy(steps, k)
    decreases |steps|
  {
    if steps == [] {
      EmptyRun(NEW_JOB);
    } else {
      var front, step := steps[..|steps| - 1], steps[|steps| - 1];
      assert steps == front + [step];
      RunSnoc(NEW_JOB, front, step);
      AwaitedSnoc(front, step, caller);
      SetBySnoc(front, step);
      CancelExact(front, caller);
      hide Run, Awaited, SetBy, WorkStep;
      CancelFlags(Run(NEW_JOB, front), step, caller);
    }
  }

  lemma CancelFlags(j: Job, step: Step, caller: int)
    ensures caller in Exec(j, step).cancelling <==>
            (caller in j.cancelling && step != CancelSet(caller)) || (step == CancelCheck(caller) && IsRunning(j))
    ensures Exec(j, step).cancel <==>
            (j.cancel && !Admits(j, step)) || (step.CancelSet? && step.caller in j.cancelling)
  {
    hide Recorded;
  }

  // ---- What a cancel stops ----

  /** A game in hand may still be recorded. */
  function InHand(j: Job): nat {
    if IsRunning(j) && (j.live[j.current].pc.Preparing? || j.live[j.current].pc.Recording?) then 1 else 0
  }

  lemma CancelStep(j: Job, step: Step)
    requires Inv(j) && j.cancel && !Admits(j, step)
    ensures var after := Exec(j, step);
            && after.cancel && after.current == j.current
            && |after.progress.outcomes| + InHand(after) <= |j.progress.outcomes| + InHand(j)
  {
    hide Accounts, NoAuth;
  }

  lemma {:induction false} CancelBounds(j: Job, steps: seq<Step>)
    requires Inv(j) && j.cancel && NoStart(j, steps)
    ensures Run(j, steps).cancel
    ensures |Run(j, steps).progress.outcomes| <= |j.progress.outcomes| + InHand(j)
    decreases |steps|
  {
    hide Exec, Inv, Admits, InHand;
    if steps != [] {
      ExecKeeps(j, steps[0]);
      CancelStep(j, steps[0]);
      CancelBounds(Exec(j, steps[0]), steps[1..]);
    }
  }

  /**
   * Once the event is set and until the next admitted start, at most the game in
   * hand is still recorded; a cancel set at a boundary allows none.
   */
  lemma CancelHeard(front: seq<Step>, steps: seq<Step>)
    requires Run(NEW_JOB, front).cancel && NoStart(Run(NEW_JOB, front), steps)
    ensures var j := Run(NEW_JOB, front);
            |Run(j, steps).progress.outcomes| <= |j.progress.outcomes| + InHand(j) <= |j.progress.outcomes| + 1
  {
    hide Run, Inv, NoStart;
    Reachable(front);
    CancelBounds(Run(NEW_JOB, front), steps);
  }

  predicate LastAuth(p: Progress) {
    p.outcomes != [] && p.outcomes[|p.outcomes| - 1].auth
  }

  /** No step of the run raises. */
  predicate NothingRaises(steps: seq<Step>) {
    forall step :: step in steps && step.Work? ==> !step.raises
  }

  /** How a cancelled job `j` may stand once its worker is gone; `calm` when nothing raised on the way. */
  predicate EndsIn(j: Job, e: Job, calm: bool) {
    var end, had, has := e.progress.state, j.progress.outcomes, e.progress.outcomes;
    if !IsRunning(j) then end == j.progress.state && has == had
    else
      match j.live[j.current].pc
      case Begin => has == had && (end == CancelledState || (!calm && end == Running))
      case Preparing(_) =>
        || (!calm && has == had && end == FailedState)
        || (had <= has && |has| == |had| + 1 && end == if LastAuth(e.progress) then FailedState else CancelledState)
      case Recording(_, o) => has == had + [o] && end == if o.auth then FailedState else CancelledState
      case Judging(_) => has == had && end == if LastAuth(j.progress) then FailedState else CancelledState
      case Finishing(state) => has == had && end == state
      case Leaving => has == had && end == j.progress.state
      case _ => has == had && end == CancelledState
  }

  lemma EndsStep(j: Job, step: Step, e: Job, calm: bool)
    requires Inv(j) && j.cancel && !Admits(j, step) && (calm && step.Work? ==> !step.raises)
    requires EndsIn(Exec(j, step), e, calm)
    ensures EndsIn(j, e, calm)
  {
    hide Accounts, NoAuth;
  }

  lemma {:induction false} CancelledRunEnds(j: Job, steps: seq<Step>, calm: bool)
    requires Inv(j) && j.cancel && NoStart(j, steps) && !IsRunning(Run(j, steps)) && (calm ==> NothingRaises(steps))
    ensures EndsIn(j, Run(j, steps), calm)
    decreases |steps|
  {
    hide Exec, Inv, Admits;
    if steps != [] {
      assert steps[0] in steps;
      ExecKeeps(j, steps[0]);
      CancelStep(j, steps[0]);
      CancelledRunEnds(Exec(j, steps[0]), steps[1..], calm);
      hide EndsIn;
      EndsStep(j, steps[0], Run(j, steps), calm);
    }
  }

  /**
   * Where a cancel leads, by where the worker stood: from a boundary to "cancelled"
   * with nothing more recorded; with a game in hand to "cancelled" with that game's
   * outcome, or to "failed" when it raised or was an auth failure; a finish already
   * chosen stands.
   */
  lemma CancelEnds(front: seq<Step>, steps: seq<Step>)
    requires var j := Run(NEW_JOB, front); j.cancel && NoStart(j, steps) && !IsRunning(Run(j, steps))
    ensures EndsIn(Run(NEW_JOB, front), Run(Run(NEW_JOB, front), steps), NothingRaises(steps))
  {
    hide Run, Inv, NoStart, EndsIn, NothingRaises;
    Reachable(front);
    CancelledRunEnds(Run(NEW_JOB, front), steps, NothingRaises(steps));
  }

  // ---- A game that raises ----

  /** The job is over as `failed`, or its worker is about to say so. */
  predicate Failing(j: Job, outcomes: seq<Outcome>) {
    && j.progress.outcomes == outcomes
    && if IsRunning(j) && j.live[j.current].pc != Leaving then j.live[j.current].pc == Finishing(FailedState)
       else j.progress.state == FailedState
  }

  lemma FailingStep(j: Job, step: Step, outcomes: seq<Outcome>)
    requires Inv(j) && Failing(j, outcomes) && !Admits(j, step)
    ensures Failing(Exec(j, step), outcomes)
  {
    hide Accounts, NoAuth;
  }

  lemma {:induction false} FailingRun(j: Job, steps: seq<Step>, outcomes: seq<Outcome>)
    requires Inv(j) && Failing(j, outcomes) && NoStart(j, steps)
    ensures Failing(Run(j, steps), outcomes)
    decreases |steps|
  {
    hide Exec, Inv, Failing, Admits;
    if steps != [] {
      ExecKeeps(j, steps[0]);
      FailingStep(j, steps[0], outcomes);
      FailingRun(Exec(j, steps[0]), steps[1..], outcomes);
    }
  }

  /** A game that raises while it is prepared is not recorded, and the run ends as "failed". */
  lemma RaiseEnds(front: seq<Step>, outcome: Outcome, steps: seq<Step>)
    requires var j := Run(NEW_JOB, front); IsRunning(j) && j.live[j.current].pc.Preparing?
    requires var j := Run(NEW_JOB, front); NoStart(Exec(j, Work(j.current, true, outcome)), steps)
    ensures var j := Run(NEW_JOB, front);
            Failing(Run(Exec(j, Work(j.current, true, outcome)), steps), j.progress.outcomes)
  {
    hide Run, Inv, NoStart;
    Reachable(front);
    var j := Run(NEW_JOB, front);
    ExecKeeps(j, Work(j.current, true, outcome));
    FailingRun(Exec(j, Work(j.current, true, outcome)), steps, j.progress.outcomes);
  }

  // ---- The worker comes to an end ----

  /** The own steps a worker has left, at most; few once it is cancelled. */
  function StepsLeft(j: Job): int {
    if !IsRunning(j) then 0
    else
      var n, w := |j.progress.games|, j.live[j.current];
      match w.pc
      case Begin => if j.cancel then 5 else 5 * n + 5
      case Top(i) => if j.cancel then 4 else 5 * (n - i) + 4
      case Preparing(i) => if j.cancel then 8 else 5 * (n - i) + 3
      case Recording(i, _) => if j.cancel then 7 else 5 * (n - i) + 2
      case Judging(i) => if j.cancel then 6 else 5 * (n - i) + 1
      case Pacing(i) => if j.cancel then 5 else 5 * (n - i)
      case AtEnd => 3
      case Finishing(_) => 2
      case Leaving => 1
  }

  lemma StepsBound(j: Job)
    requires Inv(j)
    ensures 0 <= StepsLeft(j) <= if j.cancel then 8 else 5 * |j.progress.games| + 5
    ensures StepsLeft(j) == 0 <==> !IsRunning(j)
  {
    hide Accounts, NoAuth;
    AccountsShape(j.progress);
  }

  lemma StepsFall(j: Job, step: Step)
    requires Inv(j) && !Admits(j, step)
    ensures Exec(j, step).current == j.current && (j.cancel ==> Exec(j, step).cancel)
    ensures StepsLeft(Exec(j, step)) <= StepsLeft(j)
    ensures IsRunning(j) && WorksFor(step, j.current) ==> StepsLeft(Exec(j, step)) < StepsLeft(j)
  {
    hide Accounts, NoAuth, Recorded;
    match step
    case Work(worker, raises, outcome) =>
      OnlyWorker(j, worker);
      if worker in j.live {
        OwnStepFalls(j, raises, outcome);
      }
    case CancelSet(caller) =>
      CancelShortens(j);
    case _ =>
  }

  lemma OnlyWorker(j: Job, worker: int)
    requires Inv(j)
    ensures worker in j.live ==> worker == j.current
  {
  }

  lemma CancelShortens(j: Job)
    requires Inv(j)
    ensures forall callers: set<int> :: StepsLeft(j.(cancel := true, cancelling := callers)) <= StepsLeft(j)
  {
    AccountsShape(j.progress);
    hide Accounts, NoAuth;
  }

  lemma OwnStepFalls(j: Job, raises: bool, outcome: Outcome)
    requires Inv(j) && IsRunning(j)
    ensures var after := WorkStep(j, j.current, raises, outcome);
            && after.current == j.current && after.cancel == j.cancel
            && StepsLeft(after) < StepsLeft(j)
  {
    AccountsShape(j.progress);
    hide Accounts, NoAuth, Recorded;
    RecordedGames(j.progress);
  }

  lemma RecordedGames(p: Progress)
    ensures forall game, o :: Recorded(p, game, o).games == p.games
  {
  }

  lemma {:induction false} StepsRunOut(j: Job, steps: seq<Step>)
    requires Inv(j) && NoStart(j, steps)
    ensures IsRunning(Run(j, steps)) ==> OwnSteps(j, steps) < StepsLeft(j)
    ensures StepsLeft(j) <= if j.cancel then 8 else 5 * |j.progress.games| + 5
    decreases |steps|
  {
    hide Exec, Inv, Admits, StepsLeft, WorksFor, IsRunning;
    StepsBound(j);
    if steps == [] {
      NoStep(j);
    } else {
      ExecKeeps(j, steps[0]);
      StepsFall(j, steps[0]);
      StepsBound(Exec(j, steps[0]));
      StepsRunOut(Exec(j, steps[0]), steps[1..]);
      if !IsRunning(j) {
        StaysGone(j, steps);
      }
    }
  }

  lemma NoStep(j: Job)
    ensures Run(j, []) == j
  {
  }

  lemma {:induction false} StaysGone(j: Job, steps: seq<Step>)
    requires Inv(j) && NoStart(j, steps) && !IsRunning(j)
    ensures !IsRunning(Run(j, steps))
    decreases |steps|
  {
    hide Inv, Admits, WorkStep;
    if steps != [] {
      ExecKeeps(j, steps[0]);
      GoneStep(j, steps[0]);
      hide Exec;
      StaysGone(Exec(j, steps[0]), steps[1..]);
    }
  }

  lemma GoneStep(j: Job, step: Step)
    requires Inv(j) && !Admits(j, step) && !IsRunning(j)
    ensures !IsRunning(Exec(j, step))
  {
    hide Accounts, NoAuth;
  }

  /** Within eight of its own steps a cancelled worker is gone, and within five a game and five more any worker is. */
  lemma WorkerEnds(front: seq<Step>, steps: seq<Step>)
    requires NoStart(Run(NEW_JOB, front), steps)
    ensures var j := Run(NEW_JOB, front);
            OwnSteps(j, steps) >= (if j.cancel then 8 else 5 * |j.progress.games| + 5) ==> !IsRunning(Run(j, steps))
  {
    hide Run, Inv, NoStart, OwnSteps, StepsLeft, IsRunning;
    Reachable(front);
    StepsRunOut(Run(NEW_JOB, front), steps);
  }

  // ---- What a final state says ----

  /** What the job's state, or the one its worker has chosen, says about the run. */
  ghost predicate Says(j: Job, state: JobState, calm: bool) {
    && (state == CancelledState ==> j.cancel && !LastAuth(j.progress))
    && (state == DoneState ==> j.progress.processed == j.progress.total && !LastAuth(j.progress))
    && (calm && state == FailedState ==> LastAuth(j.progress))
  }

  ghost predicate Ended(j: Job, calm: bool) {
    && Says(j, j.progress.state, calm)
    && (j.progress.state == Idle ==> j.progress.outcomes == [])
    && (IsRunning(j) && j.live[j.current].pc.Finishing? ==> Says(j, j.live[j.current].pc.state, calm))
    && (LastAuth(j.progress) && j.progress.state == Running ==>
          IsRunning(j) && (j.live[j.current].pc.Judging? || j.live[j.current].pc == Finishing(FailedState)))
  }

  lemma EndedStep(j: Job, step: Step, calm: bool)
    requires Inv(j) && Ended(j, calm) && (calm && step.Work? ==> !step.raises)
    ensures Ended(Exec(j, step), calm)
  {
    hide Accounts, NoAuth, WorkStep;
    match step
    case Work(worker, raises, outcome) =>
      OnlyWorker(j, worker);
      if worker in j.live {
        WorkEnded(j, raises, outcome, calm);
      }
    case _ =>
  }

  lemma WorkEnded(j: Job, raises: bool, outcome: Outcome, calm: bool)
    requires Inv(j) && IsRunning(j) && Ended(j, calm) && (calm ==> !raises)
    ensures Ended(WorkStep(j, j.current, raises, outcome), calm)
  {
    hide Accounts;
    AccountsShape(j.progress);
  }

  lemma {:induction false} RunEnded(j: Job, steps: seq<Step>, calm: bool)
    requires Inv(j) && Ended(j, calm) && (calm ==> NothingRaises(steps))
    ensures Ended(Run(j, steps), calm)
    decreases |steps|
  {
    hide Exec, Inv, Ended;
    if steps != [] {
      assert steps[0] in steps;
      ExecKeeps(j, steps[0]);
      EndedStep(j, steps[0], calm);
      RunEnded(Exec(j, steps[0]), steps[1..], calm);
    }
  }

  /**
   * In every state of every interleaving: "cancelled" only with the event set, "done"
   * only with every game processed, neither with an auth failure at the end; an auth
   * failure at the end means "failed" once the worker is gone; and where nothing
   * raised, "failed" means an auth failure.
   */
  lemma FinalStates(steps: seq<Step>)
    ensures var j := Run(NEW_JOB, steps);
            && (j.progress.state == CancelledState ==> j.cancel && !LastAuth(j.progress))
            && (j.progress.state == DoneState ==> j.progress.processed == j.progress.total && !LastAuth(j.progress))
            && (LastAuth(j.progress) && !IsRunning(j) ==> j.progress.state == FailedState)
            && (NothingRaises(steps) && j.progress.state == FailedState ==> LastAuth(j.progress))
  {
    hide Run, Inv, NothingRaises;
    Reachable([]);
    NewJobKeeps();
    RunEnded(NEW_JOB, steps, NothingRaises(steps));
  }
}
