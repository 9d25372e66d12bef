/**
 * One job object under every interleaving of start, cancel and its worker.
 * `start` holds the lock from its check to the thread's start; `cancel` holds
 * none, so its check and its setting of the event are separate steps; the worker
 * takes the lock to record an outcome and to finish. The thread's start comes after
 * the new progress is in place, and may itself fail.
 */
module PrecacheThreads {
  import opened Precache

  datatype JobState = Idle | Running | DoneState | CancelledState | FailedState

  /** The progress object; `games` is the list the run was started with. */
  datatype Progress = Progress(
    state: JobState, games: seq<int>, total: int, prepared: seq<int>, outcomes: seq<Outcome>,
    processed: int, cached: int, skipped: int, missing: int, unsupported: int, failed: int)

  datatype Pc =
    | Begin
    | Top(i: nat)
    | Preparing(i: nat)
    | Recording(i: nat, outcome: Outcome)
    | Judging(i: nat)
    | Pacing(i: nat)
    | AtEnd
    | Finishing(state: JobState)
    | Leaving

  datatype Worker = Worker(games: seq<int>, pc: Pc)

  /** `current` names the thread last put in place, started or not; `live` are the workers still running. */
  datatype Job = Job(
    current: int, live: map<int, Worker>, cancel: bool, cancelling: set<int>, progress: Progress)

  datatype Step =
    | StartJob(games: seq<int>, allowed: bool, starts: bool)
    | CancelCheck(caller: int)
    | CancelSet(caller: int)
    | Work(worker: int, raises: bool, outcome: Outcome)

  function NewProgress(games: seq<int>): Progress {
    Progress(Running, games, |games|, [], [], 0, 0, 0, 0, 0, 0)
  }

  const NEW_JOB: Job :=
    Job(0, map[], false, {}, Progress(Idle, [], 0, [], [], 0, 0, 0, 0, 0, 0))

  predicate IsRunning(j: Job) {
    j.current in j.live
  }

  function Recorded(p: Progress, game: int, o: Outcome): Progress {
    var q := p.(processed := p.processed + 1, outcomes := p.outcomes + [o], prepared := p.prepared + [game]);
    match o.status
    case CachedNow => q.(cached := p.cached + 1)
    case Skipped => q.(skipped := p.skipped + 1)
    case Missing => q.(missing := p.missing + 1)
    case Unsupported => q.(unsupported := p.unsupported + 1)
    case Failed => q.(failed := p.failed + 1)
  }

  function At(j: Job, worker: int, pc: Pc): Job
    requires worker in j.live
  {
    j.(live := j.live[worker := j.live[worker].(pc := pc)])
  }

  /** The worker's next step; `raises` and `outcome` are what preparing a game may do. */
  function WorkStep(j: Job, worker: int, raises: bool, outcome: Outcome): Job
    requires worker in j.live
  {
    var w := j.live[worker];
    match w.pc
    case Begin => if raises then j.(live := j.live - {worker}) else At(j, worker, Top(0))
    case Top(i) =>
      if i >= |w.games| then At(j, worker, AtEnd)
      else At(j, worker, if j.cancel then Finishing(CancelledState) else Preparing(i))
    case Preparing(i) => At(j, worker, if raises then Finishing(FailedState) else Recording(i, outcome))
    case Recording(i, o) =>
      if i >= |w.games| then j
      else At(j.(progress := Recorded(j.progress, w.games[i], o)), worker, Judging(i))
    case Judging(i) =>
      var os := j.progress.outcomes;
      At(j, worker,
         if os != [] && os[|os| - 1].auth then Finishing(FailedState)
         else if i + 1 < |w.games| then Pacing(i) else Top(i + 1))
    case Pacing(i) => At(j, worker, Top(i + 1))
    case AtEnd => At(j, worker, Finishing(if j.cancel then CancelledState else DoneState))
    case Finishing(state) => At(j.(progress := j.progress.(state := state)), worker, Leaving)
    case Leaving => j.(live := j.live - {worker})
  }

  /** A start that gets past its checks. */
  predicate Admits(j: Job, step: Step) {
    step.StartJob? && !IsRunning(j) && step.games != [] && step.allowed
  }

  function Exec(j: Job, step: Step): Job {
    match step
    case StartJob(games, allowed, starts) =>
      if !Admits(j, step) then j
      else
        j.(current := j.current + 1, live := if starts then j.live[j.current + 1 := Worker(games, Begin)] else j.live,
           cancel := false, progress := NewProgress(games))
    case CancelCheck(caller) => if IsRunning(j) then j.(cancelling := j.cancelling + {caller}) else j
    case CancelSet(caller) =>
      if caller in j.cancelling then j.(cancel := true, cancelling := j.cancelling - {caller}) else j
    case Work(worker, raises, outcome) => if worker in j.live then WorkStep(j, worker, raises, outcome) else j
  }

  function Run(j: Job, steps: seq<Step>): Job
    decreases |steps|
  {
    if steps == [] then j else Run(Exec(j, steps[0]), steps[1..])
  }

  // ---- What every state keeps ----

  /** Counters are counts, and outcomes are those of a prefix of the games, in order. */
  ghost predicate Accounts(p: Progress) {
    && p.processed == |p.outcomes| == |p.prepared| <= p.total == |p.games|
    && p.prepared <= p.games
    && p.processed == p.cached + p.skipped + p.missing + p.unsupported + p.failed
    && p.cached == Count(p.outcomes, CachedNow) && p.skipped == Count(p.outcomes, Skipped)
    && p.missing == Count(p.outcomes, Missing) && p.unsupported == Count(p.outcomes, Unsupported)
    && p.failed == Count(p.outcomes, Failed)
  }

  /** No outcome among the first `n` is an auth failure. */
  ghost predicate NoAuth(p: Progress, n: int) {
    forall k :: 0 <= k < n && k < |p.outcomes| ==> !p.outcomes[k].auth
  }

  /** Where the worker stands fits what has been recorded. */
  ghost predicate Fits(p: Progress, w: Worker) {
    && w.games == p.games && w.games != []
    && (w.pc != Leaving ==> p.state == Running)
    && match w.pc
       case Begin => p.processed == 0
       case Top(i) => p.processed == i <= |w.games| && NoAuth(p, i)
       case Preparing(i) => p.processed == i < |w.games| && NoAuth(p, i)
       case Recording(i, _) => p.processed == i < |w.games| && NoAuth(p, i)
       case Judging(i) => p.processed == i + 1 <= |w.games|
       case Pacing(i) => p.processed == i + 1 <= |w.games| && NoAuth(p, i + 1)
       case AtEnd => p.processed == |w.games| && NoAuth(p, |w.games|)
       case Finishing(state) => state != Running && state != Idle && (state == DoneState ==> p.processed == p.total)
       case Leaving => p.state != Running
  }

  ghost predicate Inv(j: Job) {
    && Accounts(j.progress)
    && NoAuth(j.progress, |j.progress.outcomes| - 1)
    && (forall t :: t in j.live ==> t == j.current && Fits(j.progress, j.live[t]))
    && (j.progress.state == DoneState ==> j.progress.processed == j.progress.total)
    && (j.progress.state == Running && !IsRunning(j) ==> j.progress.outcomes == [])
  }

  lemma RecordedAccounts(p: Progress, game: int, o: Outcome)
    requires Accounts(p) && p.processed < p.total && game == p.games[p.processed]
    ensures Accounts(Recorded(p, game, o))
  {
    assert (p.outcomes + [o])[..|p.outcomes|] == p.outcomes;
    assert p.prepared + [game] <= p.games;
  }

  lemma WorkKeeps(j: Job, worker: int, raises: bool, outcome: Outcome)
    requires Inv(j) && worker in j.live
    ensures Inv(WorkStep(j, worker, raises, outcome))
  {
    hide Count, Accounts;
    var w := j.live[worker];
    AccountsShape(j.progress);
    if w.pc.Recording? {
      RecordKeeps(j, worker, raises, outcome);
    } else if w.pc.Finishing? {
      FinishKeeps(j, worker, raises, outcome);
    }
  }

  lemma RecordKeeps(j: Job, worker: int, raises: bool, outcome: Outcome)
    requires Inv(j) && worker in j.live && j.live[worker].pc.Recording?
    ensures Inv(WorkStep(j, worker, raises, outcome))
  {
    hide Count, Accounts;
    var w := j.live[worker];
    AccountsShape(j.progress);
    RecordedAccounts(j.progress, w.games[w.pc.i], w.pc.outcome);
  }

  lemma FinishKeeps(j: Job, worker: int, raises: bool, outcome: Outcome)
    requires Inv(j) && worker in j.live && j.live[worker].pc.Finishing?
    ensures Inv(WorkStep(j, worker, raises, outcome))
  {
    hide Count, Accounts;
    AccountsShape(j.progress);
    StateFree(j.progress, j.live[worker].pc.state);
  }

  lemma AccountsShape(p: Progress)
    requires Accounts(p)
    ensures p.processed == |p.outcomes| == |p.prepared| <= p.total == |p.games|
  {
  }

  lemma StateFree(p: Progress, state: JobState)
    requires Accounts(p)
    ensures Accounts(p.(state := state))
  {
  }

  lemma ExecKeeps(j: Job, step: Step)
    requires Inv(j)
    ensures Inv(Exec(j, step))
  {
    hide Count, WorkStep, Accounts;
    match step
    case Work(worker, raises, outcome) =>
      if worker in j.live {
        WorkKeeps(j, worker, raises, outcome);
      }
    case StartJob(games, _, _) =>
      FreshAccounts(games);
    case _ =>
  }

  lemma FreshAccounts(games: seq<int>)
    ensures Accounts(NewProgress(games))
  {
  }

  lemma NewJobKeeps()
    ensures Inv(NEW_JOB)
  {
    hide Count, Accounts;
    FreshAccounts([]);
    StateFree(NewProgress([]), Idle);
  }

  lemma {:induction false} RunKeeps(j: Job, steps: seq<Step>)
    requires Inv(j)
    ensures Inv(Run(j, steps))
    decreases |steps|
  {
    hide Exec, Inv;
    if steps != [] {
      ExecKeeps(j, steps[0]);
      RunKeeps(Exec(j, steps[0]), steps[1..]);
    }
  }

  /** What the invariant says to an observer. */
  lemma Observed(j: Job)
    requires Inv(j)
    ensures forall a, b :: a in j.live && b in j.live ==> a == b
    ensures Accounts(j.progress)
    ensures j.progress.state == DoneState ==> j.progress.prepared == j.progress.games
    ensures forall k :: 0 <= k < |j.progress.outcomes| - 1 ==> !j.progress.outcomes[k].auth
  {
    hide Count, Fits;
    var p := j.progress;
    assert p.games[..|p.games|] == p.games;
  }

  /**
   * In every state of every interleaving: at most one live worker, counters that
   * add up, outcomes of a prefix of the games, "done" only when all are processed,
   * and nothing recorded after an auth failure.
   */
  lemma JobAccounting(steps: seq<Step>)
    ensures var j := Run(NEW_JOB, steps);
            var p := j.progress;
            && (forall a, b :: a in j.live && b in j.live ==> a == b)
            && Accounts(p)
            && (p.state == DoneState ==> p.prepared == p.games)
            && (forall k :: 0 <= k < |p.outcomes| - 1 ==> !p.outcomes[k].auth)
  {
    hide *;
    NewJobKeeps();
    RunKeeps(NEW_JOB, steps);
    Observed(Run(NEW_JOB, steps));
  }

  // ---- Running without a worker ----

  /** The job before step `k` of a run. */
  function Before(steps: seq<Step>, k: int): Job
    requires 0 <= k <= |steps|
  {
    Run(NEW_JOB, steps[..k])
  }

  predicate Starts(steps: seq<Step>, k: int)
    requires 0 <= k < |steps|
  {
    Admits(Before(steps, k), steps[k])
  }

  /** Step `k` is the run's last admitted start. */
  ghost predicate LastStart(steps: seq<Step>, k: int) {
    && 0 <= k < |steps| && Starts(steps, k)
    && forall m :: k < m < |steps| ==> !Starts(steps, m)
  }

  /** Step `m` is the first one taken for worker `id` after step `k`. */
  ghost predicate FirstWork(steps: seq<Step>, k: int, id: int, m: int) {
    && 0 <= k < m < |steps| && WorksFor(steps[m], id)
    && forall n :: k < n < m ==> !WorksFor(steps[n], id)
  }

  predicate WorksFor(step: Step, id: int) {
    step.Work? && step.worker == id
  }

  /** Some step after `k` was taken for worker `id`. */
  ghost predicate Touched(steps: seq<Step>, k: int, id: int) {
    exists m :: 0 <= k < m < |steps| && WorksFor(steps[m], id)
  }

  /** The first of them raised. */
  ghost predicate FirstRaised(steps: seq<Step>, k: int, id: int) {
    exists m :: FirstWork(steps, k, id, m) && steps[m].raises
  }

  /** The start at step `k` gave no worker that reached its loop: its thread did not start, or its first step raised. */
  ghost predicate Stillborn(steps: seq<Step>, k: int)
    requires 0 <= k < |steps|
  {
    steps[k].StartJob? && (!steps[k].starts || FirstRaised(steps, k, Before(steps, k).current + 1))
  }

  predicate StuckRunning(j: Job) {
    j.progress.state == Running && !IsRunning(j)
  }

  predicate Unborn(j: Job) {
    IsRunning(j) && j.live[j.current].pc == Begin
  }

  /** How a job stands whose last start did or did not start its thread, whose worker was stepped, and whose first step raised. */
  predicate Stands(j: Job, starts: bool, touched: bool, raised: bool) {
    (StuckRunning(j) <==> !starts || raised) && (Unborn(j) <==> starts && !touched)
  }

  lemma StandsNext(j: Job, step: Step, starts: bool, touched: bool, raised: bool)
    requires Inv(j) && Stands(j, starts, touched, raised) && !Admits(j, step)
    ensures var works := WorksFor(step, j.current);
            && Exec(j, step).current == j.current
            && Stands(Exec(j, step), starts, touched || works, raised || (!touched && works && step.raises))
  {
    hide Accounts, NoAuth;
  }

  /** How the job stands after a run whose last admitted start is step `k`. */
  ghost predicate StandsAfter(steps: seq<Step>, k: int)
    requires 0 <= k < |steps|
  {
    var j := Run(NEW_JOB, steps);
    && steps[k].StartJob?
    && j.current == Before(steps, k).current + 1
    && Stands(j, steps[k].starts, Touched(steps, k, j.current), FirstRaised(steps, k, j.current))
  }

  lemma StartStands(front: seq<Step>, step: Step)
    requires Inv(Run(NEW_JOB, front)) && Admits(Run(NEW_JOB, front), step)
    ensures StandsAfter(front + [step], |front|)
  {
    hide Accounts, NoAuth, Run;
    RunSnoc(NEW_JOB, front, step);
    assert (front + [step])[..|front|] == front;
  }

  lemma OtherStands(front: seq<Step>, step: Step, k: int)
    requires 0 <= k < |front| && Inv(Run(NEW_JOB, front)) && !Admits(Run(NEW_JOB, front), step)
    requires StandsAfter(front, k)
    ensures StandsAfter(front + [step], k)
  {
    hide Run, Exec, Inv, Stands, Admits;
    var steps, j := front + [step], Run(NEW_JOB, front);
    RunSnoc(NEW_JOB, front, step);
    assert steps[..k] == front[..k];
    StandsNext(j, step, steps[k].starts, Touched(front, k, j.current), FirstRaised(front, k, j.current));
    WorkSnoc(front, step, k, j.current);
  }

  lemma WorkSnoc(front: seq<Step>, step: Step, k: int, id: int)
    requires 0 <= k < |front|
    ensures Touched(front + [step], k, id) <==> Touched(front, k, id) || WorksFor(step, id)
    ensures FirstRaised(front + [step], k, id)
            <==> FirstRaised(front, k, id) || (!Touched(front, k, id) && WorksFor(step, id) && step.raises)
  {
    hide WorksFor;
    var steps := front + [step];
    assert forall m :: 0 <= m < |front| ==> steps[m] == front[m];
    assert steps[|front|] == step;
    forall m | k < m < |front|
      ensures FirstWork(steps, k, id, m) <==> FirstWork(front, k, id, m)
    {
    }
    if !Touched(front, k, id) && WorksFor(step, id) {
      assert FirstWork(steps, k, id, |front|);
    }
  }

  lemma StartsSnoc(front: seq<Step>, step: Step)
    ensures Starts(front + [step], |front|) <==> Admits(Run(NEW_JOB, front), step)
    ensures forall k :: 0 <= k < |front| ==> (Starts(front + [step], k) <==> Starts(front, k))
    ensures forall k :: LastStart(front + [step], k) ==>
              if Admits(Run(NEW_JOB, front), step) then k == |front| else LastStart(front, k)
  {
    hide Run, Admits;
    var steps := front + [step];
    assert steps[..|front|] == front && steps[|front|] == step;
    forall k | 0 <= k < |front|
      ensures Starts(steps, k) <==> Starts(front, k)
    {
      assert steps[..k] == front[..k] && steps[k] == front[k];
    }
  }

  lemma IdleStays(j: Job, step: Step)
    requires Inv(j) && j.progress.state == Idle && !Admits(j, step)
    ensures Exec(j, step).progress.state == Idle
  {
    hide Accounts, NoAuth;
  }

  /** The job after any run, by its last admitted start. */
  lemma {:induction false} RunStands(steps: seq<Step>)
    ensures (forall k :: 0 <= k < |steps| ==> !Starts(steps, k)) ==> Run(NEW_JOB, steps).progress.state == Idle
    ensures forall k :: LastStart(steps, k) ==> StandsAfter(steps, k)
    decreases |steps|
  {
    hide Run, Exec, Inv, Admits, StandsAfter, Starts;
    if steps == [] {
      EmptyRun(NEW_JOB);
    } else {
      var front, step := steps[..|steps| - 1], steps[|steps| - 1];
      assert steps == front + [step];
      NewJobKeeps();
      RunKeeps(NEW_JOB, front);
      RunStands(front);
      RunSnoc(NEW_JOB, front, step);
      StartsSnoc(front, step);
      hide LastStart;
      if Admits(Run(NEW_JOB, front), step) {
        StartStands(front, step);
      } else {
        if Run(NEW_JOB, front).progress.state == Idle {
          IdleStays(Run(NEW_JOB, front), step);
        }
        forall k | LastStart(front, k)
          ensures StandsAfter(steps, k)
        {
          LastInside(front, k);
          OtherStands(front, step, k);
        }
      }
    }
  }

  lemma LastInside(steps: seq<Step>, k: int)
    requires LastStart(steps, k)
    ensures 0 <= k < |steps|
  {
  }

  lemma EmptyRun(j: Job)
    ensures Run(j, []) == j
  {
  }

  lemma {:induction false} RunSnoc(j: Job, steps: seq<Step>, step: Step)
    ensures Run(j, steps + [step]) == Exec(Run(j, steps), step)
    decreases |steps|
  {
    hide Exec;
    if steps == [] {
      assert [] + [step] == [step];
      assert Run(Exec(j, step), []) == Exec(j, step);
    } else {
      assert (steps + [step])[1..] == steps[1..] + [step];
      RunSnoc(Exec(j, steps[0]), steps[1..], step);
    }
  }

  /** A run has a last admitted start, unless it has none. */
  lemma {:induction false} SomeLastStart(steps: seq<Step>, k: int) returns (last: int)
    requires 0 <= k < |steps| && Starts(steps, k)
    ensures LastStart(steps, last)
    decreases |steps| - k
  {
    hide Starts;
    if m :| k < m < |steps| && Starts(steps, m) {
      last := SomeLastStart(steps, m);
    } else {
      last := k;
    }
  }

  /**
   * After every run, "running" without a worker is exactly the case where the last
   * admitted start did not get its thread started, or the first step of the worker
   * it started raised.
   */
  lemma StuckRunningExact(steps: seq<Step>)
    ensures StuckRunning(Run(NEW_JOB, steps)) <==> exists k :: LastStart(steps, k) && Stillborn(steps, k)
  {
    hide Run, Exec, Starts, FirstRaised, Touched, IsRunning, Before;
    RunStands(steps);
    if k :| 0 <= k < |steps| && Starts(steps, k) {
      var last := SomeLastStart(steps, k);
      assert StandsAfter(steps, last);
      forall other | LastStart(steps, other)
        ensures other == last
      {
      }
    }
  }

  /** Both happen: the thread cannot be started, or the user-agent lookup, outside the worker's handler, fails. */
  lemma StuckRunningHappens(games: seq<int>, o: Outcome)
    requires games != []
    ensures StuckRunning(Run(NEW_JOB, [StartJob(games, true, false)]))
    ensures StuckRunning(Run(NEW_JOB, [StartJob(games, true, true), Work(1, true, o)]))
  {
    var j1 := Exec(NEW_JOB, StartJob(games, true, true));
    var j2 := Exec(j1, Work(1, true, o));
    assert [StartJob(games, true, true), Work(1, true, o)][1..] == [Work(1, true, o)];
    assert Run(j1, [Work(1, true, o)]) == j2;
    assert Run(Exec(NEW_JOB, StartJob(games, true, false)), []) == Exec(NEW_JOB, StartJob(games, true, false));
  }
}
