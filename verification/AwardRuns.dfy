/**
 * Whole runs of the award protocol: which requests are still to be inserted, what
 * becomes of the queue, and what a flush is granted for the queue it was taken from.
 */
module AwardRuns {
  import opened Basics
  import opened LoginTable
  import opened AwardAccounts

  lemma {:induction false} RunSnoc(s: State, steps: seq<Step>, step: Step)
    ensures Run(s, steps + [step]) == Exec(Run(s, steps), step)
    decreases |steps|
  {
    hide Exec;
    if steps == [] {
      assert [] + [step] == [step];
      assert Run(Exec(s, step), []) == Exec(s, step);
    } else {
      assert (steps + [step])[1..] == steps[1..] + [step];
      RunSnoc(Exec(s, steps[0]), steps[1..], step);
    }
  }

  // ---- Who is refused ----

  /** A named award waits in the queue for somebody. */
  ghost predicate WaitsFor(rows: seq<Award>, a: Award) {
    a in rows && a.status == Pending && a.user != ""
  }

  /** A request is refused exactly when it names a user, some award waits for a named owner, and none waits for that user. */
  lemma RefusedExact(rows: seq<Award>, seen: string)
    ensures !Passes(rows, seen) <==>
            && seen != ""
            && (exists a :: WaitsFor(rows, a))
            && (forall a :: WaitsFor(rows, a) ==> !SameName(a.user, seen))
  {
    hide Waiting, Lower, SameName;
    assert |Lower(seen)| == |seen|;
    forall a: Award
      ensures Lower(a.user) == Lower(seen) <==> SameName(a.user, seen)
    {
      LowerExact(a.user, seen);
    }
    if a :| WaitsFor(rows, a) {
      assert Lower(a.user) in Owners(rows);
    }
    if owner :| owner in Owners(rows) {
      var a :| a in Waiting(rows) && a.user != "" && Lower(a.user) == owner;
      assert WaitsFor(rows, a);
    }
    if Lower(seen) in Owners(rows) {
      var a :| a in Waiting(rows) && a.user != "" && Lower(a.user) == Lower(seen);
      assert WaitsFor(rows, a);
    }
    if a :| WaitsFor(rows, a) && SameName(a.user, seen) {
      assert Lower(a.user) in Owners(rows);
    }
  }

  // ---- Which requests are under way ----

  ghost function Before(s: State, steps: seq<Step>, k: int): State
    requires 0 <= k <= |steps|
  {
    Run(s, steps[..k])
  }

  predicate InsertOf(step: Step, id: int) {
    step.DoInsert? && step.id == id
  }

  /** Step `k` checked request `r` under a free id, the queue let it through then, and it has not been inserted since. */
  ghost predicate Open(s: State, steps: seq<Step>, id: int, r: Checked, k: int) {
    && 0 <= k < |steps| && steps[k] == DoCheck(id, r)
    && id !in Before(s, steps, k).requests && Passes(Before(s, steps, k).awards, r.seen)
    && forall j :: k < j < |steps| ==> !InsertOf(steps[j], id)
  }

  lemma OpenSnoc(s: State, front: seq<Step>, step: Step, id: int, r: Checked)
    ensures (exists k :: Open(s, front + [step], id, r, k)) <==>
            || ((exists k :: Open(s, front, id, r, k)) && !InsertOf(step, id))
            || (step == DoCheck(id, r) && id !in Run(s, front).requests && Passes(Run(s, front).awards, r.seen))
  {
    hide Run, Passes, InsertOf;
    var steps := front + [step];
    assert steps[..|front|] == front && steps[|front|] == step;
    forall k | 0 <= k < |front|
      ensures Open(s, steps, id, r, k) <==> Open(s, front, id, r, k) && !InsertOf(step, id)
    {
      assert steps[..k] == front[..k];
      assert forall j :: k < j < |front| ==> steps[j] == front[j];
      if Open(s, steps, id, r, k) {
        assert !InsertOf(steps[|front|], id);
        assert forall j :: k < j < |front| ==> !InsertOf(steps[j], id);
      }
    }
    if step == DoCheck(id, r) && id !in Run(s, front).requests && Passes(Run(s, front).awards, r.seen) {
      assert Open(s, steps, id, r, |front|);
    }
    if k :| Open(s, front, id, r, k) && !InsertOf(step, id) {
      assert Open(s, steps, id, r, k);
    }
  }

  /** In every state of every run, the requests under way are exactly those that passed their check and await their insert. */
  lemma {:induction false} RequestsExact(s: State, steps: seq<Step>, id: int, r: Checked)
    requires s.requests == map[]
    ensures var requests := Run(s, steps).requests;
            id in requests && requests[id] == r <==> exists k :: Open(s, steps, id, r, k)
    decreases |steps|
  {
    if steps != [] {
      var front, step := steps[..|steps| - 1], steps[|steps| - 1];
      assert steps == front + [step];
      RunSnoc(s, front, step);
      OpenSnoc(s, front, step, id, r);
      RequestsExact(s, front, id, r);
      hide Passes, Run, Open;
    }
  }

  /** An award in one piece is a check and its insert with nothing in between, and nothing at all when it is refused. */
  lemma AwardIsCheckThenInsert(s: State, id: int, r: Checked, stored: bool)
    requires id !in s.requests
    ensures var checked := Exec(s, DoCheck(id, r));
            && (Passes(s.awards, r.seen) ==> Exec(s, DoAward(r, stored)) == Exec(checked, DoInsert(id, stored)))
            && (!Passes(s.awards, r.seen) ==> checked == s && Exec(s, DoAward(r, stored)) == s)
  {
    hide Passes, Resolve, Upsert, Waiting;
    assert s.requests[id := r] - {id} == s.requests;
  }

  // ---- What becomes of the queue ----

  /** The waiting award a step takes out of the queue by giving it another status. */
  function Settled(s: State, step: Step): multiset<Award> {
    if step.DoMark? && 0 <= step.row < |s.awards| && step.status != Pending && s.awards[step.row].status == Pending
    then multiset{s.awards[step.row]} else multiset{}
  }

  ghost function Queued(s: State, step: Step): multiset<Award> {
    var i := Inserted(s, step);
    if i.Some? then multiset{Award(i.value, Pending)} else multiset{}
  }

  ghost function AllSettled(s: State, steps: seq<Step>): multiset<Award>
    decreases |steps|
  {
    if steps == [] then multiset{} else Settled(s, steps[0]) + AllSettled(Exec(s, steps[0]), steps[1..])
  }

  ghost function AllQueued(s: State, steps: seq<Step>): multiset<Award>
    decreases |steps|
  {
    if steps == [] then multiset{} else Queued(s, steps[0]) + AllQueued(Exec(s, steps[0]), steps[1..])
  }

  lemma {:induction false} WaitingOfMark(rows: seq<Award>, row: nat, status: Status)
    requires row < |rows| && status != Pending
    ensures multiset(Waiting(rows[row := rows[row].(status := status)]))
            + (if rows[row].status == Pending then multiset{rows[row]} else multiset{})
            == multiset(Waiting(rows))
  {
    var after := rows[row := rows[row].(status := status)];
    if row == 0 {
      assert after[1..] == rows[1..];
    } else {
      assert after[1..] == rows[1..][row - 1 := rows[1..][row - 1].(status := status)];
      WaitingOfMark(rows[1..], row - 1, status);
    }
  }

  lemma {:induction false} AllWaiting(rows: seq<Award>)
    requires forall a :: a in rows ==> a.status == Pending
    ensures Waiting(rows) == rows
  {
    if rows != [] {
      assert rows[0] in rows;
      AllWaiting(rows[1..]);
    }
  }

  lemma StepConserves(s: State, step: Step)
    ensures multiset(Waiting(Exec(s, step).awards)) + Settled(s, step) == multiset(Waiting(s.awards)) + Queued(s, step)
  {
    hide Waiting, Passes, Resolve, Upsert;
    var i := Inserted(s, step);
    if i.Some? {
      WaitingSnoc(s.awards, Award(i.value, Pending));
      assert Exec(s, step).awards == s.awards + [Award(i.value, Pending)];
    } else if step.DoMark? && 0 <= step.row < |s.awards| && step.status != Pending {
      WaitingOfMark(s.awards, step.row, step.status);
    } else if step.DoSweep? {
      AllWaiting(Waiting(s.awards));
    }
  }

  /** No waiting award is lost or made up: over every run what waits and what was marked is what waited and what was inserted. */
  lemma {:induction false} QueueConserved(s: State, steps: seq<Step>)
    ensures multiset(Waiting(Run(s, steps).awards)) + AllSettled(s, steps)
            == multiset(Waiting(s.awards)) + AllQueued(s, steps)
    decreases |steps|
  {
    hide Exec, Waiting, Settled, Queued;
    if steps != [] {
      var next := Exec(s, steps[0]);
      StepConserves(s, steps[0]);
      QueueConserved(next, steps[1..]);
      Chained(multiset(Waiting(s.awards)), multiset(Waiting(next.awards)), multiset(Waiting(Run(next, steps[1..]).awards)),
              Settled(s, steps[0]), AllSettled(next, steps[1..]), Queued(s, steps[0]), AllQueued(next, steps[1..]));
    }
  }

  lemma Chained<T>(
      first: multiset<T>, next: multiset<T>, last: multiset<T>,
      out: multiset<T>, outs: multiset<T>, more: multiset<T>, mores: multiset<T>)
    requires next + out == first + more && last + outs == next + mores
    ensures last + (out + outs) == first + (more + mores)
  {
    assert last + (out + outs) == (last + outs) + out == (next + mores) + out == (next + out) + mores;
  }

  // ---- What a flush is granted ----

  /** The sign-ins among the steps of a run, in order. */
  function SignIns(steps: seq<Step>): seq<SignIn> {
    if steps == [] then []
    else (if steps[0].DoSignIn? then [steps[0].signIn] else []) + SignIns(steps[1..])
  }

  lemma StepHistory(s: State, step: Step)
    ensures Exec(s, step).history == s.history + (if step.DoSignIn? then [step.signIn] else [])
  {
    hide Passes, Resolve, Upsert, Waiting;
  }

  lemma Appended<T>(a: seq<T>, b: seq<T>, c: seq<T>)
    ensures (a + b) + c == a + (b + c)
  {
  }

  lemma {:induction false} RunHistory(s: State, steps: seq<Step>)
    ensures Run(s, steps).history == s.history + SignIns(steps)
    decreases |steps|
  {
    hide Exec;
    if steps != [] {
      StepHistory(s, steps[0]);
      RunHistory(Exec(s, steps[0]), steps[1..]);
      Appended(s.history, if steps[0].DoSignIn? then [steps[0].signIn] else [], SignIns(steps[1..]));
    }
  }

  /** A snapshot keeps its rows until it is looked up. */
  lemma {:induction false} SnapshotStays(s: State, flush: int, f: Flush, steps: seq<Step>)
    requires flush in s.flushes && s.flushes[flush] == f && (f.Snapped? ==> DoResolve(flush) !in steps)
    ensures flush in Run(s, steps).flushes && Run(s, steps).flushes[flush] == f
    decreases |steps|
  {
    hide Passes, Resolve, Upsert, Waiting;
    if steps != [] {
      SnapshotStays(Exec(s, steps[0]), flush, f, steps[1..]);
    }
  }

  /**
   * A flush from beginning to end, anything happening in between and after: its
   * outcome is that of the queue it was taken from and of the sign-ins up to its
   * lookup. Credentials mean that at most one owner waited in that queue, and they
   * are that owner's own.
   */
  lemma FlushOutcome(s: State, flush: int, between: seq<Step>, after: seq<Step>)
    requires Safe(s) && flush !in s.flushes && DoResolve(flush) !in between
    ensures var e := Run(Exec(s, DoSnapshot(flush)), between);
            var end := Run(Exec(e, DoResolve(flush)), after);
            var outcome := Resolve(TableOf(s.history + SignIns(between)), s.awards);
            && flush in end.flushes && end.flushes[flush] == Resolved(s.awards, outcome)
            && (outcome.Granted? ==>
                  && |Owners(s.awards)| <= 1
                  && forall owner :: owner in Owners(s.awards) ==>
                       OwnLogin(s.history + SignIns(between), owner, outcome.credentials))
  {
    hide Run, Resolve, Waiting, Owners, TableOf, Passes, Upsert, OwnLogin;
    var snapped := Exec(s, DoSnapshot(flush));
    ExecSafe(s, DoSnapshot(flush));
    RunSafe(snapped, between);
    RunHistory(snapped, between);
    SnapshotStays(snapped, flush, Snapped(s.awards), between);
    var e := Run(snapped, between);
    var outcome := Resolve(TableOf(e.history), s.awards);
    ResolveSafe(e.history, s.awards);
    SnapshotStays(Exec(e, DoResolve(flush)), flush, Resolved(s.awards, outcome), after);
  }
}
