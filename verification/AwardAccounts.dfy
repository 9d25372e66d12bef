/**
 * Offline awards under several accounts, as a transition system: accounts sign
 * in, requests check the queue and later insert into it, flushes take a
 * snapshot and later look up the credentials they will send with. A check
 * releases its lock before the insert, so every interleaving is a run.
 */
module AwardAccounts {
  import opened Basics
  import opened LoginTable

  datatype Status = Pending | Flushed | Stale | Deleted

  /** A queued award; `user` is the request body's user parameter, empty when it has none. */
  datatype Award = Award(user: string, status: Status)

  /** An award request past the account check, not yet inserted: the user the check saw and the user of the body. */
  datatype Checked = Checked(seen: string, user: string)

  datatype Resolution = Granted(credentials: Credentials) | SpansOwners | OwnerMissing | NoToken

  datatype Flush = Snapped(rows: seq<Award>) | Resolved(rows: seq<Award>, outcome: Resolution)

  datatype State = State(
    history: seq<SignIn>, logins: seq<LoginRow>, awards: seq<Award>,
    requests: map<int, Checked>, flushes: map<int, Flush>)

  datatype Step =
    | DoSignIn(signIn: SignIn)
    | DoCheck(id: int, request: Checked)
    | DoInsert(id: int, stored: bool)
    | DoAward(whole: Checked, kept: bool)
    | DoMark(row: int, status: Status)
    | DoSweep
    | DoSnapshot(flush: int)
    | DoResolve(flush: int)

  /** The rows still awaiting a flush. */
  function Waiting(rows: seq<Award>): (w: seq<Award>)
    ensures forall a :: a in w <==> a in rows && a.status == Pending
  {
    if rows == [] then []
    else (if rows[0].status == Pending then [rows[0]] else []) + Waiting(rows[1..])
  }

  /** The named owners among rows awaiting a flush. */
  function Owners(rows: seq<Award>): set<string> {
    set a | a in Waiting(rows) && a.user != "" :: Lower(a.user)
  }

  /** `pending_award_account_mismatch` lets the request through. */
  predicate Passes(rows: seq<Award>, seen: string) {
    Lower(seen) == "" || Owners(rows) == {} || Lower(seen) in Owners(rows)
  }

  /** `resolve_leaf_credentials` over the waiting rows of a snapshot. */
  ghost function Resolve(logins: seq<LoginRow>, rows: seq<Award>): Resolution {
    var users := Owners(rows);
    if |users| > 1 then SpansOwners
    else if users != {} then
      var owner :| owner in users;
      match LoadFor(logins, owner)
      case None => OwnerMissing
      case Some(c) => Granted(c)
    else
      match LoadLatest(logins)
      case None => NoToken
      case Some(c) => Granted(c)
  }

  function Insert(rows: seq<Award>, user: string, stored: bool): seq<Award> {
    if stored then rows + [Award(user, Pending)] else rows
  }

  ghost function Exec(s: State, step: Step): State {
    match step
    case DoSignIn(signIn) => s.(history := s.history + [signIn], logins := Upsert(s.logins, signIn))
    case DoCheck(id, request) =>
      if id !in s.requests && Passes(s.awards, request.seen) then s.(requests := s.requests[id := request]) else s
    case DoInsert(id, stored) =>
      if id !in s.requests then s
      else s.(awards := Insert(s.awards, s.requests[id].user, stored), requests := s.requests - {id})
    case DoAward(request, stored) =>
      if Passes(s.awards, request.seen) then s.(awards := Insert(s.awards, request.user, stored)) else s
    case DoMark(row, status) =>
      if 0 <= row < |s.awards| && status != Pending then s.(awards := s.awards[row := s.awards[row].(status := status)])
      else s
    case DoSweep => s.(awards := Waiting(s.awards))
    case DoSnapshot(flush) => if flush in s.flushes then s else s.(flushes := s.flushes[flush := Snapped(s.awards)])
    case DoResolve(flush) =>
      if flush in s.flushes && s.flushes[flush].Snapped? then
        var rows := s.flushes[flush].rows;
        s.(flushes := s.flushes[flush := Resolved(rows, Resolve(s.logins, rows))])
      else s
  }

  ghost function Run(s: State, steps: seq<Step>): State
    decreases |steps|
  {
    if steps == [] then s else Run(Exec(s, steps[0]), steps[1..])
  }

  /** A start: any sign-in history, any queue, nothing in flight. */
  function Start(history: seq<SignIn>, awards: seq<Award>): State {
    State(history, TableOf(history), awards, map[], map[])
  }

  // ---- Token safety ----

  /** Some sign-in filed under `owner` gave these credentials, and they name `owner`. */
  ghost predicate OwnLogin(history: seq<SignIn>, owner: string, c: Credentials) {
    Lower(c.user) == owner && exists k :: 0 <= k < |history| && Lower(history[k].account) == owner && history[k].body == c
  }

  /** Credentials are granted only to a snapshot with at most one owner, and are that owner's own. */
  ghost predicate SafeFlush(history: seq<SignIn>, f: Flush) {
    f.Resolved? && f.outcome.Granted? ==>
      && |Owners(f.rows)| <= 1
      && forall owner :: owner in Owners(f.rows) ==> OwnLogin(history, owner, f.outcome.credentials)
  }

  ghost predicate Safe(s: State) {
    && s.logins == TableOf(s.history)
    && forall f :: f in s.flushes ==> SafeFlush(s.history, s.flushes[f])
  }

  lemma OwnersLower(rows: seq<Award>, owner: string)
    requires owner in Owners(rows)
    ensures Lower(owner) == owner
  {
    var a :| a in Waiting(rows) && a.user != "" && Lower(a.user) == owner;
    LowerIdempotent(a.user);
  }

  lemma SingleOwner(users: set<string>, a: string, b: string)
    requires |users| <= 1 && a in users && b in users
    ensures a == b
  {
    if a != b {
      assert {a, b} <= users;
      CardinalitySubset({a, b}, users);
    }
  }

  lemma CardinalitySubset(small: set<string>, large: set<string>)
    requires small <= large
    ensures |small| <= |large|
  {
    assert large == small + (large - small);
  }

  lemma ResolveSafe(history: seq<SignIn>, rows: seq<Award>)
    ensures SafeFlush(history, Resolved(rows, Resolve(TableOf(history), rows)))
  {
    hide Lower, TableOf, LastOf, LoadLatest, Waiting;
    var users, outcome := Owners(rows), Resolve(TableOf(history), rows);
    hide Owners, LoadFor;
    if outcome.Granted? {
      forall owner | owner in users
        ensures OwnLogin(history, owner, outcome.credentials)
      {
        OnlyOwnerResolved(history, rows, owner);
        OwnersLower(rows, owner);
        LoadForIsLastLogin(history, owner);
      }
    }
  }

  lemma OnlyOwnerResolved(history: seq<SignIn>, rows: seq<Award>, owner: string)
    requires owner in Owners(rows) && Resolve(TableOf(history), rows).Granted?
    ensures LoadFor(TableOf(history), owner) == Some(Resolve(TableOf(history), rows).credentials)
  {
    hide Lower, TableOf, LoadFor, Owners;
    var users := Owners(rows);
    forall other | other in users
      ensures other == owner
    {
      SingleOwner(users, other, owner);
    }
  }

  lemma SafeGrows(history: seq<SignIn>, s: SignIn, f: Flush)
    requires SafeFlush(history, f)
    ensures SafeFlush(history + [s], f)
  {
    hide Lower, Owners;
    if f.Resolved? && f.outcome.Granted? {
      forall owner | owner in Owners(f.rows)
        ensures OwnLogin(history + [s], owner, f.outcome.credentials)
      {
        var k :| 0 <= k < |history| && Lower(history[k].account) == owner && history[k].body == f.outcome.credentials;
        assert (history + [s])[k] == history[k];
      }
    }
  }

  lemma ExecSafe(s: State, step: Step)
    requires Safe(s)
    ensures Safe(Exec(s, step))
  {
    hide Lower, Owners, Waiting, Passes, Resolve, SafeFlush, Upsert;
    match step
    case DoSignIn(signIn) =>
      assert (s.history + [signIn])[..|s.history|] == s.history;
      forall f | f in s.flushes
        ensures SafeFlush(s.history + [signIn], s.flushes[f])
      {
        SafeGrows(s.history, signIn, s.flushes[f]);
      }
    case DoSnapshot(flush) =>
      SnappedSafe(s.history, s.awards);
    case DoResolve(flush) =>
      if flush in s.flushes && s.flushes[flush].Snapped? {
        ResolveSafe(s.history, s.flushes[flush].rows);
      }
    case _ =>
  }

  lemma SnappedSafe(history: seq<SignIn>, rows: seq<Award>)
    ensures SafeFlush(history, Snapped(rows))
  {
  }

  lemma {:induction false} RunSafe(s: State, steps: seq<Step>)
    requires Safe(s)
    ensures Safe(Run(s, steps))
    decreases |steps|
  {
    hide Exec, Safe;
    if steps != [] {
      ExecSafe(s, steps[0]);
      RunSafe(Exec(s, steps[0]), steps[1..]);
    }
  }

  /** In every reachable state, from any history, any queue and any requests under way, over every interleaving. */
  lemma FlushTokenSafety(s: State, steps: seq<Step>)
    requires s.logins == TableOf(s.history) && s.flushes == map[]
    ensures Safe(Run(s, steps))
  {
    hide Run;
    RunSafe(s, steps);
  }

  /**
   * The outcome in terms of who signed in when: two owners are refused; a single
   * owner gets the credentials of its last sign-in if they name it, and nothing
   * otherwise; a queue that names nobody gets the sign-in nobody outranks.
   */
  lemma ResolveExact(history: seq<SignIn>, rows: seq<Award>)
    ensures Resolve(TableOf(history), rows) == SpansOwners <==> |Owners(rows)| > 1
    ensures forall owner :: Owners(rows) == {owner} ==>
              var k := LastOf(history, owner);
              Resolve(TableOf(history), rows)
              == if k >= 0 && Lower(history[k].body.user) == owner then Granted(history[k].body) else OwnerMissing
    ensures Owners(rows) == {} && history == [] ==> Resolve(TableOf(history), rows) == NoToken
    ensures Owners(rows) == {} && history != [] ==>
              exists m :: Top(history, m) && Resolve(TableOf(history), rows) == Granted(history[m].body)
  {
    hide Lower, TableOf, LoadFor, LoadLatest, Owners, LastOf, Top;
    var users := Owners(rows);
    forall owner | users == {owner}
      ensures LoadFor(TableOf(history), owner)
              == var k := LastOf(history, owner);
                 if k >= 0 && Lower(history[k].body.user) == owner then Some(history[k].body) else None
    {
      assert owner in users;
      OwnersLower(rows, owner);
      LoadForIsLastLogin(history, owner);
    }
    if |users| == 1 {
      SoleOwner(users);
    }
    LatestExact(history);
    forall m | Top(history, m)
      ensures 0 <= m < |history|
    {
      TopInside(history, m);
    }
  }

  lemma SoleOwner(users: set<string>)
    requires |users| == 1
    ensures exists owner :: users == {owner}
  {
    var owner :| owner in users;
    assert |users - {owner}| == 0;
    assert users == {owner};
  }

  // ---- The owner set ----

  lemma {:induction false} WaitingSnoc(rows: seq<Award>, a: Award)
    ensures Waiting(rows + [a]) == Waiting(rows) + (if a.status == Pending then [a] else [])
  {
    if rows != [] {
      assert (rows + [a])[1..] == rows[1..] + [a];
      WaitingSnoc(rows[1..], a);
    }
  }

  lemma OwnersOfInsert(rows: seq<Award>, user: string)
    ensures Owners(rows + [Award(user, Pending)]) == Owners(rows) + (if user == "" then {} else {Lower(user)})
  {
    hide Lower, Waiting;
    WaitingSnoc(rows, Award(user, Pending));
  }

  lemma OwnersOfMark(rows: seq<Award>, row: nat, status: Status)
    requires row < |rows| && status != Pending
    ensures Owners(rows[row := rows[row].(status := status)]) <= Owners(rows)
  {
    hide Lower;
    var after := rows[row := rows[row].(status := status)];
    forall a | a in Waiting(after)
      ensures a in Waiting(rows)
    {
    }
  }

  lemma OwnersOfSweep(rows: seq<Award>)
    ensures Owners(Waiting(rows)) == Owners(rows)
  {
    hide Lower;
    assert forall a :: a in Waiting(Waiting(rows)) <==> a in Waiting(rows);
  }

  predicate Single(rows: seq<Award>) {
    |Owners(rows)| <= 1
  }

  /** One check and insert with nothing in between: the owner set grows only from none to one. */
  lemma AtomicAwardNeverWidens(rows: seq<Award>, user: string, stored: bool)
    requires Passes(rows, user)
    ensures Owners(Insert(rows, user, stored)) == Owners(rows)
            || (Owners(rows) == {} && Owners(Insert(rows, user, stored)) == {Lower(user)})
  {
    OwnersOfInsert(rows, user);
    hide Lower, Waiting;
  }

  lemma TwoOwners(rows: seq<Award>, a: string, b: string)
    requires a in Owners(rows) && b in Owners(rows) && a != b
    ensures !Single(rows)
  {
    hide Lower, Waiting, Owners;
    if Single(rows) {
      SingleOwner(Owners(rows), a, b);
    }
  }

  lemma SmallOwners(rows: seq<Award>, users: set<string>)
    requires Owners(rows) <= users && |users| <= 1
    ensures Single(rows)
  {
    CardinalitySubset(Owners(rows), users);
  }

  /** A request keeps every single-owner queue single-owner exactly when its body is nameless or names whom the check saw. */
  lemma AtomicExact(request: Checked)
    ensures (forall rows :: Single(rows) && Passes(rows, request.seen) ==> Single(Insert(rows, request.user, true)))
            <==> request.user == "" || Lower(request.user) == Lower(request.seen)
  {
    hide Lower, Waiting;
    var user, seen := request.user, request.seen;
    if user == "" || Lower(user) == Lower(seen) {
      forall rows | Single(rows) && Passes(rows, seen)
        ensures Single(Insert(rows, user, true))
      {
        OwnersOfInsert(rows, user);
        hide Owners;
        if user == "" || Lower(user) in Owners(rows) {
          SmallOwners(Insert(rows, user, true), Owners(rows));
        } else {
          SmallOwners(Insert(rows, user, true), {Lower(user)});
        }
      }
    } else {
      var rows := Unwelcome(user, seen);
      assert !Single(Insert(rows, user, true));
    }
  }

  /** A queue that lets `seen` through and does not own `user`. */
  lemma Unwelcome(user: string, seen: string) returns (rows: seq<Award>)
    requires user != "" && Lower(user) != Lower(seen)
    ensures Single(rows) && Passes(rows, seen) && !Single(Insert(rows, user, true))
  {
    var holder := if seen == "" then user + "x" else seen;
    assert |Lower(holder)| == |holder| && |Lower(user)| == |user|;
    hide Lower;
    rows := [Award(holder, Pending)];
    assert rows == [] + [Award(holder, Pending)];
    OwnersOfInsert([], holder);
    OwnersOfInsert(rows, user);
    assert Owners(rows) == {Lower(holder)};
    assert Lower(holder) != Lower(user);
    TwoOwners(Insert(rows, user, true), Lower(holder), Lower(user));
  }

  /** The award a step would insert, if it inserts one. */
  ghost function Inserted(s: State, step: Step): Option<string> {
    match step
    case DoInsert(id, stored) => if id in s.requests && stored then Some(s.requests[id].user) else None
    case DoAward(request, stored) => if Passes(s.awards, request.seen) && stored then Some(request.user) else None
    case _ => None
  }

  /** The check would still pass at the moment of the insert. */
  ghost predicate StillWelcome(s: State, step: Step) {
    var i := Inserted(s, step);
    i.None? || Passes(s.awards, i.value)
  }

  lemma StepOwners(s: State, step: Step)
    requires Single(s.awards)
    ensures Single(Exec(s, step).awards) <==> StillWelcome(s, step)
  {
    hide Lower, Waiting;
    var i := Inserted(s, step);
    if i.Some? {
      assert |Lower(i.value)| == |i.value|;
      OwnersOfInsert(s.awards, i.value);
      assert Exec(s, step).awards == s.awards + [Award(i.value, Pending)];
      InsertOwners(s.awards, i.value);
    } else {
      match step
      case DoMark(row, status) =>
        if 0 <= row < |s.awards| && status != Pending {
          OwnersOfMark(s.awards, row, status);
          SmallOwners(Exec(s, step).awards, Owners(s.awards));
        }
      case DoSweep => OwnersOfSweep(s.awards);
      case _ =>
    }
  }

  lemma InsertOwners(rows: seq<Award>, user: string)
    requires Single(rows)
    ensures Single(rows + [Award(user, Pending)]) <==> Passes(rows, user)
  {
    var after := rows + [Award(user, Pending)];
    OwnersOfInsert(rows, user);
    assert Lower(user) == "" <==> user == "" by {
      assert |Lower(user)| == |user|;
    }
    hide Lower, Waiting, Owners;
    if Passes(rows, user) {
      SmallOwners(after, if user == "" || Owners(rows) != {} then Owners(rows) else {Lower(user)});
    } else {
      var other :| other in Owners(rows);
      TwoOwners(after, other, Lower(user));
    }
  }

  /** Every state of the run has at most one named owner waiting. */
  ghost predicate OneOwnerThroughout(s: State, steps: seq<Step>)
    decreases |steps|
  {
    Single(s.awards) && (steps != [] ==> OneOwnerThroughout(Exec(s, steps[0]), steps[1..]))
  }

  /** Every insert of the run would pass its own check at the moment it happens. */
  ghost predicate WelcomeThroughout(s: State, steps: seq<Step>)
    decreases |steps|
  {
    steps != [] ==> StillWelcome(s, steps[0]) && WelcomeThroughout(Exec(s, steps[0]), steps[1..])
  }

  /** Over every run the queue has one owner throughout exactly when no insert outlived its check. */
  lemma {:induction false} OneOwnerExact(s: State, steps: seq<Step>)
    requires Single(s.awards)
    ensures OneOwnerThroughout(s, steps) <==> WelcomeThroughout(s, steps)
    decreases |steps|
  {
    hide Exec, StillWelcome, Single;
    if steps != [] {
      StepOwners(s, steps[0]);
      if Single(Exec(s, steps[0]).awards) {
        OneOwnerExact(Exec(s, steps[0]), steps[1..]);
      }
    }
  }

  /** No step of the run separates a check from its insert. */
  predicate Atomic(steps: seq<Step>) {
    forall step :: step in steps ==>
      !step.DoInsert? && (step.DoAward? ==> step.whole.user == step.whole.seen)
  }

  /** A run whose awards are checked and inserted in one piece keeps one owner throughout. */
  lemma {:induction false} AtomicRunsKeepOneOwner(s: State, steps: seq<Step>)
    requires Single(s.awards) && Atomic(steps)
    ensures OneOwnerThroughout(s, steps)
    decreases |steps|
  {
    hide Exec, Single, Passes;
    if steps != [] {
      assert steps[0] in steps;
      StepOwners(s, steps[0]);
      AtomicRunsKeepOneOwner(Exec(s, steps[0]), steps[1..]);
    }
  }

  /** Check, check, insert, insert: two owners, although each request passed its check; a flush then grants nothing. */
  lemma SplitCheckWidens(history: seq<SignIn>, a: string, b: string)
    requires a != "" && b != "" && Lower(a) != Lower(b)
    ensures var steps := [DoCheck(0, Checked(a, a)), DoCheck(1, Checked(b, b)), DoInsert(0, true), DoInsert(1, true)];
            var s := Run(Start(history, []), steps);
            !Single(s.awards) && Resolve(s.logins, s.awards) == SpansOwners
  {
    hide Lower, Waiting, Passes, Owners, Single;
    var c0, c1, i0, i1 := DoCheck(0, Checked(a, a)), DoCheck(1, Checked(b, b)), DoInsert(0, true), DoInsert(1, true);
    var s0 := Start(history, []);
    EmptyQueuePasses(a);
    EmptyQueuePasses(b);
    RunFour(s0, c0, c1, i0, i1);
    hide Run, Resolve;
    var s2 := Exec(Exec(s0, c0), c1);
    assert s2 == s0.(requests := map[0 := Checked(a, a)][1 := Checked(b, b)]);
    var s3 := Exec(s2, i0);
    assert s3.awards == [] + [Award(a, Pending)] && 1 in s3.requests && s3.requests[1].user == b;
    var s4 := Exec(s3, i1);
    assert s4.awards == s3.awards + [Award(b, Pending)];
    OwnersOfInsert([], a);
    OwnersOfInsert(s3.awards, b);
    TwoOwners(s4.awards, Lower(a), Lower(b));
    SpansWhenNotSingle(s4.logins, s4.awards);
  }

  lemma SpansWhenNotSingle(logins: seq<LoginRow>, rows: seq<Award>)
    requires !Single(rows)
    ensures Resolve(logins, rows) == SpansOwners
  {
    hide Owners;
  }

  lemma RunFour(s: State, c0: Step, c1: Step, c2: Step, c3: Step)
    ensures Run(s, [c0, c1, c2, c3]) == Exec(Exec(Exec(Exec(s, c0), c1), c2), c3)
  {
    hide Exec;
    var s1, s2, s3 := Exec(s, c0), Exec(Exec(s, c0), c1), Exec(Exec(Exec(s, c0), c1), c2);
    assert [c0, c1, c2, c3][1..] == [c1, c2, c3] && [c1, c2, c3][1..] == [c2, c3];
    assert Run(s, [c0, c1, c2, c3]) == Run(s1, [c1, c2, c3]);
    assert Run(s1, [c1, c2, c3]) == Run(s2, [c2, c3]);
    assert Run(s2, [c2, c3]) == Run(s3, [c3]);
    assert Run(s3, [c3]) == Exec(s3, c3);
  }

  lemma EmptyQueuePasses(user: string)
    ensures Passes([], user)
  {
    hide Lower;
    assert Waiting([]) == [];
    assert Owners([]) == {};
  }
}
