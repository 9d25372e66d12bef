/**
 * The login rows of the response cache: one row per account, in row-id order,
 * where a new sign-in of a known account updates its row and keeps the row's id.
 */
module LoginTable {
  import opened Basics

  datatype Credentials = Credentials(user: string, token: string)

  /** A sign-in the proxy learned from: the account it is filed under, the answer's own user and token, the time. */
  datatype SignIn = SignIn(account: string, body: Credentials, at: int)

  datatype LoginRow = LoginRow(account: string, body: Credentials, cachedAt: int)

  /** Account names compare without case; rows are filed under the lower-case name. */
  function Lower(name: string): (r: string)
    ensures |r| == |name|
  {
    seq(|name|, i requires 0 <= i < |name| => LowerChar(name[i]))
  }

  lemma LowerIdempotent(name: string)
    ensures Lower(Lower(name)) == Lower(name)
  {
  }

  /** Two names that differ at most in the case of ASCII letters. */
  predicate SameName(a: string, b: string) {
    |a| == |b| && forall i :: 0 <= i < |a| ==> SameLetter(a[i], b[i])
  }

  lemma LowerExact(a: string, b: string)
    ensures Lower(a) == Lower(b) <==> SameName(a, b)
  {
    hide LowerChar;
    forall i | 0 <= i < |a| && i < |b|
      ensures Lower(a)[i] == Lower(b)[i] <==> SameLetter(a[i], b[i])
    {
      LowerCharExact(a[i], b[i]);
    }
  }

  // ---- The table ----

  /** The row of an account, -1 when it has none. */
  function Find(rows: seq<LoginRow>, account: string): (i: int)
    ensures -1 <= i < |rows|
    ensures i >= 0 ==> rows[i].account == account
    ensures i < 0 ==> forall r :: r in rows ==> r.account != account
  {
    if rows == [] then -1
    else if rows[|rows| - 1].account == account then |rows| - 1
    else Find(rows[..|rows| - 1], account)
  }

  /** `upsert_cache` on the account's key. */
  function Upsert(rows: seq<LoginRow>, s: SignIn): seq<LoginRow> {
    var i := Find(rows, Lower(s.account));
    var row := LoginRow(Lower(s.account), s.body, s.at);
    if i < 0 then rows + [row] else rows[i := row]
  }

  function TableOf(history: seq<SignIn>): seq<LoginRow> {
    if history == [] then [] else Upsert(TableOf(history[..|history| - 1]), history[|history| - 1])
  }

  /** `ORDER BY cachedAt DESC, id DESC LIMIT 1`: the row chosen, -1 from an empty table. */
  function Newest(rows: seq<LoginRow>): (i: int)
    ensures -1 <= i < |rows| && (i < 0 <==> rows == [])
    ensures i >= 0 ==> forall j :: 0 <= j < |rows| ==>
              rows[j].cachedAt < rows[i].cachedAt || (rows[j].cachedAt == rows[i].cachedAt && j <= i)
  {
    if rows == [] then -1 else
    var n := |rows| - 1;
    var best := Newest(rows[..n]);
    if best < 0 || rows[n].cachedAt >= rows[best].cachedAt then n else best
  }

  /** `load_login_credentials`. */
  function LoadLatest(rows: seq<LoginRow>): Option<Credentials> {
    if rows == [] then None else Some(rows[Newest(rows)].body)
  }

  /** `load_login_credentials_for`: the account's own row, and only if its answer names that account. */
  function LoadFor(rows: seq<LoginRow>, user: string): Option<Credentials> {
    var i := Find(rows, Lower(user));
    if i < 0 || Lower(rows[i].body.user) != Lower(user) then None else Some(rows[i].body)
  }

  // ---- What the table remembers of the history ----

  /** The last sign-in filed under an account. */
  function LastOf(history: seq<SignIn>, account: string): (i: int)
    ensures -1 <= i < |history|
    ensures i >= 0 ==> Lower(history[i].account) == account
    ensures forall j :: i < j < |history| ==> Lower(history[j].account) != account
  {
    if history == [] then -1
    else if Lower(history[|history| - 1].account) == account then |history| - 1
    else LastOf(history[..|history| - 1], account)
  }

  /** The first sign-in filed under an account, |history| when there is none. */
  function FirstOf(history: seq<SignIn>, account: string): (i: int)
    ensures 0 <= i <= |history|
    ensures i < |history| ==> Lower(history[i].account) == account
    ensures forall j :: 0 <= j < i ==> Lower(history[j].account) != account
  {
    if history == [] then 0
    else
      var i := FirstOf(history[..|history| - 1], account);
      if i < |history| - 1 then i
      else if Lower(history[|history| - 1].account) == account then |history| - 1
      else |history|
  }

  ghost predicate RowHolds(row: LoginRow, history: seq<SignIn>) {
    var k := LastOf(history, row.account);
    k >= 0 && row.body == history[k].body && row.cachedAt == history[k].at
  }

  ghost predicate Filed(rows: seq<LoginRow>, account: string) {
    exists i :: 0 <= i < |rows| && rows[i].account == account
  }

  /** One row per account, holding its last sign-in, rows ordered by first sign-in. */
  ghost predicate Remembers(rows: seq<LoginRow>, history: seq<SignIn>) {
    && (forall i :: 0 <= i < |rows| ==> RowHolds(rows[i], history))
    && (forall i, j :: 0 <= i < j < |rows| ==>
          FirstOf(history, rows[i].account) < FirstOf(history, rows[j].account))
    && (forall k :: 0 <= k < |history| ==> Filed(rows, Lower(history[k].account)))
  }

  lemma HistorySnoc(front: seq<SignIn>, s: SignIn, account: string)
    ensures LastOf(front + [s], account) == if Lower(s.account) == account then |front| else LastOf(front, account)
    ensures FirstOf(front, account) < |front| ==> FirstOf(front + [s], account) == FirstOf(front, account)
    ensures FirstOf(front, account) == |front| && Lower(s.account) == account ==> FirstOf(front + [s], account) == |front|
    ensures FirstOf(front, account) < |front| <==> LastOf(front, account) >= 0
  {
    assert (front + [s])[..|front|] == front;
  }

  lemma OnlyRow(rows: seq<LoginRow>, history: seq<SignIn>, account: string, i: int)
    requires Remembers(rows, history) && 0 <= i < |rows| && rows[i].account == account
    ensures Find(rows, account) == i
  {
    hide Lower, LastOf, FirstOf, RowHolds, Filed;
    assert rows[i] in rows;
    var at := Find(rows, account);
    assert FirstOf(history, rows[i].account) == FirstOf(history, rows[at].account);
  }

  lemma RowAfter(rows: seq<LoginRow>, front: seq<SignIn>, s: SignIn, i: int)
    requires Remembers(rows, front) && 0 <= i < |Upsert(rows, s)|
    ensures var after := Upsert(rows, s);
            && RowHolds(after[i], front + [s])
            && (i < |rows| ==> after[i].account == rows[i].account
                               && FirstOf(front + [s], after[i].account) == FirstOf(front, rows[i].account) < |front|)
            && (i == |rows| ==> after[i].account == Lower(s.account) && FirstOf(front + [s], after[i].account) == |front|)
  {
    hide Lower, LastOf, FirstOf, Find, Filed;
    var account, after := Lower(s.account), Upsert(rows, s);
    HistorySnoc(front, s, after[i].account);
    if i < |rows| {
      HistorySnoc(front, s, rows[i].account);
      if rows[i].account == account {
        OnlyRow(rows, front, account, i);
      }
    } else {
      NotFiled(rows, front, account);
    }
  }

  lemma NotFiled(rows: seq<LoginRow>, history: seq<SignIn>, account: string)
    requires Remembers(rows, history)
    ensures Find(rows, account) >= 0 <==> LastOf(history, account) >= 0
    ensures Find(rows, account) < 0 ==> FirstOf(history, account) == |history|
  {
    hide Lower;
    var k, at := LastOf(history, account), Find(rows, account);
    HistorySnoc(history, SignIn("", Credentials("", ""), 0), account);
    hide LastOf, FirstOf;
    if at >= 0 {
      assert RowHolds(rows[at], history);
    }
    if k >= 0 {
      assert Filed(rows, Lower(history[k].account));
      var i :| 0 <= i < |rows| && rows[i].account == account;
      assert rows[i] in rows;
    }
  }

  lemma UpsertRemembers(rows: seq<LoginRow>, front: seq<SignIn>, s: SignIn)
    requires Remembers(rows, front)
    ensures Remembers(Upsert(rows, s), front + [s])
  {
    hide Lower, LastOf, FirstOf, RowHolds;
    var at, after, history := Find(rows, Lower(s.account)), Upsert(rows, s), front + [s];
    forall i | 0 <= i < |after|
      ensures RowHolds(after[i], history)
    {
      RowAfter(rows, front, s, i);
    }
    forall i, j | 0 <= i < j < |after|
      ensures FirstOf(history, after[i].account) < FirstOf(history, after[j].account)
    {
      RowAfter(rows, front, s, i);
      RowAfter(rows, front, s, j);
    }
    forall k | 0 <= k < |history|
      ensures Filed(after, Lower(history[k].account))
    {
      if k < |front| {
        assert Filed(rows, Lower(front[k].account));
        var i :| 0 <= i < |rows| && rows[i].account == Lower(front[k].account);
        assert after[i].account == rows[i].account;
      } else {
        var i := if at < 0 then |rows| else at;
        assert after[i].account == Lower(s.account);
      }
    }
  }

  lemma {:induction false} TableRemembers(history: seq<SignIn>)
    ensures Remembers(TableOf(history), history)
  {
    if history != [] {
      var front, s := history[..|history| - 1], history[|history| - 1];
      assert history == front + [s];
      TableRemembers(front);
      UpsertRemembers(TableOf(front), front, s);
    }
  }

  /** A lookup by name returns that account's last sign-in, whoever else signed in, or nothing. */
  lemma LoadForIsLastLogin(history: seq<SignIn>, user: string)
    ensures var k := LastOf(history, Lower(user));
            LoadFor(TableOf(history), user)
            == if k >= 0 && Lower(history[k].body.user) == Lower(user) then Some(history[k].body) else None
  {
    hide Lower, LastOf, FirstOf, TableOf, Find;
    TableRemembers(history);
    var rows, account := TableOf(history), Lower(user);
    NotFiled(rows, history, account);
    if Find(rows, account) >= 0 {
      assert RowHolds(rows[Find(rows, account)], history);
    }
  }

  /** Another account's sign-in never changes what a lookup by name returns. */
  lemma OthersDoNotInterfere(history: seq<SignIn>, s: SignIn, user: string)
    requires Lower(s.account) != Lower(user)
    ensures LoadFor(TableOf(history + [s]), user) == LoadFor(TableOf(history), user)
  {
    hide Lower, LastOf, TableOf;
    LoadForIsLastLogin(history, user);
    LoadForIsLastLogin(history + [s], user);
    HistorySnoc(history, s, Lower(user));
  }

  /** Sign-in `m` is its account's last, and no account's last sign-in has a later time, or the same time and a younger row. */
  predicate Top(history: seq<SignIn>, m: int) {
    && 0 <= m < |history|
    && m == LastOf(history, Lower(history[m].account))
    && forall k :: 0 <= k < |history| ==> Outranks(history, m, k)
  }

  /** `m` is not outranked by the last sign-in of `k`'s account. */
  predicate Outranks(history: seq<SignIn>, m: int, k: int)
    requires 0 <= m < |history| && 0 <= k < |history|
  {
    var other := Lower(history[k].account);
    var theirs := history[LastOf(history, other)];
    || theirs.at < history[m].at
    || (theirs.at == history[m].at && FirstOf(history, other) <= FirstOf(history, Lower(history[m].account)))
  }

  /** For every history, clock steps included, "the latest login" is the one sign-in that nobody outranks. */
  lemma LatestExact(history: seq<SignIn>)
    ensures history == [] ==> LoadLatest(TableOf(history)) == None
    ensures history != [] ==> exists m :: Top(history, m)
    ensures forall m :: Top(history, m) ==> LoadLatest(TableOf(history)) == Some(history[m].body)
    ensures forall m, n :: Top(history, m) && Top(history, n) ==> m == n
  {
    hide Lower, FirstOf, LastOf, TableOf, Top, Newest;
    TableRemembers(history);
    if history != [] {
      var rows, mine := TableOf(history), Lower(history[0].account);
      assert Filed(rows, mine);
      NewestIsTop(rows, history);
      forall m | Top(history, m)
        ensures m == LastOf(history, rows[Newest(rows)].account)
      {
        TopIsNewest(rows, history, m);
      }
    }
    forall m | Top(history, m)
      ensures history != []
    {
      TopInside(history, m);
    }
  }

  lemma TopInside(history: seq<SignIn>, m: int)
    requires Top(history, m)
    ensures 0 <= m < |history|
  {
  }

  lemma NewestIsTop(rows: seq<LoginRow>, history: seq<SignIn>)
    requires Remembers(rows, history) && rows != []
    ensures var m := LastOf(history, rows[Newest(rows)].account);
            Top(history, m) && rows[Newest(rows)].body == history[m].body
  {
    hide Lower, FirstOf, Newest, Outranks, Remembers;
    var m := LastOf(history, rows[Newest(rows)].account);
    NewestHolds(rows, history);
    hide LastOf, RowHolds;
    forall k | 0 <= k < |history|
      ensures Outranks(history, m, k)
    {
      NewestOutranks(rows, history, k);
    }
  }

  lemma NewestHolds(rows: seq<LoginRow>, history: seq<SignIn>)
    requires Remembers(rows, history) && rows != []
    ensures RowHolds(rows[Newest(rows)], history)
  {
    hide Lower, FirstOf, Newest, LastOf, RowHolds, Filed;
  }

  lemma NewestOutranks(rows: seq<LoginRow>, history: seq<SignIn>, k: int)
    requires Remembers(rows, history) && rows != [] && 0 <= k < |history|
    ensures RowHolds(rows[Newest(rows)], history)
    ensures Outranks(history, LastOf(history, rows[Newest(rows)].account), k)
  {
    hide Lower, FirstOf, Newest, LastOf;
    var best := Newest(rows);
    assert RowHolds(rows[best], history);
    assert Filed(rows, Lower(history[k].account));
    var i :| 0 <= i < |rows| && rows[i].account == Lower(history[k].account);
    assert RowHolds(rows[i], history);
    assert i <= best ==> FirstOf(history, rows[i].account) <= FirstOf(history, rows[best].account);
  }

  lemma TopIsNewest(rows: seq<LoginRow>, history: seq<SignIn>, m: int)
    requires Remembers(rows, history) && rows != [] && Top(history, m)
    ensures m == LastOf(history, rows[Newest(rows)].account)
  {
    hide Lower, FirstOf, Newest, LastOf;
    var best := Newest(rows);
    var b := LastOf(history, rows[best].account);
    assert RowHolds(rows[best], history);
    assert Outranks(history, m, b);
    assert Filed(rows, Lower(history[m].account));
    var own :| 0 <= own < |rows| && rows[own].account == Lower(history[m].account);
    assert RowHolds(rows[own], history);
    assert rows[own].cachedAt == rows[best].cachedAt && own <= best;
  }

  /** "The latest login" is the last sign-in made exactly when no other account outranks it. */
  lemma LatestIsLastExact(history: seq<SignIn>)
    requires history != []
    ensures var rows, n := TableOf(history), |history| - 1;
            && rows != []
            && (rows[Newest(rows)].account == Lower(history[n].account)
                <==> forall k :: 0 <= k < |history| ==> Outranks(history, n, k))
            && (rows[Newest(rows)].account == Lower(history[n].account) ==> LoadLatest(rows) == Some(history[n].body))
  {
    var rows, n := TableOf(history), |history| - 1;
    hide Lower, FirstOf, TableOf, Newest, Outranks;
    assert LastOf(history, Lower(history[n].account)) == n;
    hide LastOf;
    TableRemembers(history);
    assert Filed(rows, Lower(history[n].account));
    NewestIsTop(rows, history);
    if forall k :: 0 <= k < |history| ==> Outranks(history, n, k) {
      TopIsNewest(rows, history, n);
    }
  }

  /** With strictly increasing times the latest login is the last sign-in. */
  lemma LatestIsLastSignIn(history: seq<SignIn>)
    requires history != [] && forall i, j :: 0 <= i < j < |history| ==> history[i].at < history[j].at
    ensures LoadLatest(TableOf(history)) == Some(history[|history| - 1].body)
  {
    hide Lower, FirstOf, TableOf;
    var n := |history| - 1;
    forall k | 0 <= k < |history|
      ensures Outranks(history, n, k)
    {
      var i := LastOf(history, Lower(history[k].account));
      assert i >= 0;
    }
    LatestExact(history);
    assert Top(history, n);
  }
}
