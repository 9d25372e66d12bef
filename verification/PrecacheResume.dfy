/**
 * Cancelling at game boundaries and running the list again. Times matter only
 * through which marks are still fresh, so caches are compared as views: the rows
 * and the set of hashes with a fresh mark.
 */
module PrecacheResume {
  import opened Basics
  import opened Precache

  datatype View = View(rows: Rows, freshMarks: set<string>)

  /** The decision a game takes on a view. */
  function See(w: World, g: Game, v: View): Decision {
    Decide(w, g, v.rows, g.hash.Some? && g.hash.value in v.freshMarks)
  }

  function Next(w: World, g: Game, v: View): View {
    var d := See(w, g, v);
    View(d.rows, if d.mark && g.hash.Some? then v.freshMarks + {g.hash.value} else v.freshMarks)
  }

  /** The game asks upstream nothing. */
  predicate Quiet(w: World, g: Game, v: View) {
    See(w, g, v).asked == []
  }

  /** Running the game again would change nothing and not end the run. */
  predicate Settled(w: World, g: Game, v: View) {
    Next(w, g, v) == v && !See(w, g, v).outcome.auth
  }

  // ---- Upstream answers make all writes agree ----

  /** The value upstream gives a key, whoever asks. */
  function Truth(w: World, key: Key): Option<Value> {
    match key
    case SetsKey(h) => Some(SetsBody(w.sets(h)))
    case IdKey(h) => if w.sets(h).Sets? then Some(Number(w.sets(h).id)) else None
    case PatchKey(id) => if w.patch(id).PatchOk? then Some(Number(w.patch(id).content)) else None
    case UnlocksKey(id) => if w.unlocks(id).Some? then Some(Number(w.unlocks(id).value)) else None
    case SessionKey(id) => Some(Number(w.session(id)))
  }

  lemma WritesTrue(w: World, hash: string, patchClient: bool, key: Key)
    requires key in Writes(w, hash, patchClient)
    ensures Truth(w, key) == Some(Writes(w, hash, patchClient)[key])
    ensures key.SetsKey? ==> key.hash == hash
    ensures key.IdKey? ==> key.hash == hash
  {
  }

  /** A row set that holds everything a game writes is unchanged by writing it again. */
  lemma RewritingHeld(rows: Rows, writes: Rows)
    requires forall key :: key in writes ==> key in rows && rows[key] == writes[key]
    ensures rows + writes == rows
  {
  }

  ghost predicate Holds(rows: Rows, writes: Rows) {
    forall key :: key in writes ==> key in rows && rows[key] == writes[key]
  }

  lemma HoldsAfter(w: World, rows: Rows, g: string, gp: bool, h: string, hp: bool)
    requires Holds(rows, Writes(w, g, gp))
    ensures Holds(rows + Writes(w, h, hp), Writes(w, g, gp))
  {
    hide Writes, Truth;
    forall key | key in Writes(w, g, gp)
      ensures (rows + Writes(w, h, hp))[key] == Writes(w, g, gp)[key]
    {
      WritesTrue(w, g, gp, key);
      if key in Writes(w, h, hp) {
        WritesTrue(w, h, hp, key);
      }
    }
  }

  // ---- A game settles, and stays settled ----

  /** A game that asks, once its rows are held and nothing was marked, is settled. */
  lemma HeldIsSettled(w: World, g: Game, v: View)
    requires Hashed(w, g) && !Verdict(w, g.hash.value, g.patchClient).auth
    requires Holds(v.rows, Writes(w, g.hash.value, g.patchClient))
    requires Marks(w, g.hash.value) ==> g.hash.value in v.freshMarks
    ensures Settled(w, g, v)
  {
    hide Writes, Verdict, AlreadyCached, Requests, Marks;
    RewritingHeld(v.rows, Writes(w, g.hash.value, g.patchClient));
  }

  lemma QuietIsSettled(w: World, g: Game, v: View)
    requires Quiet(w, g, v)
    ensures Settled(w, g, v)
  {
    hide Writes, Verdict, AlreadyCached, Marks;
  }

  /** What settled means: quiet, or asking in vain. */
  lemma SettledCases(w: World, g: Game, v: View)
    requires Settled(w, g, v)
    ensures Quiet(w, g, v) ||
            (&& Hashed(w, g) && !Verdict(w, g.hash.value, g.patchClient).auth && !Marks(w, g.hash.value)
             && Holds(v.rows, Writes(w, g.hash.value, g.patchClient)))
  {
    hide Writes, Verdict, AlreadyCached, Marks;
    if !Quiet(w, g, v) {
      var writes := Writes(w, g.hash.value, g.patchClient);
      assert v.rows + writes == v.rows;
      forall key | key in writes
        ensures key in v.rows && v.rows[key] == writes[key]
      {
        assert (v.rows + writes)[key] == writes[key];
      }
    }
  }

  lemma SettlesItself(w: World, g: Game, v: View)
    requires !See(w, g, v).outcome.auth
    ensures Settled(w, g, Next(w, g, v))
  {
    if Quiet(w, g, v) {
      QuietIsSettled(w, g, v);
    } else {
      hide Writes, Verdict, AlreadyCached, Marks;
      HeldIsSettled(w, g, Next(w, g, v));
    }
  }

  /** Two games with one hash, one of them a patch client about to store an unusable answer over the other's row. */
  predicate Overwrites(w: World, h: Game, g: Game) {
    && Hashed(w, h) && Hashed(w, g) && h.hash == g.hash && h.patchClient && !g.patchClient
    && var answer := w.sets(g.hash.value);
       (answer.NotJson? || answer.Rejected?) && answer.stored
  }

  /** Rows of another hash cannot make a cached game uncached. */
  lemma CachedDespite(w: World, rows: Rows, g: string, gp: bool, h: string, hp: bool)
    requires AlreadyCached(rows, g, gp) && g != h
    ensures AlreadyCached(rows + Writes(w, h, hp), g, gp)
  {
    hide Writes, Truth;
    var writes := Writes(w, h, hp);
    if SetsKey(g) in writes {
      WritesTrue(w, h, hp, SetsKey(g));
    }
    if IdKey(g) in writes {
      WritesTrue(w, h, hp, IdKey(g));
    }
  }

  /** Only a patch client asks about a hash another game finds cached; then the answer decides. */
  lemma SameHashCases(w: World, h: Game, g: Game, v: View)
    requires !Quiet(w, h, v) && Hashed(w, g) && g.hash == h.hash && AlreadyCached(v.rows, g.hash.value, g.patchClient)
    ensures h.patchClient && !g.patchClient
    ensures Quiet(w, g, Next(w, h, v)) <==> !Overwrites(w, h, g)
    ensures !Quiet(w, g, Next(w, h, v)) ==>
              Holds(Next(w, h, v).rows, Writes(w, g.hash.value, g.patchClient)) && !Marks(w, g.hash.value)
  {
  }

  /** A quiet game stays quiet after any other game, exactly unless that game stores an unusable answer over its row. */
  lemma QuietAfter(w: World, h: Game, g: Game, v: View)
    requires Quiet(w, g, v) && !Overwrites(w, h, g)
    ensures Quiet(w, g, Next(w, h, v))
  {
    hide Writes, Verdict, Marks, Overwrites;
    if !Quiet(w, h, v) && Hashed(w, g) && AlreadyCached(v.rows, g.hash.value, g.patchClient) {
      if g.hash == h.hash {
        SameHashCases(w, h, g, v);
      } else {
        CachedDespite(w, v.rows, g.hash.value, g.patchClient, h.hash.value, h.patchClient);
      }
    }
  }

  /** The exception is real: such a pair, and a view in which the game was quiet. */
  lemma QuietExact(w: World, h: Game, g: Game)
    ensures (forall v :: Quiet(w, g, v) ==> Quiet(w, g, Next(w, h, v))) <==> !Overwrites(w, h, g)
  {
    if Overwrites(w, h, g) {
      var hash := g.hash.value;
      var v := View(map[SetsKey(hash) := SetsBody(Sets(1, 0))], {});
      assert Quiet(w, g, v);
      SameHashCases(w, h, g, v);
      assert !Quiet(w, g, Next(w, h, v));
    } else {
      forall v | Quiet(w, g, v)
        ensures Quiet(w, g, Next(w, h, v))
      {
        QuietAfter(w, h, g, v);
      }
    }
  }

  lemma StaysSettled(w: World, h: Game, g: Game, v: View)
    requires Settled(w, g, v) && !See(w, h, v).outcome.auth
    ensures Settled(w, g, Next(w, h, v))
  {
    hide Decide, Next, Overwrites, Writes, Marks, Verdict, AlreadyCached;
    SettledCases(w, g, v);
    if Quiet(w, h, v) {
      QuietIsSettled(w, h, v);
    } else if Quiet(w, g, v) {
      QuietStaysSettled(w, h, g, v);
    } else {
      AskerAfter(w, h, v);
      HoldsAfter(w, v.rows, g.hash.value, g.patchClient, h.hash.value, h.patchClient);
      HeldIsSettled(w, g, Next(w, h, v));
    }
  }

  lemma AskerAfter(w: World, h: Game, v: View)
    requires !Quiet(w, h, v)
    ensures Hashed(w, h) && Next(w, h, v).rows == v.rows + Writes(w, h.hash.value, h.patchClient)
    ensures v.freshMarks <= Next(w, h, v).freshMarks
    ensures See(w, h, v).outcome == Verdict(w, h.hash.value, h.patchClient)
  {
    hide Writes, Verdict, AlreadyCached, Marks;
  }

  lemma QuietStaysSettled(w: World, h: Game, g: Game, v: View)
    requires Quiet(w, g, v) && !Quiet(w, h, v) && !See(w, h, v).outcome.auth
    ensures Settled(w, g, Next(w, h, v))
  {
    hide Next, Writes, Marks, AlreadyCached, Settled;
    if !Overwrites(w, h, g) {
      QuietAfter(w, h, g, v);
      QuietIsSettled(w, g, Next(w, h, v));
    } else {
      AskerAfter(w, h, v);
      OverwrittenSettles(w, h, g, v);
    }
  }

  lemma OverwrittenSettles(w: World, h: Game, g: Game, v: View)
    requires Overwrites(w, h, g) && !Quiet(w, h, v) && !Verdict(w, h.hash.value, h.patchClient).auth
    ensures Settled(w, g, Next(w, h, v))
  {
    hide AlreadyCached;
    AskerAfter(w, h, v);
    HeldIsSettled(w, g, Next(w, h, v));
  }

  // ---- Runs on views ----

  /** The first `j` games, none of which ends the run. */
  predicate Clean(w: World, games: seq<Game>, v: View) {
    games == [] || (!See(w, games[0], v).outcome.auth && Clean(w, games[1..], Next(w, games[0], v)))
  }

  /** The view a run over the games leaves. */
  function RunView(w: World, games: seq<Game>, v: View): View {
    if games == [] then v
    else if See(w, games[0], v).outcome.auth then Next(w, games[0], v)
    else RunView(w, games[1..], Next(w, games[0], v))
  }

  lemma {:induction false} SettledThroughout(w: World, games: seq<Game>, g: Game, v: View)
    requires Clean(w, games, v) && Settled(w, g, v)
    ensures Settled(w, g, RunView(w, games, v))
  {
    hide See, Next, Settled;
    if games != [] {
      StaysSettled(w, games[0], g, v);
      SettledThroughout(w, games[1..], g, Next(w, games[0], v));
    }
  }

  lemma {:induction false} AllSettled(w: World, games: seq<Game>, v: View)
    requires Clean(w, games, v)
    ensures forall g :: g in games ==> Settled(w, g, RunView(w, games, v))
  {
    hide See, Next, Settled;
    if games != [] {
      SettlesItself(w, games[0], v);
      SettledThroughout(w, games[1..], games[0], Next(w, games[0], v));
      AllSettled(w, games[1..], Next(w, games[0], v));
    }
  }

  lemma {:induction false} SettledPrefix(w: World, done: seq<Game>, rest: seq<Game>, v: View)
    requires forall g :: g in done ==> Settled(w, g, v)
    ensures RunView(w, done + rest, v) == RunView(w, rest, v) && Clean(w, done, v)
  {
    if done == [] {
      assert done + rest == rest;
    } else {
      assert done[0] in done && (done + rest)[1..] == done[1..] + rest;
      SettledPrefix(w, done[1..], rest, v);
    }
  }

  lemma {:induction false} RunAppend(w: World, done: seq<Game>, rest: seq<Game>, v: View)
    requires Clean(w, done, v)
    ensures RunView(w, done + rest, v) == RunView(w, rest, RunView(w, done, v))
  {
    hide See, Next;
    if done == [] {
      assert done + rest == rest;
    } else {
      assert (done + rest)[1..] == done[1..] + rest;
      RunAppend(w, done[1..], rest, Next(w, done[0], v));
    }
  }

  /** One cancelled attempt, then the whole list: as if never cancelled. */
  lemma OneResume(w: World, games: seq<Game>, j: nat, v: View)
    requires j <= |games| && Clean(w, games[..j], v)
    ensures RunView(w, games, RunView(w, games[..j], v)) == RunView(w, games, v)
  {
    hide RunView, Clean, Settled;
    assert games == games[..j] + games[j..];
    AllSettled(w, games[..j], v);
    SettledPrefix(w, games[..j], games[j..], RunView(w, games[..j], v));
    RunAppend(w, games[..j], games[j..], v);
  }

  // ---- No repeated requests ----

  function AskedView(w: World, games: seq<Game>, v: View): (asked: seq<seq<Request>>)
    ensures |asked| <= |games|
    ensures Clean(w, games, v) ==> |asked| == |games|
  {
    if games == [] then []
    else if See(w, games[0], v).outcome.auth then [See(w, games[0], v).asked]
    else [See(w, games[0], v).asked] + AskedView(w, games[1..], Next(w, games[0], v))
  }

  function OutcomesView(w: World, games: seq<Game>, v: View): (outcomes: seq<Outcome>)
    ensures |outcomes| <= |games|
    ensures Clean(w, games, v) ==> |outcomes| == |games|
  {
    if games == [] then []
    else if See(w, games[0], v).outcome.auth then [See(w, games[0], v).outcome]
    else [See(w, games[0], v).outcome] + OutcomesView(w, games[1..], Next(w, games[0], v))
  }

  /** Among the games that asked in a run is one, after `i`, that stored an unusable answer over game `i`'s row. */
  ghost predicate Spoiled(w: World, games: seq<Game>, asked: seq<seq<Request>>, i: int) {
    exists m :: 0 <= i < m < |asked| && m < |games| && asked[m] != [] && Overwrites(w, games[m], games[i])
  }

  /** A game that did not fail is quiet afterwards. */
  lemma QuietAfterSelf(w: World, g: Game, v: View)
    requires See(w, g, v).outcome.status != Failed
    ensures Quiet(w, g, Next(w, g, v))
  {
    if !Quiet(w, g, v) && See(w, g, v).outcome.status == CachedNow {
      CachedNowIsCached(w, g.hash.value, g.patchClient, v.rows);
    }
  }

  lemma CachedNowIsCached(w: World, hash: string, patchClient: bool, rows: Rows)
    requires Verdict(w, hash, patchClient).status == CachedNow
    ensures AlreadyCached(rows + Writes(w, hash, patchClient), hash, patchClient)
  {
    var writes := Writes(w, hash, patchClient);
    assert SetsKey(hash) in writes && IdKey(hash) in writes;
    assert patchClient ==> PatchKey(w.sets(hash).id) in writes;
  }

  /** The first asking game that overwrites a quiet game's row makes it ask, from every view. */
  lemma OverwrittenAsks(w: World, h: Game, g: Game, v: View)
    requires Quiet(w, g, v) && !Quiet(w, h, v) && Overwrites(w, h, g)
    ensures !Quiet(w, g, Next(w, h, v))
  {
    SameHashCases(w, h, g, v);
  }

  /** No other game gives it its row back. */
  lemma StaysLoud(w: World, h: Game, other: Game, g: Game, v: View)
    requires !Quiet(w, g, v) && Overwrites(w, other, g)
    ensures !Quiet(w, g, Next(w, h, v))
  {
    hide Verdict, Writes;
    var key := SetsKey(g.hash.value);
    if !Quiet(w, h, v) && key in Writes(w, h.hash.value, h.patchClient) {
      WritesTrue(w, h.hash.value, h.patchClient, key);
    }
  }

  lemma {:induction false} LoudThroughout(w: World, games: seq<Game>, other: Game, g: Game, v: View)
    requires Clean(w, games, v) && !Quiet(w, g, v) && Overwrites(w, other, g)
    ensures !Quiet(w, g, RunView(w, games, v))
  {
    hide See, Next, Quiet, Overwrites;
    if games != [] {
      StaysLoud(w, games[0], other, g, v);
      LoudThroughout(w, games[1..], other, g, Next(w, games[0], v));
    }
  }

  /** Over a run, a quiet game stays quiet exactly when no asking game overwrites its row. */
  lemma {:induction false} QuietThroughoutExact(w: World, games: seq<Game>, g: Game, v: View)
    requires Clean(w, games, v) && Quiet(w, g, v)
    ensures Quiet(w, g, RunView(w, games, v))
            <==> !exists m :: 0 <= m < |games| && AskedView(w, games, v)[m] != [] && Overwrites(w, games[m], g)
  {
    hide See, Next, Overwrites;
    if games != [] {
      var h, after := games[0], Next(w, games[0], v);
      var asked := AskedView(w, games, v);
      assert asked[0] == See(w, h, v).asked && asked[1..] == AskedView(w, games[1..], after);
      hide AskedView, Quiet;
      if asked[0] != [] && Overwrites(w, h, g) {
        OverwrittenAsks(w, h, g, v) by {
          AsksIsLoud(w, h, v);
        }
        LoudThroughout(w, games[1..], h, g, after);
      } else {
        AsksIsLoud(w, h, v);
        QuietUnlessOverwritten(w, h, g, v);
        QuietThroughoutExact(w, games[1..], g, after);
        assert forall m :: 1 <= m < |games| ==> asked[m] == asked[1..][m - 1] && games[m] == games[1..][m - 1];
        assert forall m :: 0 <= m < |games[1..]| ==> asked[1..][m] == asked[m + 1] && games[1..][m] == games[m + 1];
      }
    }
  }

  lemma AsksIsLoud(w: World, h: Game, v: View)
    ensures See(w, h, v).asked != [] <==> !Quiet(w, h, v)
  {
  }

  lemma QuietUnlessOverwritten(w: World, h: Game, g: Game, v: View)
    requires Quiet(w, g, v) && (Quiet(w, h, v) || !Overwrites(w, h, g))
    ensures Quiet(w, g, Next(w, h, v))
  {
    hide See, Next, Overwrites, Quiet;
    if Quiet(w, h, v) {
      QuietIsSettled(w, h, v);
    } else {
      QuietAfter(w, h, g, v);
    }
  }

  /** A game of a run that did not fail is quiet after it exactly when it was not spoiled. */
  lemma {:induction false} FinishedIsQuiet(w: World, games: seq<Game>, i: nat, v: View)
    requires Clean(w, games, v) && i < |games|
    requires OutcomesView(w, games, v)[i].status != Failed
    ensures Quiet(w, games[i], RunView(w, games, v)) <==> !Spoiled(w, games, AskedView(w, games, v), i)
    decreases i
  {
    hide See, Next, Quiet, Overwrites;
    var rest, after := games[1..], Next(w, games[0], v);
    var asked := AskedView(w, games, v);
    assert asked[1..] == AskedView(w, rest, after);
    assert forall m :: 1 <= m < |games| ==> asked[m] == asked[1..][m - 1] && games[m] == rest[m - 1];
    assert forall m :: 0 <= m < |rest| ==> asked[1..][m] == asked[m + 1] && rest[m] == games[m + 1];
    if i == 0 {
      QuietAfterSelf(w, games[0], v);
      QuietThroughoutExact(w, rest, games[0], after);
    } else {
      FinishedIsQuiet(w, rest, i - 1, after);
    }
  }

  lemma {:induction false} SettledAsks(w: World, done: seq<Game>, rest: seq<Game>, i: nat, v: View)
    requires i < |done| && forall g :: g in done ==> Settled(w, g, v)
    ensures i < |AskedView(w, done + rest, v)| && AskedView(w, done + rest, v)[i] == See(w, done[i], v).asked
    decreases i
  {
    hide See, Next;
    assert done[0] in done && (done + rest)[1..] == done[1..] + rest;
    if i > 0 {
      SettledAsks(w, done[1..], rest, i - 1, v);
    }
  }

  /** The resumed run sends nothing for a game of the first run that did not fail, exactly unless it was spoiled there. */
  lemma NoRepeatedRequest(w: World, games: seq<Game>, j: nat, i: nat, v: View)
    requires i < j <= |games| && Clean(w, games[..j], v)
    requires OutcomesView(w, games[..j], v)[i].status != Failed
    ensures var asked := AskedView(w, games, RunView(w, games[..j], v));
            i < |asked| && (asked[i] == [] <==> !Spoiled(w, games, AskedView(w, games[..j], v), i))
  {
    hide Settled, AskedView, OutcomesView, RunView, Clean, Overwrites;
    AllSettled(w, games[..j], v);
    FinishedIsQuiet(w, games[..j], i, v);
    SettledAsks(w, games[..j], games[j..], i, RunView(w, games[..j], v));
    assert games == games[..j] + games[j..];
  }

  // ---- Back to caches and times ----

  /** Between `from` and `to` no mark in the cache expires. */
  ghost predicate NothingExpires(c: Cache, from: int, to: int) {
    && from <= to < from + TTL
    && forall h :: h in c.marks ==> from - c.marks[h] >= TTL || to - c.marks[h] < TTL
  }

  function ViewOf(c: Cache, to: int): View {
    View(c.rows, set h | h in c.marks && to - c.marks[h] < TTL)
  }

  lemma AfterInView(w: World, g: Game, c: Cache, from: int, now: int, to: int)
    requires NothingExpires(c, from, to) && from <= now <= to
    ensures Decide(w, g, c.rows, Known(g, c, now)) == See(w, g, ViewOf(c, to))
    ensures ViewOf(After(w, g, c, now), to) == Next(w, g, ViewOf(c, to))
    ensures NothingExpires(After(w, g, c, now), from, to)
  {
    hide Decide;
    assert g.hash.Some? ==> (Known(g, c, now) <==> g.hash.value in ViewOf(c, to).freshMarks);
  }

  /** The games a run reaches from index `i` on. */
  function Reached(games: seq<Game>, cut: int, i: int): seq<Game>
    requires 0 <= i <= |games|
  {
    if cut <= i then [] else games[i..Min(cut, |games|)]
  }

  /** A run, seen through views. */
  lemma {:induction false} RunInView(
      w: World, games: seq<Game>, c: Cache, clock: int -> int, cut: int, i: int, from: int, to: int)
    requires 0 <= i <= |games| && NothingExpires(c, from, to)
    requires forall k :: 0 <= k < |games| ==> from <= clock(k) <= to
    ensures var r, v, reached := RunFrom(w, games, c, clock, cut, i), ViewOf(c, to), Reached(games, cut, i);
            && ViewOf(r.cache, to) == RunView(w, reached, v)
            && NothingExpires(r.cache, from, to)
            && (r.state == Stopped <==> !Clean(w, reached, v))
            && r.asked == AskedView(w, reached, v) && r.outcomes == OutcomesView(w, reached, v)
    decreases |games| - i
  {
    hide Decide, After, See, Next, ViewOf, NothingExpires, Known;
    if i < |games| && i < cut {
      AfterInView(w, games[i], c, from, clock(i), to);
      RunInView(w, games, After(w, games[i], c, clock(i)), clock, cut, i + 1, from, to);
      var reached := Reached(games, cut, i);
      assert reached[0] == games[i] && reached[1..] == Reached(games, cut, i + 1);
    }
  }

  /** An attempt: where it is cancelled, and its clock. */
  datatype Attempt = Attempt(cut: nat, clock: int -> int)

  /** The cache after a series of attempts. */
  function Attempts(w: World, games: seq<Game>, c: Cache, attempts: seq<Attempt>): Cache
    decreases |attempts|
  {
    if attempts == [] then c
    else Attempts(w, games, RunFrom(w, games, c, attempts[0].clock, attempts[0].cut, 0).cache, attempts[1..])
  }

  /** Every attempt ended in a cancel. */
  predicate AllCancelled(w: World, games: seq<Game>, c: Cache, attempts: seq<Attempt>)
    decreases |attempts|
  {
    attempts == [] ||
    var r := RunFrom(w, games, c, attempts[0].clock, attempts[0].cut, 0);
    r.state == Cancelled && AllCancelled(w, games, r.cache, attempts[1..])
  }

  lemma WholeReached(games: seq<Game>, cut: nat)
    ensures Reached(games, |games| + 1, 0) == games
    ensures Reached(games, cut, 0) == games[..Min(cut, |games|)]
  {
  }

  /** Any number of cancelled attempts and then a full run leave the cache of one uninterrupted run, times aside. */
  lemma {:induction false} ResumeEqualsOneRun(
      w: World, games: seq<Game>, c: Cache, attempts: seq<Attempt>, last: int -> int, once: int -> int, from: int, to: int)
    requires NothingExpires(c, from, to) && AllCancelled(w, games, c, attempts)
    requires forall k :: 0 <= k < |games| ==> from <= last(k) <= to && from <= once(k) <= to
    requires forall a, k :: a in attempts && 0 <= k < |games| ==> from <= a.clock(k) <= to
    ensures ViewOf(RunFrom(w, games, Attempts(w, games, c, attempts), last, |games| + 1, 0).cache, to)
            == ViewOf(RunFrom(w, games, c, once, |games| + 1, 0).cache, to)
    decreases |attempts|
  {
    hide RunFrom, RunView, Clean, ViewOf, NothingExpires, Reached;
    WholeReached(games, 0);
    RunInView(w, games, c, once, |games| + 1, 0, from, to);
    if attempts == [] {
      RunInView(w, games, c, last, |games| + 1, 0, from, to);
    } else {
      var a := attempts[0];
      assert a in attempts;
      var r := RunFrom(w, games, c, a.clock, a.cut, 0);
      RunInView(w, games, c, a.clock, a.cut, 0, from, to);
      WholeReached(games, a.cut);
      OneResume(w, games, Min(a.cut, |games|), ViewOf(c, to));
      ResumeEqualsOneRun(w, games, r.cache, attempts[1..], last, once, from, to);
      RunInView(w, games, r.cache, once, |games| + 1, 0, from, to);
    }
  }

  /**
   * After one cancelled attempt the next run asks nothing about a game that did
   * not fail, exactly unless a later game of that attempt asked and stored an
   * unusable answer over its row.
   */
  lemma ResumeAsksExact(
      w: World, games: seq<Game>, c: Cache, first: Attempt, again: int -> int, from: int, to: int, i: nat)
    requires NothingExpires(c, from, to)
    requires forall k :: 0 <= k < |games| ==> from <= first.clock(k) <= to && from <= again(k) <= to
    requires var r := RunFrom(w, games, c, first.clock, first.cut, 0);
             r.state == Cancelled && i < |r.outcomes| && r.outcomes[i].status != Failed
    ensures var r := RunFrom(w, games, c, first.clock, first.cut, 0);
            var asked := RunFrom(w, games, r.cache, again, |games| + 1, 0).asked;
            i < |asked| && (asked[i] == [] <==> !Spoiled(w, games, r.asked, i))
  {
    hide RunFrom, RunView, Clean, ViewOf, NothingExpires, Reached, Spoiled;
    RunInView(w, games, c, first.clock, first.cut, 0, from, to);
    WholeReached(games, first.cut);
    var r := RunFrom(w, games, c, first.clock, first.cut, 0);
    RunInView(w, games, r.cache, again, |games| + 1, 0, from, to);
    NoRepeatedRequest(w, games, Min(first.cut, |games|), i, ViewOf(c, to));
  }

  /** A list without such a pair, the overwriting game behind the other, is never asked about twice. */
  lemma ResumeAsksNothingTwice(
      w: World, games: seq<Game>, c: Cache, first: Attempt, again: int -> int, from: int, to: int, i: nat)
    requires NothingExpires(c, from, to)
    requires forall k :: 0 <= k < |games| ==> from <= first.clock(k) <= to && from <= again(k) <= to
    requires var r := RunFrom(w, games, c, first.clock, first.cut, 0);
             r.state == Cancelled && i < |r.outcomes| && r.outcomes[i].status != Failed
    requires forall m :: i < m < |games| ==> !Overwrites(w, games[m], games[i])
    ensures var r := RunFrom(w, games, c, first.clock, first.cut, 0);
            var asked := RunFrom(w, games, r.cache, again, |games| + 1, 0).asked;
            i < |asked| && asked[i] == []
  {
    hide RunFrom, NothingExpires, Overwrites;
    ResumeAsksExact(w, games, c, first, again, from, to, i);
  }

  /** It does happen: a prepared game, and behind it a patch client with its hash and an unusable answer. */
  lemma ResumeMayAskAgain(w: World, hash: string, now: int)
    requires w.hasher && (w.sets(hash) == NotJson(true) || w.sets(hash) == Rejected(false, true))
    ensures var games := [Game(true, true, true, Some(hash), false), Game(true, true, true, Some(hash), true)];
            var c := Cache(map[SetsKey(hash) := SetsBody(Sets(1, 0))], map[]);
            var r := RunFrom(w, games, c, _ => now, 2, 0);
            && r.state == Cancelled && |r.outcomes| == 2 && r.outcomes[0].status == Skipped
            && var asked := RunFrom(w, games, r.cache, _ => now, 3, 0).asked;
               |asked| > 0 && asked[0] != []
  {
    var g, h := Game(true, true, true, Some(hash), false), Game(true, true, true, Some(hash), true);
    var games, c, clock := [g, h], Cache(map[SetsKey(hash) := SetsBody(Sets(1, 0))], map[]), (_: int) => now;
    assert Decide(w, g, c.rows, Known(g, c, now)) == Decision(c.rows, false, Outcome(Skipped, false), []);
    var d := Decide(w, h, c.rows, Known(h, c, now));
    assert d.asked != [] && !d.outcome.auth;
    assert Overwrites(w, games[1], games[0]);
    hide Decide, Overwrites;
    var after := After(w, h, c, now);
    assert After(w, g, c, now) == c;
    assert RunFrom(w, games, after, clock, 2, 2) == Report(after, [], [], Cancelled);
    assert RunFrom(w, games, c, clock, 2, 1) == Report(after, [d.outcome], [d.asked], Cancelled);
    var r := RunFrom(w, games, c, clock, 2, 0);
    assert r == Report(after, [Outcome(Skipped, false), d.outcome], [[], d.asked], Cancelled);
    assert Spoiled(w, games, r.asked, 0);
    ResumeAsksExact(w, games, c, Attempt(2, clock), clock, now, now, 0);
  }
}
