/**
 * What "prepared" means, said of the stored rows alone: which rows make a game
 * skipped, which rows a cached game has left, and that a game that failed is asked
 * about again.
 */
module PrecachePrepared {
  import opened Basics
  import opened Precache
  import opened PrecacheResume

  /** A stored answer with achievement sets of a game upstream knows. */
  ghost predicate SetsStored(rows: Rows, hash: string) {
    exists id, content :: id > 0 && SetsKey(hash) in rows && rows[SetsKey(hash)] == SetsBody(Sets(id, content))
  }

  /** A stored id for the hash, and a stored patch for that id. */
  ghost predicate PatchStored(rows: Rows, hash: string) {
    exists id :: id > 0 && IdKey(hash) in rows && rows[IdKey(hash)] == Number(id) && PatchKey(id) in rows
  }

  /** The rows that make a game prepared. */
  ghost predicate Prepared(rows: Rows, hash: string, patchClient: bool) {
    SetsStored(rows, hash) && (patchClient ==> PatchStored(rows, hash))
  }

  lemma CachedIsPrepared(rows: Rows, hash: string, patchClient: bool)
    ensures AlreadyCached(rows, hash, patchClient) <==> Prepared(rows, hash, patchClient)
  {
    if AlreadyCached(rows, hash, patchClient) {
      var answer := rows[SetsKey(hash)].answer;
      assert rows[SetsKey(hash)] == SetsBody(Sets(answer.id, answer.content));
      if patchClient {
        assert rows[IdKey(hash)] == Number(rows[IdKey(hash)].n);
      }
    }
  }

  /** Upstream gives everything this game needs. */
  predicate Obtainable(w: World, hash: string, patchClient: bool) {
    w.sets(hash).Sets? && w.sets(hash).id > 0 && (patchClient ==> w.patch(w.sets(hash).id).PatchOk?)
  }

  /** Everything upstream gives a game is in the rows. */
  predicate Complete(w: World, rows: Rows, hash: string, patchClient: bool)
    requires w.sets(hash).Sets?
  {
    var id := w.sets(hash).id;
    && SetsKey(hash) in rows && rows[SetsKey(hash)] == SetsBody(w.sets(hash))
    && IdKey(hash) in rows && rows[IdKey(hash)] == Number(id)
    && (patchClient && w.patch(id).PatchOk? ==>
          PatchKey(id) in rows && rows[PatchKey(id)] == Number(w.patch(id).content))
    && (w.unlocks(id).Some? ==> UnlocksKey(id) in rows && rows[UnlocksKey(id)] == Number(w.unlocks(id).value))
    && SessionKey(id) in rows && rows[SessionKey(id)] == Number(w.session(id))
  }

  /**
   * A hashed game is skipped exactly when its rows are there, is asked about exactly
   * when they are not and no mark younger than thirty days says the ROM is unknown,
   * and is then cached exactly when upstream gives all of it, leaving it prepared
   * and complete.
   */
  lemma PreparedExact(w: World, g: Game, c: Cache, now: int)
    requires Hashed(w, g)
    ensures var d, h := Decide(w, g, c.rows, Known(g, c, now)), g.hash.value;
            var there, unknown := Prepared(c.rows, h, g.patchClient), h in c.marks && now - c.marks[h] < 2_592_000;
            && (d.outcome.status == Skipped <==> there)
            && (there ==> d.rows == c.rows && !d.mark)
            && (d.asked == [] <==> there || unknown)
            && |d.asked| <= 3 && (d.asked != [] && w.sets(h).NoAnswer? ==> d.asked == [AskSets(h), AskAgain(h)])
            && (d.outcome.status == CachedNow <==> d.asked != [] && Obtainable(w, h, g.patchClient))
            && (d.outcome.status == CachedNow ==>
                  Prepared(d.rows, h, g.patchClient) && Complete(w, d.rows, h, g.patchClient))
  {
    var h := g.hash.value;
    CachedIsPrepared(c.rows, h, g.patchClient);
    if Obtainable(w, h, g.patchClient) {
      WrittenIsComplete(w, c.rows, h, g.patchClient);
    }
    hide AlreadyCached, Prepared, Writes, Complete;
  }

  /** Upstream refuses the account. */
  predicate Refuses(w: World, hash: string, patchClient: bool) {
    match w.sets(hash)
    case NoAnswer(why) => why == AuthRefused
    case NotJson(_) => false
    case Rejected(auth, _) => auth
    case Sets(id, _) => id > 0 && patchClient && w.patch(id).PatchRefused?
  }

  /** Upstream does not know the ROM. */
  predicate Unknown(w: World, hash: string) {
    w.sets(hash) == NoAnswer(UnknownRom) || (w.sets(hash).Sets? && w.sets(hash).id <= 0)
  }

  /**
   * What else asking can lead to: a mark and "unsupported" exactly for a ROM upstream
   * does not know, an end of the run exactly for a refused account, "failed" for
   * anything else that is not all of it.
   */
  lemma AskedExact(w: World, g: Game, c: Cache, now: int)
    requires Hashed(w, g) && Decide(w, g, c.rows, Known(g, c, now)).asked != []
    ensures var d, h := Decide(w, g, c.rows, Known(g, c, now)), g.hash.value;
            && (d.mark <==> Unknown(w, h)) && (d.outcome.status == Unsupported <==> Unknown(w, h))
            && (d.outcome.auth <==> Refuses(w, h, g.patchClient))
            && (d.outcome.status == Failed <==> !Unknown(w, h) && !Obtainable(w, h, g.patchClient))
            && After(w, g, c, now).marks == if Unknown(w, h) then c.marks[h := now] else c.marks
  {
  }

  /** A game that does not get as far as a hash sends nothing and changes nothing; its outcome names the first thing missing. */
  lemma UnhashedExact(w: World, g: Game, rows: Rows, known: bool)
    requires !Hashed(w, g)
    ensures var d := Decide(w, g, rows, known);
            && d.asked == [] && d.rows == rows && !d.mark && !d.outcome.auth
            && (d.outcome.status == Failed <==> !w.hasher)
            && (d.outcome.status == Missing <==> w.hasher && !(g.present && g.complete))
            && (d.outcome.status == Unsupported <==> w.hasher && g.present && g.complete)
  {
  }

  lemma WrittenIsComplete(w: World, rows: Rows, h: string, patchClient: bool)
    requires Obtainable(w, h, patchClient)
    ensures Complete(w, rows + Writes(w, h, patchClient), h, patchClient)
    ensures Prepared(rows + Writes(w, h, patchClient), h, patchClient)
  {
    var after, id := rows + Writes(w, h, patchClient), w.sets(h).id;
    assert Complete(w, after, h, patchClient);
    assert after[SetsKey(h)] == SetsBody(Sets(id, w.sets(h).content));
    assert patchClient ==> id > 0 && after[IdKey(h)] == Number(id) && PatchKey(id) in after;
  }

  // ---- Failed games are asked about again ----

  lemma FailedAsked(w: World, g: Game, v: View)
    requires Hashed(w, g) && See(w, g, v).outcome.status == Failed
    ensures !Quiet(w, g, v) && g.hash.value !in v.freshMarks && !Marks(w, g.hash.value)
    ensures g.hash.value !in Next(w, g, v).freshMarks
  {
  }

  lemma {:induction false} StaysUnmarked(w: World, games: seq<Game>, hash: string, v: View)
    requires hash !in v.freshMarks && !Marks(w, hash)
    ensures hash !in RunView(w, games, v).freshMarks
  {
    if games != [] {
      var next := Next(w, games[0], v);
      assert hash !in next.freshMarks;
      hide See, Next;
      StaysUnmarked(w, games[1..], hash, next);
    }
  }

  lemma {:induction false} FailedUnmarked(w: World, games: seq<Game>, i: nat, v: View)
    requires Clean(w, games, v) && i < |games| && Hashed(w, games[i])
    requires OutcomesView(w, games, v)[i].status == Failed
    ensures games[i].hash.value !in RunView(w, games, v).freshMarks
    decreases i
  {
    hide See, Next, Marks;
    if i == 0 {
      FailedAsked(w, games[0], v);
      StaysUnmarked(w, games[1..], games[0].hash.value, Next(w, games[0], v));
    } else {
      FailedUnmarked(w, games[1..], i - 1, Next(w, games[0], v));
    }
  }

  lemma UnmarkedAsks(w: World, g: Game, v: View)
    requires Hashed(w, g) && g.hash.value !in v.freshMarks
    ensures See(w, g, v).asked == [] <==> Prepared(v.rows, g.hash.value, g.patchClient)
  {
    CachedIsPrepared(v.rows, g.hash.value, g.patchClient);
    hide AlreadyCached, Prepared;
  }

  /** After a cancelled attempt the next run asks about a hashed game that failed, exactly unless its rows are there by now. */
  lemma FailedAsksExact(
      w: World, games: seq<Game>, c: Cache, first: Attempt, again: int -> int, from: int, to: int, i: nat)
    requires NothingExpires(c, from, to)
    requires forall k :: 0 <= k < |games| ==> from <= first.clock(k) <= to && from <= again(k) <= to
    requires var r := RunFrom(w, games, c, first.clock, first.cut, 0);
             r.state == Cancelled && i < |r.outcomes| && r.outcomes[i].status == Failed && Hashed(w, games[i])
    ensures var r := RunFrom(w, games, c, first.clock, first.cut, 0);
            var asked := RunFrom(w, games, r.cache, again, |games| + 1, 0).asked;
            && i < |asked|
            && (asked[i] != [] <==> !Prepared(r.cache.rows, games[i].hash.value, games[i].patchClient))
  {
    hide RunFrom, RunView, Clean, NothingExpires, Reached, Prepared, Hashed, See, Settled, AskedView, OutcomesView;
    RunInView(w, games, c, first.clock, first.cut, 0, from, to);
    WholeReached(games, first.cut);
    var r := RunFrom(w, games, c, first.clock, first.cut, 0);
    RunInView(w, games, r.cache, again, |games| + 1, 0, from, to);
    var j, v := Min(first.cut, |games|), ViewOf(c, to);
    AllSettled(w, games[..j], v);
    FailedUnmarked(w, games[..j], i, v);
    SettledAsks(w, games[..j], games[j..], i, RunView(w, games[..j], v));
    assert games == games[..j] + games[j..];
    UnmarkedAsks(w, games[i], RunView(w, games[..j], v));
  }

  // ---- A game whose patch is not to be had ----

  /** A patch client upstream knows, without a patch to be had. */
  predicate Unpatched(w: World, g: Game) {
    && Hashed(w, g) && g.patchClient
    && w.sets(g.hash.value).Sets? && w.sets(g.hash.value).id > 0 && !w.patch(w.sets(g.hash.value).id).PatchOk?
  }

  /** The rows such a game leaves, whoever writes next: its answer, its id, and a patch exactly if one was there before. */
  ghost predicate LeftBy(w: World, g: Game, rows: Rows, had: bool)
    requires Unpatched(w, g)
  {
    var h, id := g.hash.value, w.sets(g.hash.value).id;
    && SetsKey(h) in rows && rows[SetsKey(h)] == SetsBody(w.sets(h))
    && IdKey(h) in rows && rows[IdKey(h)] == Number(id)
    && (PatchKey(id) in rows <==> had)
  }

  lemma LeftIsPrepared(w: World, g: Game, rows: Rows, had: bool)
    requires Unpatched(w, g) && LeftBy(w, g, rows, had)
    ensures Prepared(rows, g.hash.value, g.patchClient) <==> had
  {
    var h, id := g.hash.value, w.sets(g.hash.value).id;
    assert rows[SetsKey(h)] == SetsBody(Sets(id, w.sets(h).content));
    if had {
      assert rows[IdKey(h)] == Number(id) && PatchKey(id) in rows;
    }
  }

  lemma WritesNoPatch(w: World, hash: string, patchClient: bool, id: int)
    requires !w.patch(id).PatchOk?
    ensures PatchKey(id) !in Writes(w, hash, patchClient)
  {
    hide Writes;
    if PatchKey(id) in Writes(w, hash, patchClient) {
      WritesTrue(w, hash, patchClient, PatchKey(id));
      assert false;
    }
  }

  lemma NextLeaves(w: World, h: Game, g: Game, v: View, had: bool)
    requires Unpatched(w, g) && LeftBy(w, g, v.rows, had)
    ensures LeftBy(w, g, Next(w, h, v).rows, had)
  {
    hide Writes;
    if !Quiet(w, h, v) {
      var writes := Writes(w, h.hash.value, h.patchClient);
      WritesNoPatch(w, h.hash.value, h.patchClient, w.sets(g.hash.value).id);
      forall key | key in writes && (key == SetsKey(g.hash.value) || key == IdKey(g.hash.value))
        ensures Truth(w, key) == Some(writes[key])
      {
        WritesTrue(w, h.hash.value, h.patchClient, key);
      }
    }
  }

  lemma AskedLeaves(w: World, g: Game, v: View)
    requires Unpatched(w, g) && !Quiet(w, g, v)
    ensures LeftBy(w, g, Next(w, g, v).rows, PatchKey(w.sets(g.hash.value).id) in v.rows)
  {
  }

  lemma {:induction false} RunLeaves(w: World, games: seq<Game>, g: Game, v: View, had: bool)
    requires Unpatched(w, g) && LeftBy(w, g, v.rows, had)
    ensures LeftBy(w, g, RunView(w, games, v).rows, had)
  {
    hide See, Next, LeftBy, Unpatched;
    if games != [] {
      NextLeaves(w, games[0], g, v, had);
      RunLeaves(w, games[1..], g, Next(w, games[0], v), had);
    }
  }

  /** No game of a run brings a patch that is not to be had. */
  lemma NextBringsNone(w: World, h: Game, v: View, id: int)
    requires !w.patch(id).PatchOk?
    ensures PatchKey(id) in Next(w, h, v).rows <==> PatchKey(id) in v.rows
  {
    hide Writes;
    if !Quiet(w, h, v) {
      WritesNoPatch(w, h.hash.value, h.patchClient, id);
    }
  }

  lemma {:induction false} FailedLeaves(w: World, games: seq<Game>, i: nat, v: View)
    requires Clean(w, games, v) && i < |games| && Unpatched(w, games[i])
    requires OutcomesView(w, games, v)[i].status == Failed
    ensures LeftBy(w, games[i], RunView(w, games, v).rows, PatchKey(w.sets(games[i].hash.value).id) in v.rows)
    decreases i
  {
    var g, id := games[i], w.sets(games[i].hash.value).id;
    if i == 0 {
      FailedAsked(w, g, v);
      AskedLeaves(w, g, v);
      hide See, Next, LeftBy;
      RunLeaves(w, games[1..], g, Next(w, g, v), PatchKey(id) in v.rows);
    } else {
      NextBringsNone(w, games[0], v, id);
      hide See, Next, LeftBy;
      FailedLeaves(w, games[1..], i - 1, Next(w, games[0], v));
    }
  }

  /**
   * A patch client whose patch could not be had is asked about again by the next run,
   * exactly unless the cache held that patch before: nothing in the attempt makes it
   * look prepared.
   */
  lemma UnpatchedAsksExact(
      w: World, games: seq<Game>, c: Cache, first: Attempt, again: int -> int, from: int, to: int, i: nat)
    requires NothingExpires(c, from, to)
    requires forall k :: 0 <= k < |games| ==> from <= first.clock(k) <= to && from <= again(k) <= to
    requires var r := RunFrom(w, games, c, first.clock, first.cut, 0);
             r.state == Cancelled && i < |r.outcomes| && r.outcomes[i].status == Failed && Unpatched(w, games[i])
    ensures var r := RunFrom(w, games, c, first.clock, first.cut, 0);
            var asked := RunFrom(w, games, r.cache, again, |games| + 1, 0).asked;
            i < |asked| && (asked[i] != [] <==> PatchKey(w.sets(games[i].hash.value).id) !in c.rows)
  {
    FailedAsksExact(w, games, c, first, again, from, to, i);
    hide RunFrom, RunView, Clean, NothingExpires, Reached, Prepared, LeftBy, AskedView, OutcomesView;
    RunInView(w, games, c, first.clock, first.cut, 0, from, to);
    WholeReached(games, first.cut);
    var j, r := Min(first.cut, |games|), RunFrom(w, games, c, first.clock, first.cut, 0);
    FailedLeaves(w, games[..j], i, ViewOf(c, to));
    LeftIsPrepared(w, games[i], r.cache.rows, PatchKey(w.sets(games[i].hash.value).id) in c.rows);
  }

  // ---- A refused patch ends the run, and is asked about again ----

  lemma RefusedKeepsSettled(w: World, h: Game, g: Game, v: View)
    requires Settled(w, g, v) && Unpatched(w, h)
    ensures Settled(w, g, Next(w, h, v))
  {
    hide Decide, Next, Overwrites, Writes, Marks, Verdict, AlreadyCached;
    SettledCases(w, g, v);
    if Quiet(w, h, v) {
      QuietIsSettled(w, h, v);
    } else if Quiet(w, g, v) {
      UnpatchedOverwritesNone(w, h, g);
      QuietAfter(w, h, g, v);
      QuietIsSettled(w, g, Next(w, h, v));
    } else {
      AskerAfter(w, h, v);
      HoldsAfter(w, v.rows, g.hash.value, g.patchClient, h.hash.value, h.patchClient);
      HeldIsSettled(w, g, Next(w, h, v));
    }
  }

  lemma UnpatchedOverwritesNone(w: World, h: Game, g: Game)
    requires Unpatched(w, h)
    ensures !Overwrites(w, h, g)
  {
  }

  /** Where a run that was stopped stopped. */
  lemma {:induction false} StopsAt(w: World, games: seq<Game>, v: View) returns (i: nat)
    requires !Clean(w, games, v)
    ensures i < |games| && |OutcomesView(w, games, v)| == i + 1 && Clean(w, games[..i], v)
    ensures OutcomesView(w, games, v)[i] == See(w, games[i], RunView(w, games[..i], v)).outcome
    ensures RunView(w, games, v) == Next(w, games[i], RunView(w, games[..i], v))
  {
    hide See, Next;
    if See(w, games[0], v).outcome.auth {
      i := 0;
      assert games[..0] == [];
    } else {
      i := StopsAt(w, games[1..], Next(w, games[0], v));
      i := i + 1;
      assert games[..i][1..] == games[1..][..i - 1] && games[..i][0] == games[0];
    }
  }

  lemma {:induction false} SettledAsksNext(w: World, done: seq<Game>, rest: seq<Game>, v: View)
    requires rest != [] && forall g :: g in done ==> Settled(w, g, v)
    ensures |done| < |AskedView(w, done + rest, v)|
    ensures AskedView(w, done + rest, v)[|done|] == See(w, rest[0], v).asked
  {
    hide See, Next;
    if done == [] {
      assert done + rest == rest;
    } else {
      assert done[0] in done && (done + rest)[1..] == done[1..] + rest;
      SettledAsksNext(w, done[1..], rest, v);
    }
  }

  lemma {:induction false} LeadBringsNone(w: World, games: seq<Game>, v: View, id: int)
    requires !w.patch(id).PatchOk?
    ensures PatchKey(id) in RunView(w, games, v).rows <==> PatchKey(id) in v.rows
  {
    if games != [] {
      NextBringsNone(w, games[0], v, id);
      hide See, Next;
      LeadBringsNone(w, games[1..], Next(w, games[0], v), id);
    }
  }

  lemma RefusedView(w: World, games: seq<Game>, reached: seq<Game>, v: View, i: nat)
    requires reached <= games && !Clean(w, reached, v) && i + 1 == |OutcomesView(w, reached, v)|
    requires Unpatched(w, games[i]) && OutcomesView(w, reached, v)[i].status == Failed
    ensures var asked := AskedView(w, games, RunView(w, reached, v));
            i < |asked| && (asked[i] != [] <==> PatchKey(w.sets(games[i].hash.value).id) !in v.rows)
  {
    hide See, Next, Settled, RunView, Clean, AskedView, OutcomesView, LeftBy, Prepared, Unpatched, Quiet;
    var at := StopsAt(w, reached, v);
    UnpatchedFacts(w, games[i]);
    assert at == i;
    var done, g, before := games[..i], games[i], RunView(w, games[..i], v);
    assert reached[..i] == done && reached[i] == g;
    var after, id := Next(w, g, before), w.sets(g.hash.value).id;
    AllSettled(w, done, v);
    forall d | d in done
      ensures Settled(w, d, after)
    {
      RefusedKeepsSettled(w, g, d, before);
    }
    assert games == done + games[i..];
    SettledAsksNext(w, done, games[i..], after);
    FailedAsked(w, g, before);
    UnmarkedAsks(w, g, after);
    LeadBringsNone(w, done, v, id);
    AskedLeaves(w, g, before);
    LeftIsPrepared(w, g, after.rows, PatchKey(id) in before.rows);
  }

  lemma UnpatchedFacts(w: World, g: Game)
    requires Unpatched(w, g)
    ensures Hashed(w, g) && w.sets(g.hash.value).Sets? && !w.patch(w.sets(g.hash.value).id).PatchOk?
  {
  }

  /** A run that ended at a refused patch asks about that game again, exactly unless the cache held its patch before. */
  lemma RefusedAsksExact(
      w: World, games: seq<Game>, c: Cache, first: Attempt, again: int -> int, from: int, to: int, i: nat)
    requires NothingExpires(c, from, to)
    requires forall k :: 0 <= k < |games| ==> from <= first.clock(k) <= to && from <= again(k) <= to
    requires var r := RunFrom(w, games, c, first.clock, first.cut, 0);
             r.state == Stopped && i + 1 == |r.outcomes| && r.outcomes[i].status == Failed && Unpatched(w, games[i])
    ensures var r := RunFrom(w, games, c, first.clock, first.cut, 0);
            var asked := RunFrom(w, games, r.cache, again, |games| + 1, 0).asked;
            i < |asked| && (asked[i] != [] <==> PatchKey(w.sets(games[i].hash.value).id) !in c.rows)
  {
    hide RunFrom, RunView, Clean, NothingExpires, Reached, AskedView, OutcomesView, Unpatched;
    RunInView(w, games, c, first.clock, first.cut, 0, from, to);
    WholeReached(games, first.cut);
    var r := RunFrom(w, games, c, first.clock, first.cut, 0);
    RunInView(w, games, r.cache, again, |games| + 1, 0, from, to);
    RefusedView(w, games, games[..Min(first.cut, |games|)], ViewOf(c, to), i);
  }
}
