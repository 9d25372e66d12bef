/**
 * Preparing games ahead of time. The response cache is the only resume state:
 * a game is skipped because its rows are there, or because a mark not older
 * than the time-to-live says the ROM is unknown. Rows are those of one account.
 */
module Precache {
  import opened Basics

  datatype Key = SetsKey(hash: string) | IdKey(hash: string) | PatchKey(id: int) | UnlocksKey(id: int) | SessionKey(id: int)

  datatype Failure = UnknownRom | AuthRefused | OtherFailure | Transient

  /** What asking for a hash's achievement sets gives; `stored` says whether an unusable body was still stored. */
  datatype SetsAnswer =
    | NoAnswer(why: Failure)
    | NotJson(stored: bool)
    | Rejected(auth: bool, stored: bool)
    | Sets(id: int, content: int)

  datatype PatchAnswer = PatchRefused | PatchFailed | PatchOk(content: int)

  datatype Value = SetsBody(answer: SetsAnswer) | Number(n: int)

  type Rows = map<Key, Value>

  datatype Cache = Cache(rows: Rows, marks: map<string, int>)

  /** Upstream, whose answers depend only on the request, and the hasher. */
  datatype World = World(
    hasher: bool, sets: string -> SetsAnswer, patch: int -> PatchAnswer, unlocks: int -> Option<int>, session: int -> int)

  datatype Game = Game(present: bool, complete: bool, console: bool, hash: Option<string>, patchClient: bool)

  datatype Status = CachedNow | Skipped | Missing | Unsupported | Failed

  /** `auth` marks the failures whose detail begins with "auth:". */
  datatype Outcome = Outcome(status: Status, auth: bool)

  datatype Request = AskSets(hash: string) | AskAgain(hash: string) | AskPatch(id: int) | AskUnlocks(id: int)

  /** One game's effect: the rows after it, whether the ROM was marked unknown, the outcome, the requests sent. */
  datatype Decision = Decision(rows: Rows, mark: bool, outcome: Outcome, asked: seq<Request>)

  function IdInBody(v: Value): int {
    if v.SetsBody? && v.answer.Sets? then v.answer.id else 0
  }

  function IdInRow(v: Value): int {
    if v.Number? then v.n else 0
  }

  /** `_already_cached`. */
  predicate AlreadyCached(rows: Rows, hash: string, patchClient: bool) {
    && SetsKey(hash) in rows && IdInBody(rows[SetsKey(hash)]) > 0
    && (patchClient ==>
          IdKey(hash) in rows && IdInRow(rows[IdKey(hash)]) > 0 && PatchKey(IdInRow(rows[IdKey(hash)])) in rows)
  }

  const TTL: int := 30 * 24 * 3600

  /** `_known_unknown`. */
  predicate KnownUnknown(marks: map<string, int>, hash: string, now: int) {
    hash in marks && now - marks[hash] < TTL
  }

  /** The game reaches the point where its rows decide: a hasher, a file, a console, a hash. */
  predicate Hashed(w: World, g: Game) {
    w.hasher && g.present && g.complete && g.console && g.hash.Some?
  }

  predicate Silent(w: World, g: Game, rows: Rows, known: bool) {
    !Hashed(w, g) || AlreadyCached(rows, g.hash.value, g.patchClient) || known
  }

  /** What a game that is asked about writes. */
  function Writes(w: World, hash: string, patchClient: bool): Rows {
    var answer := w.sets(hash);
    match answer
    case NoAnswer(_) => map[]
    case NotJson(stored) => if stored then map[SetsKey(hash) := SetsBody(answer)] else map[]
    case Rejected(_, stored) => if stored then map[SetsKey(hash) := SetsBody(answer)] else map[]
    case Sets(id, _) =>
      map[SetsKey(hash) := SetsBody(answer)] + (if id <= 0 then map[] else GameRows(w, hash, id, patchClient))
  }

  /** The rows a game upstream knows leaves beside its achievement sets. */
  function GameRows(w: World, hash: string, id: int, patchClient: bool): Rows {
    map[IdKey(hash) := Number(id)]
    + (if !patchClient then PlayRows(w, id)
       else if w.patch(id).PatchOk? then map[PatchKey(id) := Number(w.patch(id).content)] + PlayRows(w, id)
       else map[])
  }

  /** The rows `cache_unlocks` and `cache_session` leave. */
  function PlayRows(w: World, id: int): Rows {
    (if w.unlocks(id).Some? then map[UnlocksKey(id) := Number(w.unlocks(id).value)] else map[])
    + map[SessionKey(id) := Number(w.session(id))]
  }

  predicate Marks(w: World, hash: string) {
    match w.sets(hash)
    case NoAnswer(why) => why == UnknownRom
    case Sets(id, _) => id <= 0
    case _ => false
  }

  function Verdict(w: World, hash: string, patchClient: bool): Outcome {
    match w.sets(hash)
    case NoAnswer(why) => Outcome(if why == UnknownRom then Unsupported else Failed, why == AuthRefused)
    case NotJson(_) => Outcome(Failed, false)
    case Rejected(auth, _) => Outcome(Failed, auth)
    case Sets(id, _) =>
      if id <= 0 then Outcome(Unsupported, false)
      else if patchClient && w.patch(id).PatchRefused? then Outcome(Failed, true)
      else if patchClient && w.patch(id).PatchFailed? then Outcome(Failed, false)
      else Outcome(CachedNow, false)
  }

  function Requests(w: World, hash: string, patchClient: bool): (asked: seq<Request>)
    ensures asked != []
  {
    match w.sets(hash)
    case NoAnswer(_) => [AskSets(hash), AskAgain(hash)]
    case NotJson(_) => [AskSets(hash)]
    case Rejected(_, _) => [AskSets(hash)]
    case Sets(id, _) =>
      if id <= 0 then [AskSets(hash)]
      else [AskSets(hash)]
           + ((if patchClient then [AskPatch(id)] else [])
              + (if patchClient && !w.patch(id).PatchOk? then [] else [AskUnlocks(id)]))
  }

  function EarlyOutcome(w: World, g: Game, rows: Rows): Outcome {
    if !w.hasher then Outcome(Failed, false)
    else if !g.present || !g.complete then Outcome(Missing, false)
    else if !g.console || g.hash.None? then Outcome(Unsupported, false)
    else if AlreadyCached(rows, g.hash.value, g.patchClient) then Outcome(Skipped, false)
    else Outcome(Unsupported, false)
  }

  function Decide(w: World, g: Game, rows: Rows, known: bool): Decision {
    if Silent(w, g, rows, known) then Decision(rows, false, EarlyOutcome(w, g, rows), [])
    else
      var h, p := g.hash.value, g.patchClient;
      Decision(rows + Writes(w, h, p), Marks(w, h), Verdict(w, h, p), Requests(w, h, p))
  }

  function Known(g: Game, c: Cache, now: int): bool {
    g.hash.Some? && KnownUnknown(c.marks, g.hash.value, now)
  }

  /** The cache after one game at time `now`. */
  function After(w: World, g: Game, c: Cache, now: int): Cache {
    var d := Decide(w, g, c.rows, Known(g, c, now));
    Cache(d.rows, if d.mark && g.hash.Some? then c.marks[g.hash.value := now] else c.marks)
  }

  datatype RunState = Done | Cancelled | Stopped

  datatype Report = Report(cache: Cache, outcomes: seq<Outcome>, asked: seq<seq<Request>>, state: RunState)

  /**
   * A run over `games` from index `i` on, cancelled at boundary `cut` if it gets
   * that far; `clock(i)` is the time of game `i`.
   */
  function RunFrom(w: World, games: seq<Game>, c: Cache, clock: int -> int, cut: int, i: int): (r: Report)
    requires 0 <= i <= |games|
    ensures |r.outcomes| == |r.asked| <= |games| - i
    decreases |games| - i
  {
    if i == |games| then Report(c, [], [], if cut <= i then Cancelled else Done)
    else if cut <= i then Report(c, [], [], Cancelled)
    else
      var d := Decide(w, games[i], c.rows, Known(games[i], c, clock(i)));
      var after := After(w, games[i], c, clock(i));
      if d.outcome.auth then Report(after, [d.outcome], [d.asked], Stopped)
      else
        var r := RunFrom(w, games, after, clock, cut, i + 1);
        Report(r.cache, [d.outcome] + r.outcomes, [d.asked] + r.asked, r.state)
  }

  // ---- Pacing ----

  /** The waits after the first `n` games of a longer run: each delay, and three seconds more every fifth. */
  function Waited(n: nat, delay: int -> real): real {
    if n == 0 then 0.0 else Waited(n - 1, delay) + delay(n) + (if n % 5 == 0 then 3.0 else 0.0)
  }

  lemma {:induction false} PacingBound(n: nat, delay: int -> real)
    requires forall i :: 0.5 <= delay(i) <= 1.5
    ensures 0.5 * (n as real) + 3.0 * ((n / 5) as real) <= Waited(n, delay)
    ensures Waited(n, delay) <= 1.5 * (n as real) + 3.0 * ((n / 5) as real)
  {
    if n > 0 {
      PacingBound(n - 1, delay);
      assert n / 5 == (n - 1) / 5 + (if n % 5 == 0 then 1 else 0);
    }
  }

  // ---- The job ----

  /** How many outcomes have a status. */
  function Count(outcomes: seq<Outcome>, status: Status): int {
    if outcomes == [] then 0
    else Count(outcomes[..|outcomes| - 1], status) + (if outcomes[|outcomes| - 1].status == status then 1 else 0)
  }

  class PrecacheJob {
    const world: World
    var rows: Rows
    var marks: map<string, int>
    var processed: int
    var cached: int
    var skipped: int
    var missing: int
    var unsupported: int
    var failed: int
    var outcomes: seq<Outcome>
    var asked: seq<seq<Request>>
    var state: RunState
    var waited: real

    constructor (world: World, cache: Cache)
      ensures this.world == world && Stored() == cache && outcomes == [] && asked == [] && waited == 0.0 && Accounts()
    {
      this.world := world;
      rows, marks := cache.rows, cache.marks;
      processed, cached, skipped, missing, unsupported, failed := 0, 0, 0, 0, 0, 0;
      outcomes, asked, state, waited := [], [], Done, 0.0;
    }

    function Stored(): Cache
      reads this`rows, this`marks
    {
      Cache(rows, marks)
    }

    /** Every counter is the number of outcomes with its status. */
    ghost predicate Accounts()
      reads this`processed, this`cached, this`skipped, this`missing, this`unsupported, this`failed, this`outcomes
    {
      && processed == |outcomes| == cached + skipped + missing + unsupported + failed
      && cached == Count(outcomes, CachedNow) && skipped == Count(outcomes, Skipped)
      && missing == Count(outcomes, Missing) && unsupported == Count(outcomes, Unsupported)
      && failed == Count(outcomes, Failed)
    }

    method Upsert(key: Key, value: Value)
      modifies this`rows
      ensures rows == old(rows)[key := value]
    {
      rows := rows[key := value];
    }

    /** `_prepare_one`, row by row. */
    method PrepareOne(g: Game, now: int) returns (outcome: Outcome, sent: seq<Request>)
      modifies this`rows, this`marks
      ensures Stored() == After(world, g, old(Stored()), now)
      ensures var d := Decide(world, g, old(Stored()).rows, Known(g, old(Stored()), now));
              outcome == d.outcome && sent == d.asked
    {
      sent := [];
      if !world.hasher {
        return Outcome(Failed, false), sent;
      }
      if !g.present {
        return Outcome(Missing, false), sent;
      }
      if !g.complete {
        return Outcome(Missing, false), sent;
      }
      if !g.console || g.hash.None? {
        return Outcome(Unsupported, false), sent;
      }
      var hash := g.hash.value;
      if AlreadyCached(rows, hash, g.patchClient) {
        return Outcome(Skipped, false), sent;
      }
      if KnownUnknown(marks, hash, now) {
        return Outcome(Unsupported, false), sent;
      }
      outcome, sent := Ask(hash, g.patchClient, now);
    }

    /** The part of `_prepare_one` that asks upstream and stores the answers. */
    method Ask(hash: string, patchClient: bool, now: int) returns (outcome: Outcome, sent: seq<Request>)
      modifies this`rows, this`marks
      ensures rows == old(rows) + Writes(world, hash, patchClient)
      ensures marks == if Marks(world, hash) then old(marks)[hash := now] else old(marks)
      ensures outcome == Verdict(world, hash, patchClient) && sent == Requests(world, hash, patchClient)
    {
      hide GameRows;
      var answer := world.sets(hash);
      sent := [AskSets(hash)];
      if answer.NoAnswer? {
        sent := sent + [AskAgain(hash)];
        if answer.why == UnknownRom {
          marks := marks[hash := now];
          return Outcome(Unsupported, false), sent;
        }
        return Outcome(Failed, answer.why == AuthRefused), sent;
      }
      if answer.Sets? || answer.stored {
        Upsert(SetsKey(hash), SetsBody(answer));
      }
      if answer.NotJson? {
        return Outcome(Failed, false), sent;
      }
      if answer.Rejected? {
        return Outcome(Failed, answer.auth), sent;
      }
      var id := answer.id;
      if id <= 0 {
        marks := marks[hash := now];
        return Outcome(Unsupported, false), sent;
      }
      var more;
      outcome, more := AskGame(hash, id, patchClient);
      sent := sent + more;
    }

    method AskGame(hash: string, id: int, patchClient: bool) returns (outcome: Outcome, sent: seq<Request>)
      modifies this`rows
      ensures rows == old(rows) + GameRows(world, hash, id, patchClient)
      ensures outcome == (if patchClient && world.patch(id).PatchRefused? then Outcome(Failed, true)
                          else if patchClient && world.patch(id).PatchFailed? then Outcome(Failed, false)
                          else Outcome(CachedNow, false))
      ensures sent == (if patchClient then [AskPatch(id)] else [])
                      + (if patchClient && !world.patch(id).PatchOk? then [] else [AskUnlocks(id)])
    {
      hide PlayRows;
      Upsert(IdKey(hash), Number(id));
      sent := [];
      if patchClient {
        sent := [AskPatch(id)];
        var answer := world.patch(id);
        if !answer.PatchOk? {
          return Outcome(Failed, answer.PatchRefused?), sent;
        }
        Upsert(PatchKey(id), Number(answer.content));
      }
      sent := sent + [AskUnlocks(id)];
      StorePlay(id);
      outcome := Outcome(CachedNow, false);
    }

    method StorePlay(id: int)
      modifies this`rows
      ensures rows == old(rows) + PlayRows(world, id)
    {
      if world.unlocks(id).Some? {
        Upsert(UnlocksKey(id), Number(world.unlocks(id).value));
      }
      Upsert(SessionKey(id), Number(world.session(id)));
    }

    /** `_record`. */
    method Record(outcome: Outcome)
      requires Accounts()
      modifies this`processed, this`cached, this`skipped, this`missing, this`unsupported, this`failed, this`outcomes
      ensures Accounts() && outcomes == old(outcomes) + [outcome]
    {
      assert (outcomes + [outcome])[..|outcomes|] == outcomes;
      processed := processed + 1;
      outcomes := outcomes + [outcome];
      match outcome.status
      case CachedNow => cached := cached + 1;
      case Skipped => skipped := skipped + 1;
      case Missing => missing := missing + 1;
      case Unsupported => unsupported := unsupported + 1;
      case Failed => failed := failed + 1;
    }

    /** `_run`: the loop over the games, checking for a cancel at every boundary. */
    method Run(games: seq<Game>, clock: int -> int, cut: int, delay: int -> real)
      requires Accounts() && outcomes == [] && asked == [] && waited == 0.0
      modifies this
      ensures Accounts()
      ensures Report(Stored(), outcomes, asked, state) == RunFrom(world, games, old(Stored()), clock, cut, 0)
      ensures state == Done && games != [] ==> waited == Waited(|games| - 1, delay)
    {
      hide *;
      ghost var start, whole := Stored(), RunFrom(world, games, Stored(), clock, cut, 0);
      Opening(world, games, start, clock, cut, delay);
      var i := 0;
      while i < |games| && i < cut
        invariant 0 <= i <= |games| && Accounts()
        invariant whole == Extend(outcomes, asked, RunFrom(world, games, Stored(), clock, cut, i))
        invariant waited == Waited(if 0 < i == |games| then i - 1 else i, delay)
      {
        ghost var before, had, sentSoFar := Stored(), outcomes, asked;
        var outcome, sent := PrepareOne(games[i], clock(i));
        Record(outcome);
        asked := asked + [sent];
        Advance(world, games, before, clock, cut, i, had, sentSoFar);
        if outcome.auth {
          state := Stopped;
          return;
        }
        if i + 1 < |games| {
          waited := waited + delay(i + 1) + (if (i + 1) % 5 == 0 then 3.0 else 0.0);
          WaitStep(i, delay);
        }
        i := i + 1;
      }
      Closing(world, games, Stored(), clock, cut, i, outcomes, asked);
      state := if cut <= i then Cancelled else Done;
    }
  }

  lemma WaitStep(i: nat, delay: int -> real)
    ensures Waited(i + 1, delay) == Waited(i, delay) + delay(i + 1) + (if (i + 1) % 5 == 0 then 3.0 else 0.0)
  {
  }

  lemma Opening(w: World, games: seq<Game>, c: Cache, clock: int -> int, cut: int, delay: int -> real)
    ensures RunFrom(w, games, c, clock, cut, 0) == Extend([], [], RunFrom(w, games, c, clock, cut, 0))
    ensures Waited(0, delay) == 0.0
  {
    hide RunFrom;
  }

  lemma Advance(
      w: World, games: seq<Game>, c: Cache, clock: int -> int, cut: int, i: int,
      outcomes: seq<Outcome>, asked: seq<seq<Request>>)
    requires 0 <= i < |games| && i < cut
    ensures var d := Decide(w, games[i], c.rows, Known(games[i], c, clock(i)));
            var after := After(w, games[i], c, clock(i));
            Extend(outcomes, asked, RunFrom(w, games, c, clock, cut, i))
            == if d.outcome.auth then Report(after, outcomes + [d.outcome], asked + [d.asked], Stopped)
               else Extend(outcomes + [d.outcome], asked + [d.asked], RunFrom(w, games, after, clock, cut, i + 1))
  {
    hide Decide, After, Known;
  }

  lemma Closing(
      w: World, games: seq<Game>, c: Cache, clock: int -> int, cut: int, i: int,
      outcomes: seq<Outcome>, asked: seq<seq<Request>>)
    requires 0 <= i <= |games| && (i == |games| || cut <= i)
    ensures Extend(outcomes, asked, RunFrom(w, games, c, clock, cut, i))
            == Report(c, outcomes, asked, if cut <= i then Cancelled else Done)
  {
    hide Decide, After, Known;
    assert outcomes + [] == outcomes && asked + [] == asked;
  }

  /** A report with more outcomes in front. */
  function Extend(outcomes: seq<Outcome>, asked: seq<seq<Request>>, r: Report): Report {
    Report(r.cache, outcomes + r.outcomes, asked + r.asked, r.state)
  }
}
