/** The hunk cache against a reader that fetches the hunk afresh for every sector. */
module DiscCache {
  import opened Basics
  import opened DiscLayout
  import opened DiscReader

  /** A sector's user data read straight from the image; empty outside the track or when the hunk cannot be read. */
  function Fresh(chd: Chd, t: TrackInfo, sector: int): (d: seq<Byte>)
    requires ValidChd(chd) && ValidTrack(t)
    ensures d == [] || |d| == t.geometry.dataSize
  {
    if !InTrack(t, sector) then [] else
    var frame := FrameOf(t, sector);
    match chd.read(HunkOf(chd, frame))
    case None => []
    case Some(b) => UserData(t.geometry, b, SlotOf(chd, frame))
  }

  function FreshRead(chd: Chd, t: TrackInfo, sector: int, want: int): (d: seq<Byte>)
    requires ValidChd(chd) && ValidTrack(t) && 0 <= want
    ensures |d| <= want
    decreases want
  {
    if want == 0 then [] else
    var one := Take(Fresh(chd, t, sector), want);
    if one == [] then [] else one + FreshRead(chd, t, Wrap(sector + 1), want - |one|)
  }

  predicate Addressed(reqs: seq<Request>) {
    forall r :: r in reqs ==> IsU32(r.sector) && 0 <= r.bytes
  }

  /** Every request of a session on one handle, the cache carried from one to the next. */
  function Session(chd: Chd, t: TrackInfo, c: Cache, reqs: seq<Request>): (answers: seq<seq<Byte>>)
    requires Ready(chd, t, c) && Addressed(reqs)
    ensures |answers| == |reqs|
    decreases |reqs|
  {
    if reqs == [] then [] else
    var one := ReadMany(chd, t, c, reqs[0].sector, reqs[0].bytes);
    [one.data] + Session(chd, t, one.cache, reqs[1..])
  }

  function FreshSession(chd: Chd, t: TrackInfo, reqs: seq<Request>): (answers: seq<seq<Byte>>)
    requires ValidChd(chd) && ValidTrack(t) && Addressed(reqs)
    ensures |answers| == |reqs|
    decreases |reqs|
  {
    if reqs == [] then [] else
    [FreshRead(chd, t, reqs[0].sector, reqs[0].bytes)] + FreshSession(chd, t, reqs[1..])
  }

  /** What the cache claims: unless it is the -1 it starts with, the buffer is that hunk. */
  ghost predicate Truthful(chd: Chd, c: Cache) {
    c.cached != -1 ==> -0x8000_0000 <= c.cached < 0x8000_0000 && chd.read(Wrap(c.cached)) == Some(c.buf)
  }

  /** No failed read of a hunk the track uses disturbs the buffer. */
  ghost predicate FailureKeepsBuffer(chd: Chd, t: TrackInfo)
    requires ValidChd(chd)
  {
    forall s: int, b: seq<Byte> :: IsU32(s) && InTrack(t, s) ==>
      (chd.read(HunkOf(chd, FrameOf(t, s))).None? ==> chd.residue(HunkOf(chd, FrameOf(t, s)), b) == b)
  }

  lemma CastExact(hunk: int)
    requires IsU32(hunk)
    ensures Wrap(AsInt32(hunk)) == hunk
    ensures -0x8000_0000 <= AsInt32(hunk) < 0x8000_0000
    ensures AsInt32(hunk) == -1 <==> hunk == 0xFFFF_FFFF
  {
  }

  /** A fetch leaves the cache truthful exactly when it is not a failure that disturbs a claimed buffer. */
  lemma FetchTruthful(chd: Chd, c: Cache, hunk: int)
    requires Truthful(chd, c) && IsU32(hunk)
    ensures var f := Fetch(chd, c, hunk);
            Truthful(chd, f.cache) <==>
            !(AsInt32(hunk) != c.cached && chd.read(hunk).None? && c.cached != -1 && chd.residue(hunk, c.buf) != c.buf)
  {
    CastExact(hunk);
    hide Wrap, AsInt32;
  }

  /** A fetch that succeeds leaves the wanted hunk in the buffer, unless the hunk's number casts to the empty mark. */
  lemma FetchDelivers(chd: Chd, c: Cache, hunk: int)
    requires Truthful(chd, c) && IsU32(hunk) && (hunk == 0xFFFF_FFFF ==> c.cached != -1)
    ensures var f := Fetch(chd, c, hunk);
            (f.ok <==> chd.read(hunk).Some?) && (f.ok ==> chd.read(hunk) == Some(f.cache.buf))
  {
    CastExact(hunk);
    hide Wrap, AsInt32;
  }

  /** No sector of the track lives in hunk 2^32 - 1, whose number casts to the empty mark -1. */
  ghost predicate NoSentinel(chd: Chd, t: TrackInfo)
    requires ValidChd(chd)
  {
    forall s: int :: IsU32(s) && InTrack(t, s) ==> HunkOf(chd, FrameOf(t, s)) != 0xFFFF_FFFF
  }

  /** Two frames to a hunk, or a track that ends below frame 2^32 - 1, is enough. */
  lemma NoSentinelWhen(chd: Chd, t: TrackInfo)
    requires ValidChd(chd) && ValidTrack(t)
    requires FramesPerHunk(chd) >= 2 || t.chdStart + t.frames < 0x1_0000_0000
    ensures NoSentinel(chd, t)
  {
    forall s: int | IsU32(s) && InTrack(t, s)
      ensures HunkOf(chd, FrameOf(t, s)) != 0xFFFF_FFFF
    {
      var frame := FrameOf(t, s);
      if FramesPerHunk(chd) < 2 {
        WrapFits(t.chdStart + (s - t.absStart));
        assert frame < 0xFFFF_FFFF;
      }
    }
  }

  lemma CopyRefines(chd: Chd, t: TrackInfo, c: Cache, sector: int, want: int)
    requires Ready(chd, t, c) && Truthful(chd, c) && IsU32(sector) && 0 <= want
    requires InTrack(t, sector) ==> HunkOf(chd, FrameOf(t, sector)) != 0xFFFF_FFFF || c.cached != -1
    ensures CopyOne(chd, t, c, sector, want).data == Take(Fresh(chd, t, sector), want)
    ensures FailureKeepsBuffer(chd, t) || CopyOne(chd, t, c, sector, want).data != [] ==>
              Truthful(chd, CopyOne(chd, t, c, sector, want).cache)
  {
    if InTrack(t, sector) {
      var hunk := HunkOf(chd, FrameOf(t, sector));
      FetchDelivers(chd, c, hunk);
      FetchTruthful(chd, c, hunk);
      hide Fetch, HunkOf, SlotOf, FrameOf, UserData, AsInt32;
    }
  }

  /** One request gives what is there, whatever failed reads leave behind: it ends at the first of them. */
  lemma {:induction false} ReadRefines(chd: Chd, t: TrackInfo, c: Cache, sector: int, want: int)
    requires Ready(chd, t, c) && Truthful(chd, c) && IsU32(sector) && 0 <= want
    requires NoSentinel(chd, t)
    ensures ReadMany(chd, t, c, sector, want).data == FreshRead(chd, t, sector, want)
    ensures FailureKeepsBuffer(chd, t) ==> Truthful(chd, ReadMany(chd, t, c, sector, want).cache)
    decreases want
  {
    hide CopyOne, Fresh, Truthful, FailureKeepsBuffer, NoSentinel, Wrap, Take, ValidTrack, ValidChd;
    if want > 0 {
      SentinelFree(chd, t, sector);
      CopyRefines(chd, t, c, sector, want);
      var one := CopyOne(chd, t, c, sector, want);
      if one.data != [] {
        ReadRefines(chd, t, one.cache, Wrap(sector + 1), want - |one.data|);
      }
    }
  }

  lemma SentinelFree(chd: Chd, t: TrackInfo, sector: int)
    requires ValidChd(chd) && NoSentinel(chd, t) && IsU32(sector)
    ensures InTrack(t, sector) ==> HunkOf(chd, FrameOf(t, sector)) != 0xFFFF_FFFF
  {
  }

  /** Over every session on one handle the cache is invisible, if failed reads leave the buffer alone. */
  lemma {:induction false} SessionRefines(chd: Chd, t: TrackInfo, c: Cache, reqs: seq<Request>)
    requires Ready(chd, t, c) && Truthful(chd, c) && Addressed(reqs)
    requires NoSentinel(chd, t) && FailureKeepsBuffer(chd, t)
    ensures Session(chd, t, c, reqs) == FreshSession(chd, t, reqs)
    decreases |reqs|
  {
    hide NoSentinel, FailureKeepsBuffer, Truthful, ReadMany, FreshRead;
    if reqs != [] {
      ReadRefines(chd, t, c, reqs[0].sector, reqs[0].bytes);
      var one := ReadMany(chd, t, c, reqs[0].sector, reqs[0].bytes);
      SessionRefines(chd, t, one.cache, reqs[1..]);
    }
  }

  ghost predicate Faithful(chd: Chd, t: TrackInfo, buf: seq<Byte>, reqs: seq<Request>)
    requires Ready(chd, t, Cache(-1, buf)) && Addressed(reqs)
  {
    Session(chd, t, Cache(-1, buf), reqs) == FreshSession(chd, t, reqs)
  }

  /** Where failed reads leave the buffer alone, a fresh handle is right over all sessions exactly without the sentinel hunk. */
  lemma CacheExact(chd: Chd, t: TrackInfo)
    requires ValidChd(chd) && ValidTrack(t) && FailureKeepsBuffer(chd, t)
    ensures (forall buf: seq<Byte>, reqs: seq<Request> ::
               |buf| == chd.hunkBytes && Addressed(reqs) ==> Faithful(chd, t, buf, reqs))
            <==> NoSentinel(chd, t)
  {
    hide FailureKeepsBuffer;
    if NoSentinel(chd, t) {
      forall buf: seq<Byte>, reqs: seq<Request> | |buf| == chd.hunkBytes && Addressed(reqs)
        ensures Faithful(chd, t, buf, reqs)
      {
        SessionRefines(chd, t, Cache(-1, buf), reqs);
      }
    } else {
      var s: int :| IsU32(s) && InTrack(t, s) && HunkOf(chd, FrameOf(t, s)) == 0xFFFF_FFFF;
      var buf := SentinelMisreads(chd, t, s);
      assert !Faithful(chd, t, buf, [Request(s, 1)]);
    }
  }

  // ---- Which discs every session is right about ----

  /** A freshly opened handle is right over all sessions, whatever its buffer first held and whatever failed reads leave in it. */
  ghost predicate AlwaysRight(chd: Chd, t: TrackInfo)
    requires ValidChd(chd) && ValidTrack(t)
  {
    forall residue: (int, seq<Byte>) -> seq<Byte>, buf: seq<Byte>, reqs: seq<Request> ::
      ValidChd(chd.(residue := residue)) && |buf| == chd.hunkBytes && Addressed(reqs)
      ==> Faithful(chd.(residue := residue), t, buf, reqs)
  }

  /** The hunk that sector `s` of the track lives in can be read. */
  predicate Reads(chd: Chd, t: TrackInfo, s: int)
    requires 2448 <= chd.hunkBytes
  {
    chd.read(HunkOf(chd, FrameOf(t, s))).Some?
  }

  ghost predicate AllRead(chd: Chd, t: TrackInfo)
    requires 2448 <= chd.hunkBytes
  {
    forall s: int :: IsU32(s) && InTrack(t, s) ==> Reads(chd, t, s)
  }

  ghost predicate NoneReads(chd: Chd, t: TrackInfo)
    requires 2448 <= chd.hunkBytes
  {
    forall s: int :: IsU32(s) && InTrack(t, s) ==> !Reads(chd, t, s)
  }

  /**
   * Every session is right exactly when no sector lives in the sentinel hunk and
   * the track's hunks can all be read, or none of them can: one readable and one
   * unreadable hunk are enough for a stale answer.
   */
  lemma SessionsExact(chd: Chd, t: TrackInfo)
    requires ValidChd(chd) && ValidTrack(t)
    ensures AlwaysRight(chd, t) <==> NoSentinel(chd, t) && (AllRead(chd, t) || NoneReads(chd, t))
  {
    hide Faithful, NoSentinel, AllRead, NoneReads;
    if NoSentinel(chd, t) && (AllRead(chd, t) || NoneReads(chd, t)) {
      forall residue: (int, seq<Byte>) -> seq<Byte>, buf: seq<Byte>, reqs: seq<Request> |
        ValidChd(chd.(residue := residue)) && |buf| == chd.hunkBytes && Addressed(reqs)
        ensures Faithful(chd.(residue := residue), t, buf, reqs)
      {
        UniformIsFaithful(chd.(residue := residue), chd, t, buf, reqs);
      }
    } else {
      var residue, buf, reqs := Misread(chd, t);
      assert !Faithful(chd.(residue := residue), t, buf, reqs);
    }
  }

  /** What failed reads leave behind changes neither where sectors live nor what is there. */
  lemma SameDisc(chd: Chd, like: Chd, t: TrackInfo, sector: int)
    requires ValidChd(chd) && ValidChd(like) && ValidTrack(t) && chd == like.(residue := chd.residue)
    ensures NoSentinel(like, t) ==> NoSentinel(chd, t)
    ensures AllRead(like, t) ==> FailureKeepsBuffer(chd, t)
    ensures NoneReads(like, t) ==> NoneReads(chd, t)
    ensures InTrack(t, sector) ==> (Reads(chd, t, sector) <==> Reads(like, t, sector))
    ensures Fresh(chd, t, sector) == Fresh(like, t, sector)
  {
    hide Wrap, UserData;
    assert FramesPerHunk(chd) == FramesPerHunk(like);
    hide FramesPerHunk;
    assert forall frame: int :: 0 <= frame ==> HunkOf(chd, frame) == HunkOf(like, frame);
    forall s: int | NoneReads(like, t) && IsU32(s) && InTrack(t, s)
      ensures !Reads(chd, t, s)
    {
      assert !Reads(like, t, s);
    }
    forall s: int | AllRead(like, t) && IsU32(s) && InTrack(t, s)
      ensures Reads(chd, t, s)
    {
      assert Reads(like, t, s);
    }
  }

  lemma UniformIsFaithful(chd: Chd, like: Chd, t: TrackInfo, buf: seq<Byte>, reqs: seq<Request>)
    requires ValidChd(chd) && ValidTrack(t) && |buf| == chd.hunkBytes && Addressed(reqs)
    requires ValidChd(like) && chd == like.(residue := chd.residue)
    requires NoSentinel(like, t) && (AllRead(like, t) || NoneReads(like, t))
    ensures Faithful(chd, t, buf, reqs)
  {
    hide Session, FreshSession, NoSentinel, AllRead, NoneReads, FailureKeepsBuffer;
    SameDisc(chd, like, t, 0);
    if AllRead(like, t) {
      SessionRefines(chd, t, Cache(-1, buf), reqs);
    } else {
      UnreadSession(chd, t, Cache(-1, buf), reqs);
    }
  }

  /** A track none of whose hunks can be read leaves the cache empty. */
  lemma {:induction false} UnreadSession(chd: Chd, t: TrackInfo, c: Cache, reqs: seq<Request>)
    requires Ready(chd, t, c) && Addressed(reqs) && c.cached == -1
    requires NoSentinel(chd, t) && NoneReads(chd, t)
    ensures Session(chd, t, c, reqs) == FreshSession(chd, t, reqs)
    decreases |reqs|
  {
    hide NoSentinel, NoneReads, ReadMany, FreshRead;
    if reqs != [] {
      ReadRefines(chd, t, c, reqs[0].sector, reqs[0].bytes);
      UnreadStays(chd, t, c, reqs[0].sector, reqs[0].bytes);
      UnreadSession(chd, t, ReadMany(chd, t, c, reqs[0].sector, reqs[0].bytes).cache, reqs[1..]);
    }
  }

  lemma UnreadStays(chd: Chd, t: TrackInfo, c: Cache, sector: int, want: int)
    requires Ready(chd, t, c) && IsU32(sector) && 0 <= want && c.cached == -1
    requires NoSentinel(chd, t) && NoneReads(chd, t)
    ensures ReadMany(chd, t, c, sector, want).cache.cached == -1
  {
    SentinelFree(chd, t, sector);
    if InTrack(t, sector) {
      assert !Reads(chd, t, sector);
      CastExact(HunkOf(chd, FrameOf(t, sector)));
    }
    hide HunkOf, SlotOf, FrameOf, AsInt32, UserData, Wrap;
  }

  /** Where the condition fails, a session that goes wrong. */
  lemma Misread(chd: Chd, t: TrackInfo)
    returns (residue: (int, seq<Byte>) -> seq<Byte>, buf: seq<Byte>, reqs: seq<Request>)
    requires ValidChd(chd) && ValidTrack(t)
    requires !NoSentinel(chd, t) || (!AllRead(chd, t) && !NoneReads(chd, t))
    ensures ValidChd(chd.(residue := residue)) && |buf| == chd.hunkBytes && Addressed(reqs)
    ensures !Faithful(chd.(residue := residue), t, buf, reqs)
  {
    hide Faithful, HunkOf, InTrack;
    if !NoSentinel(chd, t) {
      residue := chd.residue;
      assert chd.(residue := residue) == chd;
      var s: int :| IsU32(s) && InTrack(t, s) && HunkOf(chd, FrameOf(t, s)) == 0xFFFF_FFFF;
      reqs := [Request(s, 1)];
      buf := SentinelMisreads(chd, t, s);
    } else {
      var bad: int :| IsU32(bad) && InTrack(t, bad) && !Reads(chd, t, bad);
      var good: int :| IsU32(good) && InTrack(t, good) && Reads(chd, t, good);
      buf := Repeat(0, chd.hunkBytes);
      reqs := [Request(good, 1), Request(bad, 1), Request(good, 1)];
      residue := StaleMisreads(chd, t, good, bad, buf);
    }
  }

  /** A readable sector, an unreadable one, the first again: the third answer is what the failure left. */
  lemma StaleMisreads(chd: Chd, t: TrackInfo, good: int, bad: int, buf: seq<Byte>)
    returns (residue: (int, seq<Byte>) -> seq<Byte>)
    requires Ready(chd, t, Cache(-1, buf)) && NoSentinel(chd, t)
    requires IsU32(good) && InTrack(t, good) && Reads(chd, t, good)
    requires IsU32(bad) && InTrack(t, bad) && !Reads(chd, t, bad)
    ensures ValidChd(chd.(residue := residue))
    ensures !Faithful(chd.(residue := residue), t, buf, [Request(good, 1), Request(bad, 1), Request(good, 1)])
  {
    hide Fresh, NoSentinel, CopyOne, HunkOf, FrameOf, InTrack;
    var right := Fresh(chd, t, good);
    var other: Byte := if right != [] && right[0] == 0 then 1 else 0;
    residue := (h: int, b: seq<Byte>) => Repeat(other, |b|);
    var worse := chd.(residue := residue);
    SameDisc(worse, chd, t, good);
    SameDisc(worse, chd, t, bad);
    StaleThird(worse, t, good, bad, buf, other);
    FirstByte(worse, t, good);
  }

  /** The third of the three answers, where a failing read fills the buffer with one byte. */
  lemma StaleThird(chd: Chd, t: TrackInfo, good: int, bad: int, buf: seq<Byte>, other: Byte)
    requires Ready(chd, t, Cache(-1, buf)) && NoSentinel(chd, t)
    requires forall h: int, b: seq<Byte> :: chd.residue(h, b) == Repeat(other, |b|)
    requires IsU32(good) && InTrack(t, good) && Reads(chd, t, good)
    requires IsU32(bad) && InTrack(t, bad) && !Reads(chd, t, bad)
    ensures var reqs := [Request(good, 1), Request(bad, 1), Request(good, 1)];
            && Session(chd, t, Cache(-1, buf), reqs)[2] == [other]
            && FreshSession(chd, t, reqs)[2] == FreshRead(chd, t, good, 1)
  {
    hide UserData, Wrap, SlotOf, HunkOf, InTrack, ReadMany, FreshRead, Session, FreshSession;
    var c := Cache(-1, buf);
    var one := CopyOne(chd, t, c, good, 1);
    var two := CopyOne(chd, t, one.cache, bad, 1);
    var three := CopyOne(chd, t, two.cache, good, 1);
    FirstByteCached(chd, t, c, good);
    FirstByteCached(chd, t, one.cache, bad);
    FirstByteCached(chd, t, two.cache, good);
    ThirdAnswer(chd, t, c, Request(good, 1), Request(bad, 1), Request(good, 1));
    var h, g := HunkOf(chd, FrameOf(t, good)), HunkOf(chd, FrameOf(t, bad));
    CastExact(h);
    CastExact(g);
    hide AsInt32, FrameOf;
    assert one.cache == Cache(AsInt32(h), chd.read(h).value);
    assert two.cache == Cache(AsInt32(h), Repeat(other, chd.hunkBytes));
    FirstOfRepeat(t.geometry, other, chd.hunkBytes, SlotOf(chd, FrameOf(t, good)));
    assert three.data == [other];
  }

  lemma ThirdAnswer(chd: Chd, t: TrackInfo, c: Cache, p: Request, q: Request, r: Request)
    requires Ready(chd, t, c) && Addressed([p, q, r])
    ensures IsU32(p.sector) && IsU32(q.sector) && IsU32(r.sector) && 0 <= p.bytes && 0 <= q.bytes && 0 <= r.bytes
    ensures var one := ReadMany(chd, t, c, p.sector, p.bytes);
            var two := ReadMany(chd, t, one.cache, q.sector, q.bytes);
            Session(chd, t, c, [p, q, r])[2] == ReadMany(chd, t, two.cache, r.sector, r.bytes).data
    ensures FreshSession(chd, t, [p, q, r])[2] == FreshRead(chd, t, r.sector, r.bytes)
  {
    hide ReadMany, FreshRead;
    assert p in [p, q, r] && q in [p, q, r] && r in [p, q, r];
    assert [p, q, r][1..] == [q, r] && [q, r][1..] == [r];
    var one := ReadMany(chd, t, c, p.sector, p.bytes);
    assert Session(chd, t, c, [p, q, r])[1..] == Session(chd, t, one.cache, [q, r]);
    assert FreshSession(chd, t, [p, q, r])[1..] == FreshSession(chd, t, [q, r]);
    assert FreshSession(chd, t, [q, r])[1..] == FreshSession(chd, t, [r]);
  }

  lemma FirstByte(chd: Chd, t: TrackInfo, s: int)
    requires ValidChd(chd) && ValidTrack(t)
    ensures FreshRead(chd, t, s, 1) == Take(Fresh(chd, t, s), 1)
  {
    hide Fresh, Wrap;
    assert FreshRead(chd, t, Wrap(s + 1), 0) == [];
  }

  /** In the sentinel hunk a first read returns whatever the buffer happened to hold. */
  lemma SentinelMisreads(chd: Chd, t: TrackInfo, s: int) returns (buf: seq<Byte>)
    requires ValidChd(chd) && ValidTrack(t) && IsU32(s) && InTrack(t, s)
    requires HunkOf(chd, FrameOf(t, s)) == 0xFFFF_FFFF
    ensures |buf| == chd.hunkBytes && !Faithful(chd, t, buf, [Request(s, 1)])
  {
    hide UserData, Wrap, SlotOf, FrameOf;
    var right := Fresh(chd, t, s);
    var other: Byte := if right != [] && right[0] == 0 then 1 else 0;
    buf := Repeat(other, chd.hunkBytes);
    var c := Cache(-1, buf);
    assert AsInt32(0xFFFF_FFFF) == -1;
    var slot := SlotOf(chd, FrameOf(t, s));
    assert CopyOne(chd, t, c, s, 1).data == Take(UserData(t.geometry, buf, slot), 1);
    FirstOfRepeat(t.geometry, other, chd.hunkBytes, slot);
    FirstByte(chd, t, s);
    FirstByteCached(chd, t, c, s);
    assert Session(chd, t, c, [Request(s, 1)])[0] == [other];
    assert FreshSession(chd, t, [Request(s, 1)])[0] == Take(right, 1);
  }

  lemma FirstOfRepeat(g: Geometry, x: Byte, n: int, slot: int)
    requires 0 <= slot && slot * 2448 + 2448 <= n && 0 < g.dataSize && g.headerSize + g.dataSize <= 2352
    ensures Take(UserData(g, Repeat(x, n), slot), 1) == [x]
  {
    var all := Repeat(x, n);
    var data := UserData(g, all, slot);
    assert data[0] == all[slot * 2448 + g.headerSize] == x;
    assert Take(data, 1) == data[..1] == [data[0]];
  }

  lemma FirstByteCached(chd: Chd, t: TrackInfo, c: Cache, s: int)
    requires Ready(chd, t, c)
    ensures ReadMany(chd, t, c, s, 1) == CopyOne(chd, t, c, s, 1)
  {
    hide CopyOne, Wrap;
    var one := CopyOne(chd, t, c, s, 1);
    assert one.data + [] == one.data;
  }

  /** A failed read that disturbs the buffer: two one-frame hunks, the second unreadable. */
  function Disturbing(): Chd {
    Chd(2448, h => if h == 0 then Some(Repeat(0, 2448)) else None, (h, b) => Repeat(1, |b|))
  }

  /** Sector 0, the unreadable sector 1, sector 0 again: the third read trusts a buffer the failure overwrote. */
  lemma FailureLeavesStaleHunk(buf: seq<Byte>)
    requires |buf| == 2448
    ensures var chd, t := Disturbing(), TrackInfo(1, 2, 0, 0, 0, Geometry(0, 2352, false));
            && Ready(chd, t, Cache(-1, buf))
            && var one := CopyOne(chd, t, Cache(-1, buf), 0, 1);
            && var two := CopyOne(chd, t, one.cache, 1, 1);
            && var three := CopyOne(chd, t, two.cache, 0, 1);
            && one.data == [0] && two.data == [] && three.data == [1] && Fresh(chd, t, 0)[..1] == [0]
  {
    var chd, t := Disturbing(), TrackInfo(1, 2, 0, 0, 0, Geometry(0, 2352, false));
    var one := CopyOne(chd, t, Cache(-1, buf), 0, 1);
    assert one.cache == Cache(0, Repeat(0, 2448));
    var two := CopyOne(chd, t, one.cache, 1, 1);
    assert two.cache == Cache(0, Repeat(1, 2448));
  }

  // ---- Requests that span sectors ----

  /** The part of a track from `sector` on that can be read. */
  ghost predicate Readable(chd: Chd, t: TrackInfo, sector: int, count: int)
    requires ValidChd(chd) && ValidTrack(t)
  {
    forall s: int :: sector <= s < sector + count ==> IsU32(s) && Fresh(chd, t, s) != []
  }

  /** Bytes of user data in `count` sectors of a track. */
  function Bytes(t: TrackInfo, count: int): int {
    count * t.geometry.dataSize
  }

  lemma BytesStep(t: TrackInfo, count: int)
    requires 0 <= count
    ensures 0 <= Bytes(t, count)
    ensures count == 0 ==> Bytes(t, count) == 0
    ensures count > 0 ==> 0 <= Bytes(t, count - 1) && Bytes(t, count) == t.geometry.dataSize + Bytes(t, count - 1)
  {
    var d := t.geometry.dataSize;
    assert count > 0 ==> count * d == d + (count - 1) * d;
  }

  /**
   * Whatever the cache holds: reading `a` whole sectors and `b` more bytes is
   * reading the sectors and, if they came in full, reading on from where they end.
   */
  lemma {:induction false} ReadSplits(chd: Chd, t: TrackInfo, c: Cache, sector: int, a: int, b: int)
    requires Ready(chd, t, c) && IsU32(sector) && 0 <= a && 0 <= b
    ensures 0 <= Bytes(t, a)
    ensures var one := ReadMany(chd, t, c, sector, Bytes(t, a));
            ReadMany(chd, t, c, sector, Bytes(t, a) + b)
            == if |one.data| < Bytes(t, a) then one
               else Followed(one.data, ReadMany(chd, t, one.cache, Wrap(sector + a), b))
    decreases a
  {
    hide *;
    BytesStep(t, a);
    var now := Bytes(t, a);
    ReadsNothing(chd, t, c, sector, b);
    if a > 0 {
      var d, more := t.geometry.dataSize, Bytes(t, a - 1);
      assert now == d + more && now + b == d + (more + b);
      ReadsOne(chd, t, c, sector, more);
      ReadsOne(chd, t, c, sector, more + b);
      var next := CopyOne(chd, t, c, sector, d).cache;
      NextSector(sector, a);
      ReadSplits(chd, t, next, Wrap(sector + 1), a - 1, b);
      var rest := ReadMany(chd, t, next, Wrap(sector + 1), more);
      FollowedTwice(CopyOne(chd, t, c, sector, d).data, rest, ReadMany(chd, t, rest.cache, Wrap(sector + a), b));
    } else {
      assert now + b == b && sector + a == sector;
    }
  }

  /** A delivery with more data in front. */
  function Followed(data: seq<Byte>, rest: Copied): Copied {
    Copied(rest.cache, data + rest.data)
  }

  lemma FollowedTwice(first: seq<Byte>, second: Copied, rest: Copied)
    ensures Followed(Followed(first, second).data, rest) == Followed(first, Followed(second.data, rest))
    ensures |Followed(first, second).data| == |first| + |second.data| && Followed(first, second).cache == second.cache
  {
    assert (first + second.data) + rest.data == first + (second.data + rest.data);
  }

  lemma ReadsNothing(chd: Chd, t: TrackInfo, c: Cache, sector: int, b: int)
    requires Ready(chd, t, c) && IsU32(sector) && 0 <= b
    ensures ReadMany(chd, t, c, sector, 0) == Copied(c, []) && Wrap(sector) == sector
    ensures Followed([], ReadMany(chd, t, c, sector, b)) == ReadMany(chd, t, c, sector, b)
  {
    assert [] + ReadMany(chd, t, c, sector, b).data == ReadMany(chd, t, c, sector, b).data;
  }

  /** A request of at least one sector: nothing, or the whole sector and then the rest. */
  lemma ReadsOne(chd: Chd, t: TrackInfo, c: Cache, sector: int, more: int)
    requires Ready(chd, t, c) && IsU32(sector) && 0 <= more
    ensures 0 < t.geometry.dataSize && IsU32(Wrap(sector + 1))
    ensures var one := CopyOne(chd, t, c, sector, t.geometry.dataSize);
            && Ready(chd, t, one.cache)
            && |one.data| == (if one.data == [] then 0 else t.geometry.dataSize)
            && ReadMany(chd, t, c, sector, t.geometry.dataSize + more)
               == if one.data == [] then one else Followed(one.data, ReadMany(chd, t, one.cache, Wrap(sector + 1), more))
  {
    hide Fetch, UserData, FrameOf, Wrap, HunkOf, SlotOf, ValidChd;
    assert CopyOne(chd, t, c, sector, t.geometry.dataSize + more) == CopyOne(chd, t, c, sector, t.geometry.dataSize);
  }

  lemma NextSector(sector: int, a: int)
    ensures Wrap(Wrap(sector + 1) + (a - 1)) == Wrap(sector + a)
  {
    WrapCongruent(sector + 1, a - 1);
    hide Wrap;
    assert (sector + 1) + (a - 1) == sector + a;
  }

  lemma NextReadable(chd: Chd, t: TrackInfo, sector: int, a: int)
    requires ValidChd(chd) && ValidTrack(t) && IsU32(sector) && 0 < a && Readable(chd, t, sector, a)
    ensures Readable(chd, t, Wrap(sector + 1), a - 1) && IsU32(Wrap(sector + 1))
    ensures Fresh(chd, t, sector) != []
  {
    assert Fresh(chd, t, sector) != [];
    if a > 1 {
      assert IsU32(sector + 1);
      WrapFits(sector + 1);
    }
    hide Fresh, Wrap;
  }

  lemma OneSector(chd: Chd, t: TrackInfo, sector: int, more: int)
    requires ValidChd(chd) && ValidTrack(t) && 0 <= more && Fresh(chd, t, sector) != []
    ensures FreshRead(chd, t, sector, t.geometry.dataSize + more)
            == Fresh(chd, t, sector) + FreshRead(chd, t, Wrap(sector + 1), more)
  {
    hide Fresh, Wrap;
    assert Take(Fresh(chd, t, sector), t.geometry.dataSize + more) == Fresh(chd, t, sector);
  }

  lemma PartSector(chd: Chd, t: TrackInfo, sector: int, want: int)
    requires ValidChd(chd) && ValidTrack(t) && 0 <= want <= t.geometry.dataSize && Fresh(chd, t, sector) != []
    ensures FreshRead(chd, t, sector, want) == Fresh(chd, t, sector)[..want]
  {
    hide Fresh, Wrap;
    if want > 0 {
      assert FreshRead(chd, t, Wrap(sector + 1), 0) == [];
    }
  }

  lemma {:induction false} FreshLength(chd: Chd, t: TrackInfo, sector: int, left: int, want: int)
    requires ValidChd(chd) && ValidTrack(t) && IsU32(sector) && 0 <= left && 0 <= want
    requires Readable(chd, t, sector, left) && Fresh(chd, t, Wrap(sector + left)) == []
    ensures |FreshRead(chd, t, sector, want)| == Min(want, Bytes(t, left))
    decreases left
  {
    hide Bytes, Fresh, FreshRead, Wrap, Readable;
    BytesStep(t, left);
    if left == 0 {
      NothingThere(chd, t, sector, want);
    } else {
      var d := t.geometry.dataSize;
      NextReadable(chd, t, sector, left);
      if want <= d {
        PartSector(chd, t, sector, want);
      } else {
        NextSector(sector, left);
        FreshLength(chd, t, Wrap(sector + 1), left - 1, want - d);
        OneSector(chd, t, sector, want - d);
      }
    }
  }

  lemma NothingThere(chd: Chd, t: TrackInfo, sector: int, want: int)
    requires ValidChd(chd) && ValidTrack(t) && IsU32(sector) && 0 <= want && Fresh(chd, t, Wrap(sector + 0)) == []
    ensures FreshRead(chd, t, sector, want) == []
  {
    hide Fresh;
  }

  /** A request gets the smaller of itself and the data up to the track's end or its first unreadable sector. */
  lemma ReadLength(chd: Chd, t: TrackInfo, c: Cache, sector: int, left: int, want: int)
    requires Ready(chd, t, c) && Truthful(chd, c) && NoSentinel(chd, t) && IsU32(sector) && 0 <= left && 0 <= want
    requires Readable(chd, t, sector, left) && Fresh(chd, t, Wrap(sector + left)) == []
    ensures |ReadMany(chd, t, c, sector, want).data| == Min(want, Bytes(t, left))
  {
    hide ReadMany, FreshRead, Fresh, Wrap, Bytes;
    ReadRefines(chd, t, c, sector, want);
    FreshLength(chd, t, sector, left, want);
  }
}
