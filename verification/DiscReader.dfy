/**
 * Reading user data through the one-hunk cache: which track is opened, which
 * frame a sector lives in, what the cache holds, and how a request spans sectors.
 * The decompressor is a function from hunk numbers to bytes; a failed read may
 * leave a residue in the buffer it was given.
 */
module DiscReader {
  import opened Basics
  import opened DiscLayout

  // ---- Track selection ----

  datatype Wanted = FirstData | Last | Largest | FirstOfSecondSession | Number(number: int)

  /** The four request values with a meaning of their own. */
  datatype Codes = Codes(firstData: int, last: int, largest: int, secondSession: int)

  /** What a request value means: a special request if it is one of the codes, first come first served, else a number. */
  function Means(codes: Codes, wanted: int): Wanted {
    if wanted == codes.firstData then FirstData
    else if wanted == codes.last then Last
    else if wanted == codes.largest then Largest
    else if wanted == codes.secondSession then FirstOfSecondSession
    else Number(wanted)
  }

  /** The row a request means, -1 when there is none. */
  ghost predicate Selects(tracks: seq<TrackInfo>, wanted: Wanted, index: int) {
    && -1 <= index < |tracks|
    && match wanted
       case FirstData =>
         && (index >= 0 ==> tracks[index].geometry.isData)
         && forall j :: 0 <= j < |tracks| && (index < 0 || j < index) ==> !tracks[j].geometry.isData
       case Last => index == |tracks| - 1
       case Largest =>
         && (index >= 0 ==> tracks[index].geometry.isData)
         && forall j :: 0 <= j < |tracks| && tracks[j].geometry.isData ==>
              && index >= 0 && tracks[j].frames <= tracks[index].frames
              && (j < index ==> tracks[j].frames < tracks[index].frames)
       case FirstOfSecondSession => index == -1
       case Number(n) =>
         && (index >= 0 ==> tracks[index].number == n)
         && forall j :: 0 <= j < |tracks| && (index < 0 || j < index) ==> tracks[j].number != n
  }

  /** A request means at most one row. */
  lemma SelectionUnique(tracks: seq<TrackInfo>, wanted: Wanted, i: int, j: int)
    requires Selects(tracks, wanted, i) && Selects(tracks, wanted, j)
    ensures i == j
  {
  }

  /** `raproxy_select_track`. */
  method SelectTrack(tracks: seq<TrackInfo>, codes: Codes, wanted: int) returns (index: int)
    ensures Selects(tracks, Means(codes, wanted), index)
  {
    if wanted == codes.firstData {
      for i := 0 to |tracks|
        invariant forall j :: 0 <= j < i ==> !tracks[j].geometry.isData
      {
        if tracks[i].geometry.isData {
          return i;
        }
      }
      return -1;
    }
    if wanted == codes.last {
      return |tracks| - 1;
    }
    if wanted == codes.largest {
      index := -1;
      for i := 0 to |tracks|
        invariant -1 <= index < i
        invariant index >= 0 ==> tracks[index].geometry.isData
        invariant forall j :: 0 <= j < i && tracks[j].geometry.isData ==>
                    && index >= 0 && tracks[j].frames <= tracks[index].frames
                    && (j < index ==> tracks[j].frames < tracks[index].frames)
      {
        if tracks[i].geometry.isData && (index < 0 || tracks[i].frames > tracks[index].frames) {
          index := i;
        }
      }
      return;
    }
    if wanted == codes.secondSession {
      return -1;
    }
    for i := 0 to |tracks|
      invariant forall j :: 0 <= j < i ==> tracks[j].number != wanted
    {
      if tracks[i].number == wanted {
        return i;
      }
    }
    return -1;
  }

  // ---- Frames, hunks and the cache ----

  /** `read(h)` is hunk `h`'s bytes or a failure; `residue(h, b)` is what a failed read leaves of buffer `b`. */
  datatype Chd = Chd(hunkBytes: int, read: int -> Option<seq<Byte>>, residue: (int, seq<Byte>) -> seq<Byte>)

  datatype Cache = Cache(cached: int, buf: seq<Byte>)

  datatype Fetched = Fetched(cache: Cache, ok: bool)

  datatype Copied = Copied(cache: Cache, data: seq<Byte>)

  datatype Request = Request(sector: int, bytes: int)

  ghost predicate ValidChd(chd: Chd) {
    && 2448 <= chd.hunkBytes
    && (forall h: int :: chd.read(h).Some? ==> |chd.read(h).value| == chd.hunkBytes)
    && (forall h: int, b: seq<Byte> :: |b| == chd.hunkBytes ==> |chd.residue(h, b)| == chd.hunkBytes)
  }

  predicate ValidTrack(t: TrackInfo) {
    && 0 <= t.frames < 0x1_0000_0000
    && 0 <= t.chdStart < 0x1_0000_0000
    && 0 <= t.absStart < 0x1_0000_0000
    && 0 < t.geometry.dataSize && t.geometry.headerSize + t.geometry.dataSize <= 2352
  }

  predicate IsU32(x: int) {
    0 <= x < 0x1_0000_0000
  }

  ghost predicate Ready(chd: Chd, t: TrackInfo, c: Cache) {
    ValidChd(chd) && ValidTrack(t) && |c.buf| == chd.hunkBytes
  }

  function FramesPerHunk(chd: Chd): int {
    chd.hunkBytes / 2448
  }

  function HunkOf(chd: Chd, frame: int): (h: int)
    requires 2448 <= chd.hunkBytes && 0 <= frame
    ensures 0 <= h <= frame
    ensures FramesPerHunk(chd) >= 2 && frame > 0 ==> h < frame
  {
    QuotientBound(frame, FramesPerHunk(chd));
    frame / FramesPerHunk(chd)
  }

  /** The frame's position inside its hunk: its 2448 bytes lie inside the hunk. */
  function SlotOf(chd: Chd, frame: int): (f: int)
    requires 2448 <= chd.hunkBytes && 0 <= frame
    ensures 0 <= f && f * 2448 + 2448 <= chd.hunkBytes
  {
    frame % FramesPerHunk(chd)
  }

  lemma ProductBound(q: int, d: int)
    requires 0 <= q && 1 <= d
    ensures q <= q * d && (2 <= d ==> q + q <= q * d)
  {
    if 2 <= d {
      assert q * d == q + q + q * (d - 2);
      assert 0 <= q * (d - 2);
    } else {
      assert q * d == q;
    }
  }

  lemma QuotientBound(x: int, d: int)
    requires 0 <= x && 1 <= d
    ensures 0 <= x / d <= x && (d >= 2 && x > 0 ==> x / d < x)
  {
    var q := x / d;
    assert x == q * d + x % d && 0 <= x % d;
    assert 0 <= q;
    ProductBound(q, d);
  }

  predicate InTrack(t: TrackInfo, sector: int) {
    t.absStart <= sector < t.absStart + t.frames
  }

  function FrameOf(t: TrackInfo, sector: int): int {
    Wrap(t.chdStart + (sector - t.absStart))
  }

  /** The cast to `int32_t` under which a hunk number is remembered. */
  function AsInt32(x: int): int {
    if x < 0x8000_0000 then x else x - 0x1_0000_0000
  }

  function UserData(g: Geometry, buf: seq<Byte>, slot: int): (d: seq<Byte>)
    requires 0 <= slot && slot * 2448 + 2448 <= |buf| && g.headerSize + g.dataSize <= 2352
    ensures |d| == g.dataSize
  {
    buf[slot * 2448 + g.headerSize..slot * 2448 + g.headerSize + g.dataSize]
  }

  /** Make sure the buffer holds `hunk`, unless the cache already says so. */
  function Fetch(chd: Chd, c: Cache, hunk: int): Fetched {
    if AsInt32(hunk) == c.cached then Fetched(c, true)
    else match chd.read(hunk)
      case None => Fetched(Cache(c.cached, chd.residue(hunk, c.buf)), false)
      case Some(b) => Fetched(Cache(AsInt32(hunk), b), true)
  }

  /** What copying one sector does to the cache, and the bytes it delivers. */
  function CopyOne(chd: Chd, t: TrackInfo, c: Cache, sector: int, want: int): (r: Copied)
    requires Ready(chd, t, c) && 0 <= want
    ensures Ready(chd, t, r.cache) && |r.data| <= want
  {
    if !InTrack(t, sector) then Copied(c, []) else
    var frame := FrameOf(t, sector);
    var f := Fetch(chd, c, HunkOf(chd, frame));
    if !f.ok then Copied(f.cache, [])
    else Copied(f.cache, Take(UserData(t.geometry, f.cache.buf, SlotOf(chd, frame)), want))
  }

  /** A whole request: sector after sector until it is met or a sector gives nothing. */
  function ReadMany(chd: Chd, t: TrackInfo, c: Cache, sector: int, want: int): (r: Copied)
    requires Ready(chd, t, c) && 0 <= want
    ensures Ready(chd, t, r.cache) && |r.data| <= want
    decreases want
  {
    if want == 0 then Copied(c, []) else
    var one := CopyOne(chd, t, c, sector, want);
    if one.data == [] then Copied(one.cache, []) else
    var rest := ReadMany(chd, t, one.cache, Wrap(sector + 1), want - |one.data|);
    Copied(rest.cache, one.data + rest.data)
  }
}
