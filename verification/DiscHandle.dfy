/** An open track: the buffer and the number of the hunk in it are overwritten in place by every read. */
module DiscHandle {
  import opened Basics
  import opened DiscLayout
  import opened DiscReader

  /** `was` with `data` written over it from `off` on. */
  function Splice<T>(was: seq<T>, off: int, data: seq<T>): (r: seq<T>)
    requires 0 <= off && off + |data| <= |was|
    ensures |r| == |was|
  {
    was[..off] + data + was[off + |data|..]
  }

  lemma SpliceTwice<T>(was: seq<T>, off: int, first: seq<T>, second: seq<T>)
    requires 0 <= off && off + |first| + |second| <= |was|
    ensures Splice(Splice(was, off, first), off + |first|, second) == Splice(was, off, first + second)
  {
  }

  lemma SpliceNothing<T>(was: seq<T>, off: int)
    requires 0 <= off <= |was|
    ensures Splice(was, off, []) == was
  {
  }

  /** `n` bytes were delivered at `off`, and cache and buffers are what `r` says. */
  ghost predicate Delivers(r: Copied, off: int, was: seq<Byte>, now: seq<Byte>, state: Cache, n: int) {
    && 0 <= off && off + |r.data| <= |was|
    && state == r.cache && n == |r.data|
    && now == Splice(was, off, r.data)
  }

  /** `memcpy` between two buffers. */
  method CopyBytes(out: array<Byte>, off: int, from: array<Byte>, base: int, n: int)
    requires out != from && 0 <= n && 0 <= off && off + n <= out.Length && 0 <= base && base + n <= from.Length
    modifies out
    ensures out[..] == Splice(old(out[..]), off, from[base..base + n])
  {
    forall i | 0 <= i < n {
      out[off + i] := from[base + i];
    }
  }

  class TrackHandle {
    const chd: Chd
    const track: TrackInfo
    const hunk: array<Byte>
    var cachedHunk: int

    ghost function State(): Cache
      reads this, hunk
    {
      Cache(cachedHunk, hunk[..])
    }

    constructor (chd: Chd, track: TrackInfo)
      requires ValidChd(chd) && ValidTrack(track)
      ensures Ready(chd, track, State()) && fresh(hunk)
      ensures this.chd == chd && this.track == track && cachedHunk == -1
    {
      this.chd := chd;
      this.track := track;
      cachedHunk := -1;
      hunk := new Byte[chd.hunkBytes];
    }

    /** `raproxy_copy_sector`: at most one sector's user data, to `out` from `off` on. */
    method CopySector(absSector: int, out: array<Byte>, off: int, want: int) returns (n: int)
      requires Ready(chd, track, State()) && IsU32(absSector) && out != hunk
      requires 0 <= off && 0 <= want && off + want <= out.Length
      modifies this`cachedHunk, hunk, out
      ensures Ready(chd, track, State())
      ensures n <= want
      ensures Delivers(CopyOne(chd, track, old(State()), absSector, want), off, old(out[..]), out[..], State(), n)
    {
      hide Wrap, HunkOf, SlotOf, AsInt32, Splice, Take;
      SpliceNothing(out[..], off);
      if absSector < track.absStart {
        return 0;
      }
      var offsetInTrack := absSector - track.absStart;
      if offsetInTrack >= track.frames {
        return 0;
      }
      var frame := Wrap(track.chdStart + offsetInTrack);
      var number := HunkOf(chd, frame);
      if AsInt32(number) != cachedHunk {
        var bytes := chd.read(number);
        if bytes.None? {
          var residue := chd.residue(number, hunk[..]);
          Fill(residue);
          return 0;
        }
        Fill(bytes.value);
        cachedHunk := AsInt32(number);
      }
      n := Min(want, track.geometry.dataSize);
      var base := SlotOf(chd, frame) * 2448 + track.geometry.headerSize;
      CopyBytes(out, off, hunk, base, n);
      TakeWindow(track.geometry, hunk[..], SlotOf(chd, frame), want);
    }

    lemma TakeWindow(g: Geometry, buf: seq<Byte>, slot: int, want: int)
      requires 0 <= want && 0 <= slot && slot * 2448 + 2448 <= |buf| && g.headerSize + g.dataSize <= 2352
      ensures var base := slot * 2448 + g.headerSize;
              Take(UserData(g, buf, slot), want) == buf[base..base + Min(want, g.dataSize)]
    {
    }

    /** The decompressor overwrites the buffer. */
    method Fill(bytes: seq<Byte>)
      requires |bytes| == hunk.Length
      modifies hunk
      ensures hunk[..] == bytes
    {
      forall i | 0 <= i < hunk.Length {
        hunk[i] := bytes[i];
      }
    }

    /** `raproxy_chd_read_sector`: spans consecutive sectors, never writing past the request. */
    method ReadSector(sector: int, out: array<Byte>, requested: int) returns (total: int)
      requires Ready(chd, track, State()) && IsU32(sector) && out != hunk && 0 <= requested <= out.Length
      modifies this`cachedHunk, hunk, out
      ensures Ready(chd, track, State())
      ensures total <= requested
      ensures Delivers(ReadMany(chd, track, old(State()), sector, requested), 0, old(out[..]), out[..], State(), total)
    {
      hide *;
      ghost var was := out[..];
      ghost var whole := ReadMany(chd, track, State(), sector, requested);
      var at, left := sector, requested;
      total := 0;
      EverythingLeft(whole, was, requested);
      while left > 0
        invariant IsU32(at) && 0 <= left && 0 <= total && total + left == requested
        invariant Ready(chd, track, State())
        invariant Finishes(ReadMany(chd, track, State(), at, left), total, out[..], whole, was)
        decreases left
      {
        ghost var before, here := State(), out[..];
        var chunk := CopySector(at, out, total, left);
        Advance(chd, track, before, at, left, total, here, out[..], State(), chunk, whole, was);
        if chunk == 0 {
          return;
        }
        total := total + chunk;
        left := left - chunk;
        at := Wrap(at + 1);
      }
      NothingLeft(chd, track, State(), at, total, out[..], whole, was);
    }
  }

  /** What is still to come, `rest`, completes the request `whole` made on buffer `was`. */
  ghost predicate Finishes(rest: Copied, total: int, out: seq<Byte>, whole: Copied, was: seq<Byte>) {
    && 0 <= total && total + |rest.data| == |whole.data| <= |was| == |out|
    && rest.cache == whole.cache
    && Splice(out, total, rest.data) == Splice(was, 0, whole.data)
  }

  lemma EverythingLeft(whole: Copied, was: seq<Byte>, requested: int)
    requires |whole.data| <= requested <= |was|
    ensures Finishes(whole, 0, was, whole, was)
  {
  }

  lemma NothingLeft(
      chd: Chd, track: TrackInfo, state: Cache, at: int, total: int, out: seq<Byte>, whole: Copied, was: seq<Byte>)
    requires Ready(chd, track, state)
    requires Finishes(ReadMany(chd, track, state, at, 0), total, out, whole, was)
    ensures Delivers(whole, 0, was, out, state, total)
  {
    SpliceNothing(out, total);
  }

  lemma Advance(
      chd: Chd, track: TrackInfo, before: Cache, at: int, left: int, total: int,
      here: seq<Byte>, out: seq<Byte>, state: Cache, chunk: int, whole: Copied, was: seq<Byte>)
    requires Ready(chd, track, before) && 0 < left
    requires Finishes(ReadMany(chd, track, before, at, left), total, here, whole, was)
    requires Delivers(CopyOne(chd, track, before, at, left), total, here, out, state, chunk)
    ensures Ready(chd, track, state) && 0 <= chunk <= left && IsU32(Wrap(at + 1))
    ensures chunk > 0 ==>
              Finishes(ReadMany(chd, track, state, Wrap(at + 1), left - chunk), total + chunk, out, whole, was)
    ensures chunk == 0 ==> Delivers(whole, 0, was, out, state, total)
  {
    var one := CopyOne(chd, track, before, at, left);
    if chunk == 0 {
      hide CopyOne, Wrap, Splice;
      SpliceNothing(here, total);
    } else {
      hide CopyOne, Wrap, Splice;
      var rest := ReadMany(chd, track, one.cache, Wrap(at + 1), left - chunk);
      SpliceTwice(here, total, one.data, rest.data);
    }
  }

  /** `raproxy_chd_open_track`: read the table, pick a row, allocate the buffer. */
  method OpenTrack(chd: Chd, slots: seq<Slot>, codes: Codes, wanted: int) returns (handle: TrackHandle?, ghost index: int)
    requires chd.hunkBytes >= 2448 ==> ValidChd(chd)
    ensures Selects(Table(0, 0, Records(slots, MAX_TRACKS)), Means(codes, wanted), index)
    ensures handle == null <==> index < 0 || chd.hunkBytes < 2448
    ensures handle != null ==>
              && fresh(handle) && fresh(handle.hunk) && Ready(chd, handle.track, handle.State()) && handle.chd == chd && handle.cachedHunk == -1
              && handle.track == Table(0, 0, Records(slots, MAX_TRACKS))[index]
  {
    var tracks := new TrackInfo[MAX_TRACKS];
    var ok, count := ReadTracks(slots, tracks);
    if !ok {
      return null, -1;
    }
    var chosen := SelectTrack(tracks[..count], codes, wanted);
    index := chosen;
    if chosen < 0 || chd.hunkBytes < 2448 {
      return null, chosen;
    }
    TableValid(0, 0, Records(slots, MAX_TRACKS), chosen);
    handle := new TrackHandle(chd, tracks[chosen]);
  }

  lemma {:induction false} TableValid(chdFrame: int, absSector: int, recs: seq<Record>, i: nat)
    requires i < |recs|
    ensures ValidTrack(Table(chdFrame, absSector, recs)[i])
    decreases i
  {
    hide Wrap, TrackGeometry, StoredPregap, NextChd, NextAbs;
    if i > 0 {
      TableValid(NextChd(chdFrame, recs[0]), NextAbs(absSector, recs[0]), recs[1..], i - 1);
    }
  }
}
