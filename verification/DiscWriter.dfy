/** The reference writer: the frames of an image, its body, and the hunks the body is cut into. */
module DiscWriter {
  import opened Basics
  import opened DiscLayout

  predicate WellCut(tracks: seq<Track>) {
    forall t :: t in tracks ==> forall f :: f in t.sectors ==> |f| == 2352
  }

  function ZeroFrame(): (f: seq<Byte>)
    ensures |f| == 2352
  {
    Repeat(0, 2352)
  }

  /** A frame list filled up to a multiple of four frames. */
  function PadFour(frames: seq<seq<Byte>>): (padded: seq<seq<Byte>>)
    ensures |padded| == RoundUp(|frames|) && frames <= padded
  {
    frames + Repeat(ZeroFrame(), RoundUp(|frames|) - |frames|)
  }

  /** The frame list after one more track: its stored pregap, its frames, the padding. */
  function Append(frames: seq<seq<Byte>>, t: Track): seq<seq<Byte>> {
    PadFour(frames + Repeat(ZeroFrame(), Stored(t)) + t.sectors)
  }

  function Image(frames: seq<seq<Byte>>, tracks: seq<Track>): seq<seq<Byte>>
    decreases |tracks|
  {
    if tracks == [] then frames else Image(Append(frames, tracks[0]), tracks[1..])
  }

  /** Every frame followed by its 96 empty subcode bytes. */
  function Body(frames: seq<seq<Byte>>): seq<Byte> {
    if frames == [] then [] else (frames[0] + Repeat(0, 96)) + Body(frames[1..])
  }

  /** Hunk `h` of a body: 19584 bytes from `h * 19584` on, zero-filled past the end. */
  function HunkAt(body: seq<Byte>, h: int): (hunk: seq<Byte>)
    requires 0 <= h * 19584 <= |body|
    ensures |hunk| == 19584
  {
    var end := Min((h + 1) * 19584, |body|);
    body[h * 19584..end] + Repeat(0, (h + 1) * 19584 - end)
  }

  /** The frame list of `write_chd`. */
  method WriteFrames(tracks: seq<Track>) returns (frames: seq<seq<Byte>>)
    ensures frames == Image([], tracks)
  {
    hide *;
    frames := [];
    ghost var final := Image([], tracks);
    assert tracks[0..] == tracks;
    for i := 0 to |tracks|
      invariant final == Image(frames, tracks[i..])
    {
      var t := tracks[i];
      ImageStep(frames, tracks, i);
      if t.pregap != 0 && t.pregapStored {
        frames := frames + Repeat(ZeroFrame(), t.pregap);
      }
      frames := frames + t.sectors;
      while |frames| % 4 != 0
        invariant final == Image(PadFour(frames), tracks[i + 1..])
        decreases RoundUp(|frames|) - |frames|
      {
        PadStep(frames);
        frames := frames + [ZeroFrame()];
      }
      PadStep(frames);
    }
    ImageStop(frames, tracks[|tracks|..]);
  }

  lemma ImageStop(frames: seq<seq<Byte>>, tracks: seq<Track>)
    requires tracks == []
    ensures Image(frames, tracks) == frames
  {
  }

  lemma ImageStep(frames: seq<seq<Byte>>, tracks: seq<Track>, i: nat)
    requires i < |tracks|
    ensures var t := tracks[i];
            Image(frames, tracks[i..])
            == Image(PadFour((if t.pregap != 0 && t.pregapStored then frames + Repeat(ZeroFrame(), t.pregap) else frames)
                             + t.sectors), tracks[i + 1..])
  {
    hide PadFour;
    assert tracks[i..][1..] == tracks[i + 1..];
    assert frames + Repeat(ZeroFrame(), 0) == frames;
  }

  lemma PadStep(frames: seq<seq<Byte>>)
    ensures |frames| % 4 == 0 ==> PadFour(frames) == frames
    ensures |frames| % 4 != 0 ==>
              && PadFour(frames + [ZeroFrame()]) == PadFour(frames)
              && 0 <= RoundUp(|frames| + 1) - (|frames| + 1) < RoundUp(|frames|) - |frames|
  {
    hide ZeroFrame;
    if |frames| % 4 != 0 {
      assert RoundUp(|frames| + 1) == RoundUp(|frames|);
    }
  }

  /** `hunks` are exactly the hunks a body needs. */
  ghost predicate CutFrom(hunks: seq<seq<Byte>>, body: seq<Byte>) {
    && |body| <= |hunks| * 19584 < |body| + 19584
    && forall h :: 0 <= h < |hunks| ==> 0 <= h * 19584 <= |body| && hunks[h] == HunkAt(body, h)
  }

  /** `write_chd`'s hunks: slices of the body, the last one zero-filled. */
  method WriteHunks(tracks: seq<Track>) returns (hunks: seq<seq<Byte>>)
    ensures CutFrom(hunks, Body(Image([], tracks)))
  {
    var frames := WriteFrames(tracks);
    var body := Body(frames);
    hide Body, Image, HunkAt;
    hunks := [];
    var i := 0;
    while i < |body|
      invariant i == |hunks| * 19584 && i < |body| + 19584
      invariant forall h :: 0 <= h < |hunks| ==> 0 <= h * 19584 <= |body| && hunks[h] == HunkAt(body, h)
      decreases |body| - i
    {
      hunks := hunks + [HunkAt(body, |hunks|)];
      i := i + 19584;
    }
  }

  // ---- Where everything went ----

  lemma {:induction false} ImageKeeps(frames: seq<seq<Byte>>, tracks: seq<Track>)
    ensures frames <= Image(frames, tracks)
    decreases |tracks|
  {
    if tracks != [] {
      ImageKeeps(Append(frames, tracks[0]), tracks[1..]);
      assert frames <= Append(frames, tracks[0]);
    }
  }

  /** The reference layout says where the writer put every frame. */
  lemma {:induction false} ImageAt(frames: seq<seq<Byte>>, lba: int, tracks: seq<Track>, i: nat, k: nat)
    requires i < |tracks| && k < |tracks[i].sectors|
    ensures var p := Placed(|frames|, lba, tracks)[i].frame;
            0 <= p && p + k < |Image(frames, tracks)| && Image(frames, tracks)[p + k] == tracks[i].sectors[k]
    decreases i
  {
    var t := tracks[0];
    var next := Append(frames, t);
    AppendLength(frames, t);
    if i == 0 {
      ImageKeeps(next, tracks[1..]);
      AppendAt(frames, t, k);
    } else {
      ImageAt(next, lba + t.pregap + |t.sectors|, tracks[1..], i - 1, k);
      PlacedTail(|frames|, lba, tracks, i);
      hide Append, Placed;
    }
  }

  lemma AppendLength(frames: seq<seq<Byte>>, t: Track)
    ensures |Append(frames, t)| == RoundUp(|frames| + Extent(t))
  {
    hide RoundUp, ZeroFrame;
    assert |frames + Repeat(ZeroFrame(), Stored(t)) + t.sectors| == |frames| + Extent(t);
  }

  lemma AppendAt(frames: seq<seq<Byte>>, t: Track, k: nat)
    requires k < |t.sectors|
    ensures |frames| + Stored(t) + k < |Append(frames, t)|
    ensures Append(frames, t)[|frames| + Stored(t) + k] == t.sectors[k]
  {
    hide RoundUp, ZeroFrame;
    var bare := frames + Repeat(ZeroFrame(), Stored(t)) + t.sectors;
    assert bare[|frames| + Stored(t) + k] == t.sectors[k];
  }

  lemma {:induction false} ImageCut(frames: seq<seq<Byte>>, tracks: seq<Track>)
    requires WellCut(tracks) && forall f :: f in frames ==> |f| == 2352
    ensures forall f :: f in Image(frames, tracks) ==> |f| == 2352
    decreases |tracks|
  {
    if tracks != [] {
      assert WellCut(tracks[1..]);
      assert tracks[0] in tracks;
      hide ZeroFrame, RoundUp;
      ImageCut(Append(frames, tracks[0]), tracks[1..]);
    }
  }

  /** Frame `f` of a body is found at byte `2448 * f`. */
  lemma {:induction false} BodyAt(frames: seq<seq<Byte>>, f: int)
    requires 0 <= f <= |frames| && forall g :: g in frames ==> |g| == 2352
    ensures |Body(frames)| == 2448 * |frames|
    ensures f < |frames| ==> Body(frames)[2448 * f..2448 * f + 2352] == frames[f]
    decreases |frames|
  {
    if frames != [] {
      assert frames[0] in frames;
      var head, rest := frames[0] + Repeat(0, 96), Body(frames[1..]);
      BodyAt(frames[1..], if f == 0 then 0 else f - 1);
      assert Body(frames) == head + rest && |head| == 2448;
      hide Body;
      if 0 < f < |frames| {
        assert 2448 * f - 2448 == 2448 * (f - 1);
        assert (head + rest)[2448 * f..2448 * f + 2352] == rest[2448 * (f - 1)..2448 * (f - 1) + 2352];
      }
    }
  }

  lemma SliceOfSlice<T>(s: seq<T>, lo: int, hi: int, at: int, count: int)
    requires 0 <= lo <= hi <= |s| && 0 <= at && 0 <= count && lo + at + count <= hi
    ensures s[lo..hi][at..at + count] == s[lo + at..lo + at + count]
  {
    var a, b := s[lo..hi][at..at + count], s[lo + at..lo + at + count];
    assert forall j :: 0 <= j < count ==> a[j] == b[j];
  }

  /** The same frame is found in its hunk, eight frames to a hunk. */
  lemma HunkHolds(body: seq<Byte>, frame: int, from: int, count: int)
    requires 0 <= frame && 2448 * frame + 2448 <= |body| && 0 <= from && 0 <= count && from + count <= 2448
    ensures var h, slot := frame / 8, frame % 8;
            && 0 <= h * 19584 <= |body|
            && HunkAt(body, h)[slot * 2448 + from..slot * 2448 + from + count]
               == body[2448 * frame + from..2448 * frame + from + count]
  {
    var h, slot := frame / 8, frame % 8;
    assert h * 19584 + slot * 2448 == 2448 * frame;
    var end := Min((h + 1) * 19584, |body|);
    var m, at, hunk := end - h * 19584, slot * 2448 + from, HunkAt(body, h);
    assert at + count <= m;
    assert hunk[0..m] == body[h * 19584..end];
    SliceOfSlice(hunk, 0, m, at, count);
    SliceOfSlice(body, h * 19584, end, at, count);
    assert 0 + at == at && h * 19584 + at == 2448 * frame + from;
    assert hunk[at..at + count] == hunk[0..m][at..at + count];
    assert hunk[at..at + count] == body[2448 * frame + from..2448 * frame + from + count];
  }

  // ---- What is nobody's data is zero ----

  lemma {:induction false} ImageElsewhere(frames: seq<seq<Byte>>, lba: int, tracks: seq<Track>, f: int)
    requires |frames| <= f < |Image(frames, tracks)|
    requires forall i :: 0 <= i < |tracks| ==>
               !(Placed(|frames|, lba, tracks)[i].frame <= f < Placed(|frames|, lba, tracks)[i].frame + |tracks[i].sectors|)
    ensures Image(frames, tracks)[f] == Repeat(0, 2352)
    decreases |tracks|
  {
    var t := tracks[0];
    var next, here := Append(frames, t), Placed(|frames|, lba, tracks);
    AppendLength(frames, t);
    assert here[0].frame == |frames| + Stored(t);
    if f < |next| {
      ImageKeeps(next, tracks[1..]);
      AppendElsewhere(frames, t, f);
    } else {
      var rest := Placed(|next|, lba + t.pregap + |t.sectors|, tracks[1..]);
      forall i | 0 <= i < |tracks[1..]|
        ensures !(rest[i].frame <= f < rest[i].frame + |tracks[1..][i].sectors|)
      {
        PlacedTail(|frames|, lba, tracks, i + 1);
        assert here[i + 1] == rest[i] && tracks[i + 1] == tracks[1..][i];
      }
      hide Placed, Append;
      ImageElsewhere(next, lba + t.pregap + |t.sectors|, tracks[1..], f);
    }
  }

  lemma AppendElsewhere(frames: seq<seq<Byte>>, t: Track, f: int)
    requires |frames| <= f < |Append(frames, t)|
    requires !(|frames| + Stored(t) <= f < |frames| + Stored(t) + |t.sectors|)
    ensures Append(frames, t)[f] == Repeat(0, 2352)
  {
    hide RoundUp;
    var bare := frames + Repeat(ZeroFrame(), Stored(t)) + t.sectors;
    if f < |bare| {
      assert bare[f] == Repeat(ZeroFrame(), Stored(t))[f - |frames|];
    }
  }

  /** Every byte of every hunk is a frame's, a subcode zero, or a zero behind the body. */
  lemma HunkByte(body: seq<Byte>, h: int, k: int)
    requires 0 <= h * 19584 <= |body| && 0 <= k < 19584
    ensures HunkAt(body, h)[k] == if h * 19584 + k < |body| then body[h * 19584 + k] else 0
  {
  }

  lemma {:induction false} SubcodeZero(frames: seq<seq<Byte>>, f: int)
    requires 0 <= f < |frames| && forall g :: g in frames ==> |g| == 2352
    ensures |Body(frames)| == 2448 * |frames|
    ensures Body(frames)[2448 * f + 2352..2448 * f + 2448] == Repeat(0, 96)
    decreases |frames|
  {
    BodyAt(frames, f);
    assert frames[0] in frames;
    var head, rest := frames[0] + Repeat(0, 96), Body(frames[1..]);
    assert Body(frames) == head + rest && |head| == 2448;
    if f > 0 {
      SubcodeZero(frames[1..], f - 1);
      hide Body;
      assert (head + rest)[2448 * f + 2352..2448 * f + 2448] == rest[2448 * (f - 1) + 2352..2448 * (f - 1) + 2448];
    }
  }
}
