/** What the reader returns from an image the writer produced. */
module DiscRoundTrip {
  import opened Basics
  import opened DiscLayout
  import opened DiscReader
  import opened DiscCache
  import opened DiscHandle
  import opened DiscWriter
  import opened DiscSelection

  /** The user data of a stored frame: 2048 bytes after the 16-byte header, or the whole audio frame. */
  function UserBytes(kind: Kind, sector: seq<Byte>): (d: seq<Byte>)
    requires |sector| == 2352
    ensures |d| == if kind == Mode1Raw then 2048 else 2352
  {
    if kind == Mode1Raw then sector[16..2064] else sector
  }

  /** The user data of consecutive sectors. */
  function UserStream(kind: Kind, sectors: seq<seq<Byte>>): seq<Byte>
    requires forall f :: f in sectors ==> |f| == 2352
  {
    if sectors == [] then [] else UserBytes(kind, sectors[0]) + UserStream(kind, sectors[1..])
  }

  /** BCD, as `int(str(v), 16)` computes it. */
  function Bcd(v: int): int {
    v / 10 * 16 + v % 10
  }

  /** `mode1_frame`: None where the minute no longer fits a BCD byte. */
  function Mode1Frame(lba: nat, user: seq<Byte>): (f: Option<seq<Byte>>)
    requires |user| <= 2048
    ensures f.Some? <==> lba + 150 < 450000
    ensures f.Some? ==> |f.value| == 2352
  {
    var absolute := lba + 150;
    if absolute / 4500 >= 100 then None
    else
      var msf: seq<Byte> := [Bcd(absolute / 4500), Bcd(absolute / 75 % 60), Bcd(absolute % 75)];
      var sector := [0] + Repeat(255, 10) + [0] + msf + [1] + user + Repeat(0, 2048 - |user|);
      Some(sector + Repeat(0, 2352 - |sector|))
  }

  /** A frame built around user data gives that data back, zero-filled to 2048 bytes. */
  lemma Mode1FrameCarriesUser(lba: nat, user: seq<Byte>)
    requires |user| <= 2048 && lba + 150 < 450000
    ensures UserBytes(Mode1Raw, Mode1Frame(lba, user).value) == user + Repeat(0, 2048 - |user|)
  {
    var absolute := lba + 150;
    var msf: seq<Byte> := [Bcd(absolute / 4500), Bcd(absolute / 75 % 60), Bcd(absolute % 75)];
    var head := [0] + Repeat(255, 10) + [0] + msf + [1];
    assert |head| == 16;
    assert Mode1Frame(lba, user).value[..16] == head;
  }

  function FromBcd(v: int): int {
    v / 16 * 10 + v % 16
  }

  /** Around it: the sync pattern, the address of the sector 150 frames on as minute, second and frame, the mode, zeros. */
  lemma Mode1FrameHeader(lba: nat, user: seq<Byte>)
    requires |user| <= 2048 && lba + 150 < 450000
    ensures var f := Mode1Frame(lba, user).value;
            && f[..12] == [0] + Repeat(255, 10) + [0] && f[15] == 1 && f[2064..] == Repeat(0, 288)
            && FromBcd(f[12]) < 100 && FromBcd(f[13]) < 60 && FromBcd(f[14]) < 75
            && (FromBcd(f[12]) * 60 + FromBcd(f[13])) * 75 + FromBcd(f[14]) == lba + 150
  {
    var m, s, r := (lba + 150) / 4500, (lba + 150) / 75 % 60, (lba + 150) % 75;
    Mode1FrameParts(lba, user);
    BcdBack(m);
    BcdBack(s);
    BcdBack(r);
    MinuteSecondFrame(lba + 150);
    hide Mode1Frame, Bcd, FromBcd;
  }

  lemma Mode1FrameParts(lba: nat, user: seq<Byte>)
    requires |user| <= 2048 && lba + 150 < 450000
    ensures var f := Mode1Frame(lba, user).value;
            && f[..12] == [0] + Repeat(255, 10) + [0] && f[15] == 1 && f[2064..] == Repeat(0, 288)
            && f[12] == Bcd((lba + 150) / 4500) && f[13] == Bcd((lba + 150) / 75 % 60) && f[14] == Bcd((lba + 150) % 75)
  {
    hide Bcd;
    var absolute := lba + 150;
    BcdByte(absolute / 4500);
    BcdByte(absolute / 75 % 60);
    BcdByte(absolute % 75);
    var msf: seq<Byte> := [Bcd(absolute / 4500), Bcd(absolute / 75 % 60), Bcd(absolute % 75)];
    var sync: seq<Byte> := [0] + Repeat(255, 10) + [0];
    var head := sync + msf + [1];
    assert Mode1Frame(lba, user).value == head + (user + Repeat(0, 2048 - |user|)) + Repeat(0, 288);
  }

  lemma BcdByte(v: int)
    requires 0 <= v < 100
    ensures 0 <= Bcd(v) < 256
  {
  }

  lemma BcdBack(v: int)
    requires 0 <= v
    ensures FromBcd(Bcd(v)) == v
  {
  }

  lemma MinuteSecondFrame(x: nat)
    ensures (x / 4500 * 60 + x / 75 % 60) * 75 + x % 75 == x
  {
    var q := x / 75;
    assert x == q * 75 + x % 75 && q == q / 60 * 60 + q % 60;
    assert x / 4500 == q / 60;
  }

  /** The hunks of the writer, read by number; reading past the end fails. */
  function ImageOf(hunks: seq<seq<Byte>>, residue: (int, seq<Byte>) -> seq<Byte>): Chd {
    Chd(19584, h => if 0 <= h < |hunks| then Some(hunks[h]) else None, residue)
  }

  ghost predicate HunksOf(hunks: seq<seq<Byte>>, tracks: seq<Track>) {
    CutFrom(hunks, Body(Image([], tracks)))
  }

  /** Both coordinates of track `i` stay below 2^32. */
  predicate Addressable(tracks: seq<Track>, i: nat)
    requires i < |tracks|
  {
    var p := Placed(0, 0, tracks)[i];
    p.frame + |tracks[i].sectors| < 0x1_0000_0000 && p.lba + |tracks[i].sectors| < 0x1_0000_0000
  }

  function Row(tracks: seq<Track>, i: nat): TrackInfo
    requires i < |tracks|
  {
    Table(0, 0, MetaRecords(tracks))[i]
  }

  lemma RowFits(tracks: seq<Track>, i: nat)
    requires i < |tracks| && Addressable(tracks, i)
    ensures ValidTrack(Row(tracks, i))
    ensures var p := Placed(0, 0, tracks)[i];
            && 0 <= p.frame && 0 <= p.lba
            && Row(tracks, i).chdStart == p.frame && Row(tracks, i).absStart == p.lba
            && Row(tracks, i).frames == |tracks[i].sectors|
            && Row(tracks, i).geometry == TrackGeometry(KindName(tracks[i].kind))
  {
    TableCongruent(tracks, i);
    TableValid(0, 0, MetaRecords(tracks), i);
    PlacedClosedForm(tracks, i);
    SumsNonNegative(tracks[..i]);
    var p := Placed(0, 0, tracks)[i];
    hide Placed, Table, SumRounded, SumLba, TrackGeometry, Wrap;
    WrapFits(p.frame);
    WrapFits(p.lba);
    WrapFits(|tracks[i].sectors|);
  }

  /** Any window of a stored frame is found in hunk `frame / 8`, at slot `frame % 8`. */
  lemma StoredAt(tracks: seq<Track>, i: nat, k: nat, hunks: seq<seq<Byte>>, from: int, count: int)
    requires i < |tracks| && k < |tracks[i].sectors| && WellCut(tracks) && HunksOf(hunks, tracks)
    requires 0 <= from && 0 <= count && from + count <= 2352
    ensures |tracks[i].sectors[k]| == 2352
    ensures var frame := Placed(0, 0, tracks)[i].frame + k;
            && 0 <= frame && frame / 8 < |hunks| && |hunks[frame / 8]| == 19584
            && hunks[frame / 8][frame % 8 * 2448 + from..frame % 8 * 2448 + from + count]
               == tracks[i].sectors[k][from..from + count]
  {
    hide Image, Body, HunkAt, Placed;
    assert tracks[i] in tracks && tracks[i].sectors[k] in tracks[i].sectors;
    ImageAt([], 0, tracks, i, k);
    ImageCut([], tracks);
    FrameStored(Image([], tracks), Placed(0, 0, tracks)[i].frame + k, hunks, from, count);
  }

  lemma {:induction false} FrameStored(frames: seq<seq<Byte>>, frame: int, hunks: seq<seq<Byte>>, from: int, count: int)
    requires 0 <= frame < |frames| && forall g :: g in frames ==> |g| == 2352
    requires CutFrom(hunks, Body(frames))
    requires 0 <= from && 0 <= count && from + count <= 2352
    ensures 0 <= frame / 8 < |hunks| && |hunks[frame / 8]| == 19584
    ensures hunks[frame / 8][frame % 8 * 2448 + from..frame % 8 * 2448 + from + count] == frames[frame][from..from + count]
  {
    hide Body, HunkAt;
    var body := Body(frames);
    BodyAt(frames, frame);
    assert 2448 * frame + 2448 <= |body|;
    HunkHolds(body, frame, from, count);
    assert frame / 8 < |hunks|;
    assert hunks[frame / 8] == HunkAt(body, frame / 8);
    SliceOfSlice(body, 2448 * frame, 2448 * frame + 2352, from, count);
  }

  /** A sector of a track whose row is exact, found through its frame's hunk. */
  lemma FreshAt(chd: Chd, t: TrackInfo, k: nat, hunk: seq<Byte>)
    requires ValidChd(chd) && ValidTrack(t) && chd.hunkBytes == 19584
    requires k < t.frames && t.chdStart + k < 0x1_0000_0000 && t.absStart + k < 0x1_0000_0000
    requires |hunk| == 19584 && chd.read((t.chdStart + k) / 8) == Some(hunk)
    ensures InTrack(t, t.absStart + k) && chd.read(HunkOf(chd, FrameOf(t, t.absStart + k))) == Some(hunk)
    ensures var at := (t.chdStart + k) % 8 * 2448 + t.geometry.headerSize;
            Fresh(chd, t, t.absStart + k) == hunk[at..at + t.geometry.dataSize]
  {
    WrapFits(t.chdStart + k);
    assert t.chdStart + (t.absStart + k - t.absStart) == t.chdStart + k;
    assert FramesPerHunk(chd) == 8;
    hide Wrap, ValidChd;
  }

  /** One sector: the reader finds the very bytes the writer was given. */
  lemma SectorRoundTrip(
      tracks: seq<Track>, i: nat, k: nat, hunks: seq<seq<Byte>>, residue: (int, seq<Byte>) -> seq<Byte>)
    requires i < |tracks| && k < |tracks[i].sectors| && WellCut(tracks) && Addressable(tracks, i)
    requires HunksOf(hunks, tracks) && ValidChd(ImageOf(hunks, residue))
    ensures |tracks[i].sectors[k]| == 2352
    ensures var chd, t := ImageOf(hunks, residue), Row(tracks, i);
            && ValidTrack(t) && InTrack(t, t.absStart + k) && IsU32(t.absStart + k)
            && chd.read(HunkOf(chd, FrameOf(t, t.absStart + k))).Some?
            && Fresh(chd, t, t.absStart + k) == UserBytes(tracks[i].kind, tracks[i].sectors[k])
            && 0 < t.geometry.dataSize == |Fresh(chd, t, t.absStart + k)|
  {
    hide Placed, Row, Fresh, HunkOf, FrameOf, HunksOf, WellCut, ValidChd, Table, Wrap;
    var t := Row(tracks, i);
    RowFits(tracks, i);
    var frame := Placed(0, 0, tracks)[i].frame + k;
    StoredAt(tracks, i, k, hunks, t.geometry.headerSize, t.geometry.dataSize);
    FreshAt(ImageOf(hunks, residue), t, k, hunks[frame / 8]);
  }

  /** Any request inside a track: the user data from sector `k` on, cut at the request or the track's end. */
  lemma {:induction false} RequestRoundTrip(
      tracks: seq<Track>, i: nat, k: nat, n: nat, hunks: seq<seq<Byte>>, residue: (int, seq<Byte>) -> seq<Byte>)
    requires i < |tracks| && k <= |tracks[i].sectors| && WellCut(tracks) && Addressable(tracks, i)
    requires HunksOf(hunks, tracks) && ValidChd(ImageOf(hunks, residue))
    ensures forall f :: f in tracks[i].sectors ==> |f| == 2352
    ensures var t := Row(tracks, i);
            && ValidTrack(t) && IsU32(t.absStart + k)
            && FreshRead(ImageOf(hunks, residue), t, t.absStart + k, n)
               == Take(UserStream(tracks[i].kind, tracks[i].sectors[k..]), n)
    decreases |tracks[i].sectors| - k
  {
    hide *;
    var chd, t, sectors, kind := ImageOf(hunks, residue), Row(tracks, i), tracks[i].sectors, tracks[i].kind;
    RowRange(tracks, i, k);
    if k == |sectors| {
      ReadPastEnd(chd, t, t.absStart + k, n);
      StreamEnd(kind, sectors, k, n);
    } else {
      SectorRoundTrip(tracks, i, k, hunks, residue);
      var size := t.geometry.dataSize;
      RequestRoundTrip(tracks, i, k + 1, if n <= size then 0 else n - size, hunks, residue);
      StreamStep(kind, sectors, k, n);
      NextInTrack(t.absStart + k);
      if n <= size {
        PartSector(chd, t, t.absStart + k, n);
      } else {
        OneSector(chd, t, t.absStart + k, n - size);
      }
    }
  }

  lemma RowRange(tracks: seq<Track>, i: nat, k: nat)
    requires i < |tracks| && k <= |tracks[i].sectors| && WellCut(tracks) && Addressable(tracks, i)
    ensures forall f :: f in tracks[i].sectors ==> |f| == 2352
    ensures ValidTrack(Row(tracks, i)) && IsU32(Row(tracks, i).absStart + k)
    ensures InTrack(Row(tracks, i), Row(tracks, i).absStart + k) <==> k < |tracks[i].sectors|
    ensures k < |tracks[i].sectors| ==> Row(tracks, i).absStart + k + 1 < 0x1_0000_0000
  {
    assert tracks[i] in tracks;
    RowFits(tracks, i);
    hide Row, Placed;
  }

  lemma NextInTrack(sector: int)
    requires IsU32(sector)
    ensures sector + 1 < 0x1_0000_0000 ==> Wrap(sector + 1) == sector + 1
  {
  }

  lemma ReadPastEnd(chd: Chd, t: TrackInfo, sector: int, n: nat)
    requires ValidChd(chd) && ValidTrack(t) && !InTrack(t, sector)
    ensures FreshRead(chd, t, sector, n) == []
  {
  }

  lemma StreamEnd(kind: Kind, sectors: seq<seq<Byte>>, k: nat, n: nat)
    requires k == |sectors| && forall f :: f in sectors ==> |f| == 2352
    ensures Take(UserStream(kind, sectors[k..]), n) == []
  {
  }

  lemma StreamStep(kind: Kind, sectors: seq<seq<Byte>>, k: nat, n: nat)
    requires k < |sectors| && forall f :: f in sectors ==> |f| == 2352
    ensures var one := UserBytes(kind, sectors[k]);
            var rest := UserStream(kind, sectors[k + 1..]);
            Take(UserStream(kind, sectors[k..]), n) == if n <= |one| then one[..n] else one + Take(rest, n - |one|)
  {
    hide UserBytes;
    assert sectors[k..][1..] == sectors[k + 1..];
  }

  lemma ImageValid(hunks: seq<seq<Byte>>, tracks: seq<Track>, residue: (int, seq<Byte>) -> seq<Byte>)
    requires HunksOf(hunks, tracks)
    requires forall h: int, b: seq<Byte> :: |b| == 19584 ==> |residue(h, b)| == 19584
    ensures ValidChd(ImageOf(hunks, residue)) && ImageOf(hunks, residue).hunkBytes == 19584
  {
    hide Body, Image;
    var body := Body(Image([], tracks));
    forall h: int | ImageOf(hunks, residue).read(h).Some?
      ensures |ImageOf(hunks, residue).read(h).value| == 19584
    {
      assert hunks[h] == HunkAt(body, h);
    }
  }

  /** The cached reader over such an image, whatever its buffer first held and whatever failed reads leave behind. */
  lemma RoundTrip(
      tracks: seq<Track>, i: nat, k: nat, n: nat, hunks: seq<seq<Byte>>, residue: (int, seq<Byte>) -> seq<Byte>,
      buf: seq<Byte>)
    requires i < |tracks| && k <= |tracks[i].sectors| && WellCut(tracks) && Addressable(tracks, i)
    requires HunksOf(hunks, tracks) && ValidChd(ImageOf(hunks, residue)) && |buf| == 19584
    ensures forall f :: f in tracks[i].sectors ==> |f| == 2352
    ensures var t := Row(tracks, i);
            && Ready(ImageOf(hunks, residue), t, Cache(-1, buf))
            && ReadMany(ImageOf(hunks, residue), t, Cache(-1, buf), t.absStart + k, n).data
               == Take(UserStream(tracks[i].kind, tracks[i].sectors[k..]), n)
  {
    hide Row, ReadMany, FreshRead, UserStream, ImageOf, NoSentinel, FailureKeepsBuffer, ValidChd, ValidTrack, Wrap, WellCut,
      Addressable, HunksOf, Placed;
    RequestRoundTrip(tracks, i, k, n, hunks, residue);
    TrackReadable(tracks, i, hunks, residue);
    EmptyCacheReady(ImageOf(hunks, residue), Row(tracks, i), buf);
    ReadRefines(ImageOf(hunks, residue), Row(tracks, i), Cache(-1, buf), Row(tracks, i).absStart + k, n);
  }

  /** The user data of a track from `sector` on, its first sector being at `first`; nothing outside. */
  function StreamFrom(track: Track, first: int, sector: int): seq<Byte>
    requires forall f :: f in track.sectors ==> |f| == 2352
  {
    if first <= sector <= first + |track.sectors| then UserStream(track.kind, track.sectors[sector - first..]) else []
  }

  /** Every answer of a session is the track's user data from its sector on, cut at the request or the track's end. */
  ghost predicate Answered(track: Track, first: int, reqs: seq<Request>, answers: seq<seq<Byte>>)
    requires (forall f :: f in track.sectors ==> |f| == 2352) && Addressed(reqs)
  {
    && |answers| == |reqs|
    && forall k :: 0 <= k < |reqs| ==> answers[k] == Take(StreamFrom(track, first, reqs[k].sector), reqs[k].bytes)
  }

  lemma AnyRequest(
      tracks: seq<Track>, i: nat, r: Request, hunks: seq<seq<Byte>>, residue: (int, seq<Byte>) -> seq<Byte>)
    requires i < |tracks| && IsU32(r.sector) && 0 <= r.bytes && WellCut(tracks) && Addressable(tracks, i)
    requires HunksOf(hunks, tracks) && ValidChd(ImageOf(hunks, residue))
    ensures (forall f :: f in tracks[i].sectors ==> |f| == 2352) && ValidTrack(Row(tracks, i))
    ensures FreshRead(ImageOf(hunks, residue), Row(tracks, i), r.sector, r.bytes)
            == Take(StreamFrom(tracks[i], Row(tracks, i).absStart, r.sector), r.bytes)
  {
    hide Row, FreshRead, UserStream, ImageOf, HunksOf, WellCut, Addressable, ValidChd, Placed, Wrap;
    RowRange(tracks, i, 0);
    RowFits(tracks, i);
    var first := Row(tracks, i).absStart;
    hide ValidTrack;
    if first <= r.sector <= first + |tracks[i].sectors| {
      RequestRoundTrip(tracks, i, r.sector - first, r.bytes, hunks, residue);
      assert first + (r.sector - first) == r.sector;
    } else {
      ReadPastEnd(ImageOf(hunks, residue), Row(tracks, i), r.sector, r.bytes);
    }
  }

  lemma {:induction false} FreshSessionRoundTrip(
      tracks: seq<Track>, i: nat, reqs: seq<Request>, hunks: seq<seq<Byte>>, residue: (int, seq<Byte>) -> seq<Byte>)
    requires i < |tracks| && WellCut(tracks) && Addressable(tracks, i) && Addressed(reqs)
    requires HunksOf(hunks, tracks) && ValidChd(ImageOf(hunks, residue))
    ensures (forall f :: f in tracks[i].sectors ==> |f| == 2352) && ValidTrack(Row(tracks, i))
    ensures Answered(tracks[i], Row(tracks, i).absStart, reqs, FreshSession(ImageOf(hunks, residue), Row(tracks, i), reqs))
    decreases |reqs|
  {
    hide Row, FreshRead, StreamFrom, ImageOf, HunksOf, WellCut, Addressable, ValidChd, ValidTrack, IsU32, Take;
    RowRange(tracks, i, 0);
    if reqs != [] {
      AnyRequest(tracks, i, reqs[0], hunks, residue);
      FreshSessionRoundTrip(tracks, i, reqs[1..], hunks, residue);
    }
  }

  /** Every session on a written disc, wherever its requests start and in whatever order. */
  lemma SessionRoundTrip(
      tracks: seq<Track>, i: nat, reqs: seq<Request>, hunks: seq<seq<Byte>>, residue: (int, seq<Byte>) -> seq<Byte>,
      buf: seq<Byte>)
    requires i < |tracks| && WellCut(tracks) && Addressable(tracks, i) && Addressed(reqs)
    requires HunksOf(hunks, tracks) && ValidChd(ImageOf(hunks, residue)) && |buf| == 19584
    ensures forall f :: f in tracks[i].sectors ==> |f| == 2352
    ensures var chd, t := ImageOf(hunks, residue), Row(tracks, i);
            && Ready(chd, t, Cache(-1, buf))
            && Answered(tracks[i], t.absStart, reqs, Session(chd, t, Cache(-1, buf), reqs))
  {
    hide Row, Session, FreshSession, Answered, ImageOf, NoSentinel, FailureKeepsBuffer, ValidChd, ValidTrack, WellCut,
      Addressable, HunksOf;
    FreshSessionRoundTrip(tracks, i, reqs, hunks, residue);
    TrackReadable(tracks, i, hunks, residue);
    EmptyCacheReady(ImageOf(hunks, residue), Row(tracks, i), buf);
    SessionRefines(ImageOf(hunks, residue), Row(tracks, i), Cache(-1, buf), reqs);
  }

  lemma EmptyCacheReady(chd: Chd, t: TrackInfo, buf: seq<Byte>)
    requires ValidChd(chd) && ValidTrack(t) && |buf| == chd.hunkBytes
    ensures Ready(chd, t, Cache(-1, buf)) && Truthful(chd, Cache(-1, buf))
  {
  }

  /** No hunk of a written track fails to read, and none has the number that casts to -1. */
  lemma TrackReadable(
      tracks: seq<Track>, i: nat, hunks: seq<seq<Byte>>, residue: (int, seq<Byte>) -> seq<Byte>)
    requires i < |tracks| && WellCut(tracks) && Addressable(tracks, i)
    requires HunksOf(hunks, tracks) && ValidChd(ImageOf(hunks, residue))
    ensures ImageOf(hunks, residue).hunkBytes == 19584 && ValidTrack(Row(tracks, i))
    ensures NoSentinel(ImageOf(hunks, residue), Row(tracks, i))
    ensures FailureKeepsBuffer(ImageOf(hunks, residue), Row(tracks, i))
  {
    hide Row, Wrap, WellCut, Addressable, HunksOf, Placed, UserBytes, Fresh;
    RowFits(tracks, i);
    var chd, t := ImageOf(hunks, residue), Row(tracks, i);
    forall s: int | IsU32(s) && InTrack(t, s)
      ensures chd.read(HunkOf(chd, FrameOf(t, s))).Some?
    {
      SectorRoundTrip(tracks, i, s - t.absStart, hunks, residue);
      assert t.absStart + (s - t.absStart) == s;
    }
    EightFrames(chd);
    NoSentinelWhen(chd, t);
  }

  lemma EightFrames(chd: Chd)
    requires chd.hunkBytes == 19584
    ensures FramesPerHunk(chd) == 8
  {
  }

  lemma {:induction false} RowOfPrefix(chdFrame: int, absSector: int, tracks: seq<Track>, m: nat, i: nat)
    requires i < m <= |tracks|
    ensures Table(chdFrame, absSector, MetaRecords(tracks[..m]))[i] == Table(chdFrame, absSector, MetaRecords(tracks))[i]
    decreases i
  {
    var r := MetaRecord(tracks[0]);
    if i > 0 {
      TableTail(chdFrame, absSector, tracks, i);
      TableTail(chdFrame, absSector, tracks[..m], i);
      assert tracks[..m][1..] == tracks[1..][..m - 1];
      hide Table, NextChd, NextAbs, MetaRecord;
      RowOfPrefix(NextChd(chdFrame, r), NextAbs(absSector, r), tracks[1..], m - 1, i - 1);
    }
  }

  /** The row opened is its track's own. */
  lemma OpensRow(tracks: seq<Track>, gdrom: bool, wanted: Wanted, index: int)
    requires Selects(Table(0, 0, Records(MetaSlots(tracks, gdrom), MAX_TRACKS)), wanted, index)
    ensures Opens(Take(tracks, 99), wanted, index)
    ensures -1 <= index < |tracks|
    ensures index >= 0 ==> index < |Records(MetaSlots(tracks, gdrom), MAX_TRACKS)|
                           && Table(0, 0, Records(MetaSlots(tracks, gdrom), MAX_TRACKS))[index] == Row(tracks, index)
  {
    SelectionExact(tracks, gdrom, wanted, index);
    hide Wrap, Records, Table, MetaSlots, MetaRecords, Placed, TrackGeometry;
    RecordsOfMeta(tracks, gdrom, MAX_TRACKS);
    if index >= 0 {
      RowOfPrefix(0, 0, tracks, Min(MAX_TRACKS, |tracks|), index);
    }
  }

  lemma DeliveredAll(r: Copied, was: seq<Byte>, now: seq<Byte>, state: Cache, n: int)
    requires Delivers(r, 0, was, now, state, n)
    ensures 0 <= n <= |now| && now[..n] == r.data
  {
  }

  /** What an open handle on track `index` returns for a request that starts `offset` sectors into the track. */
  ghost predicate Views(tracks: seq<Track>, index: nat, offset: nat, size: nat, first: int, data: seq<Byte>)
    requires index < |tracks| && forall f :: f in tracks[index].sectors ==> |f| == 2352
  {
    Addressable(tracks, index) ==>
      && first == Placed(0, 0, tracks)[index].lba
      && (offset <= |tracks[index].sectors| ==> data == Take(UserStream(tracks[index].kind, tracks[index].sectors[offset..]), size))
      && (|tracks[index].sectors| < offset < 0x1_0000_0000 - first ==> data == [])
  }

  /** `track_view`: write the disc, open what a request value means, read from an offset inside it. */
  method TrackView(
      tracks: seq<Track>, gdrom: bool, codes: Codes, wanted: int, offset: nat, size: nat,
      residue: (int, seq<Byte>) -> seq<Byte>)
    returns (first: Option<int>, data: seq<Byte>, ghost index: int)
    requires WellCut(tracks) && forall h: int, b: seq<Byte> :: |b| == 19584 ==> |residue(h, b)| == 19584
    ensures Opens(Take(tracks, 99), Means(codes, wanted), index)
    ensures first.None? <==> index < 0
    ensures first.None? ==> data == []
    ensures first.Some? ==>
              && index < |tracks| && (forall f :: f in tracks[index].sectors ==> |f| == 2352)
              && Views(tracks, index, offset, size, first.value, data)
  {
    hide Table, Records, Placed, Image, Body, ReadMany, UserStream, Row, Addressable, Ready, ValidChd,
      ValidTrack, MetaSlots, Delivers, ImageOf, Wrap, Take, WellCut, Views, Opens, Means;
    var hunks := WriteHunks(tracks);
    ImageValid(hunks, tracks, residue);
    var handle;
    handle, index := OpenTrack(ImageOf(hunks, residue), MetaSlots(tracks, gdrom), codes, wanted);
    OpensRow(tracks, gdrom, Means(codes, wanted), index);
    if handle == null {
      return None, [], index;
    }
    var start := handle.track.absStart;
    var buffer := new Byte[size];
    ghost var was, before := buffer[..], handle.State();
    var got := handle.ReadSector(Wrap(start + offset), buffer, size);
    DeliveredAll(ReadMany(handle.chd, handle.track, before, Wrap(start + offset), size), was, buffer[..], handle.State(), got);
    first, data := Some(start), buffer[..got];
    ViewHolds(tracks, index, offset, size, hunks, residue, before.buf, data);
  }

  lemma ViewHolds(
      tracks: seq<Track>, index: nat, offset: nat, size: nat, hunks: seq<seq<Byte>>,
      residue: (int, seq<Byte>) -> seq<Byte>, buf: seq<Byte>, data: seq<Byte>)
    requires index < |tracks| && WellCut(tracks) && HunksOf(hunks, tracks)
    requires Ready(ImageOf(hunks, residue), Row(tracks, index), Cache(-1, buf))
    requires data == ReadMany(ImageOf(hunks, residue), Row(tracks, index), Cache(-1, buf),
                              Wrap(Row(tracks, index).absStart + offset), size).data
    ensures forall f :: f in tracks[index].sectors ==> |f| == 2352
    ensures Views(tracks, index, offset, size, Row(tracks, index).absStart, data)
  {
    hide Placed, ReadMany, UserStream, ImageOf, ValidChd, ValidTrack, Wrap, Row, HunksOf, Addressable;
    assert tracks[index] in tracks;
    assert ImageOf(hunks, residue).hunkBytes == 19584 by {
      ImageBytes(hunks, residue);
    }
    if Addressable(tracks, index) {
      var first := Row(tracks, index).absStart;
      RowFits(tracks, index);
      if offset <= |tracks[index].sectors| {
        RowRange(tracks, index, offset);
        WrapFits(first + offset);
        RoundTrip(tracks, index, offset, size, hunks, residue, buf);
      } else if first + offset < 0x1_0000_0000 {
        WrapFits(first + offset);
        BehindTrack(tracks, index, first + offset, size, hunks, residue, buf);
      }
    }
  }

  lemma ImageBytes(hunks: seq<seq<Byte>>, residue: (int, seq<Byte>) -> seq<Byte>)
    ensures ImageOf(hunks, residue).hunkBytes == 19584
  {
  }

  lemma BehindTrack(
      tracks: seq<Track>, i: nat, sector: int, n: nat, hunks: seq<seq<Byte>>, residue: (int, seq<Byte>) -> seq<Byte>,
      buf: seq<Byte>)
    requires i < |tracks| && WellCut(tracks) && Addressable(tracks, i) && IsU32(sector)
    requires Ready(ImageOf(hunks, residue), Row(tracks, i), Cache(-1, buf))
    requires Row(tracks, i).absStart + |tracks[i].sectors| < sector
    ensures ReadMany(ImageOf(hunks, residue), Row(tracks, i), Cache(-1, buf), sector, n).data == []
  {
    RowFits(tracks, i);
    hide Row, Placed, ImageOf, ValidChd, Wrap, Addressable, Fetch, UserData;
  }
}
