/**
 * Where a disc image keeps each track. The reader turns parsed track metadata
 * into two coordinates, the padded frame inside the image and the unpadded
 * absolute sector (LBA); the reference layout computes the same pair from the
 * tracks themselves. The reader counts in `uint32_t`, the layout does not wrap.
 */
module DiscLayout {
  import opened Basics

  const MAX_TRACKS: nat := 99
  const FRAME_DATA: nat := 2352

  /** One metadata record, as the `%d` and `%s` conversions leave it. */
  datatype Record = Record(number: int, kind: string, frames: int, pregap: int, pgtype: string)

  /** What asking for one metadata tag at one index gave. */
  datatype Lookup = NoTag | Malformed | Parsed(record: Record)

  /** The four tags the reader may ask for at one index. */
  datatype Slot = Slot(cht2: Lookup, chgd: Lookup, chgt: Lookup, chtr: Lookup)

  datatype Geometry = Geometry(headerSize: nat, dataSize: nat, isData: bool)

  datatype TrackInfo = TrackInfo(
    number: int, frames: int, pregap: int, chdStart: int, absStart: int, geometry: Geometry)

  /** Where a track's data begins: its image frame and its LBA. */
  datatype Spot = Spot(frame: int, lba: int)

  datatype Kind = Mode1Raw | Audio

  /** A track of the reference writer: `sectors` are its 2352-byte frames. */
  datatype Track = Track(number: int, kind: Kind, sectors: seq<seq<Byte>>, pregap: nat, pregapStored: bool)

  // ---- The reader's table ----

  /** The record found at one index, or None where the walk over the metadata stops. */
  function ParseSlot(slot: Slot): Option<Record> {
    match slot.cht2
    case Parsed(r) => Some(r)
    case Malformed => None
    case NoTag =>
      match if slot.chgd.NoTag? then slot.chgt else slot.chgd {
        case Parsed(r) => Some(r)
        case Malformed => None
        case NoTag =>
          match slot.chtr
          case Parsed(r) => Some(r.(pregap := 0, pgtype := ""))
          case _ => None
      }
  }

  /** The four lookups in the order they are tried. */
  function Tried(slot: Slot): seq<Lookup> {
    [slot.cht2, slot.chgd, slot.chgt, slot.chtr]
  }

  /** The first tag that is there decides, well-formed or not; only the last of them says nothing about a pregap. */
  lemma SlotExact(slot: Slot, k: nat)
    requires k <= 4 && (forall j :: 0 <= j < k ==> Tried(slot)[j] == NoTag) && (k < 4 ==> Tried(slot)[k] != NoTag)
    ensures ParseSlot(slot).Some? <==> k < 4 && Tried(slot)[k].Parsed?
    ensures k < 3 && Tried(slot)[k].Parsed? ==> ParseSlot(slot).value == Tried(slot)[k].record
    ensures k == 3 && slot.chtr.Parsed? ==>
              var r := ParseSlot(slot).value;
              && (r.number, r.kind, r.frames) == (slot.chtr.record.number, slot.chtr.record.kind, slot.chtr.record.frames)
              && r.pregap == 0 && StoredPregap(r) == 0
  {
    assert Tried(slot)[0] == slot.cht2 && Tried(slot)[1] == slot.chgd;
    assert Tried(slot)[2] == slot.chgt && Tried(slot)[3] == slot.chtr;
  }

  /** The user-data window of a track type inside its 2352-byte frame. */
  function TrackGeometry(kind: string): (g: Geometry)
    ensures 0 < g.dataSize && g.headerSize + g.dataSize <= FRAME_DATA
  {
    if kind == "MODE1" then Geometry(0, 2048, true)
    else if kind == "MODE1_RAW" then Geometry(16, 2048, true)
    else if kind == "MODE2" || kind == "MODE2_FORM_MIX" then Geometry(8, 2048, true)
    else if kind == "MODE2_FORM1" then Geometry(0, 2048, true)
    else if kind == "MODE2_FORM2" then Geometry(0, 2324, true)
    else if kind == "MODE2_RAW" then Geometry(24, 2048, true)
    else if kind == "AUDIO" then Geometry(0, FRAME_DATA, false)
    else Geometry(0, FRAME_DATA, true)
  }

  /** The fields of a stored sector, in bytes and in order. */
  datatype Fields = Fields(sync: nat, address: nat, subheader: nat, user: nat, correction: nat)

  /** The fields each track type stores, None for a type without a name. */
  function StoredFields(kind: string): Option<Fields> {
    match kind
    case "MODE1" => Some(Fields(0, 0, 0, 2048, 0))
    case "MODE1_RAW" => Some(Fields(12, 4, 0, 2048, 288))
    case "MODE2" => Some(Fields(0, 0, 8, 2048, 280))
    case "MODE2_FORM_MIX" => Some(Fields(0, 0, 8, 2048, 280))
    case "MODE2_FORM1" => Some(Fields(0, 0, 0, 2048, 0))
    case "MODE2_FORM2" => Some(Fields(0, 0, 0, 2324, 0))
    case "MODE2_RAW" => Some(Fields(12, 4, 8, 2048, 280))
    case "AUDIO" => Some(Fields(0, 0, 0, 2352, 0))
    case _ => None
  }

  /** The window is the user data behind all that is stored in front of it; a nameless type is one window; only audio is no data. */
  lemma GeometryExact(kind: string)
    ensures var g := TrackGeometry(kind);
            && (g.isData <==> kind != "AUDIO")
            && match StoredFields(kind)
               case None => g.headerSize == 0 && g.dataSize == 2352
               case Some(f) => g.headerSize == f.sync + f.address + f.subheader && g.dataSize == f.user
    ensures StoredFields(kind).Some? ==>
              var f := StoredFields(kind).value;
              f.sync + f.address + f.subheader + f.user + f.correction
              == if kind in {"MODE1", "MODE2_FORM1"} then 2048
                 else if kind in {"MODE2", "MODE2_FORM_MIX"} then 2336
                 else if kind == "MODE2_FORM2" then 2324
                 else 2352
  {
  }

  function StoredPregap(r: Record): int {
    if r.pgtype != "" && r.pgtype[0] == 'V' then Wrap(r.pregap) else 0
  }

  /** The frame counter padded to a four-frame boundary; the sum may wrap. */
  function PadFrame(chdFrame: int): int {
    Wrap(Wrap(chdFrame + 3) / 4 * 4)
  }

  /** The image frame counter after one more record. */
  function NextChd(chdFrame: int, r: Record): int {
    PadFrame(Wrap(chdFrame + Wrap(StoredPregap(r) + Wrap(r.frames))))
  }

  /** The absolute sector counter after one more record. */
  function NextAbs(absSector: int, r: Record): int {
    Wrap(absSector + Wrap(Wrap(r.pregap) + Wrap(r.frames)))
  }

  function Place(r: Record, chdFrame: int, absSector: int): TrackInfo {
    TrackInfo(Wrap(r.number), Wrap(r.frames), Wrap(r.pregap), Wrap(chdFrame + StoredPregap(r)),
              Wrap(absSector + Wrap(r.pregap)), TrackGeometry(r.kind))
  }

  function Table(chdFrame: int, absSector: int, recs: seq<Record>): (t: seq<TrackInfo>)
    ensures |t| == |recs|
    decreases |recs|
  {
    if recs == [] then []
    else [Place(recs[0], chdFrame, absSector)]
         + Table(NextChd(chdFrame, recs[0]), NextAbs(absSector, recs[0]), recs[1..])
  }

  /** The records the walk accepts: the longest parsable run of at most `limit` slots. */
  function Records(slots: seq<Slot>, limit: nat): (recs: seq<Record>)
    ensures |recs| <= limit
  {
    if slots == [] || limit == 0 || ParseSlot(slots[0]).None? then []
    else [ParseSlot(slots[0]).value] + Records(slots[1..], limit - 1)
  }

  /** `raproxy_read_tracks`: fills the caller's table in place, counting in 32 bits. */
  method ReadTracks(slots: seq<Slot>, tracks: array<TrackInfo>) returns (ok: bool, count: nat)
    requires tracks.Length == MAX_TRACKS
    modifies tracks
    ensures count <= MAX_TRACKS && tracks[..count] == Table(0, 0, Records(slots, MAX_TRACKS))
    ensures forall i :: count <= i < MAX_TRACKS ==> tracks[i] == old(tracks[i])
    ensures ok <==> count > 0
  {
    ghost var all := Table(0, 0, Records(slots, MAX_TRACKS));
    hide *;
    var chdFrame, absSector := 0, 0;
    count := 0;
    while count < MAX_TRACKS && count < |slots| && ParseSlot(slots[count]).Some?
      invariant count <= MAX_TRACKS && count <= |slots| && count <= |all|
      invariant all[count..] == Table(chdFrame, absSector, Records(slots[count..], MAX_TRACKS - count))
      invariant forall i :: 0 <= i < count ==> tracks[i] == all[i]
      invariant forall i :: count <= i < MAX_TRACKS ==> tracks[i] == old(tracks[i])
    {
      var r := ParseSlot(slots[count]).value;
      TableStep(slots, count, MAX_TRACKS - count, chdFrame, absSector);
      StepsSpelledOut(r, chdFrame, absSector);
      assert all[count] == all[count..][0];
      assert all[count + 1..] == all[count..][1..];
      var stored := StoredPregap(r);
      tracks[count] := TrackInfo(Wrap(r.number), Wrap(r.frames), Wrap(r.pregap), Wrap(chdFrame + stored),
                                 Wrap(absSector + Wrap(r.pregap)), TrackGeometry(r.kind));
      absSector := Wrap(absSector + Wrap(Wrap(r.pregap) + Wrap(r.frames)));
      chdFrame := Wrap(chdFrame + Wrap(stored + Wrap(r.frames)));
      chdFrame := PadFrame(chdFrame);
      count := count + 1;
    }
    TableStop(slots[count..], MAX_TRACKS - count, chdFrame, absSector);
    ok := count > 0;
  }

  lemma StepsSpelledOut(r: Record, chdFrame: int, absSector: int)
    ensures Place(r, chdFrame, absSector)
            == TrackInfo(Wrap(r.number), Wrap(r.frames), Wrap(r.pregap), Wrap(chdFrame + StoredPregap(r)),
                         Wrap(absSector + Wrap(r.pregap)), TrackGeometry(r.kind))
    ensures NextAbs(absSector, r) == Wrap(absSector + Wrap(Wrap(r.pregap) + Wrap(r.frames)))
    ensures NextChd(chdFrame, r) == PadFrame(Wrap(chdFrame + Wrap(StoredPregap(r) + Wrap(r.frames))))
  {
    hide Wrap, PadFrame;
  }

  lemma TableStop(slots: seq<Slot>, limit: nat, chdFrame: int, absSector: int)
    requires slots == [] || limit == 0 || ParseSlot(slots[0]).None?
    ensures Table(chdFrame, absSector, Records(slots, limit)) == []
  {
  }

  lemma TableStep(slots: seq<Slot>, k: nat, limit: nat, chdFrame: int, absSector: int)
    requires k < |slots| && limit > 0 && ParseSlot(slots[k]).Some?
    ensures var r := ParseSlot(slots[k]).value;
            Table(chdFrame, absSector, Records(slots[k..], limit))
            == [Place(r, chdFrame, absSector)]
               + Table(NextChd(chdFrame, r), NextAbs(absSector, r), Records(slots[k + 1..], limit - 1))
  {
    hide Wrap, Place, NextChd, NextAbs, ParseSlot;
    assert slots[k..][1..] == slots[k + 1..];
    assert Records(slots[k..], limit)[1..] == Records(slots[k + 1..], limit - 1);
  }

  // ---- The reference layout ----

  function Stored(t: Track): nat {
    if t.pregapStored then t.pregap else 0
  }

  /** Image frames a track takes, pregap included, before padding. */
  function Extent(t: Track): nat {
    Stored(t) + |t.sectors|
  }

  function RoundUp(x: int): int {
    (x + 3) / 4 * 4
  }

  /** First image frame and LBA of every track's data, the counters starting at `frame` and `lba`. */
  function Placed(frame: int, lba: int, tracks: seq<Track>): (p: seq<Spot>)
    ensures |p| == |tracks|
    decreases |tracks|
  {
    if tracks == [] then [] else
    var t := tracks[0];
    [Spot(frame + Stored(t), lba + t.pregap)]
    + Placed(RoundUp(frame + Extent(t)), lba + t.pregap + |t.sectors|, tracks[1..])
  }

  /** Python's `-(-x // 4) * 4`: floor division of the negated counter. */
  function Ceiling(x: int): int {
    -((-x) / 4) * 4
  }

  /** `layout`. */
  method Layout(tracks: seq<Track>) returns (placed: seq<Spot>)
    ensures placed == Placed(0, 0, tracks)
  {
    ghost var all := Placed(0, 0, tracks);
    hide Ceiling, RoundUp;
    placed := [];
    var chdFrame, lba := 0, 0;
    for i := 0 to |tracks|
      invariant all[i..] == Placed(chdFrame, lba, tracks[i..])
      invariant placed == all[..i]
    {
      var t := tracks[i];
      var stored := if t.pregapStored then t.pregap else 0;
      assert all[i..][1..] == all[i + 1..] && all[i..][0] == all[i] && tracks[i..][1..] == tracks[i + 1..];
      placed := placed + [Spot(chdFrame + stored, lba + t.pregap)];
      CeilingIsRoundUp(chdFrame + stored + |t.sectors|);
      lba := lba + t.pregap + |t.sectors|;
      chdFrame := chdFrame + stored + |t.sectors|;
      chdFrame := Ceiling(chdFrame);
    }
  }

  lemma CeilingIsRoundUp(x: int)
    ensures Ceiling(x) == RoundUp(x)
  {
  }

  // ---- Closed forms, order and padding ----

  function SumRounded(tracks: seq<Track>): int {
    if tracks == [] then 0 else RoundUp(Extent(tracks[0])) + SumRounded(tracks[1..])
  }

  function SumLba(tracks: seq<Track>): int {
    if tracks == [] then 0 else tracks[0].pregap + |tracks[0].sectors| + SumLba(tracks[1..])
  }

  function SumExtents(tracks: seq<Track>): int {
    if tracks == [] then 0 else Extent(tracks[0]) + SumExtents(tracks[1..])
  }

  lemma RoundUpAdds(x: int, y: int)
    requires x % 4 == 0
    ensures RoundUp(x + y) == x + RoundUp(y) && RoundUp(y) % 4 == 0
    ensures y <= RoundUp(y) <= y + 3
  {
  }

  /** Rounding the running total places a track where rounding every earlier track does. */
  lemma {:induction false} PlacedFrom(frame: int, lba: int, tracks: seq<Track>, i: nat)
    requires i < |tracks| && frame % 4 == 0
    ensures Placed(frame, lba, tracks)[i].frame == frame + SumRounded(tracks[..i]) + Stored(tracks[i])
    ensures Placed(frame, lba, tracks)[i].lba == lba + SumLba(tracks[..i]) + tracks[i].pregap
    decreases i
  {
    var t := tracks[0];
    RoundUpAdds(frame, Extent(t));
    hide RoundUp, Extent, Stored;
    if i > 0 {
      assert tracks[1..][..i - 1] == tracks[..i][1..];
      PlacedFrom(RoundUp(frame + Extent(t)), lba + t.pregap + |t.sectors|, tracks[1..], i - 1);
    }
  }

  /** The closed forms of both coordinates. */
  lemma PlacedClosedForm(tracks: seq<Track>, i: nat)
    requires i < |tracks|
    ensures Placed(0, 0, tracks)[i].frame == SumRounded(tracks[..i]) + Stored(tracks[i])
    ensures Placed(0, 0, tracks)[i].lba == SumLba(tracks[..i]) + tracks[i].pregap
  {
    PlacedFrom(0, 0, tracks, i);
  }

  /** Padding wastes at most three frames a track. */
  lemma {:induction false} PaddingBound(tracks: seq<Track>)
    ensures 0 <= SumExtents(tracks) <= SumRounded(tracks) <= SumExtents(tracks) + 3 * |tracks|
  {
    if tracks != [] {
      RoundUpAdds(0, Extent(tracks[0]));
      hide RoundUp, Extent;
      PaddingBound(tracks[1..]);
    }
  }

  lemma {:induction false} SumsNonNegative(tracks: seq<Track>)
    ensures 0 <= SumRounded(tracks) && 0 <= SumLba(tracks)
  {
    if tracks != [] {
      RoundUpAdds(0, Extent(tracks[0]));
      hide RoundUp, Extent;
      SumsNonNegative(tracks[1..]);
    }
  }

  lemma {:induction false} SumsGrow(tracks: seq<Track>, i: nat, j: nat)
    requires i < j <= |tracks|
    ensures SumRounded(tracks[..i]) + Extent(tracks[i]) <= SumRounded(tracks[..j])
    ensures SumLba(tracks[..i]) + tracks[i].pregap + |tracks[i].sectors| <= SumLba(tracks[..j])
    decreases i
  {
    RoundUpAdds(0, Extent(tracks[0]));
    hide RoundUp, Extent;
    assert tracks[..j][1..] == tracks[1..][..j - 1];
    if i > 0 {
      assert tracks[..i][1..] == tracks[1..][..i - 1];
      SumsGrow(tracks[1..], i - 1, j - 1);
    } else {
      SumsNonNegative(tracks[1..][..j - 1]);
    }
  }

  /** A track's data ends, in both coordinates, before the pregap of any later track begins. */
  lemma TracksDisjoint(tracks: seq<Track>, i: nat, j: nat)
    requires i < j < |tracks|
    ensures var p := Placed(0, 0, tracks);
            && p[i].frame + |tracks[i].sectors| <= p[j].frame - Stored(tracks[j])
            && p[i].lba + |tracks[i].sectors| <= p[j].lba - tracks[j].pregap
  {
    PlacedClosedForm(tracks, i);
    PlacedClosedForm(tracks, j);
    SumsGrow(tracks, i, j);
    hide RoundUp, Placed, SumRounded, SumLba;
  }

  // ---- The two agree modulo 2^32 ----

  function KindName(kind: Kind): string {
    if kind == Mode1Raw then "MODE1_RAW" else "AUDIO"
  }

  /** `Track.pgtype`. */
  function PgType(t: Track): string {
    var base := if t.kind == Mode1Raw then "MODE1" else "AUDIO";
    if t.pregap != 0 then (if t.pregapStored then "V" + KindName(t.kind) else base) else base
  }

  function MetaRecord(t: Track): Record {
    Record(t.number, KindName(t.kind), |t.sectors|, t.pregap, PgType(t))
  }

  /** The metadata the writer attaches: a CHGD record for a GD-ROM, a CHT2 record otherwise. */
  function MetaSlot(t: Track, gdrom: bool): Slot {
    if gdrom then Slot(NoTag, Parsed(MetaRecord(t)), NoTag, NoTag)
    else Slot(Parsed(MetaRecord(t)), NoTag, NoTag, NoTag)
  }

  function MetaRecords(tracks: seq<Track>): (recs: seq<Record>)
    ensures |recs| == |tracks|
  {
    if tracks == [] then [] else [MetaRecord(tracks[0])] + MetaRecords(tracks[1..])
  }

  function MetaSlots(tracks: seq<Track>, gdrom: bool): (slots: seq<Slot>)
    ensures |slots| == |tracks|
  {
    if tracks == [] then [] else [MetaSlot(tracks[0], gdrom)] + MetaSlots(tracks[1..], gdrom)
  }

  /** The walk reads back the first 99 tracks, whichever tag carries them. */
  lemma {:induction false} RecordsOfMeta(tracks: seq<Track>, gdrom: bool, limit: nat)
    ensures Records(MetaSlots(tracks, gdrom), limit) == MetaRecords(Take(tracks, limit))
  {
    if tracks != [] && limit > 0 {
      assert ParseSlot(MetaSlot(tracks[0], gdrom)) == Some(MetaRecord(tracks[0]));
      hide ParseSlot, MetaRecord, MetaSlot;
      assert MetaSlots(tracks, gdrom)[1..] == MetaSlots(tracks[1..], gdrom);
      RecordsOfMeta(tracks[1..], gdrom, limit - 1);
      assert Take(tracks, limit)[1..] == Take(tracks[1..], limit - 1);
    }
  }

  lemma StoredPregapOfMeta(t: Track)
    ensures StoredPregap(MetaRecord(t)) == Wrap(Stored(t))
  {
    assert KindName(t.kind)[0] != 'V';
  }

  lemma RoundUpWraps(x: int)
    ensures PadFrame(Wrap(x)) == Wrap(RoundUp(x))
  {
    var q, r := x / 0x1_0000_0000, Wrap(x);
    assert x == q * 0x1_0000_0000 + r;
    RoundUpAdds(q * 0x1_0000_0000, r);
    WrapTurns(q, RoundUp(r));
    if r + 3 >= 0x1_0000_0000 {
      assert RoundUp(r) == 0x1_0000_0000;
    }
  }

  lemma WrapTurns(q: int, r: int)
    ensures Wrap(q * 0x1_0000_0000 + r) == Wrap(r)
  {
  }

  lemma WrapAdd2(a: int, b: int)
    ensures Wrap(Wrap(a) + Wrap(b)) == Wrap(a + b)
  {
    WrapCongruent(a, Wrap(b));
    WrapCongruent(b, a);
  }

  lemma WrapAdd3(a: int, b: int, c: int)
    ensures Wrap(Wrap(a) + Wrap(Wrap(b) + Wrap(c))) == Wrap(a + b + c)
  {
    WrapAdd2(b, c);
    WrapAdd2(a, b + c);
    hide Wrap;
    assert a + (b + c) == a + b + c;
  }

  /** The table row the reader must hold for a track laid out at `at`. */
  predicate RowOf(info: TrackInfo, at: Spot, t: Track) {
    && info.chdStart == Wrap(at.frame)
    && info.absStart == Wrap(at.lba)
    && info.frames == Wrap(|t.sectors|)
    && info.number == Wrap(t.number)
    && info.geometry == TrackGeometry(KindName(t.kind))
  }

  lemma StepCongruent(frame: int, lba: int, t: Track)
    ensures NextChd(Wrap(frame), MetaRecord(t)) == Wrap(RoundUp(frame + Extent(t)))
    ensures NextAbs(Wrap(lba), MetaRecord(t)) == Wrap(lba + t.pregap + |t.sectors|)
    ensures RowOf(Place(MetaRecord(t), Wrap(frame), Wrap(lba)), Spot(frame + Stored(t), lba + t.pregap), t)
  {
    StoredPregapOfMeta(t);
    WrapAdd3(frame, Stored(t), |t.sectors|);
    RoundUpWraps(frame + Extent(t));
    WrapAdd3(lba, t.pregap, |t.sectors|);
    WrapAdd2(frame, Stored(t));
    WrapAdd2(lba, t.pregap);
    hide Wrap, PadFrame, RoundUp, Stored, StoredPregap, TrackGeometry;
    assert frame + Extent(t) == frame + Stored(t) + |t.sectors|;
  }

  lemma {:induction false} TableFromCongruent(frame: int, lba: int, tracks: seq<Track>, i: nat)
    requires i < |tracks|
    ensures RowOf(Table(Wrap(frame), Wrap(lba), MetaRecords(tracks))[i], Placed(frame, lba, tracks)[i], tracks[i])
    decreases i
  {
    hide *;
    var t := tracks[0];
    StepCongruent(frame, lba, t);
    if i == 0 {
      Heads(Wrap(frame), Wrap(lba), frame, lba, tracks);
    } else {
      var frame', lba' := RoundUp(frame + Extent(t)), lba + t.pregap + |t.sectors|;
      TableTail(Wrap(frame), Wrap(lba), tracks, i);
      PlacedTail(frame, lba, tracks, i);
      TableFromCongruent(frame', lba', tracks[1..], i - 1);
    }
  }

  lemma Heads(chdFrame: int, absSector: int, frame: int, lba: int, tracks: seq<Track>)
    requires tracks != []
    ensures Table(chdFrame, absSector, MetaRecords(tracks))[0] == Place(MetaRecord(tracks[0]), chdFrame, absSector)
    ensures Placed(frame, lba, tracks)[0] == Spot(frame + Stored(tracks[0]), lba + tracks[0].pregap)
  {
    hide NextChd, NextAbs, MetaRecord, Place, RoundUp, Extent;
  }

  lemma TableTail(chdFrame: int, absSector: int, tracks: seq<Track>, i: nat)
    requires 0 < i < |tracks|
    ensures var r := MetaRecord(tracks[0]);
            Table(chdFrame, absSector, MetaRecords(tracks))[i]
            == Table(NextChd(chdFrame, r), NextAbs(absSector, r), MetaRecords(tracks[1..]))[i - 1]
  {
    hide NextChd, NextAbs, MetaRecord, Place;
    assert MetaRecords(tracks)[1..] == MetaRecords(tracks[1..]);
  }

  lemma PlacedTail(frame: int, lba: int, tracks: seq<Track>, i: nat)
    requires 0 < i < |tracks|
    ensures var t := tracks[0];
            Placed(frame, lba, tracks)[i]
            == Placed(RoundUp(frame + Extent(t)), lba + t.pregap + |t.sectors|, tracks[1..])[i - 1]
  {
    hide RoundUp, Extent;
  }

  /** For every track list the reader's table is the reference layout modulo 2^32. */
  lemma TableCongruent(tracks: seq<Track>, i: nat)
    requires i < |tracks|
    ensures RowOf(Table(0, 0, MetaRecords(tracks))[i], Placed(0, 0, tracks)[i], tracks[i])
  {
    TableFromCongruent(0, 0, tracks, i);
  }

  /** Track `i`'s row of the table is the layout's own pair. */
  predicate Agrees(tracks: seq<Track>, i: nat)
    requires i < |tracks|
  {
    var info := Table(0, 0, MetaRecords(tracks))[i];
    Spot(info.chdStart, info.absStart) == Placed(0, 0, tracks)[i]
  }

  lemma {:induction false} AgreesIffFits(tracks: seq<Track>, i: nat)
    requires i < |tracks|
    ensures var p := Placed(0, 0, tracks);
            && (Agrees(tracks, i) <==> p[i].frame < 0x1_0000_0000 && p[i].lba < 0x1_0000_0000)
            && p[i].frame <= p[|tracks| - 1].frame && p[i].lba <= p[|tracks| - 1].lba
  {
    TableCongruent(tracks, i);
    PlacedClosedForm(tracks, i);
    SumsNonNegative(tracks[..i]);
    var p := Placed(0, 0, tracks)[i];
    WrapFits(p.frame);
    WrapFits(p.lba);
    hide Wrap, Table, Placed, SumRounded, SumLba;
    if i < |tracks| - 1 {
      TracksDisjoint(tracks, i, |tracks| - 1);
    }
  }

  /** The table is the layout itself exactly when the last track still starts below 2^32. */
  lemma TableIsLayout(tracks: seq<Track>)
    requires tracks != []
    ensures var last := Placed(0, 0, tracks)[|tracks| - 1];
            (forall i :: 0 <= i < |tracks| ==> Agrees(tracks, i)) <==> last.frame < 0x1_0000_0000 && last.lba < 0x1_0000_0000
  {
    forall i | 0 <= i < |tracks|
      ensures var p := Placed(0, 0, tracks);
              && (Agrees(tracks, i) <==> p[i].frame < 0x1_0000_0000 && p[i].lba < 0x1_0000_0000)
              && p[i].frame <= p[|tracks| - 1].frame && p[i].lba <= p[|tracks| - 1].lba
    {
      AgreesIffFits(tracks, i);
    }
  }
}
