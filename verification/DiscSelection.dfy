/** Which track a request opens, said of the writer's tracks instead of the reader's rows. */
module DiscSelection {
  import opened Basics
  import opened DiscLayout
  import opened DiscReader

  /** A track's length as the reader counts it. */
  function Length(t: Track): int {
    Wrap(|t.sectors|)
  }

  /** The track a request means, -1 when there is none: data tracks are the MODE1_RAW ones. */
  ghost predicate Opens(tracks: seq<Track>, wanted: Wanted, index: int) {
    && -1 <= index < |tracks|
    && match wanted
       case FirstData =>
         && (index >= 0 ==> tracks[index].kind == Mode1Raw)
         && forall j :: 0 <= j < |tracks| && (index < 0 || j < index) ==> tracks[j].kind == Audio
       case Last => index == |tracks| - 1
       case Largest =>
         && (index >= 0 ==> tracks[index].kind == Mode1Raw)
         && forall j :: 0 <= j < |tracks| && tracks[j].kind == Mode1Raw ==>
              && index >= 0 && Length(tracks[j]) <= Length(tracks[index])
              && (j < index ==> Length(tracks[j]) < Length(tracks[index]))
       case FirstOfSecondSession => index == -1
       case Number(n) =>
         && (index >= 0 ==> Wrap(tracks[index].number) == n)
         && forall j :: 0 <= j < |tracks| && (index < 0 || j < index) ==> Wrap(tracks[j].number) != n
  }

  /** What selection needs of a row: its track's number and length, and whether it is data. */
  predicate RowFor(info: TrackInfo, t: Track) {
    info.number == Wrap(t.number) && info.frames == Length(t) && (info.geometry.isData <==> t.kind == Mode1Raw)
  }

  ghost predicate RowsFor(table: seq<TrackInfo>, tracks: seq<Track>) {
    |table| == |tracks| && forall j :: 0 <= j < |tracks| ==> RowFor(table[j], tracks[j])
  }

  lemma DataKinds(kind: Kind)
    ensures TrackGeometry(KindName(kind)).isData <==> kind == Mode1Raw
  {
  }

  /** Every row of a written disc's table is its track's, and a data row exactly for a MODE1_RAW track. */
  lemma TableRowsFor(tracks: seq<Track>)
    ensures RowsFor(Table(0, 0, MetaRecords(tracks)), tracks)
  {
    hide Table, Placed, TrackGeometry, Wrap, MetaRecords;
    forall j | 0 <= j < |tracks|
      ensures RowFor(Table(0, 0, MetaRecords(tracks))[j], tracks[j])
    {
      TableCongruent(tracks, j);
      DataKinds(tracks[j].kind);
    }
  }

  lemma SelectsIsOpens(table: seq<TrackInfo>, tracks: seq<Track>, wanted: Wanted, index: int)
    requires RowsFor(table, tracks)
    ensures Selects(table, wanted, index) <==> Opens(tracks, wanted, index)
  {
    hide Wrap, Length;
    if Selects(table, wanted, index) {
      forall j | 0 <= j < |tracks|
        ensures RowFor(table[j], tracks[j])
      {
      }
    }
    if Opens(tracks, wanted, index) {
      forall j | 0 <= j < |table|
        ensures RowFor(table[j], tracks[j])
      {
      }
    }
  }

  /** On a written disc a request selects exactly the one among its first 99 tracks that it means. */
  lemma SelectionExact(tracks: seq<Track>, gdrom: bool, wanted: Wanted, index: int)
    ensures Selects(Table(0, 0, Records(MetaSlots(tracks, gdrom), 99)), wanted, index) <==> Opens(Take(tracks, 99), wanted, index)
  {
    hide *;
    RecordsOfMeta(tracks, gdrom, 99);
    TableRowsFor(Take(tracks, 99));
    SelectsIsOpens(Table(0, 0, MetaRecords(Take(tracks, 99))), Take(tracks, 99), wanted, index);
  }
}
