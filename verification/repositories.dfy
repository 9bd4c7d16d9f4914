/** `IntervalRepo` and `TimetableRepo`: the database queries and bulk writes
    of the cache, as pure functions over the table contents. */
module Repositories {
  import opened Wrappers
  import opened Records

  /** Which comparisons the containment queries use. `AsWritten` is the pair
      of filters of the repository; `Closed` is the inclusive rule under which
      touching intervals are merged. */
  datatype Boundary = AsWritten | Closed

  /** The filter of `fetch_including`: `val` lies in the interval. */
  predicate Includes(b: Boundary, i: Interval, v: int) {
    match b
    case AsWritten => i.start < v && i.stop >= v
    case Closed => i.start <= v <= i.stop
  }

  /** The filter of `fetch_included`: the interval lies within `[lo, hi]`. */
  predicate Within(b: Boundary, i: Interval, lo: int, hi: int) {
    match b
    case AsWritten => i.start > lo && i.stop <= hi
    case Closed => lo <= i.start && i.stop <= hi
  }

  /** Either rule only accepts points of the closed span. */
  lemma IncludesInClosedSpan(b: Boundary, i: Interval, v: int)
    requires Includes(b, i, v)
    ensures i.start <= v <= i.stop
  {
  }

  // ---------------------------------------------------------------- IntervalRepo

  /** `fetch_by_station`: the station's intervals, in storage order. */
  function FetchByStation(ints: seq<Interval>, station: string): (r: seq<Interval>)
    ensures |r| <= |ints|
    ensures forall i :: i in r <==> i in ints && i.station == station
  {
    if |ints| == 0 then []
    else (if ints[0].station == station then [ints[0]] else []) + FetchByStation(ints[1..], station)
  }

  /** `.filter(start < val, stop >= val).first()` on a query result: the
      first interval that includes `v`, or `None`. */
  function FirstIncluding(ints: seq<Interval>, v: int, b: Boundary): (r: Option<Interval>)
    ensures r.None? <==> forall i :: i in ints ==> !Includes(b, i, v)
    ensures r.Some? ==> r.value in ints && Includes(b, r.value, v)
  {
    if |ints| == 0 then None
    else if Includes(b, ints[0], v) then Some(ints[0])
    else
      assert forall i :: i in ints ==> i == ints[0] || i in ints[1..];
      FirstIncluding(ints[1..], v, b)
  }

  /** No interval before the one returned includes `v`. */
  lemma {:induction false} FirstIncludingIsFirst(ints: seq<Interval>, v: int, b: Boundary)
    requires FirstIncluding(ints, v, b).Some?
    ensures exists k :: 0 <= k < |ints| && ints[k] == FirstIncluding(ints, v, b).value &&
              forall j :: 0 <= j < k ==> !Includes(b, ints[j], v)
  {
    if !Includes(b, ints[0], v) {
      FirstIncludingIsFirst(ints[1..], v, b);
      var k :| 0 <= k < |ints[1..]| && ints[1..][k] == FirstIncluding(ints[1..], v, b).value &&
               forall j :: 0 <= j < k ==> !Includes(b, ints[1..][j], v);
      assert ints[k + 1] == FirstIncluding(ints, v, b).value;
    } else {
      assert ints[0] == FirstIncluding(ints, v, b).value;
    }
  }

  /** `fetch_including(...).first()`: the first of the station's intervals
      that includes `v`, or `None` when there is none. */
  function FetchIncluding(ints: seq<Interval>, station: string, v: int, b: Boundary): (r: Option<Interval>)
    ensures r.None? <==> forall i :: i in ints && i.station == station ==> !Includes(b, i, v)
    ensures r.Some? ==> r.value in ints && r.value.station == station && Includes(b, r.value, v)
  {
    FirstIncluding(FetchByStation(ints, station), v, b)
  }

  /** The interval returned is the first of the station's intervals, in
      storage order, that includes `v`. */
  lemma FetchIncludingIsFirst(ints: seq<Interval>, station: string, v: int, b: Boundary)
    requires FetchIncluding(ints, station, v, b).Some?
    ensures exists k :: 0 <= k < |FetchByStation(ints, station)| &&
              FetchByStation(ints, station)[k] == FetchIncluding(ints, station, v, b).value &&
              forall j :: 0 <= j < k ==> !Includes(b, FetchByStation(ints, station)[j], v)
  {
    FirstIncludingIsFirst(FetchByStation(ints, station), v, b);
  }

  /** `.filter(start > min_val, stop <= max_val)` on a query result. */
  function FilterWithin(ints: seq<Interval>, lo: int, hi: int, b: Boundary): (r: seq<Interval>)
    ensures |r| <= |ints|
    ensures forall i :: i in r <==> i in ints && Within(b, i, lo, hi)
  {
    if |ints| == 0 then []
    else (if Within(b, ints[0], lo, hi) then [ints[0]] else []) + FilterWithin(ints[1..], lo, hi, b)
  }

  /** `fetch_included`: every interval of the station lying within `[lo, hi]`. */
  function FetchIncluded(ints: seq<Interval>, station: string, lo: int, hi: int, b: Boundary): (r: seq<Interval>)
    ensures |r| <= |ints|
    ensures forall i :: i in r <==> i in ints && i.station == station && Within(b, i, lo, hi)
  {
    FilterWithin(FetchByStation(ints, station), lo, hi, b)
  }

  /** `IntervalRepo.create`: stores a new interval under the next primary key. */
  function CreateInterval(st: Cache, station: string, start: int, stop: int): (r: Cache)
    ensures r.intervals == st.intervals + [Interval(st.nextIntervalId, station, start, stop)]
    ensures r.rows == st.rows && r.nextRowId == st.nextRowId
    ensures r.nextIntervalId > st.nextIntervalId
  {
    st.(intervals := st.intervals + [Interval(st.nextIntervalId, station, start, stop)],
        nextIntervalId := st.nextIntervalId + 1)
  }

  function WithoutIds(ints: seq<Interval>, ids: set<int>): (r: seq<Interval>)
    ensures |r| <= |ints|
    ensures forall i :: i in r <==> i in ints && i.id !in ids
  {
    if |ints| == 0 then []
    else (if ints[0].id in ids then [] else [ints[0]]) + WithoutIds(ints[1..], ids)
  }

  /** `bulk_delete_by_id`: removes exactly the intervals whose id is listed;
      timetable rows are not touched. */
  function BulkDeleteById(st: Cache, ids: set<int>): (r: Cache)
    ensures forall i :: i in r.intervals <==> i in st.intervals && i.id !in ids
    ensures r.rows == st.rows
    ensures r.nextIntervalId == st.nextIntervalId && r.nextRowId == st.nextRowId
  {
    st.(intervals := WithoutIds(st.intervals, ids))
  }

  // ---------------------------------------------------------------- TimetableRepo

  /** `fetch_by_multiple_interval_ids`: the rows owned by any listed interval. */
  function FetchByMultipleIntervalIds(rows: seq<Entry>, ids: set<int>): (r: seq<Entry>)
    ensures |r| <= |rows|
    ensures forall e :: e in r <==> e in rows && e.intervalId in ids
  {
    if |rows| == 0 then []
    else (if rows[0].intervalId in ids then [rows[0]] else []) + FetchByMultipleIntervalIds(rows[1..], ids)
  }

  /** One row of an in-memory timetable frame: the data columns, the
      `interval_id` column and the `id` column (`None` for a row that has not
      been stored yet). */
  datatype FrameRow = FrameRow(data: RowData, intervalId: int, id: Option<int>)

  /** The record handed to the ORM for one frame row. A column missing from
      the record is `None`. */
  datatype TtbDict = TtbDict(
    station: Option<string>,
    service: int,
    trainUid: string,
    dept: Timestamp,
    arri: Timestamp,
    intervalId: int,
    id: Option<int>)

  /** `make_ttb_dicts_by_df` as written: projects service, train_uid, the two
      timestamps and interval_id, plus id when `includeId`; station_code is
      not among the projected columns. */
  function MakeTtbDictsAsWritten(frame: seq<FrameRow>, includeId: bool): (r: seq<TtbDict>)
    ensures |r| == |frame|
    ensures forall k :: 0 <= k < |r| ==> r[k].station.None?
    ensures forall k :: 0 <= k < |r| ==> r[k] == MakeTtbDicts(frame, includeId)[k].(station := None)
  {
    seq(|frame|, k requires 0 <= k < |frame| =>
      TtbDict(None, frame[k].data.service, frame[k].data.trainUid, frame[k].data.dept,
              frame[k].data.arri, frame[k].intervalId, if includeId then frame[k].id else None))
  }

  /** `make_ttb_dicts_by_df` with station_code among the projected columns. */
  function MakeTtbDicts(frame: seq<FrameRow>, includeId: bool): (r: seq<TtbDict>)
    ensures |r| == |frame|
    ensures forall k :: 0 <= k < |r| ==> r[k].station.Some?
    ensures forall k :: 0 <= k < |r| ==> r[k].id.Some? ==> includeId
  {
    seq(|frame|, k requires 0 <= k < |frame| =>
      TtbDict(Some(frame[k].data.station), frame[k].data.service, frame[k].data.trainUid,
              frame[k].data.dept, frame[k].data.arri, frame[k].intervalId,
              if includeId then frame[k].id else None))
  }

  /** Reads a record back as a frame row. */
  function FrameRowOf(d: TtbDict): FrameRow
    requires d.station.Some?
  {
    FrameRow(RowData(d.station.value, d.service, d.trainUid, d.dept, d.arri), d.intervalId, d.id)
  }

  /** The records of the corrected projection with ids carry the whole frame. */
  lemma MakeTtbDictsRoundTrip(frame: seq<FrameRow>)
    ensures var ds := MakeTtbDicts(frame, true);
            |ds| == |frame| && forall k :: 0 <= k < |ds| ==> FrameRowOf(ds[k]) == frame[k]
  {
  }

  /** The projection as written forgets the station: two frames that differ
      only in station_code give identical records. */
  lemma {:induction false} AsWrittenDictsForgetStation()
    ensures exists f1: seq<FrameRow>, f2: seq<FrameRow> ::
              f1 != f2 && MakeTtbDictsAsWritten(f1, true) == MakeTtbDictsAsWritten(f2, true)
  {
    var f1 := [FrameRow(RowData("AAA", 1, "U1", Some(100), None), 0, None)];
    var f2 := [FrameRow(RowData("BBB", 1, "U1", Some(100), None), 0, None)];
    assert f1[0] != f2[0];
    assert MakeTtbDictsAsWritten(f1, true) == MakeTtbDictsAsWritten(f2, true);
  }

  /** The row a record becomes when it is inserted with primary key `id`. */
  function EntryOf(d: TtbDict, id: int): Entry
    requires d.station.Some?
  {
    Entry(id, FrameRowOf(d).data, d.intervalId)
  }

  /** `bulk_insert_by_df`: appends one row per record under fresh primary
      keys. The station_code column is NOT NULL, so every record needs one. */
  function BulkInsertByDf(st: Cache, dicts: seq<TtbDict>): (r: Cache)
    requires forall k :: 0 <= k < |dicts| ==> dicts[k].station.Some?
    ensures r.intervals == st.intervals && r.nextIntervalId == st.nextIntervalId
    ensures |r.rows| == |st.rows| + |dicts| && r.rows[..|st.rows|] == st.rows
    ensures r.nextRowId == st.nextRowId + |dicts|
    ensures forall k :: 0 <= k < |dicts| ==>
              r.rows[|st.rows| + k] == EntryOf(dicts[k], st.nextRowId + k)
  {
    var added := seq(|dicts|, k requires 0 <= k < |dicts| => EntryOf(dicts[k], st.nextRowId + k));
    st.(rows := st.rows + added, nextRowId := st.nextRowId + |dicts|)
  }

  /** The last record carrying primary key `id`: updates run in order, so the
      last one wins. */
  function LastFor(dicts: seq<TtbDict>, id: int): (r: Option<TtbDict>)
    ensures r.None? <==> forall d :: d in dicts ==> d.id != Some(id)
    ensures r.Some? ==> r.value in dicts && r.value.id == Some(id)
  {
    if |dicts| == 0 then None
    else if dicts[|dicts| - 1].id == Some(id) then Some(dicts[|dicts| - 1])
    else
      assert forall d :: d in dicts ==> d in dicts[..|dicts| - 1] || d == dicts[|dicts| - 1];
      LastFor(dicts[..|dicts| - 1], id)
  }

  /** No record after the one `LastFor` picks carries the same key. */
  lemma {:induction false} LastForIsLast(dicts: seq<TtbDict>, id: int)
    requires LastFor(dicts, id).Some?
    ensures exists j :: 0 <= j < |dicts| && dicts[j] == LastFor(dicts, id).value &&
              forall i :: j < i < |dicts| ==> dicts[i].id != Some(id)
  {
    var n := |dicts| - 1;
    if dicts[n].id == Some(id) {
      assert dicts[n] == LastFor(dicts, id).value;
    } else {
      var init := dicts[..n];
      LastForIsLast(init, id);
      var j :| 0 <= j < |init| && init[j] == LastFor(init, id).value &&
               forall i :: j < i < |init| ==> init[i].id != Some(id);
      assert dicts[j] == LastFor(dicts, id).value by {
        assert init[j] == dicts[j];
      }
      forall i | j < i < |dicts| ensures dicts[i].id != Some(id) {
        if i < n {
          assert dicts[i] == init[i];
        }
      }
    }
  }

  /** A stored row rewritten with a record's columns; a column the record
      does not carry keeps its value. */
  function Rewrite(e: Entry, d: TtbDict): Entry {
    Entry(e.id,
          RowData(if d.station.Some? then d.station.value else e.data.station,
                  d.service, d.trainUid, d.dept, d.arri),
          d.intervalId)
  }

  /** `bulk_update_by_df`: rewrites each row whose primary key a record
      carries and leaves every other row as it was. */
  function BulkUpdateByDf(st: Cache, dicts: seq<TtbDict>): (r: Cache)
    ensures r.intervals == st.intervals
    ensures r.nextIntervalId == st.nextIntervalId && r.nextRowId == st.nextRowId
    ensures |r.rows| == |st.rows|
    ensures forall k :: 0 <= k < |st.rows| ==> r.rows[k].id == st.rows[k].id
    ensures forall k :: 0 <= k < |st.rows| && (forall d :: d in dicts ==> d.id != Some(st.rows[k].id)) ==>
              r.rows[k] == st.rows[k]
    ensures forall k :: 0 <= k < |st.rows| && LastFor(dicts, st.rows[k].id).Some? ==>
              r.rows[k] == Rewrite(st.rows[k], LastFor(dicts, st.rows[k].id).value)
  {
    var rows := seq(|st.rows|, k requires 0 <= k < |st.rows| =>
      match LastFor(dicts, st.rows[k].id)
      case None => st.rows[k]
      case Some(d) => Rewrite(st.rows[k], d));
    st.(rows := rows)
  }

  /** A row some record addresses is rewritten with the last such record. */
  lemma BulkUpdateRewritesWithLast(st: Cache, dicts: seq<TtbDict>, k: int)
    requires 0 <= k < |st.rows|
    requires exists d :: d in dicts && d.id == Some(st.rows[k].id)
    ensures exists j :: 0 <= j < |dicts| && dicts[j].id == Some(st.rows[k].id) &&
              BulkUpdateByDf(st, dicts).rows[k] == Rewrite(st.rows[k], dicts[j]) &&
              forall i :: j < i < |dicts| ==> dicts[i].id != Some(st.rows[k].id)
  {
    LastForIsLast(dicts, st.rows[k].id);
  }
}
