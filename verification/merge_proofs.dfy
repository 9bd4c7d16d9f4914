/** What `update_timetable` does to the two tables, stated independently of
    the sequence of repository calls that performs it, and the properties
    that follow: bounds, row re-homing, conservation, no duplication,
    non-overlap and idempotence. */
module MergeProperties {
  import opened Wrappers
  import opened Records
  import opened Repositories
  import opened Etl

  // ---------------------------------------------------------------- reference shapes

  /** Rows of the listed intervals moved to interval `iid`; all others kept. */
  function Repoint(rows: seq<Entry>, ids: set<int>, iid: int): (r: seq<Entry>)
    ensures |r| == |rows|
  {
    seq(|rows|, k requires 0 <= k < |rows| =>
      if rows[k].intervalId in ids then rows[k].(intervalId := iid) else rows[k])
  }

  /** New rows stored under interval `iid` with consecutive fresh ids. */
  function Inserted(next: int, ds: seq<RowData>, iid: int): (r: seq<Entry>)
    ensures |r| == |ds|
  {
    seq(|ds|, k requires 0 <= k < |ds| => Entry(next + k, ds[k], iid))
  }

  /** The widened interval the merge creates. */
  function NewInterval(st: Cache, station: string, t0: int, frame: seq<RowData>, b: Boundary): Interval
    requires |ValidDepartures(frame)| > 0
  {
    var p := MakePlan(st, station, t0, frame, b);
    Interval(st.nextIntervalId, station, p.start, p.stop)
  }

  /** The cached rows of the absorbed intervals. */
  function AbsorbedRows(st: Cache, station: string, t0: int, frame: seq<RowData>, b: Boundary): seq<Entry>
    requires |ValidDepartures(frame)| > 0
  {
    FetchByMultipleIntervalIds(st.rows, MakePlan(st, station, t0, frame, b).absorbed)
  }

  /** The window rows the merge inserts. */
  function InsertedData(st: Cache, station: string, t0: int, frame: seq<RowData>, b: Boundary): seq<RowData>
    requires |ValidDepartures(frame)| > 0
  {
    Unmatched(MakePlan(st, station, t0, frame, b).kept, AbsorbedRows(st, station, t0, frame, b))
  }

  // ---------------------------------------------------------------- small facts

  lemma {:induction false} FetchNoIds(rows: seq<Entry>)
    ensures FetchByMultipleIntervalIds(rows, {}) == []
  {
    if |rows| > 0 {
      FetchNoIds(rows[1..]);
    }
  }

  lemma {:induction false} WithoutNoIds(ints: seq<Interval>)
    ensures WithoutIds(ints, {}) == ints
  {
    if |ints| > 0 {
      WithoutNoIds(ints[1..]);
      assert ints == [ints[0]] + ints[1..];
    }
  }

  lemma {:induction false} UnmatchedNothing(kept: seq<RowData>)
    ensures Unmatched(kept, []) == kept
  {
    if |kept| > 0 {
      UnmatchedNothing(kept[1..]);
      assert kept == [kept[0]] + kept[1..];
    }
  }

  /** Filtering a frame whose stored rows precede its new rows splits it back. */
  lemma {:induction false} SplitFrame(a: seq<FrameRow>, c: seq<FrameRow>)
    requires forall k :: 0 <= k < |a| ==> a[k].id.Some?
    requires forall k :: 0 <= k < |c| ==> c[k].id.None?
    ensures WithId(a + c) == a
    ensures WithoutId(a + c) == c
  {
    if |a| > 0 {
      SplitFrame(a[1..], c);
      assert (a + c)[1..] == a[1..] + c;
      assert a == [a[0]] + a[1..];
    } else {
      assert a + c == c;
      WithIdOfNew(c);
      WithoutIdOfNew(c);
    }
  }

  lemma {:induction false} WithIdOfNew(c: seq<FrameRow>)
    requires forall k :: 0 <= k < |c| ==> c[k].id.None?
    ensures WithId(c) == []
  {
    if |c| > 0 {
      WithIdOfNew(c[1..]);
    }
  }

  lemma {:induction false} WithoutIdOfNew(c: seq<FrameRow>)
    requires forall k :: 0 <= k < |c| ==> c[k].id.None?
    ensures WithoutId(c) == c
  {
    if |c| > 0 {
      WithoutIdOfNew(c[1..]);
      assert c == [c[0]] + c[1..];
    }
  }

  /** The record made for a stored row moved to interval `iid`. */
  function StoredDict(e: Entry, iid: int): TtbDict {
    TtbDict(Some(e.data.station), e.data.service, e.data.trainUid, e.data.dept, e.data.arri, iid, Some(e.id))
  }

  lemma StoredDicts(existing: seq<Entry>, iid: int)
    ensures var dicts := MakeTtbDicts(StoredFrame(existing, iid), true);
            |dicts| == |existing| && forall j :: 0 <= j < |dicts| ==> dicts[j] == StoredDict(existing[j], iid)
  {
  }

  /** Among the records of stored rows with distinct ids, the one carrying a
      row's id is that row's own record. */
  lemma LastForStored(existing: seq<Entry>, iid: int, e: Entry)
    requires forall x :: x in existing && x.id == e.id ==> x == e
    ensures LastFor(MakeTtbDicts(StoredFrame(existing, iid), true), e.id)
            == if e in existing then Some(StoredDict(e, iid)) else None
  {
    var dicts := MakeTtbDicts(StoredFrame(existing, iid), true);
    StoredDicts(existing, iid);
    var r := LastFor(dicts, e.id);
    if r.Some? {
      var j :| 0 <= j < |dicts| && dicts[j] == r.value;
      assert existing[j] in existing;
    }
  }

  /** Updating with the records of the stored rows of some intervals, all
      pointing at `iid`, re-points exactly those rows. */
  lemma UpdateRepoints(st: Cache, ids: set<int>, iid: int)
    requires forall e, f :: e in st.rows && f in st.rows && e.id == f.id ==> e == f
    ensures BulkUpdateByDf(st, MakeTtbDicts(StoredFrame(FetchByMultipleIntervalIds(st.rows, ids), iid), true)).rows
            == Repoint(st.rows, ids, iid)
  {
    var existing := FetchByMultipleIntervalIds(st.rows, ids);
    var dicts := MakeTtbDicts(StoredFrame(existing, iid), true);
    var r := BulkUpdateByDf(st, dicts);
    var want := Repoint(st.rows, ids, iid);
    forall k | 0 <= k < |st.rows|
      ensures r.rows[k] == want[k]
    {
      var e := st.rows[k];
      LastForStored(existing, iid, e);
      assert e in existing <==> e.intervalId in ids;
    }
  }

  // ---------------------------------------------------------------- characterisation

  /** Inserting new frame rows appends them under fresh ids. */
  lemma InsertAppends(st: Cache, ds: seq<RowData>, iid: int)
    ensures var r := BulkInsertByDf(st, MakeTtbDicts(FreshFrame(ds, iid), false));
            r.rows == st.rows + Inserted(st.nextRowId, ds, iid) && r.nextRowId == st.nextRowId + |ds|
  {
    var r := BulkInsertByDf(st, MakeTtbDicts(FreshFrame(ds, iid), false));
    assert r.rows[..|st.rows|] == st.rows;
    assert r.rows[|st.rows|..] == Inserted(st.nextRowId, ds, iid);
    assert r.rows == r.rows[..|st.rows|] + r.rows[|st.rows|..];
  }

  /** The merge's effect on the timetable rows: the rows of the absorbed
      intervals are moved to the new interval, every other cached row is kept
      as it was and in place, and only the window rows not already cached
      under an absorbed interval are appended, under the new interval. */
  lemma MergeRows(st: Cache, station: string, t0: int, frame: seq<RowData>, b: Boundary)
    requires forall e, f :: e in st.rows && f in st.rows && e.id == f.id ==> e == f
    requires |ValidDepartures(frame)| > 0
    ensures var p := MakePlan(st, station, t0, frame, b);
            var r := UpdateTimetable(st, station, t0, frame, b);
            r.rows == Repoint(st.rows, p.absorbed, st.nextIntervalId)
                      + Inserted(st.nextRowId, InsertedData(st, station, t0, frame, b), st.nextIntervalId)
            && r.nextRowId == st.nextRowId + |InsertedData(st, station, t0, frame, b)|
  {
    var p := MakePlan(st, station, t0, frame, b);
    var iid := st.nextIntervalId;
    var st1 := CreateInterval(st, station, p.start, p.stop);
    if p.absorbed == {} {
      FetchNoIds(st.rows);
      UnmatchedNothing(p.kept);
      InsertAppends(st1, p.kept, iid);
      assert Repoint(st.rows, p.absorbed, iid) == st.rows;
    } else {
      var existing := FetchByMultipleIntervalIds(st1.rows, p.absorbed);
      var u := Unmatched(p.kept, existing);
      var merged := OuterJoin(existing, p.kept, iid);
      SplitFrame(StoredFrame(existing, iid), FreshFrame(u, iid));
      var st2 := BulkUpdateByDf(st1, MakeTtbDicts(WithId(merged), true));
      UpdateRepoints(st1, p.absorbed, iid);
      InsertAppends(st2, u, iid);
    }
  }

  /** The merge's effect on the intervals: the new interval is appended and
      then every absorbed interval is deleted. */
  lemma MergeIntervals(st: Cache, station: string, t0: int, frame: seq<RowData>, b: Boundary)
    requires |ValidDepartures(frame)| > 0
    ensures var p := MakePlan(st, station, t0, frame, b);
            UpdateTimetable(st, station, t0, frame, b).intervals
              == WithoutIds(st.intervals + [NewInterval(st, station, t0, frame, b)], p.absorbed)
  {
    var p := MakePlan(st, station, t0, frame, b);
    if p.absorbed == {} {
      WithoutNoIds(st.intervals + [NewInterval(st, station, t0, frame, b)]);
    }
  }
}
