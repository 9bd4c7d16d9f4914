/** The promises of the interval-coalescing merge, derived from the
    characterisation in `MergeProperties`. */
module MergeTheorems {
  import opened Wrappers
  import opened Records
  import opened Repositories
  import opened Etl
  import opened MergeProperties

  // ---------------------------------------------------------------- intervals

  /** The absorbed intervals are deleted, every other interval is kept, and
      the widened interval is added. */
  lemma MergeReplacesAbsorbed(st: Cache, station: string, t0: int, frame: seq<RowData>, b: Boundary)
    requires WellFormed(st)
    requires |ValidDepartures(frame)| > 0
    ensures var p := MakePlan(st, station, t0, frame, b);
            var r := UpdateTimetable(st, station, t0, frame, b);
            st.nextIntervalId !in p.absorbed &&
            forall i :: i in r.intervals <==>
              (i in st.intervals && i.id !in p.absorbed) || i == NewInterval(st, station, t0, frame, b)
  {
    NextIdNotAbsorbed(st, station, t0, frame, b);
    MergeIntervals(st, station, t0, frame, b);
  }

  /** Every absorbed id is the id of a stored interval, so the key the new
      interval receives is never among them. */
  lemma NextIdNotAbsorbed(st: Cache, station: string, t0: int, frame: seq<RowData>, b: Boundary)
    requires WellFormed(st)
    requires |ValidDepartures(frame)| > 0
    ensures st.nextIntervalId !in MakePlan(st, station, t0, frame, b).absorbed
  {
    var p := MakePlan(st, station, t0, frame, b);
    IdsBelowCounter(st.intervals, p.left, p.right, p.middle, st.nextIntervalId);
  }

  /** Ids drawn from stored intervals lie below the key counter. */
  lemma IdsBelowCounter(ints: seq<Interval>, left: Option<Interval>, right: Option<Interval>,
                        middle: seq<Interval>, n: int)
    requires forall i :: i in ints ==> i.id < n
    requires left.Some? ==> left.value in ints
    requires right.Some? ==> right.value in ints
    requires forall m :: m in middle ==> m in ints
    ensures n !in (set i | i in middle :: i.id) + OptionIds(left) + OptionIds(right)
  {
  }

  /** The absorbed ids are those of the intervals holding the window's ends and
      of those inside it, all of them intervals of the merged station. */
  lemma AbsorbedAreStationIntervals(st: Cache, station: string, t0: int, frame: seq<RowData>, b: Boundary, i: Interval)
    requires WellFormed(st)
    requires |ValidDepartures(frame)| > 0
    requires i in st.intervals && i.id in MakePlan(st, station, t0, frame, b).absorbed
    ensures var p := MakePlan(st, station, t0, frame, b);
            i.station == station &&
            ((p.left == Some(i)) || (p.right == Some(i)) || i in p.middle)
  {
    var p := MakePlan(st, station, t0, frame, b);
    if p.left.Some? && p.left.value.id == i.id {
    } else if p.right.Some? && p.right.value.id == i.id {
    } else {
      var m :| m in p.middle && m.id == i.id;
    }
  }

  /** With the station's intervals apart and a window that does not end
      before it starts, the widened interval covers the window and every
      interval it absorbs. */
  lemma MergeCoversAbsorbed(st: Cache, station: string, t0: int, frame: seq<RowData>, b: Boundary)
    requires WellFormed(st) && NonOverlapping(st)
    requires |ValidDepartures(frame)| > 0
    requires t0 <= MakePlan(st, station, t0, frame, b).hi
    ensures var n := NewInterval(st, station, t0, frame, b);
            var p := MakePlan(st, station, t0, frame, b);
            n.start <= t0 && p.tMax <= n.stop &&
            forall i :: i in st.intervals && i.id in p.absorbed ==> n.start <= i.start && i.stop <= n.stop
  {
    var p := MakePlan(st, station, t0, frame, b);
    var n := NewInterval(st, station, t0, frame, b);
    if p.left.Some? {
      IncludesInClosedSpan(b, p.left.value, t0);
    }
    if p.right.Some? {
      IncludesInClosedSpan(b, p.right.value, p.hi);
    }
    if p.left.Some? && p.right.Some? && p.left.value != p.right.value {
      assert Apart(p.left.value, p.right.value);
    }
    forall i | i in st.intervals && i.id in p.absorbed
      ensures n.start <= i.start && i.stop <= n.stop
    {
      AbsorbedAreStationIntervals(st, station, t0, frame, b, i);
      if i in p.middle {
        if p.left.Some? {
          IncludesInClosedSpan(b, p.left.value, t0);
        }
      }
    }
  }

  // ---------------------------------------------------------------- rows

  /** Without anything to absorb, the kept window rows are appended under the
      new interval and nothing else changes. */
  lemma MergeStandalone(st: Cache, station: string, t0: int, frame: seq<RowData>, b: Boundary)
    requires WellFormed(st)
    requires |ValidDepartures(frame)| > 0
    requires MakePlan(st, station, t0, frame, b).absorbed == {}
    ensures var r := UpdateTimetable(st, station, t0, frame, b);
            r.intervals == st.intervals + [NewInterval(st, station, t0, frame, b)] &&
            r.rows == st.rows + Inserted(st.nextRowId, MakePlan(st, station, t0, frame, b).kept, st.nextIntervalId)
  {
    var p := MakePlan(st, station, t0, frame, b);
    MergeRows(st, station, t0, frame, b);
    MergeIntervals(st, station, t0, frame, b);
    WithoutNoIds(st.intervals + [NewInterval(st, station, t0, frame, b)]);
    FetchNoIds(st.rows);
    UnmatchedNothing(p.kept);
    assert Repoint(st.rows, p.absorbed, st.nextIntervalId) == st.rows;
  }

  lemma RepointMember(rows: seq<Entry>, ids: set<int>, iid: int, e: Entry)
    requires e in Repoint(rows, ids, iid)
    ensures exists x :: x in rows && x.id == e.id && x.data == e.data &&
              (if x.intervalId in ids then e.intervalId == iid else e == x)
  {
    var k :| 0 <= k < |rows| && Repoint(rows, ids, iid)[k] == e;
    assert rows[k] in rows;
  }

  lemma InsertedMember(next: int, ds: seq<RowData>, iid: int, e: Entry)
    requires e in Inserted(next, ds, iid)
    ensures e.data in ds && e.intervalId == iid && next <= e.id < next + |ds|
  {
    var k :| 0 <= k < |ds| && Inserted(next, ds, iid)[k] == e;
  }

  /** Key facts of the merged row shape, independent of the merge itself. */
  lemma ShapeKeys(rows: seq<Entry>, ids: set<int>, iid: int, next: int, u: seq<RowData>)
    requires forall e, f :: e in rows && f in rows && e.id == f.id ==> e == f
    requires forall e :: e in rows ==> e.id < next
    ensures var all := Repoint(rows, ids, iid) + Inserted(next, u, iid);
            (forall e, f :: e in all && f in all && e.id == f.id ==> e == f) &&
            (forall e :: e in all ==> e.id < next + |u|)
  {
    var rep := Repoint(rows, ids, iid);
    var ins := Inserted(next, u, iid);
    forall e: Entry | e in rep + ins
      ensures e.id < next + |u|
    {
      if e in rep {
        RepointMember(rows, ids, iid, e);
      } else {
        InsertedMember(next, u, iid, e);
      }
    }
    forall e: Entry, f: Entry | e in rep + ins && f in rep + ins && e.id == f.id
      ensures e == f
    {
      if e in rep && f in rep {
        RepointMember(rows, ids, iid, e);
        RepointMember(rows, ids, iid, f);
      } else if e in rep {
        RepointMember(rows, ids, iid, e);
        InsertedMember(next, u, iid, f);
      } else if f in rep {
        RepointMember(rows, ids, iid, f);
        InsertedMember(next, u, iid, e);
      } else {
        var j :| 0 <= j < |u| && ins[j] == e;
        var k :| 0 <= k < |u| && ins[k] == f;
      }
    }
  }

  /** Ownership facts of the merged row shape: no row is left pointing at an
      interval that is gone. */
  lemma ShapeOwned(rows: seq<Entry>, ids: set<int>, iid: int, next: int, u: seq<RowData>,
                   ints: seq<Interval>, ints': seq<Interval>)
    requires forall e :: e in rows ==> e.intervalId in IntervalIds(ints)
    requires forall i :: i in ints && i.id !in ids ==> i in ints'
    requires iid in IntervalIds(ints')
    ensures forall e :: e in Repoint(rows, ids, iid) + Inserted(next, u, iid) ==> e.intervalId in IntervalIds(ints')
  {
    var rep := Repoint(rows, ids, iid);
    forall e | e in rep + Inserted(next, u, iid)
      ensures e.intervalId in IntervalIds(ints')
    {
      if e in rep {
        RepointMember(rows, ids, iid, e);
        var x :| x in rows && x.id == e.id && x.data == e.data &&
                 (if x.intervalId in ids then e.intervalId == iid else e == x);
        if x.intervalId !in ids {
          var i :| i in ints && i.id == x.intervalId;
          assert i in ints';
        }
      } else {
        InsertedMember(next, u, iid, e);
      }
    }
  }

  /** The merge keeps keys unique and below their counters, and leaves no
      row pointing at a deleted interval. */
  lemma MergeWellFormed(st: Cache, station: string, t0: int, frame: seq<RowData>, b: Boundary)
    requires WellFormed(st)
    ensures WellFormed(UpdateTimetable(st, station, t0, frame, b))
  {
    if |ValidDepartures(frame)| > 0 {
      var p := MakePlan(st, station, t0, frame, b);
      var r := UpdateTimetable(st, station, t0, frame, b);
      var n := NewInterval(st, station, t0, frame, b);
      var u := InsertedData(st, station, t0, frame, b);
      MergeRows(st, station, t0, frame, b);
      MergeReplacesAbsorbed(st, station, t0, frame, b);
      assert n in r.intervals;
      ShapeKeys(st.rows, p.absorbed, st.nextIntervalId, st.nextRowId, u);
      ShapeOwned(st.rows, p.absorbed, st.nextIntervalId, st.nextRowId, u, st.intervals, r.intervals);
    }
  }

  /** Rows with neither timestamp never enter the cache: if every stored row
      has one, so does every row after the merge. */
  lemma MergeAllTimed(st: Cache, station: string, t0: int, frame: seq<RowData>, b: Boundary)
    requires WellFormed(st) && AllTimed(st)
    ensures AllTimed(UpdateTimetable(st, station, t0, frame, b))
  {
    if |ValidDepartures(frame)| > 0 {
      var p := MakePlan(st, station, t0, frame, b);
      var u := InsertedData(st, station, t0, frame, b);
      MergeRows(st, station, t0, frame, b);
      forall e | e in UpdateTimetable(st, station, t0, frame, b).rows
        ensures Timed(e.data)
      {
        if e in Repoint(st.rows, p.absorbed, st.nextIntervalId) {
          RepointMember(st.rows, p.absorbed, st.nextIntervalId, e);
        } else {
          InsertedMember(st.nextRowId, u, st.nextIntervalId, e);
        }
      }
    }
  }

  /** The data columns of the merged row shape. */
  lemma ShapeData(rows: seq<Entry>, ids: set<int>, iid: int, next: int, u: seq<RowData>, kept: seq<RowData>)
    requires forall d :: d in u ==> d in kept
    requires forall d :: d in kept && d !in u ==> d in DataSet(rows)
    ensures DataSet(Repoint(rows, ids, iid) + Inserted(next, u, iid)) == DataSet(rows) + (set d | d in kept)
  {
    var rep := Repoint(rows, ids, iid);
    var ins := Inserted(next, u, iid);
    var all := rep + ins;
    forall d | d in DataSet(all)
      ensures d in DataSet(rows) || d in kept
    {
      var e :| e in all && e.data == d;
      if e in rep {
        RepointMember(rows, ids, iid, e);
      } else {
        InsertedMember(next, u, iid, e);
      }
    }
    forall d | d in DataSet(rows)
      ensures d in DataSet(all)
    {
      var x :| x in rows && x.data == d;
      var k :| 0 <= k < |rows| && rows[k] == x;
      assert rep[k] in all;
    }
    forall d | d in kept
      ensures d in DataSet(all)
    {
      if d in u {
        var k :| 0 <= k < |u| && u[k] == d;
        assert ins[k] in all;
      } else {
        var x :| x in rows && x.data == d;
        var k :| 0 <= k < |rows| && rows[k] == x;
        assert rep[k] in all;
      }
    }
  }

  /** No row is lost and none is invented: the data of the cache after the
      merge are those before it together with the kept window rows. */
  lemma MergeConservesData(st: Cache, station: string, t0: int, frame: seq<RowData>, b: Boundary)
    requires WellFormed(st)
    requires |ValidDepartures(frame)| > 0
    ensures DataSet(UpdateTimetable(st, station, t0, frame, b).rows)
            == DataSet(st.rows) + (set d | d in MakePlan(st, station, t0, frame, b).kept)
  {
    var p := MakePlan(st, station, t0, frame, b);
    var u := InsertedData(st, station, t0, frame, b);
    MergeRows(st, station, t0, frame, b);
    forall d | d in p.kept && d !in u
      ensures d in DataSet(st.rows)
    {
      var x :| x in AbsorbedRows(st, station, t0, frame, b) && x.data == d;
    }
    ShapeData(st.rows, p.absorbed, st.nextIntervalId, st.nextRowId, u, p.kept);
  }

  // ---------------------------------------------------------------- no duplication

  /** The rows owned by interval `iid`, in storage order. */
  function OwnedBy(rows: seq<Entry>, iid: int): (r: seq<Entry>)
    ensures forall e :: e in r <==> e in rows && e.intervalId == iid
  {
    if |rows| == 0 then []
    else (if rows[0].intervalId == iid then [rows[0]] else []) + OwnedBy(rows[1..], iid)
  }

  lemma {:induction false} OwnedByAppend(a: seq<Entry>, c: seq<Entry>, iid: int)
    ensures OwnedBy(a + c, iid) == OwnedBy(a, iid) + OwnedBy(c, iid)
  {
    if |a| > 0 {
      OwnedByAppend(a[1..], c, iid);
      assert (a + c)[1..] == a[1..] + c;
    } else {
      assert a + c == c;
    }
  }

  lemma {:induction false} OwnedByAll(s: seq<Entry>, iid: int)
    requires forall k :: 0 <= k < |s| ==> s[k].intervalId == iid
    ensures OwnedBy(s, iid) == s
  {
    if |s| > 0 {
      OwnedByAll(s[1..], iid);
      assert s == [s[0]] + s[1..];
    }
  }

  /** Moving the rows of some intervals to an interval that owned nothing
      makes it own exactly those rows. */
  lemma {:induction false} OwnedAfterRepoint(rows: seq<Entry>, ids: set<int>, iid: int)
    requires forall e :: e in rows ==> e.intervalId != iid
    ensures DataOf(OwnedBy(Repoint(rows, ids, iid), iid)) == DataOf(FetchByMultipleIntervalIds(rows, ids))
  {
    if |rows| > 0 {
      var rep := Repoint(rows, ids, iid);
      assert rep == [rep[0]] + Repoint(rows[1..], ids, iid);
      OwnedAfterRepoint(rows[1..], ids, iid);
      OwnedByAppend([rep[0]], Repoint(rows[1..], ids, iid), iid);
      var head := if rows[0].intervalId in ids then [rows[0]] else [];
      assert FetchByMultipleIntervalIds(rows, ids) == head + FetchByMultipleIntervalIds(rows[1..], ids);
      DataOfAppend(OwnedBy([rep[0]], iid), OwnedBy(Repoint(rows[1..], ids, iid), iid));
      DataOfAppend(head, FetchByMultipleIntervalIds(rows[1..], ids));
    } else {
      assert Repoint(rows, ids, iid) == [];
    }
  }

  lemma DataOfAppend(a: seq<Entry>, c: seq<Entry>)
    ensures DataOf(a + c) == DataOf(a) + DataOf(c)
  {
  }

  lemma {:induction false} UnmatchedDistinct(kept: seq<RowData>, existing: seq<Entry>)
    requires Distinct(kept)
    ensures Distinct(Unmatched(kept, existing))
  {
    if |kept| > 0 {
      assert Distinct(kept[1..]) by {
        forall i, j | 0 <= i < j < |kept[1..]| ensures kept[1..][i] != kept[1..][j] {
          assert kept[1..][i] == kept[i + 1] && kept[1..][j] == kept[j + 1];
        }
      }
      UnmatchedDistinct(kept[1..], existing);
      assert kept[0] !in kept[1..] by {
        forall j | 0 <= j < |kept[1..]| ensures kept[1..][j] != kept[0] {
          assert kept[1..][j] == kept[j + 1];
        }
      }
    }
  }

  lemma DistinctConcat<T>(a: seq<T>, c: seq<T>)
    requires Distinct(a) && Distinct(c)
    requires forall x :: x in a ==> x !in c
    ensures Distinct(a + c)
  {
    forall i, j | 0 <= i < j < |a + c|
      ensures (a + c)[i] != (a + c)[j]
    {
      if i < |a| && j >= |a| {
        assert (a + c)[i] in a;
        assert (a + c)[j] == c[j - |a|];
      }
    }
  }

  /** In the merged row shape, the target interval owns the re-pointed rows
      followed by the inserted ones; neither part repeats a row and they share
      none, so the interval owns no row twice. */
  lemma ShapeNoDuplicates(rows: seq<Entry>, ids: set<int>, iid: int, next: int, kept: seq<RowData>)
    requires forall e :: e in rows ==> e.intervalId != iid
    requires Distinct(DataOf(FetchByMultipleIntervalIds(rows, ids)))
    requires Distinct(kept)
    ensures var u := Unmatched(kept, FetchByMultipleIntervalIds(rows, ids));
            Distinct(DataOf(OwnedBy(Repoint(rows, ids, iid) + Inserted(next, u, iid), iid)))
  {
    var existing := FetchByMultipleIntervalIds(rows, ids);
    var u := Unmatched(kept, existing);
    var rep := Repoint(rows, ids, iid);
    var ins := Inserted(next, u, iid);
    OwnedByAppend(rep, ins, iid);
    OwnedAfterRepoint(rows, ids, iid);
    OwnedByAll(ins, iid);
    DataOfAppend(OwnedBy(rep, iid), ins);
    assert DataOf(ins) == u;
    UnmatchedDistinct(kept, existing);
    forall x | x in DataOf(existing) ensures x !in u {
      var k :| 0 <= k < |existing| && DataOf(existing)[k] == x;
      assert existing[k] in existing;
    }
    DistinctConcat(DataOf(existing), u);
  }

  /** Re-homing never duplicates a row: when the window has no duplicate rows
      and the absorbed intervals held none, the new interval owns none. */
  lemma MergeNoDuplicates(st: Cache, station: string, t0: int, frame: seq<RowData>, b: Boundary)
    requires WellFormed(st)
    requires |ValidDepartures(frame)| > 0
    requires Distinct(frame)
    requires Distinct(DataOf(AbsorbedRows(st, station, t0, frame, b)))
    ensures Distinct(DataOf(OwnedBy(UpdateTimetable(st, station, t0, frame, b).rows, st.nextIntervalId)))
  {
    var p := MakePlan(st, station, t0, frame, b);
    var iid := st.nextIntervalId;
    MergeRows(st, station, t0, frame, b);
    forall e | e in st.rows ensures e.intervalId != iid {
      var i :| i in st.intervals && i.id == e.intervalId;
    }
    KeepTimedDistinct(frame);
    ShapeNoDuplicates(st.rows, p.absorbed, iid, st.nextRowId, p.kept);
  }

  // ---------------------------------------------------------------- non-overlap (closed rule)

  /** Under the closed rule an interval of the station that is not absorbed
      lies wholly before or after the widened interval. */
  lemma KeptApartClosed(st: Cache, station: string, t0: int, frame: seq<RowData>, k: Interval)
    requires WellFormed(st) && NonOverlapping(st)
    requires |ValidDepartures(frame)| > 0
    requires k in st.intervals && k.station == station
    requires k.id !in MakePlan(st, station, t0, frame, Closed).absorbed
    ensures Apart(NewInterval(st, station, t0, frame, Closed), k)
  {
    var p := MakePlan(st, station, t0, frame, Closed);
    if p.left.Some? {
      assert p.left.value != k;
      assert Apart(p.left.value, k);
    }
    if p.right.Some? {
      assert p.right.value != k;
      assert Apart(p.right.value, k);
    }
    assert k !in p.middle;
    assert !Includes(Closed, k, t0);
    assert !Includes(Closed, k, p.hi);
  }

  /** With the closed containment rule, merging keeps the intervals of every
      station pairwise apart and non-empty. */
  lemma ClosedMergeKeepsNonOverlapping(st: Cache, station: string, t0: int, frame: seq<RowData>)
    requires WellFormed(st) && NonOverlapping(st)
    ensures NonOverlapping(UpdateTimetable(st, station, t0, frame, Closed))
  {
    if |ValidDepartures(frame)| > 0 {
      var r := UpdateTimetable(st, station, t0, frame, Closed);
      var n := NewInterval(st, station, t0, frame, Closed);
      var p := MakePlan(st, station, t0, frame, Closed);
      MergeReplacesAbsorbed(st, station, t0, frame, Closed);
      forall a, c | a in r.intervals && c in r.intervals && a != c && a.station == c.station
        ensures Apart(a, c)
      {
        if a == n {
          KeptApartClosed(st, station, t0, frame, c);
        } else if c == n {
          KeptApartClosed(st, station, t0, frame, a);
        }
      }
    }
  }

  // ---------------------------------------------------------------- idempotence (closed rule)

  /** Every kept window row is stored under the new interval after the merge. */
  lemma KeptUnderNew(st: Cache, station: string, t0: int, frame: seq<RowData>, b: Boundary)
    requires WellFormed(st)
    requires |ValidDepartures(frame)| > 0
    ensures forall d :: d in MakePlan(st, station, t0, frame, b).kept ==>
              exists e :: e in UpdateTimetable(st, station, t0, frame, b).rows && e.data == d &&
                          e.intervalId == st.nextIntervalId
  {
    var p := MakePlan(st, station, t0, frame, b);
    var iid := st.nextIntervalId;
    var r := UpdateTimetable(st, station, t0, frame, b);
    var u := InsertedData(st, station, t0, frame, b);
    var rep := Repoint(st.rows, p.absorbed, iid);
    var ins := Inserted(st.nextRowId, u, iid);
    MergeRows(st, station, t0, frame, b);
    forall d | d in p.kept
      ensures exists e :: e in r.rows && e.data == d && e.intervalId == iid
    {
      if d in u {
        var k :| 0 <= k < |u| && u[k] == d;
        assert ins[k] in r.rows;
      } else {
        var x :| x in AbsorbedRows(st, station, t0, frame, b) && x.data == d;
        var k :| 0 <= k < |st.rows| && st.rows[k] == x;
        assert rep[k] in r.rows;
      }
    }
  }

  lemma {:induction false} WithoutIdsAppend(s: seq<Interval>, x: Interval, ids: set<int>)
    requires x.id !in ids
    ensures WithoutIds(s + [x], ids) == WithoutIds(s, ids) + [x]
  {
    if |s| > 0 {
      var t := s + [x];
      assert t[0] == s[0];
      assert t[1..] == s[1..] + [x];
      var head := if s[0].id in ids then [] else [s[0]];
      assert WithoutIds(t, ids) == head + WithoutIds(t[1..], ids);
      WithoutIdsAppend(s[1..], x, ids);
      assert WithoutIds(s, ids) == head + WithoutIds(s[1..], ids);
    } else {
      assert s + [x] == [x];
      assert [x][1..] == [];
      assert WithoutIds([x], ids) == [x] + WithoutIds([], ids);
    }
  }

  lemma {:induction false} WithoutIdsShrinks(s: seq<Interval>, ids: set<int>, y: Interval)
    requires y in s && y.id in ids
    ensures |WithoutIds(s, ids)| < |s|
  {
    if s[0] != y {
      WithoutIdsShrinks(s[1..], ids, y);
    }
  }

  /** Among intervals that are apart, the one holding a point is the only
      candidate the closed containment query can return. */
  lemma IncludingIsUnique(ints: seq<Interval>, station: string, v: int, n: Interval)
    requires forall a, c :: a in ints && c in ints && a != c && a.station == c.station ==> Apart(a, c)
    requires n in ints && n.station == station && Includes(Closed, n, v)
    ensures FetchIncluding(ints, station, v, Closed) == Some(n)
  {
    var l := FetchIncluding(ints, station, v, Closed);
    assert l.value == n || Apart(l.value, n);
  }

  /** After a closed-rule merge, merging the same window again absorbs the
      interval the first merge created. */
  lemma SecondMergeAbsorbsNew(st: Cache, station: string, t0: int, frame: seq<RowData>)
    requires WellFormed(st) && NonOverlapping(st)
    requires |ValidDepartures(frame)| > 0
    ensures var r1 := UpdateTimetable(st, station, t0, frame, Closed);
            var n1 := NewInterval(st, station, t0, frame, Closed);
            n1 in r1.intervals && n1.id in MakePlan(r1, station, t0, frame, Closed).absorbed
  {
    var r1 := UpdateTimetable(st, station, t0, frame, Closed);
    var n1 := NewInterval(st, station, t0, frame, Closed);
    ClosedMergeKeepsNonOverlapping(st, station, t0, frame);
    MergeReplacesAbsorbed(st, station, t0, frame, Closed);
    assert n1 in r1.intervals;
    assert Includes(Closed, n1, t0);
    IncludingIsUnique(r1.intervals, station, t0, n1);
  }

  lemma {:induction false} UnmatchedAllMatched(kept: seq<RowData>, existing: seq<Entry>)
    requires forall d :: d in kept ==> d in DataSet(existing)
    ensures Unmatched(kept, existing) == []
  {
    if |kept| > 0 {
      UnmatchedAllMatched(kept[1..], existing);
    }
  }

  /** Window rows all owned by an absorbed interval leave nothing to insert. */
  lemma OwnedRowsAbsorbed(rows: seq<Entry>, ids: set<int>, iid: int, kept: seq<RowData>)
    requires iid in ids
    requires forall d :: d in kept ==> exists e :: e in rows && e.data == d && e.intervalId == iid
    ensures Unmatched(kept, FetchByMultipleIntervalIds(rows, ids)) == []
  {
    forall d | d in kept
      ensures d in DataSet(FetchByMultipleIntervalIds(rows, ids))
    {
      var e :| e in rows && e.data == d && e.intervalId == iid;
      assert e in FetchByMultipleIntervalIds(rows, ids);
    }
    UnmatchedAllMatched(kept, FetchByMultipleIntervalIds(rows, ids));
  }

  /** ... and inserts none of its rows again. */
  lemma SecondMergeInsertsNothing(st: Cache, station: string, t0: int, frame: seq<RowData>)
    requires WellFormed(st) && NonOverlapping(st)
    requires |ValidDepartures(frame)| > 0
    ensures |InsertedData(UpdateTimetable(st, station, t0, frame, Closed), station, t0, frame, Closed)| == 0
  {
    var r1 := UpdateTimetable(st, station, t0, frame, Closed);
    SecondMergeAbsorbsNew(st, station, t0, frame);
    KeptUnderNew(st, station, t0, frame, Closed);
    var p2 := MakePlan(r1, station, t0, frame, Closed);
    assert p2.kept == MakePlan(st, station, t0, frame, Closed).kept;
    OwnedRowsAbsorbed(r1.rows, p2.absorbed, st.nextIntervalId, p2.kept);
  }

  /** The interval half of idempotence: the second merge adds no interval. */
  lemma ClosedMergeIdempotentIntervals(st: Cache, station: string, t0: int, frame: seq<RowData>)
    requires WellFormed(st) && NonOverlapping(st)
    requires |ValidDepartures(frame)| > 0
    ensures var r1 := UpdateTimetable(st, station, t0, frame, Closed);
            |UpdateTimetable(r1, station, t0, frame, Closed).intervals| <= |r1.intervals|
  {
    var r1 := UpdateTimetable(st, station, t0, frame, Closed);
    var n1 := NewInterval(st, station, t0, frame, Closed);
    var p2 := MakePlan(r1, station, t0, frame, Closed);
    MergeWellFormed(st, station, t0, frame, Closed);
    SecondMergeAbsorbsNew(st, station, t0, frame);
    MergeIntervals(r1, station, t0, frame, Closed);
    MergeReplacesAbsorbed(r1, station, t0, frame, Closed);
    WithoutIdsAppend(r1.intervals, NewInterval(r1, station, t0, frame, Closed), p2.absorbed);
    WithoutIdsShrinks(r1.intervals, p2.absorbed, n1);
  }

  /** The row half of idempotence: the second merge adds no row and keeps the
      cached data. */
  lemma ClosedMergeIdempotentRows(st: Cache, station: string, t0: int, frame: seq<RowData>)
    requires WellFormed(st) && NonOverlapping(st)
    requires |ValidDepartures(frame)| > 0
    ensures var r1 := UpdateTimetable(st, station, t0, frame, Closed);
            var r2 := UpdateTimetable(r1, station, t0, frame, Closed);
            |r2.rows| == |r1.rows| && DataSet(r2.rows) == DataSet(r1.rows)
  {
    var r1 := UpdateTimetable(st, station, t0, frame, Closed);
    var p2 := MakePlan(r1, station, t0, frame, Closed);
    MergeWellFormed(st, station, t0, frame, Closed);
    SecondMergeAbsorbsNew(st, station, t0, frame);
    SecondMergeInsertsNothing(st, station, t0, frame);
    var u2 := InsertedData(r1, station, t0, frame, Closed);
    MergeRows(r1, station, t0, frame, Closed);
    ShapeData(r1.rows, p2.absorbed, r1.nextIntervalId, r1.nextRowId, u2, []);
  }

  /** Merging the same window twice under the closed rule adds no interval
      and no row, and leaves the cached data as they were. */
  lemma ClosedMergeIdempotent(st: Cache, station: string, t0: int, frame: seq<RowData>)
    requires WellFormed(st) && NonOverlapping(st)
    ensures var r1 := UpdateTimetable(st, station, t0, frame, Closed);
            var r2 := UpdateTimetable(r1, station, t0, frame, Closed);
            |r2.intervals| <= |r1.intervals| && |r2.rows| == |r1.rows| && DataSet(r2.rows) == DataSet(r1.rows)
  {
    if |ValidDepartures(frame)| > 0 {
      ClosedMergeIdempotentIntervals(st, station, t0, frame);
      ClosedMergeIdempotentRows(st, station, t0, frame);
    }
  }

  // ---------------------------------------------------------------- the rule as written

  /** As written, an interval starting exactly at `t0` is absorbed by neither
      query, and the merge stores an interval overlapping it. */
  lemma AsWrittenMergeOverlaps()
    ensures var st := Cache([Interval(0, "S", 10, 20)], [], 1, 0);
            var frame := [RowData("S", 1, "U", Some(30), None)];
            WellFormed(st) && NonOverlapping(st) &&
            !NonOverlapping(UpdateTimetable(st, "S", 10, frame, AsWritten))
  {
    var st := Cache([Interval(0, "S", 10, 20)], [], 1, 0);
    var frame := [RowData("S", 1, "U", Some(30), None)];
    assert ValidDepartures(frame) == [30];
    var p := MakePlan(st, "S", 10, frame, AsWritten);
    assert p.tMax == 30;
    assert p.left.None? && p.right.None?;
    assert p.middle == [];
    assert p.absorbed == {};
    var r := UpdateTimetable(st, "S", 10, frame, AsWritten);
    assert r.intervals == [Interval(0, "S", 10, 20), Interval(1, "S", 10, 30)];
    assert !Apart(r.intervals[0], r.intervals[1]);
  }

  /** As written, re-merging a window whose latest departure is `t0` absorbs
      nothing: a second interval is added and every row is stored twice. */
  lemma AsWrittenRefetchDuplicates()
    ensures var st := Cache([], [], 0, 0);
            var frame := [RowData("S", 1, "U", Some(10), None)];
            var r1 := UpdateTimetable(st, "S", 10, frame, AsWritten);
            var r2 := UpdateTimetable(r1, "S", 10, frame, AsWritten);
            WellFormed(st) && |r2.intervals| == |r1.intervals| + 1 && |r2.rows| == |r1.rows| + 1 &&
            !Distinct(DataOf(r2.rows))
  {
    var st := Cache([], [], 0, 0);
    var d := RowData("S", 1, "U", Some(10), None);
    var frame := [d];
    assert ValidDepartures(frame) == [10];
    assert KeepTimed(frame) == frame;
    var r1 := UpdateTimetable(st, "S", 10, frame, AsWritten);
    assert r1 == Cache([Interval(0, "S", 10, 10)], [Entry(0, d, 0)], 1, 1);
    var p := MakePlan(r1, "S", 10, frame, AsWritten);
    assert p.left.None? && p.right.None?;
    assert p.middle == [];
    var r2 := UpdateTimetable(r1, "S", 10, frame, AsWritten);
    assert r2.rows == [Entry(0, d, 0), Entry(1, d, 1)];
    assert DataOf(r2.rows)[0] == DataOf(r2.rows)[1];
  }
}
