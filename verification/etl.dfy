/** `update_timetable` and the window assembly of `load_timetable`: the
    interval-coalescing merge of a freshly downloaded window into the cache. */
module Etl {
  import opened Wrappers
  import opened Records
  import opened Repositories
  import opened TransportApi

  // ---------------------------------------------------------------- the window

  /** The departure timestamps of the rows that have one (`df_adt_valid`),
      in frame order. */
  function ValidDepartures(frame: seq<RowData>): (r: seq<int>)
    ensures |r| <= |frame|
    ensures forall t :: t in r <==> exists d :: d in frame && d.dept == Some(t)
  {
    if |frame| == 0 then []
    else
      var rest := ValidDepartures(frame[1..]);
      assert forall d :: d in frame ==> d == frame[0] || d in frame[1..];
      if frame[0].dept.Some? then [frame[0].dept.value] + rest else rest
  }

  function MaxOf(s: seq<int>): (m: int)
    requires |s| > 0
    ensures m in s
    ensures forall x :: x in s ==> x <= m
  {
    if |s| == 1 then s[0]
    else
      var m := MaxOf(s[1..]);
      assert forall x :: x in s ==> x == s[0] || x in s[1..];
      Max(s[0], m)
  }

  /** The rows kept for storing: those with a departure or an arrival time. */
  function KeepTimed(frame: seq<RowData>): (r: seq<RowData>)
    ensures |r| <= |frame|
    ensures forall d :: d in r <==> d in frame && Timed(d)
  {
    if |frame| == 0 then []
    else (if Timed(frame[0]) then [frame[0]] else []) + KeepTimed(frame[1..])
  }

  lemma {:induction false} KeepTimedDistinct(frame: seq<RowData>)
    requires Distinct(frame)
    ensures Distinct(KeepTimed(frame))
  {
    if |frame| > 0 {
      assert Distinct(frame[1..]) by {
        forall i, j | 0 <= i < j < |frame[1..]| ensures frame[1..][i] != frame[1..][j] {
          assert frame[1..][i] == frame[i + 1] && frame[1..][j] == frame[j + 1];
        }
      }
      KeepTimedDistinct(frame[1..]);
      assert frame[0] !in frame[1..] by {
        forall j | 0 <= j < |frame[1..]| ensures frame[1..][j] != frame[0] {
          assert frame[1..][j] == frame[j + 1];
        }
      }
    }
  }

  // ---------------------------------------------------------------- the plan

  /** The upper end of the window to absorb: the latest valid departure; the
      closed rule never lets the window end before it starts. */
  function WindowHi(b: Boundary, t0: int, tMax: int): (hi: int)
    ensures hi >= tMax
    ensures b == Closed ==> hi >= t0
    ensures b == AsWritten ==> hi == tMax
  {
    if b == Closed then Max(t0, tMax) else tMax
  }

  function OptionIds(i: Option<Interval>): set<int> {
    if i.Some? then {i.value.id} else {}
  }

  /** What the merge decides before writing anything. */
  datatype Plan = Plan(
    kept: seq<RowData>,
    tMax: int,
    hi: int,
    left: Option<Interval>,
    right: Option<Interval>,
    middle: seq<Interval>,
    start: int,
    stop: int,
    absorbed: set<int>)

  /** Lines 51-67 of the merge: the kept rows, `t_max`, the intervals holding
      the two ends of the window, those inside it, and the widened bounds. */
  function MakePlan(st: Cache, station: string, t0: int, frame: seq<RowData>, b: Boundary): (p: Plan)
    requires |ValidDepartures(frame)| > 0
    ensures p.tMax in ValidDepartures(frame)
    ensures forall t :: t in ValidDepartures(frame) ==> t <= p.tMax
    ensures p.start <= t0 && p.tMax <= p.hi <= p.stop
    ensures p.hi == WindowHi(b, t0, p.tMax)
    ensures p.left == FetchIncluding(st.intervals, station, t0, b)
    ensures p.right == FetchIncluding(st.intervals, station, p.hi, b)
    ensures p.middle == FetchIncluded(st.intervals, station, t0, p.hi, b)
    ensures p.start == (if p.left.Some? then p.left.value.start else t0)
    ensures p.stop == (if p.right.Some? then p.right.value.stop else p.hi)
    ensures p.absorbed == (set i | i in p.middle :: i.id) + OptionIds(p.left) + OptionIds(p.right)
  {
    var kept := KeepTimed(frame);
    var tMax := MaxOf(ValidDepartures(frame));
    var hi := WindowHi(b, t0, tMax);
    var left := FetchIncluding(st.intervals, station, t0, b);
    var right := FetchIncluding(st.intervals, station, hi, b);
    var middle := FetchIncluded(st.intervals, station, t0, hi, b);
    var start := if left.Some? then left.value.start else t0;
    var stop := if right.Some? then right.value.stop else hi;
    Plan(kept, tMax, hi, left, right, middle, start, stop,
         (set i | i in middle :: i.id) + OptionIds(left) + OptionIds(right))
  }

  // ---------------------------------------------------------------- the outer join

  /** The data columns of a sequence of stored rows. */
  function DataOf(rows: seq<Entry>): (r: seq<RowData>)
    ensures |r| == |rows|
    ensures forall k :: 0 <= k < |rows| ==> r[k] == rows[k].data
  {
    seq(|rows|, k requires 0 <= k < |rows| => rows[k].data)
  }

  function DataSet(rows: seq<Entry>): set<RowData> {
    set e | e in rows :: e.data
  }

  /** The window rows not already present among `existing`. */
  function Unmatched(kept: seq<RowData>, existing: seq<Entry>): (r: seq<RowData>)
    ensures |r| <= |kept|
    ensures forall d :: d in r <==> d in kept && d !in DataSet(existing)
  {
    if |kept| == 0 then []
    else (if kept[0] in DataSet(existing) then [] else [kept[0]]) + Unmatched(kept[1..], existing)
  }

  /** New rows as frame rows of interval `iid`, without an id. */
  function FreshFrame(rows: seq<RowData>, iid: int): (r: seq<FrameRow>)
    ensures |r| == |rows|
    ensures forall k :: 0 <= k < |rows| ==> r[k] == FrameRow(rows[k], iid, None)
  {
    seq(|rows|, k requires 0 <= k < |rows| => FrameRow(rows[k], iid, None))
  }

  /** Stored rows as frame rows of interval `iid`, keeping their ids. */
  function StoredFrame(rows: seq<Entry>, iid: int): (r: seq<FrameRow>)
    ensures |r| == |rows|
    ensures forall k :: 0 <= k < |rows| ==> r[k] == FrameRow(rows[k].data, iid, Some(rows[k].id))
  {
    seq(|rows|, k requires 0 <= k < |rows| => FrameRow(rows[k].data, iid, Some(rows[k].id)))
  }

  /** The outer join on the data columns followed by setting `interval_id`
      (lines 79-80): every cached row once, with its id, then every window row
      no cached row equals, without an id. */
  function OuterJoin(existing: seq<Entry>, kept: seq<RowData>, iid: int): (r: seq<FrameRow>)
    ensures forall k :: 0 <= k < |r| ==> r[k].intervalId == iid
    ensures forall f :: f in r && f.id.None? ==> f.data in kept && f.data !in DataSet(existing)
    ensures forall f :: f in r && f.id.Some? ==> exists e :: e in existing && f.data == e.data && f.id == Some(e.id)
    ensures forall e :: e in existing ==> FrameRow(e.data, iid, Some(e.id)) in r
    ensures forall d :: d in kept && d !in DataSet(existing) ==> FrameRow(d, iid, None) in r
  {
    var stored := StoredFrame(existing, iid);
    var added := Unmatched(kept, existing);
    assert forall e :: e in existing ==> FrameRow(e.data, iid, Some(e.id)) in stored by {
      forall e | e in existing ensures FrameRow(e.data, iid, Some(e.id)) in stored {
        var k :| 0 <= k < |existing| && existing[k] == e;
        assert stored[k] == FrameRow(e.data, iid, Some(e.id));
      }
    }
    assert forall d :: d in added ==> FrameRow(d, iid, None) in FreshFrame(added, iid) by {
      forall d | d in added ensures FrameRow(d, iid, None) in FreshFrame(added, iid) {
        var k :| 0 <= k < |added| && added[k] == d;
        assert FreshFrame(added, iid)[k] == FrameRow(d, iid, None);
      }
    }
    stored + FreshFrame(added, iid)
  }

  function WithId(frame: seq<FrameRow>): (r: seq<FrameRow>)
    ensures forall f :: f in r <==> f in frame && f.id.Some?
  {
    if |frame| == 0 then []
    else (if frame[0].id.Some? then [frame[0]] else []) + WithId(frame[1..])
  }

  function WithoutId(frame: seq<FrameRow>): (r: seq<FrameRow>)
    ensures forall f :: f in r <==> f in frame && f.id.None?
  {
    if |frame| == 0 then []
    else (if frame[0].id.None? then [frame[0]] else []) + WithoutId(frame[1..])
  }

  // ---------------------------------------------------------------- the merge

  /** `update_timetable(station, t0, df_ttb)`. Without a valid departure the
      cache is left as it is. Otherwise the widened interval is created; with
      nothing to absorb the kept rows are inserted under it, and otherwise the
      rows of the absorbed intervals are re-pointed to it, the window rows not
      already cached are inserted under it and the absorbed intervals are
      deleted. */
  function UpdateTimetable(st: Cache, station: string, t0: int, frame: seq<RowData>, b: Boundary): (r: Cache)
    ensures |ValidDepartures(frame)| == 0 ==> r == st
    ensures |ValidDepartures(frame)| > 0 ==> r.nextIntervalId == st.nextIntervalId + 1
  {
    if |ValidDepartures(frame)| == 0 then st
    else
      var p := MakePlan(st, station, t0, frame, b);
      var iid := st.nextIntervalId;
      var st1 := CreateInterval(st, station, p.start, p.stop);
      if p.absorbed == {} then
        BulkInsertByDf(st1, MakeTtbDicts(FreshFrame(p.kept, iid), false))
      else
        var existing := FetchByMultipleIntervalIds(st1.rows, p.absorbed);
        var merged := OuterJoin(existing, p.kept, iid);
        var st2 := BulkUpdateByDf(st1, MakeTtbDicts(WithId(merged), true));
        var st3 := BulkInsertByDf(st2, MakeTtbDicts(WithoutId(merged), false));
        BulkDeleteById(st3, p.absorbed)
  }

  // ---------------------------------------------------------------- load_timetable

  /** The loader's own copy of `parse_timetable`: the rows of the transport
      parser. That copy builds no station column; here the column holds the
      station being loaded, which its NOT NULL constraint needs. */
  function ParseSlice(resp: Response, station: string, dRef: int): (r: Result<Option<seq<RowData>>, string>)
    ensures r.Success? && r.value.Some? ==> forall d :: d in r.value.value ==> d.station == station
    ensures resp.stationCode == station ==> r == ParseTimetable(resp, dRef)
    ensures r.Success? <==> ParseTimetable(resp, dRef).Success?
    ensures r.Success? ==> (r.value.None? <==> |resp.departures| == 0)
  {
    var r := ParseTimetable(resp.(stationCode := station), dRef);
    if r.Success? && r.value.Some? then
      assert forall k :: 0 <= k < |r.value.value| ==> r.value.value[k].station == station;
      r
    else r
  }

  /** `drop_duplicates`: the first occurrence of every row, in order. */
  function DropDuplicates(s: seq<RowData>): (r: seq<RowData>)
    ensures Distinct(r)
    ensures forall d :: d in r <==> d in s
    ensures |r| <= |s|
  {
    if |s| == 0 then []
    else
      var u := DropDuplicates(s[..|s| - 1]);
      assert forall d :: d in s ==> d in s[..|s| - 1] || d == s[|s| - 1];
      if s[|s| - 1] in u then u else u + [s[|s| - 1]]
  }

  /** A window without duplicates passes through unchanged. */
  lemma {:induction false} DropDuplicatesKeepsDistinct(s: seq<RowData>)
    requires Distinct(s)
    ensures DropDuplicates(s) == s
  {
    if |s| > 0 {
      var init := s[..|s| - 1];
      assert Distinct(init) by {
        forall i, j | 0 <= i < j < |init| ensures init[i] != init[j] {
          assert init[i] == s[i] && init[j] == s[j];
        }
      }
      DropDuplicatesKeepsDistinct(init);
      assert s[|s| - 1] !in init by {
        forall j | 0 <= j < |init| ensures init[j] != s[|s| - 1] {
          assert init[j] == s[j];
        }
      }
      assert s == init + [s[|s| - 1]];
    }
  }

  /** `[df for df in timetables if df is not None]`. */
  function NonEmptySlices(results: seq<Option<seq<RowData>>>): (r: seq<seq<RowData>>)
    ensures |r| <= |results|
    ensures forall t :: t in r <==> Some(t) in results
  {
    if |results| == 0 then []
    else
      assert forall o :: o in results ==> o == results[0] || o in results[1..];
      (if results[0].Some? then [results[0].value] else []) + NonEmptySlices(results[1..])
  }

  /** `pd.concat(..., ignore_index=True)`. */
  function Concat(slices: seq<seq<RowData>>): (r: seq<RowData>)
    ensures forall d :: d in r <==> exists t :: t in slices && d in t
  {
    if |slices| == 0 then []
    else
      assert forall t :: t in slices ==> t == slices[0] || t in slices[1..];
      slices[0] + Concat(slices[1..])
  }

  /** The parsed slices concatenated, without exact duplicate rows. Concatenating no slice at all raises, which `Failure` models. */
  function LoadWindow(results: seq<Option<seq<RowData>>>): (r: Result<seq<RowData>, string>)
    ensures r.Failure? <==> forall o :: o in results ==> o.None?
    ensures r.Success? ==> Distinct(r.value)
    ensures r.Success? ==> forall d :: d in r.value <==> exists t :: Some(t) in results && d in t
  {
    var slices := NonEmptySlices(results);
    if |slices| == 0 then
      Failure("No objects to concatenate")
    else
      assert slices[0] in slices;
      Success(DropDuplicates(Concat(slices)))
  }

  /** A downloaded slice: the response and the midnight timestamp of its
      date (`tptdt_2_timestamp` of the date at 00:00). */
  datatype Download = Download(resp: Response, dRef: int)

  /** `[parse_timetable(read_json_file(f)) for f in downloaded_files]`: one
      parse per slice, in order; the first slice that does not parse raises. */
  function ParseSlices(downloads: seq<Download>, station: string): (r: Result<seq<Option<seq<RowData>>>, string>)
    ensures r.Failure? <==>
              exists k :: 0 <= k < |downloads| && ParseSlice(downloads[k].resp, station, downloads[k].dRef).Failure?
    ensures r.Success? ==> |r.value| == |downloads|
    ensures r.Success? ==>
              forall k :: 0 <= k < |downloads| ==>
                r.value[k] == ParseSlice(downloads[k].resp, station, downloads[k].dRef).value
  {
    if |downloads| == 0 then Success([])
    else
      match ParseSlice(downloads[0].resp, station, downloads[0].dRef)
      case Failure(e) => Failure(e)
      case Success(o) =>
        match ParseSlices(downloads[1..], station)
        case Failure(e) =>
          var k :| 0 <= k < |downloads[1..]| &&
                   ParseSlice(downloads[1..][k].resp, station, downloads[1..][k].dRef).Failure?;
          assert downloads[1..][k] == downloads[k + 1];
          Failure(e)
        case Success(rest) =>
          assert forall k :: 1 <= k < |downloads| ==> downloads[k] == downloads[1..][k - 1];
          Success([o] + rest)
  }

  /** Once every slice parses, no slice yields a frame exactly when no
      download has a departure. */
  lemma NoFrameIffNoDeparture(downloads: seq<Download>, station: string)
    requires ParseSlices(downloads, station).Success?
    ensures var results := ParseSlices(downloads, station).value;
            (forall o :: o in results ==> o.None?) <==>
            (forall k :: 0 <= k < |downloads| ==> |downloads[k].resp.departures| == 0)
  {
    var results := ParseSlices(downloads, station).value;
    forall k | 0 <= k < |downloads|
      ensures results[k].None? <==> |downloads[k].resp.departures| == 0
    {
      assert ParseSlice(downloads[k].resp, station, downloads[k].dRef).Success?;
    }
    assert forall o :: o in results ==> exists k :: 0 <= k < |downloads| && o == results[k];
  }

  /** Every parsed slice holds rows of the loaded station only. */
  lemma SlicesOfStation(downloads: seq<Download>, station: string)
    requires ParseSlices(downloads, station).Success?
    ensures forall t: seq<RowData> :: Some(t) in ParseSlices(downloads, station).value ==>
              forall d :: d in t ==> d.station == station
  {
    var results := ParseSlices(downloads, station).value;
    forall t: seq<RowData> | Some(t) in results ensures forall d :: d in t ==> d.station == station {
      var k :| 0 <= k < |results| && results[k] == Some(t);
      assert ParseSlice(downloads[k].resp, station, downloads[k].dRef).value == Some(t);
    }
  }

  /** Every row of a window assembled from parsed slices is of the loaded
      station. */
  lemma WindowOfStation(downloads: seq<Download>, station: string)
    requires ParseSlices(downloads, station).Success?
    requires LoadWindow(ParseSlices(downloads, station).value).Success?
    ensures forall d :: d in LoadWindow(ParseSlices(downloads, station).value).value ==> d.station == station
  {
    var results := ParseSlices(downloads, station).value;
    SlicesOfStation(downloads, station);
    forall d | d in LoadWindow(results).value ensures d.station == station {
      var t :| Some(t) in results && d in t;
    }
  }

  /** `load_timetable` after the download: every slice parsed, the window
      assembled and merged into the cache. It raises when a slice does not
      parse and when no slice has a departure at all; a successful load
      merges rows of the loaded station only. */
  function LoadTimetable(st: Cache, station: string, t0: int, downloads: seq<Download>, b: Boundary)
    : (r: Result<Cache, string>)
    ensures r.Failure? <==>
              (exists k :: 0 <= k < |downloads| && ParseTimetable(downloads[k].resp, downloads[k].dRef).Failure?) ||
              (forall k :: 0 <= k < |downloads| ==> |downloads[k].resp.departures| == 0)
    ensures r.Success? ==>
              ParseSlices(downloads, station).Success? &&
              LoadWindow(ParseSlices(downloads, station).value).Success? &&
              (forall d :: d in LoadWindow(ParseSlices(downloads, station).value).value ==> d.station == station) &&
              r.value == UpdateTimetable(st, station, t0, LoadWindow(ParseSlices(downloads, station).value).value, b)
  {
    match ParseSlices(downloads, station)
    case Failure(e) => Failure(e)
    case Success(results) =>
      NoFrameIffNoDeparture(downloads, station);
      match LoadWindow(results)
      case Failure(e) => Failure(e)
      case Success(frame) =>
        WindowOfStation(downloads, station);
        Success(UpdateTimetable(st, station, t0, frame, b))
  }

  // ---------------------------------------------------------------- the join key

  /** The columns of the loader's frame, on which the outer join of line 79
      matches: every data column but the station. */
  function JoinColumns(d: RowData): (int, string, Timestamp, Timestamp) {
    (d.service, d.trainUid, d.dept, d.arri)
  }

  /** The window rows that no stored row matches on the join columns. */
  function UnmatchedOnColumns(kept: seq<RowData>, existing: seq<Entry>): (r: seq<RowData>)
    ensures |r| <= |kept|
    ensures forall d :: d in r <==> d in kept && forall e :: e in existing ==> JoinColumns(e.data) != JoinColumns(d)
  {
    if |kept| == 0 then []
    else
      (if exists e :: e in existing && JoinColumns(e.data) == JoinColumns(kept[0]) then [] else [kept[0]])
      + UnmatchedOnColumns(kept[1..], existing)
  }

  /** When the window and the stored rows are all of one station, matching on
      the loader's columns and matching on every data column pick the same
      new rows. */
  lemma {:induction false} JoinIgnoresStation(kept: seq<RowData>, existing: seq<Entry>, station: string)
    requires forall d :: d in kept ==> d.station == station
    requires forall e :: e in existing ==> e.data.station == station
    ensures UnmatchedOnColumns(kept, existing) == Unmatched(kept, existing)
  {
    if |kept| > 0 {
      var d := kept[0];
      assert d.station == station;
      assert (exists e :: e in existing && JoinColumns(e.data) == JoinColumns(d)) <==> d in DataSet(existing) by {
        if d in DataSet(existing) {
          var e :| e in existing && e.data == d;
          assert JoinColumns(e.data) == JoinColumns(d);
        }
        if exists e :: e in existing && JoinColumns(e.data) == JoinColumns(d) {
          var e :| e in existing && JoinColumns(e.data) == JoinColumns(d);
          assert e.data == d;
        }
      }
      assert forall x :: x in kept[1..] ==> x in kept;
      JoinIgnoresStation(kept[1..], existing, station);
    }
  }
}
