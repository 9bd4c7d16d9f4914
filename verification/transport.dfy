/** Parsing of one downloaded timetable response into rows, and the start
    times of the download slices. */
module TransportApi {
  import opened Wrappers
  import opened Records
  import opened Clock

  /** One record of `departures.all`; a missing time is `None` (JSON null).
      The service number arrives as text and is read with `int()`. */
  datatype Departure = Departure(
    service: string,
    trainUid: string,
    aimedDeparture: Option<string>,
    aimedArrival: Option<string>)

  /** The fields of a response the parser reads. */
  datatype Response = Response(
    date: string,
    timeOfDay: string,
    stationCode: string,
    departures: seq<Departure>)

  /** A time field that is either null or readable as a time of day. */
  predicate Readable(t: Option<string>) {
    t.Some? ==> ClockSeconds(t.value).Some?
  }

  /** A record the parser reads without raising: a numeric service and two
      readable time fields. */
  predicate Parsable(d: Departure) {
    ParseDecimal(d.service).Some? && Readable(d.aimedDeparture) && Readable(d.aimedArrival)
  }

  /** The timestamp a time field denotes: NAT for null, otherwise the
      reference date's midnight plus the rolled-over time of day. */
  function Stamp(t: Option<string>, dRef: int, tRef: int): Timestamp
    requires Readable(t)
  {
    if t.None? then None else Some(dRef + TimeToSeconds(t.value, tRef).value)
  }

  /** The row one departure record becomes. */
  function RowOf(d: Departure, station: string, dRef: int, tRef: int): RowData
    requires Parsable(d)
  {
    RowData(station, ParseDecimal(d.service).value, d.trainUid, Stamp(d.aimedDeparture, dRef, tRef), Stamp(d.aimedArrival, dRef, tRef))
  }

  /** The two list comprehensions over the departures: one row per record,
      in order; a malformed time or service number raises. */
  function ParseRows(deps: seq<Departure>, station: string, dRef: int, tRef: int): (r: Result<seq<RowData>, string>)
    ensures r.Failure? <==> exists k :: 0 <= k < |deps| && !Parsable(deps[k])
    ensures r.Success? ==> |r.value| == |deps|
    ensures r.Success? ==> forall k :: 0 <= k < |deps| ==>
              r.value[k].station == station && r.value[k].service == ParseDecimal(deps[k].service).value &&
              r.value[k].trainUid == deps[k].trainUid &&
              (r.value[k].dept.None? <==> deps[k].aimedDeparture.None?) &&
              (r.value[k].arri.None? <==> deps[k].aimedArrival.None?) &&
              r.value[k] == RowOf(deps[k], station, dRef, tRef)
  {
    if |deps| == 0 then Success([])
    else if !Parsable(deps[0]) then Failure("invalid literal for int()")
    else
      match ParseRows(deps[1..], station, dRef, tRef)
      case Failure(e) =>
        var k :| 0 <= k < |deps[1..]| && !Parsable(deps[1..][k]);
        assert !Parsable(deps[k + 1]);
        Failure(e)
      case Success(rest) =>
        assert forall k :: 1 <= k < |deps| ==> deps[k] == deps[1..][k - 1];
        Success([RowOf(deps[0], station, dRef, tRef)] + rest)
  }

  /** `parse_timetable(json_obj)` with the response date's midnight `dRef`
      given: `None` when there are no departures, otherwise one row per
      departure, timed against the response's own time of day. */
  function ParseTimetable(resp: Response, dRef: int): (r: Result<Option<seq<RowData>>, string>)
    ensures r == Success(None) <==> |resp.departures| == 0
    ensures r.Failure? <==>
              (|resp.departures| > 0 &&
               (ClockSeconds(resp.timeOfDay).None? || exists k :: 0 <= k < |resp.departures| && !Parsable(resp.departures[k])))
    ensures r.Success? && r.value.Some? ==>
              ClockSeconds(resp.timeOfDay).Some? &&
              ParseRows(resp.departures, resp.stationCode, dRef, ClockSeconds(resp.timeOfDay).value) == Success(r.value.value)
  {
    if |resp.departures| == 0 then Success(None)
    else
      match TimeToSeconds(resp.timeOfDay, 0)
      case None => Failure("invalid literal for int()")
      case Some(tRef) =>
        NoRolloverFromMidnight(resp.timeOfDay);
        match ParseRows(resp.departures, resp.stationCode, dRef, tRef)
        case Failure(e) => Failure(e)
        case Success(rows) => Success(Some(rows))
  }

  /** The output has one row per departure record, in order, tagged with the
      response's station; a null time is NAT and a real one is placed no
      earlier than the response's own time of day. */
  lemma ParsedRows(resp: Response, dRef: int)
    requires ParseTimetable(resp, dRef).Success?
    requires ParseTimetable(resp, dRef).value.Some?
    requires ClockSeconds(resp.timeOfDay).value < SecondsInADay
    ensures var rows := ParseTimetable(resp, dRef).value.value;
            var tRef := ClockSeconds(resp.timeOfDay).value;
            |rows| == |resp.departures| &&
            forall k :: 0 <= k < |rows| ==>
              rows[k].station == resp.stationCode &&
              rows[k].trainUid == resp.departures[k].trainUid &&
              rows[k].service == ParseDecimal(resp.departures[k].service).value &&
              (rows[k].dept.None? <==> resp.departures[k].aimedDeparture.None?) &&
              (rows[k].dept.Some? ==> rows[k].dept.value >= dRef + tRef) &&
              (rows[k].arri.None? <==> resp.departures[k].aimedArrival.None?) &&
              (rows[k].arri.Some? ==> rows[k].arri.value >= dRef + tRef)
  {
    var rows := ParseTimetable(resp, dRef).value.value;
    var tRef := ClockSeconds(resp.timeOfDay).value;
    forall k | 0 <= k < |rows|
      ensures (rows[k].dept.Some? ==> rows[k].dept.value >= dRef + tRef) &&
              (rows[k].arri.Some? ==> rows[k].arri.value >= dRef + tRef)
    {
      var d := resp.departures[k];
      if d.aimedDeparture.Some? {
        NotBeforeReference(d.aimedDeparture.value, tRef);
      }
      if d.aimedArrival.Some? {
        NotBeforeReference(d.aimedArrival.value, tRef);
      }
    }
  }

  // ---------------------------------------------------------------- line 44 as written

  /** A cell of the parsed frame: the service column is meant to hold numbers
      and the train_uid column text. */
  datatype Cell = Number(n: int) | Text(t: string)

  /** `df[['service', 'train_uid']] = services, uids` as pandas carries it
      out: the pair of lists is read as a table of two rows and n columns,
      and target column j receives table column j. So the assignment raises
      unless there are exactly two records, and with two, column j holds the
      service and the train of record j. */
  function AssignColumnsAsWritten(services: seq<int>, uids: seq<string>): (r: Result<seq<seq<Cell>>, string>)
    requires |services| == |uids|
    ensures r.Failure? <==> |services| != 2
    ensures r.Success? ==> |r.value| == 2
    ensures r.Success? ==> forall j :: 0 <= j < 2 ==> r.value[j] == [Number(services[j]), Text(uids[j])]
  {
    if |services| != 2 then Failure("Columns must be same length as key")
    else Success([[Number(services[0]), Text(uids[0])], [Number(services[1]), Text(uids[1])]])
  }

  /** The assignment as intended: the services fill the first column and the
      trains the second, row k from record k. */
  function AssignColumns(services: seq<int>, uids: seq<string>): (r: seq<seq<Cell>>)
    requires |services| == |uids|
    ensures |r| == 2 && |r[0]| == |services| && |r[1]| == |uids|
    ensures forall k :: 0 <= k < |services| ==> r[0][k] == Number(services[k]) && r[1][k] == Text(uids[k])
  {
    [seq(|services|, k requires 0 <= k < |services| => Number(services[k])),
     seq(|uids|, k requires 0 <= k < |uids| => Text(uids[k]))]
  }

  /** For no number of records does the assignment as written give the
      intended columns: it raises unless there are two, and with two the
      service column holds a train. */
  lemma AsWrittenColumnsNeverIntended(services: seq<int>, uids: seq<string>)
    requires |services| == |uids|
    ensures AssignColumnsAsWritten(services, uids) != Success(AssignColumns(services, uids))
  {
    if |services| == 2 {
      assert AssignColumnsAsWritten(services, uids).value[0][1] == Text(uids[0]);
      assert AssignColumns(services, uids)[0][1] == Number(services[1]);
    }
  }

  /** The columns of the parsed rows are the intended assignment of the
      records' service numbers and trains. */
  lemma ParsedColumns(deps: seq<Departure>, station: string, dRef: int, tRef: int)
    requires ParseRows(deps, station, dRef, tRef).Success?
    ensures var rows := ParseRows(deps, station, dRef, tRef).value;
            var services := seq(|deps|, k requires 0 <= k < |deps| && Parsable(deps[k]) =>
                              ParseDecimal(deps[k].service).value);
            var uids := seq(|deps|, k requires 0 <= k < |deps| => deps[k].trainUid);
            AssignColumns(services, uids) ==
              [seq(|rows|, k requires 0 <= k < |rows| => Number(rows[k].service)),
               seq(|rows|, k requires 0 <= k < |rows| => Text(rows[k].trainUid))]
  {
    var rows := ParseRows(deps, station, dRef, tRef).value;
    var services := seq(|deps|, k requires 0 <= k < |deps| && Parsable(deps[k]) =>
                      ParseDecimal(deps[k].service).value);
    var uids := seq(|deps|, k requires 0 <= k < |deps| => deps[k].trainUid);
    var a := AssignColumns(services, uids);
    var c0 := seq(|rows|, k requires 0 <= k < |rows| => Number(rows[k].service));
    var c1 := seq(|rows|, k requires 0 <= k < |rows| => Text(rows[k].trainUid));
    assert a[0] == c0;
    assert a[1] == c1;
    assert a == [c0, c1];
  }

  /** The start times of the download slices of `download_multiple_timetables`:
      `download_concurrency` slices, the first at `t0`, each `t_window` after
      the previous one. */
  function SliceStarts(t0: int, cfg: Settings): (r: seq<int>)
    ensures |r| == Max(0, cfg.downloadConcurrency)
    ensures |r| > 0 ==> r[0] == t0
    ensures forall i :: 0 <= i < |r| - 1 ==> r[i + 1] - r[i] == cfg.tWindow
  {
    seq(Max(0, cfg.downloadConcurrency), i => t0 + i * cfg.tWindow)
  }

  /** With the default settings, three slices two units apart. */
  lemma DefaultSlices(t0: int)
    ensures SliceStarts(t0, DefaultSettings) == [t0, t0 + 2, t0 + 4]
  {
  }
}
