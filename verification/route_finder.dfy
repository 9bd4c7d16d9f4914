/** The route finder: the range query over the cached timetable and the
    loop that chains one leg per consecutive pair of stations. */
module RouteFinder {
  import opened Wrappers
  import opened Records

  /** The time a query orders and bounds by: departure for a departure
      station, arrival for a target station. */
  function Key(d: RowData, isDept: bool): Timestamp {
    if isDept then d.dept else d.arri
  }

  predicate Keyed(e: Entry, isDept: bool) {
    Key(e.data, isDept).Some?
  }

  /** The sort key of a row; NAT rows never reach the sort. */
  function Rank(e: Entry, isDept: bool): int {
    if Keyed(e, isDept) then Key(e.data, isDept).value else 0
  }

  predicate AllKeyed(s: seq<Entry>, isDept: bool) {
    forall i :: 0 <= i < |s| ==> Keyed(s[i], isDept)
  }

  /** Latest time first. */
  predicate Descending(s: seq<Entry>, isDept: bool) {
    forall i, j :: 0 <= i < j < |s| ==> Rank(s[i], isDept) >= Rank(s[j], isDept)
  }

  /** A row the query for `station` over `[t0, t1]` keeps. */
  predicate InRange(e: Entry, station: string, t0: int, t1: int, isDept: bool) {
    e.data.station == station && Keyed(e, isDept) && t0 <= Rank(e, isDept) <= t1
  }

  /** A row not earlier than the head of a latest-first sequence can be put
      in front of it. */
  lemma DescendingCons(x: Entry, t: seq<Entry>, isDept: bool)
    requires Descending(t, isDept)
    requires |t| > 0 ==> Rank(t[0], isDept) <= Rank(x, isDept)
    ensures Descending([x] + t, isDept)
  {
    var r := [x] + t;
    forall i, j | 0 <= i < j < |r| ensures Rank(r[i], isDept) >= Rank(r[j], isDept) {
      assert r[j] == t[j - 1];
      if i > 0 {
        assert r[i] == t[i - 1];
      } else if j > 1 {
        assert Rank(t[0], isDept) >= Rank(t[j - 1], isDept);
      }
    }
  }

  /** Places `e` before the first row it is not earlier than. */
  function Insert(e: Entry, s: seq<Entry>, isDept: bool): (r: seq<Entry>)
    requires Keyed(e, isDept) && AllKeyed(s, isDept) && Descending(s, isDept)
    ensures multiset(r) == multiset(s) + multiset{e}
    ensures AllKeyed(r, isDept) && Descending(r, isDept)
    ensures |r| > 0 && (r[0] == e || (|s| > 0 && r[0] == s[0]))
  {
    if |s| == 0 then [e]
    else if Rank(s[0], isDept) <= Rank(e, isDept) then
      DescendingCons(e, s, isDept);
      [e] + s
    else
      var rest := Insert(e, s[1..], isDept);
      assert s == [s[0]] + s[1..];
      assert Rank(rest[0], isDept) <= Rank(s[0], isDept);
      DescendingCons(s[0], rest, isDept);
      [s[0]] + rest
  }

  /** The query's filter and `sort_values(..., ascending=False)` on its key,
      built row by row. */
  function SortedSelect(rows: seq<Entry>, station: string, t0: int, t1: int, isDept: bool): (r: seq<Entry>)
    ensures forall e :: multiset(r)[e] == (if InRange(e, station, t0, t1, isDept) then multiset(rows)[e] else 0)
    ensures AllKeyed(r, isDept) && Descending(r, isDept)
  {
    if |rows| == 0 then []
    else
      assert rows == [rows[0]] + rows[1..];
      var rest := SortedSelect(rows[1..], station, t0, t1, isDept);
      if InRange(rows[0], station, t0, t1, isDept) then Insert(rows[0], rest, isDept) else rest
  }

  /** `get_timetable` as its documentation intends: the station's rows whose
      departure (or arrival) time lies in `[t0, t1]`, latest first. */
  function GetTimetable(st: Cache, station: string, t0: int, t1: int, isDept: bool): (r: seq<Entry>)
    ensures forall e :: multiset(r)[e] == (if InRange(e, station, t0, t1, isDept) then multiset(st.rows)[e] else 0)
    ensures forall e :: e in r <==> e in st.rows && InRange(e, station, t0, t1, isDept)
    ensures Descending(r, isDept)
  {
    var r := SortedSelect(st.rows, station, t0, t1, isDept);
    assert forall e :: e in r <==> e in st.rows && InRange(e, station, t0, t1, isDept) by {
      forall e ensures e in r <==> e in st.rows && InRange(e, station, t0, t1, isDept) {
        assert e in r <==> e in multiset(r);
        assert e in st.rows <==> e in multiset(st.rows);
      }
    }
    r
  }

  /** The first row the query returns is the latest qualifying one. */
  lemma LatestFirst(st: Cache, station: string, t0: int, t1: int, isDept: bool, e: Entry)
    requires e in st.rows && InRange(e, station, t0, t1, isDept)
    ensures var r := GetTimetable(st, station, t0, t1, isDept);
            |r| > 0 && InRange(r[0], station, t0, t1, isDept) && Rank(r[0], isDept) >= Rank(e, isDept)
  {
    var r := GetTimetable(st, station, t0, t1, isDept);
    assert e in r;
    var k :| 0 <= k < |r| && r[k] == e;
    assert r[0] in r;
    if k > 0 {
      assert Rank(r[0], isDept) >= Rank(r[k], isDept);
    }
  }

  /** One leg of the answer (`SingleJourney`). */
  datatype Journey = Journey(
    trainId: string,
    deptStation: string,
    destStation: string,
    deptTime: int,
    arriTime: int)

  /** The two query windows of a leg whose passenger is ready at `tDept`. */
  datatype LegQuery = LegQuery(deptLo: int, deptHi: int, targetLo: int, targetHi: int)

  /** The waiting bound in minutes, capped against abuse of the upstream API. */
  function WaitBound(cfg: Settings, maxWaiting: int): (ub: int)
    ensures ub <= maxWaiting && ub <= cfg.ubMaxWaiting
    ensures ub == maxWaiting || ub == cfg.ubMaxWaiting
  {
    Min(maxWaiting, cfg.ubMaxWaiting)
  }

  function Windows(cfg: Settings, tDept: int, ub: int): LegQuery {
    var deptMax := tDept + ub * 60;
    LegQuery(tDept, deptMax, tDept, deptMax + cfg.maxSingleJourney)
  }

  /** Both windows open at the passenger's ready time, the departure window
      is exactly the capped wait in seconds (so at most either limit), and
      the target window extends it by the longest single journey considered. */
  lemma WindowsBounded(cfg: Settings, tDept: int, maxWaiting: int)
    ensures var q := Windows(cfg, tDept, WaitBound(cfg, maxWaiting));
            q.deptLo == tDept && q.targetLo == tDept &&
            q.deptHi - q.deptLo <= cfg.ubMaxWaiting * 60 &&
            q.deptHi - q.deptLo <= maxWaiting * 60 &&
            q.deptHi - q.deptLo == 60 * Min(maxWaiting, cfg.ubMaxWaiting) &&
            q.targetHi - q.deptHi == cfg.maxSingleJourney
  {
  }

  /** One leg: query both stations' timetables and let `pick` choose the
      connection from the two candidate lists. */
  function Leg(st: Cache, cfg: Settings, from: string, to: string, tDept: int, ub: int,
               pick: (seq<Entry>, seq<Entry>) -> Journey): Journey
  {
    var q := Windows(cfg, tDept, ub);
    pick(GetTimetable(st, from, q.deptLo, q.deptHi, true), GetTimetable(st, to, q.targetLo, q.targetHi, false))
  }

  /** Reference definition of the chaining: one leg per consecutive pair,
      each starting where the previous one arrived. */
  function Chain(st: Cache, cfg: Settings, stations: seq<string>, tDept: int, ub: int,
                 pick: (seq<Entry>, seq<Entry>) -> Journey): (r: seq<Journey>)
    ensures |r| == Max(0, |stations| - 1)
    decreases |stations|
  {
    if |stations| < 2 then []
    else
      var j := Leg(st, cfg, stations[0], stations[1], tDept, ub, pick);
      [j] + Chain(st, cfg, stations[1..], j.arriTime, ub, pick)
  }

  /** Every leg of the chain queries one consecutive pair of stations, the
      first from `tDept` and each later one from the previous leg's arrival. */
  lemma {:induction false} ChainLegs(st: Cache, cfg: Settings, stations: seq<string>, tDept: int, ub: int,
                                     pick: (seq<Entry>, seq<Entry>) -> Journey, r: seq<Journey>)
    requires r == Chain(st, cfg, stations, tDept, ub, pick)
    ensures |r| > 0 ==> r[0] == Leg(st, cfg, stations[0], stations[1], tDept, ub, pick)
    ensures forall i :: 0 < i < |r| ==>
              r[i] == Leg(st, cfg, stations[i], stations[i + 1], r[i - 1].arriTime, ub, pick)
    decreases |stations|
  {
    if |stations| >= 2 {
      var j := Leg(st, cfg, stations[0], stations[1], tDept, ub, pick);
      var rest := Chain(st, cfg, stations[1..], j.arriTime, ub, pick);
      ChainLegs(st, cfg, stations[1..], j.arriTime, ub, pick, rest);
      assert r == [j] + rest;
      forall i | 0 < i < |r|
        ensures r[i] == Leg(st, cfg, stations[i], stations[i + 1], r[i - 1].arriTime, ub, pick)
      {
        assert r[i] == rest[i - 1];
        assert stations[1..][i - 1] == stations[i] && stations[1..][i] == stations[i + 1];
        if i == 1 {
          assert r[i - 1] == j;
        } else {
          assert r[i - 1] == rest[i - 2];
        }
      }
    }
  }

  /** `search_routes`, with the leg choice `pick` given and the cache state
      fixed for the whole search. */
  method SearchRoutes(st: Cache, cfg: Settings, stations: seq<string>, startTime: int, maxWaiting: int,
                      pick: (seq<Entry>, seq<Entry>) -> Journey)
    returns (res: seq<Journey>)
    ensures |res| == Max(0, |stations| - 1)
    ensures |res| > 0 ==>
              res[0] == Leg(st, cfg, stations[0], stations[1], startTime, WaitBound(cfg, maxWaiting), pick)
    ensures forall i :: 0 < i < |res| ==>
              res[i] == Leg(st, cfg, stations[i], stations[i + 1], res[i - 1].arriTime, WaitBound(cfg, maxWaiting), pick)
    ensures res == Chain(st, cfg, stations, startTime, WaitBound(cfg, maxWaiting), pick)
  {
    var ub := WaitBound(cfg, maxWaiting);
    res := [];
    var tDept := startTime;
    var todo := stations;
    while |todo| >= 2
      invariant res + Chain(st, cfg, todo, tDept, ub, pick) == Chain(st, cfg, stations, startTime, ub, pick)
      decreases |todo|
    {
      var journey := Leg(st, cfg, todo[0], todo[1], tDept, ub, pick);
      var later := Chain(st, cfg, todo[1..], journey.arriTime, ub, pick);
      assert (res + [journey]) + later == res + ([journey] + later);
      res := res + [journey];
      tDept := journey.arriTime;
      todo := todo[1..];
    }
    ChainLegs(st, cfg, stations, startTime, ub, pick, res);
  }
}
