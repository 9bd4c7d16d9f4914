/** The persisted entities (the `intervals` and `timetables` tables) and the
    configuration values the core reads. */
module Records {
  import opened Wrappers

  /** An absolute time in epoch seconds, or `None` for the NAT sentinel. */
  type Timestamp = Option<int>

  /** A span of time for which one station's timetable has been downloaded. */
  datatype Interval = Interval(id: int, station: string, start: int, stop: int)

  /** The data columns of a timetable row: everything except `id` and
      `interval_id`. Two rows are "identical" when these agree. */
  datatype RowData = RowData(
    station: string,
    service: int,
    trainUid: string,
    dept: Timestamp,
    arri: Timestamp)

  /** A stored timetable row, owned by the interval `intervalId`. */
  datatype Entry = Entry(id: int, data: RowData, intervalId: int)

  /** The whole cache: both tables in storage order, plus the next values of
      their auto-increment primary keys. */
  datatype Cache = Cache(
    intervals: seq<Interval>,
    rows: seq<Entry>,
    nextIntervalId: int,
    nextRowId: int)

  /** The configuration options the core consumes. */
  datatype Settings = Settings(
    ubMaxWaiting: int,        // minutes
    maxSingleJourney: int,    // seconds
    tWindow: int,
    downloadConcurrency: int)

  const DefaultSettings := Settings(180, 3600 * 4, 2, 3)

  /** A row is worth storing when it has at least one real timestamp. */
  predicate Timed(d: RowData) {
    d.dept.Some? || d.arri.Some?
  }

  function IntervalIds(ints: seq<Interval>): set<int> {
    set i | i in ints :: i.id
  }

  /** The referential facts the database keeps: primary keys are keys and lie
      below their counters, and every row belongs to a stored interval. */
  ghost predicate WellFormed(st: Cache) {
    && (forall a, b :: a in st.intervals && b in st.intervals && a.id == b.id ==> a == b)
    && (forall a :: a in st.intervals ==> a.id < st.nextIntervalId)
    && (forall e, f :: e in st.rows && f in st.rows && e.id == f.id ==> e == f)
    && (forall e :: e in st.rows ==> e.id < st.nextRowId)
    && (forall e :: e in st.rows ==> e.intervalId in IntervalIds(st.intervals))
  }

  /** Every stored row has a departure or an arrival time. */
  ghost predicate AllTimed(st: Cache) {
    forall e :: e in st.rows ==> Timed(e.data)
  }

  /** Neither overlapping nor touching: no instant lies in both closed spans. */
  predicate Apart(a: Interval, b: Interval) {
    a.stop < b.start || b.stop < a.start
  }

  /** Every stored interval is a non-empty closed span, and two different
      intervals of one station are apart. */
  ghost predicate NonOverlapping(st: Cache) {
    && (forall a :: a in st.intervals ==> a.start <= a.stop)
    && (forall a, b :: a in st.intervals && b in st.intervals && a != b && a.station == b.station ==> Apart(a, b))
  }
}
