/**
 * The report stage: rows2PlotterXYS turns a device's series into chart
 * points, and printSummary reports each device's sample count and the
 * seconds between its first and last sample. X stays an integer nanosecond
 * offset; the division to float seconds is not modelled.
 */
module Report {
  import opened Records
  import Acquirer

  /** One chart point: x is the offset from the first row in nanoseconds, y the RSSI. */
  datatype Point = Point(x: int, y: int)

  /** The points rows2PlotterXYS produces, one per row, offsets taken from the first row. */
  function Offsets(rows: seq<Row>): (pts: seq<Point>)
    ensures |pts| == |rows|
    ensures rows != [] ==> pts[0].x == 0
    ensures forall i, j :: 0 <= i < |rows| && 0 <= j < |rows| ==>
      pts[j].x - pts[i].x == rows[j].t - rows[i].t && pts[i].y == rows[i].rssi
  {
    seq(|rows|, i requires 0 <= i < |rows| => Point(rows[i].t - rows[0].t, rows[i].rssi))
  }

  /** Inverse of Offsets: rebuild the rows from the points and the first row's time. */
  function ToRows(pts: seq<Point>, t0: Nanos): seq<Row>
  {
    if pts == [] then [] else [Row(t0 + pts[0].x, pts[0].y)] + ToRows(pts[1..], t0)
  }

  /**
   * rows2PlotterXYS (main.go:60-67): a preallocated buffer of len(rows) points
   * filled by an index loop.
   */
  method Rows2PlotterXYs(rows: seq<Row>) returns (pts: seq<Point>)
    ensures pts == Offsets(rows)
    ensures |pts| == |rows|
    ensures rows != [] ==> pts[0].x == 0
  {
    var buf := new Point[|rows|];
    for i := 0 to |rows|
      invariant forall j :: 0 <= j < i ==> buf[j] == Point(rows[j].t - rows[0].t, rows[j].rssi)
    {
      buf[i] := Point(rows[i].t - rows[0].t, rows[i].rssi);
    }
    pts := buf[..];
  }

  /** Offsets loses nothing: the rows come back from the points and the first time. */
  lemma {:induction false} OffsetsRoundTrip(rows: seq<Row>)
    requires rows != []
    ensures ToRows(Offsets(rows), rows[0].t) == rows
  {
    ToRowsAt(Offsets(rows), rows[0].t, rows);
  }

  lemma {:induction false} ToRowsAt(pts: seq<Point>, t0: Nanos, rows: seq<Row>)
    requires |pts| == |rows|
    requires forall i :: 0 <= i < |pts| ==> rows[i] == Row(t0 + pts[i].x, pts[i].y)
    ensures ToRows(pts, t0) == rows
    decreases |pts|
  {
    if pts != [] {
      ToRowsAt(pts[1..], t0, rows[1..]);
    }
  }

  /** When the times never decrease, neither do the offsets, and none is negative. */
  lemma OffsetsMonotone(rows: seq<Row>)
    requires forall i, j :: 0 <= i <= j < |rows| ==> rows[i].t <= rows[j].t
    ensures forall i, j :: 0 <= i <= j < |rows| ==> 0 <= Offsets(rows)[i].x <= Offsets(rows)[j].x
  {
  }

  /** The seconds figure of main.go:84: last Unix() minus first Unix(). */
  function Elapsed(rows: seq<Row>): (s: int)
    requires rows != []
    ensures |rows| == 1 ==> s == 0
  {
    UnixSeconds(rows[|rows| - 1].t) - UnixSeconds(rows[0].t)
  }

  /** The whole-second figure is within one second of the exact nanosecond span of the chart. */
  lemma ElapsedNearLastOffset(rows: seq<Row>)
    requires rows != []
    ensures var span := Offsets(rows)[|rows| - 1].x;
      span - NanosPerSecond < Elapsed(rows) * NanosPerSecond < span + NanosPerSecond
  {
    var a, b := rows[0].t, rows[|rows| - 1].t;
    var sa, sb := UnixSeconds(a), UnixSeconds(b);
    assert (sb - sa) * NanosPerSecond == sb * NanosPerSecond - sa * NanosPerSecond;
  }

  /** What printSummary reports for one device. */
  datatype DeviceSummary = DeviceSummary(samples: nat, seconds: int)

  /**
   * The per-device figures of main.go:83-84. Go panics on an empty series; the
   * aggregator never leaves one (Acquirer.AggregateKeys).
   */
  function Summarize(store: Acquirer.Store): (r: map<string, DeviceSummary>)
    requires forall name :: name in store ==> store[name] != []
    ensures r.Keys == store.Keys
    ensures forall name :: name in r ==> r[name].samples == |store[name]| > 0
    ensures forall name :: name in r ==> r[name].seconds == Elapsed(store[name])
  {
    map name | name in store :: DeviceSummary(|store[name]|, Elapsed(store[name]))
  }

  /**
   * After aggregation the summary is always defined, each device's count is the
   * number of its observations, and a single-sample device reports 0 seconds.
   */
  lemma SummaryOfAggregate(received: seq<BLEDevice>)
    ensures forall name :: name in Acquirer.Aggregate(received) ==> Acquirer.Aggregate(received)[name] != []
    ensures var store := Acquirer.Aggregate(received);
      forall name :: name in store ==>
        Summarize(store)[name].samples == |Acquirer.RowsOf(received, name)| &&
        (Summarize(store)[name].samples == 1 ==> Summarize(store)[name].seconds == 0)
  {
    Acquirer.AggregateKeys(received);
    Acquirer.AggregateIsPerNameSubsequence(received);
    var store := Acquirer.Aggregate(received);
    forall name | name in store
      ensures Summarize(store)[name].samples == |Acquirer.RowsOf(received, name)|
    {
      assert Acquirer.Lookup(store, name) == Acquirer.RowsOf(received, name);
    }
  }
}
