/** Revenue rows bucketed by UTC day, and the days of a range filled in between. */
module DailySeries {
  import opened Outcomes

  const DAY_MS: int := 86_400_000

  /** `date` is null for a payment that was never captured; amounts are minor units. */
  datatype Row = Row(date: Option<int>, amount: int)

  datatype Point = Point(date: int, amount: int)

  /** The UTC day of an instant, as a day number. */
  function DayOf(instant: int): int {
    instant / DAY_MS
  }

  function StartOf(day: int): int {
    day * DAY_MS
  }

  lemma DayOfStart(day: int)
    ensures DayOf(StartOf(day)) == day
  {
  }

  predicate OnDay(row: Row, day: int) {
    row.date.Some? && DayOf(row.date.value) == day
  }

  function SumOn(rows: seq<Row>, day: int): int {
    if rows == [] then 0
    else SumOn(rows[..|rows| - 1], day) + (if OnDay(rows[|rows| - 1], day) then rows[|rows| - 1].amount else 0)
  }

  /** Each row counts once, for the day of 86,400,000 milliseconds its date falls in; a row without a date never. */
  lemma RowsAddUp(rows: seq<Row>, row: Row, day: int)
    ensures SumOn([], day) == 0
    ensures SumOn(rows + [row], day)
            == SumOn(rows, day) + if row.date.Some? && row.date.value / 86_400_000 == day then row.amount else 0
  {
    assert (rows + [row])[..|rows|] == rows;
  }

  /** The days of the dated rows in order of first appearance. */
  function DaysIn(rows: seq<Row>): seq<int> {
    if rows == [] then []
    else
      var days, last := DaysIn(rows[..|rows| - 1]), rows[|rows| - 1];
      if last.date.Some? && DayOf(last.date.value) !in days then days + [DayOf(last.date.value)] else days
  }

  function PointsOf(rows: seq<Row>, days: seq<int>): seq<Point> {
    seq(|days|, i requires 0 <= i < |days| => Point(StartOf(days[i]), SumOn(rows, days[i])))
  }

  method CollapseToDay(rows: seq<Row>) returns (points: seq<Point>)
    ensures points == PointsOf(rows, DaysIn(rows))
  {
    var days: seq<int> := [];
    var byDay: map<int, int> := map[];
    for i := 0 to |rows|
      invariant days == DaysIn(rows[..i])
      invariant byDay.Keys == set day | day in days
      invariant forall day :: day in byDay ==> byDay[day] == SumOn(rows[..i], day)
      invariant forall day :: day !in byDay ==> SumOn(rows[..i], day) == 0
    {
      var row := rows[i];
      assert rows[..i + 1][..i] == rows[..i];
      if row.date.None? {
        continue;
      }
      var key := DayOf(row.date.value);
      if key !in byDay {
        days := days + [key];
      }
      byDay := byDay[key := (if key in byDay then byDay[key] else 0) + row.amount];
    }
    assert rows[..|rows|] == rows;
    points := seq(|days|, i requires 0 <= i < |days| => Point(StartOf(days[i]), byDay[days[i]]));
  }

  /** The amount of the last point of a day; nothing if there is none. */
  function AmountOn(points: seq<Point>, day: int): int {
    if points == [] then 0
    else if DayOf(points[|points| - 1].date) == day then points[|points| - 1].amount
    else AmountOn(points[..|points| - 1], day)
  }

  /** The last point of a day stands for it, whatever other points there are. */
  lemma {:induction false} AmountIsLast(points: seq<Point>, day: int, i: nat)
    requires i < |points| && points[i].date / 86_400_000 == day
    requires forall j :: i < j < |points| ==> points[j].date / 86_400_000 != day
    ensures AmountOn(points, day) == points[i].amount
  {
    if i < |points| - 1 {
      AmountIsLast(points[..|points| - 1], day, i);
    }
  }

  lemma {:induction false} NoPointNoAmount(points: seq<Point>, day: int)
    requires forall j :: 0 <= j < |points| ==> points[j].date / 86_400_000 != day
    ensures AmountOn(points, day) == 0
  {
    if points != [] {
      NoPointNoAmount(points[..|points| - 1], day);
    }
  }

  function Span(from: int, to: int): nat {
    if DayOf(to) < DayOf(from) then 0 else DayOf(to) - DayOf(from) + 1
  }

  /** One entry a day from the day of `from` to the day of `to`, a missing day amounting to zero. */
  method FillDailySeries(points: seq<Point>, from: int, to: int) returns (output: seq<Point>)
    ensures |output| == Span(from, to)
    ensures forall i :: 0 <= i < |output| ==>
              output[i] == Point(StartOf(DayOf(from) + i), AmountOn(points, DayOf(from) + i))
    ensures var days := to / 86_400_000 - from / 86_400_000 + 1;
            |output| == (if days < 0 then 0 else days)
    ensures forall i :: 0 <= i < |output| ==> output[i].date == (from / 86_400_000 + i) * 86_400_000
  {
    var byDay: map<int, Point> := map[];
    for i := 0 to |points|
      invariant forall day :: (if day in byDay then byDay[day].amount else 0) == AmountOn(points[..i], day)
    {
      assert points[..i + 1][..i] == points[..i];
      byDay := byDay[DayOf(points[i].date) := points[i]];
    }
    assert points[..|points|] == points;
    output := [];
    var cursor := StartOf(DayOf(from));
    var end := StartOf(DayOf(to)) + DAY_MS - 1;
    while cursor <= end
      invariant cursor == StartOf(DayOf(from) + |output|)
      invariant |output| <= Span(from, to)
      invariant forall i :: 0 <= i < |output| ==>
                  output[i] == Point(StartOf(DayOf(from) + i), AmountOn(points, DayOf(from) + i))
      decreases end - cursor
    {
      var day := DayOf(cursor);
      DayOfStart(DayOf(from) + |output|);
      output := output + [Point(cursor, if day in byDay then byDay[day].amount else 0)];
      cursor := cursor + DAY_MS;
    }
  }

  // ---------------------------------------------------------------------------------------------
  // Conservation
  // ---------------------------------------------------------------------------------------------

  function Total(points: seq<Point>): int {
    if points == [] then 0 else Total(points[..|points| - 1]) + points[|points| - 1].amount
  }

  /** All the money of the rows dated from the first day up to, not including, the last. */
  function SumBetween(rows: seq<Row>, first: int, last: int): int {
    if rows == [] then 0
    else
      var row := rows[|rows| - 1];
      SumBetween(rows[..|rows| - 1], first, last)
      + if row.date.Some? && first <= DayOf(row.date.value) < last then row.amount else 0
  }

  lemma {:induction false} SumBetweenGrows(rows: seq<Row>, first: int, last: int)
    requires first <= last
    ensures SumBetween(rows, first, last + 1) == SumBetween(rows, first, last) + SumOn(rows, last)
  {
    if rows != [] {
      SumBetweenGrows(rows[..|rows| - 1], first, last);
    }
  }

  lemma {:induction false} SumBetweenEmpty(rows: seq<Row>, day: int)
    ensures SumBetween(rows, day, day) == 0
  {
    if rows != [] {
      SumBetweenEmpty(rows[..|rows| - 1], day);
    }
  }

  /** The days of the points are exactly the days of dated rows, each once. */
  lemma {:induction false} DaysInExact(rows: seq<Row>)
    ensures forall i, j :: 0 <= i < j < |DaysIn(rows)| ==> DaysIn(rows)[i] != DaysIn(rows)[j]
    ensures forall day :: day in DaysIn(rows) <==> exists k :: 0 <= k < |rows| && OnDay(rows[k], day)
  {
    if rows != [] {
      var before := rows[..|rows| - 1];
      DaysInExact(before);
      forall day ensures day in DaysIn(rows) <==> exists k :: 0 <= k < |rows| && OnDay(rows[k], day) {
        if k :| 0 <= k < |rows| && OnDay(rows[k], day) {
          assert k < |before| ==> before[k] == rows[k];
        }
        if day in DaysIn(before) {
          var k :| 0 <= k < |before| && OnDay(before[k], day);
          assert OnDay(rows[k], day);
        } else if day in DaysIn(rows) {
          assert OnDay(rows[|rows| - 1], day);
        }
      }
    }
  }

  /** They come in order of first appearance: an earlier day has a row before every row of a later one. */
  lemma {:induction false} DaysInOrder(rows: seq<Row>, i: nat, j: nat)
    requires i < j < |DaysIn(rows)|
    ensures exists p :: && 0 <= p < |rows| && OnDay(rows[p], DaysIn(rows)[i])
                        && forall k :: 0 <= k <= p ==> !OnDay(rows[k], DaysIn(rows)[j])
  {
    var before := rows[..|rows| - 1];
    var days := DaysIn(before);
    assert forall k :: 0 <= k < |before| ==> before[k] == rows[k];
    if j < |days| {
      DaysInOrder(before, i, j);
      var p :| && 0 <= p < |before| && OnDay(before[p], days[i]) && forall k :: 0 <= k <= p ==> !OnDay(before[k], days[j]);
      assert OnDay(rows[p], DaysIn(rows)[i]);
    } else {
      DaysInExact(before);
      assert days[i] in days && DaysIn(rows)[j] !in days;
      var p :| 0 <= p < |before| && OnDay(before[p], days[i]);
      assert OnDay(rows[p], DaysIn(rows)[i]);
    }
  }

  lemma {:induction false} NothingOnOtherDays(rows: seq<Row>, day: int)
    requires forall k :: 0 <= k < |rows| ==> !OnDay(rows[k], day)
    ensures SumOn(rows, day) == 0
  {
    if rows != [] {
      NothingOnOtherDays(rows[..|rows| - 1], day);
    }
  }

  lemma {:induction false} AmountOfPoints(rows: seq<Row>, days: seq<int>, day: int)
    requires forall i, j :: 0 <= i < j < |days| ==> days[i] != days[j]
    ensures AmountOn(PointsOf(rows, days), day) == if day in days then SumOn(rows, day) else 0
  {
    if days != [] {
      var before := days[..|days| - 1];
      assert PointsOf(rows, days)[..|days| - 1] == PointsOf(rows, before);
      DayOfStart(days[|days| - 1]);
      AmountOfPoints(rows, before, day);
      assert days == before + [days[|days| - 1]];
    }
  }

  /** A collapsed series says of each day what its rows add up to. */
  lemma CollapsedAmounts(rows: seq<Row>, day: int)
    ensures AmountOn(PointsOf(rows, DaysIn(rows)), day) == SumOn(rows, day)
  {
    DaysInExact(rows);
    AmountOfPoints(rows, DaysIn(rows), day);
    if day !in DaysIn(rows) {
      NothingOnOtherDays(rows, day);
    }
  }

  lemma {:induction false} FilledTotal(rows: seq<Row>, first: int, output: seq<Point>)
    requires forall i :: 0 <= i < |output| ==> output[i].amount == SumOn(rows, first + i)
    ensures Total(output) == SumBetween(rows, first, first + |output|)
  {
    if output == [] {
      SumBetweenEmpty(rows, first);
    } else {
      FilledTotal(rows, first, output[..|output| - 1]);
      SumBetweenGrows(rows, first, first + |output| - 1);
    }
  }

  function SumOfDated(rows: seq<Row>): int {
    if rows == [] then 0
    else SumOfDated(rows[..|rows| - 1]) + (if rows[|rows| - 1].date.Some? then rows[|rows| - 1].amount else 0)
  }

  lemma {:induction false} AllBetween(rows: seq<Row>, first: int, last: int)
    requires forall k :: 0 <= k < |rows| && rows[k].date.Some? ==> first <= DayOf(rows[k].date.value) < last
    ensures SumBetween(rows, first, last) == SumOfDated(rows)
  {
    if rows != [] {
      AllBetween(rows[..|rows| - 1], first, last);
    }
  }

  /** What the query selects: rows dated within the range, both ends included. */
  predicate Selected(rows: seq<Row>, from: int, to: int) {
    forall k :: 0 <= k < |rows| && rows[k].date.Some? ==> from <= rows[k].date.value <= to
  }

  /**
   The chart of a range: one entry for each consecutive UTC day, each amounting to that day's rows.
   No money of the days shown is lost or counted twice, and the rows the query selects are all shown.
   */
  method Chart(rows: seq<Row>, from: int, to: int) returns (output: seq<Point>)
    ensures |output| == Span(from, to)
    ensures forall i :: 0 <= i < |output| ==>
              DayOf(output[i].date) == DayOf(from) + i && output[i].amount == SumOn(rows, DayOf(from) + i)
    ensures forall i :: 0 <= i < |output| ==> output[i].date == (from / 86_400_000 + i) * 86_400_000
    ensures Total(output) == SumBetween(rows, DayOf(from), DayOf(from) + Span(from, to))
    ensures from <= to && Selected(rows, from, to) ==> Total(output) == SumOfDated(rows)
  {
    var points := CollapseToDay(rows);
    output := FillDailySeries(points, from, to);
    forall i | 0 <= i < |output|
      ensures DayOf(output[i].date) == DayOf(from) + i && output[i].amount == SumOn(rows, DayOf(from) + i)
    {
      CollapsedAmounts(rows, DayOf(from) + i);
      DayOfStart(DayOf(from) + i);
    }
    FilledTotal(rows, DayOf(from), output);
    if from <= to && Selected(rows, from, to) {
      DaysOrdered(rows, from, to);
      AllBetween(rows, DayOf(from), DayOf(from) + Span(from, to));
    }
  }

  lemma DaysOrdered(rows: seq<Row>, from: int, to: int)
    requires from <= to && Selected(rows, from, to)
    ensures DayOf(from) <= DayOf(to)
    ensures forall k :: 0 <= k < |rows| && rows[k].date.Some? ==> DayOf(from) <= DayOf(rows[k].date.value) <= DayOf(to)
  {
  }
}
