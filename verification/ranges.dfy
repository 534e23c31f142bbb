/** The dates a day-stepping loop `while current <= end: ...; current +=
    timedelta(days=1)` visits. The loop compares full date-times, so the
    start's time of day is carried along and matters on the last day. */
module Ranges {
  import opened Dates

  /** The visited dates, in order; the walk stops after 9999-12-31, where
      Python's addition overflows. */
  function DatesInRange(start: Moment, end: Moment): (ds: seq<Date>)
    requires ValidMoment(start)
    ensures AllValid(ds)
    decreases MaxYear - start.date.year, 12 - start.date.month, 31 - start.date.day
  {
    if !AtOrBefore(start, end) then []
    else if start.date == MaxDate then [start.date]
    else [start.date] + DatesInRange(Moment(NextDay(start.date), start.micros), end)
  }

  /** One turn of the loop: a start within the bound is visited first, and
      the walk goes on from the next day unless the start is 9999-12-31. */
  lemma RangeUnfold(start: Moment, end: Moment)
    requires ValidMoment(start) && AtOrBefore(start, end)
    ensures start.date == MaxDate ==> DatesInRange(start, end) == [MaxDate]
    ensures start.date != MaxDate ==>
      DatesInRange(start, end) == [start.date] + DatesInRange(Moment(NextDay(start.date), start.micros), end)
  {
  }

  /** Every visited date is valid, not before the start, and within the end
      bound at the start's time of day; consecutive entries are consecutive
      days; the first is the start's date; nothing is visited when the start
      is after the end. */
  lemma {:induction false} RangeShape(start: Moment, end: Moment)
    requires ValidMoment(start)
    ensures var ds := DatesInRange(start, end);
      && (ds == [] <==> !AtOrBefore(start, end))
      && (ds != [] ==> ds[0] == start.date)
      && (forall i :: 0 <= i < |ds| ==>
            ValidDate(ds[i]) && !Before(ds[i], start.date) && AtOrBefore(Moment(ds[i], start.micros), end))
      && (forall i :: 0 <= i < |ds| - 1 ==> ds[i] != MaxDate && ds[i + 1] == NextDay(ds[i]))
    decreases MaxYear - start.date.year, 12 - start.date.month, 31 - start.date.day
  {
    if AtOrBefore(start, end) && start.date != MaxDate {
      var next := Moment(NextDay(start.date), start.micros);
      RangeShape(next, end);
    }
  }

  /** Visited dates strictly increase, so each date is visited at most once. */
  lemma {:induction false} RangeAscending(start: Moment, end: Moment)
    requires ValidMoment(start)
    ensures var ds := DatesInRange(start, end);
      forall i, j :: 0 <= i < j < |ds| ==> Before(ds[i], ds[j])
    decreases MaxYear - start.date.year, 12 - start.date.month, 31 - start.date.day
  {
    if AtOrBefore(start, end) && start.date != MaxDate {
      var next := Moment(NextDay(start.date), start.micros);
      RangeAscending(next, end);
      RangeShape(next, end);
    }
  }

  /** Every valid date from the start's date on that is within the end bound
      at the start's time of day is visited. */
  lemma {:induction false} RangeComplete(start: Moment, end: Moment, d: Date)
    requires ValidMoment(start) && ValidDate(d)
    requires !Before(d, start.date) && AtOrBefore(Moment(d, start.micros), end)
    ensures d in DatesInRange(start, end)
    decreases MaxYear - start.date.year, 12 - start.date.month, 31 - start.date.day
  {
    if d != start.date {
      var next := Moment(NextDay(start.date), start.micros);
      RangeComplete(next, end, d);
    }
  }
}
