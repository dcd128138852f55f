/** The normalisation `parse_date_range` applies to the configured
    reporting period: naive bounds are taken as UTC, and an end bound at
    midnight is moved to the last microsecond of its day. How a bound
    then becomes an instant of the worklog comparison is not modelled. */
module DateRange {
  import opened Options

  datatype Date = Date(year: int, month: int, day: int)

  /** A `datetime`: a date, a time of day and its `tzinfo`, here the UTC
      offset in minutes, `None` for a naive value. */
  datatype DateTime = DateTime(
    date: Date,
    hour: int,
    minute: int,
    second: int,
    microsecond: int,
    utcOffset: Option<int>)

  /** `datetime.fromisoformat`, which is not modelled: `None` stands for
      the `ValueError` it raises. */
  type DateParser = string -> Option<DateTime>

  const MicrosPerDay: int := 86_400_000_000

  predicate ValidTime(d: DateTime) {
    && 0 <= d.hour < 24
    && 0 <= d.minute < 60
    && 0 <= d.second < 60
    && 0 <= d.microsecond < 1_000_000
  }

  /** Microseconds since the start of the day. */
  function MicroOfDay(d: DateTime): int {
    ((d.hour * 60 + d.minute) * 60 + d.second) * 1_000_000 + d.microsecond
  }

  /** A valid time of day lies in `[0, MicrosPerDay)`. */
  lemma MicroOfDayBounds(d: DateTime)
    requires ValidTime(d)
    ensures 0 <= MicroOfDay(d) < MicrosPerDay
  {
  }

  /** `replace(tzinfo=timezone.utc)` on a naive value; an aware value is
      kept as it is. */
  function AssumeUtc(d: DateTime): (r: DateTime)
    ensures r.utcOffset.Some?
    ensures d.utcOffset.Some? ==> r == d
    ensures d.utcOffset.None? ==> r.utcOffset == Some(0)
    ensures r.date == d.date && MicroOfDay(r) == MicroOfDay(d) && (ValidTime(d) <==> ValidTime(r))
  {
    if d.utcOffset.None? then d.(utcOffset := Some(0)) else d
  }

  /** The test the end bound is put to: hour, minute and second are all
      zero; the microsecond is not looked at. */
  predicate AtMidnight(d: DateTime) {
    d.hour == 0 && d.minute == 0 && d.second == 0
  }

  /** An end bound at midnight becomes 23:59:59.999999 of the same day,
      with the same offset; any other end bound is unchanged. */
  function InclusiveEnd(d: DateTime): (r: DateTime)
    ensures r.date == d.date && r.utcOffset == d.utcOffset
    ensures AtMidnight(d) ==> ValidTime(r) && MicroOfDay(r) == MicrosPerDay - 1
    ensures !AtMidnight(d) ==> r == d
    ensures ValidTime(d) ==> ValidTime(r) && MicroOfDay(d) <= MicroOfDay(r)
  {
    if AtMidnight(d) then d.(hour := 23, minute := 59, second := 59, microsecond := 999_999)
    else d
  }

  /** Both bounds made aware (a naive bound gets UTC, an aware one keeps
      its offset), then the end made inclusive. The start
      keeps its time of day, even at midnight; only the end is moved. */
  function NormalizeRange(start: DateTime, end: DateTime): (r: (DateTime, DateTime))
    ensures r.0.utcOffset.Some? && r.1.utcOffset.Some?
    ensures r.0.utcOffset == Some(start.utcOffset.GetOr(0)) && r.1.utcOffset == Some(end.utcOffset.GetOr(0))
    ensures r.0.date == start.date && r.1.date == end.date
    ensures MicroOfDay(r.0) == MicroOfDay(start) && (start.utcOffset.Some? ==> r.0 == start)
    ensures AtMidnight(end) ==> ValidTime(r.1) && MicroOfDay(r.1) == MicrosPerDay - 1
    ensures !AtMidnight(end) ==> MicroOfDay(r.1) == MicroOfDay(end) && (end.utcOffset.Some? ==> r.1 == end)
  {
    (AssumeUtc(start), InclusiveEnd(AssumeUtc(end)))
  }

  /** `parse_date_range`: `None` when either text fails to parse (the
      program then exits), the normalised pair otherwise. */
  function ParseDateRange(parse: DateParser, startText: string, endText: string): (r: Option<(DateTime, DateTime)>)
    ensures r.Some? <==> parse(startText).Some? && parse(endText).Some?
    ensures r.Some? ==> r.value == NormalizeRange(parse(startText).value, parse(endText).value)
  {
    match (parse(startText), parse(endText))
    case (Some(s), Some(e)) => Some(NormalizeRange(s, e))
    case _ => None
  }

  /** Normalising an already normalised range changes nothing. */
  lemma NormalizeIdempotent(start: DateTime, end: DateTime)
    ensures var r := NormalizeRange(start, end);
      NormalizeRange(r.0, r.1) == r
  {
  }

  /** An end bound at midnight, once normalised, has a time of day no
      earlier than that of any valid time on the same date (the offsets
      are not compared); an end bound off midnight keeps its time of day. */
  lemma NormalizedEndCoversDay(end: DateTime, t: DateTime)
    requires ValidTime(t) && t.date == end.date
    ensures var e := InclusiveEnd(AssumeUtc(end));
      && (AtMidnight(end) ==> e.date == t.date && MicroOfDay(t) <= MicroOfDay(e))
      && (!AtMidnight(end) ==> MicroOfDay(e) == MicroOfDay(end))
  {
    MicroOfDayBounds(t);
  }
}
