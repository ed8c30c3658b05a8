/**
 * `extract_hours_minutes` and `parse_hours`: reading an `"HH:MM"` field back
 * as two integers, and turning the business table into one row of hour
 * columns per (selected) business row.
 */
module HoursIngest {
  import opened Wrappers
  import opened Text
  import opened YelpData
  import opened HoursFormat

  /** `extract_hours_minutes(time_str)`: `hh, mm = map(int, time_str.split(':'))`. */
  function ExtractHoursMinutes(s: string): (r: Result<(int, int), TimeError>)
    ensures r.Success? ==> Count(s, ':') == 1
  {
    match SplitOnce(s, ':')
    case None => Failure(ValueError)
    case Some((h, m)) =>
      if ParseInt(h).Some? && ParseInt(m).Some? then Success((ParseInt(h).value, ParseInt(m).value))
      else Failure(ValueError)
  }

  /** The split is undone: `extract_hours_minutes(H + ":" + M)` gives `(int(H), int(M))`. */
  lemma ExtractHoursMinutesOf(h: string, m: string)
    requires ':' !in h && ':' !in m
    ensures ExtractHoursMinutes(h + ":" + m)
         == if ParseInt(h).Some? && ParseInt(m).Some? then Success((ParseInt(h).value, ParseInt(m).value)) else Failure(ValueError)
  {
    SplitOnceOf(h, m, ':');
  }

  /** Reading back a formatted clock gives the hour and minute that were formatted. */
  lemma ClockRoundTrip(h: nat, m: nat)
    ensures ExtractHoursMinutes(Clock(h, m)) == Success((h, m))
  {
    NumeralPiece(Pad2(h));
    NumeralPiece(Pad2(m));
    ExtractHoursMinutesOf(Pad2(h), Pad2(m));
  }

  /**
   * The fields `process_time` writes read back as the numbers it was given:
   * for `"OH:OM-CH:CM"`, the open field gives `(int(OH), int(OM))` and the
   * close field `(int(CH), int(CM))`.
   */
  lemma ProcessTimeReadsBack(oh: string, om: string, ch: string, cm: string)
    requires ':' !in oh && ':' !in om && ':' !in ch && ':' !in cm
    requires '-' !in oh && '-' !in om && '-' !in ch && '-' !in cm
    requires ProcessTime(RangeText(oh, om, ch, cm)).Success?
    ensures ParseInt(oh).Some? && ParseInt(om).Some? && ParseInt(ch).Some? && ParseInt(cm).Some?
    ensures ExtractHoursMinutes(ProcessTime(RangeText(oh, om, ch, cm)).value.0) == Success((ParseInt(oh).value, ParseInt(om).value))
    ensures ExtractHoursMinutes(ProcessTime(RangeText(oh, om, ch, cm)).value.1) == Success((ParseInt(ch).value, ParseInt(cm).value))
  {
    var o, c := oh + ":" + om, ch + ":" + cm;
    assert RangeText(oh, om, ch, cm) == o + "-" + c;
    SplitOnceOf(o, c, '-');
    SplitOnceOf(oh, om, ':');
    SplitOnceOf(ch, cm, ':');
    ProcessTimeAccepts(oh, om, ch, cm);
    ClockRoundTrip(ParseInt(oh).value, ParseInt(om).value);
    ClockRoundTrip(ParseInt(ch).value, ParseInt(cm).value);
  }

  /** One row of the frame `parse_hours` returns: the hour columns plus `business_id`. */
  datatype HoursRow = HoursRow(businessId: string, columns: map<string, Option<string>>)

  /** `h` is the output row of business row `b`: its id copied, its day columns from `process_hours`. */
  predicate RowOf(b: Business, h: HoursRow)
  {
    h.businessId == b.businessId && HoursColumns(b.hours) == Success(h.columns)
  }

  /** `process_hours` raises on business row `b`. */
  predicate HoursFail(b: Business)
  {
    HoursColumns(b.hours).Failure?
  }

  /** `df.apply(process_hours, axis=1)` with `business_id` copied alongside; the first row that raises stops it. */
  function HoursRows(rows: seq<Business>): (r: Result<seq<HoursRow>, TimeError>)
    ensures r.Success? ==> |r.value| == |rows| && forall i :: 0 <= i < |rows| ==> RowOf(rows[i], r.value[i])
  {
    if rows == [] then Success([])
    else if HoursFail(rows[0]) then Failure(HoursColumns(rows[0].hours).error)
    else
      match HoursRows(rows[1..])
      case Failure(e) => Failure(e)
      case Success(rest) =>
        var r := [HoursRow(rows[0].businessId, HoursColumns(rows[0].hours).value)] + rest;
        assert forall i :: 1 <= i < |rows| ==> rows[i] == rows[1..][i - 1] && r[i] == rest[i - 1];
        Success(r)
  }

  /** The mapping raises exactly when some row's hours make `process_hours` raise. */
  lemma {:induction false} HoursRowsFails(rows: seq<Business>)
    ensures HoursRows(rows).Failure? <==> exists i :: 0 <= i < |rows| && HoursFail(rows[i])
  {
    if rows != [] && !HoursFail(rows[0]) {
      HoursRowsFails(rows[1..]);
      if HoursRows(rows).Failure? {
        var i :| 0 <= i < |rows[1..]| && HoursFail(rows[1..][i]);
        assert rows[1..][i] == rows[i + 1];
      } else {
        forall i | 0 <= i < |rows|
          ensures !HoursFail(rows[i])
        {
          assert RowOf(rows[i], HoursRows(rows).value[i]);
        }
      }
    }
  }

  /** The rows `parse_hours` works on: all of them, or those of one business. */
  function Selected(df: seq<Business>, businessId: Option<string>): seq<Business>
  {
    match businessId
    case None => df
    case Some(b) => RowsWithId(df, b)
  }

  /** `parse_hours(df, business_id)`. */
  function ParseHours(df: seq<Business>, businessId: Option<string>): (r: Result<seq<HoursRow>, TimeError>)
    ensures businessId.Some? && RowsWithId(df, businessId.value) == [] ==> r == Success([])
    ensures r.Success? ==>
      && |r.value| == |Selected(df, businessId)|
      && forall i :: 0 <= i < |r.value| ==> RowOf(Selected(df, businessId)[i], r.value[i])
    ensures r.Failure? <==> exists x :: x in Selected(df, businessId) && HoursFail(x)
  {
    match businessId
    case None =>
      HoursRowsFails(df);
      HoursRows(df)
    case Some(b) =>
      var rows := RowsWithId(df, b);
      HoursRowsFails(rows);
      if rows == [] then Success([]) else HoursRows(rows)
  }

  /**
   * Every row `parse_hours` returns has the fourteen hour columns and no
   * other; with a `business_id` every row belongs to that business.
   */
  lemma ParseHoursRows(df: seq<Business>, businessId: Option<string>, i: nat)
    requires ParseHours(df, businessId).Success? && i < |ParseHours(df, businessId).value|
    ensures ParseHours(df, businessId).value[i].columns.Keys == ColumnsOf(DAYS_OF_WEEK)
    ensures businessId.Some? ==> ParseHours(df, businessId).value[i].businessId == businessId.value
  {
    var x := Selected(df, businessId)[i];
    HoursColumnsCells(x.hours, "Monday");
  }
}
