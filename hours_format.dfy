/**
 * `process_time` and `process_hours`: normalising a Yelp `"H:M-H:M"` opening
 * range to zero-padded `"HH:MM"` strings, and spreading a business's `hours`
 * dict over fourteen `<day>_open` / `<day>_close` columns.
 */
module HoursFormat {
  import opened Wrappers
  import opened Text

  const DAYS_OF_WEEK: seq<string> := ["Monday", "Tuesday", "Wednesday", "Thursday", "Friday", "Saturday", "Sunday"]

  /** Python raises ValueError both for a wrong number of pieces and for a non-integer piece. */
  datatype TimeError = ValueError

  function OpenKey(day: string): string { Lower(day) + "_open" }

  function CloseKey(day: string): string { Lower(day) + "_close" }

  /** `f'{h:02d}:{m:02d}'`. */
  function Clock(h: nat, m: nat): string
  {
    Pad2(h) + ":" + Pad2(m)
  }

  /**
   * One half of a range: `hour, minute = text.split(':')`, each passed to
   * `int()` and reformatted. The half comes from splitting on '-', so it holds
   * no '-' and neither number can be negative.
   */
  function FormatClock(text: string): Result<string, TimeError>
    requires '-' !in text
  {
    match SplitOnce(text, ':')
    case None => Failure(ValueError)
    case Some((h, m)) =>
      if ParseInt(h).Some? && ParseInt(m).Some? then Success(Clock(ParseInt(h).value, ParseInt(m).value))
      else Failure(ValueError)
  }

  /** `process_time(time_str)`: the normalised `(open, close)` pair. */
  function ProcessTime(s: string): (r: Result<(string, string), TimeError>)
    ensures r.Success? ==> Count(s, '-') == 1
  {
    match SplitOnce(s, '-')
    case None => Failure(ValueError)
    case Some((o, c)) =>
      var o', c' := FormatClock(o), FormatClock(c);
      if o'.Success? && c'.Success? then Success((o'.value, c'.value)) else Failure(ValueError)
  }

  /** A piece `int()` accepts that holds neither separator. */
  predicate ClockPiece(p: string)
  {
    ':' !in p && '-' !in p && ParseInt(p).Some?
  }

  /** The text `"OH:OM-CH:CM"` built from four pieces. */
  function RangeText(oh: string, om: string, ch: string, cm: string): string
  {
    (oh + ":" + om) + "-" + (ch + ":" + cm)
  }

  lemma NumeralLacks(s: string, c: char)
    requires AllDigits(s) && !IsDigit(c)
    ensures c !in s
  {
  }

  /** A digit string is a clock piece, with its own value. */
  lemma NumeralPiece(p: string)
    requires IsNumeral(p)
    ensures ClockPiece(p) && ParseInt(p).value == NumeralValue(p)
  {
    NumeralLacks(p, ':');
    NumeralLacks(p, '-');
  }

  lemma ClockAccepted(h: string, m: string)
    requires ClockPiece(h) && ClockPiece(m)
    ensures FormatClock(h + ":" + m) == Success(Clock(ParseInt(h).value, ParseInt(m).value))
  {
    SplitOnceOf(h, m, ':');
  }

  /**
   * Any four pieces `int()` accepts, in the `"H:M-H:M"` layout, are accepted
   * and each number is written back with at least two digits.
   */
  lemma ProcessTimeAccepts(oh: string, om: string, ch: string, cm: string)
    requires ClockPiece(oh) && ClockPiece(om) && ClockPiece(ch) && ClockPiece(cm)
    ensures ProcessTime(RangeText(oh, om, ch, cm))
         == Success((Clock(ParseInt(oh).value, ParseInt(om).value), Clock(ParseInt(ch).value, ParseInt(cm).value)))
  {
    var o := oh + ":" + om;
    var c := ch + ":" + cm;
    assert RangeText(oh, om, ch, cm) == o + "-" + c;
    SplitOnceOf(o, c, '-');
    ClockAccepted(oh, om);
    ClockAccepted(ch, cm);
  }

  /**
   * Only that layout is accepted: a string `process_time` does not raise on
   * has exactly one '-', and exactly one ':' on each side of it, between
   * pieces `int()` accepts.
   */
  lemma ProcessTimeOnlyAccepts(s: string) returns (oh: string, om: string, ch: string, cm: string)
    requires ProcessTime(s).Success?
    ensures ClockPiece(oh) && ClockPiece(om) && ClockPiece(ch) && ClockPiece(cm)
    ensures s == RangeText(oh, om, ch, cm)
  {
    var (o, c) := SplitOnce(s, '-').value;
    oh, om := SplitOnce(o, ':').value.0, SplitOnce(o, ':').value.1;
    ch, cm := SplitOnce(c, ':').value.0, SplitOnce(c, ':').value.1;
  }

  /**
   * Normalising is idempotent: feeding `open + "-" + close` back into
   * `process_time` returns the same pair.
   */
  lemma ProcessTimeIdempotent(s: string)
    requires ProcessTime(s).Success?
    ensures ProcessTime(ProcessTime(s).value.0 + "-" + ProcessTime(s).value.1) == ProcessTime(s)
  {
    var oh, om, ch, cm := ProcessTimeOnlyAccepts(s);
    ProcessTimeAccepts(oh, om, ch, cm);
    var a, b, c, d := ParseInt(oh).value, ParseInt(om).value, ParseInt(ch).value, ParseInt(cm).value;
    assert ProcessTime(s).value == (Clock(a, b), Clock(c, d));
    var t := Clock(a, b) + "-" + Clock(c, d);
    assert Clock(a, b) == Pad2(a) + ":" + Pad2(b) && Clock(c, d) == Pad2(c) + ":" + Pad2(d);
    assert t == RangeText(Pad2(a), Pad2(b), Pad2(c), Pad2(d));
    NumeralPiece(Pad2(a));
    NumeralPiece(Pad2(b));
    NumeralPiece(Pad2(c));
    NumeralPiece(Pad2(d));
    ProcessTimeAccepts(Pad2(a), Pad2(b), Pad2(c), Pad2(d));
    assert ProcessTime(t) == Success((Clock(a, b), Clock(c, d)));
  }

  /** The pair of cells `process_hours` writes for one day. */
  function DayCells(hours: map<string, string>, day: string): Result<(Option<string>, Option<string>), TimeError>
  {
    if day in hours && hours[day] != "" then
      match ProcessTime(hours[day])
      case Success(p) => Success((Some(p.0), Some(p.1)))
      case Failure(e) => Failure(e)
    else Success((None, None))
  }

  /** The columns `process_hours` has written after visiting `days`, or the error it raised. */
  function DayColumns(hours: map<string, string>, days: seq<string>): Result<map<string, Option<string>>, TimeError>
  {
    if days == [] then Success(map[])
    else
      var day := days[|days| - 1];
      match DayColumns(hours, days[..|days| - 1])
      case Failure(e) => Failure(e)
      case Success(row) =>
        match DayCells(hours, day)
        case Failure(e) => Failure(e)
        case Success(cells) => Success(row[OpenKey(day) := cells.0][CloseKey(day) := cells.1])
  }

  /** The columns written when the `hours` dict itself is null: every cell None. */
  function NullColumns(days: seq<string>): map<string, Option<string>>
  {
    if days == [] then map[]
    else
      var day := days[|days| - 1];
      NullColumns(days[..|days| - 1])[OpenKey(day) := None][CloseKey(day) := None]
  }

  /** What `process_hours(row)` returns for a row whose `hours` value is `hours`. */
  function HoursColumns(hours: Option<map<string, string>>): (r: Result<map<string, Option<string>>, TimeError>)
    ensures hours.None? ==> r.Success?
  {
    match hours
    case None => Success(NullColumns(DAYS_OF_WEEK))
    case Some(h) => DayColumns(h, DAYS_OF_WEEK)
  }

  lemma {:induction false} DayColumnsFailureStays(hours: map<string, string>, days: seq<string>, j: nat, j': nat)
    requires j <= j' <= |days|
    requires DayColumns(hours, days[..j]).Failure?
    ensures DayColumns(hours, days[..j']) == DayColumns(hours, days[..j])
    decreases j' - j
  {
    if j < j' {
      DayColumnsFailureStays(hours, days, j, j' - 1);
      assert days[..j'][..j' - 1] == days[..j' - 1];
    }
  }

  /** `process_hours(row)`: fill the fourteen cells day by day. */
  method ProcessHours(hours: Option<map<string, string>>) returns (r: Result<map<string, Option<string>>, TimeError>)
    ensures r == HoursColumns(hours)
  {
    if hours.Some? {
      r := FillDays(hours.value, DAYS_OF_WEEK);
    } else {
      var rowData := FillNullDays(DAYS_OF_WEEK);
      r := Success(rowData);
    }
  }

  /** The loop of `process_hours` over the days of a present `hours` dict; a rejected day raises. */
  method FillDays(hours: map<string, string>, days: seq<string>) returns (r: Result<map<string, Option<string>>, TimeError>)
    ensures r == DayColumns(hours, days)
  {
    var rowData: map<string, Option<string>> := map[];
    for i := 0 to |days|
      invariant DayColumns(hours, days[..i]) == Success(rowData)
    {
      var day := days[i];
      assert days[..i + 1][..i] == days[..i];
      var openTime, closeTime;
      if day in hours && hours[day] != "" {
        var t := ProcessTime(hours[day]);
        if t.Failure? {
          DayColumnsFailureStays(hours, days, i + 1, |days|);
          assert days[..|days|] == days;
          return Failure(t.error);
        }
        openTime, closeTime := Some(t.value.0), Some(t.value.1);
      } else {
        openTime, closeTime := None, None;
      }
      rowData := rowData[OpenKey(day) := openTime][CloseKey(day) := closeTime];
    }
    assert days[..|days|] == days;
    r := Success(rowData);
  }

  /** The loop of `process_hours` when the `hours` value is null: both cells of every day are None. */
  method FillNullDays(days: seq<string>) returns (rowData: map<string, Option<string>>)
    ensures rowData == NullColumns(days)
  {
    rowData := map[];
    for i := 0 to |days|
      invariant rowData == NullColumns(days[..i])
    {
      var day := days[i];
      assert days[..i + 1][..i] == days[..i];
      rowData := rowData[OpenKey(day) := None][CloseKey(day) := None];
    }
    assert days[..|days|] == days;
  }

  /** An opening key never equals a closing key: they end in different letters. */
  lemma OpenCloseDiffer(x: string, y: string)
    ensures OpenKey(x) != CloseKey(y)
  {
    var o, c := OpenKey(x), CloseKey(y);
    assert o[|o| - 1] == 'n' && c[|c| - 1] == 'e';
  }

  /** Two days' keys coincide only when their names lower-case alike. */
  lemma KeysFollowNames(x: string, y: string)
    ensures OpenKey(x) == OpenKey(y) <==> Lower(x) == Lower(y)
    ensures CloseKey(x) == CloseKey(y) <==> Lower(x) == Lower(y)
  {
    if OpenKey(x) == OpenKey(y) {
      assert Lower(x) == OpenKey(x)[..|Lower(x)|];
    }
    if CloseKey(x) == CloseKey(y) {
      assert Lower(x) == CloseKey(x)[..|Lower(x)|];
    }
  }

  /** Names of different lengths, or with different first letters, lower-case differently. */
  lemma NamesDiffer(x: string, y: string)
    requires |x| != |y| || (|x| > 0 && |y| > 0 && LowerChar(x[0]) != LowerChar(y[0]))
    ensures Lower(x) != Lower(y)
  {
    if |x| == |y| {
      assert Lower(x)[0] == LowerChar(x[0]) && Lower(y)[0] == LowerChar(y[0]);
    }
  }

  /** The seven day names lower-case to seven different words. */
  lemma DayNamesDistinct()
    ensures forall i, j :: 0 <= i < j < |DAYS_OF_WEEK| ==> Lower(DAYS_OF_WEEK[i]) != Lower(DAYS_OF_WEEK[j])
  {
    forall i, j | 0 <= i < j < |DAYS_OF_WEEK|
      ensures Lower(DAYS_OF_WEEK[i]) != Lower(DAYS_OF_WEEK[j])
    {
      NamesDiffer(DAYS_OF_WEEK[i], DAYS_OF_WEEK[j]);
    }
  }

  /** The day names in `days` lower-case to different words. */
  ghost predicate DistinctNames(days: seq<string>)
  {
    forall i, j :: 0 <= i < j < |days| ==> Lower(days[i]) != Lower(days[j])
  }

  lemma DistinctPrefix(days: seq<string>, n: nat)
    requires DistinctNames(days) && n <= |days|
    ensures DistinctNames(days[..n])
  {
    forall a, b | 0 <= a < b < n
      ensures Lower(days[..n][a]) != Lower(days[..n][b])
    {
      assert days[..n][a] == days[a] && days[..n][b] == days[b];
    }
  }

  /** The column names written for `days`. */
  function ColumnsOf(days: seq<string>): (keys: set<string>)
    ensures forall d :: d in days ==> OpenKey(d) in keys && CloseKey(d) in keys
    ensures |keys| <= 2 * |days|
  {
    if days == [] then {}
    else
      var d := days[|days| - 1];
      ColumnsOf(days[..|days| - 1]) + {OpenKey(d), CloseKey(d)}
  }

  /** Visiting `days` fails exactly when one day's text fails. */
  /** The loop gets past one more day iff it got past the ones before and that day's cells are produced. */
  lemma DayColumnsStepSucceeds(hours: map<string, string>, days: seq<string>)
    requires days != []
    ensures DayColumns(hours, days).Success? <==>
              DayColumns(hours, days[..|days| - 1]).Success? && DayCells(hours, days[|days| - 1]).Success?
  {
  }

  lemma {:induction false} DayColumnsSucceeds(hours: map<string, string>, days: seq<string>)
    ensures DayColumns(hours, days).Success? <==> forall i :: 0 <= i < |days| ==> DayCells(hours, days[i]).Success?
  {
    if days != [] {
      var n := |days| - 1;
      var prefix := days[..n];
      DayColumnsSucceeds(hours, prefix);
      DayColumnsStepSucceeds(hours, days);
      assert forall i :: 0 <= i < n ==> prefix[i] == days[i];
    }
  }

  /** When every day's text is accepted, visiting `days` writes the columns of those days and no others. */
  lemma {:induction false} DayColumnsKeys(hours: map<string, string>, days: seq<string>) returns (row: map<string, Option<string>>)
    requires forall i :: 0 <= i < |days| ==> DayCells(hours, days[i]).Success?
    ensures DayColumns(hours, days) == Success(row)
    ensures row.Keys == ColumnsOf(days)
  {
    if days == [] {
      row := map[];
    } else {
      var n := |days| - 1;
      var d, prefix := days[n], days[..n];
      assert forall i :: 0 <= i < n ==> prefix[i] == days[i];
      var before := DayColumnsKeys(hours, prefix);
      var cells := DayCells(hours, d).value;
      row := before[OpenKey(d) := cells.0][CloseKey(d) := cells.1];
    }
  }

  /**
   * Day `days[i]`'s two columns hold that day's cells: no later day
   * overwrites them, because day names lower-case differently.
   */
  lemma {:induction false} DayColumnsCell(hours: map<string, string>, days: seq<string>, i: nat)
    requires DistinctNames(days) && i < |days|
    requires DayColumns(hours, days).Success?
    ensures DayCells(hours, days[i]).Success?
    ensures var row := DayColumns(hours, days).value;
      && OpenKey(days[i]) in row && row[OpenKey(days[i])] == DayCells(hours, days[i]).value.0
      && CloseKey(days[i]) in row && row[CloseKey(days[i])] == DayCells(hours, days[i]).value.1
  {
    var n := |days| - 1;
    var d, prefix := days[n], days[..n];
    var before := DayColumns(hours, prefix).value;
    var cells := DayCells(hours, d).value;
    var row := before[OpenKey(d) := cells.0][CloseKey(d) := cells.1];
    assert DayColumns(hours, days) == Success(row);
    OpenCloseDiffer(d, d);
    if i < n {
      assert prefix[i] == days[i];
      DistinctPrefix(days, n);
      DayColumnsCell(hours, prefix, i);
      OtherDayUntouched(days[i], d);
    }
  }

  lemma OtherDayUntouched(x: string, d: string)
    requires Lower(x) != Lower(d)
    ensures OpenKey(x) != OpenKey(d) && OpenKey(x) != CloseKey(d)
    ensures CloseKey(x) != OpenKey(d) && CloseKey(x) != CloseKey(d)
  {
    KeysFollowNames(x, d);
    OpenCloseDiffer(x, d);
    OpenCloseDiffer(d, x);
  }

  /** A null `hours` value fills the columns exactly as an empty dict would. */
  lemma {:induction false} NullLikeEmpty(days: seq<string>)
    ensures DayColumns(map[], days) == Success(NullColumns(days))
  {
    if days != [] {
      NullLikeEmpty(days[..|days| - 1]);
    }
  }

  /**
   * `process_hours` raises exactly when some day has a non-empty text that
   * `process_time` rejects; a null `hours` value never raises.
   */
  lemma HoursColumnsFails(hours: Option<map<string, string>>)
    ensures HoursColumns(hours).Failure? <==>
      hours.Some? && exists d :: d in DAYS_OF_WEEK && d in hours.value && hours.value[d] != "" && ProcessTime(hours.value[d]).Failure?
  {
    if hours.Some? {
      DayColumnsFails(hours.value, DAYS_OF_WEEK);
    }
  }

  /** The per-day loop raises exactly when one of the days has a non-empty text that `process_time` rejects. */
  lemma DayColumnsFails(hours: map<string, string>, days: seq<string>)
    ensures DayColumns(hours, days).Failure? <==>
      exists d :: d in days && d in hours && hours[d] != "" && ProcessTime(hours[d]).Failure?
  {
    DayColumnsSucceeds(hours, days);
    if exists d :: d in days && d in hours && hours[d] != "" && ProcessTime(hours[d]).Failure? {
      var d :| d in days && d in hours && hours[d] != "" && ProcessTime(hours[d]).Failure?;
      var i :| 0 <= i < |days| && days[i] == d;
      assert DayCells(hours, days[i]).Failure?;
    }
  }

  /**
   * When `process_hours` returns, the row has the fourteen distinct columns
   * `<day>_open` and `<day>_close` and no other, and the cells of day `d` are
   * None when the `hours` value is null or `d` is absent or empty, and
   * otherwise the two halves `process_time` returns for `d`'s text.
   */
  lemma HoursColumnsCells(hours: Option<map<string, string>>, d: string)
    requires HoursColumns(hours).Success? && d in DAYS_OF_WEEK
    ensures HoursColumns(hours).value.Keys == ColumnsOf(DAYS_OF_WEEK) && |ColumnsOf(DAYS_OF_WEEK)| == 14
    ensures var row := HoursColumns(hours).value;
      if hours.Some? && d in hours.value && hours.value[d] != "" then
        && ProcessTime(hours.value[d]).Success?
        && row[OpenKey(d)] == Some(ProcessTime(hours.value[d]).value.0)
        && row[CloseKey(d)] == Some(ProcessTime(hours.value[d]).value.1)
      else row[OpenKey(d)] == None && row[CloseKey(d)] == None
  {
    DayNamesDistinct();
    var h := if hours.Some? then hours.value else map[];
    NullLikeEmpty(DAYS_OF_WEEK);
    assert HoursColumns(hours) == DayColumns(h, DAYS_OF_WEEK);
    DayColumnsSucceeds(h, DAYS_OF_WEEK);
    var row := DayColumnsKeys(h, DAYS_OF_WEEK);
    var i :| 0 <= i < 7 && DAYS_OF_WEEK[i] == d;
    DayColumnsCell(h, DAYS_OF_WEEK, i);
    ColumnCount();
  }

  /** The seven days give fourteen different column names. */
  lemma ColumnCount()
    ensures |ColumnsOf(DAYS_OF_WEEK)| == 14
  {
    DayNamesDistinct();
    DistinctColumnsCount(DAYS_OF_WEEK);
  }

  lemma {:induction false} DistinctColumnsCount(days: seq<string>)
    requires DistinctNames(days)
    ensures |ColumnsOf(days)| == 2 * |days|
  {
    if days != [] {
      var n := |days| - 1;
      var d, prefix := days[n], days[..n];
      DistinctPrefix(days, n);
      DistinctColumnsCount(prefix);
      OpenCloseDiffer(d, d);
      forall k | k in ColumnsOf(prefix)
        ensures k != OpenKey(d) && k != CloseKey(d)
      {
        var x := ColumnOwner(prefix, k);
        OtherDayUntouched(x, d);
      }
    }
  }

  /** Every column name comes from one of the days. */
  lemma {:induction false} ColumnOwner(days: seq<string>, k: string) returns (d: string)
    requires k in ColumnsOf(days)
    ensures d in days && (k == OpenKey(d) || k == CloseKey(d))
  {
    var n := |days| - 1;
    if k == OpenKey(days[n]) || k == CloseKey(days[n]) {
      d := days[n];
    } else {
      d := ColumnOwner(days[..n], k);
    }
  }
}
