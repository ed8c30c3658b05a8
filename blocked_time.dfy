/**
 * The opening-hours side of `TimeBasedRecommender`: each business's daily
 * opening range cut into one-hour blocks, a user/business match on the hours
 * at which the user has written reviews, and the estimate that falls back to
 * 0 when the hours do not match.
 *
 * Times of day are counted in minutes after midnight. `datetime.strptime`
 * dates its result 1900-01-01, so a block end that passes midnight falls on
 * the next day: the loop compares such times after the day's close, and the
 * block's `.time()` wraps round to the small hours.
 */
module BlockedTime {
  import opened Wrappers
  import opened Text
  import HoursFormat
  import opened HoursIngest

  const MINUTES_PER_DAY: nat := 1440

  /** The day names as they appear in the hour columns, Monday first. */
  const DAYS: seq<string> := ["monday", "tuesday", "wednesday", "thursday", "friday", "saturday", "sunday"]

  /** `row[col]` on a missing column, and `strptime` on text that is not a time. */
  datatype FitError = KeyError | ValueError

  /** One field of `%H:%M`: one or two ASCII digits, at most `max`. */
  predicate ClockField(p: string, max: nat)
  {
    1 <= |p| <= 2 && AllDigits(p) && NumeralValue(p) <= max
  }

  /**
   * `datetime.strptime(s, '%H:%M')` as minutes after midnight: an hour of
   * 0-23 and a minute of 0-59, each one or two digits, around one ':';
   * anything else raises ValueError (None).
   */
  function ParseClock(s: string): (r: Option<nat>)
    ensures r.Some? ==> r.value < MINUTES_PER_DAY
    ensures r.Some? ==> Count(s, ':') == 1
  {
    match SplitOnce(s, ':')
    case None => None
    case Some((h, m)) =>
      if ClockField(h, 23) && ClockField(m, 59) then Some(NumeralValue(h) * 60 + NumeralValue(m)) else None
  }

  lemma {:induction false} Pad2Short(n: nat)
    requires n < 100
    ensures |Pad2(n)| == 2
  {
    if n >= 10 {
      assert |Numeral(n / 10)| == 1;
    }
  }

  /** The `"HH:MM"` strings `process_hours` writes parse back to their hour and minute. */
  lemma ParseClockOfClock(h: nat, m: nat)
    requires h < 24 && m < 60
    ensures ParseClock(HoursFormat.Clock(h, m)) == Some(h * 60 + m)
  {
    var a, b := Pad2(h), Pad2(m);
    Pad2Short(h);
    Pad2Short(m);
    HoursFormat.NumeralLacks(a, ':');
    HoursFormat.NumeralLacks(b, ':');
    assert HoursFormat.Clock(h, m) == a + [':'] + b;
    SplitOnceOf(a, b, ':');
    assert ClockField(a, 23) && ClockField(b, 59);
  }

  /** One block: its day and the `.time()` of its start and of its end. */
  datatype Block = Block(day: string, start: nat, end: nat)

  /** The blocks `while current_time < close_time` emits from `t` on: one per hour started before `close`. */
  function BlocksFrom(day: string, t: nat, close: nat): seq<Block>
    decreases close - t
  {
    if t < close then [Block(day, t, (t + 60) % MINUTES_PER_DAY)] + BlocksFrom(day, t + 60, close) else []
  }

  /** `ceil((close - open) / 60)` blocks when the day closes after it opens, none otherwise. */
  lemma {:induction false} BlocksFromCount(day: string, t: nat, close: nat)
    ensures |BlocksFrom(day, t, close)| == if close > t then (close - t + 59) / 60 else 0
    decreases close - t
  {
    if t < close {
      BlocksFromCount(day, t + 60, close);
    }
  }

  /**
   * Block `k` starts `k` hours after the opening time and before the close,
   * lasts one hour (its end wrapping past midnight) and carries the day's name.
   */
  lemma {:induction false} BlocksFromShape(day: string, t: nat, close: nat, k: nat)
    requires k < |BlocksFrom(day, t, close)|
    ensures BlocksFrom(day, t, close)[k] == Block(day, t + 60 * k, (t + 60 * k + 60) % MINUTES_PER_DAY)
    ensures t + 60 * k < close
    decreases close - t
  {
    if k > 0 {
      BlocksFromShape(day, t + 60, close, k - 1);
    }
  }

  /** The loop of lines 79-84 for one day. */
  method GenerateBlocks(day: string, openTime: nat, closeTime: nat) returns (blocks: seq<Block>)
    ensures blocks == BlocksFrom(day, openTime, closeTime)
  {
    blocks := [];
    var currentTime := openTime;
    while currentTime < closeTime
      invariant blocks + BlocksFrom(day, currentTime, closeTime) == BlocksFrom(day, openTime, closeTime)
      decreases closeTime - currentTime
    {
      var nextTime := currentTime + 60;
      blocks := blocks + [Block(day, currentTime, nextTime % MINUTES_PER_DAY)];
      currentTime := nextTime;
    }
  }

  /** One day of a row: blocks only when both its open and close cells are present. */
  function DayBlocks(row: HoursRow, day: string): (r: Result<seq<Block>, FitError>)
    ensures r == Failure(KeyError) <==> day + "_open" !in row.columns || day + "_close" !in row.columns
    ensures r.Success? && r.value != [] ==> row.columns[day + "_open"].Some? && row.columns[day + "_close"].Some?
  {
    if day + "_open" !in row.columns || day + "_close" !in row.columns then Failure(KeyError)
    else
      match (row.columns[day + "_open"], row.columns[day + "_close"])
      case (Some(o), Some(c)) =>
        if ParseClock(o).Some? && ParseClock(c).Some? then Success(BlocksFrom(day, ParseClock(o).value, ParseClock(c).value))
        else Failure(ValueError)
      case _ => Success([])
  }

  /** A row's blocks, day by day in the order of `days`. */
  function RowBlocks(row: HoursRow, days: seq<string>): Result<seq<Block>, FitError>
  {
    if days == [] then Success([])
    else
      match RowBlocks(row, days[..|days| - 1])
      case Failure(e) => Failure(e)
      case Success(before) =>
        match DayBlocks(row, days[|days| - 1])
        case Failure(e) => Failure(e)
        case Success(b) => Success(before + b)
  }

  /** `_preprocess_business_hours()`: each row in turn sets its business's entry; a later row with the same id replaces it. */
  function Preprocess(rows: seq<HoursRow>): (r: Result<map<string, seq<Block>>, FitError>)
    ensures r.Failure? ==> rows != []
    ensures r.Success? && rows != [] ==> rows[|rows| - 1].businessId in r.value
  {
    if rows == [] then Success(map[])
    else
      match Preprocess(rows[..|rows| - 1])
      case Failure(e) => Failure(e)
      case Success(acc) =>
        match RowBlocks(rows[|rows| - 1], DAYS)
        case Failure(e) => Failure(e)
        case Success(b) => Success(acc[rows[|rows| - 1].businessId := b])
  }

  lemma {:induction false} RowBlocksFailureStays(row: HoursRow, days: seq<string>, n: nat)
    requires n <= |days| && RowBlocks(row, days[..n]).Failure?
    ensures RowBlocks(row, days).Failure? && RowBlocks(row, days).error == RowBlocks(row, days[..n]).error
    decreases |days| - n
  {
    if n == |days| {
      assert days[..n] == days;
    } else {
      assert days[..n + 1][..n] == days[..n];
      RowBlocksFailureStays(row, days, n + 1);
    }
  }

  lemma {:induction false} PreprocessFailureStays(rows: seq<HoursRow>, n: nat)
    requires n <= |rows| && Preprocess(rows[..n]).Failure?
    ensures Preprocess(rows).Failure? && Preprocess(rows).error == Preprocess(rows[..n]).error
    decreases |rows| - n
  {
    if n == |rows| {
      assert rows[..n] == rows;
    } else {
      assert rows[..n + 1][..n] == rows[..n];
      PreprocessFailureStays(rows, n + 1);
    }
  }

  lemma RowBlocksStep(row: HoursRow, days: seq<string>, j: nat, before: seq<Block>, b: seq<Block>)
    requires j < |days| && RowBlocks(row, days[..j]) == Success(before) && DayBlocks(row, days[j]) == Success(b)
    ensures RowBlocks(row, days[..j + 1]) == Success(before + b)
  {
    assert days[..j + 1][..j] == days[..j];
  }

  /** A day that fails makes the whole row fail with its error. */
  lemma RowBlocksStepFails(row: HoursRow, days: seq<string>, j: nat, before: seq<Block>, e: FitError)
    requires j < |days| && RowBlocks(row, days[..j]) == Success(before) && DayBlocks(row, days[j]) == Failure(e)
    ensures RowBlocks(row, days) == Failure(e)
  {
    assert days[..j + 1][..j] == days[..j];
    RowBlocksFailureStays(row, days, j + 1);
  }

  /** The loop over the days of one row (lines 67-84). */
  method ProcessRow(row: HoursRow) returns (r: Result<seq<Block>, FitError>)
    ensures r == RowBlocks(row, DAYS)
  {
    var blocks: seq<Block> := [];
    for j := 0 to |DAYS|
      invariant RowBlocks(row, DAYS[..j]) == Success(blocks)
    {
      var day := DAYS[j];
      if day + "_open" !in row.columns || day + "_close" !in row.columns {
        RowBlocksStepFails(row, DAYS, j, blocks, KeyError);
        return Failure(KeyError);
      }
      var openCell, closeCell := row.columns[day + "_open"], row.columns[day + "_close"];
      var dayBlocks: seq<Block> := [];
      if openCell.Some? && closeCell.Some? {
        var openTime := ParseClock(openCell.value);
        var closeTime := ParseClock(closeCell.value);
        if openTime.None? || closeTime.None? {
          RowBlocksStepFails(row, DAYS, j, blocks, ValueError);
          return Failure(ValueError);
        }
        dayBlocks := GenerateBlocks(day, openTime.value, closeTime.value);
      }
      assert DayBlocks(row, day) == Success(dayBlocks);
      RowBlocksStep(row, DAYS, j, blocks, dayBlocks);
      blocks := blocks + dayBlocks;
    }
    assert DAYS[..|DAYS|] == DAYS;
    r := Success(blocks);
  }

  /** Every business row gets an entry, possibly empty, and the map holds no other key. */
  lemma {:induction false} PreprocessKeys(rows: seq<HoursRow>, id: string)
    requires Preprocess(rows).Success?
    ensures id in Preprocess(rows).value <==> exists i :: 0 <= i < |rows| && rows[i].businessId == id
  {
    if rows != [] {
      var prefix := rows[..|rows| - 1];
      PreprocessKeys(prefix, id);
      if exists i :: 0 <= i < |prefix| && prefix[i].businessId == id {
        var i :| 0 <= i < |prefix| && prefix[i].businessId == id;
        assert rows[i] == prefix[i];
      }
      if exists i :: 0 <= i < |rows| && rows[i].businessId == id {
        var i :| 0 <= i < |rows| && rows[i].businessId == id;
        if i < |rows| - 1 {
          assert rows[i] == prefix[i];
        }
      }
    }
  }

  /** A business's entry holds the blocks of the last row with its id. */
  lemma {:induction false} PreprocessEntry(rows: seq<HoursRow>, i: nat)
    requires Preprocess(rows).Success? && i < |rows|
    requires forall j :: i < j < |rows| ==> rows[j].businessId != rows[i].businessId
    ensures RowBlocks(rows[i], DAYS).Success?
    ensures rows[i].businessId in Preprocess(rows).value
    ensures Preprocess(rows).value[rows[i].businessId] == RowBlocks(rows[i], DAYS).value
  {
    var prefix := rows[..|rows| - 1];
    if i < |rows| - 1 {
      assert prefix[i] == rows[i];
      PreprocessEntry(prefix, i);
    }
  }

  /** The day's open and close cells are both present and parse to `o` and `c` minutes. */
  predicate OpenBetween(row: HoursRow, day: string, o: nat, c: nat)
  {
    && day + "_open" in row.columns && row.columns[day + "_open"].Some?
    && ParseClock(row.columns[day + "_open"].value) == Some(o)
    && day + "_close" in row.columns && row.columns[day + "_close"].Some?
    && ParseClock(row.columns[day + "_close"].value) == Some(c)
  }

  /** A block starting `n` whole hours after `o`, before `c`, and ending one hour after its start. */
  predicate HourAfter(b: Block, o: nat, c: nat, n: nat)
  {
    b.start == o + 60 * n && b.start < c && b.end == (b.start + 60) % MINUTES_PER_DAY
  }

  /** Block `k` of one day: both cells present, and `n` whole hours after the opening, before the close. */
  lemma DayBlockOrigin(row: HoursRow, day: string, k: nat) returns (o: nat, c: nat, n: nat)
    requires DayBlocks(row, day).Success? && k < |DayBlocks(row, day).value|
    ensures OpenBetween(row, day, o, c)
    ensures DayBlocks(row, day).value[k].day == day
    ensures HourAfter(DayBlocks(row, day).value[k], o, c, n)
  {
    o, c := ParseClock(row.columns[day + "_open"].value).value, ParseClock(row.columns[day + "_close"].value).value;
    n := k;
    BlocksFromShape(day, o, c, n);
  }

  /**
   * Block `k` of a row lies on a day whose open and close cells are both
   * present and parse, starts a whole number `n` of hours after the opening,
   * before the close, and ends one hour after it starts.
   */
  lemma {:induction false} RowBlockOrigin(row: HoursRow, days: seq<string>, k: nat) returns (d: nat, o: nat, c: nat, n: nat)
    requires RowBlocks(row, days).Success? && k < |RowBlocks(row, days).value|
    ensures d < |days| && RowBlocks(row, days).value[k].day == days[d]
    ensures OpenBetween(row, days[d], o, c)
    ensures HourAfter(RowBlocks(row, days).value[k], o, c, n)
  {
    var prefix := days[..|days| - 1];
    var before := RowBlocks(row, prefix).value;
    var here := DayBlocks(row, days[|days| - 1]).value;
    assert RowBlocks(row, days).value == before + here;
    if k < |before| {
      d, o, c, n := RowBlockOrigin(row, prefix, k);
      assert prefix[d] == days[d];
      assert RowBlocks(row, days).value[k] == before[k];
    } else {
      d := |days| - 1;
      o, c, n := DayBlockOrigin(row, days[d], k - |before|);
      assert RowBlocks(row, days).value[k] == here[k - |before|];
    }
  }

  /** A block of the processed hours: a time of day, ending one hour later, wrapped past midnight. */
  predicate BlockShaped(b: Block)
  {
    b.start < MINUTES_PER_DAY && b.end == (b.start + 60) % MINUTES_PER_DAY
  }

  /** Every block the preprocessing stores starts within the day and ends an hour later, wrapped. */
  lemma {:induction false} PreprocessBlockShape(rows: seq<HoursRow>, id: string, k: nat)
    requires Preprocess(rows).Success? && id in Preprocess(rows).value && k < |Preprocess(rows).value[id]|
    ensures BlockShaped(Preprocess(rows).value[id][k])
  {
    var prefix := rows[..|rows| - 1];
    var last := rows[|rows| - 1];
    if last.businessId == id {
      var d, o, c, n := RowBlockOrigin(last, DAYS, k);
      assert c < MINUTES_PER_DAY;
    } else {
      PreprocessBlockShape(prefix, id, k);
    }
  }

  /** One review: its author and the hour of day of its timestamp. */
  datatype Review = Review(userId: string, businessId: string, hour: nat)

  /** `user_reviews['date'].dt.hour` for the reviews of `userId`, in table order. */
  function UserHours(reviews: seq<Review>, userId: string): (hours: seq<int>)
    ensures forall h :: h in hours <==> exists i :: 0 <= i < |reviews| && reviews[i].userId == userId && reviews[i].hour == h
  {
    if reviews == [] then []
    else
      var rest := UserHours(reviews[1..], userId);
      assert forall i :: 1 <= i < |reviews| ==> reviews[i] == reviews[1..][i - 1];
      if reviews[0].userId == userId then [reviews[0].hour as int] + rest else rest
  }

  /** The inner loop of lines 107-109: some hour falls in `[startHour, endHour)`. */
  function AnyHourIn(startHour: int, endHour: int, hours: seq<int>): bool
  {
    hours != [] && ((startHour <= hours[0] < endHour) || AnyHourIn(startHour, endHour, hours[1..]))
  }

  /** The outer loop of lines 102-109: some block's hours contain some user hour. */
  function AnyBlockMatches(blocks: seq<Block>, hours: seq<int>): bool
  {
    blocks != [] && (AnyHourIn(blocks[0].start / 60, blocks[0].end / 60, hours) || AnyBlockMatches(blocks[1..], hours))
  }

  /** A block matches an hour by its start hour and end hour; its day is not looked at. */
  predicate BlockMatchesHour(b: Block, h: int)
  {
    b.start / 60 <= h < b.end / 60
  }

  /** The nested loops return True exactly when some block and some user hour match. */
  lemma {:induction false} AnyBlockMatchesMeaning(blocks: seq<Block>, hours: seq<int>)
    ensures AnyBlockMatches(blocks, hours) <==>
              exists k, j :: 0 <= k < |blocks| && 0 <= j < |hours| && BlockMatchesHour(blocks[k], hours[j])
  {
    if blocks != [] {
      AnyHourInMeaning(blocks[0].start / 60, blocks[0].end / 60, hours);
      AnyBlockMatchesMeaning(blocks[1..], hours);
      if exists k, j :: 0 <= k < |blocks| && 0 <= j < |hours| && BlockMatchesHour(blocks[k], hours[j]) {
        var k, j :| 0 <= k < |blocks| && 0 <= j < |hours| && BlockMatchesHour(blocks[k], hours[j]);
        if k > 0 {
          assert blocks[1..][k - 1] == blocks[k];
        }
      }
      if exists k, j :: 0 <= k < |blocks[1..]| && 0 <= j < |hours| && BlockMatchesHour(blocks[1..][k], hours[j]) {
        var k, j :| 0 <= k < |blocks[1..]| && 0 <= j < |hours| && BlockMatchesHour(blocks[1..][k], hours[j]);
        assert blocks[1..][k] == blocks[k + 1];
      }
    }
  }

  lemma {:induction false} AnyHourInMeaning(startHour: int, endHour: int, hours: seq<int>)
    ensures AnyHourIn(startHour, endHour, hours) <==> exists j :: 0 <= j < |hours| && startHour <= hours[j] < endHour
  {
    if hours != [] {
      AnyHourInMeaning(startHour, endHour, hours[1..]);
      if exists j :: 0 <= j < |hours| && startHour <= hours[j] < endHour {
        var j :| 0 <= j < |hours| && startHour <= hours[j] < endHour;
        if j > 0 {
          assert hours[1..][j - 1] == hours[j];
        }
      }
    }
  }

  /**
   * A generated block matches exactly the hour it starts in, except a block
   * starting at 23:xx, whose end wraps to hour 0 and which matches no hour.
   */
  lemma BlockMatchesItsHour(b: Block, h: int)
    requires BlockShaped(b)
    ensures BlockMatchesHour(b, h) <==> b.start < 1380 && h == b.start / 60
  {
    if b.start < 1380 {
      assert b.end == b.start + 60;
      assert b.end / 60 == b.start / 60 + 1;
    } else {
      assert b.end < 60;
    }
  }

  /**
   * The recommender after `fit`: the business-hours table, the reviews, the
   * processed blocks and the per-business weighted average rating.
   */
  class TimeBasedRecommender {
    var businessHours: seq<HoursRow>
    var reviews: seq<Review>
    var businessHoursProcessed: Option<map<string, seq<Block>>>
    var weightedAvg: Option<map<string, real>>

    constructor(businessHours: seq<HoursRow>, reviews: seq<Review>)
      ensures this.businessHours == businessHours && this.reviews == reviews
      ensures businessHoursProcessed.None? && weightedAvg.None?
    {
      this.businessHours := businessHours;
      this.reviews := reviews;
      businessHoursProcessed := None;
      weightedAvg := None;
    }

    /** `_preprocess_business_hours()`. */
    method PreprocessBusinessHours() returns (r: Result<map<string, seq<Block>>, FitError>)
      ensures r == Preprocess(businessHours)
    {
      var processedHours: map<string, seq<Block>> := map[];
      for i := 0 to |businessHours|
        invariant Preprocess(businessHours[..i]) == Success(processedHours)
      {
        assert businessHours[..i + 1][..i] == businessHours[..i];
        var row := businessHours[i];
        var blocks := ProcessRow(row);
        if blocks.Failure? {
          PreprocessFailureStays(businessHours, i + 1);
          return Failure(blocks.error);
        }
        processedHours := processedHours[row.businessId := blocks.value];
      }
      assert businessHours[..|businessHours|] == businessHours;
      r := Success(processedHours);
    }

    /**
     * `fit(trainset)`: the weighted averages are set first, then the hours are
     * processed; if processing raises, the processed hours are left as they were.
     */
    method Fit(avg: map<string, real>) returns (r: Result<(), FitError>)
      modifies this
      ensures businessHours == old(businessHours) && reviews == old(reviews)
      ensures weightedAvg == Some(avg)
      ensures r.Success? <==> Preprocess(businessHours).Success?
      ensures businessHoursProcessed ==
                if Preprocess(businessHours).Success? then Some(Preprocess(businessHours).value) else old(businessHoursProcessed)
    {
      weightedAvg := Some(avg);
      var processed := PreprocessBusinessHours();
      if processed.Failure? {
        return Failure(processed.error);
      }
      businessHoursProcessed := Some(processed.value);
      r := Success(());
    }

    /** The blocks recorded for a business, none for an unknown one. */
    function BlocksOf(businessId: string): seq<Block>
      reads this
      requires businessHoursProcessed.Some?
    {
      if businessId in businessHoursProcessed.value then businessHoursProcessed.value[businessId] else []
    }

    /** `_business_hours_match(user_id, business_id)`. */
    function BusinessHoursMatch(userId: string, businessId: string): (r: bool)
      reads this
      requires businessHoursProcessed.Some?
      ensures r ==> UserHours(reviews, userId) != [] && BlocksOf(businessId) != []
    {
      var userHours := UserHours(reviews, userId);
      if userHours == [] then false else AnyBlockMatches(BlocksOf(businessId), userHours)
    }

    /**
     * `estimate(u, i)`: the business's weighted average when the hours match
     * (0 when it has none), 0 otherwise; an unknown inner id (`None`) makes
     * `to_raw_uid`/`to_raw_iid` raise ValueError, which also gives 0.
     */
    function Estimate(u: Option<string>, i: Option<string>): (r: real)
      reads this
      requires businessHoursProcessed.Some? && weightedAvg.Some?
      ensures r != 0.0 ==> u.Some? && i.Some? && BusinessHoursMatch(u.value, i.value)
      ensures u.Some? && i.Some? && BusinessHoursMatch(u.value, i.value) && i.value in weightedAvg.value ==>
                r == weightedAvg.value[i.value]
      ensures u.Some? && i.Some? && BusinessHoursMatch(u.value, i.value) && i.value !in weightedAvg.value ==> r == 0.0
    {
      if u.None? || i.None? then 0.0
      else if BusinessHoursMatch(u.value, i.value) then
        if i.value in weightedAvg.value then weightedAvg.value[i.value] else 0.0
      else 0.0
    }

    /**
     * Once `Fit` has stored the processed hours, every block of every business
     * is shaped as `BusinessHoursMatchMeaning` needs.
     */
    lemma FittedBlocksShaped(businessId: string)
      requires Preprocess(businessHours).Success? && businessHoursProcessed == Some(Preprocess(businessHours).value)
      ensures forall b :: b in BlocksOf(businessId) ==> BlockShaped(b)
    {
      forall b | b in BlocksOf(businessId)
        ensures BlockShaped(b)
      {
        var k :| 0 <= k < |BlocksOf(businessId)| && BlocksOf(businessId)[k] == b;
        PreprocessBlockShape(businessHours, businessId, k);
      }
    }

    /**
     * The match holds exactly when the user has a review written at an hour
     * in which one of the business's blocks starts, that block not starting
     * in the last hour of the day.
     */
    lemma BusinessHoursMatchMeaning(userId: string, businessId: string)
      requires businessHoursProcessed.Some?
      requires forall b :: b in BlocksOf(businessId) ==> BlockShaped(b)
      ensures BusinessHoursMatch(userId, businessId) <==>
                exists k, j :: 0 <= k < |BlocksOf(businessId)| && 0 <= j < |reviews| && reviews[j].userId == userId &&
                  BlocksOf(businessId)[k].start < 1380 && reviews[j].hour == BlocksOf(businessId)[k].start / 60
    {
      var blocks, hours := BlocksOf(businessId), UserHours(reviews, userId);
      AnyBlockMatchesMeaning(blocks, hours);
      if BusinessHoursMatch(userId, businessId) {
        var k, j :| 0 <= k < |blocks| && 0 <= j < |hours| && BlockMatchesHour(blocks[k], hours[j]);
        BlockMatchesItsHour(blocks[k], hours[j]);
        assert hours[j] in hours;
        var i :| 0 <= i < |reviews| && reviews[i].userId == userId && reviews[i].hour == hours[j];
      }
      if exists k, j :: 0 <= k < |blocks| && 0 <= j < |reviews| && reviews[j].userId == userId &&
                        blocks[k].start < 1380 && reviews[j].hour == blocks[k].start / 60 {
        var k, j :| 0 <= k < |blocks| && 0 <= j < |reviews| && reviews[j].userId == userId &&
                    blocks[k].start < 1380 && reviews[j].hour == blocks[k].start / 60;
        var h: int := reviews[j].hour;
        assert h in hours;
        var jj :| 0 <= jj < |hours| && hours[jj] == h;
        BlockMatchesItsHour(blocks[k], h);
      }
    }
  }
}
