/**
 * `recommend_businesses`: the businesses of the hours table that the user has
 * not rated, kept when open at the current time, best estimated rating first,
 * cut to the requested number and turned into names.
 */
module TimeBased {
  import opened Wrappers
  import opened HoursIngest
  import opened BlockedTime

  /** One row of the global ratings table the function reads: who rated which business. */
  datatype Rating = Rating(userId: string, businessId: string)

  /** `strptime` raising on an opening time, or a missing column for today. */
  datatype RecError = MissingColumn | BadTime

  /** One row after the merge: a candidate id, its estimate, and today's open and close cells. */
  datatype MergedRow = MergedRow(businessId: string, estimated: real, openCell: Option<string>, closeCell: Option<string>)

  /** One row after the time conversion, in minutes. */
  datatype Candidate = Candidate(businessId: string, estimated: real, openMinutes: int, closeMinutes: int)

  /** `(hour * 60 + minute) // 30`: the current half-hour slot of the day. */
  function Slot(hour: nat, minute: nat): (s: nat)
    requires hour < 24 && minute < 60
    ensures s < 48
    ensures 30 * s <= hour * 60 + minute < 30 * s + 30
  {
    (hour * 60 + minute) / 30
  }

  /** The businesses `userId` has rated. */
  function Rated(ratings: seq<Rating>, userId: string): (r: set<string>)
    ensures forall b :: b in r <==> exists i :: 0 <= i < |ratings| && ratings[i].userId == userId && ratings[i].businessId == b
  {
    if ratings == [] then {}
    else
      var rest := Rated(ratings[..|ratings| - 1], userId);
      assert forall i :: 0 <= i < |ratings| - 1 ==> ratings[..|ratings| - 1][i] == ratings[i];
      var last := ratings[|ratings| - 1];
      if last.userId == userId then rest + {last.businessId} else rest
  }

  /** `.unique()`: each id once, in order of first appearance. */
  function Unique(xs: seq<string>): (u: seq<string>)
    ensures forall x :: x in u <==> x in xs
    ensures forall i, j :: 0 <= i < j < |u| ==> u[i] != u[j]
  {
    if xs == [] then []
    else
      var u := Unique(xs[..|xs| - 1]);
      assert forall x :: x in xs <==> x in xs[..|xs| - 1] || x == xs[|xs| - 1];
      if xs[|xs| - 1] in u then u else u + [xs[|xs| - 1]]
  }

  /** The ids of the hours rows whose business is not in `rated`, in table order. */
  function UnratedIds(hours: seq<HoursRow>, rated: set<string>): (ids: seq<string>)
    ensures forall x :: x in ids <==> x !in rated && exists i :: 0 <= i < |hours| && hours[i].businessId == x
  {
    if hours == [] then []
    else
      var rest := UnratedIds(hours[..|hours| - 1], rated);
      assert forall i :: 0 <= i < |hours| - 1 ==> hours[..|hours| - 1][i] == hours[i];
      var last := hours[|hours| - 1];
      if last.businessId !in rated then rest + [last.businessId] else rest
  }

  /** A cell of a row, null when the row lacks the column. */
  function Cell(row: HoursRow, key: string): Option<string>
  {
    if key in row.columns then row.columns[key] else None
  }

  /** `m` carries the business and today's two cells of hours row `h`. */
  predicate FromRow(m: MergedRow, h: HoursRow, day: string)
  {
    h.businessId == m.businessId && m.openCell == Cell(h, day + "_open") && m.closeCell == Cell(h, day + "_close")
  }

  /** The hours rows of one id joined with its estimate. */
  function RowsOf(id: string, estimated: real, hours: seq<HoursRow>, day: string): (r: seq<MergedRow>)
    ensures forall k :: 0 <= k < |r| ==> r[k].businessId == id && r[k].estimated == estimated
    ensures |r| <= |hours|
    ensures forall i :: 0 <= i < |hours| && hours[i].businessId == id ==>
      MergedRow(id, estimated, Cell(hours[i], day + "_open"), Cell(hours[i], day + "_close")) in r
  {
    if hours == [] then []
    else
      var rest := RowsOf(id, estimated, hours[1..], day);
      assert forall i :: 1 <= i < |hours| ==> hours[i] == hours[1..][i - 1];
      if hours[0].businessId == id then
        [MergedRow(id, estimated, Cell(hours[0], day + "_open"), Cell(hours[0], day + "_close"))] + rest
      else rest
  }

  /** `unrated_df.merge(hours[[id, open, close]], on='business_id')`: left order, then table order. */
  function MergeRows(ids: seq<string>, userId: string, predict: (string, string) -> real,
                     hours: seq<HoursRow>, day: string): (r: seq<MergedRow>)
    ensures forall k :: 0 <= k < |r| ==> r[k].businessId in ids && r[k].estimated == predict(userId, r[k].businessId)
    ensures forall id, i :: id in ids && 0 <= i < |hours| && hours[i].businessId == id ==>
      MergedRow(id, predict(userId, id), Cell(hours[i], day + "_open"), Cell(hours[i], day + "_close")) in r
  {
    if ids == [] then []
    else
      var id := ids[|ids| - 1];
      var before := MergeRows(ids[..|ids| - 1], userId, predict, hours, day);
      var here := RowsOf(id, predict(userId, id), hours, day);
      assert forall k :: |before| <= k < |before + here| ==> (before + here)[k] == here[k - |before|];
      before + here
  }

  /** Each joined row of one id carries the cells of one of that id's hours rows. */
  lemma {:induction false} RowsOfFrom(id: string, estimated: real, hours: seq<HoursRow>, day: string, k: nat) returns (i: nat)
    requires k < |RowsOf(id, estimated, hours, day)|
    ensures i < |hours| && FromRow(RowsOf(id, estimated, hours, day)[k], hours[i], day)
  {
    if hours[0].businessId == id && k == 0 {
      i := 0;
    } else {
      var j := RowsOfFrom(id, estimated, hours[1..], day, if hours[0].businessId == id then k - 1 else k);
      i := j + 1;
    }
  }

  /** Each merged row carries the business and today's cells of one hours row. */
  lemma {:induction false} MergeRowsFrom(ids: seq<string>, userId: string, predict: (string, string) -> real,
                                         hours: seq<HoursRow>, day: string, k: nat) returns (i: nat)
    requires k < |MergeRows(ids, userId, predict, hours, day)|
    ensures i < |hours| && FromRow(MergeRows(ids, userId, predict, hours, day)[k], hours[i], day)
  {
    var id := ids[|ids| - 1];
    var before := MergeRows(ids[..|ids| - 1], userId, predict, hours, day);
    var here := RowsOf(id, predict(userId, id), hours, day);
    if k < |before| {
      i := MergeRowsFrom(ids[..|ids| - 1], userId, predict, hours, day, k);
      assert (before + here)[k] == before[k];
    } else {
      i := RowsOfFrom(id, predict(userId, id), hours, day, k - |before|);
      assert (before + here)[k] == here[k - |before|];
    }
  }

  /** The open column's conversion: the time in minutes, or -1 when null. */
  function OpenMinutes(cell: Option<string>): (r: Result<int, RecError>)
    ensures r.Success? ==> -1 <= r.value < MINUTES_PER_DAY
    ensures cell.None? ==> r == Success(-1)
    ensures cell.Some? ==> (r.Success? <==> ParseClock(cell.value).Some?)
    ensures cell.Some? && r.Success? ==> r.value == ParseClock(cell.value).value
  {
    match cell
    case None => Success(-1 as int)
    case Some(s) => if ParseClock(s).Some? then Success(ParseClock(s).value) else Failure(BadTime)
  }

  /** The close column's conversion: the time in minutes, or 1440 when null. */
  function CloseMinutes(cell: Option<string>): (r: Result<int, RecError>)
    ensures r.Success? ==> 0 <= r.value <= MINUTES_PER_DAY
    ensures cell.None? ==> r == Success(MINUTES_PER_DAY as int)
    ensures cell.Some? ==> (r.Success? <==> ParseClock(cell.value).Some?)
    ensures cell.Some? && r.Success? ==> r.value == ParseClock(cell.value).value
  {
    match cell
    case None => Success(MINUTES_PER_DAY)
    case Some(s) => if ParseClock(s).Some? then Success(ParseClock(s).value) else Failure(BadTime)
  }

  /** `c` is `row` with both times converted to minutes. */
  predicate Converted(row: MergedRow, c: Candidate)
  {
    && c.businessId == row.businessId && c.estimated == row.estimated
    && OpenMinutes(row.openCell) == Success(c.openMinutes)
    && CloseMinutes(row.closeCell) == Success(c.closeMinutes)
  }

  /** A row one of whose times does not convert. */
  predicate Rejected(row: MergedRow)
  {
    OpenMinutes(row.openCell).Failure? || CloseMinutes(row.closeCell).Failure?
  }

  /** Both conversions over the merged rows; any unparsable time raises. */
  function Convert(rows: seq<MergedRow>): (r: Result<seq<Candidate>, RecError>)
    ensures r.Success? ==> |r.value| == |rows| && forall k :: 0 <= k < |rows| ==> Converted(rows[k], r.value[k])
    ensures r.Failure? <==> exists k :: 0 <= k < |rows| && Rejected(rows[k])
  {
    if rows == [] then Success([])
    else
      match (OpenMinutes(rows[0].openCell), CloseMinutes(rows[0].closeCell), Convert(rows[1..]))
      case (Success(o), Success(c), Success(rest)) =>
        assert forall k :: 1 <= k < |rows| ==> rows[k] == rows[1..][k - 1];
        Success([Candidate(rows[0].businessId, rows[0].estimated, o, c)] + rest)
      case _ => Failure(BadTime)
  }

  /** Whether a candidate is kept: opened at or before the slot number and closing after it. */
  predicate OpenAt(c: Candidate, slot: int)
  {
    c.openMinutes <= slot && c.closeMinutes > slot
  }

  /** The boolean-mask filter of lines 81-84, order kept. */
  function OpenNow(cands: seq<Candidate>, slot: int): (r: seq<Candidate>)
    ensures forall k :: 0 <= k < |r| ==> OpenAt(r[k], slot)
    ensures multiset(r) <= multiset(cands)
    ensures forall c :: c in cands && OpenAt(c, slot) ==> c in r
    ensures forall c :: multiset(r)[c] == if OpenAt(c, slot) then multiset(cands)[c] else 0
  {
    if cands == [] then []
    else
      var rest := OpenNow(cands[1..], slot);
      assert cands == [cands[0]] + cands[1..];
      if OpenAt(cands[0], slot) then [cands[0]] + rest else rest
  }

  /** Descending by estimated rating. */
  predicate SortedDesc(s: seq<Candidate>)
  {
    forall i, j :: 0 <= i < j < |s| ==> s[i].estimated >= s[j].estimated
  }

  /** Places `c` after every candidate rated at least as high. */
  function InsertDesc(c: Candidate, s: seq<Candidate>): (r: seq<Candidate>)
    ensures multiset(r) == multiset(s) + multiset{c}
    ensures r != [] && (r[0] == c || (s != [] && r[0] == s[0]))
  {
    if s == [] then [c]
    else if s[0].estimated >= c.estimated then
      assert s == [s[0]] + s[1..];
      [s[0]] + InsertDesc(c, s[1..])
    else [c] + s
  }

  /** Inserting into a list sorted best first keeps it sorted best first. */
  lemma {:induction false} InsertDescSorted(c: Candidate, s: seq<Candidate>)
    requires SortedDesc(s)
    ensures SortedDesc(InsertDesc(c, s))
  {
    if s != [] && s[0].estimated >= c.estimated {
      var rest := InsertDesc(c, s[1..]);
      assert SortedDesc(s[1..]) by {
        forall i, j | 0 <= i < j < |s[1..]|
          ensures s[1..][i].estimated >= s[1..][j].estimated
        {
          assert s[1..][i] == s[i + 1] && s[1..][j] == s[j + 1];
        }
      }
      InsertDescSorted(c, s[1..]);
      assert s[0].estimated >= rest[0].estimated by {
        if rest[0] != c {
          assert rest[0] == s[1];
        }
      }
      var r := [s[0]] + rest;
      forall i, j | 0 <= i < j < |r|
        ensures r[i].estimated >= r[j].estimated
      {
        assert r[j] == rest[j - 1];
        if i > 0 {
          assert r[i] == rest[i - 1];
        }
      }
    }
  }

  /** `sort_values(by='estimated_rating', ascending=False)`: ordered, and a permutation of its input. */
  function SortDesc(s: seq<Candidate>): (r: seq<Candidate>)
    ensures SortedDesc(r)
    ensures multiset(r) == multiset(s)
  {
    if s == [] then []
    else
      assert s == s[..|s| - 1] + [s[|s| - 1]];
      InsertDescSorted(s[|s| - 1], SortDesc(s[..|s| - 1]));
      InsertDesc(s[|s| - 1], SortDesc(s[..|s| - 1]))
  }

  /** `.head(n)`. */
  function Head(s: seq<Candidate>, n: nat): (r: seq<Candidate>)
    ensures |r| == if n < |s| then n else |s|
    ensures r == s[..|r|]
  {
    if n < |s| then s[..n] else s
  }

  /** `business_dict.get(id, {}).get('name', f'Unknown Business {id}')`. */
  function NameOf(businessDict: map<string, map<string, string>>, id: string): string
  {
    if id in businessDict && "name" in businessDict[id] then businessDict[id]["name"] else "Unknown Business " + id
  }

  function Names(businessDict: map<string, map<string, string>>, s: seq<Candidate>): (r: seq<string>)
    ensures |r| == |s|
    ensures forall k :: 0 <= k < |s| ==> r[k] == NameOf(businessDict, s[k].businessId)
  {
    if s == [] then [] else [NameOf(businessDict, s[0].businessId)] + Names(businessDict, s[1..])
  }

  /** Whether every hours row has today's two columns (the frame's column selection raises otherwise). */
  predicate HasColumns(hours: seq<HoursRow>, day: string)
  {
    forall i :: 0 <= i < |hours| ==> day + "_open" in hours[i].columns && day + "_close" in hours[i].columns
  }

  /** The rows that remain after the open-now filter, before sorting. */
  function OpenCandidates(userId: string, hours: seq<HoursRow>, ratings: seq<Rating>, predict: (string, string) -> real,
                          dayIndex: nat, hour: nat, minute: nat): (r: Result<seq<Candidate>, RecError>)
    requires dayIndex < |DAYS| && hour < 24 && minute < 60
    ensures r == Failure(MissingColumn) <==> !HasColumns(hours, DAYS[dayIndex])
    ensures r.Success? ==> forall k :: 0 <= k < |r.value| ==> OpenAt(r.value[k], Slot(hour, minute))
  {
    var day := DAYS[dayIndex];
    if !HasColumns(hours, day) then Failure(MissingColumn)
    else
      var ids := Unique(UnratedIds(hours, Rated(ratings, userId)));
      match Convert(MergeRows(ids, userId, predict, hours, day))
      case Failure(e) => Failure(e)
      case Success(cands) => Success(OpenNow(cands, Slot(hour, minute)))
  }

  /**
   * `recommend_businesses(user_id, business_hours_data, algo, business_dict,
   * num_recommendations)`, with the ratings table, the model's estimate and
   * the current day, hour and minute as parameters.
   */
  function RecommendBusinesses(userId: string, hours: seq<HoursRow>, ratings: seq<Rating>, predict: (string, string) -> real,
                               businessDict: map<string, map<string, string>>, numRecommendations: nat,
                               dayIndex: nat, hour: nat, minute: nat): (r: Result<seq<string>, RecError>)
    requires dayIndex < |DAYS| && hour < 24 && minute < 60
    ensures r.Failure? <==> OpenCandidates(userId, hours, ratings, predict, dayIndex, hour, minute).Failure?
    ensures r.Success? ==> |r.value| <= numRecommendations
  {
    match OpenCandidates(userId, hours, ratings, predict, dayIndex, hour, minute)
    case Failure(e) => Failure(e)
    case Success(open) => Success(Names(businessDict, Head(SortDesc(open), numRecommendations)))
  }

  /**
   * Every candidate kept by the filter is a business of the hours table that
   * the user has not rated, carrying the model's estimate for it, open at the
   * current slot number; and each such business with a row whose times
   * convert and pass the filter is kept.
   */
  lemma OpenCandidatesMeaning(userId: string, hours: seq<HoursRow>, ratings: seq<Rating>, predict: (string, string) -> real,
                              dayIndex: nat, hour: nat, minute: nat, k: nat)
    requires dayIndex < |DAYS| && hour < 24 && minute < 60
    requires OpenCandidates(userId, hours, ratings, predict, dayIndex, hour, minute).Success?
    requires k < |OpenCandidates(userId, hours, ratings, predict, dayIndex, hour, minute).value|
    ensures var c := OpenCandidates(userId, hours, ratings, predict, dayIndex, hour, minute).value[k];
      && c.businessId !in Rated(ratings, userId)
      && (exists i :: 0 <= i < |hours| && hours[i].businessId == c.businessId)
      && c.estimated == predict(userId, c.businessId)
      && OpenAt(c, Slot(hour, minute))
      && exists i :: 0 <= i < |hours| && hours[i].businessId == c.businessId
           && OpenMinutes(Cell(hours[i], DAYS[dayIndex] + "_open")) == Success(c.openMinutes)
           && CloseMinutes(Cell(hours[i], DAYS[dayIndex] + "_close")) == Success(c.closeMinutes)
  {
    var day := DAYS[dayIndex];
    var ids := Unique(UnratedIds(hours, Rated(ratings, userId)));
    var rows := MergeRows(ids, userId, predict, hours, day);
    var cands := Convert(rows).value;
    var open := OpenNow(cands, Slot(hour, minute));
    var c := open[k];
    assert c in multiset(open);
    assert c in cands;
    var j :| 0 <= j < |cands| && cands[j] == c;
    assert rows[j].businessId in ids;
    assert Converted(rows[j], c);
    var i := MergeRowsFrom(ids, userId, predict, hours, day, j);
  }

  /**
   * Conversely, every row of the hours table whose business the user has not
   * rated, whose times convert and which is open at the current slot number
   * yields a kept candidate.
   */
  lemma OpenCandidatesComplete(userId: string, hours: seq<HoursRow>, ratings: seq<Rating>, predict: (string, string) -> real,
                               dayIndex: nat, hour: nat, minute: nat, i: nat, o: int, c: int)
    requires dayIndex < |DAYS| && hour < 24 && minute < 60
    requires OpenCandidates(userId, hours, ratings, predict, dayIndex, hour, minute).Success?
    requires i < |hours| && hours[i].businessId !in Rated(ratings, userId)
    requires OpenMinutes(Cell(hours[i], DAYS[dayIndex] + "_open")) == Success(o)
    requires CloseMinutes(Cell(hours[i], DAYS[dayIndex] + "_close")) == Success(c)
    requires o <= Slot(hour, minute) < c
    ensures Candidate(hours[i].businessId, predict(userId, hours[i].businessId), o, c)
      in OpenCandidates(userId, hours, ratings, predict, dayIndex, hour, minute).value
  {
    var day := DAYS[dayIndex];
    var id := hours[i].businessId;
    var ids := Unique(UnratedIds(hours, Rated(ratings, userId)));
    assert id in ids;
    var rows := MergeRows(ids, userId, predict, hours, day);
    var row := MergedRow(id, predict(userId, id), Cell(hours[i], day + "_open"), Cell(hours[i], day + "_close"));
    assert row in rows;
    var j :| 0 <= j < |rows| && rows[j] == row;
    var cands := Convert(rows).value;
    assert cands[j] == Candidate(id, predict(userId, id), o, c);
    assert cands[j] in cands;
  }

  /** The names of the best `n` candidates: how many there are, and which. */
  lemma TopNames(businessDict: map<string, map<string, string>>, open: seq<Candidate>, n: nat)
    ensures var names := Names(businessDict, Head(SortDesc(open), n));
      var best := SortDesc(open);
      && |names| == (if n < |open| then n else |open|)
      && (forall k :: 0 <= k < |names| ==> names[k] == NameOf(businessDict, best[k].businessId))
      && (forall k, m :: 0 <= k < |names| <= m < |best| ==> best[k].estimated >= best[m].estimated)
  {
    var best := SortDesc(open);
    assert |best| == |open| by {
      assert |multiset(best)| == |multiset(open)|;
    }
    var top := Head(best, n);
    assert forall k :: 0 <= k < |top| ==> top[k] == best[k];
  }

  /**
   * The result has at most `num_recommendations` names; they are the names of
   * the first entries of the open candidates sorted best first, so every open
   * candidate left out is rated no higher than any one returned.
   */
  lemma RecommendTopN(userId: string, hours: seq<HoursRow>, ratings: seq<Rating>, predict: (string, string) -> real,
                      businessDict: map<string, map<string, string>>, numRecommendations: nat,
                      dayIndex: nat, hour: nat, minute: nat, open: seq<Candidate>)
    requires dayIndex < |DAYS| && hour < 24 && minute < 60
    requires OpenCandidates(userId, hours, ratings, predict, dayIndex, hour, minute) == Success(open)
    ensures RecommendBusinesses(userId, hours, ratings, predict, businessDict, numRecommendations, dayIndex, hour, minute)
      == Success(Names(businessDict, Head(SortDesc(open), numRecommendations)))
    ensures var names := Names(businessDict, Head(SortDesc(open), numRecommendations));
      var best := SortDesc(open);
      && |names| == (if numRecommendations < |open| then numRecommendations else |open|)
      && multiset(best) == multiset(open)
      && (forall k :: 0 <= k < |names| ==> names[k] == NameOf(businessDict, best[k].businessId))
      && (forall k, m :: 0 <= k < |names| <= m < |best| ==> best[k].estimated >= best[m].estimated)
  {
    TopNames(businessDict, open, numRecommendations);
  }
}
