/**
 * `parse_categories`: the comma-separated `categories` strings of the
 * business table turned into a boolean membership table, one column per
 * category seen anywhere in the table.
 */
module Categories {
  import opened Wrappers
  import opened Text
  import opened YelpData

  /** One row of the result: the input row's index label, its id, and one cell per category. */
  datatype CategoryRow = CategoryRow(index: nat, businessId: string, cells: map<string, bool>)

  /**
   * The frame `parse_categories` returns: `NoColumns` is the bare
   * `pd.DataFrame()` returned when the requested business is absent; a `Table`
   * has a `business_id` column plus one column per category.
   */
  datatype CategoryFrame = NoColumns | Table(categories: set<string>, rows: seq<CategoryRow>)

  /** The stripped pieces `{cat.strip() for cat in parts}`. */
  function Stripped(parts: seq<string>): set<string>
  {
    if parts == [] then {} else Stripped(parts[..|parts| - 1]) + {Strip(parts[|parts| - 1])}
  }

  /** The categories a row names, `[cat.strip() for cat in categories.split(',')]`; none when null. */
  function RowTokens(b: Business): set<string>
  {
    match b.categories
    case None => {}
    case Some(c) => Stripped(Split(c, ','))
  }

  /** The category universe: every category named by some row. */
  function Universe(data: seq<Business>): set<string>
  {
    if data == [] then {} else Universe(data[..|data| - 1]) + RowTokens(data[|data| - 1])
  }

  /** The index labels of the rows among the first `n` that the `business_id` filter keeps, in order. */
  function Matching(data: seq<Business>, businessId: Option<string>, n: nat): (idx: seq<nat>)
    requires n <= |data|
    ensures forall k :: 0 <= k < |idx| ==> idx[k] < n
  {
    if n == 0 then []
    else if businessId.None? || data[n - 1].businessId == businessId.value then Matching(data, businessId, n - 1) + [n - 1]
    else Matching(data, businessId, n - 1)
  }

  /** The result row for input row `i`: a cell is True exactly for the categories the row names. */
  function RowFor(data: seq<Business>, i: nat, universe: set<string>): CategoryRow
    requires i < |data|
  {
    CategoryRow(i, data[i].businessId, map c | c in universe :: c in RowTokens(data[i]))
  }

  /** What `parse_categories(data, business_id)` returns. */
  function CategoryTable(data: seq<Business>, businessId: Option<string>): (r: CategoryFrame)
    ensures r.NoColumns? ==> businessId.Some?
    ensures r.Table? ==> r.categories == Universe(data)
  {
    var idx := Matching(data, businessId, |data|);
    if businessId.Some? && idx == [] then NoColumns
    else Table(Universe(data), seq(|idx|, k requires 0 <= k < |idx| => RowFor(data, idx[k], Universe(data))))
  }

  /** Every category a row names is in the universe of any table holding that row. */
  lemma {:induction false} UniverseHasRow(data: seq<Business>, i: nat)
    requires i < |data|
    ensures RowTokens(data[i]) <= Universe(data)
    decreases |data|
  {
    if i < |data| - 1 {
      var prefix := data[..|data| - 1];
      assert prefix[i] == data[i];
      UniverseHasRow(prefix, i);
    }
  }

  /** `all_categories.update(cat.strip() for cat in cats)` for one row's pieces. */
  method AddCategories(allCategories: set<string>, cats: seq<string>) returns (grown: set<string>)
    ensures grown == allCategories + Stripped(cats)
  {
    grown := allCategories;
    for j := 0 to |cats|
      invariant grown == allCategories + Stripped(cats[..j])
    {
      assert cats[..j + 1][..j] == cats[..j];
      grown := grown + {Strip(cats[j])};
    }
    assert cats[..|cats|] == cats;
  }

  /**
   * `populate_categories(row)` on a row whose cells `fillna(False)` has set:
   * each stripped category of the row is set True.
   */
  method PopulateRow(universe: set<string>, b: Business) returns (cells: map<string, bool>)
    requires RowTokens(b) <= universe
    ensures cells.Keys == universe
    ensures forall c :: c in cells ==> cells[c] == (c in RowTokens(b))
  {
    cells := map c | c in universe :: false;
    if b.categories.Some? {
      cells := MarkCategories(cells, Split(b.categories.value, ','));
    }
  }

  /** The loop of `populate_categories`: `row[cat.strip()] = True` for each piece. */
  method MarkCategories(cells0: map<string, bool>, cats: seq<string>) returns (cells: map<string, bool>)
    requires Stripped(cats) <= cells0.Keys
    ensures cells.Keys == cells0.Keys
    ensures forall c :: c in cells ==> cells[c] == (c in Stripped(cats) || cells0[c])
  {
    cells := cells0;
    for j := 0 to |cats|
      invariant cells.Keys == cells0.Keys
      invariant forall c :: c in cells ==> cells[c] == (c in Stripped(cats[..j]) || cells0[c])
    {
      assert cats[..j + 1][..j] == cats[..j];
      StrippedMeaning(cats, Strip(cats[j]));
      cells := cells[Strip(cats[j]) := true];
    }
    assert cats[..|cats|] == cats;
  }

  /** A category is among the stripped pieces exactly when some piece strips to it. */
  lemma {:induction false} StrippedMeaning(parts: seq<string>, t: string)
    ensures t in Stripped(parts) <==> exists i :: 0 <= i < |parts| && Strip(parts[i]) == t
  {
    if parts != [] {
      var prefix := parts[..|parts| - 1];
      StrippedMeaning(prefix, t);
      if t in Stripped(prefix) {
        var i :| 0 <= i < |prefix| && Strip(prefix[i]) == t;
        assert parts[i] == prefix[i];
      }
      if exists i :: 0 <= i < |parts| && Strip(parts[i]) == t {
        var i :| 0 <= i < |parts| && Strip(parts[i]) == t;
        if i < |parts| - 1 {
          assert parts[i] == prefix[i];
        }
      }
    }
  }

  /** Line 30: the category universe, grown row by row. */
  method CollectCategories(data: seq<Business>) returns (allCategories: set<string>)
    ensures allCategories == Universe(data)
  {
    allCategories := {};
    for i := 0 to |data|
      invariant allCategories == Universe(data[..i])
    {
      assert data[..i + 1][..i] == data[..i];
      if data[i].categories.Some? {
        allCategories := AddCategories(allCategories, Split(data[i].categories.value, ','));
      }
    }
    assert data[..|data|] == data;
  }

  /** Line 34: the index labels the `business_id` filter keeps, in order. */
  method SelectRows(data: seq<Business>, businessId: Option<string>) returns (selected: seq<nat>)
    ensures selected == Matching(data, businessId, |data|)
  {
    selected := [];
    for i := 0 to |data|
      invariant selected == Matching(data, businessId, i)
    {
      if businessId.None? || data[i].businessId == businessId.value {
        selected := selected + [i];
      }
    }
  }

  /** Lines 42-55: one result row per kept input row, cells filled by `populate_categories`. */
  method PopulateRows(data: seq<Business>, selected: seq<nat>, allCategories: set<string>) returns (rows: seq<CategoryRow>)
    requires allCategories == Universe(data)
    requires forall k :: 0 <= k < |selected| ==> selected[k] < |data|
    ensures |rows| == |selected|
    ensures forall m :: 0 <= m < |selected| ==> rows[m] == RowFor(data, selected[m], allCategories)
  {
    rows := [];
    for k := 0 to |selected|
      invariant |rows| == k
      invariant forall m :: 0 <= m < k ==> rows[m] == RowFor(data, selected[m], allCategories)
    {
      var i := selected[k];
      UniverseHasRow(data, i);
      var cells := PopulateRow(allCategories, data[i]);
      assert cells == RowFor(data, i, allCategories).cells;
      rows := rows + [CategoryRow(i, data[i].businessId, cells)];
    }
  }

  /** `parse_categories(data, business_id)`. */
  method ParseCategories(data: seq<Business>, businessId: Option<string>) returns (result: CategoryFrame)
    ensures result == CategoryTable(data, businessId)
  {
    var allCategories := CollectCategories(data);
    var selected := SelectRows(data, businessId);
    if businessId.Some? && selected == [] {
      return NoColumns;
    }
    var rows := PopulateRows(data, selected, allCategories);
    result := Table(allCategories, rows);
    assert rows == seq(|selected|, k requires 0 <= k < |selected| => RowFor(data, selected[k], Universe(data)));
  }

  /** A category is in the universe exactly when some row, of the whole input, names it. */
  lemma UniverseMeaning(data: seq<Business>, c: string)
    ensures c in Universe(data) <==> exists i :: 0 <= i < |data| && c in RowTokens(data[i])
  {
    if c in Universe(data) {
      var i := UniverseWitness(data, c);
    }
    if exists i :: 0 <= i < |data| && c in RowTokens(data[i]) {
      var i :| 0 <= i < |data| && c in RowTokens(data[i]);
      UniverseHasRow(data, i);
    }
  }

  /** A row that names a category of the universe. */
  lemma {:induction false} UniverseWitness(data: seq<Business>, c: string) returns (i: nat)
    requires c in Universe(data)
    ensures i < |data| && c in RowTokens(data[i])
  {
    var prefix := data[..|data| - 1];
    if c in RowTokens(data[|data| - 1]) {
      i := |data| - 1;
    } else {
      i := UniverseWitness(prefix, c);
      assert prefix[i] == data[i];
    }
  }

  /** The filter keeps exactly the rows of the requested business (all rows without one), in input order. */
  lemma {:induction false} MatchingMeaning(data: seq<Business>, businessId: Option<string>, n: nat)
    requires n <= |data|
    ensures forall i :: i in Matching(data, businessId, n) <==>
              0 <= i < n && (businessId.None? || data[i].businessId == businessId.value)
    ensures forall a, b :: 0 <= a < b < |Matching(data, businessId, n)| ==>
              Matching(data, businessId, n)[a] < Matching(data, businessId, n)[b]
  {
    if n > 0 {
      MatchingMeaning(data, businessId, n - 1);
    }
  }

  /**
   * The bare frame comes back exactly when a business was requested and no
   * row has its id; otherwise the columns are every category of the whole
   * input, before the filter, and there is one row per kept input row.
   */
  lemma CategoryTableShape(data: seq<Business>, businessId: Option<string>)
    ensures CategoryTable(data, businessId).NoColumns? <==>
              businessId.Some? && forall i :: 0 <= i < |data| ==> data[i].businessId != businessId.value
    ensures CategoryTable(data, businessId).Table? ==>
              && CategoryTable(data, businessId).categories == Universe(data)
              && |CategoryTable(data, businessId).rows| == |Matching(data, businessId, |data|)|
  {
    MatchingMeaning(data, businessId, |data|);
    var idx := Matching(data, businessId, |data|);
    if businessId.Some? && idx != [] {
      assert idx[0] in idx;
    }
  }

  /**
   * Row `k` of the table: it carries the index label and id of a kept input
   * row (of the requested business, if one was asked for), one cell per
   * category, and a cell is True exactly when a comma-separated piece of the
   * row's categories strips to that category.
   */
  lemma CategoryRowMeaning(data: seq<Business>, businessId: Option<string>, k: nat, c: string)
    requires CategoryTable(data, businessId).Table? && k < |CategoryTable(data, businessId).rows|
    ensures var row := CategoryTable(data, businessId).rows[k];
      && row.index < |data|
      && row.businessId == data[row.index].businessId
      && (businessId.Some? ==> row.businessId == businessId.value)
      && row.cells.Keys == Universe(data)
      && (c in row.cells ==>
            (row.cells[c] <==>
               && data[row.index].categories.Some?
               && exists j :: 0 <= j < |Split(data[row.index].categories.value, ',')| &&
                    Strip(Split(data[row.index].categories.value, ',')[j]) == c))
  {
    var i := TableRow(data, businessId, k);
    var b := data[i];
    var row := RowFor(data, i, Universe(data));
    assert c in row.cells ==> row.cells[c] == (c in RowTokens(b));
    if b.categories.Some? {
      assert RowTokens(b) == Stripped(Split(b.categories.value, ','));
      StrippedMeaning(Split(b.categories.value, ','), c);
    }
  }

  /** Row `k` of the table is the row built for some kept input row. */
  lemma TableRow(data: seq<Business>, businessId: Option<string>, k: nat) returns (i: nat)
    requires CategoryTable(data, businessId).Table? && k < |CategoryTable(data, businessId).rows|
    ensures i < |data| && (businessId.Some? ==> data[i].businessId == businessId.value)
    ensures CategoryTable(data, businessId).rows[k] == RowFor(data, i, Universe(data))
  {
    var idx := Matching(data, businessId, |data|);
    MatchingMeaning(data, businessId, |data|);
    assert idx[k] in idx;
    i := idx[k];
  }

  /** A row whose categories are null gets False in every category column. */
  lemma NullCategoriesAllFalse(data: seq<Business>, businessId: Option<string>, k: nat)
    requires CategoryTable(data, businessId).Table? && k < |CategoryTable(data, businessId).rows|
    requires data[CategoryTable(data, businessId).rows[k].index].categories.None?
    ensures forall c :: c in CategoryTable(data, businessId).rows[k].cells ==> !CategoryTable(data, businessId).rows[k].cells[c]
  {
  }

  /** Rows come out in input order, each input row at most once. */
  lemma CategoryRowsInOrder(data: seq<Business>, businessId: Option<string>, k1: nat, k2: nat)
    requires CategoryTable(data, businessId).Table?
    requires k1 < k2 < |CategoryTable(data, businessId).rows|
    ensures CategoryTable(data, businessId).rows[k1].index < CategoryTable(data, businessId).rows[k2].index
  {
    MatchingMeaning(data, businessId, |data|);
  }

  /** Without a requested business, every input row is kept, in place. */
  lemma AllRowsKept(data: seq<Business>, k: nat)
    requires k < |data|
    ensures CategoryTable(data, None).Table?
    ensures |CategoryTable(data, None).rows| == |data| && CategoryTable(data, None).rows[k].index == k
  {
    AllMatch(data, |data|);
  }

  lemma {:induction false} AllMatch(data: seq<Business>, n: nat)
    requires n <= |data|
    ensures Matching(data, None, n) == seq(n, i => i)
  {
    if n > 0 {
      AllMatch(data, n - 1);
    }
  }
}
