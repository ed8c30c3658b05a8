/** The rows of the Yelp business table, as the field normalisers read them. */
module YelpData {
  import opened Wrappers

  /**
   * One business row: its id, the `hours` dict (day name to an `"H:M-H:M"`
   * string), the comma-separated `categories` string and the `attributes` dict
   * (attribute name to its string encoding); each column may be null.
   */
  datatype Business = Business(
    businessId: string,
    hours: Option<map<string, string>>,
    categories: Option<string>,
    attributes: Option<map<string, Option<string>>>)

  /** `df[df['business_id'] == id]`: the rows with that id, in order. */
  function RowsWithId(rows: seq<Business>, id: string): (r: seq<Business>)
    ensures |r| <= |rows|
    ensures forall i :: 0 <= i < |r| ==> r[i] in rows && r[i].businessId == id
    ensures forall x :: x in rows && x.businessId == id ==> x in r
  {
    if rows == [] then []
    else if rows[0].businessId == id then [rows[0]] + RowsWithId(rows[1..], id)
    else RowsWithId(rows[1..], id)
  }

  /** Every position moved one place on. */
  function Shift(xs: seq<nat>): (ys: seq<nat>)
    ensures |ys| == |xs| && forall k :: 0 <= k < |xs| ==> ys[k] == xs[k] + 1
  {
    if xs == [] then [] else [xs[0] + 1] + Shift(xs[1..])
  }

  /**
   * `idx` lists, in increasing order, the positions in `rows` of the rows of
   * `r`, and every row of `rows` with the id is listed.
   */
  predicate InOrderIndexes(rows: seq<Business>, id: string, r: seq<Business>, idx: seq<nat>)
  {
    && |idx| == |r|
    && (forall k :: 0 <= k < |idx| ==> idx[k] < |rows| && r[k] == rows[idx[k]])
    && (forall k, m :: 0 <= k < m < |idx| ==> idx[k] < idx[m])
    && (forall i :: 0 <= i < |rows| && rows[i].businessId == id ==> i in idx)
  }

  /**
   * `shifted` lists, in increasing order, positions after the first in `rows`
   * of the rows of `tail`, and every later row with the id is listed.
   */
  predicate PlacedAfterFirst(rows: seq<Business>, id: string, tail: seq<Business>, shifted: seq<nat>)
  {
    && |shifted| == |tail|
    && (forall k :: 0 <= k < |shifted| ==> 0 < shifted[k] < |rows| && tail[k] == rows[shifted[k]])
    && (forall k, m :: 0 <= k < m < |shifted| ==> shifted[k] < shifted[m])
    && (forall i :: 1 <= i < |rows| && rows[i].businessId == id ==> i in shifted)
  }

  /** Positions in the tail, moved one place on, are positions in the whole table. */
  lemma ShiftIndexes(rows: seq<Business>, id: string, tail: seq<Business>, rest: seq<nat>)
    requires rows != [] && InOrderIndexes(rows[1..], id, tail, rest)
    ensures PlacedAfterFirst(rows, id, tail, Shift(rest))
  {
    var shifted := Shift(rest);
    forall k | 0 <= k < |shifted|
      ensures 0 < shifted[k] < |rows| && tail[k] == rows[shifted[k]]
    {
      assert rows[1..][rest[k]] == rows[rest[k] + 1];
    }
    forall i | 1 <= i < |rows| && rows[i].businessId == id
      ensures i in shifted
    {
      assert rows[1..][i - 1] == rows[i];
      var k :| 0 <= k < |rest| && rest[k] == i - 1;
      assert shifted[k] == i;
    }
  }

  /** A matching first row goes in front of the shifted positions. */
  lemma ConsIndexes(rows: seq<Business>, id: string, tail: seq<Business>, shifted: seq<nat>)
    requires rows != [] && rows[0].businessId == id && PlacedAfterFirst(rows, id, tail, shifted)
    ensures InOrderIndexes(rows, id, [rows[0]] + tail, [0] + shifted)
  {
    var idx := [0] + shifted;
    assert forall k :: 1 <= k < |idx| ==> idx[k] == shifted[k - 1];
    assert 0 in idx;
  }

  /** A first row without the id is skipped: the shifted positions are all of them. */
  lemma SkipIndexes(rows: seq<Business>, id: string, tail: seq<Business>, shifted: seq<nat>)
    requires rows != [] && rows[0].businessId != id && PlacedAfterFirst(rows, id, tail, shifted)
    ensures InOrderIndexes(rows, id, tail, shifted)
  {
  }

  /** The rows with the id are taken in table order, each once. */
  lemma {:induction false} RowsWithIdInOrder(rows: seq<Business>, id: string) returns (idx: seq<nat>)
    ensures InOrderIndexes(rows, id, RowsWithId(rows, id), idx)
  {
    if rows == [] {
      idx := [];
    } else {
      var rest := RowsWithIdInOrder(rows[1..], id);
      var tail := RowsWithId(rows[1..], id);
      ShiftIndexes(rows, id, tail, rest);
      var shifted := Shift(rest);
      if rows[0].businessId == id {
        assert RowsWithId(rows, id) == [rows[0]] + tail;
        ConsIndexes(rows, id, tail, shifted);
        idx := [0] + shifted;
      } else {
        assert RowsWithId(rows, id) == tail;
        SkipIndexes(rows, id, tail, shifted);
        idx := shifted;
      }
    }
  }
}
