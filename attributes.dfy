/**
 * `parse_attributes`: the nested `attributes` dict of each business row
 * gathered into one dict from attribute name to the set of values seen for
 * it, each value normalised according to the family the attribute belongs to.
 */
module Attributes {
  import opened Wrappers
  import opened Text
  import opened YelpData

  /** A Python literal found as a value inside a nested attribute dict. */
  datatype Lit = LNone | LBool(b: bool) | LInt(n: int) | LStr(s: string)

  /** Python truthiness of such a value. */
  predicate Truthy(x: Lit)
  {
    match x
    case LNone => false
    case LBool(b) => b
    case LInt(n) => n != 0
    case LStr(s) => s != ""
  }

  /** An element of one attribute's value set. */
  datatype AttrVal = AStr(s: string) | AInt(n: int) | ABool(b: bool) | ANone | APair(key: string, value: Lit)

  /**
   * What `json.loads`, falling back to `ast.literal_eval`, makes of a nested
   * dict's text: the literal `None`, a dict, or something else (a parse error
   * or a value without `.items()`), which raises out of `parse_attributes`.
   */
  datatype DictParse = DictNone | DictOf(entries: map<string, Lit>) | NotADict

  /** The exception `parse_attributes` lets escape when a nested dict cannot be read. */
  datatype AttrError = LiteralError

  /** The attribute families, tried in this order; any other attribute keeps its raw string. */
  const STRING_ATTRIBUTES: seq<string> :=
    ["WiFi", "Alcohol", "RestaurantsAttire", "Smoking", "BYOBCorkage", "AgesAllowed", "NoiseLevel"]
  const NUMERIC_ATTRIBUTES: seq<string> := ["RestaurantsPriceRange2"]
  const BOOLEAN_ATTRIBUTES: seq<string> :=
    ["ByAppointmentOnly", "BusinessAcceptsCreditCards", "BikeParking",
     "CoatCheck", "RestaurantsTakeOut", "RestaurantsDelivery", "Caters",
     "WheelchairAccessible", "HappyHour", "OutdoorSeating", "HasTV", "RestaurantsReservations",
     "DogsAllowed", "GoodForKids", "RestaurantsTableService", "RestaurantsGoodForGroups", "DriveThru",
     "BusinessAcceptsBitcoin", "GoodForDancing", "AcceptsInsurance", "BYOB", "Corkage", "Open24Hours",
     "RestaurantsCounterService"]
  const BOOLEAN_DICT_ATTRIBUTES: seq<string> :=
    ["BusinessParking", "Ambience", "GoodForMeal", "Music",
     "BestNights", "HairSpecializesIn", "DietaryRestrictions"]

  predicate IsQuote(c: char) { c == '\'' || c == '"' }

  /** `re.sub(r"^u['\"]", '', value)`: one leading `u'` or `u"` is dropped. */
  function DropUnicodePrefix(v: string): (r: string)
    ensures r == v || (|v| >= 2 && v[0] == 'u' && IsQuote(v[1]) && r == v[2..])
  {
    if |v| >= 2 && v[0] == 'u' && IsQuote(v[1]) then v[2..] else v
  }

  /** `value.replace("'", "").replace('"', "")`: every quote removed, everything else kept in order. */
  function RemoveQuotes(v: string): (r: string)
    ensures |r| <= |v|
    ensures forall i :: 0 <= i < |r| ==> !IsQuote(r[i])
    ensures (forall i :: 0 <= i < |v| ==> !IsQuote(v[i])) ==> r == v
  {
    if v == [] then []
    else if IsQuote(v[0]) then RemoveQuotes(v[1..])
    else [v[0]] + RemoveQuotes(v[1..])
  }

  lemma {:induction false} RemoveQuotesAppend(a: string, b: string)
    ensures RemoveQuotes(a + b) == RemoveQuotes(a) + RemoveQuotes(b)
  {
    if a == [] {
      assert a + b == b;
    } else {
      assert (a + b)[1..] == a[1..] + b;
      RemoveQuotesAppend(a[1..], b);
    }
  }

  /** The string-attribute cleaning of lines 28-29. */
  function CleanString(v: string): string
  {
    RemoveQuotes(DropUnicodePrefix(v))
  }

  /** Cleaning a cleaned string changes nothing. */
  lemma CleanStringIdempotent(v: string)
    ensures CleanString(CleanString(v)) == CleanString(v)
  {
    var c := CleanString(v);
    assert |c| >= 2 ==> !IsQuote(c[1]);
  }

  /** Quotes around a quote-free word are all removed. */
  lemma QuotesAround(q: char, w: string)
    requires IsQuote(q) && forall i :: 0 <= i < |w| ==> !IsQuote(w[i])
    ensures RemoveQuotes([q] + w + [q]) == w
  {
    RemoveQuotesAppend([q] + w, [q]);
    RemoveQuotesAppend([q], w);
  }

  /**
   * The quoted enum spellings of the business file, `u'free'`, `'free'` and
   * `"free"`, all clean to the bare word.
   */
  lemma CleanQuoted(w: string)
    requires forall i :: 0 <= i < |w| ==> !IsQuote(w[i])
    ensures CleanString("u'" + w + "'") == w
    ensures CleanString("'" + w + "'") == w
    ensures CleanString("\"" + w + "\"") == w
  {
    var u := "u'" + w + "'";
    assert u[0] == 'u' && u[1] == '\'' && u[2..] == w + "'";
    RemoveQuotesAppend(w, "'");
    assert "'" + w + "'" == ['\''] + w + ['\''];
    QuotesAround('\'', w);
    assert "\"" + w + "\"" == ['"'] + w + ['"'];
    QuotesAround('"', w);
  }

  /** `parse_string_attributes`: the cleaned string, unless it reads `none` and `include_false` is off. */
  function StringAdds(v: string, includeFalse: bool): (r: set<AttrVal>)
    ensures forall x :: x in r ==> x.AStr? && forall i :: 0 <= i < |x.s| ==> !IsQuote(x.s[i])
    ensures !includeFalse ==> forall x :: x in r ==> Lower(x.s) != "none"
    ensures includeFalse ==> |r| == 1
    ensures r <= {AStr(CleanString(v))}
    ensures AStr(CleanString(v)) in r <==> includeFalse || Lower(CleanString(v)) != "none"
  {
    var c := CleanString(v);
    if !includeFalse && Lower(c) == "none" then {} else {AStr(c)}
  }

  /** `parse_numeric_attributes`: `int(value)`, or None when that raises ValueError. */
  function NumericValue(v: string): (x: AttrVal)
    ensures x.AInt? || x.ANone?
    ensures x.ANone? <==> ParseInt(v).None?
  {
    match ParseInt(v)
    case Some(n) => AInt(n)
    case None => ANone
  }

  function NumericAdds(v: string, includeFalse: bool): (r: set<AttrVal>)
    ensures forall n :: AInt(n) in r <==> ParseInt(v) == Some(n)
    ensures ANone in r <==> includeFalse && ParseInt(v).None?
    ensures forall x :: x in r ==> x.AInt? || x.ANone?
  {
    var x := NumericValue(v);
    if !includeFalse && x.ANone? then {} else {x}
  }

  /** `parse_boolean_attributes`: exactly `'True'` and `'False'` are booleans, anything else None. */
  function BooleanValue(v: string): AttrVal
  {
    if v == "False" then ABool(false) else if v == "True" then ABool(true) else ANone
  }

  function BooleanAdds(v: string, includeFalse: bool): (r: set<AttrVal>)
    ensures ABool(true) in r <==> v == "True"
    ensures ABool(false) in r <==> includeFalse && v == "False"
    ensures ANone in r <==> includeFalse && v != "True" && v != "False"
    ensures !includeFalse ==> r <= {ABool(true)}
  {
    var x := BooleanValue(v);
    if !includeFalse && x != ABool(true) then {} else {x}
  }

  /** `value.replace("'", '"')` for one character. */
  function SwapQuote(v: string): (r: string)
    ensures |r| == |v|
    ensures forall i :: 0 <= i < |v| ==> r[i] == (if v[i] == '\'' then '"' else v[i])
  {
    if v == [] then [] else [if v[0] == '\'' then '"' else v[0]] + SwapQuote(v[1..])
  }

  /** `.replace('u"', '"')`: every `u` standing right before a double quote is dropped. */
  function DropUBeforeQuote(v: string): (r: string)
    ensures |r| <= |v|
    ensures '\'' !in v ==> '\'' !in r
    ensures 'u' !in v ==> r == v
  {
    if v == [] then []
    else if |v| >= 2 && v[0] == 'u' && v[1] == '"' then "\"" + DropUBeforeQuote(v[2..])
    else [v[0]] + DropUBeforeQuote(v[1..])
  }

  /** The text handed to the dict readers (line 97): no single quote is left. */
  function DictText(v: string): (r: string)
    ensures '\'' !in r
    ensures |r| <= |v|
  {
    DropUBeforeQuote(SwapQuote(v))
  }

  /**
   * `parse_boolean_dict_attributes` once the dict has been read: None adds
   * None; otherwise the keys with a truthy value, or with `include_false`
   * every `(key, value)` pair.
   */
  function DictAdds(d: DictParse, includeFalse: bool): (r: Result<set<AttrVal>, AttrError>)
    ensures r.Failure? <==> d.NotADict?
    ensures d.DictNone? ==> r == Success({ANone})
  {
    match d
    case NotADict => Failure(LiteralError)
    case DictNone => Success({ANone})
    case DictOf(e) =>
      Success(EntryAdds(e, e.Keys, includeFalse))
  }

  /**
   * A read dict adds, with `include_false`, exactly its `(key, value)` pairs,
   * and without it exactly the keys whose value is truthy.
   */
  lemma DictAddsEntries(d: DictParse, includeFalse: bool)
    requires d.DictOf?
    ensures includeFalse ==>
      forall x :: x in DictAdds(d, includeFalse).value <==> x.APair? && x.key in d.entries && d.entries[x.key] == x.value
    ensures !includeFalse ==>
      forall x :: x in DictAdds(d, includeFalse).value <==> x.AStr? && x.s in d.entries && Truthy(d.entries[x.s])
  {
  }

  /** What the entries with keys in `ks` add: their pairs, or with `include_false` off their truthy keys. */
  function EntryAdds(e: map<string, Lit>, ks: set<string>, includeFalse: bool): set<AttrVal>
    requires ks <= e.Keys
  {
    if includeFalse then set k | k in ks :: APair(k, e[k])
    else set k | k in ks && Truthy(e[k]) :: AStr(k)
  }

  lemma EntryAddsStep(e: map<string, Lit>, ks: set<string>, k: string, includeFalse: bool)
    requires ks <= e.Keys && k in e
    ensures EntryAdds(e, ks + {k}, includeFalse) ==
            EntryAdds(e, ks, includeFalse) + (if includeFalse then {APair(k, e[k])} else if Truthy(e[k]) then {AStr(k)} else {})
  {
  }

  /** The dispatch of lines 135-145 for one non-null value. */
  function ValueAdds(key: string, v: string, includeFalse: bool, literal: string -> DictParse): (r: Result<set<AttrVal>, AttrError>)
    ensures r.Failure? <==> key !in STRING_ATTRIBUTES && key !in NUMERIC_ATTRIBUTES && key !in BOOLEAN_ATTRIBUTES
                            && key in BOOLEAN_DICT_ATTRIBUTES && literal(DictText(v)).NotADict?
  {
    if key in STRING_ATTRIBUTES then Success(StringAdds(v, includeFalse))
    else if key in NUMERIC_ATTRIBUTES then Success(NumericAdds(v, includeFalse))
    else if key in BOOLEAN_ATTRIBUTES then Success(BooleanAdds(v, includeFalse))
    else if key in BOOLEAN_DICT_ATTRIBUTES then DictAdds(literal(DictText(v)), includeFalse)
    else Success({AStr(v)})
  }

  /** What the value of `key` in one row's dict adds: nothing for a null value. */
  function Adds(attrs: map<string, Option<string>>, key: string, includeFalse: bool, literal: string -> DictParse): set<AttrVal>
  {
    if key in attrs && attrs[key].Some? then
      match ValueAdds(key, attrs[key].value, includeFalse, literal)
      case Success(s) => s
      case Failure(_) => {}
    else {}
  }

  /** Whether reading `key`'s value in a row's dict raises. */
  predicate Raises(attrs: map<string, Option<string>>, key: string, includeFalse: bool, literal: string -> DictParse)
  {
    key in attrs && attrs[key].Some? && ValueAdds(key, attrs[key].value, includeFalse, literal).Failure?
  }

  /** The value sets before a row merged with what its keys in `done` add. */
  function Merged(acc: map<string, set<AttrVal>>, attrs: map<string, Option<string>>, done: set<string>,
                  includeFalse: bool, literal: string -> DictParse): map<string, set<AttrVal>>
  {
    map k | k in acc.Keys + (attrs.Keys * done) ::
      (if k in acc then acc[k] else {}) + (if k in done then Adds(attrs, k, includeFalse, literal) else {})
  }

  /**
   * `parse_row` on one non-null dict: every key gets an entry (an empty set if
   * its values are all null), and its set grows by what the value adds; any
   * unreadable nested dict makes the call raise.
   */
  function RowUpdate(acc: map<string, set<AttrVal>>, attrs: map<string, Option<string>>,
                     includeFalse: bool, literal: string -> DictParse): (r: Result<map<string, set<AttrVal>>, AttrError>)
    ensures r.Success? ==> r.value.Keys == acc.Keys + attrs.Keys
  {
    if exists k :: k in attrs && Raises(attrs, k, includeFalse, literal) then Failure(LiteralError)
    else Success(Merged(acc, attrs, attrs.Keys, includeFalse, literal))
  }

  /** `parse_row` applied to each row in turn; the first raise stops it. */
  function AttributesOf(rows: seq<Business>, includeFalse: bool, literal: string -> DictParse): (r: Result<map<string, set<AttrVal>>, AttrError>)
    ensures r.Failure? ==> rows != []
    ensures r.Success? && rows != [] && rows[|rows| - 1].attributes.Some? ==> rows[|rows| - 1].attributes.value.Keys <= r.value.Keys
  {
    if rows == [] then Success(map[])
    else
      match AttributesOf(rows[..|rows| - 1], includeFalse, literal)
      case Failure(e) => Failure(e)
      case Success(acc) =>
        match rows[|rows| - 1].attributes
        case None => Success(acc)
        case Some(attrs) => RowUpdate(acc, attrs, includeFalse, literal)
  }

  /**
   * `parse_attributes(data, business_id, include_false)`: every row, or only
   * the first row of the requested business; an id that is not found leaves
   * the dict empty.
   */
  function ParseAttributesSpec(data: seq<Business>, businessId: Option<string>, includeFalse: bool,
                               literal: string -> DictParse): (r: Result<map<string, set<AttrVal>>, AttrError>)
    ensures businessId.Some? && (forall i :: 0 <= i < |data| ==> data[i].businessId != businessId.value) ==> r == Success(map[])
  {
    match businessId
    case None => AttributesOf(data, includeFalse, literal)
    case Some(id) =>
      var rows := RowsWithId(data, id);
      if rows == [] then Success(map[]) else AttributesOf([rows[0]], includeFalse, literal)
  }

  /** `parse_string_attributes(attributes, key, value, include_false)`. */
  method ParseStringAttributes(attributes: map<string, set<AttrVal>>, key: string, value: string, includeFalse: bool)
    returns (updated: map<string, set<AttrVal>>)
    requires key in attributes
    ensures updated == attributes[key := attributes[key] + StringAdds(value, includeFalse)]
  {
    var v := DropUnicodePrefix(value);
    v := RemoveQuotes(v);
    var added: set<AttrVal> := {};
    if !includeFalse {
      if !(Lower(v) == "none") {
        added := {AStr(v)};
      }
    } else {
      added := {AStr(v)};
    }
    updated := attributes[key := attributes[key] + added];
  }

  /** `parse_numeric_attributes(attributes, key, value, include_false)`. */
  method ParseNumericAttributes(attributes: map<string, set<AttrVal>>, key: string, value: string, includeFalse: bool)
    returns (updated: map<string, set<AttrVal>>)
    requires key in attributes
    ensures updated == attributes[key := attributes[key] + NumericAdds(value, includeFalse)]
  {
    var x: AttrVal;
    match ParseInt(value) {
      case Some(n) => x := AInt(n);
      case None => x := ANone;
    }
    var added: set<AttrVal> := {};
    if !includeFalse {
      if !x.ANone? {
        added := {x};
      }
    } else {
      added := {x};
    }
    updated := attributes[key := attributes[key] + added];
  }

  /** `parse_boolean_attributes(attributes, key, value, include_false)`. */
  method ParseBooleanAttributes(attributes: map<string, set<AttrVal>>, key: string, value: string, includeFalse: bool)
    returns (updated: map<string, set<AttrVal>>)
    requires key in attributes
    ensures updated == attributes[key := attributes[key] + BooleanAdds(value, includeFalse)]
  {
    var x: AttrVal;
    if value == "False" {
      x := ABool(false);
    } else if value == "True" {
      x := ABool(true);
    } else {
      x := ANone;
    }
    var added: set<AttrVal> := {};
    if !includeFalse {
      if x == ABool(true) {
        added := {x};
      }
    } else {
      added := {x};
    }
    updated := attributes[key := attributes[key] + added];
  }

  /** `parse_boolean_dict_attributes(attributes, key, value, include_false)`, with the dict reader as a parameter. */
  method ParseBooleanDictAttributes(attributes: map<string, set<AttrVal>>, key: string, value: string, includeFalse: bool,
                                    literal: string -> DictParse)
    returns (r: Result<map<string, set<AttrVal>>, AttrError>)
    requires key in attributes
    ensures r.Failure? <==> DictAdds(literal(DictText(value)), includeFalse).Failure?
    ensures r.Success? ==> r.value == attributes[key := attributes[key] + DictAdds(literal(DictText(value)), includeFalse).value]
  {
    var valueStr := DictText(value);
    var parsed := literal(valueStr);
    match parsed {
      case NotADict =>
        return Failure(LiteralError);
      case DictNone =>
        return Success(attributes[key := attributes[key] + {ANone}]);
      case DictOf(e) =>
        var s := AddEntries(attributes[key], e, includeFalse);
        return Success(attributes[key := s]);
    }
  }

  /** The loop over `value_dict.items()`: pairs, or with `include_false` off the truthy keys. */
  method AddEntries(s0: set<AttrVal>, e: map<string, Lit>, includeFalse: bool) returns (s: set<AttrVal>)
    ensures s == s0 + EntryAdds(e, e.Keys, includeFalse)
  {
    s := s0;
    var remaining := e.Keys;
    assert e.Keys - remaining == {};
    while remaining != {}
      invariant remaining <= e.Keys
      invariant s == s0 + EntryAdds(e, e.Keys - remaining, includeFalse)
      decreases |remaining|
    {
      var k :| k in remaining;
      EntryAddsStep(e, e.Keys - remaining, k, includeFalse);
      assert e.Keys - (remaining - {k}) == (e.Keys - remaining) + {k};
      if !includeFalse {
        if Truthy(e[k]) {
          s := s + {AStr(k)};
        }
      } else {
        s := s + {APair(k, e[k])};
      }
      remaining := remaining - {k};
    }
    assert e.Keys - remaining == e.Keys;
  }

  /** One entry after a step of `Merged`: the stepped key gains its additions, the others stay. */
  lemma MergedStepAt(acc: map<string, set<AttrVal>>, attrs: map<string, Option<string>>, done: set<string>, k: string,
                     includeFalse: bool, literal: string -> DictParse, j: string)
    requires k in attrs && k !in done && done <= attrs.Keys
    requires j in Merged(acc, attrs, done + {k}, includeFalse, literal)
    ensures j != k ==>
              && j in Merged(acc, attrs, done, includeFalse, literal)
              && Merged(acc, attrs, done + {k}, includeFalse, literal)[j] == Merged(acc, attrs, done, includeFalse, literal)[j]
    ensures j == k ==>
              Merged(acc, attrs, done + {k}, includeFalse, literal)[k] == (if k in acc then acc[k] else {}) + Adds(attrs, k, includeFalse, literal)
  {
    if j != k {
      assert j in done + {k} <==> j in done;
    }
  }

  /** A key-by-key step of `Merged`: the key gets an entry if it has none, then its value's additions. */
  lemma MergedStep(acc: map<string, set<AttrVal>>, attrs: map<string, Option<string>>, done: set<string>, k: string,
                   includeFalse: bool, literal: string -> DictParse)
    requires k in attrs && k !in done && done <= attrs.Keys
    ensures var cur := Merged(acc, attrs, done, includeFalse, literal);
            var entry := if k in cur then cur else cur[k := {}];
            Merged(acc, attrs, done + {k}, includeFalse, literal) == entry[k := entry[k] + Adds(attrs, k, includeFalse, literal)]
  {
    var cur := Merged(acc, attrs, done, includeFalse, literal);
    var entry := if k in cur then cur else cur[k := {}];
    var next := Merged(acc, attrs, done + {k}, includeFalse, literal);
    var want := entry[k := entry[k] + Adds(attrs, k, includeFalse, literal)];
    assert attrs.Keys * (done + {k}) == attrs.Keys * done + {k};
    assert next.Keys == want.Keys;
    assert entry[k] == if k in acc then acc[k] else {};
    forall j | j in next
      ensures next[j] == want[j]
    {
      MergedStepAt(acc, attrs, done, k, includeFalse, literal, j);
    }
  }

  lemma MergedNothing(acc: map<string, set<AttrVal>>, attrs: map<string, Option<string>>,
                      includeFalse: bool, literal: string -> DictParse)
    ensures Merged(acc, attrs, {}, includeFalse, literal) == acc
  {
    var m := Merged(acc, attrs, {}, includeFalse, literal);
    assert m.Keys == acc.Keys;
    forall k | k in m
      ensures m[k] == acc[k]
    {
    }
  }

  lemma RowUpdateRaises(acc: map<string, set<AttrVal>>, attrs: map<string, Option<string>>, k: string,
                        includeFalse: bool, literal: string -> DictParse)
    requires k in attrs && attrs[k].Some? && ValueAdds(k, attrs[k].value, includeFalse, literal).Failure?
    ensures RowUpdate(acc, attrs, includeFalse, literal) == Failure(LiteralError)
  {
    assert Raises(attrs, k, includeFalse, literal);
  }

  lemma RowUpdateSucceeds(acc: map<string, set<AttrVal>>, attrs: map<string, Option<string>>,
                          includeFalse: bool, literal: string -> DictParse)
    requires forall k :: k in attrs.Keys ==> !Raises(attrs, k, includeFalse, literal)
    ensures RowUpdate(acc, attrs, includeFalse, literal) == Success(Merged(acc, attrs, attrs.Keys, includeFalse, literal))
  {
  }

  /** One pass of `parse_row`'s loop: create the key's entry, then add its value unless it is null. */
  method ParseEntry(cur: map<string, set<AttrVal>>, ghost acc: map<string, set<AttrVal>>, attrs: map<string, Option<string>>,
                    ghost done: set<string>, key: string, includeFalse: bool, literal: string -> DictParse)
    returns (r: Result<map<string, set<AttrVal>>, AttrError>)
    requires key in attrs && key !in done && done <= attrs.Keys
    requires cur == Merged(acc, attrs, done, includeFalse, literal)
    ensures r.Failure? <==> Raises(attrs, key, includeFalse, literal)
    ensures r.Success? ==> r.value == Merged(acc, attrs, done + {key}, includeFalse, literal)
  {
    MergedStep(acc, attrs, done, key, includeFalse, literal);
    var entry := cur;
    if key !in entry {
      entry := entry[key := {}];
    }
    if attrs[key].Some? {
      r := ParseValue(entry, key, attrs[key].value, includeFalse, literal);
    } else {
      assert entry[key] + Adds(attrs, key, includeFalse, literal) == entry[key];
      r := Success(entry);
    }
  }

  /** `parse_row(r)` for a row whose dict is not null. */
  method ParseRow(attributes: map<string, set<AttrVal>>, attrs: map<string, Option<string>>, includeFalse: bool,
                  literal: string -> DictParse)
    returns (r: Result<map<string, set<AttrVal>>, AttrError>)
    ensures r == RowUpdate(attributes, attrs, includeFalse, literal)
  {
    var cur := attributes;
    var remaining := attrs.Keys;
    assert attrs.Keys - remaining == {};
    MergedNothing(attributes, attrs, includeFalse, literal);
    while remaining != {}
      invariant remaining <= attrs.Keys
      invariant cur == Merged(attributes, attrs, attrs.Keys - remaining, includeFalse, literal)
      invariant forall k :: k in attrs.Keys - remaining ==> !Raises(attrs, k, includeFalse, literal)
      decreases |remaining|
    {
      var key :| key in remaining;
      assert attrs.Keys - (remaining - {key}) == (attrs.Keys - remaining) + {key};
      var res := ParseEntry(cur, attributes, attrs, attrs.Keys - remaining, key, includeFalse, literal);
      if res.Failure? {
        RowUpdateRaises(attributes, attrs, key, includeFalse, literal);
        return Failure(LiteralError);
      }
      cur := res.value;
      remaining := remaining - {key};
    }
    assert attrs.Keys - remaining == attrs.Keys;
    r := Success(cur);
    RowUpdateSucceeds(attributes, attrs, includeFalse, literal);
  }

  /** The `match key` of `parse_row` for one non-null value. */
  method ParseValue(attributes: map<string, set<AttrVal>>, key: string, value: string, includeFalse: bool,
                    literal: string -> DictParse)
    returns (r: Result<map<string, set<AttrVal>>, AttrError>)
    requires key in attributes
    ensures r.Failure? <==> ValueAdds(key, value, includeFalse, literal).Failure?
    ensures r.Success? ==> r.value == attributes[key := attributes[key] + ValueAdds(key, value, includeFalse, literal).value]
  {
    if key in STRING_ATTRIBUTES {
      var updated := ParseStringAttributes(attributes, key, value, includeFalse);
      r := Success(updated);
    } else if key in NUMERIC_ATTRIBUTES {
      var updated := ParseNumericAttributes(attributes, key, value, includeFalse);
      r := Success(updated);
    } else if key in BOOLEAN_ATTRIBUTES {
      var updated := ParseBooleanAttributes(attributes, key, value, includeFalse);
      r := Success(updated);
    } else if key in BOOLEAN_DICT_ATTRIBUTES {
      r := ParseBooleanDictAttributes(attributes, key, value, includeFalse, literal);
    } else {
      r := Success(attributes[key := attributes[key] + {AStr(value)}]);
    }
  }

  /** A row that raises makes every longer run raise. */
  lemma {:induction false} AttributesFailureStays(rows: seq<Business>, n: nat, includeFalse: bool, literal: string -> DictParse)
    requires n <= |rows| && AttributesOf(rows[..n], includeFalse, literal).Failure?
    ensures AttributesOf(rows, includeFalse, literal) == Failure(LiteralError)
    decreases |rows| - n
  {
    if n == |rows| {
      assert rows[..n] == rows;
      var e := AttributesOf(rows, includeFalse, literal).error;
      assert e == LiteralError;
    } else {
      assert rows[..n + 1][..n] == rows[..n];
      AttributesFailureStays(rows, n + 1, includeFalse, literal);
    }
  }

  /** `parse_attributes(data, business_id, include_false)`; the final set-to-list conversion keeps the sets. */
  method ParseAttributes(data: seq<Business>, businessId: Option<string>, includeFalse: bool, literal: string -> DictParse)
    returns (r: Result<map<string, set<AttrVal>>, AttrError>)
    ensures r == ParseAttributesSpec(data, businessId, includeFalse, literal)
  {
    var attributes: map<string, set<AttrVal>> := map[];
    if businessId.None? {
      for i := 0 to |data|
        invariant AttributesOf(data[..i], includeFalse, literal) == Success(attributes)
      {
        assert data[..i + 1][..i] == data[..i];
        if data[i].attributes.Some? {
          var res := ParseRow(attributes, data[i].attributes.value, includeFalse, literal);
          if res.Failure? {
            AttributesFailureStays(data, i + 1, includeFalse, literal);
            return Failure(LiteralError);
          }
          attributes := res.value;
        }
      }
      assert data[..|data|] == data;
    } else {
      var rows := RowsWithId(data, businessId.value);
      if |rows| > 0 {
        var row := rows[0];
        assert [row][..|[row]| - 1] == [];
        assert AttributesOf([row][..|[row]| - 1], includeFalse, literal) == Success(map[]);
        if row.attributes.Some? {
          var res := ParseRow(attributes, row.attributes.value, includeFalse, literal);
          if res.Failure? {
            return Failure(LiteralError);
          }
          attributes := res.value;
        }
      }
    }
    r := Success(attributes);
  }

  /**
   * Every attribute key of every row's dict gets an entry, even one whose
   * values are all null, and no other key does.
   */
  lemma {:induction false} AttributesKeys(rows: seq<Business>, includeFalse: bool, literal: string -> DictParse, k: string)
    requires AttributesOf(rows, includeFalse, literal).Success?
    ensures k in AttributesOf(rows, includeFalse, literal).value <==>
              exists i :: 0 <= i < |rows| && rows[i].attributes.Some? && k in rows[i].attributes.value
  {
    if rows != [] {
      var prefix := rows[..|rows| - 1];
      var last := rows[|rows| - 1];
      AttributesKeys(prefix, includeFalse, literal, k);
      if exists i :: 0 <= i < |prefix| && prefix[i].attributes.Some? && k in prefix[i].attributes.value {
        var i :| 0 <= i < |prefix| && prefix[i].attributes.Some? && k in prefix[i].attributes.value;
        assert rows[i] == prefix[i];
      }
      if exists i :: 0 <= i < |rows| && rows[i].attributes.Some? && k in rows[i].attributes.value {
        var i :| 0 <= i < |rows| && rows[i].attributes.Some? && k in rows[i].attributes.value;
        if i < |rows| - 1 {
          assert rows[i] == prefix[i];
        }
      }
      if last.attributes.Some? {
        RowUpdateKeys(AttributesOf(prefix, includeFalse, literal).value, last.attributes.value, includeFalse, literal);
      }
    }
  }

  lemma RowUpdateKeys(acc: map<string, set<AttrVal>>, attrs: map<string, Option<string>>, includeFalse: bool, literal: string -> DictParse)
    requires RowUpdate(acc, attrs, includeFalse, literal).Success?
    ensures RowUpdate(acc, attrs, includeFalse, literal).value.Keys == acc.Keys + attrs.Keys
    ensures forall k :: k in acc ==>
              && k in RowUpdate(acc, attrs, includeFalse, literal).value
              && RowUpdate(acc, attrs, includeFalse, literal).value[k] == acc[k] + Adds(attrs, k, includeFalse, literal)
    ensures forall k :: k in attrs && k !in acc ==> RowUpdate(acc, attrs, includeFalse, literal).value[k] == Adds(attrs, k, includeFalse, literal)
  {
  }

  /**
   * A value is in an attribute's set exactly when some row's dict holds that
   * attribute with a value that adds it; in particular sets only grow from
   * row to row.
   */
  lemma {:induction false} AttributesValues(rows: seq<Business>, includeFalse: bool, literal: string -> DictParse, k: string, x: AttrVal)
    requires AttributesOf(rows, includeFalse, literal).Success?
    ensures k in AttributesOf(rows, includeFalse, literal).value && x in AttributesOf(rows, includeFalse, literal).value[k] <==>
              exists i :: 0 <= i < |rows| && rows[i].attributes.Some? && x in Adds(rows[i].attributes.value, k, includeFalse, literal)
  {
    if rows != [] {
      var prefix := rows[..|rows| - 1];
      var last := rows[|rows| - 1];
      AttributesValues(prefix, includeFalse, literal, k, x);
      if exists i :: 0 <= i < |prefix| && prefix[i].attributes.Some? && x in Adds(prefix[i].attributes.value, k, includeFalse, literal) {
        var i :| 0 <= i < |prefix| && prefix[i].attributes.Some? && x in Adds(prefix[i].attributes.value, k, includeFalse, literal);
        assert rows[i] == prefix[i];
      }
      if exists i :: 0 <= i < |rows| && rows[i].attributes.Some? && x in Adds(rows[i].attributes.value, k, includeFalse, literal) {
        var i :| 0 <= i < |rows| && rows[i].attributes.Some? && x in Adds(rows[i].attributes.value, k, includeFalse, literal);
        if i < |rows| - 1 {
          assert rows[i] == prefix[i];
        }
      }
      if last.attributes.Some? {
        var acc := AttributesOf(prefix, includeFalse, literal).value;
        RowUpdateKeys(acc, last.attributes.value, includeFalse, literal);
        if x in Adds(last.attributes.value, k, includeFalse, literal) {
          assert k in last.attributes.value;
        }
      }
    }
  }

  /** The call raises exactly when some row holds a dict attribute whose text cannot be read as a dict. */
  /** Whether `parse_row` raises on a business row: its dict is present and one of its values raises. */
  predicate RowRaises(b: Business, includeFalse: bool, literal: string -> DictParse)
  {
    b.attributes.Some? && exists k :: k in b.attributes.value && Raises(b.attributes.value, k, includeFalse, literal)
  }

  /** One more row raises the whole parse iff the rows before it did or it does. */
  lemma AttributesFailureStep(rows: seq<Business>, includeFalse: bool, literal: string -> DictParse)
    requires rows != []
    ensures AttributesOf(rows, includeFalse, literal).Failure? <==>
              AttributesOf(rows[..|rows| - 1], includeFalse, literal).Failure? || RowRaises(rows[|rows| - 1], includeFalse, literal)
  {
  }

  /** The parse of the first `n` rows raises iff one of them raises. */
  lemma {:induction false} AttributesFailurePrefix(rows: seq<Business>, n: nat, includeFalse: bool, literal: string -> DictParse)
    requires n <= |rows|
    ensures AttributesOf(rows[..n], includeFalse, literal).Failure? <==>
              exists i :: 0 <= i < n && RowRaises(rows[i], includeFalse, literal)
  {
    if n > 0 {
      AttributesFailurePrefix(rows, n - 1, includeFalse, literal);
      assert rows[..n][..n - 1] == rows[..n - 1];
      AttributesFailureStep(rows[..n], includeFalse, literal);
    }
  }

  lemma AttributesFailure(rows: seq<Business>, includeFalse: bool, literal: string -> DictParse)
    ensures AttributesOf(rows, includeFalse, literal).Failure? <==>
              exists i :: 0 <= i < |rows| && RowRaises(rows[i], includeFalse, literal)
  {
    AttributesFailurePrefix(rows, |rows|, includeFalse, literal);
    assert rows[..|rows|] == rows;
  }

  /**
   * Turning `include_false` off keeps a subset of the plain values, and for
   * a nested dict keeps the key of exactly the pairs whose value is truthy.
   */
  lemma IncludeFalseNarrows(key: string, v: string, literal: string -> DictParse)
    ensures ValueAdds(key, v, false, literal).Success? <==> ValueAdds(key, v, true, literal).Success?
    ensures key !in BOOLEAN_DICT_ATTRIBUTES && ValueAdds(key, v, true, literal).Success? ==>
              ValueAdds(key, v, false, literal).value <= ValueAdds(key, v, true, literal).value
    ensures && key !in STRING_ATTRIBUTES && key !in NUMERIC_ATTRIBUTES && key !in BOOLEAN_ATTRIBUTES
            && key in BOOLEAN_DICT_ATTRIBUTES && literal(DictText(v)).DictOf? ==>
              forall k :: AStr(k) in ValueAdds(key, v, false, literal).value <==>
                (exists x :: APair(k, x) in ValueAdds(key, v, true, literal).value && Truthy(x))
  {
    if && key !in STRING_ATTRIBUTES && key !in NUMERIC_ATTRIBUTES && key !in BOOLEAN_ATTRIBUTES
       && key in BOOLEAN_DICT_ATTRIBUTES && literal(DictText(v)).DictOf? {
      var e := literal(DictText(v)).entries;
      assert ValueAdds(key, v, false, literal).value == EntryAdds(e, e.Keys, false);
      assert ValueAdds(key, v, true, literal).value == EntryAdds(e, e.Keys, true);
      forall k
        ensures AStr(k) in ValueAdds(key, v, false, literal).value <==>
                (exists x :: APair(k, x) in ValueAdds(key, v, true, literal).value && Truthy(x))
      {
        if AStr(k) in ValueAdds(key, v, false, literal).value {
          var j :| j in e.Keys && Truthy(e[j]) && AStr(j) == AStr(k);
          assert APair(j, e[j]) in EntryAdds(e, e.Keys, true);
        }
        if exists x :: APair(k, x) in ValueAdds(key, v, true, literal).value && Truthy(x) {
          var x :| APair(k, x) in ValueAdds(key, v, true, literal).value && Truthy(x);
          var j :| j in e.Keys && APair(j, e[j]) == APair(k, x);
          assert AStr(j) in EntryAdds(e, e.Keys, false);
        }
      }
    }
  }
}
