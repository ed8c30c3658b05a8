/**
 * The handful of Python string operations the Yelp field normalisers use:
 * `str.split(sep)`, `str.strip()`, `str.lower()`, `int()` on digit strings and
 * the `{n:02d}` format.
 */
module Text {
  import opened Wrappers

  /** Number of occurrences of `c` in `s` (Python's `s.count(c)`). */
  function Count(s: string, c: char): (n: nat)
    ensures n <= |s|
    ensures n == 0 <==> c !in s
  {
    if s == [] then 0 else (if s[0] == c then 1 else 0) + Count(s[1..], c)
  }

  lemma {:induction false} CountAppend(a: string, b: string, c: char)
    ensures Count(a + b, c) == Count(a, c) + Count(b, c)
  {
    if a == [] {
      assert a + b == b;
    } else {
      assert (a + b)[1..] == a[1..] + b;
      CountAppend(a[1..], b, c);
    }
  }

  /** `sep.join(parts)`, the inverse of `Split`. */
  function Join(parts: seq<string>, sep: char): string
  {
    if |parts| == 0 then ""
    else if |parts| == 1 then parts[0]
    else parts[0] + [sep] + Join(parts[1..], sep)
  }

  /**
   * Python's `s.split(sep)` for a one-character separator: always at least one
   * piece, one more piece than there are separators, no piece contains the
   * separator, and joining the pieces back gives `s`.
   */
  function Split(s: string, sep: char): (parts: seq<string>)
    ensures |parts| == Count(s, sep) + 1
    ensures forall i :: 0 <= i < |parts| ==> sep !in parts[i]
    ensures Join(parts, sep) == s
  {
    if s == [] then [""]
    else
      var rest := Split(s[1..], sep);
      if s[0] == sep then
        assert [""] + rest == [""] + rest[..1] + rest[1..];
        [""] + rest
      else
        var parts := [[s[0]] + rest[0]] + rest[1..];
        assert parts[1..] == rest[1..];
        assert |rest| > 1 ==> Join(rest, sep) == rest[0] + [sep] + Join(rest[1..], sep);
        assert Join(parts, sep) == [s[0]] + Join(rest, sep);
        assert s == [s[0]] + s[1..];
        parts
  }

  lemma PrefixBeforeSeparator(x: string, y: string, a: string, b: string, c: char)
    requires c !in x && c !in a
    requires x + [c] + y == a + [c] + b
    ensures x == a && y == b
  {
    var s := a + [c] + b;
    assert forall i :: 0 <= i < |x| ==> s[i] == x[i] != c;
    assert forall i :: 0 <= i < |a| ==> s[i] == a[i] != c;
    assert s[|x|] == c && s[|a|] == c;
    assert |x| == |a|;
    assert x == s[..|x|] && a == s[..|a|];
    assert y == s[|x| + 1..] && b == s[|a| + 1..];
  }

  /** Splitting on a separator that occurs exactly once gives the two sides. */
  lemma SplitPair(a: string, b: string, sep: char)
    requires sep !in a && sep !in b
    ensures Split(a + [sep] + b, sep) == [a, b]
  {
    var s := a + [sep] + b;
    CountAppend(a + [sep], b, sep);
    CountAppend(a, [sep], sep);
    var parts := Split(s, sep);
    assert |parts| == 2;
    assert Join(parts, sep) == parts[0] + [sep] + Join(parts[1..], sep);
    assert parts[1..] == [parts[1]];
    PrefixBeforeSeparator(parts[0], parts[1], a, b, sep);
  }

  /** A string that splits into two pieces is those pieces around one separator. */
  lemma SplitTwo(s: string, sep: char)
    requires |Split(s, sep)| == 2
    ensures s == Split(s, sep)[0] + [sep] + Split(s, sep)[1]
  {
    var parts := Split(s, sep);
    assert Join(parts, sep) == parts[0] + [sep] + Join(parts[1..], sep);
    assert parts[1..] == [parts[1]];
  }

  /**
   * Python's two-target unpacking `a, b = s.split(sep)`: it succeeds exactly
   * when `sep` occurs once, and then gives the text on either side of it.
   */
  function SplitOnce(s: string, sep: char): (r: Option<(string, string)>)
    ensures r.Some? <==> Count(s, sep) == 1
    ensures r.Some? ==> sep !in r.value.0 && sep !in r.value.1 && s == r.value.0 + [sep] + r.value.1
  {
    if s == [] then None
    else if s[0] == sep then
      if sep in s[1..] then None else Some(([], s[1..]))
    else
      match SplitOnce(s[1..], sep)
      case None => None
      case Some((a, b)) => Some(([s[0]] + a, b))
  }

  /** The unpacking recovers the two sides it was built from. */
  lemma SplitOnceOf(a: string, b: string, sep: char)
    requires sep !in a && sep !in b
    ensures SplitOnce(a + [sep] + b, sep) == Some((a, b))
  {
    var s := a + [sep] + b;
    CountAppend(a + [sep], b, sep);
    CountAppend(a, [sep], sep);
    var r := SplitOnce(s, sep);
    PrefixBeforeSeparator(r.value.0, r.value.1, a, b, sep);
  }

  /** The unpacking succeeds with `(a, b)` exactly when `split` gives the list `[a, b]`. */
  lemma SplitOnceIsSplit(s: string, sep: char, a: string, b: string)
    ensures SplitOnce(s, sep) == Some((a, b)) <==> Split(s, sep) == [a, b]
  {
    if SplitOnce(s, sep) == Some((a, b)) {
      SplitPair(a, b, sep);
    }
    if Split(s, sep) == [a, b] {
      var r := SplitOnce(s, sep);
      SplitPair(r.value.0, r.value.1, sep);
    }
  }

  /** A string without the separator splits into itself alone. */
  lemma SplitNone(s: string, sep: char)
    requires sep !in s
    ensures Split(s, sep) == [s]
  {
  }

  predicate IsDigit(c: char) { '0' <= c <= '9' }

  predicate AllDigits(s: string) { forall i :: 0 <= i < |s| ==> IsDigit(s[i]) }

  /** A non-empty string of ASCII digits: what `int()` is modelled to accept. */
  predicate IsNumeral(s: string) { |s| > 0 && AllDigits(s) }

  function DigitValue(c: char): nat
    requires IsDigit(c)
  {
    c as int - '0' as int
  }

  function Digit(d: nat): (c: char)
    requires d < 10
    ensures IsDigit(c) && DigitValue(c) == d
  {
    ('0' as int + d) as char
  }

  /** The value of a digit string, most significant digit first. */
  function NumeralValue(s: string): nat
    requires AllDigits(s)
  {
    if s == [] then 0 else NumeralValue(s[..|s| - 1]) * 10 + DigitValue(s[|s| - 1])
  }

  /** Python's `str(n)` for a natural number: digits without leading zeros. */
  function Numeral(n: nat): (s: string)
    ensures IsNumeral(s)
    ensures NumeralValue(s) == n
    ensures s[0] == '0' ==> n == 0
  {
    if n < 10 then [Digit(n)]
    else
      var s := Numeral(n / 10) + [Digit(n % 10)];
      assert s[..|s| - 1] == Numeral(n / 10);
      s
  }

  lemma {:induction false} LeadingZero(t: string)
    requires AllDigits(t)
    ensures AllDigits("0" + t) && NumeralValue("0" + t) == NumeralValue(t)
  {
    if t != [] {
      var s := "0" + t;
      assert s[..|s| - 1] == "0" + t[..|t| - 1];
      LeadingZero(t[..|t| - 1]);
    }
  }

  /** Python's `f'{n:02d}'`: the digits of `n`, zero-padded to at least two. */
  function Pad2(n: nat): (s: string)
    ensures IsNumeral(s) && |s| >= 2
    ensures NumeralValue(s) == n
  {
    if n < 10 then LeadingZero(Numeral(n)); "0" + Numeral(n) else Numeral(n)
  }

  /** Python's `str.isspace()` for one character. */
  predicate IsSpace(c: char)
  {
    c == ' ' || ('\t' <= c <= '\r') || ('\U{1c}' <= c <= '\U{1f}') || c == '\U{85}' || c == '\U{a0}'
    || c == '\U{1680}' || ('\U{2000}' <= c <= '\U{200a}') || c == '\U{2028}' || c == '\U{2029}'
    || c == '\U{202f}' || c == '\U{205f}' || c == '\U{3000}'
  }

  /** From `i` on, the first position that is not whitespace (or the end of `s`). */
  function SpaceEnd(s: string, i: nat): (e: nat)
    requires i <= |s|
    ensures i <= e <= |s|
    ensures forall k :: i <= k < e ==> IsSpace(s[k])
    ensures e < |s| ==> !IsSpace(s[e])
    decreases |s| - i
  {
    if i < |s| && IsSpace(s[i]) then SpaceEnd(s, i + 1) else i
  }

  /** Down from `j` to `lo`, the position where the run of whitespace ending at `j` begins. */
  function SpaceStart(s: string, lo: nat, j: nat): (b: nat)
    requires lo <= j <= |s|
    ensures lo <= b <= j
    ensures forall k :: b <= k < j ==> IsSpace(s[k])
    ensures b > lo ==> !IsSpace(s[b - 1])
    decreases j
  {
    if j > lo && IsSpace(s[j - 1]) then SpaceStart(s, lo, j - 1) else j
  }

  /** Where the text `strip()` keeps begins: after the leading whitespace. */
  function StripStart(s: string): (i: nat)
    ensures i <= |s|
  {
    SpaceEnd(s, 0)
  }

  /** Where it ends: before the trailing whitespace. */
  function StripEnd(s: string): (j: nat)
    ensures StripStart(s) <= j <= |s|
  {
    SpaceStart(s, StripStart(s), |s|)
  }

  /** Everything of `s` outside `[i, j)` is whitespace. */
  predicate SpaceOutside(s: string, i: nat, j: nat)
  {
    i <= j <= |s| && (forall k :: 0 <= k < i ==> IsSpace(s[k])) && (forall k :: j <= k < |s| ==> IsSpace(s[k]))
  }

  /**
   * Python's `s.strip()`: neither starts nor ends with whitespace, and a
   * string that already neither starts nor ends with whitespace is kept
   * (`StripIsPiece` says which piece of the input it is).
   */
  function Strip(s: string): (r: string)
    ensures |r| > 0 ==> !IsSpace(r[0]) && !IsSpace(r[|r| - 1])
    ensures (|s| == 0 || (!IsSpace(s[0]) && !IsSpace(s[|s| - 1]))) ==> r == s
  {
    var i, j := StripStart(s), StripEnd(s);
    assert i < j ==> !IsSpace(s[j - 1]);
    s[i..j]
  }

  /** `strip()` keeps the piece `s[StripStart(s)..StripEnd(s)]` and drops only whitespace around it. */
  lemma StripIsPiece(s: string)
    ensures SpaceOutside(s, StripStart(s), StripEnd(s)) && Strip(s) == s[StripStart(s)..StripEnd(s)]
  {
  }

  /** What `Strip` keeps is a piece of its input, so it has no character the input lacks. */
  lemma StripKeeps(s: string, c: char)
    requires c in Strip(s)
    ensures c in s
  {
    StripIsPiece(s);
    var i := StripStart(s);
    var k :| 0 <= k < |Strip(s)| && Strip(s)[k] == c;
    assert s[i + k] == c;
  }

  /** What `int()` reads once the whitespace is stripped: an optional sign, then ASCII digits. */
  predicate IntLiteral(t: string)
  {
    IsNumeral(t) || (|t| >= 2 && (t[0] == '+' || t[0] == '-') && IsNumeral(t[1..]))
  }

  /** An optional `+` or `-` followed by ASCII digits, and its value. */
  function SignedValue(t: string): Option<int>
  {
    if IsNumeral(t) then Some(NumeralValue(t))
    else if |t| > 1 && t[0] == '+' && IsNumeral(t[1..]) then Some(NumeralValue(t[1..]))
    else if |t| > 1 && t[0] == '-' && IsNumeral(t[1..]) then Some(-(NumeralValue(t[1..]) as int))
    else None
  }

  /**
   * Python's `int(s)` on a string: surrounding whitespace is ignored, then an
   * optional sign and ASCII digits; anything else raises ValueError (None).
   * A digit string gives its value, and only a string with a '-' gives a
   * negative number.
   */
  function ParseInt(s: string): (r: Option<int>)
    ensures IsNumeral(s) ==> r == Some(NumeralValue(s))
    ensures r.Some? && r.value < 0 ==> '-' in s
  {
    var t := Strip(s);
    if SignedValue(t).Some? && SignedValue(t).value < 0 then
      assert t[0] == '-';
      StripKeeps(s, '-');
      SignedValue(t)
    else SignedValue(t)
  }

  /** `int()` accepts exactly the texts that, stripped, are an optional sign followed by ASCII digits. */
  lemma ParseIntAccepts(s: string)
    ensures ParseInt(s).Some? <==> IntLiteral(Strip(s))
  {
  }

  /** Python's `str(n)` for any integer. */
  function IntText(n: int): string
  {
    if n < 0 then "-" + Numeral(-n) else Numeral(n)
  }

  /** `int(str(n)) == n`. */
  lemma ParseIntRoundTrip(n: int)
    ensures ParseInt(IntText(n)) == Some(n)
  {
    var t := IntText(n);
    if n < 0 {
      assert t[1..] == Numeral(-n);
      assert !IsSpace(t[0]) && !IsSpace(t[|t| - 1]);
    }
  }

  function LowerChar(c: char): char
  {
    if 'A' <= c <= 'Z' then (c as int + 32) as char else c
  }

  /** Python's `s.lower()` on ASCII letters. */
  function Lower(s: string): (r: string)
    ensures |r| == |s|
    ensures forall i :: 0 <= i < |s| ==> r[i] == LowerChar(s[i])
  {
    if s == [] then [] else [LowerChar(s[0])] + Lower(s[1..])
  }
}
