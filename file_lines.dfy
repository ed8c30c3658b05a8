/**
 * A file as the ingestion code sees it: a sequence of bytes, positions into it
 * (what `tell()` returns), and `readline()`, which reads from a position up to
 * and including the next '\n', or to the end of the file.
 */
module FileLines {

  newtype byte = x: int | 0 <= x < 256

  const NEWLINE: byte := 10

  /**
   * Where `readline()` started at `p` leaves the position: just past the first
   * '\n' at or after `p`, or the end of the file when there is none.
   */
  function LineEnd(f: seq<byte>, p: nat): (q: nat)
    requires p < |f|
    ensures p < q <= |f|
    ensures q == |f| || f[q - 1] == NEWLINE
    ensures forall k :: p <= k < q - 1 ==> f[k] != NEWLINE
    decreases |f| - p
  {
    if f[p] == NEWLINE then p + 1
    else if p + 1 == |f| then |f|
    else LineEnd(f, p + 1)
  }

  /**
   * The position after `readline()` at `p`: a read at or past the end of the
   * file returns nothing and leaves the position where it was.
   */
  function Advance(f: seq<byte>, p: nat): (q: nat)
    ensures q >= p
    ensures p < |f| ==> q <= |f|
  {
    if p < |f| then LineEnd(f, p) else p
  }

  /** The line `readline()` returns at `p`, terminator included. */
  function Line(f: seq<byte>, p: nat): seq<byte>
    requires p < |f|
  {
    f[p..LineEnd(f, p)]
  }

  /** A position where a line starts, or the end of the file (or beyond it). */
  predicate Aligned(f: seq<byte>, p: nat)
  {
    p == 0 || p >= |f| || f[p - 1] == NEWLINE
  }

  /** The lines read one after the other from `p` to the end of the file. */
  function LinesFrom(f: seq<byte>, p: nat): seq<seq<byte>>
    decreases |f| - p
  {
    if p >= |f| then [] else [Line(f, p)] + LinesFrom(f, LineEnd(f, p))
  }

  /** The file's lines in order: what iterating over the open file yields. */
  function Lines(f: seq<byte>): seq<seq<byte>>
  {
    LinesFrom(f, 0)
  }

  function Flatten(xss: seq<seq<byte>>): seq<byte>
  {
    if xss == [] then [] else xss[0] + Flatten(xss[1..])
  }

  /** Every position `readline()` stops at is a line start or the end of the file. */
  lemma AdvanceAligned(f: seq<byte>, p: nat)
    ensures Aligned(f, Advance(f, p))
  {
  }

  /**
   * No line start lies strictly inside a line: reading a line from `p` never
   * jumps over a line start `b` that comes after `p`.
   */
  lemma LineEndStopsAtLineStart(f: seq<byte>, p: nat, b: nat)
    requires p < |f| && p < b && Aligned(f, b)
    ensures LineEnd(f, p) <= b
  {
  }

  /** Concatenating the lines from `p` gives back the file from `p` exactly. */
  lemma {:induction false} LinesReassemble(f: seq<byte>, p: nat)
    requires p <= |f|
    ensures Flatten(LinesFrom(f, p)) == f[p..]
    decreases |f| - p
  {
    if p < |f| {
      var q := LineEnd(f, p);
      var ls := LinesFrom(f, p);
      LinesReassemble(f, q);
      assert ls == [f[p..q]] + LinesFrom(f, q);
      assert ls[1..] == LinesFrom(f, q);
      assert Flatten(ls) == f[p..q] + Flatten(LinesFrom(f, q));
      assert f[p..] == f[p..q] + f[q..];
    }
  }

  /**
   * Every line is non-empty, holds a '\n' only as its last byte, and ends in
   * '\n' unless it is the file's last line.
   */
  lemma {:induction false} LineShape(f: seq<byte>, p: nat, i: nat)
    requires i < |LinesFrom(f, p)|
    ensures |LinesFrom(f, p)[i]| > 0
    ensures forall k :: 0 <= k < |LinesFrom(f, p)[i]| - 1 ==> LinesFrom(f, p)[i][k] != NEWLINE
    ensures i + 1 < |LinesFrom(f, p)| ==> LinesFrom(f, p)[i][|LinesFrom(f, p)[i]| - 1] == NEWLINE
    decreases |f| - p
  {
    var q := LineEnd(f, p);
    if i > 0 {
      LineShape(f, q, i - 1);
    } else {
      assert LinesFrom(f, p)[0] == f[p..q];
      if 1 < |LinesFrom(f, p)| {
        assert q < |f|;
      }
    }
  }

  /** The whole file reassembled from its lines. */
  lemma LinesCoverFile(f: seq<byte>)
    ensures Flatten(Lines(f)) == f
  {
    LinesReassemble(f, 0);
  }

  /**
   * Reading on from `p` meets every later line start `q`: the lines from `q`
   * are the tail of the lines from `p`, after `k` of them.
   */
  lemma {:induction false} LinesFromTail(f: seq<byte>, p: nat, q: nat) returns (k: nat)
    requires p <= q && Aligned(f, q)
    ensures k <= |LinesFrom(f, p)|
    ensures LinesFrom(f, p)[k..] == LinesFrom(f, q)
    decreases |f| - p
  {
    if p >= |f| {
      k := 0;
    } else if p == q {
      k := 0;
    } else {
      LineEndStopsAtLineStart(f, p, q);
      var k' := LinesFromTail(f, LineEnd(f, p), q);
      k := k' + 1;
      assert LinesFrom(f, p)[1..] == LinesFrom(f, LineEnd(f, p));
      assert LinesFrom(f, p)[k..] == LinesFrom(f, p)[1..][k'..];
    }
  }
}
