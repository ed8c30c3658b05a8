/**
 * `generate_chunks`: the planner that cuts a file into contiguous byte ranges
 * whose boundaries fall on line ends. Each step seeks `size` bytes forward from
 * the last end, then reads on to the end of the line it landed in.
 */
module ChunkPlanner {
  import opened FileLines

  /** A planned range `(chunk_start, chunk_end)`, half-open. */
  datatype ByteRange = ByteRange(start: nat, end: nat)

  /** The end of the range that starts at `start`: `seek(size, 1)`, `readline()`, `tell()`. */
  function RangeEnd(f: seq<byte>, size: nat, start: nat): nat
  {
    Advance(f, start + size)
  }

  /** The ranges the generator yields from `start` on, until one ends past the end of the file. */
  function PlanFrom(f: seq<byte>, size: nat, start: nat): seq<ByteRange>
    requires size > 0 && start <= |f|
    decreases |f| - start
  {
    var e := RangeEnd(f, size, start);
    if e > |f| then [ByteRange(start, e)]
    else [ByteRange(start, e)] + PlanFrom(f, size, e)
  }

  /** Everything `generate_chunks(path, size)` yields for file contents `f`. */
  function Plan(f: seq<byte>, size: nat): seq<ByteRange>
    requires size > 0
  {
    PlanFrom(f, size, 0)
  }

  /**
   * `generate_chunks`, its lazy generator unrolled into a list. The loop only
   * terminates because `size > 0`: with a zero step the position would stay at
   * the end of the file for ever.
   */
  method GenerateChunks(f: seq<byte>, size: nat) returns (ranges: seq<ByteRange>)
    requires size > 0
    ensures ranges == Plan(f, size)
  {
    var fileEnd := |f|;          // os.path.getsize
    var chunkEnd := 0;           // fl.tell() on a freshly opened file
    ranges := [];
    while true
      invariant chunkEnd <= fileEnd
      invariant ranges + PlanFrom(f, size, chunkEnd) == Plan(f, size)
      decreases fileEnd - chunkEnd
    {
      var chunkStart := chunkEnd;
      var pos := chunkEnd + size;          // fl.seek(size, 1)
      chunkEnd := Advance(f, pos);         // fl.readline(); fl.tell()
      ranges := ranges + [ByteRange(chunkStart, chunkEnd)];
      if chunkEnd > fileEnd {
        break;
      }
      assert PlanFrom(f, size, chunkStart) == [ByteRange(chunkStart, chunkEnd)] + PlanFrom(f, size, chunkEnd);
    }
  }

  /** The ranges from `start` form a chain: the first starts at `start`, each next one where the previous ended. */
  lemma {:induction false} PlanFromChain(f: seq<byte>, size: nat, start: nat)
    requires size > 0 && start <= |f|
    ensures var p := PlanFrom(f, size, start);
      && |p| >= 1 && p[0].start == start
      && forall i :: 0 <= i < |p| - 1 ==> p[i].end == p[i + 1].start
    decreases |f| - start
  {
    var e := RangeEnd(f, size, start);
    if e <= |f| {
      PlanFromChain(f, size, e);
      var rest := PlanFrom(f, size, e);
      var p := [ByteRange(start, e)] + rest;
      assert p == PlanFrom(f, size, start);
      forall i | 0 <= i < |p| - 1
        ensures p[i].end == p[i + 1].start
      {
        if i > 0 {
          assert p[i] == rest[i - 1] && p[i + 1] == rest[i];
        }
      }
    }
  }

  /** Every range is at least `size` long; only the last one ends past the end of the file. */
  lemma {:induction false} PlanFromBounds(f: seq<byte>, size: nat, start: nat)
    requires size > 0 && start <= |f|
    ensures var p := PlanFrom(f, size, start);
      && (forall i :: 0 <= i < |p| ==> p[i].end >= p[i].start + size)
      && (forall i :: 0 <= i < |p| - 1 ==> p[i].end <= |f|)
      && p[|p| - 1].end > |f|
    decreases |f| - start
  {
    var e := RangeEnd(f, size, start);
    assert e >= start + size;
    if e <= |f| {
      PlanFromBounds(f, size, e);
      var rest := PlanFrom(f, size, e);
      var p := [ByteRange(start, e)] + rest;
      assert p == PlanFrom(f, size, start);
      forall i | 0 <= i < |p|
        ensures p[i].end >= p[i].start + size
        ensures i < |p| - 1 ==> p[i].end <= |f|
      {
        if i > 0 {
          assert p[i] == rest[i - 1];
        }
      }
      assert p[|p| - 1] == rest[|rest| - 1];
    }
  }

  /** Every range ends at a line start or at (or past) the end of the file. */
  lemma {:induction false} PlanFromAligned(f: seq<byte>, size: nat, start: nat)
    requires size > 0 && start <= |f|
    ensures forall i :: 0 <= i < |PlanFrom(f, size, start)| ==> Aligned(f, PlanFrom(f, size, start)[i].end)
    decreases |f| - start
  {
    var e := RangeEnd(f, size, start);
    AdvanceAligned(f, start + size);
    if e <= |f| {
      PlanFromAligned(f, size, e);
      var rest := PlanFrom(f, size, e);
      var p := [ByteRange(start, e)] + rest;
      assert p == PlanFrom(f, size, start);
      assert forall i :: 1 <= i < |p| ==> p[i] == rest[i - 1];
    }
  }

  /**
   * The shape of every plan: it starts at offset 0; each range starts where the
   * previous one ended; each is at least `size` long; every end but the last is
   * within the file and the last one overshoots it; and no end splits a line
   * (an end inside the file sits right after a '\n').
   */
  lemma PlanShape(f: seq<byte>, size: nat)
    requires size > 0
    ensures var p := Plan(f, size);
      && |p| >= 1 && p[0].start == 0
      && (forall i :: 0 <= i < |p| - 1 ==> p[i].end == p[i + 1].start)
      && (forall i :: 0 <= i < |p| ==> p[i].end >= p[i].start + size)
      && (forall i :: 0 <= i < |p| - 1 ==> p[i].end <= |f|)
      && p[|p| - 1].end > |f|
      && (forall i :: 0 <= i < |p| ==> p[i].end < |f| ==> f[p[i].end - 1] == NEWLINE)
  {
    PlanFromChain(f, size, 0);
    PlanFromBounds(f, size, 0);
    PlanFromAligned(f, size, 0);
  }

  /**
   * When a range ends exactly at the end of the file, the planner still yields
   * one more range, `(|f|, |f| + size)`, and that one is the last.
   */
  lemma {:induction false} EndAtEofAddsRange(f: seq<byte>, size: nat, start: nat, i: nat)
    requires size > 0 && start <= |f|
    requires i < |PlanFrom(f, size, start)| && PlanFrom(f, size, start)[i].end == |f|
    ensures i + 2 == |PlanFrom(f, size, start)|
    ensures PlanFrom(f, size, start)[i + 1] == ByteRange(|f|, |f| + size)
    decreases |f| - start
  {
    var e := RangeEnd(f, size, start);
    if i > 0 {
      EndAtEofAddsRange(f, size, e, i - 1);
    } else {
      assert PlanFrom(f, size, |f|) == [ByteRange(|f|, |f| + size)];
    }
  }

  /** An empty file is planned as the single range `(0, size)`. */
  lemma EmptyFilePlan(size: nat)
    requires size > 0
    ensures Plan([], size) == [ByteRange(0, size)]
  {
  }

  /**
   * Each position of the file lies in exactly one range, so each line, which
   * starts at some position, starts in exactly one range.
   */
  lemma PositionInOneRange(f: seq<byte>, size: nat, x: nat)
    requires size > 0 && x < |f|
    ensures exists i :: 0 <= i < |Plan(f, size)| && Plan(f, size)[i].start <= x < Plan(f, size)[i].end
    ensures forall i, j ::
              (0 <= i < |Plan(f, size)| && 0 <= j < |Plan(f, size)|
               && Plan(f, size)[i].start <= x < Plan(f, size)[i].end
               && Plan(f, size)[j].start <= x < Plan(f, size)[j].end)
              ==> i == j
  {
    var p := Plan(f, size);
    PlanShape(f, size);
    StartsIncrease(p);
    CoverFrom(p, x, 0);
  }

  /** In a contiguous chain of non-empty ranges, later ranges start later. */
  lemma StartsIncrease(p: seq<ByteRange>)
    requires forall i :: 0 <= i < |p| - 1 ==> p[i].end == p[i + 1].start
    requires forall i :: 0 <= i < |p| ==> p[i].end > p[i].start
    ensures forall i, j :: 0 <= i < j < |p| ==> p[i].end <= p[j].start
  {
    forall i, j | 0 <= i < j < |p|
      ensures p[i].end <= p[j].start
    {
      var k := i + 1;
      while k < j
        invariant i + 1 <= k <= j
        invariant p[i].end <= p[k].start
      {
        k := k + 1;
      }
    }
  }

  lemma {:induction false} CoverFrom(p: seq<ByteRange>, x: nat, i: nat)
    requires i < |p| && p[i].start <= x < p[|p| - 1].end
    requires forall k :: 0 <= k < |p| - 1 ==> p[k].end == p[k + 1].start
    ensures exists k :: i <= k < |p| && p[k].start <= x < p[k].end
    decreases |p| - i
  {
    if x >= p[i].end {
      CoverFrom(p, x, i + 1);
    }
  }
}
