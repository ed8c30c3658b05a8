/**
 * `load_json_parallel` and `load_json`: the parallel loader that plans
 * line-aligned ranges, runs one `process_chunk` job per range and concatenates
 * the results in range order, and the serial loader that decodes the file line
 * by line. The worker pool is modelled as an order-preserving sequential map.
 */
module JsonIngest {
  import opened Wrappers
  import opened FileLines
  import opened ChunkPlanner
  import opened ChunkWorker

  /** `generate_chunks`' default range size, 1 MiB. */
  const CHUNK_SIZE: nat := 1024 * 1024

  datatype IngestError =
    | PoolStartFailed              // `Pool(processes=n)` raises ValueError for n < 1
    | LineDecodeFailed(line: nat)  // `json.loads` raised on this line (0-based)

  /** `num_workers`, defaulting to `cpu_count() - 1` when None. */
  function WorkerCount(numWorkers: Option<int>, cpus: nat): int
  {
    if numWorkers.None? then cpus - 1 else numWorkers.value
  }

  /** `[row for result in results for row in result]`. */
  function Concat(results: seq<seq<Record>>): (rows: seq<Record>)
    ensures results == [] ==> rows == []
  {
    if results == [] then [] else results[0] + Concat(results[1..])
  }

  /** What each planned range yields, in planner order. */
  function ChunkOutputs(f: seq<byte>, dec: seq<byte> -> Decoded, ranges: seq<ByteRange>): (outs: seq<seq<Record>>)
    ensures |outs| == |ranges|
    ensures forall i :: 0 <= i < |ranges| ==> outs[i] == ChunkRecords(f, dec, ranges[i].start, ranges[i].end)
  {
    seq(|ranges|, i requires 0 <= i < |ranges| => ChunkRecords(f, dec, ranges[i].start, ranges[i].end))
  }

  /** The rows of the parallel loader for ranges of `size` bytes. */
  function ParallelRows(f: seq<byte>, dec: seq<byte> -> Decoded, size: nat): seq<Record>
    requires size > 0
  {
    Concat(ChunkOutputs(f, dec, Plan(f, size)))
  }

  /**
   * `load_json_parallel(path, encoding, num_workers)` over file contents `f`;
   * `cpus` is what `cpu_count()` returns. The rows are the per-range records
   * concatenated in range order; which worker count is used does not change
   * them, but a count below one makes the pool constructor raise, which is
   * what the default does on a single-processor host.
   */
  method LoadJsonParallel(f: seq<byte>, dec: seq<byte> -> Decoded, path: string, encoding: string,
                          numWorkers: Option<int>, cpus: nat)
    returns (r: Result<seq<Record>, IngestError>)
    ensures WorkerCount(numWorkers, cpus) < 1 <==> r == Failure(PoolStartFailed)
    ensures WorkerCount(numWorkers, cpus) >= 1 ==> r == Success(ParallelRows(f, dec, CHUNK_SIZE))
    ensures numWorkers.None? && cpus <= 1 ==> r.Failure?
  {
    var workers := WorkerCount(numWorkers, cpus);
    if workers < 1 {
      return Failure(PoolStartFailed);
    }
    var jobs: seq<Job> := [];
    var ranges := GenerateChunks(f, CHUNK_SIZE);
    var k := 0;
    while k < |ranges|
      invariant k <= |ranges|
      invariant |jobs| == k
      invariant forall i :: 0 <= i < k ==> jobs[i] == Job(path, ranges[i].start, ranges[i].end, encoding)
    {
      jobs := jobs + [Job(path, ranges[k].start, ranges[k].end, encoding)];
      k := k + 1;
    }
    // pool.map(process_chunk, jobs): results come back in job order
    var results: seq<seq<Record>> := [];
    k := 0;
    while k < |jobs|
      invariant k <= |jobs|
      invariant results == ChunkOutputs(f, dec, ranges)[..k]
    {
      var out := ProcessChunk(f, dec, jobs[k]);
      results := results + [out];
      k := k + 1;
    }
    assert results == ChunkOutputs(f, dec, ranges);
    r := Success(Concat(results));
  }

  /**
   * Concatenating the outputs of the ranges planned from a line start `start`
   * gives the records of every line from `start` on, in file order.
   */
  lemma {:induction false} PlanOutputsFrom(f: seq<byte>, dec: seq<byte> -> Decoded, size: nat, start: nat)
    requires size > 0 && start <= |f| && Aligned(f, start)
    requires NoFailureFrom(f, dec, start)
    ensures Concat(ChunkOutputs(f, dec, PlanFrom(f, size, start))) == KeepParsed(LinesFrom(f, start), dec)
    decreases |f| - start
  {
    var e := RangeEnd(f, size, start);
    AdvanceAligned(f, start + size);
    var outs := ChunkOutputs(f, dec, PlanFrom(f, size, start));
    ChunkThenRest(f, dec, start, e);
    if e > |f| {
      assert outs == [ChunkRecords(f, dec, start, e)];
      assert Concat(outs) == ChunkRecords(f, dec, start, e) + Concat([]);
    } else {
      var k := LinesFromTail(f, start, e);
      assert forall l :: l in LinesFrom(f, e) ==> l in LinesFrom(f, start)[k..];
      PlanOutputsFrom(f, dec, size, e);
      var rest := ChunkOutputs(f, dec, PlanFrom(f, size, e));
      assert outs == [ChunkRecords(f, dec, start, e)] + rest;
      assert outs[1..] == rest;
    }
  }

  /**
   * The parallel loader's main guarantee: when no line makes the decoder raise
   * anything but a decode error, concatenating the range outputs gives the
   * file's lines decoded in file order, with undecodable lines dropped, for
   * every range size.
   */
  lemma ParallelMatchesLineScan(f: seq<byte>, dec: seq<byte> -> Decoded, size: nat)
    requires size > 0
    requires forall l :: l in Lines(f) ==> !dec(l).Failed?
    ensures ParallelRows(f, dec, size) == KeepParsed(Lines(f), dec)
  {
    PlanOutputsFrom(f, dec, size, 0);
  }

  /** The rows do not depend on how the file is cut into ranges. */
  lemma RangeSizeIrrelevant(f: seq<byte>, dec: seq<byte> -> Decoded, size1: nat, size2: nat)
    requires size1 > 0 && size2 > 0
    requires forall l :: l in Lines(f) ==> !dec(l).Failed?
    ensures ParallelRows(f, dec, size1) == ParallelRows(f, dec, size2)
  {
    ParallelMatchesLineScan(f, dec, size1);
    ParallelMatchesLineScan(f, dec, size2);
  }

  /** How many lines `load_json` reads: all of them, or `line_limit + 1` at most. */
  function ReadCount(n: nat, lineLimit: Option<nat>): (k: nat)
    ensures k <= n
    ensures lineLimit.None? ==> k == n
    ensures lineLimit.Some? ==> k == if n <= lineLimit.value then n else lineLimit.value + 1
  {
    match lineLimit
    case None => n
    case Some(limit) => if n <= limit + 1 then n else limit + 1
  }

  /** Decoding the given lines in order; the first line `json.loads` rejects aborts the load. */
  function DecodeAll(lines: seq<seq<byte>>, dec: seq<byte> -> Decoded): Result<seq<Record>, IngestError>
  {
    if lines == [] then Success([])
    else
      match DecodeAll(lines[..|lines| - 1], dec)
      case Failure(e) => Failure(e)
      case Success(rs) =>
        match dec(lines[|lines| - 1])
        case Parsed(r) => Success(rs + [r])
        case _ => Failure(LineDecodeFailed(|lines| - 1))
  }

  /** What `load_json(path, line_limit)` returns for file contents `f`. */
  function SerialLoad(f: seq<byte>, dec: seq<byte> -> Decoded, lineLimit: Option<nat>): Result<seq<Record>, IngestError>
  {
    DecodeAll(Lines(f)[..ReadCount(|Lines(f)|, lineLimit)], dec)
  }

  /**
   * `load_json(path, line_limit)`: decode every line in order with no error
   * handling; after appending line `i` it stops once `i + 1 > line_limit`.
   */
  method LoadJson(f: seq<byte>, dec: seq<byte> -> Decoded, lineLimit: Option<nat>)
    returns (r: Result<seq<Record>, IngestError>)
    ensures r == SerialLoad(f, dec, lineLimit)
  {
    ghost var lines := Lines(f);
    ghost var k := ReadCount(|lines|, lineLimit);
    var temp: seq<Record> := [];
    var pos := 0;
    var i := 0;
    while pos < |f|
      invariant i <= k
      invariant lineLimit.Some? ==> i <= lineLimit.value
      invariant LinesFrom(f, pos) == lines[i..]
      invariant DecodeAll(lines[..i], dec) == Success(temp)
      decreases |f| - pos
    {
      var line := Line(f, pos);
      assert lines[i..] == [line] + LinesFrom(f, LineEnd(f, pos));
      assert lines[..i + 1][..i] == lines[..i];
      pos := LineEnd(f, pos);
      match dec(line) {
        case Parsed(rec) =>
          temp := temp + [rec];
        case _ =>
          assert DecodeAll(lines[..i + 1], dec) == Failure(LineDecodeFailed(i));
          DecodeAllFailureStays(lines, dec, i + 1, k);
          return Failure(LineDecodeFailed(i));
      }
      i := i + 1;
      assert lines[i..] == LinesFrom(f, pos);
      if lineLimit.Some? && i > lineLimit.value {
        break;
      }
    }
    assert i == k;
    r := Success(temp);
  }

  /** Once a prefix of the lines fails to decode, every longer prefix fails the same way. */
  lemma {:induction false} DecodeAllFailureStays(lines: seq<seq<byte>>, dec: seq<byte> -> Decoded, j: nat, j': nat)
    requires j <= j' <= |lines|
    requires DecodeAll(lines[..j], dec).Failure?
    ensures DecodeAll(lines[..j'], dec) == DecodeAll(lines[..j], dec)
    decreases j' - j
  {
    if j < j' {
      DecodeAllFailureStays(lines, dec, j, j' - 1);
      assert lines[..j'][..j' - 1] == lines[..j' - 1];
    }
  }

  /** Decoding succeeds exactly when every line decodes, and then yields each line's record. */
  lemma {:induction false} DecodeAllMeaning(lines: seq<seq<byte>>, dec: seq<byte> -> Decoded)
    ensures DecodeAll(lines, dec).Success? <==> forall i :: 0 <= i < |lines| ==> dec(lines[i]).Parsed?
    ensures DecodeAll(lines, dec).Success? ==>
      |DecodeAll(lines, dec).value| == |lines|
      && forall i :: 0 <= i < |lines| ==> DecodeAll(lines, dec).value[i] == dec(lines[i]).record
  {
    if lines != [] {
      var init := lines[..|lines| - 1];
      DecodeAllMeaning(init, dec);
      assert forall i :: 0 <= i < |init| ==> init[i] == lines[i];
    }
  }

  /**
   * `load_json` with `line_limit = L` reads the first `min(n, L + 1)` lines of
   * an `n`-line file, and succeeds exactly when each of those decodes.
   */
  lemma SerialLoadReadsPrefix(f: seq<byte>, dec: seq<byte> -> Decoded, lineLimit: Option<nat>)
    ensures var k := ReadCount(|Lines(f)|, lineLimit);
      && (SerialLoad(f, dec, lineLimit).Success? <==> forall i :: 0 <= i < k ==> dec(Lines(f)[i]).Parsed?)
      && (SerialLoad(f, dec, lineLimit).Success? ==>
            |SerialLoad(f, dec, lineLimit).value| == k
            && forall i :: 0 <= i < k ==> SerialLoad(f, dec, lineLimit).value[i] == dec(Lines(f)[i]).record)
  {
    var k := ReadCount(|Lines(f)|, lineLimit);
    DecodeAllMeaning(Lines(f)[..k], dec);
  }

  lemma {:induction false} AllParsedKeep(lines: seq<seq<byte>>, dec: seq<byte> -> Decoded)
    requires forall i :: 0 <= i < |lines| ==> dec(lines[i]).Parsed?
    ensures DecodeAll(lines, dec) == Success(KeepParsed(lines, dec))
  {
    DecodeAllMeaning(lines, dec);
    var rs := DecodeAll(lines, dec).value;
    KeepAllParsed(lines, dec);
    assert rs == KeepParsed(lines, dec);
  }

  lemma {:induction false} KeepAllParsed(lines: seq<seq<byte>>, dec: seq<byte> -> Decoded)
    requires forall i :: 0 <= i < |lines| ==> dec(lines[i]).Parsed?
    ensures |KeepParsed(lines, dec)| == |lines|
    ensures forall i :: 0 <= i < |lines| ==> KeepParsed(lines, dec)[i] == dec(lines[i]).record
  {
    if lines != [] {
      KeepAllParsed(lines[1..], dec);
    }
  }

  /**
   * With no line limit and every line decodable, the serial and the parallel
   * loader return the same rows in the same order, whatever the range size.
   */
  lemma SerialMatchesParallel(f: seq<byte>, dec: seq<byte> -> Decoded, size: nat)
    requires size > 0
    requires forall l :: l in Lines(f) ==> dec(l).Parsed?
    ensures SerialLoad(f, dec, None) == Success(ParallelRows(f, dec, size))
  {
    ParallelMatchesLineScan(f, dec, size);
    assert Lines(f)[..|Lines(f)|] == Lines(f);
    AllParsedKeep(Lines(f), dec);
  }
}
