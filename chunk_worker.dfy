/**
 * `process_chunk`: the worker that reads every line starting inside one byte
 * range, decodes it as JSON, and keeps the records that decode. The JSON
 * decoder itself (`json.loads`) is a parameter, `dec`.
 */
module ChunkWorker {
  import opened FileLines

  /** A decoded JSON value; numbers are kept as integers. */
  datatype Json =
    | JNull
    | JBool(b: bool)
    | JNumber(n: int)
    | JString(s: string)
    | JArray(items: seq<Json>)
    | JObject(fields: map<string, Json>)

  /** One decoded line of a JSON-lines file. */
  type Record = Json

  /**
   * What happens to one line: it decodes; `json.loads` raises
   * `JSONDecodeError` (the line is skipped); or some other exception is raised
   * while the line is read or decoded (the worker stops).
   */
  datatype Decoded = Parsed(record: Record) | Malformed | Failed

  /** One argument tuple of `process_chunk`: the file, a range, its encoding. */
  datatype Job = Job(path: string, start: nat, end: nat, encoding: string)

  /**
   * The records `process_chunk` collects from position `p` while `p < end`: one
   * line per step; a malformed line is skipped; an empty read (end of file)
   * stops; any other exception stops, keeping what was collected.
   */
  function ChunkRecords(f: seq<byte>, dec: seq<byte> -> Decoded, p: nat, end: nat): (rs: seq<Record>)
    ensures rs == [] || p + |rs| <= |f|
    ensures p >= end ==> rs == []
    decreases |f| - p
  {
    if p >= end || p >= |f| then []
    else
      match dec(Line(f, p))
      case Parsed(r) => [r] + ChunkRecords(f, dec, LineEnd(f, p), end)
      case Malformed => ChunkRecords(f, dec, LineEnd(f, p), end)
      case Failed => []
  }

  /** The lines' records in order, undecodable lines dropped. */
  function KeepParsed(lines: seq<seq<byte>>, dec: seq<byte> -> Decoded): (rs: seq<Record>)
    ensures |rs| <= |lines|
    ensures (forall i :: 0 <= i < |lines| ==> !dec(lines[i]).Parsed?) ==> rs == []
  {
    if lines == [] then []
    else
      match dec(lines[0])
      case Parsed(r) => [r] + KeepParsed(lines[1..], dec)
      case _ => KeepParsed(lines[1..], dec)
  }

  /** `process_chunk(job)` over file contents `f`. */
  method ProcessChunk(f: seq<byte>, dec: seq<byte> -> Decoded, job: Job) returns (temp: seq<Record>)
    ensures temp == ChunkRecords(f, dec, job.start, job.end)
  {
    temp := [];
    var pos := job.start;                  // fl.seek(pc_start)
    while pos < job.end                    // fl.tell() < pc_end
      invariant temp + ChunkRecords(f, dec, pos, job.end) == ChunkRecords(f, dec, job.start, job.end)
      decreases |f| - pos
    {
      if pos >= |f| {
        break;                             // readline() returned '': end of file
      }
      var line := Line(f, pos);            // fl.readline()
      var was := pos;
      pos := LineEnd(f, pos);
      match dec(line) {
        case Parsed(r) =>
          temp := temp + [r];
          assert ChunkRecords(f, dec, was, job.end) == [r] + ChunkRecords(f, dec, pos, job.end);
        case Malformed =>                  // logged, then `continue`
        case Failed =>                     // caught by the outer handler: return what was gathered
          assert ChunkRecords(f, dec, was, job.end) == [];
          return;
      }
    }
  }

  /** No line from `p` on makes the decoder raise anything but a decode error. */
  ghost predicate NoFailureFrom(f: seq<byte>, dec: seq<byte> -> Decoded, p: nat)
  {
    forall l :: l in LinesFrom(f, p) ==> !dec(l).Failed?
  }

  /**
   * Reading from `p` up to a line start `e` and then on to the end of the file
   * gives the same records as reading from `p` to the end of the file: the
   * range boundary at `e` neither loses nor repeats a line.
   */
  lemma {:induction false} ChunkThenRest(f: seq<byte>, dec: seq<byte> -> Decoded, p: nat, e: nat)
    requires p <= e && Aligned(f, e)
    requires NoFailureFrom(f, dec, p)
    ensures ChunkRecords(f, dec, p, e) + KeepParsed(LinesFrom(f, e), dec) == KeepParsed(LinesFrom(f, p), dec)
    decreases |f| - p
  {
    if p >= |f| {
    } else if p == e {
    } else {
      var q := LineEnd(f, p);
      LineEndStopsAtLineStart(f, p, e);
      assert LinesFrom(f, p) == [Line(f, p)] + LinesFrom(f, q);
      assert LinesFrom(f, p)[1..] == LinesFrom(f, q);
      assert Line(f, p) in LinesFrom(f, p);
      ChunkThenRest(f, dec, q, e);
    }
  }

  /** A range that starts at or past the end of the file yields no records. */
  lemma RangeAtEofIsEmpty(f: seq<byte>, dec: seq<byte> -> Decoded, p: nat, e: nat)
    requires p >= |f|
    ensures ChunkRecords(f, dec, p, e) == []
  {
  }

  /**
   * A skipped line does not stop the worker: a malformed line at `p` is
   * dropped and the records of the following lines are still collected.
   */
  lemma MalformedLineSkipped(f: seq<byte>, dec: seq<byte> -> Decoded, p: nat, e: nat)
    requires p < e && p < |f| && dec(Line(f, p)).Malformed?
    ensures ChunkRecords(f, dec, p, e) == ChunkRecords(f, dec, LineEnd(f, p), e)
  {
  }

  /**
   * The worker reads only lines that start inside its range: each record it
   * returns is the decoded line read at a position `q` in `[p, e)` that is
   * `p` itself or just after a '\n', so a line start when `p` is one.
   */
  lemma {:induction false} ChunkRecordsFromRange(f: seq<byte>, dec: seq<byte> -> Decoded, p: nat, e: nat, i: nat)
    requires i < |ChunkRecords(f, dec, p, e)|
    ensures exists q :: p <= q < e && q < |f| && (q == p || Aligned(f, q)) && dec(Line(f, q)) == Parsed(ChunkRecords(f, dec, p, e)[i])
    decreases |f| - p
  {
    var q := LineEnd(f, p);
    match dec(Line(f, p))
    case Parsed(r) =>
      if i > 0 {
        ChunkRecordsFromRange(f, dec, q, e, i - 1);
      }
    case Malformed =>
      ChunkRecordsFromRange(f, dec, q, e, i);
    case Failed =>
  }
}
