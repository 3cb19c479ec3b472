/**
 * The body of the `k8split` command (main.go:41-119): choose the separator,
 * cut the input into chunks, and for each chunk in document order either
 * skip it, write it under the file name of the resource it describes, or end
 * the run. Effects are modelled as values: the YAML parser is the function
 * `parse`, the host's operating system the flag `onWindows`, and whether the
 * file system accepts a write the predicate `writeOk`; the result is the list
 * of files written, in order, and the fault that ended the run, if any.
 */
module Splitter {

  import opened Options
  import opened Bytes
  import opened Chunking
  import opened Manifest

  /** Why a run ended early; `index` is the position of the offending chunk. */
  datatype Fault =
    | ParseError(index: nat)
    | SchemaError(index: nat, problem: Problem)
    | WriteError(index: nat, filename: string)

  /** One file written into the output directory. */
  datatype Write = Write(filename: string, content: Bytes)

  /** The files written, in order, and the fault that ended the run, if any. */
  datatype Report = Report(writes: seq<Write>, fault: Option<Fault>)

  /** What one chunk makes the run do. */
  datatype Action = Skip | Emit(write: Write) | Abort(fault: Fault)

  function Prepend(ws: seq<Write>, r: Report): Report {
    Report(ws + r.writes, r.fault)
  }

  /** The file a chunk would be written to, if it describes a resource. */
  function Target(chunk: Bytes, parse: Bytes -> Parsed): Option<string> {
    match Examine(parse(chunk))
    case Resource(id) => Some(Filename(id))
    case _ => None
  }

  /**
   * One pass of the loop (main.go:73-117), given the files already created:
   * a blank document or a file already written is skipped; a new file is
   * written as the chunk plus a newline; anything malformed, or a write that
   * fails, ends the run.
   */
  function Step(chunk: Bytes, index: nat, created: set<string>, parse: Bytes -> Parsed, writeOk: string -> bool): (a: Action)
    ensures a == Skip <==>
      Examine(parse(chunk)) == Blank || (Target(chunk, parse).Some? && Target(chunk, parse).value in created)
    ensures a.Emit? <==>
      Target(chunk, parse).Some? && Target(chunk, parse).value !in created && writeOk(Target(chunk, parse).value)
    ensures a.Emit? ==> a.write == Write(Target(chunk, parse).value, chunk + [LF])
    ensures a.Abort? ==> a.fault.index == index
  {
    match Examine(parse(chunk))
    case Unreadable => Abort(ParseError(index))
    case Blank => Skip
    case Invalid(problem) => Abort(SchemaError(index, problem))
    case Resource(id) =>
      var filename := Filename(id);
      if filename in created then Skip
      else if !writeOk(filename) then Abort(WriteError(index, filename))
      else Emit(Write(filename, chunk + [LF]))
  }

  /**
   * Which fault a chunk raises: a parse error for a chunk that does not
   * parse (main.go:75-77), a schema error naming the missing field for an
   * invalid document (main.go:85-86, 89-92, 95-97), and a write error naming
   * the file for a new file whose write fails (main.go:114-117).
   */
  lemma StepFaults(chunk: Bytes, index: nat, created: set<string>, parse: Bytes -> Parsed, writeOk: string -> bool)
    ensures var a := Step(chunk, index, created, parse, writeOk);
      && (a == Abort(ParseError(index)) <==> Examine(parse(chunk)) == Unreadable)
      && (Examine(parse(chunk)).Invalid? ==> a == Abort(SchemaError(index, Examine(parse(chunk)).problem)))
      && (a.Abort? && a.fault.SchemaError? ==> Examine(parse(chunk)).Invalid?)
      && ((a.Abort? && a.fault.WriteError?) <==>
          Target(chunk, parse).Some? && Target(chunk, parse).value !in created && !writeOk(Target(chunk, parse).value))
      && (a.Abort? && a.fault.WriteError? ==> a.fault == WriteError(index, Target(chunk, parse).value))
  {
  }

  /** The run from chunk `i` on, with `created` the files already written. */
  function Process(chunks: seq<Bytes>, i: nat, created: set<string>, parse: Bytes -> Parsed, writeOk: string -> bool): (r: Report)
    requires i <= |chunks|
    ensures r.fault.Some? ==> i <= r.fault.value.index < |chunks|
    ensures |r.writes| <= |chunks| - i
    decreases |chunks| - i
  {
    if i == |chunks| then Report([], None)
    else match Step(chunks[i], i, created, parse, writeOk)
      case Skip => Process(chunks, i + 1, created, parse, writeOk)
      case Emit(w) => Prepend([w], Process(chunks, i + 1, created + {w.filename}, parse, writeOk))
      case Abort(f) => Report([], Some(f))
  }

  /** The whole run on input `d`. */
  function Outcome(d: Bytes, onWindows: bool, parse: Bytes -> Parsed, writeOk: string -> bool): (r: Report)
    ensures r.fault.Some? ==> r.fault.value.index < |Chunks(d, Separator(d, onWindows))|
    ensures |r.writes| <= |Chunks(d, Separator(d, onWindows))|
  {
    Process(Chunks(d, Separator(d, onWindows)), 0, {}, parse, writeOk)
  }

  /** The position of the chunk behind each write of Process. */
  ghost function Origins(chunks: seq<Bytes>, i: nat, created: set<string>, parse: Bytes -> Parsed, writeOk: string -> bool): seq<nat>
    requires i <= |chunks|
    decreases |chunks| - i
  {
    if i == |chunks| then []
    else match Step(chunks[i], i, created, parse, writeOk)
      case Skip => Origins(chunks, i + 1, created, parse, writeOk)
      case Emit(w) => [i] + Origins(chunks, i + 1, created + {w.filename}, parse, writeOk)
      case Abort(f) => []
  }

  /**
   * Chunk `k` is the first chunk from position `i` on that describes its
   * file, and that file is not among `created`.
   */
  ghost predicate FirstOccurrence(chunks: seq<Bytes>, i: nat, created: set<string>, parse: Bytes -> Parsed, k: int) {
    && i <= k < |chunks|
    && Target(chunks[k], parse).Some?
    && Target(chunks[k], parse).value !in created
    && forall j :: i <= j < k ==> Target(chunks[j], parse) != Target(chunks[k], parse)
  }

  /** Chunk `k` ends the run if the run reaches it: it is malformed, or its write is due and fails. */
  ghost predicate Faulty(chunks: seq<Bytes>, i: nat, created: set<string>, parse: Bytes -> Parsed, writeOk: string -> bool, k: int) {
    && i <= k < |chunks|
    && (|| Examine(parse(chunks[k])).Unreadable?
        || Examine(parse(chunks[k])).Invalid?
        || (FirstOccurrence(chunks, i, created, parse, k) && !writeOk(Target(chunks[k], parse).value)))
  }

  /** Each write comes from the chunk at the same position of `origins`, a first occurrence, in document order. */
  ghost predicate Traced(chunks: seq<Bytes>, i: nat, created: set<string>, parse: Bytes -> Parsed, r: Report, origins: seq<nat>) {
    && |origins| == |r.writes|
    && (forall m :: 0 <= m < |origins| ==>
          && FirstOccurrence(chunks, i, created, parse, origins[m])
          && r.writes[m] == Write(Target(chunks[origins[m]], parse).value, chunks[origins[m]] + [LF]))
    && (forall a, b :: 0 <= a < b < |origins| ==> origins[a] < origins[b])
  }

  /** Every first occurrence before `bound` is written. */
  ghost predicate Covers(chunks: seq<Bytes>, i: nat, created: set<string>, parse: Bytes -> Parsed, origins: seq<nat>, bound: int) {
    forall k :: FirstOccurrence(chunks, i, created, parse, k) && k < bound ==> k in origins
  }

  /** The run stopped at the first faulty chunk, and nothing at or after it was written. */
  ghost predicate StopsAt(chunks: seq<Bytes>, i: nat, created: set<string>, parse: Bytes -> Parsed, writeOk: string -> bool,
                          origins: seq<nat>, stop: nat) {
    && Faulty(chunks, i, created, parse, writeOk, stop)
    && (forall k :: i <= k < stop ==> !Faulty(chunks, i, created, parse, writeOk, k))
    && (forall m :: 0 <= m < |origins| ==> origins[m] < stop)
  }

  /** How far the run got: the faulty chunk, or past the last chunk. */
  function Reach(chunks: seq<Bytes>, r: Report): int {
    if r.fault.Some? then r.fault.value.index else |chunks|
  }

  /**
   * `r` is the report of a run from chunk `i` whose writes come from the
   * chunks at `origins`: the writes are the first occurrences of their files,
   * in document order, each the chunk plus a newline; every first occurrence
   * before the run's end is written; and a run with a fault stopped at the
   * first faulty chunk, writing nothing at or after it, while a run without
   * a fault met no faulty chunk at all.
   */
  ghost predicate Characterised(chunks: seq<Bytes>, i: nat, created: set<string>, parse: Bytes -> Parsed,
                                writeOk: string -> bool, r: Report, origins: seq<nat>)
  {
    && Traced(chunks, i, created, parse, r, origins)
    && Covers(chunks, i, created, parse, origins, Reach(chunks, r))
    && (r.fault.Some? ==> StopsAt(chunks, i, created, parse, writeOk, origins, r.fault.value.index))
    && (r.fault.None? ==> Clean(chunks, i, created, parse, writeOk))
  }

  /** No chunk from `i` on is faulty. */
  ghost predicate Clean(chunks: seq<Bytes>, i: nat, created: set<string>, parse: Bytes -> Parsed, writeOk: string -> bool) {
    forall k :: !Faulty(chunks, i, created, parse, writeOk, k)
  }

  /** Skipping chunk `i` changes nothing about which later chunks are first occurrences or faulty. */
  lemma ShiftPastSkip(chunks: seq<Bytes>, i: nat, created: set<string>, parse: Bytes -> Parsed, writeOk: string -> bool, k: int)
    requires i < k < |chunks|
    requires Step(chunks[i], i, created, parse, writeOk) == Skip
    ensures FirstOccurrence(chunks, i, created, parse, k) <==> FirstOccurrence(chunks, i + 1, created, parse, k)
    ensures Faulty(chunks, i, created, parse, writeOk, k) <==> Faulty(chunks, i + 1, created, parse, writeOk, k)
  {
  }

  /** Writing chunk `i` to file `n` turns "first from `i` on" into "first from `i + 1` on, and not `n`". */
  lemma ShiftPastEmit(chunks: seq<Bytes>, i: nat, created: set<string>, parse: Bytes -> Parsed, writeOk: string -> bool, k: int)
    requires i < k < |chunks|
    requires Step(chunks[i], i, created, parse, writeOk).Emit?
    ensures var n := Step(chunks[i], i, created, parse, writeOk).write.filename;
      && (FirstOccurrence(chunks, i, created, parse, k) <==> FirstOccurrence(chunks, i + 1, created + {n}, parse, k))
      && (Faulty(chunks, i, created, parse, writeOk, k) <==> Faulty(chunks, i + 1, created + {n}, parse, writeOk, k))
  {
  }

  /** The state after handling chunk `i`: the created files, grown by the one written, if any. */
  function CreatedAfter(chunks: seq<Bytes>, i: nat, created: set<string>, parse: Bytes -> Parsed, writeOk: string -> bool): set<string>
    requires i < |chunks|
  {
    match Step(chunks[i], i, created, parse, writeOk)
    case Emit(w) => created + {w.filename}
    case _ => created
  }

  /** Handling chunk `i` without fault shifts first occurrences and faults from `i` to `i + 1`. */
  lemma ShiftPast(chunks: seq<Bytes>, i: nat, created: set<string>, parse: Bytes -> Parsed, writeOk: string -> bool)
    requires i < |chunks|
    requires !Step(chunks[i], i, created, parse, writeOk).Abort?
    ensures var c' := CreatedAfter(chunks, i, created, parse, writeOk);
      forall k :: i < k < |chunks| ==>
        && (FirstOccurrence(chunks, i, created, parse, k) <==> FirstOccurrence(chunks, i + 1, c', parse, k))
        && (Faulty(chunks, i, created, parse, writeOk, k) <==> Faulty(chunks, i + 1, c', parse, writeOk, k))
    ensures !Faulty(chunks, i, created, parse, writeOk, i)
    ensures FirstOccurrence(chunks, i, created, parse, i) <==> Step(chunks[i], i, created, parse, writeOk).Emit?
  {
    forall k | i < k < |chunks|
      ensures var c' := CreatedAfter(chunks, i, created, parse, writeOk);
        && (FirstOccurrence(chunks, i, created, parse, k) <==> FirstOccurrence(chunks, i + 1, c', parse, k))
        && (Faulty(chunks, i, created, parse, writeOk, k) <==> Faulty(chunks, i + 1, c', parse, writeOk, k))
    {
      if Step(chunks[i], i, created, parse, writeOk).Emit? {
        ShiftPastEmit(chunks, i, created, parse, writeOk, k);
      } else {
        ShiftPastSkip(chunks, i, created, parse, writeOk, k);
      }
    }
  }

  /** One step of Process and Origins when chunk `i` does not end the run. */
  lemma Unfold(chunks: seq<Bytes>, i: nat, created: set<string>, parse: Bytes -> Parsed, writeOk: string -> bool)
    requires i < |chunks|
    requires !Step(chunks[i], i, created, parse, writeOk).Abort?
    ensures var a := Step(chunks[i], i, created, parse, writeOk);
      var c' := CreatedAfter(chunks, i, created, parse, writeOk);
      && Process(chunks, i, created, parse, writeOk)
         == Prepend(if a.Emit? then [a.write] else [], Process(chunks, i + 1, c', parse, writeOk))
      && Origins(chunks, i, created, parse, writeOk)
         == (if a.Emit? then [i] else []) + Origins(chunks, i + 1, c', parse, writeOk)
  {
    var a := Step(chunks[i], i, created, parse, writeOk);
    if a.Emit? {
      var c' := created + {a.write.filename};
      assert Process(chunks, i, created, parse, writeOk) == Prepend([a.write], Process(chunks, i + 1, c', parse, writeOk));
      assert Origins(chunks, i, created, parse, writeOk) == [i] + Origins(chunks, i + 1, c', parse, writeOk);
    } else {
      assert a == Skip;
    }
  }

  /** Prepending the write of first occurrence `i` to a traced run from `i + 1` gives a traced run from `i`. */
  lemma TracedCons(chunks: seq<Bytes>, i: nat, created: set<string>, c': set<string>, parse: Bytes -> Parsed,
                   r: Report, r': Report, o: seq<nat>, o': seq<nat>)
    requires i < |chunks|
    requires FirstOccurrence(chunks, i, created, parse, i)
    requires forall k :: i < k < |chunks| ==>
      (FirstOccurrence(chunks, i, created, parse, k) <==> FirstOccurrence(chunks, i + 1, c', parse, k))
    requires r.writes == [Write(Target(chunks[i], parse).value, chunks[i] + [LF])] + r'.writes && o == [i] + o'
    requires Traced(chunks, i + 1, c', parse, r', o')
    ensures Traced(chunks, i, created, parse, r, o)
  {
    forall m | 0 <= m < |o|
      ensures FirstOccurrence(chunks, i, created, parse, o[m])
      ensures r.writes[m] == Write(Target(chunks[o[m]], parse).value, chunks[o[m]] + [LF])
    {
      if m > 0 {
        assert o[m] == o'[m - 1] && r.writes[m] == r'.writes[m - 1];
      }
    }
    forall x, y | 0 <= x < y < |o| ensures o[x] < o[y] {
      assert o[y] == o'[y - 1];
      if x > 0 {
        assert o[x] == o'[x - 1];
      }
    }
  }

  /** TracedAfter when chunk `i` is written. */
  lemma TracedAfterEmit(chunks: seq<Bytes>, i: nat, created: set<string>, parse: Bytes -> Parsed, writeOk: string -> bool)
    requires i < |chunks|
    requires Step(chunks[i], i, created, parse, writeOk).Emit?
    requires var c' := CreatedAfter(chunks, i, created, parse, writeOk);
      Traced(chunks, i + 1, c', parse, Process(chunks, i + 1, c', parse, writeOk), Origins(chunks, i + 1, c', parse, writeOk))
    ensures Traced(chunks, i, created, parse, Process(chunks, i, created, parse, writeOk), Origins(chunks, i, created, parse, writeOk))
  {
    var a := Step(chunks[i], i, created, parse, writeOk);
    var c' := CreatedAfter(chunks, i, created, parse, writeOk);
    var r, r' := Process(chunks, i, created, parse, writeOk), Process(chunks, i + 1, c', parse, writeOk);
    var o, o' := Origins(chunks, i, created, parse, writeOk), Origins(chunks, i + 1, c', parse, writeOk);
    ShiftPast(chunks, i, created, parse, writeOk);
    Unfold(chunks, i, created, parse, writeOk);
    assert r.writes == [a.write] + r'.writes && o == [i] + o';
    TracedCons(chunks, i, created, c', parse, r, r', o, o');
  }

  lemma TracedAfter(chunks: seq<Bytes>, i: nat, created: set<string>, parse: Bytes -> Parsed, writeOk: string -> bool)
    requires i < |chunks|
    requires !Step(chunks[i], i, created, parse, writeOk).Abort?
    requires var c' := CreatedAfter(chunks, i, created, parse, writeOk);
      Traced(chunks, i + 1, c', parse, Process(chunks, i + 1, c', parse, writeOk), Origins(chunks, i + 1, c', parse, writeOk))
    ensures Traced(chunks, i, created, parse, Process(chunks, i, created, parse, writeOk), Origins(chunks, i, created, parse, writeOk))
  {
    if Step(chunks[i], i, created, parse, writeOk).Emit? {
      TracedAfterEmit(chunks, i, created, parse, writeOk);
    } else {
      var c' := CreatedAfter(chunks, i, created, parse, writeOk);
      ShiftPast(chunks, i, created, parse, writeOk);
      Unfold(chunks, i, created, parse, writeOk);
      assert Process(chunks, i, created, parse, writeOk).writes == Process(chunks, i + 1, c', parse, writeOk).writes;
      assert Origins(chunks, i, created, parse, writeOk) == Origins(chunks, i + 1, c', parse, writeOk);
    }
  }

  lemma CoversAfter(chunks: seq<Bytes>, i: nat, created: set<string>, parse: Bytes -> Parsed, writeOk: string -> bool)
    requires i < |chunks|
    requires !Step(chunks[i], i, created, parse, writeOk).Abort?
    requires var c' := CreatedAfter(chunks, i, created, parse, writeOk);
      var r' := Process(chunks, i + 1, c', parse, writeOk);
      Covers(chunks, i + 1, c', parse, Origins(chunks, i + 1, c', parse, writeOk), Reach(chunks, r'))
    ensures var r := Process(chunks, i, created, parse, writeOk);
      Covers(chunks, i, created, parse, Origins(chunks, i, created, parse, writeOk), Reach(chunks, r))
  {
    ShiftPast(chunks, i, created, parse, writeOk);
    Unfold(chunks, i, created, parse, writeOk);
  }

  lemma StopsAfter(chunks: seq<Bytes>, i: nat, created: set<string>, parse: Bytes -> Parsed, writeOk: string -> bool)
    requires i < |chunks|
    requires !Step(chunks[i], i, created, parse, writeOk).Abort?
    requires var c' := CreatedAfter(chunks, i, created, parse, writeOk);
      var r' := Process(chunks, i + 1, c', parse, writeOk);
      r'.fault.Some? ==> StopsAt(chunks, i + 1, c', parse, writeOk, Origins(chunks, i + 1, c', parse, writeOk), r'.fault.value.index)
    ensures var r := Process(chunks, i, created, parse, writeOk);
      r.fault.Some? ==> StopsAt(chunks, i, created, parse, writeOk, Origins(chunks, i, created, parse, writeOk), r.fault.value.index)
  {
    ShiftPast(chunks, i, created, parse, writeOk);
    Unfold(chunks, i, created, parse, writeOk);
  }

  lemma CleanAfter(chunks: seq<Bytes>, i: nat, created: set<string>, parse: Bytes -> Parsed, writeOk: string -> bool)
    requires i < |chunks|
    requires !Step(chunks[i], i, created, parse, writeOk).Abort?
    requires var c' := CreatedAfter(chunks, i, created, parse, writeOk);
      Process(chunks, i + 1, c', parse, writeOk).fault.None? ==> Clean(chunks, i + 1, c', parse, writeOk)
    ensures Process(chunks, i, created, parse, writeOk).fault.None? ==> Clean(chunks, i, created, parse, writeOk)
  {
    ShiftPast(chunks, i, created, parse, writeOk);
    Unfold(chunks, i, created, parse, writeOk);
  }

  /** Process and Origins together satisfy Characterised, from any starting point. */
  lemma {:induction false} ProcessWrites(chunks: seq<Bytes>, i: nat, created: set<string>, parse: Bytes -> Parsed, writeOk: string -> bool)
    requires i <= |chunks|
    ensures Characterised(chunks, i, created, parse, writeOk,
                          Process(chunks, i, created, parse, writeOk), Origins(chunks, i, created, parse, writeOk))
    decreases |chunks| - i
  {
    if i < |chunks| && !Step(chunks[i], i, created, parse, writeOk).Abort? {
      ProcessWrites(chunks, i + 1, CreatedAfter(chunks, i, created, parse, writeOk), parse, writeOk);
      TracedAfter(chunks, i, created, parse, writeOk);
      CoversAfter(chunks, i, created, parse, writeOk);
      StopsAfter(chunks, i, created, parse, writeOk);
      CleanAfter(chunks, i, created, parse, writeOk);
    }
  }

  /**
   * A malformed chunk, or a chunk whose due write fails, ends the run: the
   * run reports a fault at that chunk or at an earlier one
   * (main.go:75-77, 84-101, 114-117).
   */
  lemma FaultEndsRun(d: Bytes, onWindows: bool, parse: Bytes -> Parsed, writeOk: string -> bool, k: nat)
    requires Faulty(Chunks(d, Separator(d, onWindows)), 0, {}, parse, writeOk, k)
    ensures var r := Outcome(d, onWindows, parse, writeOk);
      r.fault.Some? && r.fault.value.index <= k
  {
    var chunks := Chunks(d, Separator(d, onWindows));
    ProcessWrites(chunks, 0, {}, parse, writeOk);
  }

  /** No file name is written twice in a run (main.go:105-110). */
  lemma FilenamesDistinct(d: Bytes, onWindows: bool, parse: Bytes -> Parsed, writeOk: string -> bool)
    ensures var r := Outcome(d, onWindows, parse, writeOk);
      forall a, b :: 0 <= a < b < |r.writes| ==> r.writes[a].filename != r.writes[b].filename
  {
    var chunks := Chunks(d, Separator(d, onWindows));
    ProcessWrites(chunks, 0, {}, parse, writeOk);
    var r := Outcome(d, onWindows, parse, writeOk);
    var o := Origins(chunks, 0, {}, parse, writeOk);
    forall a, b | 0 <= a < b < |r.writes| ensures r.writes[a].filename != r.writes[b].filename {
      assert o[a] < o[b];
      assert FirstOccurrence(chunks, 0, {}, parse, o[b]);
      assert Target(chunks[o[a]], parse) != Target(chunks[o[b]], parse);
    }
  }

  /** The set of files a list of writes has created. */
  function WrittenFiles(writes: seq<Write>): set<string> {
    set m | 0 <= m < |writes| :: writes[m].filename
  }

  lemma WrittenFilesAppend(writes: seq<Write>, w: Write)
    ensures WrittenFiles(writes + [w]) == WrittenFiles(writes) + {w.filename}
  {
    var ws := writes + [w];
    assert ws[|writes|] == w;
    forall m | 0 <= m < |writes| ensures ws[m] == writes[m] { }
  }

  /** A written chunk moves its write from the rest of the run to the writes done so far. */
  lemma WriteStep(parts: seq<Bytes>, i: nat, writes: seq<Write>, created: set<string>, parse: Bytes -> Parsed, writeOk: string -> bool)
    requires i < |parts|
    requires Step(parts[i], i, created, parse, writeOk).Emit?
    ensures var w := Step(parts[i], i, created, parse, writeOk).write;
      Prepend(writes, Process(parts, i, created, parse, writeOk))
      == Prepend(writes + [w], Process(parts, i + 1, created + {w.filename}, parse, writeOk))
  {
    var w := Step(parts[i], i, created, parse, writeOk).write;
    var rest := Process(parts, i + 1, created + {w.filename}, parse, writeOk);
    assert Process(parts, i, created, parse, writeOk) == Prepend([w], rest);
    assert (writes + [w]) + rest.writes == writes + ([w] + rest.writes);
  }

  /**
   * Choosing the line break and cutting the input (main.go:55-66): the line
   * break starts as LF and becomes CRLF on Windows when the input holds a
   * CRLF; one trailing empty part is dropped.
   */
  method CutChunks(d: Bytes, onWindows: bool) returns (parts: seq<Bytes>)
    ensures parts == Chunks(d, Separator(d, onWindows))
  {
    var linebreak := Lf;
    var windowsLineEnding := Contains(d, Crlf);
    if windowsLineEnding && onWindows {
      linebreak := Crlf;
    }
    parts := Split(d, linebreak + Dashes + linebreak);
    if parts[|parts| - 1] == [] {
      parts := parts[..|parts| - 1];
    }
  }

  /**
   * The loop over the chunks (main.go:68-118): the set of created files
   * grows with each write, and stays the set of files written so far.
   */
  method WriteChunks(parts: seq<Bytes>, parse: Bytes -> Parsed, writeOk: string -> bool) returns (report: Report)
    ensures report == Process(parts, 0, {}, parse, writeOk)
  {
    var created: set<string> := {};
    var writes: seq<Write> := [];
    for i := 0 to |parts|
      invariant created == WrittenFiles(writes)
      invariant Prepend(writes, Process(parts, i, created, parse, writeOk)) == Process(parts, 0, {}, parse, writeOk)
    {
      match Examine(parse(parts[i]))
      case Unreadable =>
        return Report(writes, Some(ParseError(i)));
      case Blank =>
      case Invalid(problem) =>
        return Report(writes, Some(SchemaError(i, problem)));
      case Resource(id) =>
        var filename := Filename(id);
        if filename !in created {
          created := created + {filename};
          if !writeOk(filename) {
            return Report(writes, Some(WriteError(i, filename)));
          }
          var w := Write(filename, parts[i] + [LF]);
          WriteStep(parts, i, writes, created - {filename}, parse, writeOk);
          WrittenFilesAppend(writes, w);
          writes := writes + [w];
        }
    }
    report := Report(writes, None);
  }

  /** The command itself (main.go:55-118): cut the input, then handle the chunks in order. */
  method SplitManifests(d: Bytes, onWindows: bool, parse: Bytes -> Parsed, writeOk: string -> bool) returns (report: Report)
    ensures report == Outcome(d, onWindows, parse, writeOk)
  {
    var parts := CutChunks(d, onWindows);
    report := WriteChunks(parts, parse, writeOk);
  }

  /**
   * A single-document input naming Pod "foo" in namespace "bar" produces the
   * one file `Pod__foo__bar.yaml`, holding the document and a newline.
   */
  lemma SingleResource(d: Bytes, onWindows: bool, parse: Bytes -> Parsed, writeOk: string -> bool,
                       top: map<string, Value>, meta: map<string, Value>)
    requires d != [] && !Contains(d, LfSeparator) && !Contains(d, CrlfSeparator)
    requires parse(d) == ManifestOf(Identity("Pod", "foo", "bar"), top, meta)
    requires writeOk("Pod__foo__bar.yaml")
    ensures Outcome(d, onWindows, parse, writeOk) == Report([Write("Pod__foo__bar.yaml", d + [LF])], None)
  {
    var chunks := Chunks(d, Separator(d, onWindows));
    assert chunks == [d] by {
      ChunkCount(d, Separator(d, onWindows));
    }
    var n := Filename(Identity("Pod", "foo", "bar"));
    assert n == "Pod__foo__bar.yaml";
    assert Step(d, 0, {}, parse, writeOk) == Emit(Write(n, d + [LF])) by {
      ExamineManifest(Identity("Pod", "foo", "bar"), top, meta);
    }
    assert Process(chunks, 1, {} + {n}, parse, writeOk) == Report([], None);
  }

  /**
   * Of two chunks that name the same file, only the first is written, and
   * the second is skipped without error (main.go:105-109).
   */
  lemma DuplicateSkipped(first: Bytes, second: Bytes, parse: Bytes -> Parsed, writeOk: string -> bool)
    requires Target(first, parse).Some? && Target(first, parse) == Target(second, parse)
    requires writeOk(Target(first, parse).value)
    ensures Process([first, second], 0, {}, parse, writeOk)
         == Report([Write(Target(first, parse).value, first + [LF])], None)
  {
    var n := Target(first, parse).value;
    assert [first, second][1] == second;
    assert Step(second, 1, {} + {n}, parse, writeOk) == Skip;
    assert Process([first, second], 1, {} + {n}, parse, writeOk) == Report([], None);
  }
}
