/**
 * Compaction of one closed partition: the part files are merged in chunks into sorted outputs, and
 * the sources are removed only when every row has been accounted for.
 */
module Compaction {
  import opened Sequences
  import opened TickFilter

  type Row = FilteredEvent

  /** A row group either carries the extremes of its receive times or has to be read to find them. */
  datatype RowGroup = RowGroup(rows: seq<Row>, statistics: Option<(int, int)>)
  {
    ghost predicate Sound() {
      statistics.Some? ==> Extremes(rows, Some(statistics.value.0), Some(statistics.value.1))
    }
  }

  datatype RawFile = Unreadable | Readable(groups: seq<RowGroup>)

  type RawFiles = map<string, RawFile>

  function GroupRows(groups: seq<RowGroup>): seq<Row> {
    if groups == [] then [] else GroupRows(groups[..|groups| - 1]) + groups[|groups| - 1].rows
  }

  function FileRows(f: RawFile): seq<Row> { if f.Unreadable? then [] else GroupRows(f.groups) }

  ghost predicate Known(raw: RawFiles, names: seq<string>) {
    forall n :: n in names ==> n in raw
  }

  ghost predicate KnownChunks(raw: RawFiles, chunks: seq<seq<string>>) {
    forall i :: 0 <= i < |chunks| ==> Known(raw, chunks[i])
  }

  function RowsIn(raw: RawFiles, names: seq<string>): seq<Row>
    requires Known(raw, names)
  {
    if names == [] then []
    else
      assert names[|names| - 1] in names;
      RowsIn(raw, names[..|names| - 1]) + FileRows(raw[names[|names| - 1]])
  }

  // ----- sorting

  predicate RowLeq(a: Row, b: Row) {
    if a.tick.symbol != b.tick.symbol then StringLeq(a.tick.symbol, b.tick.symbol)
    else if a.tick.recv != b.tick.recv then a.tick.recv <= b.tick.recv
    else a.tick.monotonicNs <= b.tick.monotonicNs
  }

  lemma RowLeqIsTotalPreorder()
    ensures TotalPreorder(RowLeq)
  {
    forall x, y ensures RowLeq(x, y) || RowLeq(y, x) {
      StringLeqTotal(x.tick.symbol, y.tick.symbol);
    }
    forall x, y, z | RowLeq(x, y) && RowLeq(y, z) ensures RowLeq(x, z) {
      RowLeqTransitive(x, y, z);
    }
  }

  lemma RowLeqTransitive(x: Row, y: Row, z: Row)
    requires RowLeq(x, y) && RowLeq(y, z)
    ensures RowLeq(x, z)
  {
    var a, b, c := x.tick.symbol, y.tick.symbol, z.tick.symbol;
    if a != b && b != c {
      StringLeqTransitive(a, b, c);
      if a == c { StringLeqTotal(a, b); }
    }
  }

  // ----- chunks

  function FirstChunk(names: seq<string>, n: int): seq<string>
    requires n > 0
  {
    if |names| <= n then names else names[..n]
  }

  function AfterChunk(names: seq<string>, n: int): (r: seq<string>)
    requires n > 0
    ensures names != [] ==> |r| < |names|
  {
    if |names| <= n then [] else names[n..]
  }

  function Chunked(names: seq<string>, n: int): seq<seq<string>> {
    if n <= 0 || names == [] then []
    else if |names| <= n then [names]
    else [names[..n]] + Chunked(names[n..], n)
  }

  /** For every positive chunk size the chunks are non-empty, no larger than the size, and concatenate to the list. */
  lemma {:induction false} ChunksCoverTheList(names: seq<string>, n: int)
    requires n > 0
    ensures Concat(Chunked(names, n)) == names
    ensures forall i :: 0 <= i < |Chunked(names, n)| ==> 0 < |Chunked(names, n)[i]| <= n
  {
    if |names| > n {
      var rest := Chunked(names[n..], n);
      ChunksCoverTheList(names[n..], n);
      assert ([names[..n]] + rest)[1..] == rest;
      assert names == names[..n] + names[n..];
    } else if names != [] {
      assert Concat([names]) == names + Concat([]);
    }
  }

  function OutputsFor(raw: RawFiles, chunks: seq<seq<string>>): seq<seq<Row>>
    requires KnownChunks(raw, chunks)
  {
    if chunks == [] then []
    else OutputsFor(raw, chunks[..|chunks| - 1]) + [SortBy(RowsIn(raw, chunks[|chunks| - 1]), RowLeq)]
  }

  /** Output names restart at index zero on every run. */
  function Overwrite(out: map<nat, seq<Row>>, outputs: seq<seq<Row>>): map<nat, seq<Row>> {
    if outputs == [] then out
    else Overwrite(out, outputs[..|outputs| - 1])[|outputs| - 1 := outputs[|outputs| - 1]]
  }

  function RowTotal(outputs: seq<seq<Row>>): nat {
    if outputs == [] then 0 else RowTotal(outputs[..|outputs| - 1]) + |outputs[|outputs| - 1]|
  }

  // ----- extremes

  ghost predicate Extremes(rows: seq<Row>, lo: Option<int>, hi: Option<int>) {
    && (lo.None? <==> rows == []) && (hi.None? <==> rows == [])
    && (lo.Some? ==> (exists r :: r in rows && r.tick.recv == lo.value) && forall r :: r in rows ==> lo.value <= r.tick.recv)
    && (hi.Some? ==> (exists r :: r in rows && r.tick.recv == hi.value) && forall r :: r in rows ==> r.tick.recv <= hi.value)
  }

  function Lower(a: Option<int>, b: Option<int>): Option<int> {
    if a.None? then b else if b.None? then a else if a.value <= b.value then a else b
  }

  function Higher(a: Option<int>, b: Option<int>): Option<int> {
    if a.None? then b else if b.None? then a else if a.value >= b.value then a else b
  }

  lemma ExtremesJoin(a: seq<Row>, loA: Option<int>, hiA: Option<int>, b: seq<Row>, loB: Option<int>, hiB: Option<int>)
    requires Extremes(a, loA, hiA) && Extremes(b, loB, hiB)
    ensures Extremes(a + b, Lower(loA, loB), Higher(hiA, hiB))
  {
    var lo, hi := Lower(loA, loB), Higher(hiA, hiB);
    assert forall r :: r in a + b <==> r in a || r in b;
    if a != [] {
      var r :| r in a && r.tick.recv == loA.value;
      var s :| s in a && s.tick.recv == hiA.value;
      assert r in a + b && s in a + b;
    }
    if b != [] {
      var r :| r in b && r.tick.recv == loB.value;
      var s :| s in b && s.tick.recv == hiB.value;
      assert r in a + b && s in a + b;
    }
  }

  lemma ExtremesStep(rows: seq<Row>, i: nat, lo: Option<int>, hi: Option<int>)
    requires i < |rows| && Extremes(rows[..i], lo, hi)
    ensures Extremes(rows[..i + 1], Lower(lo, Some(rows[i].tick.recv)), Higher(hi, Some(rows[i].tick.recv)))
  {
    var t := rows[i].tick.recv;
    assert rows[i] in [rows[i]];
    ExtremesJoin(rows[..i], lo, hi, [rows[i]], Some(t), Some(t));
    assert rows[..i + 1] == rows[..i] + [rows[i]];
  }

  /** The extremes of one row group, from its statistics or from its rows. */
  method GroupExtremes(g: RowGroup) returns (lo: Option<int>, hi: Option<int>)
    requires g.Sound()
    ensures Extremes(g.rows, lo, hi)
  {
    if g.statistics.Some? { return Some(g.statistics.value.0), Some(g.statistics.value.1); }
    lo, hi := None, None;
    for i := 0 to |g.rows|
      invariant Extremes(g.rows[..i], lo, hi)
    {
      var t := g.rows[i].tick.recv;
      ExtremesStep(g.rows, i, lo, hi);
      lo, hi := Lower(lo, Some(t)), Higher(hi, Some(t));
    }
    assert g.rows[..|g.rows|] == g.rows;
  }

  method FileExtremes(groups: seq<RowGroup>) returns (lo: Option<int>, hi: Option<int>)
    requires forall g :: g in groups ==> g.Sound()
    ensures Extremes(GroupRows(groups), lo, hi)
  {
    lo, hi := None, None;
    for i := 0 to |groups|
      invariant Extremes(GroupRows(groups[..i]), lo, hi)
    {
      assert groups[i] in groups;
      var l, h := GroupExtremes(groups[i]);
      ExtremesJoin(GroupRows(groups[..i]), lo, hi, groups[i].rows, l, h);
      assert groups[..i + 1][..i] == groups[..i];
      lo, hi := Lower(lo, l), Higher(hi, h);
    }
    assert groups[..|groups|] == groups;
  }

  // ----- the run

  datatype Failure = CannotOpen(name: string) | RowCountMismatch(source: nat, output: nat)

  datatype Report = Report(sourceFiles: nat, sourceRows: nat, outputFiles: nat, outputRows: nat,
                           minRecv: Option<int>, maxRecv: Option<int>, deleted: nat, leftLocked: nat,
                           passed: bool, error: Option<Failure>)

  /** A run reports, or raises from a zero chunk size or from writing one of its outputs. */
  datatype Outcome = Reported(report: Report) | RaisedAt(chunk: nat)

  /** Stored statistics are the true extremes; the file format guarantees it. */
  ghost predicate StatisticsSound(f: RawFile) {
    f.Readable? ==> forall g :: g in f.groups ==> g.Sound()
  }

  ghost predicate Listing(names: seq<string>, raw: RawFiles) {
    && (forall n :: n in names ==> n in raw && StatisticsSound(raw[n]))
    && (forall i, j :: 0 <= i < j < |names| ==> names[i] != names[j])
  }

  lemma {:induction false} ChunkNames(names: seq<string>, n: int)
    ensures forall i, x :: 0 <= i < |Chunked(names, n)| && x in Chunked(names, n)[i] ==> x in names
  {
    if |names| > n > 0 {
      ChunkNames(names[n..], n);
      var rest := Chunked(names[n..], n);
      forall i, x | 0 <= i < |Chunked(names, n)| && x in Chunked(names, n)[i] ensures x in names {
        if i > 0 {
          assert x in rest[i - 1] && x in names[n..];
        } else {
          assert x in names[..n];
        }
      }
    }
  }

  function Among(s: set<string>): string -> bool { (n: string) => n in s }

  function NameSet(names: seq<string>): set<string> { set n | n in names }

  lemma NameSetSnoc(names: seq<string>, i: nat)
    requires i < |names|
    ensures NameSet(names[..i + 1]) == NameSet(names[..i]) + {names[i]}
  {
    assert names[..i + 1] == names[..i] + [names[i]];
  }

  ghost predicate AllReadable(raw: RawFiles, names: seq<string>)
    requires Known(raw, names)
  {
    forall n :: n in names ==> raw[n].Readable?
  }

  class Store {
    var raw: RawFiles
    var out: map<nat, seq<Row>>

    constructor (raw: RawFiles, out: map<nat, seq<Row>>)
      ensures this.raw == raw && this.out == out
    {
      this.raw, this.out := raw, out;
    }

    /** First pass: count rows and find the extremes, giving up at the first unreadable file. */
    method Survey(names: seq<string>) returns (rows: nat, lo: Option<int>, hi: Option<int>, bad: Option<string>)
      requires Listing(names, raw)
      ensures bad.None? <==> AllReadable(raw, names)
      ensures bad.Some? ==> exists i: nat :: GaveUpAt(raw, names, i, rows, lo, hi, bad.value)
      ensures bad.None? ==> rows == |RowsIn(raw, names)| && Extremes(RowsIn(raw, names), lo, hi)
    {
      rows, lo, hi, bad := 0, None, None, None;
      for i := 0 to |names|
        invariant forall k :: 0 <= k < i ==> raw[names[k]].Readable?
        // written as an equation so that the solver carries it as one fact
        invariant Surveyed(raw, names[..i], rows, lo, hi) == true
      {
        assert names[i] in names;
        if raw[names[i]].Unreadable? {
          assert GaveUpAt(raw, names, i, rows, lo, hi, names[i]);
          return rows, lo, hi, Some(names[i]);
        }
        var l, h := FileExtremes(raw[names[i]].groups);
        SurveyOne(raw, names, i, rows, lo, hi, l, h);
        rows, lo, hi := rows + |FileRows(raw[names[i]])|, Lower(lo, l), Higher(hi, h);
      }
      assert names[..|names|] == names;
    }

    /** Second pass: one sorted output per chunk, published one after the other. */
    method WriteChunks(names: seq<string>, n: int, failsAt: Option<nat>) returns (files: nat, rows: nat, raised: bool)
      requires Known(raw, names)
      requires n != 0
      modifies this`out
      ensures ChunkNamesKnown(raw, names, n)
      // written as an equation so that the solver carries it as one fact
      ensures WrittenPrefix(OutputsFor(raw, Chunked(names, n)), old(out), files, rows, out) == true
      ensures raised <==> failsAt.Some? && failsAt.value < |OutputsFor(raw, Chunked(names, n))|
      ensures files == if raised then failsAt.value else |OutputsFor(raw, Chunked(names, n))|
    {
      ghost var before := out;
      StartsWriting(raw, names, n, out);
      files, rows, raised := 0, 0, false;
      var rest := names;
      while n > 0 && rest != []
        invariant Writing(raw, names, n, before, files, rest, rows, out) == true
        invariant failsAt.None? || files <= failsAt.value
        decreases |rest|
      {
        var chunk := FirstChunk(rest, n);
        if failsAt.Some? && failsAt.value == files {
          FaultStops(raw, names, n, before, files, rest, rows, out);
          raised := true;
          return;
        }
        ChunkWritten(raw, names, n, before, files, rest, rows, out);
        var combined := SortBy(RowsIn(raw, chunk), RowLeq);
        assert failsAt.None? || files + 1 <= failsAt.value;
        out := out[files := combined];
        rows, files := rows + |combined|, files + 1;
        rest := AfterChunk(rest, n);
      }
      StopsWriting(raw, names, n, before, files, rest, rows, out);
    }

    /** Removes what is not locked. */
    method DeleteSources(names: seq<string>, locked: set<string>) returns (deleted: nat, left: nat)
      modifies this`raw
      ensures raw == old(raw) - (NameSet(names) - locked)
      ensures deleted + left == |names| && left == |Filter(names, Among(locked))|
    {
      deleted, left := 0, 0;
      for i := 0 to |names|
        invariant raw == old(raw) - (NameSet(names[..i]) - locked)
        invariant deleted + left == i && left == |Filter(names[..i], Among(locked))|
      {
        assert names[..i + 1] == names[..i] + [names[i]];
        NameSetSnoc(names, i);
        SelectedSnoc(names[..i], names[i], Among(locked), (n: string) => 0);
        if names[i] in locked {
          left := left + 1;
        } else {
          raw := raw - {names[i]};
          deleted := deleted + 1;
        }
      }
      assert names[..|names|] == names;
    }

    method Compact(names: seq<string>, chunkFiles: int, deleteSources: bool, locked: set<string>, failsAt: Option<nat>) returns (r: Outcome)
      requires Listing(names, raw)
      modifies this
      ensures ChunkNamesKnown(old(raw), names, chunkFiles)
      ensures names == [] ==> r == Reported(Report(0, 0, 0, 0, None, None, 0, 0, true, None)) && out == old(out) && raw == old(raw)
      ensures names != [] && !AllReadable(old(raw), names) ==>
                UnreadableFits(old(raw), names, r) && out == old(out) && raw == old(raw)
      // written as an equation so that the solver carries it as one fact
      ensures names != [] && AllReadable(old(raw), names) ==>
                CompactionFits(old(raw), old(out), names, chunkFiles, deleteSources, locked, failsAt, raw, out, r) == true
    {
      ChunkNames(names, chunkFiles);
      if names == [] { return Reported(Report(0, 0, 0, 0, None, None, 0, 0, true, None)); }
      var sourceRows, lo, hi, bad := Survey(names);
      if bad.Some? {
        return Reported(Report(|names|, sourceRows, 0, 0, lo, hi, 0, 0, false, Some(CannotOpen(bad.value))));
      }
      if chunkFiles == 0 {
        ZeroChunkFits(raw, out, names, deleteSources, locked, failsAt);
        return RaisedAt(0);
      }
      ghost var before, source := out, raw;
      var files, rows, raised := WriteChunks(names, chunkFiles, failsAt);
      if raised {
        RaisedFits(raw, before, names, chunkFiles, deleteSources, locked, failsAt, out, files, rows);
        return RaisedAt(files);
      }
      var passed := rows == sourceRows;
      if passed && sourceRows > 0 && (lo.None? || hi.None?) { passed := false; }
      var deleted, left, error := 0, 0, None;
      if !passed {
        error := Some(RowCountMismatch(sourceRows, rows));
      } else if deleteSources {
        deleted, left := DeleteSources(names, locked);
      }
      r := Reported(Report(|names|, sourceRows, files, rows, lo, hi, deleted, left, passed, error));
      ReportedFits(source, before, names, chunkFiles, deleteSources, locked, failsAt, raw, out, r.report);
    }
  }

  lemma ZeroChunkFits(raw: RawFiles, out: map<nat, seq<Row>>, names: seq<string>, deleteSources: bool, locked: set<string>, failsAt: Option<nat>)
    requires Listing(names, raw) && ChunkNamesKnown(raw, names, 0)
    ensures CompactionFits(raw, out, names, 0, deleteSources, locked, failsAt, raw, out, RaisedAt(0))
  {
  }

  lemma RaisedFits(raw: RawFiles, out: map<nat, seq<Row>>, names: seq<string>, n: int, deleteSources: bool, locked: set<string>,
                   failsAt: Option<nat>, out': map<nat, seq<Row>>, files: nat, rows: nat)
    requires Listing(names, raw) && ChunkNamesKnown(raw, names, n) && failsAt == Some(files)
    requires WrittenPrefix(OutputsFor(raw, Chunked(names, n)), out, files, rows, out') && files < |OutputsFor(raw, Chunked(names, n))|
    ensures CompactionFits(raw, out, names, n, deleteSources, locked, failsAt, raw, out', RaisedAt(files))
  {
  }

  lemma ReportedFits(raw: RawFiles, out: map<nat, seq<Row>>, names: seq<string>, n: int, deleteSources: bool, locked: set<string>,
                     failsAt: Option<nat>, raw': RawFiles, out': map<nat, seq<Row>>, p: Report)
    requires Listing(names, raw) && ChunkNamesKnown(raw, names, n) && n != 0
    requires WrittenPrefix(OutputsFor(raw, Chunked(names, n)), out, p.outputFiles, p.outputRows, out')
    requires p.outputFiles == |OutputsFor(raw, Chunked(names, n))|
    requires failsAt.None? || failsAt.value >= p.outputFiles
    requires p.sourceFiles == |names| && p.sourceRows == |RowsIn(raw, names)| && Extremes(RowsIn(raw, names), p.minRecv, p.maxRecv)
    requires p.passed <==> p.outputRows == p.sourceRows
    requires p.error == if p.passed then None else Some(RowCountMismatch(p.sourceRows, p.outputRows))
    requires raw' == (if p.passed && deleteSources then raw - (NameSet(names) - locked) else raw)
    requires p.deleted + p.leftLocked == (if p.passed && deleteSources then |names| else 0)
    requires p.leftLocked == if p.passed && deleteSources then |Filter(names, Among(locked))| else 0
    ensures CompactionFits(raw, out, names, n, deleteSources, locked, failsAt, raw', out', Reported(p))
  {
    var outputs := OutputsFor(raw, Chunked(names, n));
    assert outputs[..|outputs|] == outputs;
  }

  /** The rows of the files seen so far are counted and their extremes known. */
  ghost predicate Surveyed(raw: RawFiles, names: seq<string>, rows: nat, lo: Option<int>, hi: Option<int>) {
    Known(raw, names) && rows == |RowsIn(raw, names)| && Extremes(RowsIn(raw, names), lo, hi)
  }

  /** The survey ends at the first unreadable file, having counted the files before it. */
  ghost predicate GaveUpAt(raw: RawFiles, names: seq<string>, i: nat, rows: nat, lo: Option<int>, hi: Option<int>, bad: string) {
    && i < |names| && bad == names[i] && bad in raw && raw[bad].Unreadable?
    && Surveyed(raw, names[..i], rows, lo, hi) && AllReadable(raw, names[..i])
  }

  /** The report of a run that met an unreadable source: what it had counted, and nothing written or deleted. */
  ghost predicate UnreadableFits(raw: RawFiles, names: seq<string>, r: Outcome) {
    && r.Reported?
    && var p := r.report;
       && p.sourceFiles == |names| && p.outputFiles == p.outputRows == p.deleted == p.leftLocked == 0 && !p.passed
       && p.error.Some? && p.error.value.CannotOpen?
       && exists i: nat :: GaveUpAt(raw, names, i, p.sourceRows, p.minRecv, p.maxRecv, p.error.value.name)
  }

  lemma SurveyOne(raw: RawFiles, names: seq<string>, i: nat, rows: nat, lo: Option<int>, hi: Option<int>, l: Option<int>, h: Option<int>)
    requires i < |names| && names[i] in raw && Surveyed(raw, names[..i], rows, lo, hi)
    requires Extremes(FileRows(raw[names[i]]), l, h)
    ensures Surveyed(raw, names[..i + 1], rows + |FileRows(raw[names[i]])|, Lower(lo, l), Higher(hi, h))
  {
    ExtremesJoin(RowsIn(raw, names[..i]), lo, hi, FileRows(raw[names[i]]), l, h);
    RowsInSnoc(raw, names[..i], names[i]);
    assert names[..i + 1] == names[..i] + [names[i]];
  }

  /** The first outputs are in place and their rows are counted. */
  ghost predicate WrittenPrefix(outputs: seq<seq<Row>>, before: map<nat, seq<Row>>, files: nat, rows: nat, after: map<nat, seq<Row>>) {
    files <= |outputs| && after == Overwrite(before, outputs[..files]) && rows == RowTotal(outputs[..files])
  }

  lemma WriteOne(outputs: seq<seq<Row>>, before: map<nat, seq<Row>>, files: nat, rows: nat, after: map<nat, seq<Row>>)
    requires WrittenPrefix(outputs, before, files, rows, after) && files < |outputs|
    ensures WrittenPrefix(outputs, before, files + 1, rows + |outputs[files]|, after[files := outputs[files]])
  {
    assert outputs[..files + 1][..files] == outputs[..files];
  }

  /** The chunks from k on are those of the names still to be read. */
  ghost predicate ToDo(raw: RawFiles, names: seq<string>, n: int, k: nat, rest: seq<string>) {
    && ChunkNamesKnown(raw, names, n)
    && k <= |Chunked(names, n)| == |OutputsFor(raw, Chunked(names, n))|
    && Chunked(names, n)[k..] == Chunked(rest, n)
  }

  /** The state of the second pass: files outputs written, rest still to be read. */
  ghost predicate Writing(raw: RawFiles, names: seq<string>, n: int, before: map<nat, seq<Row>>, files: nat, rest: seq<string>,
                          rows: nat, out: map<nat, seq<Row>>) {
    ToDo(raw, names, n, files, rest) && WrittenPrefix(OutputsFor(raw, Chunked(names, n)), before, files, rows, out)
  }

  lemma StartsWriting(raw: RawFiles, names: seq<string>, n: int, out: map<nat, seq<Row>>)
    requires Known(raw, names)
    ensures Writing(raw, names, n, out, 0, names, 0, out)
  {
    ChunkNames(names, n);
    OutputsLength(raw, Chunked(names, n));
  }

  lemma StopsWriting(raw: RawFiles, names: seq<string>, n: int, before: map<nat, seq<Row>>, files: nat, rest: seq<string>,
                     rows: nat, out: map<nat, seq<Row>>)
    requires Writing(raw, names, n, before, files, rest, rows, out) && n != 0 && !(n > 0 && rest != [])
    ensures ChunkNamesKnown(raw, names, n) && files == |OutputsFor(raw, Chunked(names, n))|
    ensures WrittenPrefix(OutputsFor(raw, Chunked(names, n)), before, files, rows, out)
  {
    assert Chunked(rest, n) == [];
  }

  lemma NextChunk(raw: RawFiles, names: seq<string>, n: int, k: nat, rest: seq<string>)
    requires ToDo(raw, names, n, k, rest) && n > 0 && rest != []
    ensures var chunk := FirstChunk(rest, n);
            && Known(raw, chunk)
            && k < |Chunked(names, n)|
            && OutputsFor(raw, Chunked(names, n))[k] == SortBy(RowsIn(raw, chunk), RowLeq)
    ensures ToDo(raw, names, n, k + 1, AfterChunk(rest, n))
  {
    var chunks := Chunked(names, n);
    var tail := chunks[k..];
    assert tail[0] == chunks[k] && tail[1..] == chunks[k + 1..];
    OutputOfChunk(raw, chunks, k);
  }

  lemma FaultStops(raw: RawFiles, names: seq<string>, n: int, before: map<nat, seq<Row>>, files: nat, rest: seq<string>,
                   rows: nat, out: map<nat, seq<Row>>)
    requires Writing(raw, names, n, before, files, rest, rows, out) && n > 0 && rest != []
    ensures ChunkNamesKnown(raw, names, n) && files < |OutputsFor(raw, Chunked(names, n))|
    ensures WrittenPrefix(OutputsFor(raw, Chunked(names, n)), before, files, rows, out)
  {
    NextChunk(raw, names, n, files, rest);
  }

  lemma ChunkWritten(raw: RawFiles, names: seq<string>, n: int, before: map<nat, seq<Row>>, files: nat, rest: seq<string>,
                     rows: nat, out: map<nat, seq<Row>>)
    requires Writing(raw, names, n, before, files, rest, rows, out) && n > 0 && rest != []
    ensures var chunk := FirstChunk(rest, n);
            && Known(raw, chunk)
            && var combined := SortBy(RowsIn(raw, chunk), RowLeq);
               Writing(raw, names, n, before, files + 1, AfterChunk(rest, n), rows + |combined|, out[files := combined])
  {
    NextChunk(raw, names, n, files, rest);
    WriteOne(OutputsFor(raw, Chunked(names, n)), before, files, rows, out);
  }

  ghost predicate ChunkNamesKnown(raw: RawFiles, names: seq<string>, n: int) {
    KnownChunks(raw, Chunked(names, n))
  }

  /** The complete effect of a run whose sources can all be opened. */
  ghost predicate CompactionFits(raw: RawFiles, out: map<nat, seq<Row>>, names: seq<string>, n: int, deleteSources: bool,
                                 locked: set<string>, failsAt: Option<nat>,
                                 raw': RawFiles, out': map<nat, seq<Row>>, r: Outcome)
    requires Listing(names, raw) && ChunkNamesKnown(raw, names, n)
  {
    var outputs := OutputsFor(raw, Chunked(names, n));
    var rows := RowsIn(raw, names);
    match r
    case RaisedAt(k) =>
      && raw' == raw && k <= |outputs| && out' == Overwrite(out, outputs[..k])
      && (n == 0 || (failsAt == Some(k) && k < |outputs|))
    case Reported(p) =>
      && n != 0 && (failsAt.None? || failsAt.value >= |outputs|) && out' == Overwrite(out, outputs)
      && p.sourceFiles == |names| && p.sourceRows == |rows| && p.outputFiles == |outputs| && p.outputRows == RowTotal(outputs)
      && Extremes(rows, p.minRecv, p.maxRecv)
      && (p.passed <==> RowTotal(outputs) == |rows|)
      && p.error == (if p.passed then None else Some(RowCountMismatch(|rows|, RowTotal(outputs))))
      && raw' == (if p.passed && deleteSources then raw - (NameSet(names) - locked) else raw)
      && p.deleted + p.leftLocked == (if p.passed && deleteSources then |names| else 0)
      && p.leftLocked == (if p.passed && deleteSources then |Filter(names, Among(locked))| else 0)
  }

  lemma {:induction false} OutputsLength(raw: RawFiles, chunks: seq<seq<string>>)
    requires KnownChunks(raw, chunks)
    ensures |OutputsFor(raw, chunks)| == |chunks|
  {
    if chunks != [] { OutputsLength(raw, chunks[..|chunks| - 1]); }
  }

  /** Each chunk becomes one sorted output. */
  lemma {:induction false} OutputOfChunk(raw: RawFiles, chunks: seq<seq<string>>, i: nat)
    requires KnownChunks(raw, chunks) && i < |chunks|
    ensures Known(raw, chunks[i]) && |OutputsFor(raw, chunks)| == |chunks|
    ensures OutputsFor(raw, chunks)[i] == SortBy(RowsIn(raw, chunks[i]), RowLeq)
    decreases |chunks|
  {
    var n := |chunks| - 1;
    var init := chunks[..n];
    LastSplit(chunks);
    OutputsForSnoc(raw, init, chunks[n]);
    OutputsLength(raw, init);
    if i < n { OutputOfChunk(raw, init, i); }
  }

  // ----- rows are preserved

  lemma RowsInSnoc(raw: RawFiles, names: seq<string>, n: string)
    requires Known(raw, names) && n in raw
    ensures Known(raw, names + [n]) && RowsIn(raw, names + [n]) == RowsIn(raw, names) + FileRows(raw[n])
  {
    assert (names + [n])[..|names|] == names;
  }

  lemma {:induction false} RowsInAppend(raw: RawFiles, a: seq<string>, b: seq<string>)
    requires Known(raw, a) && Known(raw, b)
    ensures Known(raw, a + b) && RowsIn(raw, a + b) == RowsIn(raw, a) + RowsIn(raw, b)
  {
    if b == [] {
      assert a + b == a;
    } else {
      var init, n := b[..|b| - 1], b[|b| - 1];
      assert n in b && Known(raw, init);
      RowsInAppend(raw, a, init);
      RowsInSnoc(raw, a + init, n);
      LastSplit(b);
      PlusAssociates(a, init, [n]);
      PlusAssociates(RowsIn(raw, a), RowsIn(raw, init), FileRows(raw[n]));
    }
  }

  lemma OutputsForSnoc(raw: RawFiles, init: seq<seq<string>>, last: seq<string>)
    requires KnownChunks(raw, init) && Known(raw, last)
    ensures KnownChunks(raw, init + [last])
    ensures OutputsFor(raw, init + [last]) == OutputsFor(raw, init) + [SortBy(RowsIn(raw, last), RowLeq)]
  {
    assert (init + [last])[..|init|] == init;
  }

  lemma {:induction false} OutputsHoldTheRows(raw: RawFiles, chunks: seq<seq<string>>)
    requires KnownChunks(raw, chunks)
    ensures Known(raw, Concat(chunks))
    ensures multiset(Concat(OutputsFor(raw, chunks))) == multiset(RowsIn(raw, Concat(chunks)))
    ensures RowTotal(OutputsFor(raw, chunks)) == |RowsIn(raw, Concat(chunks))|
  {
    if chunks != [] {
      var init, last := chunks[..|chunks| - 1], chunks[|chunks| - 1];
      LastSplit(chunks);
      OutputsHoldTheRows(raw, init);
      ConcatSnoc(init, last);
      RowsInAppend(raw, Concat(init), last);
      OutputsForSnoc(raw, init, last);
      OutputSnoc(OutputsFor(raw, init), RowsIn(raw, last));
    }
  }

  lemma OutputSnoc(outputs: seq<seq<Row>>, rows: seq<Row>)
    ensures multiset(Concat(outputs + [SortBy(rows, RowLeq)])) == multiset(Concat(outputs)) + multiset(rows)
    ensures RowTotal(outputs + [SortBy(rows, RowLeq)]) == RowTotal(outputs) + |rows|
  {
    var sorted := SortBy(rows, RowLeq);
    SortPermutes(rows, RowLeq);
    ConcatSnoc(outputs, sorted);
    assert (outputs + [sorted])[..|outputs|] == outputs;
  }

  /** Each output is sorted and a permutation of its chunk's rows; together they are a permutation of all source rows. */
  lemma OutputsArePermutation(raw: RawFiles, names: seq<string>, n: int)
    requires n > 0 && Known(raw, names) && ChunkNamesKnown(raw, names, n)
    ensures var outputs := OutputsFor(raw, Chunked(names, n));
            && multiset(Concat(outputs)) == multiset(RowsIn(raw, names))
            && RowTotal(outputs) == |RowsIn(raw, names)|
    ensures forall i :: 0 <= i < |Chunked(names, n)| ==>
              && i < |OutputsFor(raw, Chunked(names, n))| && Known(raw, Chunked(names, n)[i])
              && SortedBy(OutputsFor(raw, Chunked(names, n))[i], RowLeq)
              && multiset(OutputsFor(raw, Chunked(names, n))[i]) == multiset(RowsIn(raw, Chunked(names, n)[i]))
  {
    ChunksCoverTheList(names, n);
    OutputsHoldTheRows(raw, Chunked(names, n));
    RowLeqIsTotalPreorder();
    OutputsLength(raw, Chunked(names, n));
    forall i | 0 <= i < |Chunked(names, n)|
      ensures Known(raw, Chunked(names, n)[i]) && SortedBy(OutputsFor(raw, Chunked(names, n))[i], RowLeq)
      ensures multiset(OutputsFor(raw, Chunked(names, n))[i]) == multiset(RowsIn(raw, Chunked(names, n)[i]))
    {
      OutputOfChunk(raw, Chunked(names, n), i);
      SortByIsSorted(RowsIn(raw, Chunked(names, n)[i]), RowLeq);
      SortPermutes(RowsIn(raw, Chunked(names, n)[i]), RowLeq);
    }
  }

  /** With a positive chunk size validation always passes; sources survive any run that does not. */
  lemma ValidationPassesAndGuardsDeletion(raw: RawFiles, out: map<nat, seq<Row>>, names: seq<string>, n: int, deleteSources: bool,
                                          locked: set<string>, failsAt: Option<nat>,
                                          raw': RawFiles, out': map<nat, seq<Row>>, r: Outcome)
    requires Listing(names, raw) && ChunkNamesKnown(raw, names, n)
    requires CompactionFits(raw, out, names, n, deleteSources, locked, failsAt, raw', out', r)
    ensures r.Reported? ==> (r.report.passed <==> n > 0 || RowsIn(raw, names) == [])
    ensures raw' != raw ==> r.Reported? && r.report.passed && deleteSources
    ensures r.Reported? && r.report.passed ==> multiset(Concat(OutputsFor(raw, Chunked(names, n)))) == multiset(RowsIn(raw, names))
  {
    if n > 0 {
      OutputsArePermutation(raw, names, n);
    } else {
      assert Chunked(names, n) == [] && OutputsFor(raw, Chunked(names, n)) == [];
    }
  }

  // ----- what a run does to the compacted directory

  /** All rows held by outputs with an index below m. */
  function Held(out: map<nat, seq<Row>>, m: nat): multiset<Row> {
    if m == 0 then multiset{}
    else Held(out, m - 1) + At(out, m - 1)
  }

  function At(out: map<nat, seq<Row>>, k: nat): multiset<Row> {
    if k in out then multiset(out[k]) else multiset{}
  }

  lemma Rebalance(a: multiset<Row>, b: multiset<Row>, c: multiset<Row>, d: multiset<Row>, e: multiset<Row>)
    requires a + b == c + d
    ensures (a + e) + b == (c + e) + d
  {
    assert (a + e) + b == (a + b) + e;
    assert (c + e) + d == (c + d) + e;
  }

  lemma {:induction false} HeldUnchanged(out: map<nat, seq<Row>>, k: nat, rows: seq<Row>, m: nat)
    requires m <= k
    ensures Held(out[k := rows], m) == Held(out, m)
  {
    if m > 0 { HeldUnchanged(out, k, rows, m - 1); }
  }

  /** Replacing output k by other rows swaps what it held. */
  ghost predicate Swapped(out: map<nat, seq<Row>>, k: nat, rows: seq<Row>, m: nat) {
    Held(out[k := rows], m) + At(out, k) == Held(out, m) + multiset(rows)
  }

  lemma {:induction false} HeldAfterUpdate(out: map<nat, seq<Row>>, k: nat, rows: seq<Row>, m: nat)
    requires m > k
    ensures Swapped(out, k, rows, m)
    decreases m
  {
    if m == k + 1 {
      HeldAtUpdate(out, k, rows);
    } else {
      var n: nat := m - 1;
      HeldAfterUpdate(out, k, rows, n);
      HeldAboveUpdate(out, k, rows, n);
    }
  }

  lemma HeldAtUpdate(out: map<nat, seq<Row>>, k: nat, rows: seq<Row>)
    ensures Swapped(out, k, rows, k + 1)
  {
    HeldUnchanged(out, k, rows, k);
    assert At(out[k := rows], k) == multiset(rows);
  }

  lemma HeldAboveUpdate(out: map<nat, seq<Row>>, k: nat, rows: seq<Row>, m: nat)
    requires m != k && Swapped(out, k, rows, m)
    ensures Swapped(out, k, rows, m + 1)
  {
    HeldStep(out, k, rows, m);
    Rebalance(Held(out[k := rows], m), At(out, k), Held(out, m), multiset(rows), At(out, m));
  }

  lemma HeldStep(out: map<nat, seq<Row>>, k: nat, rows: seq<Row>, m: nat)
    requires m != k
    ensures Held(out[k := rows], m + 1) == Held(out[k := rows], m) + At(out, m)
    ensures Held(out, m + 1) == Held(out, m) + At(out, m)
  {
  }

  lemma {:induction false} OverwriteKeepsHigher(out: map<nat, seq<Row>>, outputs: seq<seq<Row>>, i: nat)
    requires i >= |outputs|
    ensures i in Overwrite(out, outputs) <==> i in out
    ensures i in out ==> Overwrite(out, outputs)[i] == out[i]
  {
    if outputs != [] { OverwriteKeepsHigher(out, outputs[..|outputs| - 1], i); }
  }

  lemma TwoBalances(after: multiset<Row>, lost: multiset<Row>, mid: multiset<Row>, added: multiset<Row>,
                    over: multiset<Row>, before: multiset<Row>, written: multiset<Row>)
    requires after + lost == mid + added && mid + over == before + written
    ensures after + (over + lost) == before + (written + added)
  {
    assert after + (over + lost) == (after + lost) + over;
    assert (mid + added) + over == (mid + over) + added;
    assert (before + written) + added == before + (written + added);
  }

  /** Exact balance: rows held afterwards plus rows overwritten equal rows held before plus rows written. */
  lemma {:induction false} OverwriteBalance(out: map<nat, seq<Row>>, outputs: seq<seq<Row>>, m: nat)
    requires m >= |outputs|
    ensures Held(Overwrite(out, outputs), m) + Held(out, |outputs|) == Held(out, m) + multiset(Concat(outputs))
  {
    if outputs != [] {
      var k := |outputs| - 1;
      var init := outputs[..k];
      var mid := Overwrite(out, init);
      OverwriteBalance(out, init, m);
      OverwriteKeepsHigher(out, init, k);
      HeldAfterUpdate(mid, k, outputs[k], m);
      assert outputs == init + [outputs[k]];
      ConcatSnoc(init, outputs[k]);
      TwoBalances(Held(mid[k := outputs[k]], m), At(out, k), Held(mid, m), multiset(outputs[k]), Held(out, k), Held(out, m), multiset(Concat(init)));
    }
  }

  lemma {:induction false} HeldNothing(out: map<nat, seq<Row>>, k: nat)
    ensures Held(out, k) == multiset{} <==> forall i :: 0 <= i < k && i in out ==> out[i] == []
  {
    if k > 0 { HeldNothing(out, k - 1); }
  }

  /**
   * Copies are exact -- what the outputs held before plus each source row once -- exactly when the
   * indices a run writes held no row before; into an empty output directory that is always so.
   */
  lemma CopiesExactIffNothingReplaced(raw: RawFiles, out: map<nat, seq<Row>>, names: seq<string>, n: int, m: nat)
    requires n > 0 && Listing(names, raw) && ChunkNamesKnown(raw, names, n) && m >= |Chunked(names, n)|
    ensures var out' := Overwrite(out, OutputsFor(raw, Chunked(names, n)));
            Held(out', m) == Held(out, m) + multiset(RowsIn(raw, names)) <==>
              forall i :: 0 <= i < |Chunked(names, n)| && i in out ==> out[i] == []
  {
    var outputs := OutputsFor(raw, Chunked(names, n));
    OutputsLength(raw, Chunked(names, n));
    OutputsArePermutation(raw, names, n);
    OverwriteBalance(out, outputs, m);
    HeldNothing(out, |outputs|);
    var after, before := Held(Overwrite(out, outputs), m), Held(out, m) + multiset(RowsIn(raw, names));
    assert after + Held(out, |outputs|) == before;
    if after == before {
      assert |after| + |Held(out, |outputs|)| == |before|;
    }
  }

  // ----- when no row is lost

  /** Some output with an index of at least k holds the row. */
  ghost predicate HeldFrom(out: map<nat, seq<Row>>, k: nat, x: Row) {
    exists i :: i in out && i >= k && x in out[i]
  }

  lemma {:induction false} OverwriteAt(out: map<nat, seq<Row>>, outputs: seq<seq<Row>>, i: nat)
    requires i < |outputs|
    ensures i in Overwrite(out, outputs) && Overwrite(out, outputs)[i] == outputs[i]
  {
    var n := |outputs| - 1;
    if i < n { OverwriteAt(out, outputs[..n], i); }
  }

  lemma {:induction false} ConcatMembers(outputs: seq<seq<Row>>, x: Row)
    ensures x in Concat(outputs) <==> exists i :: 0 <= i < |outputs| && x in outputs[i]
  {
    if outputs != [] {
      ConcatMembers(outputs[1..], x);
      assert forall i :: 1 <= i < |outputs| ==> outputs[i] == outputs[1..][i - 1];
      assert x in Concat(outputs) <==> x in outputs[0] || x in Concat(outputs[1..]);
      if x in Concat(outputs[1..]) {
        var i :| 0 <= i < |outputs[1..]| && x in outputs[1..][i];
        assert x in outputs[i + 1];
      }
    }
  }

  /** After a run a row is held exactly when it was written or survived above the indices written. */
  lemma OverwriteHolds(out: map<nat, seq<Row>>, outputs: seq<seq<Row>>, x: Row)
    ensures HeldFrom(Overwrite(out, outputs), 0, x) <==> x in Concat(outputs) || HeldFrom(out, |outputs|, x)
  {
    var after := Overwrite(out, outputs);
    ConcatMembers(outputs, x);
    if HeldFrom(after, 0, x) {
      var i :| i in after && x in after[i];
      if i < |outputs| { OverwriteAt(out, outputs, i); } else { OverwriteKeepsHigher(out, outputs, i); }
    }
    if x in Concat(outputs) {
      var i: nat :| i < |outputs| && x in outputs[i];
      OverwriteAt(out, outputs, i);
    }
    if HeldFrom(out, |outputs|, x) {
      var i :| i in out && i >= |outputs| && x in out[i];
      OverwriteKeepsHigher(out, outputs, i);
    }
  }

  /** Every row of the sources and of the earlier outputs is in the output directory. */
  ghost predicate NoRowLost(raw: RawFiles, names: seq<string>, out: map<nat, seq<Row>>, out': map<nat, seq<Row>>)
    requires Known(raw, names)
  {
    forall x :: x in RowsIn(raw, names) || HeldFrom(out, 0, x) ==> HeldFrom(out', 0, x)
  }

  /** Every row of an output that k new outputs replace is among the sources or in an output they leave alone. */
  ghost predicate ReplacedRowsCovered(raw: RawFiles, names: seq<string>, out: map<nat, seq<Row>>, k: nat)
    requires Known(raw, names)
  {
    forall i, x :: i in out && i < k && x in out[i] ==> x in RowsIn(raw, names) || HeldFrom(out, k, x)
  }

  /**
   * A run that reports, whatever it deletes and whatever is locked, loses no row if and only if the
   * rows of the outputs it replaces are among its sources or in outputs it leaves alone.
   */
  lemma RunLosesNoRowIffCovered(raw: RawFiles, out: map<nat, seq<Row>>, names: seq<string>, n: int, deleteSources: bool,
                                locked: set<string>, failsAt: Option<nat>, raw': RawFiles, out': map<nat, seq<Row>>, p: Report)
    requires n > 0 && Listing(names, raw) && ChunkNamesKnown(raw, names, n)
    requires CompactionFits(raw, out, names, n, deleteSources, locked, failsAt, raw', out', Reported(p))
    ensures NoRowLost(raw, names, out, out') <==> ReplacedRowsCovered(raw, names, out, |Chunked(names, n)|)
  {
    var outputs := OutputsFor(raw, Chunked(names, n));
    OutputsLength(raw, Chunked(names, n));
    OutputsArePermutation(raw, names, n);
    forall x ensures HeldFrom(out', 0, x) <==> x in RowsIn(raw, names) || HeldFrom(out, |outputs|, x) {
      OverwriteHolds(out, outputs, x);
      assert x in multiset(Concat(outputs)) <==> x in multiset(RowsIn(raw, names));
    }
    if NoRowLost(raw, names, out, out') {
      forall i, x | i in out && i < |outputs| && x in out[i] ensures x in RowsIn(raw, names) || HeldFrom(out, |outputs|, x) {
        assert HeldFrom(out, 0, x);
      }
    }
  }

  /** The sources of the example: two files of one row each. */
  predicate TwoSources(raw: RawFiles, rowA: Row, rowB: Row) {
    && "a" in raw && raw["a"] == Readable([RowGroup([rowA], None)])
    && "b" in raw && raw["b"] == Readable([RowGroup([rowB], None)])
  }

  /**
   * A concrete loss over two runs: the first merges a and b while b is locked and deletes a; the second
   * compacts the left-over b into the same output name. The row of a is then nowhere.
   */
  lemma RerunAfterLockLosesRows(raw: RawFiles, rowA: Row, rowB: Row, raw': RawFiles, out': map<nat, seq<Row>>, r': Outcome,
                                raw'': RawFiles, out'': map<nat, seq<Row>>, r'': Outcome)
    requires TwoSources(raw, rowA, rowB) && Listing(["a", "b"], raw) && ChunkNamesKnown(raw, ["a", "b"], 80)
    requires CompactionFits(raw, map[], ["a", "b"], 80, true, {"b"}, None, raw', out', r')
    requires Listing(["b"], raw') && ChunkNamesKnown(raw', ["b"], 80)
    requires CompactionFits(raw', out', ["b"], 80, true, {}, None, raw'', out'', r'')
    ensures r'.Reported? && r'.report.passed && r''.Reported? && r''.report.passed
    ensures out'.Keys == {0} && multiset(out'[0]) == multiset{rowA, rowB} && out'' == map[0 := [rowB]]
    ensures raw' == raw - {"a"} && raw'' == raw' - {"b"}
    ensures rowA != rowB ==> !HeldFrom(out'', 0, rowA)
  {
    FirstRun(raw, rowA, rowB, raw', out', r');
    SecondRun(raw', out', rowB, raw'', out'', r'');
    OnlyRowHeld(rowA, rowB);
  }

  lemma OnlyRowHeld(rowA: Row, rowB: Row)
    ensures rowA != rowB ==> !HeldFrom(map[0 := [rowB]], 0, rowA)
  {
  }

  /** A deleting run over a single chunk writes output 0 and passes. */
  lemma OneChunkRun(raw: RawFiles, out: map<nat, seq<Row>>, names: seq<string>, locked: set<string>,
                    raw': RawFiles, out': map<nat, seq<Row>>, r: Outcome)
    requires Listing(names, raw) && ChunkNamesKnown(raw, names, 80) && 0 < |names| <= 80
    requires CompactionFits(raw, out, names, 80, true, locked, None, raw', out', r)
    ensures r.Reported? && r.report.passed && Known(raw, names)
    ensures raw' == raw - (NameSet(names) - locked) && out' == out[0 := SortBy(RowsIn(raw, names), RowLeq)]
  {
    OneChunk(raw, names);
    SortPermutes(RowsIn(raw, names), RowLeq);
    OneOutput(out, SortBy(RowsIn(raw, names), RowLeq));
  }

  lemma FirstRun(raw: RawFiles, rowA: Row, rowB: Row, raw': RawFiles, out': map<nat, seq<Row>>, r': Outcome)
    requires TwoSources(raw, rowA, rowB) && Listing(["a", "b"], raw) && ChunkNamesKnown(raw, ["a", "b"], 80)
    requires CompactionFits(raw, map[], ["a", "b"], 80, true, {"b"}, None, raw', out', r')
    ensures r'.Reported? && r'.report.passed && raw' == raw - {"a"}
    ensures out'.Keys == {0} && multiset(out'[0]) == multiset{rowA, rowB}
  {
    OneChunkRun(raw, map[], ["a", "b"], {"b"}, raw', out', r');
    MergedPair(raw, rowA, rowB);
    UnlockedOfPair();
  }

  lemma MergedPair(raw: RawFiles, rowA: Row, rowB: Row)
    requires TwoSources(raw, rowA, rowB)
    ensures Known(raw, ["a", "b"]) && multiset(SortBy(RowsIn(raw, ["a", "b"]), RowLeq)) == multiset{rowA, rowB}
  {
    TwoFiles(raw, rowA, rowB);
    SortPermutes([rowA, rowB], RowLeq);
  }

  lemma UnlockedOfPair()
    ensures NameSet(["a", "b"]) - {"b"} == {"a"}
  {
  }

  lemma SecondRun(raw: RawFiles, out: map<nat, seq<Row>>, row: Row, raw': RawFiles, out': map<nat, seq<Row>>, r': Outcome)
    requires "b" in raw && raw["b"] == Readable([RowGroup([row], None)]) && out.Keys == {0}
    requires Listing(["b"], raw) && ChunkNamesKnown(raw, ["b"], 80)
    requires CompactionFits(raw, out, ["b"], 80, true, {}, None, raw', out', r')
    ensures r'.Reported? && r'.report.passed && raw' == raw - {"b"} && out' == map[0 := [row]]
  {
    OneChunkRun(raw, out, ["b"], {}, raw', out', r');
    SingleLeftOver(raw, row);
    UnlockedOfOne();
  }

  lemma SingleLeftOver(raw: RawFiles, row: Row)
    requires "b" in raw && raw["b"] == Readable([RowGroup([row], None)])
    ensures Known(raw, ["b"]) && SortBy(RowsIn(raw, ["b"]), RowLeq) == [row]
  {
    OneFileRows(raw, "b", row);
    assert SortBy([row][1..], RowLeq) == [];
  }

  lemma UnlockedOfOne()
    ensures NameSet(["b"]) - {} == {"b"}
  {
  }

  lemma TwoFiles(raw: RawFiles, rowA: Row, rowB: Row)
    requires TwoSources(raw, rowA, rowB)
    ensures Known(raw, ["a", "b"]) && RowsIn(raw, ["a", "b"]) == [rowA, rowB]
  {
    OneFileRows(raw, "a", rowA);
    RowsInSnoc(raw, ["a"], "b");
    assert ["a"] + ["b"] == ["a", "b"];
    assert GroupRows([RowGroup([rowB], None)]) == [rowB] by { assert [RowGroup([rowB], None)][..0] == []; }
  }

  lemma OneChunk(raw: RawFiles, names: seq<string>)
    requires Known(raw, names) && 0 < |names| <= 80
    ensures ChunkNamesKnown(raw, names, 80) && OutputsFor(raw, Chunked(names, 80)) == [SortBy(RowsIn(raw, names), RowLeq)]
  {
    assert Chunked(names, 80) == [names];
    assert [names][..0] == [];
  }

  lemma OneOutput(out: map<nat, seq<Row>>, rows: seq<Row>)
    ensures Overwrite(out, [rows]) == out[0 := rows] && RowTotal([rows]) == |rows|
  {
    assert [rows][..0] == [];
  }

  lemma OneFileRows(raw: RawFiles, name: string, row: Row)
    requires name in raw && raw[name] == Readable([RowGroup([row], None)])
    ensures Known(raw, [name]) && RowsIn(raw, [name]) == [row]
  {
    var groups := raw[name].groups;
    assert groups[..0] == [] && GroupRows(groups) == GroupRows([]) + [row];
    assert [name][..0] == [];
    assert RowsIn(raw, [name]) == RowsIn(raw, []) + FileRows(raw[name]);
  }

  // ----- the order of an output

  /** By symbol in dictionary order, then by receive time, then by monotonic time. */
  ghost predicate InOrder(a: Row, b: Row) {
    || Precedes(a.tick.symbol, b.tick.symbol)
    || (a.tick.symbol == b.tick.symbol && a.tick.recv < b.tick.recv)
    || (a.tick.symbol == b.tick.symbol && a.tick.recv == b.tick.recv && a.tick.monotonicNs <= b.tick.monotonicNs)
  }

  /** In every output, each row stands before the next ones by symbol, receive time and monotonic time. */
  lemma OutputsAreOrdered(raw: RawFiles, names: seq<string>, n: int, k: nat, i: nat, j: nat)
    requires n > 0 && Known(raw, names) && ChunkNamesKnown(raw, names, n) && k < |OutputsFor(raw, Chunked(names, n))|
    requires i < j < |OutputsFor(raw, Chunked(names, n))[k]|
    ensures InOrder(OutputsFor(raw, Chunked(names, n))[k][i], OutputsFor(raw, Chunked(names, n))[k][j])
  {
    OutputsLength(raw, Chunked(names, n));
    OutputsArePermutation(raw, names, n);
    var rows := OutputsFor(raw, Chunked(names, n))[k];
    assert RowLeq(rows[i], rows[j]);
    StringLeqIsDictionary(rows[i].tick.symbol, rows[j].tick.symbol);
  }
}
