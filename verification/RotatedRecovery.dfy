/** Recovery across rotations: a journal written through the rotating file writer, loaded back from its files. */
module RotatedRecovery {
  import opened Core
  import opened Retention
  import opened Wire
  import opened Hierarchy
  import opened Recovery
  import opened Routing
  import opened Journaling
  import opened RoundTrip
  import opened LoadedRuns
  import opened Rotation
  import LogFile

  /** How a line's JSON is written as bytes, and what a reader makes of each write it finds in a file. */
  datatype Format = Format(render: Json -> seq<Byte>, read: Chunk -> InputLine)

  /** Reading undoes writing for the entries of a stream; blank lines and headers are recognised as such. */
  ghost predicate Readable(fmt: Format, es: seq<Emission>, runId: string, headers: File) {
    && (forall e :: e in es ==> fmt.read(Line(fmt.render(LineFor(e, runId)))) == InputLine.Value(LineFor(e, runId)))
    && fmt.read(BlankLine) == Blank
    && (forall c :: c in headers && c.HeaderBlock? ==> fmt.read(c).Header?)
  }

  function Rendered(fmt: Format, es: seq<Emission>, runId: string): seq<seq<Byte>> {
    seq(|es|, i requires 0 <= i < |es| => fmt.render(LineFor(es[i], runId)))
  }

  /** The lines among the writes of a file. */
  function Texts(f: File): seq<seq<Byte>> {
    if f == [] then [] else Texts(f[..|f| - 1]) + TextOf(f[|f| - 1])
  }

  function TextOf(c: Chunk): seq<seq<Byte>> {
    if c.Line? then [c.text] else []
  }

  /** The operations write the stream, a line an entry; headers and reopening may come anywhere in between. */
  ghost predicate Logs(fmt: Format, ops: seq<LogFile.LogOp>, es: seq<Emission>, runId: string) {
    && Texts(LogFile.Requested(ops)) == Rendered(fmt, es, runId)
    && Readable(fmt, es, runId, LogFile.Requested(ops))
  }

  // ---------- from the directory to the loader ----------

  function Lines(f: File, fmt: Format): seq<InputLine> {
    seq(|f|, i requires 0 <= i < |f| => fmt.read(f[i]))
  }

  /** The files of a log as they are passed to the loader: the oldest backup first, the active file last. */
  function LogFiles(slots: seq<Option<File>>, path: string, n: nat, fmt: Format): seq<InputFile> {
    if slots == [] then []
    else
      LogFiles(slots[1..], path, n + 1, fmt)
      + (if slots[0].Some? then [InputFile(Some(SlotName(path, n)), Lines(slots[0].value, fmt))] else [])
  }

  lemma PartsOfSnoc(lines: seq<InputLine>, input: InputLine, runId: string)
    ensures PartsOf(lines + [input], runId) == PartsOf(lines, runId) + PartFor(MeaningOf(input), runId)
  {
    assert (lines + [input])[..|lines|] == lines;
  }

  lemma {:induction false} PartsOfConcat(a: seq<InputLine>, b: seq<InputLine>, runId: string)
    ensures PartsOf(a + b, runId) == PartsOf(a, runId) + PartsOf(b, runId)
  {
    if b == [] {
      assert a + b == a;
    } else {
      var n := |b| - 1;
      assert (a + b)[..|a + b| - 1] == a + b[..n];
      PartsOfConcat(a, b[..n], runId);
      SeqAssociative(PartsOf(a, runId), PartsOf(b[..n], runId), PartFor(MeaningOf(b[n]), runId));
    }
  }

  lemma FilePartsSnoc(files: seq<InputFile>, file: InputFile, runId: string)
    ensures FileParts(files + [file], runId) == FileParts(files, runId) + PartsOf(file.lines, runId)
  {
    assert (files + [file])[..|files|] == files;
  }

  lemma LinesAppend(a: File, b: File, fmt: Format)
    ensures Lines(a + b, fmt) == Lines(a, fmt) + Lines(b, fmt)
  {
  }

  lemma LinesConcat(a: File, b: File, fmt: Format, runId: string)
    ensures PartsOf(Lines(a + b, fmt), runId) == PartsOf(Lines(a, fmt), runId) + PartsOf(Lines(b, fmt), runId)
  {
    LinesAppend(a, b, fmt);
    PartsOfConcat(Lines(a, fmt), Lines(b, fmt), runId);
  }

  lemma OneFileMore(files: seq<InputFile>, source: Option<string>, older: File, f: File, fmt: Format, runId: string)
    requires FileParts(files, runId) == PartsOf(Lines(older, fmt), runId)
    ensures FileParts(files + [InputFile(source, Lines(f, fmt))], runId) == PartsOf(Lines(older + f, fmt), runId)
  {
    FilePartsSnoc(files, InputFile(source, Lines(f, fmt)), runId);
    LinesConcat(older, f, fmt, runId);
  }

  /** The files of a log hold the entries of its history. */
  lemma {:induction false} HistoryParts(slots: seq<Option<File>>, path: string, n: nat, fmt: Format, runId: string)
    ensures FileParts(LogFiles(slots, path, n, fmt), runId) == PartsOf(Lines(Contents(slots), fmt), runId)
  {
    if slots != [] {
      var older := Contents(slots[1..]);
      HistoryParts(slots[1..], path, n + 1, fmt, runId);
      if slots[0].Some? {
        OneFileMore(LogFiles(slots[1..], path, n + 1, fmt), Some(SlotName(path, n)), older, slots[0].value, fmt, runId);
      } else {
        SameFiles(slots, path, n, fmt);
      }
    }
  }

  lemma SameFiles(slots: seq<Option<File>>, path: string, n: nat, fmt: Format)
    requires slots != [] && slots[0].None?
    ensures LogFiles(slots, path, n, fmt) == LogFiles(slots[1..], path, n + 1, fmt) && Contents(slots) == Contents(slots[1..])
  {
    assert LogFiles(slots[1..], path, n + 1, fmt) + [] == LogFiles(slots[1..], path, n + 1, fmt);
  }

  lemma TextsSnoc(f: File, c: Chunk)
    ensures Texts(f + [c]) == Texts(f) + TextOf(c)
  {
    assert (f + [c])[..|f|] == f;
  }

  lemma {:induction false} TextsConcat(a: File, b: File)
    ensures Texts(a + b) == Texts(a) + Texts(b)
  {
    if b == [] {
      assert a + b == a;
    } else {
      var n := |b| - 1;
      assert (a + b)[..|a + b| - 1] == a + b[..n];
      TextsConcat(a, b[..n]);
      SeqAssociative(Texts(a), Texts(b[..n]), TextOf(b[n]));
    }
  }

  lemma {:induction false} TextsWithoutBlanks(f: File)
    ensures Texts(LogFile.WithoutBlanks(f)) == Texts(f)
  {
    if f != [] {
      var n := |f| - 1;
      TextsWithoutBlanks(f[..n]);
      if f[n].BlankLine? {
        assert LogFile.WithoutBlanks(f) == LogFile.WithoutBlanks(f[..n]) && Texts(f) == Texts(f[..n]);
      } else {
        TextsSnoc(LogFile.WithoutBlanks(f[..n]), f[n]);
      }
    }
  }

  lemma {:induction false} OnlyBlanksLeave(f: File, c: Chunk)
    requires c in f && !c.BlankLine?
    ensures c in LogFile.WithoutBlanks(f)
  {
    if c != f[|f| - 1] {
      OnlyBlanksLeave(f[..|f| - 1], c);
    }
  }

  lemma ChunkPart(c: Chunk, fmt: Format, e: Emission, runId: string)
    requires Writable(e) && runId != ""
    requires c == Line(fmt.render(LineFor(e, runId))) && fmt.read(c) == InputLine.Value(LineFor(e, runId))
    ensures PartFor(MeaningOf(fmt.read(c)), runId) == [PartOf(e)]
  {
    LineReadsBack(e, runId);
  }

  lemma LinesSnoc(f: File, c: Chunk, fmt: Format, runId: string)
    ensures PartsOf(Lines(f + [c], fmt), runId) == PartsOf(Lines(f, fmt), runId) + PartFor(MeaningOf(fmt.read(c)), runId)
  {
    assert Lines(f + [c], fmt) == Lines(f, fmt) + [fmt.read(c)];
    PartsOfSnoc(Lines(f, fmt), fmt.read(c), runId);
  }

  /** One more entry, in the file and in the stream. */
  lemma CarriesEntry(f: File, c: Chunk, fmt: Format, es: seq<Emission>, e: Emission, runId: string)
    requires PartsOf(Lines(f, fmt), runId) == PartsFrom(es) && Writable(e) && runId != ""
    requires c == Line(fmt.render(LineFor(e, runId))) && fmt.read(c) == InputLine.Value(LineFor(e, runId))
    ensures PartsOf(Lines(f + [c], fmt), runId) == PartsFrom(es + [e])
  {
    LinesSnoc(f, c, fmt, runId);
    ChunkPart(c, fmt, e, runId);
    PartsFromSnoc(es, e);
  }

  /** A blank line or a header. */
  lemma CarriesOther(f: File, c: Chunk, fmt: Format, runId: string)
    requires fmt.read(c).Blank? || fmt.read(c).Header?
    ensures PartsOf(Lines(f + [c], fmt), runId) == PartsOf(Lines(f, fmt), runId)
  {
    LinesSnoc(f, c, fmt, runId);
  }

  lemma ReadableLess(fmt: Format, es: seq<Emission>, runId: string, f: File, fewer: seq<Emission>, init: File)
    requires Readable(fmt, es, runId, f)
    requires (forall e :: e in fewer ==> e in es) && (forall c :: c in init ==> c in f)
    ensures Readable(fmt, fewer, runId, init)
  {
  }

  /** The lines of the file are those of the stream. */
  ghost predicate Carries(f: File, fmt: Format, es: seq<Emission>, runId: string) {
    && runId != "" && (forall e :: e in es ==> Writable(e))
    && Texts(f) == Rendered(fmt, es, runId) && Readable(fmt, es, runId, f)
  }

  lemma LastEntry(f: File, init: File, c: Chunk, fmt: Format, es: seq<Emission>, runId: string)
    returns (before: seq<Emission>, e: Emission)
    requires Carries(f, fmt, es, runId) && c.Line? && Texts(f) == Texts(init) + [c.text] && forall x :: x in init ==> x in f
    ensures Carries(init, fmt, before, runId) && es == before + [e] && Writable(e)
    ensures c == Line(fmt.render(LineFor(e, runId))) && fmt.read(c) == InputLine.Value(LineFor(e, runId))
  {
    before, e := LastText(init, c, fmt, es, runId);
    ReadableLess(fmt, es, runId, f, before, init);
  }

  lemma LastOther(f: File, init: File, c: Chunk, fmt: Format, es: seq<Emission>, runId: string)
    requires Carries(f, fmt, es, runId) && !c.Line? && Texts(f) == Texts(init) && c in f && forall x :: x in init ==> x in f
    ensures Carries(init, fmt, es, runId) && (fmt.read(c).Blank? || fmt.read(c).Header?)
  {
    ReadableLess(fmt, es, runId, f, es, init);
  }

  /** A file whose lines are those of a stream holds the entries of the stream. */
  lemma {:induction false} FileCarries(f: File, fmt: Format, es: seq<Emission>, runId: string)
    requires Carries(f, fmt, es, runId)
    ensures PartsOf(Lines(f, fmt), runId) == PartsFrom(es)
  {
    if f != [] {
      var init, c := SplitLast(f);
      if c.Line? {
        var before, e := LastEntry(f, init, c, fmt, es, runId);
        FileCarries(init, fmt, before, runId);
        CarriesEntry(init, c, fmt, before, e, runId);
      } else {
        LastOther(f, init, c, fmt, es, runId);
        FileCarries(init, fmt, es, runId);
        CarriesOther(init, c, fmt, runId);
      }
    }
  }

  lemma SplitLast(f: File) returns (init: File, c: Chunk)
    requires f != []
    ensures f == init + [c] && |init| < |f| && c in f && (forall x :: x in init ==> x in f)
    ensures Texts(f) == if c.Line? then Texts(init) + [c.text] else Texts(init)
  {
    init, c := f[..|f| - 1], f[|f| - 1];
  }

  lemma LastText(init: File, c: Chunk, fmt: Format, es: seq<Emission>, runId: string) returns (before: seq<Emission>, e: Emission)
    requires c.Line? && Texts(init) + [c.text] == Rendered(fmt, es, runId)
    ensures es == before + [e] && e in es && (forall x :: x in before ==> x in es)
    ensures Texts(init) == Rendered(fmt, before, runId) && c == Line(fmt.render(LineFor(e, runId)))
  {
    var n := |Texts(init)|;
    assert |Rendered(fmt, es, runId)| == n + 1;
    before, e := es[..n], es[n];
    assert Rendered(fmt, es, runId)[n] == c.text;
    forall i | 0 <= i < n
      ensures Texts(init)[i] == Rendered(fmt, before, runId)[i]
    {
      assert Rendered(fmt, es, runId)[i] == Texts(init)[i];
    }
  }

  /** What the files of a log hold of the stream written to it: all of it but a beginning that rotations have discarded. */
  lemma LogHolds(fmt: Format, st: LogFile.LogState, ops: seq<LogFile.LogOp>, es: seq<Emission>, path: string, runId: string)
    returns (lost: nat)
    requires runId != "" && Logs(fmt, ops, es, runId) && forall e :: e in es ==> Writable(e)
    requires st.lost + Contents(st.slots) == st.written && LogFile.WithoutBlanks(st.written) == LogFile.Requested(ops)
    ensures lost == |Texts(st.lost)| <= |es|
    ensures FileParts(LogFiles(st.slots, path, 0, fmt), runId) == PartsFrom(es[lost..])
    ensures Readable(fmt, es[lost..], runId, Contents(st.slots)) && Texts(Contents(st.slots)) == Rendered(fmt, es[lost..], runId)
  {
    var kept := Contents(st.slots);
    TextsWithoutBlanks(st.written);
    TextsConcat(st.lost, kept);
    lost := |Texts(st.lost)|;
    KeptTexts(Texts(st.lost), Texts(kept), fmt, es, runId);
    forall c | c in kept && c.HeaderBlock?
      ensures c in LogFile.Requested(ops)
    {
      assert c in st.lost + kept;
      OnlyBlanksLeave(st.written, c);
    }
    HistoryParts(st.slots, path, 0, fmt, runId);
    FileCarries(kept, fmt, es[lost..], runId);
  }

  lemma KeptTexts(a: seq<seq<Byte>>, b: seq<seq<Byte>>, fmt: Format, es: seq<Emission>, runId: string)
    requires a + b == Rendered(fmt, es, runId)
    ensures |a| <= |es| && b == Rendered(fmt, es[|a|..], runId)
  {
    assert |a + b| == |es|;
    forall i | 0 <= i < |b|
      ensures b[i] == Rendered(fmt, es[|a|..], runId)[i]
    {
      assert (a + b)[|a| + i] == b[i];
    }
  }

  // ---------- reading several files of one run ----------

  /** Nothing but blank lines, headers and entries of the run. */
  predicate Clean(m: Meaning, runId: string) {
    m.Nothing? || m.HeaderText? || (m.Entry? && m.decoded.Accepted? && m.decoded.runId == Some(runId))
  }

  ghost predicate AllClean(lines: seq<InputLine>, runId: string) {
    forall i :: 0 <= i < |lines| ==> Clean(MeaningOf(lines[i]), runId)
  }

  /** The loader has read these parts of the run, and headers. */
  ghost predicate HasRead(st: LoaderState, runId: string, parts: seq<Part>) {
    if parts == [] then st.legacy.None? && st.issues == [] && st.runs == []
    else HasRun(st, runId, Fold(EMPTY, parts))
  }

  /** The loader has read this content of the run, and headers. */
  ghost predicate HasRun(st: LoaderState, runId: string, h: History) {
    && st.legacy.None? && st.issues == []
    && |st.runs| == 1 && st.runs[0].runId == Some(runId) && st.runs[0].history == h
  }

  lemma ReadsOne(st: LoaderState, p: Part, source: Option<string>, line: nat, runId: string, h: History)
    requires HasRun(st, runId, h) || (st.legacy.None? && st.issues == [] && st.runs == [] && h == EMPTY)
    requires PartIssues(h, p) == []
    ensures HasRun(Absorb(st, Entry(Accepted(Some(runId), p)), source, line), runId, AddPart(h, p))
  {
    var (routed, i) := Route(st, Some(runId), p, source, line);
    assert i == 0 && |routed.runs| == 1 && routed.runs[0].history == h;
  }

  lemma ReadsPart(st: LoaderState, p: Part, source: Option<string>, line: nat, runId: string, parts: seq<Part>)
    requires HasRead(st, runId, parts) && FoldIssues(EMPTY, parts + [p]) == []
    ensures HasRead(Absorb(st, Entry(Accepted(Some(runId), p)), source, line), runId, parts + [p])
  {
    FoldSnoc(EMPTY, parts, p);
    ReadsOne(st, p, source, line, runId, Fold(EMPTY, parts));
  }

  lemma FoldIssuesPrefix(a: seq<Part>, b: seq<Part>)
    requires FoldIssues(EMPTY, a + b) == []
    ensures FoldIssues(EMPTY, a) == []
  {
    FoldConcat(EMPTY, a, b);
  }

  lemma SplitLines(lines: seq<InputLine>, st: LoaderState, source: Option<string>, runId: string)
    returns (init: seq<InputLine>, input: InputLine)
    requires lines != [] && LegacyOk(st) && AllClean(lines, runId)
    ensures lines == init + [input] && |init| < |lines| && AllClean(init, runId) && Clean(MeaningOf(input), runId)
    ensures ReadLines(st, lines, source) == Absorb(ReadLines(st, init, source), MeaningOf(input), source, |lines|)
    ensures PartsOf(lines, runId) == PartsOf(init, runId) + PartFor(MeaningOf(input), runId)
  {
    init, input := lines[..|lines| - 1], lines[|lines| - 1];
  }

  lemma {:induction false} ReadsLines(st: LoaderState, lines: seq<InputLine>, source: Option<string>, runId: string, parts: seq<Part>)
    requires HasRead(st, runId, parts) && AllClean(lines, runId) && FoldIssues(EMPTY, parts + PartsOf(lines, runId)) == []
    ensures HasRead(ReadLines(st, lines, source), runId, parts + PartsOf(lines, runId))
    decreases |lines|
  {
    if lines == [] {
      assert parts + [] == parts;
    } else {
      var init, input := SplitLines(lines, st, source, runId);
      var before, part := parts + PartsOf(init, runId), PartFor(MeaningOf(input), runId);
      SeqAssociative(parts, PartsOf(init, runId), part);
      FoldIssuesPrefix(before, part);
      ReadsLines(st, init, source, runId, parts);
      ReadsMeaning(ReadLines(st, init, source), MeaningOf(input), source, |lines|, runId, before);
    }
  }

  lemma ReadsMeaning(st: LoaderState, m: Meaning, source: Option<string>, line: nat, runId: string, parts: seq<Part>)
    requires HasRead(st, runId, parts) && Clean(m, runId) && FoldIssues(EMPTY, parts + PartFor(m, runId)) == []
    ensures HasRead(Absorb(st, m, source, line), runId, parts + PartFor(m, runId))
  {
    if m.Entry? {
      ReadsPart(st, m.decoded.part, source, line, runId, parts);
    } else {
      assert parts + [] == parts;
    }
  }

  lemma {:induction false} ReadsAll(files: seq<InputFile>, runId: string)
    requires (forall file :: file in files ==> AllClean(file.lines, runId)) && FoldIssues(EMPTY, FileParts(files, runId)) == []
    ensures HasRead(ReadFiles(files), runId, FileParts(files, runId))
  {
    if files != [] {
      var n := |files| - 1;
      assert files[n] in files;
      FoldIssuesPrefix(FileParts(files[..n], runId), PartsOf(files[n].lines, runId));
      ReadsAll(files[..n], runId);
      ReadsLines(ReadFiles(files[..n]), files[n].lines, files[n].source, runId, FileParts(files[..n], runId));
    }
  }

  // ---------- the run that is loaded ----------

  lemma NothingToFinish(b: Building)
    requires b.history == EMPTY
    ensures DistinctIds(b.history.scopes) && FinishIssues(b) == []
    ensures FinishRun(b).records == [] && FinishRun(b).scopes == []
  {
    OlderParentsNeedNoCut(EMPTY);
    assert MissingOf(EMPTY) == [];
  }

  lemma FinishIssuesOfPair(a: Building, b: Building)
    requires DistinctIds(a.history.scopes) && DistinctIds(b.history.scopes)
    ensures FinishAllIssues([a]) == FinishIssues(a)
    ensures FinishAllIssues([a, b]) == FinishIssues(a) + FinishIssues(b)
  {
    assert [a][..0] == [] && [a, b][..1] == [a];
  }

  lemma FinishesQuietly(b: Building, h: History)
    requires b.history == h && DistinctIds(h.scopes) && CutsOf(h) == [] && MissingOf(h) == []
    ensures FinishIssues(b) == [] && FinishRun(b) == SavedRun(b.runId, b.headers, h.records, h.scopes, [])
  {
    assert CutLinks(WithPlaceholders(h), []) == WithPlaceholders(h) == h.scopes;
  }

  /** A run, and perhaps another one of headers only. */
  ghost predicate OnlyRun(runs: seq<SavedRun>, run: SavedRun) {
    && runs != [] && runs[0].(headers := []) == run
    && forall j :: 1 <= j < |runs| ==> runs[j].records == [] && runs[j].scopes == []
  }

  lemma FinishesAlone(b: Building, h: History)
    requires b.history == h && DistinctIds(h.scopes) && CutsOf(h) == [] && MissingOf(h) == []
    ensures RunsDistinct([b]) && FinishAllIssues([b]) == []
    ensures OnlyRun(FinishAll([b]), SavedRun(b.runId, [], h.records, h.scopes, []))
  {
    FinishesQuietly(b, h);
    FinishIssuesOfPair(b, b);
    assert FinishAll([b]) == [FinishRun(b)];
  }

  lemma FinishesPair(b: Building, last: Building, h: History)
    requires b.history == h && DistinctIds(h.scopes) && CutsOf(h) == [] && MissingOf(h) == []
    requires last.history == EMPTY
    ensures RunsDistinct([b, last]) && FinishAllIssues([b, last]) == []
    ensures OnlyRun(FinishAll([b, last]), SavedRun(b.runId, [], h.records, h.scopes, []))
  {
    FinishesQuietly(b, h);
    NothingToFinish(last);
    FinishIssuesOfPair(b, last);
    FinishAllOfPair(b, last);
  }

  lemma FinishAllOfPair(a: Building, b: Building)
    requires DistinctIds(a.history.scopes) && DistinctIds(b.history.scopes)
    ensures RunsDistinct([a, b]) && FinishAll([a, b]) == [FinishRun(a), FinishRun(b)]
  {
  }

  /** Finishing a load of one run that needs no placeholder and no repair. */
  lemma FinishesRead(st: LoaderState, runId: string, h: History)
    requires |st.runs| == 1 && st.runs[0].runId == Some(runId) && st.runs[0].history == h && st.issues == []
    requires DistinctIds(h.scopes) && CutsOf(h) == [] && MissingOf(h) == []
    ensures RunsDistinct(st.runs)
    ensures var loaded := FinishLoad(st);
      loaded.issues == [] && OnlyRun(loaded.runs, SavedRun(Some(runId), [], h.records, h.scopes, []))
  {
    var b, last := st.runs[0], Building(None, None, st.headers, EMPTY);
    FinishesAlone(b, h);
    FinishesPair(b, last, h);
    assert st.runs == [b];
    assert WithHeaderRun(st) == if st.headers == [] then [b] else [b, last];
    assert [] + FinishAllIssues(WithHeaderRun(st)) == FinishAllIssues(WithHeaderRun(st));
  }

  /** A stream spread over several files, with headers in between, is read back whole. */
  lemma FilesRecover(files: seq<InputFile>, es: seq<Emission>, runId: string)
    requires Coherent(es) && OwnReferences(es) && es != []
    requires FileParts(files, runId) == PartsFrom(es) && forall file :: file in files ==> AllClean(file.lines, runId)
    ensures var loaded := LoadFiles(files);
      && loaded.issues == [] && loaded.runs != []
      && RecoveredRun(es, runId, loaded.runs[0].(headers := [])) && OnlyRun(loaded.runs, loaded.runs[0].(headers := []))
  {
    var h := StreamCompletes(es);
    ReadsAll(files, runId);
    FilesKeepRouting(files);
    FinishesRead(ReadFiles(files), runId, h);
    HistoryRecovered(es, runId, h);
  }

  lemma ChunkIsClean(c: Chunk, f: File, fmt: Format, es: seq<Emission>, runId: string)
    requires c in f && runId != "" && Texts(f) == Rendered(fmt, es, runId) && Readable(fmt, es, runId, f)
    requires forall e :: e in es ==> Writable(e)
    ensures Clean(MeaningOf(fmt.read(c)), runId)
  {
    if c.Line? {
      TextIn(f, c);
      var i :| 0 <= i < |Texts(f)| && Texts(f)[i] == c.text;
      assert es[i] in es && c == Line(fmt.render(LineFor(es[i], runId)));
      LineReadsBack(es[i], runId);
    }
  }

  lemma {:induction false} TextIn(f: File, c: Chunk)
    requires c in f && c.Line?
    ensures c.text in Texts(f)
  {
    if c != f[|f| - 1] {
      TextIn(f[..|f| - 1], c);
    }
  }

  lemma {:induction false} LogFilesFrom(slots: seq<Option<File>>, path: string, n: nat, fmt: Format, file: InputFile)
    requires file in LogFiles(slots, path, n, fmt)
    ensures forall input :: input in file.lines ==> exists c :: c in Contents(slots) && fmt.read(c) == input
  {
    if file in LogFiles(slots[1..], path, n + 1, fmt) {
      LogFilesFrom(slots[1..], path, n + 1, fmt, file);
      forall input | input in file.lines
        ensures exists c :: c in Contents(slots) && fmt.read(c) == input
      {
        var c :| c in Contents(slots[1..]) && fmt.read(c) == input;
        assert c in Contents(slots);
      }
    } else {
      forall input | input in file.lines
        ensures exists c :: c in Contents(slots) && fmt.read(c) == input
      {
        var i :| 0 <= i < |file.lines| && file.lines[i] == input;
        assert slots[0].value[i] in Contents(slots);
      }
    }
  }

  lemma LogIsClean(slots: seq<Option<File>>, path: string, fmt: Format, es: seq<Emission>, runId: string)
    requires runId != "" && Texts(Contents(slots)) == Rendered(fmt, es, runId) && Readable(fmt, es, runId, Contents(slots))
    requires forall e :: e in es ==> Writable(e)
    ensures forall file :: file in LogFiles(slots, path, 0, fmt) ==> AllClean(file.lines, runId)
  {
    forall file | file in LogFiles(slots, path, 0, fmt)
      ensures AllClean(file.lines, runId)
    {
      LogFilesFrom(slots, path, 0, fmt, file);
      forall i | 0 <= i < |file.lines|
        ensures Clean(MeaningOf(file.lines[i]), runId)
      {
        assert file.lines[i] in file.lines;
        var c :| c in Contents(slots) && fmt.read(c) == file.lines[i];
        ChunkIsClean(c, Contents(slots), fmt, es, runId);
      }
    }
  }

  // ---------- recovery ----------

  /**
   A journal written, up to any point, through a rotating file writer into a directory without files of the log, with
   session headers and reopening at any time. As long as there were no more rotations than backups, loading the
   backups from the oldest on and then the active file raises no issue and finds the scopes entered, the records
   written and the unfinished scopes exactly, however the stream was cut into files.
   */
  lemma RotatedRecovery(calls: seq<JournalOp>, k: nat, runId: string, policy: LogFile.LogPolicy, slots: seq<Option<File>>,
                        ops: seq<LogFile.LogOp>, path: string, fmt: Format)
    requires |calls| <= U64_MAX && Writing(calls) && OwnParents(calls) && runId != ""
    requires 0 < k <= |OutputOf(calls).written| && Logs(fmt, ops, OutputOf(calls).written[..k], runId)
    requires LogFile.NoFiles(policy, slots) && LogFile.TotalBytes(ops) <= U64_MAX
    requires LogFile.RunLog(policy, LogFile.OpenLog(policy, slots), ops).rotations <= policy.keepBackups
    ensures var st := LogFile.RunLog(policy, LogFile.OpenLog(policy, slots), ops);
      var loaded := LoadFiles(LogFiles(st.slots, path, 0, fmt));
      && loaded.issues == [] && loaded.runs != [] && OnlyRun(loaded.runs, loaded.runs[0].(headers := []))
      && RecoveredRun(OutputOf(calls).written[..k], runId, loaded.runs[0].(headers := []))
  {
    var es, st := OutputOf(calls).written[..k], LogFile.RunLog(policy, LogFile.OpenLog(policy, slots), ops);
    JournalPrefix(calls, k);
    StreamWritable(es);
    LogFile.LogKept(policy, slots, ops);
    NothingLost(st.lost, Contents(st.slots));
    var lost := LogHolds(fmt, st, ops, es, path, runId);
    assert es[0..] == es;
    LogIsClean(st.slots, path, fmt, es, runId);
    FilesRecover(LogFiles(st.slots, path, 0, fmt), es, runId);
  }

  lemma NewTailRecord(records: seq<Record>, id: RecordId, bound: nat)
    requires (forall r :: r in records ==> r.id < bound) && bound <= id
    ensures FindRecord(Canons(records), id) == None
  {
    forall i | 0 <= i < |records|
      ensures Canons(records)[i].id < id
    {
      assert records[i] in records;
    }
  }

  lemma TailSnoc(all: seq<Emission>, tail: seq<Emission>, e: Emission)
    requires Coherent(all + [e])
    requires Fold(EMPTY, PartsFrom(tail)).records == Canons(Recorded(tail))
    requires forall r :: r in Recorded(tail) ==> r.id < RecordBound(all)
    ensures Fold(EMPTY, PartsFrom(tail + [e])).records == Canons(Recorded(tail + [e]))
    ensures forall r :: r in Recorded(tail + [e]) ==> r.id < RecordBound(all + [e])
  {
    Snoc(all, e);
    Snoc(tail, e);
    PartsFromSnoc(tail, e);
    FoldSnoc(EMPTY, PartsFrom(tail), PartOf(e));
    if e.EmitRecord? {
      NewTailRecord(Recorded(tail), e.record.id, RecordBound(all));
      CanonsSnoc(Recorded(tail), e.record);
    }
  }

  /** The records of the end of a stream are all kept when it is read without its beginning. */
  lemma {:induction false} TailRecords(beginning: seq<Emission>, tail: seq<Emission>)
    requires Coherent(beginning + tail)
    ensures Fold(EMPTY, PartsFrom(tail)).records == Canons(Recorded(tail))
    ensures forall r :: r in Recorded(tail) ==> r.id < RecordBound(beginning + tail)
    decreases |tail|
  {
    if tail != [] {
      var init, e := SplitStream(tail);
      assert beginning + tail == (beginning + init) + [e];
      Snoc(beginning + init, e);
      TailRecords(beginning, init);
      TailSnoc(beginning + init, init, e);
    }
  }

  ghost predicate HasRecordsOf(run: SavedRun, runId: string, es: seq<Emission>) {
    run.runId == Some(runId) && run.records == Canons(Recorded(es))
  }

  lemma TailLoads(files: seq<InputFile>, es: seq<Emission>, lost: nat, runId: string) returns (i: nat)
    requires Coherent(es) && lost < |es| && FileParts(files, runId) == PartsFrom(es[lost..])
    ensures i < |LoadFiles(files).runs| && HasRecordsOf(LoadFiles(files).runs[i], runId, es[lost..])
  {
    assert es == es[..lost] + es[lost..];
    TailRecords(es[..lost], es[lost..]);
    i := VersionedRunLoaded(files, runId);
  }

  /**
   The same with any number of rotations: the run that is loaded has exactly the records of the stream from some entry
   on, which is the first one as long as there were no more rotations than backups.
   */
  lemma RotatedRecords(calls: seq<JournalOp>, k: nat, runId: string, policy: LogFile.LogPolicy, slots: seq<Option<File>>,
                       ops: seq<LogFile.LogOp>, path: string, fmt: Format) returns (lost: nat, i: nat)
    requires |calls| <= U64_MAX && Writing(calls) && OwnParents(calls) && runId != ""
    requires k <= |OutputOf(calls).written| && Logs(fmt, ops, OutputOf(calls).written[..k], runId)
    requires LogFile.NoFiles(policy, slots) && LogFile.TotalBytes(ops) <= U64_MAX
    ensures var st := LogFile.RunLog(policy, LogFile.OpenLog(policy, slots), ops);
      var runs := LoadFiles(LogFiles(st.slots, path, 0, fmt)).runs;
      && lost <= k && (st.rotations <= policy.keepBackups ==> lost == 0)
      && (lost < k ==> i < |runs| && HasRecordsOf(runs[i], runId, OutputOf(calls).written[..k][lost..]))
  {
    var es, st := OutputOf(calls).written[..k], LogFile.RunLog(policy, LogFile.OpenLog(policy, slots), ops);
    JournalPrefix(calls, k);
    StreamWritable(es);
    LogFile.LogKept(policy, slots, ops);
    lost := LogHolds(fmt, st, ops, es, path, runId);
    if st.rotations <= policy.keepBackups {
      NothingLost(st.lost, Contents(st.slots));
    }
    i := 0;
    if lost < k {
      i := TailLoads(LogFiles(st.slots, path, 0, fmt), es, lost, runId);
    }
  }

  lemma NothingLost(lost: File, kept: File)
    requires lost + kept == kept
    ensures lost == [] && Texts(lost) == []
  {
    assert |lost + kept| == |lost| + |kept|;
  }

  lemma JournalPrefix(calls: seq<JournalOp>, k: nat)
    requires |calls| <= U64_MAX && Writing(calls) && OwnParents(calls) && k <= |OutputOf(calls).written|
    ensures Coherent(OutputOf(calls).written[..k]) && OwnReferences(OutputOf(calls).written[..k])
  {
    WrittenIsEmitted(calls);
    RunKeeps(calls);
    OwnRun(calls);
    CoherentPrefix(RunOps(calls).emitted, k);
  }
}
