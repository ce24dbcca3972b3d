/** Which run each line ends up in, and that nothing is lost, duplicated or mixed on the way. */
module Routing {
  import opened Core
  import opened Wire
  import opened Retention
  import opened Recovery

  // ---------- the routing invariant ----------

  ghost predicate DistinctRecordIds(records: seq<Record>) {
    forall i, j :: 0 <= i < j < |records| ==> records[i].id != records[j].id
  }

  /**
   Versioned run identities are distinct and not empty; the open legacy run is the last run and has no identity;
   no legacy run repeats a record identifier; every run keeps one entry per scope.
   */
  ghost predicate RouteInv(st: LoaderState) {
    && (forall i, j :: 0 <= i < j < |st.runs| && st.runs[i].runId.Some? ==> st.runs[i].runId != st.runs[j].runId)
    && (forall i :: 0 <= i < |st.runs| ==> st.runs[i].runId != Some(""))
    && (st.legacy.Some? ==> st.legacy.value == |st.runs| - 1 && st.runs[st.legacy.value].runId == None)
    && (forall i :: 0 <= i < |st.runs| && st.runs[i].runId.None? ==> DistinctRecordIds(st.runs[i].history.records))
    && RunsDistinct(st.runs)
  }

  predicate NamedRun(m: Meaning) {
    m.Entry? && m.decoded.Accepted? ==> m.decoded.runId != Some("")
  }

  lemma MeaningNamesRun(input: InputLine)
    ensures NamedRun(MeaningOf(input))
  {
  }

  lemma RouteKeeps(st: LoaderState, runId: Option<string>, p: Part, source: Option<string>, line: nat)
    requires RouteInv(st) && LegacyOk(st) && runId != Some("")
    ensures var (routed, i) := Route(st, runId, p, source, line);
      && RouteInv(routed) && routed.runs[i].runId == runId
      && (runId.None? && p.record.Some? ==> FindRecord(routed.runs[i].history.records, p.record.value.id) == None)
  {
    EmptyDistinct();
    if runId.Some? {
      FindRunNone(st.runs, runId.value);
    }
  }

  lemma {:induction false} FindRunNone(runs: seq<Building>, runId: string)
    ensures FindRun(runs, runId).None? ==> forall j :: 0 <= j < |runs| ==> runs[j].runId != Some(runId)
  {
    if runs != [] {
      FindRunNone(runs[..|runs| - 1], runId);
    }
  }

  lemma EmptyDistinct()
    ensures DistinctIds([]) && FindRecord([], 0) == None
  {
  }

  lemma PartKeepsDistinct(h: History, p: Part)
    requires DistinctIds(h.scopes)
    ensures DistinctIds(AddPart(h, p).scopes)
  {
    if p.scope.Some? {
      AddScopeKeepsDistinct(h.scopes, p.scope.value);
    }
  }

  lemma NewRecordKeepsDistinct(h: History, p: Part)
    requires DistinctRecordIds(h.records) && (p.record.Some? ==> FindRecord(h.records, p.record.value.id) == None)
    ensures DistinctRecordIds(AddPart(h, p).records)
  {
  }

  lemma DeliverKeeps(st: LoaderState, i: nat, p: Part, source: Option<string>, line: nat)
    requires RouteInv(st) && i < |st.runs|
    requires st.runs[i].runId.None? && p.record.Some? ==> FindRecord(st.runs[i].history.records, p.record.value.id) == None
    ensures RouteInv(Deliver(st, i, p, source, line))
  {
    var h := st.runs[i].history;
    PartKeepsDistinct(h, p);
    if st.runs[i].runId.None? {
      NewRecordKeepsDistinct(h, p);
    }
  }

  lemma AbsorbKeepsRouting(st: LoaderState, m: Meaning, source: Option<string>, line: nat)
    requires RouteInv(st) && LegacyOk(st) && NamedRun(m)
    ensures RouteInv(Absorb(st, m, source, line))
  {
    if m.Entry? && m.decoded.Accepted? {
      var Accepted(runId, p) := m.decoded;
      RouteKeeps(st, runId, p, source, line);
      var (routed, i) := Route(st, runId, p, source, line);
      DeliverKeeps(routed, i, p, source, line);
    }
  }

  /** Every line keeps the routing invariant. */
  lemma LineKeepsRouting(st: LoaderState, input: InputLine, source: Option<string>, line: nat)
    requires RouteInv(st) && LegacyOk(st)
    ensures RouteInv(ReadLine(st, input, source, line))
  {
    MeaningNamesRun(input);
    AbsorbKeepsRouting(st, MeaningOf(input), source, line);
  }

  lemma {:induction false} LinesKeepRouting(st: LoaderState, lines: seq<InputLine>, source: Option<string>)
    requires RouteInv(st) && LegacyOk(st)
    ensures RouteInv(ReadLines(st, lines, source))
  {
    if lines != [] {
      var n := |lines| - 1;
      LinesKeepRouting(st, lines[..n], source);
      LineKeepsRouting(ReadLines(st, lines[..n], source), lines[n], source, n + 1);
    }
  }

  // ---------- several files ----------

  datatype InputFile = InputFile(source: Option<string>, lines: seq<InputLine>)

  function ReadFiles(files: seq<InputFile>): (st: LoaderState)
    ensures LegacyOk(st)
  {
    if files == [] then FRESH
    else
      var n := |files| - 1;
      ReadLines(ReadFiles(files[..n]), files[n].lines, files[n].source)
  }

  lemma {:induction false} FilesKeepRouting(files: seq<InputFile>)
    ensures RouteInv(ReadFiles(files))
  {
    if files != [] {
      var n := |files| - 1;
      FilesKeepRouting(files[..n]);
      LinesKeepRouting(ReadFiles(files[..n]), files[n].lines, files[n].source);
    }
  }

  /** What a load returns. */
  function LoadFiles(files: seq<InputFile>): SavedJournal {
    FilesKeepRouting(files);
    FinishLoad(ReadFiles(files))
  }

  // ---------- headers are conserved ----------

  function RunHeaders(runs: seq<Building>): multiset<string> {
    if runs == [] then multiset{} else RunHeaders(runs[..|runs| - 1]) + multiset(runs[|runs| - 1].headers)
  }

  function AllHeaders(st: LoaderState): multiset<string> {
    RunHeaders(st.runs) + multiset(st.headers)
  }

  function HeaderLines(lines: seq<InputLine>): multiset<string> {
    if lines == [] then multiset{}
    else
      HeaderLines(lines[..|lines| - 1]) + HeaderOf(MeaningOf(lines[|lines| - 1]))
  }

  lemma {:induction false} HeadersAppended(runs: seq<Building>, i: nat, run: Building, more: seq<string>)
    requires i < |runs| && run.headers == runs[i].headers + more
    ensures RunHeaders(runs[i := run]) == RunHeaders(runs) + multiset(more)
  {
    var n := |runs| - 1;
    var updated := runs[i := run];
    if i == n {
      assert updated[..n] == runs[..n];
    } else {
      assert updated[..n] == runs[..n][i := run];
      HeadersAppended(runs[..n], i, run, more);
    }
  }

  lemma EmptyRunHeaders(runs: seq<Building>, run: Building)
    requires run.headers == []
    ensures RunHeaders(runs + [run]) == RunHeaders(runs)
  {
    assert (runs + [run])[..|runs|] == runs;
  }

  function HeaderOf(m: Meaning): multiset<string> {
    if m.HeaderText? then multiset{m.text} else multiset{}
  }

  lemma RouteKeepsHeaders(st: LoaderState, runId: Option<string>, p: Part, source: Option<string>, line: nat)
    requires LegacyOk(st)
    ensures AllHeaders(Route(st, runId, p, source, line).0) == AllHeaders(st)
  {
    var routed := Route(st, runId, p, source, line).0;
    if routed.runs != st.runs {
      EmptyRunHeaders(st.runs, routed.runs[|st.runs|]);
    }
  }

  lemma DeliverKeepsHeaders(st: LoaderState, i: nat, p: Part, source: Option<string>, line: nat)
    requires i < |st.runs|
    ensures AllHeaders(Deliver(st, i, p, source, line)) == AllHeaders(st)
  {
    var run := st.runs[i];
    HeadersAppended(st.runs, i, run.(headers := run.headers + st.headers, history := AddPart(run.history, p)), st.headers);
  }

  lemma HeaderPending(st: LoaderState, text: string)
    ensures AllHeaders(st.(headers := st.headers + [text], legacy := None)) == AllHeaders(st) + multiset{text}
  {
    assert multiset(st.headers + [text]) == multiset(st.headers) + multiset{text};
  }

  lemma AbsorbKeepsHeaders(st: LoaderState, m: Meaning, source: Option<string>, line: nat)
    requires LegacyOk(st)
    ensures AllHeaders(Absorb(st, m, source, line)) == AllHeaders(st) + HeaderOf(m)
  {
    if m.HeaderText? {
      HeaderPending(st, m.text);
    } else if m.Entry? && m.decoded.Accepted? {
      var Accepted(runId, p) := m.decoded;
      var (routed, i) := Route(st, runId, p, source, line);
      RouteKeepsHeaders(st, runId, p, source, line);
      DeliverKeepsHeaders(routed, i, p, source, line);
    }
  }

  /** No header line is lost or duplicated: each is pending or in exactly one run. */
  lemma {:induction false} HeadersConserved(st: LoaderState, lines: seq<InputLine>, source: Option<string>)
    requires LegacyOk(st)
    ensures AllHeaders(ReadLines(st, lines, source)) == AllHeaders(st) + HeaderLines(lines)
  {
    if lines != [] {
      var n := |lines| - 1;
      HeadersConserved(st, lines[..n], source);
      AbsorbKeepsHeaders(ReadLines(st, lines[..n], source), MeaningOf(lines[n]), source, n + 1);
    }
  }

  // ---------- every line is accounted for ----------

  function CountRejections(issues: seq<Issue>): nat {
    if issues == [] then 0
    else
      var k := issues[|issues| - 1].kind;
      CountRejections(issues[..|issues| - 1]) + (if k == InvalidLine || k == UnsupportedVersion then 1 else 0)
  }

  predicate Rejects(m: Meaning) {
    m.Entry? && m.decoded.Rejected?
  }

  /** Rejected lines are those that are malformed or of an unknown version. */
  predicate RejectionKind(m: Meaning) {
    Rejects(m) ==> m.decoded.kind == InvalidLine || m.decoded.kind == UnsupportedVersion
  }

  lemma MeaningRejects(input: InputLine)
    ensures RejectionKind(MeaningOf(input))
  {
  }

  function CountRejected(lines: seq<InputLine>): nat {
    if lines == [] then 0
    else CountRejected(lines[..|lines| - 1]) + (if Rejects(MeaningOf(lines[|lines| - 1])) then 1 else 0)
  }

  lemma {:induction false} CountConcat(a: seq<Issue>, b: seq<Issue>)
    ensures CountRejections(a + b) == CountRejections(a) + CountRejections(b)
  {
    if b == [] {
      assert a + b == a;
    } else {
      assert (a + b)[..|a + b| - 1] == a + b[..|b| - 1];
      CountConcat(a, b[..|b| - 1]);
    }
  }

  lemma {:induction false} NoRejections(issues: seq<Issue>)
    requires forall i :: 0 <= i < |issues| ==> issues[i].kind != InvalidLine && issues[i].kind != UnsupportedVersion
    ensures CountRejections(issues) == 0
  {
    if issues != [] {
      NoRejections(issues[..|issues| - 1]);
    }
  }

  lemma OneIssue(issues: seq<Issue>, issue: Issue)
    ensures CountRejections(issues + [issue])
         == CountRejections(issues) + (if issue.kind == InvalidLine || issue.kind == UnsupportedVersion then 1 else 0)
  {
    assert (issues + [issue])[..|issues|] == issues;
  }

  lemma RouteAccounted(st: LoaderState, runId: Option<string>, p: Part, source: Option<string>, line: nat)
    requires LegacyOk(st)
    ensures var routed := Route(st, runId, p, source, line).0;
      CountRejections(routed.issues) == CountRejections(st.issues) && st.issues <= routed.issues
  {
    OneIssue(st.issues, Issue(source, Some(line), InferredRunBoundary));
  }

  lemma PartIssueKinds(h: History, p: Part)
    ensures forall i :: 0 <= i < |PartIssues(h, p)| ==> PartIssues(h, p)[i] == ConflictingScope || PartIssues(h, p)[i] == ConflictingRecord
  {
  }

  lemma LocatedRejectsNothing(kinds: seq<IssueKind>, source: Option<string>, line: nat)
    requires forall i :: 0 <= i < |kinds| ==> kinds[i] == ConflictingScope || kinds[i] == ConflictingRecord
    ensures CountRejections(Located(kinds, source, line)) == 0
  {
    NoRejections(Located(kinds, source, line));
  }

  lemma DeliverAccounted(st: LoaderState, i: nat, p: Part, source: Option<string>, line: nat)
    requires i < |st.runs|
    ensures var st' := Deliver(st, i, p, source, line);
      CountRejections(st'.issues) == CountRejections(st.issues) && st.issues <= st'.issues
  {
    var kinds := PartIssues(st.runs[i].history, p);
    PartIssueKinds(st.runs[i].history, p);
    LocatedRejectsNothing(kinds, source, line);
    CountConcat(st.issues, Located(kinds, source, line));
  }

  /**
   A rejected line leaves exactly one rejection issue and changes no run; any other line leaves none.
   A blank or rejected line does not end a legacy run; a header does.
   */
  lemma LineAccounted(st: LoaderState, m: Meaning, source: Option<string>, line: nat)
    requires LegacyOk(st) && RejectionKind(m)
    ensures var st' := Absorb(st, m, source, line);
      && st.issues <= st'.issues
      && CountRejections(st'.issues) == CountRejections(st.issues) + (if Rejects(m) then 1 else 0)
      && (Rejects(m) || m.Nothing? ==> st'.runs == st.runs && st'.legacy == st.legacy && st'.headers == st.headers)
      && (m.HeaderText? ==> st'.runs == st.runs && st'.issues == st.issues && st'.legacy == None)
  {
    if Rejects(m) {
      OneIssue(st.issues, Issue(source, Some(line), m.decoded.kind));
    } else if m.Entry? {
      var Accepted(runId, p) := m.decoded;
      RouteAccounted(st, runId, p, source, line);
      var (routed, i) := Route(st, runId, p, source, line);
      DeliverAccounted(routed, i, p, source, line);
    }
  }

  /** Over a whole file, the rejection issues are exactly as many as the rejected lines. */
  lemma {:induction false} LinesAccounted(st: LoaderState, lines: seq<InputLine>, source: Option<string>)
    requires LegacyOk(st)
    ensures CountRejections(ReadLines(st, lines, source).issues) == CountRejections(st.issues) + CountRejected(lines)
  {
    if lines != [] {
      var n := |lines| - 1;
      LinesAccounted(st, lines[..n], source);
      MeaningRejects(lines[n]);
      LineAccounted(ReadLines(st, lines[..n], source), MeaningOf(lines[n]), source, n + 1);
    }
  }

  // ---------- each versioned run is the fold of its own entries ----------

  /** What a line holds for one versioned run. */
  function PartFor(m: Meaning, runId: string): seq<Part> {
    if m.Entry? && m.decoded.Accepted? && m.decoded.runId == Some(runId) then [m.decoded.part] else []
  }

  function PartsOf(lines: seq<InputLine>, runId: string): seq<Part> {
    if lines == [] then []
    else PartsOf(lines[..|lines| - 1], runId) + PartFor(MeaningOf(lines[|lines| - 1]), runId)
  }

  function ContentOf(st: LoaderState, runId: string): History {
    var i := FindRun(st.runs, runId);
    if i.Some? then st.runs[i.value].history else EMPTY
  }

  lemma {:induction false} FindRunUpdate(runs: seq<Building>, i: nat, run: Building, runId: string)
    requires i < |runs| && run.runId == runs[i].runId
    ensures FindRun(runs[i := run], runId) == FindRun(runs, runId)
  {
    var n := |runs| - 1;
    var updated := runs[i := run];
    if i == n {
      assert updated[..n] == runs[..n];
    } else {
      assert updated[..n] == runs[..n][i := run];
      FindRunUpdate(runs[..n], i, run, runId);
    }
  }

  lemma FindRunPush(runs: seq<Building>, run: Building, runId: string)
    ensures FindRun(runs + [run], runId) == if run.runId == Some(runId) then Some(|runs|) else FindRun(runs, runId)
  {
    assert (runs + [run])[..|runs|] == runs;
  }

  /** Creating an empty run, or finding an existing one, changes no run's content. */
  lemma PushKeepsContent(st: LoaderState, run: Building, st': LoaderState, runId: string)
    requires st'.runs == st.runs + [run] && run.history == EMPTY
    requires run.runId == Some(runId) ==> FindRun(st.runs, runId) == None
    ensures ContentOf(st', runId) == ContentOf(st, runId)
  {
    FindRunPush(st.runs, run, runId);
  }

  lemma RouteFindsRun(st: LoaderState, rid: Option<string>, p: Part, source: Option<string>, line: nat, runId: string)
    requires LegacyOk(st)
    ensures var (routed, i) := Route(st, rid, p, source, line);
      && ContentOf(routed, runId) == ContentOf(st, runId)
      && (rid == Some(runId) ==> FindRun(routed.runs, runId) == Some(i))
  {
    var (routed, i) := Route(st, rid, p, source, line);
    if routed.runs != st.runs {
      PushKeepsContent(st, Building(rid, source, [], EMPTY), routed, runId);
      FindRunPush(st.runs, Building(rid, source, [], EMPTY), runId);
    }
  }

  lemma FoldOne(h: History, p: Part)
    ensures Fold(h, [p]) == AddPart(h, p)
  {
    assert [p][..0] == [];
  }

  lemma DeliverFeeds(st: LoaderState, i: nat, p: Part, source: Option<string>, line: nat, runId: string)
    requires i < |st.runs| && (st.runs[i].runId == Some(runId) ==> FindRun(st.runs, runId) == Some(i))
    ensures ContentOf(Deliver(st, i, p, source, line), runId)
         == if st.runs[i].runId == Some(runId) then AddPart(ContentOf(st, runId), p) else ContentOf(st, runId)
  {
    var run := st.runs[i];
    FindRunUpdate(st.runs, i, run.(headers := run.headers + st.headers, history := AddPart(run.history, p)), runId);
  }

  lemma LineFeedsRun(st: LoaderState, m: Meaning, source: Option<string>, line: nat, runId: string)
    requires LegacyOk(st) && RouteInv(st) && NamedRun(m)
    ensures ContentOf(Absorb(st, m, source, line), runId) == Fold(ContentOf(st, runId), PartFor(m, runId))
  {
    if m.Entry? && m.decoded.Accepted? {
      var Accepted(rid, p) := m.decoded;
      RouteKeeps(st, rid, p, source, line);
      var (routed, i) := Route(st, rid, p, source, line);
      RouteFindsRun(st, rid, p, source, line, runId);
      DeliverFeeds(routed, i, p, source, line, runId);
      FoldOne(ContentOf(st, runId), p);
    }
  }

  lemma FoldSnoc(h: History, parts: seq<Part>, p: Part)
    ensures Fold(h, parts + [p]) == AddPart(Fold(h, parts), p)
    ensures FoldIssues(h, parts + [p]) == FoldIssues(h, parts) + PartIssues(Fold(h, parts), p)
  {
    assert (parts + [p])[..|parts|] == parts;
  }

  lemma SplitParts(parts: seq<Part>) returns (init: seq<Part>, p: Part)
    requires parts != []
    ensures parts == init + [p] && |init| < |parts|
  {
    init, p := parts[..|parts| - 1], parts[|parts| - 1];
  }

  lemma {:induction false} FoldConcat(h: History, a: seq<Part>, b: seq<Part>)
    ensures Fold(h, a + b) == Fold(Fold(h, a), b)
    ensures FoldIssues(h, a + b) == FoldIssues(h, a) + FoldIssues(Fold(h, a), b)
    decreases |b|
  {
    if b == [] {
      assert a + b == a && FoldIssues(h, a) + [] == FoldIssues(h, a);
    } else {
      var init, p := SplitParts(b);
      SeqAssociative(a, init, [p]);
      FoldSnoc(h, a + init, p);
      FoldSnoc(Fold(h, a), init, p);
      FoldConcat(h, a, init);
      SeqAssociative(FoldIssues(h, a), FoldIssues(Fold(h, a), init), PartIssues(Fold(h, a + init), p));
    }
  }

  /**
   Demultiplexing: whatever else is interleaved with it, in this file or in others, a versioned run is the fold of
   exactly its own entries, in order.
   */
  lemma {:induction false} VersionedRunIsFold(st: LoaderState, lines: seq<InputLine>, source: Option<string>, runId: string)
    requires LegacyOk(st) && RouteInv(st)
    ensures ContentOf(ReadLines(st, lines, source), runId) == Fold(ContentOf(st, runId), PartsOf(lines, runId))
  {
    if lines != [] {
      var n := |lines| - 1;
      var before, m := ReadLines(st, lines[..n], source), MeaningOf(lines[n]);
      LinesKeepRouting(st, lines[..n], source);
      MeaningNamesRun(lines[n]);
      VersionedRunIsFold(st, lines[..n], source, runId);
      LineFeedsRun(before, m, source, n + 1, runId);
      FoldConcat(ContentOf(st, runId), PartsOf(lines[..n], runId), PartFor(m, runId));
    }
  }

  function FileParts(files: seq<InputFile>, runId: string): seq<Part> {
    if files == [] then []
    else FileParts(files[..|files| - 1], runId) + PartsOf(files[|files| - 1].lines, runId)
  }

  lemma {:induction false} FilesFoldPerRun(files: seq<InputFile>, runId: string)
    ensures ContentOf(ReadFiles(files), runId) == Fold(EMPTY, FileParts(files, runId))
  {
    if files != [] {
      var n := |files| - 1;
      FilesFoldPerRun(files[..n], runId);
      FilesKeepRouting(files[..n]);
      VersionedRunIsFold(ReadFiles(files[..n]), files[n].lines, files[n].source, runId);
      FoldConcat(EMPTY, FileParts(files[..n], runId), PartsOf(files[n].lines, runId));
    }
  }
}
