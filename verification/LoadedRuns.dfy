/** What a load returns: every run's tree, every header, and each versioned run whatever the order of its files. */
module LoadedRuns {
  import opened Core
  import opened Wire
  import opened Hierarchy
  import opened Recovery
  import opened Routing
  import opened Merging
  import opened MergedMessages
  import opened Forests
  import opened Replay
  import opened RunTree

  // ---------- trees ----------

  /** A load returns the completed form of each run built, in order. */
  lemma LoadedRunAt(files: seq<InputFile>, i: nat)
    requires i < |LoadFiles(files).runs|
    ensures var built := WithHeaderRun(ReadFiles(files));
      i < |built| && DistinctIds(built[i].history.scopes) && LoadFiles(files).runs[i] == FinishRun(built[i])
  {
    FilesKeepRouting(files);
    HeaderRunDistinct(ReadFiles(files));
  }

  /**
   A load returns the runs that were built, in order of their first entry, each with its headers and records, then one
   of headers alone if some are left over.
   */
  lemma LoadedInOrder(files: seq<InputFile>)
    ensures var st, runs := ReadFiles(files), LoadFiles(files).runs;
      && |runs| == |st.runs| + (if st.headers == [] then 0 else 1)
      && (forall i :: 0 <= i < |st.runs| ==>
            runs[i].runId == st.runs[i].runId && runs[i].headers == st.runs[i].headers && runs[i].records == st.runs[i].history.records)
      && (st.headers != [] ==>
            var last := runs[|st.runs|]; last.runId == None && last.headers == st.headers && last.records == [])
  {
    FilesKeepRouting(files);
    HeaderRunDistinct(ReadFiles(files));
  }

  lemma HeaderRunDistinct(st: LoaderState)
    requires RunsDistinct(st.runs)
    ensures RunsDistinct(WithHeaderRun(st))
  {
    EmptyDistinct();
  }

  /**
   End to end: whatever the files hold, every scope of every run of the load, placeholders included, occurs exactly
   once in its tree, on exactly one line of the rendering, and under its repaired parent.
   */
  lemma LoadedTree(files: seq<InputFile>, i: nat, x: Scope)
    requires i < |LoadFiles(files).runs|
    ensures var run := LoadFiles(files).runs[i];
      && Occurrences(Tree(run.scopes), x) == (if x in run.scopes then 1 else 0)
      && LinesOf(Preorder(Tree(run.scopes), 0), x) == (if x in run.scopes then 1 else 0)
      && Parented(Tree(run.scopes), None)
      && (forall j, k :: 0 <= j < k < |run.scopes| ==> run.scopes[j].id != run.scopes[k].id)
      && (forall id :: id in run.missing ==> id in ScopeIds(run.scopes))
  {
    LoadedRunAt(files, i);
    var h := WithHeaderRun(ReadFiles(files))[i].history;
    LoadedRunTree(h, x);
    forall id | id in MissingOf(h)
      ensures id in ScopeIds(FinalScopes(h))
    {
      FullIds(h, id);
    }
  }

  // ---------- headers ----------

  function SavedHeaders(runs: seq<SavedRun>): multiset<string> {
    if runs == [] then multiset{} else SavedHeaders(runs[..|runs| - 1]) + multiset(runs[|runs| - 1].headers)
  }

  function FileHeaders(files: seq<InputFile>): multiset<string> {
    if files == [] then multiset{} else FileHeaders(files[..|files| - 1]) + HeaderLines(files[|files| - 1].lines)
  }

  lemma {:induction false} FinishedHeaders(runs: seq<Building>)
    requires RunsDistinct(runs)
    ensures SavedHeaders(FinishAll(runs)) == RunHeaders(runs)
  {
    if runs != [] {
      var init := runs[..|runs| - 1];
      FinishedHeaders(init);
      assert FinishAll(runs)[..|runs| - 1] == FinishAll(init);
    }
  }

  lemma {:induction false} FilesConserveHeaders(files: seq<InputFile>)
    ensures AllHeaders(ReadFiles(files)) == FileHeaders(files)
  {
    if files != [] {
      var n := |files| - 1;
      FilesConserveHeaders(files[..n]);
      HeadersConserved(ReadFiles(files[..n]), files[n].lines, files[n].source);
    }
  }

  lemma HeaderRunHeaders(st: LoaderState)
    ensures RunHeaders(WithHeaderRun(st)) == AllHeaders(st)
  {
    if st.headers != [] {
      var b := Building(None, None, st.headers, EMPTY);
      assert (st.runs + [b])[..|st.runs|] == st.runs;
    }
  }

  /** Every header line of every file is in exactly one run of the load, none lost or duplicated. */
  lemma HeadersDelivered(files: seq<InputFile>)
    ensures SavedHeaders(LoadFiles(files).runs) == FileHeaders(files)
  {
    var st := ReadFiles(files);
    FilesKeepRouting(files);
    HeaderRunDistinct(st);
    FinishedHeaders(WithHeaderRun(st));
    HeaderRunHeaders(st);
    FilesConserveHeaders(files);
  }

  // ---------- versioned runs ----------

  lemma RoutePresent(st: LoaderState, rid: Option<string>, p: Part, source: Option<string>, line: nat, runId: string)
    requires LegacyOk(st)
    ensures FindRun(Route(st, rid, p, source, line).0.runs, runId).Some? <==> FindRun(st.runs, runId).Some? || rid == Some(runId)
  {
    RouteFindsRun(st, rid, p, source, line, runId);
    if Route(st, rid, p, source, line).0.runs != st.runs {
      FindRunPush(st.runs, Building(rid, source, [], EMPTY), runId);
    }
  }

  lemma LinePresent(st: LoaderState, m: Meaning, source: Option<string>, line: nat, runId: string)
    requires LegacyOk(st)
    ensures FindRun(Absorb(st, m, source, line).runs, runId).Some? <==> FindRun(st.runs, runId).Some? || PartFor(m, runId) != []
  {
    if m.Entry? && m.decoded.Accepted? {
      var Accepted(rid, p) := m.decoded;
      RoutePresent(st, rid, p, source, line, runId);
      var (routed, i) := Route(st, rid, p, source, line);
      var run := routed.runs[i];
      FindRunUpdate(routed.runs, i, run.(headers := run.headers + routed.headers, history := AddPart(run.history, p)), runId);
    }
  }

  lemma {:induction false} LinesPresent(st: LoaderState, lines: seq<InputLine>, source: Option<string>, runId: string)
    requires LegacyOk(st)
    ensures FindRun(ReadLines(st, lines, source).runs, runId).Some? <==> FindRun(st.runs, runId).Some? || PartsOf(lines, runId) != []
  {
    if lines != [] {
      var n := |lines| - 1;
      LinesPresent(st, lines[..n], source, runId);
      LinePresent(ReadLines(st, lines[..n], source), MeaningOf(lines[n]), source, n + 1, runId);
    }
  }

  /** A run is opened exactly if some accepted line names it. */
  lemma {:induction false} FilesPresent(files: seq<InputFile>, runId: string)
    ensures FindRun(ReadFiles(files).runs, runId).Some? <==> FileParts(files, runId) != []
  {
    if files != [] {
      var n := |files| - 1;
      FilesPresent(files[..n], runId);
      LinesPresent(ReadFiles(files[..n]), files[n].lines, files[n].source, runId);
    }
  }

  /** The run of a load that completes `h`. */
  ghost predicate Completes(run: SavedRun, runId: string, h: History) {
    && run.runId == Some(runId) && run.records == h.records
    && DistinctIds(h.scopes) && run.scopes == FinalScopes(h) && run.missing == MissingOf(h)
  }

  /** A versioned run is loaded exactly once, as the completion of the fold of its entries over all files. */
  lemma VersionedRunLoaded(files: seq<InputFile>, runId: string) returns (i: nat)
    requires FileParts(files, runId) != []
    ensures var runs := LoadFiles(files).runs;
      && i < |runs| && Completes(runs[i], runId, Fold(EMPTY, FileParts(files, runId)))
      && forall j :: 0 <= j < |runs| && runs[j].runId == Some(runId) ==> j == i
  {
    var st := ReadFiles(files);
    FilesKeepRouting(files);
    FilesPresent(files, runId);
    FilesFoldPerRun(files, runId);
    i := FindRun(st.runs, runId).value;
    OnlyOneRun(st, runId, i);
  }

  lemma OnlyOneRun(st: LoaderState, runId: string, i: nat)
    requires RouteInv(st) && i < |st.runs| && st.runs[i].runId == Some(runId)
    ensures RunsDistinct(WithHeaderRun(st))
    ensures var runs := FinishLoad(st).runs;
      && i < |runs| && Completes(runs[i], runId, st.runs[i].history)
      && forall j :: 0 <= j < |runs| && runs[j].runId == Some(runId) ==> j == i
  {
    HeaderRunDistinct(st);
    var built, runs := WithHeaderRun(st), FinishLoad(st).runs;
    assert built[i] == st.runs[i];
    forall j | 0 <= j < |runs| && runs[j].runId == Some(runId)
      ensures j == i
    {
      assert runs[j].runId == built[j].runId;
      assert built[j] == st.runs[j];
    }
  }

  // ---------- the order of fragments ----------

  /** A scope but for its messages and its parent link. */
  function Outline(s: Scope): Scope {
    s.(parent := None, exitMessages := NO_MESSAGES)
  }

  function Outlines(scopes: seq<Scope>): set<Scope> {
    set s | s in scopes :: Outline(s)
  }

  function UnfinishedRunIds(run: SavedRun): set<ScopeId> {
    set s | s in UnfinishedScopes(run) :: s.id
  }

  /** Two histories that say the same about records, scopes and exit times. */
  ghost predicate Alike(a: History, b: History) {
    && DistinctIds(a.scopes) && DistinctIds(b.scopes)
    && (forall r :: r in a.records <==> r in b.records)
    && Faces(a.scopes) == Faces(b.scopes)
  }

  lemma FaceIn(a: seq<Scope>, b: seq<Scope>, s: Scope) returns (t: Scope)
    requires Faces(a) == Faces(b) && s in a
    ensures t in b && Face(t) == Face(s)
  {
    assert Face(s) in Faces(b);
    t :| t in b && Face(t) == Face(s);
  }

  lemma AlikeDangle(a: History, b: History, id: ScopeId)
    requires Alike(a, b) && Dangling(a.scopes, a.records, id)
    ensures Dangling(b.scopes, b.records, id)
  {
    forall t | t in b.scopes
      ensures t.id != id
    {
      var s := FaceIn(b.scopes, a.scopes, t);
    }
    if s :| s in a.scopes && s.parent == Some(id) {
      var t := FaceIn(a.scopes, b.scopes, s);
    }
  }

  lemma AlikeMissing(a: History, b: History)
    requires Alike(a, b)
    ensures forall id :: id in MissingOf(a) <==> id in MissingOf(b)
  {
    forall id
      ensures id in MissingOf(a) <==> id in MissingOf(b)
    {
      MissingIsDangling(a, id);
      MissingIsDangling(b, id);
      if Dangling(a.scopes, a.records, id) {
        AlikeDangle(a, b, id);
      }
      if Dangling(b.scopes, b.records, id) {
        AlikeDangle(b, a, id);
      }
    }
  }

  lemma PlaceholderIn(h: History, id: ScopeId)
    requires id in MissingOf(h)
    ensures Placeholder(id) in WithPlaceholders(h)
  {
    var i :| 0 <= i < |MissingOf(h)| && MissingOf(h)[i] == id;
    assert WithPlaceholders(h)[|h.scopes| + i] == Placeholder(id);
  }

  lemma FullMember(h: History, s: Scope)
    requires s in WithPlaceholders(h)
    ensures s in h.scopes || (s.id in MissingOf(h) && s == Placeholder(s.id))
  {
    var i :| 0 <= i < |WithPlaceholders(h)| && WithPlaceholders(h)[i] == s;
    if i >= |h.scopes| {
      assert s == Placeholder(MissingOf(h)[i - |h.scopes|]);
    }
  }

  lemma AlikeFull(a: History, b: History, s: Scope) returns (t: Scope)
    requires Alike(a, b) && s in WithPlaceholders(a)
    ensures t in WithPlaceholders(b) && Face(t) == Face(s)
  {
    FullMember(a, s);
    if s in a.scopes {
      t := FaceIn(a.scopes, b.scopes, s);
    } else {
      AlikeMissing(a, b);
      PlaceholderIn(b, s.id);
      t := s;
    }
  }

  /** Completing changes at most parent links. */
  lemma FinalOutlines(h: History)
    requires DistinctIds(h.scopes)
    ensures Outlines(FinalScopes(h)) == Outlines(WithPlaceholders(h))
  {
    var full, final := WithPlaceholders(h), FinalScopes(h);
    forall x | x in Outlines(full)
      ensures x in Outlines(final)
    {
      var i :| 0 <= i < |full| && Outline(full[i]) == x;
      assert Outline(final[i]) == x && final[i] in final;
    }
    forall x | x in Outlines(final)
      ensures x in Outlines(full)
    {
      var i :| 0 <= i < |final| && Outline(final[i]) == x;
      assert Outline(full[i]) == x && full[i] in full;
    }
  }

  lemma AlikeOutlines(a: History, b: History)
    requires Alike(a, b)
    ensures Outlines(FinalScopes(a)) <= Outlines(FinalScopes(b))
  {
    FinalOutlines(a);
    FinalOutlines(b);
    forall x | x in Outlines(WithPlaceholders(a))
      ensures x in Outlines(WithPlaceholders(b))
    {
      var s :| s in WithPlaceholders(a) && Outline(s) == x;
      var t := AlikeFull(a, b, s);
      assert Outline(t) == x;
    }
  }

  lemma AlikeGraph(a: History, b: History)
    requires Alike(a, b)
    ensures ParentGraph(WithPlaceholders(a)) == ParentGraph(WithPlaceholders(b))
  {
    var f, g := WithPlaceholders(a), WithPlaceholders(b);
    PlaceholdersDistinct(a);
    PlaceholdersDistinct(b);
    forall id
      ensures id in ScopeIds(f) <==> id in ScopeIds(g)
      ensures id in ScopeIds(f) ==> ParentOf(f, id) == ParentOf(g, id)
    {
      if id in ScopeIds(f) {
        var s :| s in f && s.id == id;
        var t := AlikeFull(a, b, s);
        ParentOfMember(f, s);
        ParentOfMember(g, t);
      }
      if id in ScopeIds(g) {
        var t :| t in g && t.id == id;
        var s := AlikeFull(b, a, t);
      }
    }
  }

  lemma ParentOfMember(scopes: seq<Scope>, s: Scope)
    requires DistinctIds(scopes) && s in scopes
    ensures ParentOf(scopes, s.id) == s.parent
  {
    var i :| 0 <= i < |scopes| && scopes[i] == s;
    assert IndexOf(scopes, scopes[i].id) == Some(i);
  }

  /** Without cycles nothing is cut, on either side, and the scopes agree in their parents too. */
  lemma AlikeUncut(a: History, b: History)
    requires Alike(a, b) && CutsOf(a) == []
    ensures CutsOf(b) == [] && Faces(FinalScopes(a)) <= Faces(FinalScopes(b))
  {
    var f, g := WithPlaceholders(a), WithPlaceholders(b);
    assert CutLinks(f, []) == f;
    FinalScopesRepaired(a);
    AlikeGraph(a, b);
    PlaceholdersClosed(b);
    IdSeqElems(g);
    AcyclicNeedsNoCut(ParentGraph(g), IdSeq(g));
    assert CutLinks(g, []) == g;
    forall x | x in Faces(f)
      ensures x in Faces(g)
    {
      var s :| s in f && Face(s) == x;
      var t := AlikeFull(a, b, s);
    }
  }

  lemma UnfinishedOutlines(run: SavedRun, other: SavedRun)
    requires Outlines(run.scopes) <= Outlines(other.scopes) && (forall r :: r in run.records <==> r in other.records)
    ensures UnfinishedRunIds(run) <= UnfinishedRunIds(other)
  {
    assert ExitedIds(run.records) == ExitedIds(other.records);
    forall id | id in UnfinishedRunIds(run)
      ensures id in UnfinishedRunIds(other)
    {
      var s :| s in UnfinishedScopes(run) && s.id == id;
      assert Outline(s) in Outlines(other.scopes);
      var t :| t in other.scopes && Outline(t) == Outline(s);
      assert t in UnfinishedScopes(other);
    }
  }

  /** The same run as two loads return it. */
  ghost predicate SameRun(a: SavedRun, b: SavedRun) {
    && (forall r :: r in a.records <==> r in b.records)
    && (forall id :: id in a.missing <==> id in b.missing)
    && Outlines(a.scopes) == Outlines(b.scopes)
    && UnfinishedRunIds(a) == UnfinishedRunIds(b)
  }

  lemma AlikeRuns(a: SavedRun, b: SavedRun, runId: string, ha: History, hb: History)
    requires Alike(ha, hb) && Completes(a, runId, ha) && Completes(b, runId, hb)
    ensures SameRun(a, b)
  {
    AlikeMissing(ha, hb);
    AlikeOutlines(ha, hb);
    AlikeOutlines(hb, ha);
    UnfinishedOutlines(a, b);
    UnfinishedOutlines(b, a);
  }

  /**
   Files that hold the same agreeing entries of a run, split, ordered and repeated in any way and mixed with anything
   else, load to the same run: the same records, scopes, exit times, placeholders and unfinished scopes, the same
   parents too if the hierarchy has no cycle to repair, and the same exit messages if the entries agree on those.
   */
  lemma LoadOrderInsensitive(a: seq<InputFile>, b: seq<InputFile>, runId: string) returns (i: nat, j: nat)
    requires FileParts(a, runId) != [] && forall p :: p in FileParts(a, runId) <==> p in FileParts(b, runId)
    requires AgreeScopes(Snapshots(FileParts(a, runId))) && AgreeRecords(RecordsOf(FileParts(a, runId)))
    ensures var ra, rb := LoadFiles(a).runs, LoadFiles(b).runs;
      && i < |ra| && j < |rb| && ra[i].runId == rb[j].runId == Some(runId) && SameRun(ra[i], rb[j])
      && (Acyclic(ParentGraph(WithPlaceholders(Fold(EMPTY, FileParts(a, runId))))) ==> Faces(ra[i].scopes) == Faces(rb[j].scopes))
      && (AgreeMessages(Snapshots(FileParts(a, runId))) ==> Unlinked(ra[i].scopes) == Unlinked(rb[j].scopes))
  {
    var pa, pb := FileParts(a, runId), FileParts(b, runId);
    assert pa[0] in pb;
    i := VersionedRunLoaded(a, runId);
    j := VersionedRunLoaded(b, runId);
    FoldsAlike(pa, pb);
    AlikeRuns(LoadFiles(a).runs[i], LoadFiles(b).runs[j], runId, Fold(EMPTY, pa), Fold(EMPTY, pb));
    AlikeIfAcyclic(Fold(EMPTY, pa), Fold(EMPTY, pb));
    if AgreeMessages(Snapshots(pa)) {
      FoldsSame(pa, pb);
      SameUnlinked(Fold(EMPTY, pa), Fold(EMPTY, pb));
      SameUnlinked(Fold(EMPTY, pb), Fold(EMPTY, pa));
    }
  }

  /** Scopes but for their parent links. */
  function Unlinked(scopes: seq<Scope>): set<Scope> {
    set s | s in scopes :: s.(parent := None)
  }

  lemma FoldsSame(a: seq<Part>, b: seq<Part>)
    requires forall p :: p in a <==> p in b
    requires AgreeScopes(Snapshots(a)) && AgreeRecords(RecordsOf(a)) && AgreeMessages(Snapshots(a))
    ensures forall s :: s in Fold(EMPTY, a).scopes <==> s in Fold(EMPTY, b).scopes
  {
    assert Snapshots(a) == Snapshots(b) && RecordsOf(a) == RecordsOf(b);
    MergeWithMessages(a, b);
  }

  lemma FinalUnlinked(h: History)
    requires DistinctIds(h.scopes)
    ensures Unlinked(FinalScopes(h)) == Unlinked(WithPlaceholders(h))
  {
    var full, final := WithPlaceholders(h), FinalScopes(h);
    forall x | x in Unlinked(full)
      ensures x in Unlinked(final)
    {
      var i :| 0 <= i < |full| && full[i].(parent := None) == x;
      assert final[i].(parent := None) == x && final[i] in final;
    }
    forall x | x in Unlinked(final)
      ensures x in Unlinked(full)
    {
      var i :| 0 <= i < |final| && final[i].(parent := None) == x;
      assert full[i].(parent := None) == x && full[i] in full;
    }
  }

  lemma SameUnlinked(a: History, b: History)
    requires Alike(a, b) && forall s :: s in a.scopes <==> s in b.scopes
    ensures Unlinked(FinalScopes(a)) <= Unlinked(FinalScopes(b))
  {
    FinalUnlinked(a);
    FinalUnlinked(b);
    AlikeMissing(a, b);
    forall x | x in Unlinked(WithPlaceholders(a))
      ensures x in Unlinked(WithPlaceholders(b))
    {
      var s :| s in WithPlaceholders(a) && s.(parent := None) == x;
      FullMember(a, s);
      if s !in a.scopes {
        PlaceholderIn(b, s.id);
      }
      assert s in WithPlaceholders(b);
    }
  }

  /** Agreeing entries fold to the same, whatever their order and repetition. */
  lemma FoldsAlike(a: seq<Part>, b: seq<Part>)
    requires forall p :: p in a <==> p in b
    requires AgreeScopes(Snapshots(a)) && AgreeRecords(RecordsOf(a))
    requires DistinctIds(Fold(EMPTY, a).scopes) && DistinctIds(Fold(EMPTY, b).scopes)
    ensures Alike(Fold(EMPTY, a), Fold(EMPTY, b))
  {
    assert Snapshots(a) == Snapshots(b) && RecordsOf(a) == RecordsOf(b);
    MergeOrderInsensitive(a, b);
  }

  lemma AlikeIfAcyclic(a: History, b: History)
    requires Alike(a, b)
    ensures Acyclic(ParentGraph(WithPlaceholders(a))) ==> Faces(FinalScopes(a)) == Faces(FinalScopes(b))
  {
    if Acyclic(ParentGraph(WithPlaceholders(a))) {
      UncutIfAcyclic(a);
      AlikeUncut(a, b);
      AlikeUncut(b, a);
    }
  }

  lemma UncutIfAcyclic(h: History)
    requires DistinctIds(h.scopes) && Acyclic(ParentGraph(WithPlaceholders(h)))
    ensures CutsOf(h) == []
  {
    var full := WithPlaceholders(h);
    PlaceholdersClosed(h);
    IdSeqElems(full);
    AcyclicNeedsNoCut(ParentGraph(full), IdSeq(full));
  }

  // ---------- agreeing files raise no conflicts ----------

  predicate Conflict(issue: Issue) {
    issue.kind == ConflictingScope || issue.kind == ConflictingRecord
  }

  ghost predicate NoConflicts(issues: seq<Issue>) {
    forall i :: 0 <= i < |issues| ==> !Conflict(issues[i])
  }

  /** Every accepted entry names its run. */
  ghost predicate AllVersioned(lines: seq<InputLine>) {
    forall i :: 0 <= i < |lines| ==> Versioned(MeaningOf(lines[i]))
  }

  predicate Versioned(m: Meaning) {
    m.Entry? && m.decoded.Accepted? ==> m.decoded.runId.Some?
  }

  ghost predicate AgreeParts(parts: seq<Part>) {
    AgreeScopes(Snapshots(parts)) && AgreeRecords(RecordsOf(parts)) && AgreeExits(RecordsOf(parts))
  }

  lemma AgreePrefix(parts: seq<Part>, more: seq<Part>)
    requires AgreeParts(parts + more)
    ensures AgreeParts(parts)
  {
    assert forall p :: p in parts ==> p in parts + more;
    assert Snapshots(parts) <= Snapshots(parts + more) && RecordsOf(parts) <= RecordsOf(parts + more);
  }

  lemma NextPartAgrees(parts: seq<Part>, p: Part)
    requires AgreeParts(parts + [p])
    ensures PartIssues(Fold(EMPTY, parts), p) == []
  {
    AgreeingFold(parts + [p]);
    assert (parts + [p])[..|parts|] == parts;
  }

  lemma QuietLine(st: LoaderState, m: Meaning, source: Option<string>, line: nat)
    requires LegacyOk(st) && RouteInv(st) && NamedRun(m) && Versioned(m) && RejectionKind(m) && NoConflicts(st.issues)
    requires m.Entry? && m.decoded.Accepted? ==> PartIssues(ContentOf(st, m.decoded.runId.value), m.decoded.part) == []
    ensures NoConflicts(Absorb(st, m, source, line).issues)
  {
    if m.Entry? && m.decoded.Accepted? {
      var Accepted(rid, p) := m.decoded;
      RouteFindsRun(st, rid, p, source, line, rid.value);
    }
  }

  lemma {:induction false} QuietLines(files: seq<InputFile>, lines: seq<InputLine>, source: Option<string>)
    requires NoConflicts(ReadFiles(files).issues) && AllVersioned(lines)
    requires forall runId :: AgreeParts(FileParts(files, runId) + PartsOf(lines, runId))
    ensures NoConflicts(ReadLines(ReadFiles(files), lines, source).issues)
  {
    if lines != [] {
      var n := |lines| - 1;
      var init, m := lines[..n], MeaningOf(lines[n]);
      forall runId
        ensures AgreeParts(FileParts(files, runId) + PartsOf(init, runId))
      {
        SeqAssociative(FileParts(files, runId), PartsOf(init, runId), PartFor(m, runId));
        AgreePrefix(FileParts(files, runId) + PartsOf(init, runId), PartFor(m, runId));
      }
      QuietLines(files, init, source);
      FilesKeepRouting(files);
      LinesKeepRouting(ReadFiles(files), init, source);
      MeaningNamesRun(lines[n]);
      MeaningRejects(lines[n]);
      if m.Entry? && m.decoded.Accepted? {
        NextLineAgrees(files, init, source, m);
      }
      QuietLine(ReadLines(ReadFiles(files), init, source), m, source, n + 1);
    }
  }

  lemma NextLineAgrees(files: seq<InputFile>, init: seq<InputLine>, source: Option<string>, m: Meaning)
    requires m.Entry? && m.decoded.Accepted? && m.decoded.runId.Some?
    requires var runId := m.decoded.runId.value; AgreeParts(FileParts(files, runId) + (PartsOf(init, runId) + [m.decoded.part]))
    ensures PartIssues(ContentOf(ReadLines(ReadFiles(files), init, source), m.decoded.runId.value), m.decoded.part) == []
  {
    var runId, p := m.decoded.runId.value, m.decoded.part;
    var a, b := FileParts(files, runId), PartsOf(init, runId);
    FilesKeepRouting(files);
    VersionedRunIsFold(ReadFiles(files), init, source, runId);
    FilesFoldPerRun(files, runId);
    FoldConcat(EMPTY, a, b);
    SeqAssociative(a, b, [p]);
    NextPartAgrees(a + b, p);
  }

  lemma {:induction false} QuietFiles(files: seq<InputFile>)
    requires forall i :: 0 <= i < |files| ==> AllVersioned(files[i].lines)
    requires forall runId :: AgreeParts(FileParts(files, runId))
    ensures NoConflicts(ReadFiles(files).issues)
  {
    if files != [] {
      var n := |files| - 1;
      forall runId
        ensures AgreeParts(FileParts(files[..n], runId))
      {
        assert AgreeParts(FileParts(files, runId));
        AgreePrefix(FileParts(files[..n], runId), PartsOf(files[n].lines, runId));
      }
      QuietFiles(files[..n]);
      forall runId
        ensures AgreeParts(FileParts(files[..n], runId) + PartsOf(files[n].lines, runId))
      {
        assert AgreeParts(FileParts(files, runId));
      }
      QuietLines(files[..n], files[n].lines, files[n].source);
    }
  }

  lemma {:induction false} FinishingIsQuiet(runs: seq<Building>)
    requires RunsDistinct(runs)
    ensures NoConflicts(FinishAllIssues(runs))
  {
    if runs != [] {
      FinishingIsQuiet(runs[..|runs| - 1]);
    }
  }

  /** Files of versioned entries that agree run by run load without any conflict, in whatever order they come. */
  lemma AgreeingLoadIsQuiet(files: seq<InputFile>)
    requires forall i :: 0 <= i < |files| ==> AllVersioned(files[i].lines)
    requires forall runId :: AgreeParts(FileParts(files, runId))
    ensures NoConflicts(LoadFiles(files).issues)
  {
    QuietFiles(files);
    FilesKeepRouting(files);
    HeaderRunDistinct(ReadFiles(files));
    FinishingIsQuiet(WithHeaderRun(ReadFiles(files)));
  }
}
