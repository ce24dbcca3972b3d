/** What a journal writes, read back: recovery from any prefix of its output, and the snapshot export. */
module RoundTrip {
  import opened Core
  import opened Retention
  import opened Wire
  import opened Hierarchy
  import opened Recovery
  import opened Routing
  import opened Journaling
  import opened LiveJournal

  // ---------- lines ----------

  /** The JSONL line of one writer call. */
  function LineFor(e: Emission, runId: string): Json {
    match e
    case EmitScope(scope) => EncodeScopeEntry(scope, runId)
    case EmitRecord(record, snapshot) => EncodeRecord(record, snapshot, runId)
  }

  function SavedLines(es: seq<Emission>, runId: string): seq<InputLine> {
    seq(|es|, i requires 0 <= i < |es| => InputLine.Value(LineFor(es[i], runId)))
  }

  /** What the line of a call contributes when it is read back. */
  function PartOf(e: Emission): Part {
    match e
    case EmitScope(scope) => Part(None, Some(scope))
    case EmitRecord(record, snapshot) => Part(Some(Canon(record)), snapshot)
  }

  function PartsFrom(es: seq<Emission>): seq<Part> {
    seq(|es|, i requires 0 <= i < |es| => PartOf(es[i]))
  }

  /** Exits name their scope, and a snapshot is that of the record's scope. */
  predicate Writable(e: Emission) {
    e.EmitRecord? ==>
      && (e.record.kind.ScopeExit? ==> e.record.scope.Some?)
      && (e.snapshot.Some? ==> e.record.scope == Some(e.snapshot.value.id))
  }

  lemma LineReadsBack(e: Emission, runId: string)
    requires Writable(e) && runId != ""
    ensures MeaningOf(InputLine.Value(LineFor(e, runId))) == Entry(Accepted(Some(runId), PartOf(e)))
  {
    match e
    case EmitScope(scope) => ScopeLine(scope, runId);
    case EmitRecord(record, snapshot) => RecordLine(record, snapshot, runId);
  }

  /** The loader after reading one run that raises no issue. */
  function OneRun(runId: string, source: Option<string>, h: History): LoaderState {
    LoaderState([Building(Some(runId), source, [], h)], None, [], [])
  }

  lemma DeliverQuietly(st: LoaderState, h: History, runId: string, p: Part, source: Option<string>, line: nat)
    requires (st == FRESH && h == EMPTY) || st == OneRun(runId, source, h)
    requires PartIssues(h, p) == []
    ensures Absorb(st, Entry(Accepted(Some(runId), p)), source, line) == OneRun(runId, source, AddPart(h, p))
  {
    var (routed, i) := Route(st, Some(runId), p, source, line);
    assert i == 0 && |routed.runs| == 1;
  }

  /** Every line is an accepted entry of the same run. */
  ghost predicate Carry(lines: seq<InputLine>, parts: seq<Part>, runId: string) {
    |lines| == |parts| && forall i :: 0 <= i < |lines| ==> MeaningOf(lines[i]) == Entry(Accepted(Some(runId), parts[i]))
  }

  lemma CarryInit(lines: seq<InputLine>, parts: seq<Part>, runId: string)
    requires Carry(lines, parts, runId) && lines != []
    ensures Carry(lines[..|lines| - 1], parts[..|lines| - 1], runId)
    ensures MeaningOf(lines[|lines| - 1]) == Entry(Accepted(Some(runId), parts[|lines| - 1]))
  {
  }

  lemma ReadLast(lines: seq<InputLine>, source: Option<string>)
    requires lines != []
    ensures ReadLines(FRESH, lines, source)
         == Absorb(ReadLines(FRESH, lines[..|lines| - 1], source), MeaningOf(lines[|lines| - 1]), source, |lines|)
  {
  }

  lemma ReadsOneMore(lines: seq<InputLine>, h: History, p: Part, runId: string, source: Option<string>)
    requires lines != [] && MeaningOf(lines[|lines| - 1]) == Entry(Accepted(Some(runId), p)) && PartIssues(h, p) == []
    requires var st := ReadLines(FRESH, lines[..|lines| - 1], source); (st == FRESH && h == EMPTY) || st == OneRun(runId, source, h)
    ensures ReadLines(FRESH, lines, source) == OneRun(runId, source, AddPart(h, p))
  {
    ReadLast(lines, source);
    DeliverQuietly(ReadLines(FRESH, lines[..|lines| - 1], source), h, runId, p, source, |lines|);
  }

  /** A file of one run whose entries agree is read as the fold of those entries. */
  lemma {:induction false} ReadsOneRun(lines: seq<InputLine>, parts: seq<Part>, runId: string, source: Option<string>)
    requires Carry(lines, parts, runId) && FoldIssues(EMPTY, parts) == []
    ensures ReadLines(FRESH, lines, source) == if lines == [] then FRESH else OneRun(runId, source, Fold(EMPTY, parts))
  {
    if lines != [] {
      var n := |lines| - 1;
      CarryInit(lines, parts, runId);
      FoldLast(parts);
      ReadsOneRun(lines[..n], parts[..n], runId, source);
      ReadsOneMore(lines, Fold(EMPTY, parts[..n]), parts[n], runId, source);
    }
  }

  lemma FoldLast(parts: seq<Part>)
    requires parts != []
    ensures var init, p := parts[..|parts| - 1], parts[|parts| - 1];
      && Fold(EMPTY, parts) == AddPart(Fold(EMPTY, init), p)
      && FoldIssues(EMPTY, parts) == FoldIssues(EMPTY, init) + PartIssues(Fold(EMPTY, init), p)
      && (init == [] ==> Fold(EMPTY, init) == EMPTY)
  {
  }

  lemma SavedLinesCarry(es: seq<Emission>, runId: string)
    requires runId != "" && forall e :: e in es ==> Writable(e)
    ensures Carry(SavedLines(es, runId), PartsFrom(es), runId)
  {
    var lines, parts := SavedLines(es, runId), PartsFrom(es);
    forall i | 0 <= i < |lines|
      ensures MeaningOf(lines[i]) == Entry(Accepted(Some(runId), parts[i]))
    {
      assert es[i] in es;
      LineReadsBack(es[i], runId);
    }
  }

  // ---------- a prefix of the stream ----------

  function Canons(records: seq<Record>): (r: seq<Record>)
    ensures |r| == |records|
  {
    seq(|records|, i requires 0 <= i < |records| => Canon(records[i]))
  }

  /** The recovered scopes: as entered, closed exactly when the stream holds their exit. */
  ghost predicate Recovers(es: seq<Emission>, scopes: seq<Scope>) {
    && |scopes| == |Entered(es)|
    && forall i :: 0 <= i < |scopes| ==> scopes[i].id == i && Faithful(es, scopes[i])
  }

  /** No two retained records share an identifier, and none reaches the bound. */
  lemma {:induction false} RecordedIncreasing(es: seq<Emission>, i: nat, k: nat)
    requires Coherent(es) && i < k <= |Recorded(es)|
    ensures Recorded(es)[i].id < if k < |Recorded(es)| then Recorded(es)[k].id else RecordBound(es)
  {
    var init := es[..|es| - 1];
    if k < |Recorded(init)| {
      RecordedIncreasing(init, i, k);
    } else if i < |Recorded(init)| {
      RecordedIncreasing(init, i, |Recorded(init)|);
    }
  }

  lemma RetainedScopesIncrease(j: JournalState)
    requires JournalInv(j)
    ensures forall i, k :: 0 <= i < k < |j.scopes| ==> j.scopes[i].scope.id < j.scopes[k].scope.id
    ensures forall i :: 0 <= i < |j.scopes| ==> j.scopes[i].scope.id < j.nextScope
  {
    forall i | 0 <= i < |j.scopes|
      ensures j.scopes[i].scope.id < j.nextScope
    {
      assert Faithful(j.emitted, j.scopes[i].scope);
    }
  }

  lemma RetainedRecordsIncrease(es: seq<Emission>, dropped: nat)
    requires Coherent(es) && dropped <= |Recorded(es)|
    ensures var records := Recorded(es)[dropped..];
      && (forall i, k :: 0 <= i < k < |records| ==> records[i].id < records[k].id)
      && (forall i :: 0 <= i < |records| ==> records[i].id < RecordBound(es))
  {
    var records := Recorded(es)[dropped..];
    forall i, k | 0 <= i < k < |records|
      ensures records[i].id < records[k].id
    {
      RecordedIncreasing(es, dropped + i, dropped + k);
    }
    forall i | 0 <= i < |records|
      ensures records[i].id < RecordBound(es)
    {
      RecordedIncreasing(es, dropped + i, |Recorded(es)|);
    }
  }

  /** Over any run of a journal, retained scopes and records are in increasing order, below the next identifiers. */
  lemma RetainedIdentifiers(ops: seq<JournalOp>)
    requires |ops| <= U64_MAX
    ensures var j := RunOps(ops);
      && (forall i, k :: 0 <= i < k < |j.scopes| ==> j.scopes[i].scope.id < j.scopes[k].scope.id)
      && (forall i :: 0 <= i < |j.scopes| ==> j.scopes[i].scope.id < j.nextScope)
      && (forall i, k :: 0 <= i < k < |j.records| ==> j.records[i].id < j.records[k].id)
      && (forall i :: 0 <= i < |j.records| ==> j.records[i].id < j.nextRecord)
  {
    RunKeeps(ops);
    RetainedScopesIncrease(RunOps(ops));
    RetainedRecordsIncrease(RunOps(ops).emitted, RunOps(ops).dropped);
  }

  lemma NewRecord(es: seq<Emission>, r: Record)
    requires Coherent(es) && r.id >= RecordBound(es)
    ensures FindRecord(Canons(Recorded(es)), r.id) == None
  {
    forall i | 0 <= i < |Recorded(es)|
      ensures Canons(Recorded(es))[i].id < r.id
    {
      RecordedIncreasing(es, i, |Recorded(es)|);
    }
  }

  /** Exit records carry exit entries. */
  lemma {:induction false} RecordedExit(es: seq<Emission>, i: nat) returns (k: nat)
    requires i < |Recorded(es)|
    ensures k < |es| && es[k].EmitRecord? && es[k].record == Recorded(es)[i]
    ensures |Recorded(es[..k])| == i
  {
    var n := |es| - 1;
    if i < |Recorded(es[..n])| {
      k := RecordedExit(es[..n], i);
      assert es[..n][..k] == es[..k];
    } else {
      k := n;
    }
  }

  lemma {:induction false} NoFirstExit(records: seq<Record>, id: ScopeId)
    requires forall i :: 0 <= i < |records| ==> !(records[i].kind.ScopeExit? && records[i].scope == Some(id))
    ensures FirstExit(records, id) == None
  {
    if records != [] {
      NoFirstExit(records[..|records| - 1], id);
    }
  }

  lemma NoExitYet(es: seq<Emission>, id: ScopeId)
    requires Coherent(es) && ExitTime(es, id).None?
    ensures FirstExit(Canons(Recorded(es)), id) == None
  {
    var records := Canons(Recorded(es));
    forall i | 0 <= i < |records|
      ensures !(records[i].kind.ScopeExit? && records[i].scope == Some(id))
    {
      var k := RecordedExit(es, i);
      ExitTimeMeans(es, id);
      assert !ExitsScope(es[k], id);
    }
    NoFirstExit(records, id);
  }

  lemma {:induction false} IdentityIndex(scopes: seq<Scope>, id: ScopeId)
    requires forall i :: 0 <= i < |scopes| ==> scopes[i].id == i
    ensures IndexOf(scopes, id) == if id < |scopes| then Some(id) else None
  {
    if id < |scopes| {
      IndexOfLeast(scopes, id, id);
    } else {
      IndexOfNone(scopes, id);
    }
  }

  lemma ScopePartRecovers(es: seq<Emission>, e: Emission, scopes: seq<Scope>)
    requires Coherent(es) && e.EmitScope? && Continues(es, e) && Recovers(es, scopes)
    ensures Recovers(es + [e], AddScope(scopes, e.scope)) && ScopeIssue(scopes, e.scope) == []
  {
    IdentityIndex(scopes, e.scope.id);
    Snoc(es, e);
    var longer := scopes + [e.scope];
    forall i | 0 <= i < |longer|
      ensures longer[i].id == i && Faithful(es + [e], longer[i])
    {
      if i < |scopes| {
        StillFaithful(es, e, scopes[i]);
      } else {
        ExitTimeSnoc(es, e, i);
        ExitTimeMeans(es, i);
      }
    }
  }

  lemma SnapshotRecovers(es: seq<Emission>, e: Emission, scopes: seq<Scope>)
    requires Coherent(es) && e.EmitRecord? && Continues(es, e) && Recovers(es, scopes)
    ensures e.snapshot.Some? ==>
      Recovers(es + [e], AddScope(scopes, e.snapshot.value)) && ScopeIssue(scopes, e.snapshot.value) == []
    ensures e.snapshot.None? ==> Recovers(es + [e], scopes)
  {
    Snoc(es, e);
    var scopes' := if e.snapshot.Some? then AddScope(scopes, e.snapshot.value) else scopes;
    if e.snapshot.Some? {
      IdentityIndex(scopes, e.snapshot.value.id);
      assert Faithful(es, scopes[e.snapshot.value.id]);
    }
    forall i | 0 <= i < |scopes'|
      ensures scopes'[i].id == i && Faithful(es + [e], scopes'[i])
    {
      assert Faithful(es, scopes[i]);
      ExitTimeSnoc(es, e, i);
    }
  }

  /** A record with a new identifier, and no exit before it, is simply appended. */
  lemma AddFresh(h: History, p: Part)
    requires p.record.Some? && FindRecord(h.records, p.record.value.id) == None
    requires var r := p.record.value; r.kind.ScopeExit? && r.scope.Some? ==> FirstExit(h.records, r.scope.value) == None
    ensures AddPart(h, p).records == h.records + [p.record.value]
    ensures AddPart(h, p).scopes == if p.scope.Some? then AddScope(h.scopes, p.scope.value) else h.scopes
    ensures PartIssues(h, p) == if p.scope.Some? then ScopeIssue(h.scopes, p.scope.value) else []
  {
  }

  lemma RecordPartRecovers(es: seq<Emission>, e: Emission, h: History)
    requires Coherent(es) && e.EmitRecord? && Continues(es, e)
    requires Recovers(es, h.scopes) && h.records == Canons(Recorded(es))
    ensures var h' := AddPart(h, PartOf(e)); Recovers(es + [e], h'.scopes) && h'.records == Canons(Recorded(es + [e]))
    ensures PartIssues(h, PartOf(e)) == []
  {
    NewRecord(es, e.record);
    if e.record.kind.ScopeExit? {
      NoExitYet(es, e.record.scope.value);
    }
    AddFresh(h, PartOf(e));
    SnapshotRecovers(es, e, h.scopes);
    Snoc(es, e);
    CanonsSnoc(Recorded(es), e.record);
  }

  lemma CanonsSnoc(records: seq<Record>, r: Record)
    ensures Canons(records + [r]) == Canons(records) + [Canon(r)]
  {
  }

  /** Reading back a coherent stream loses nothing, confuses nothing and complains about nothing. */
  lemma {:induction false} StreamFolds(es: seq<Emission>)
    requires Coherent(es)
    ensures Recovers(es, Fold(EMPTY, PartsFrom(es)).scopes)
    ensures Fold(EMPTY, PartsFrom(es)).records == Canons(Recorded(es))
    ensures FoldIssues(EMPTY, PartsFrom(es)) == []
    decreases |es|
  {
    if es != [] {
      var init, e := SplitStream(es);
      Snoc(init, e);
      StreamFolds(init);
      PartsFromSnoc(init, e);
      FoldSnoc(EMPTY, PartsFrom(init), PartOf(e));
      if e.EmitScope? {
        ScopePartRecovers(init, e, Fold(EMPTY, PartsFrom(init)).scopes);
      } else {
        RecordPartRecovers(init, e, Fold(EMPTY, PartsFrom(init)));
      }
    }
  }

  lemma PartsFromSnoc(es: seq<Emission>, e: Emission)
    ensures PartsFrom(es + [e]) == PartsFrom(es) + [PartOf(e)]
  {
  }

  lemma {:induction false} StreamWritable(es: seq<Emission>)
    requires Coherent(es)
    ensures forall e :: e in es ==> Writable(e)
  {
    if es != [] {
      assert es == es[..|es| - 1] + [es[|es| - 1]];
      StreamWritable(es[..|es| - 1]);
    }
  }

  // ---------- completing the run ----------

  lemma {:induction false} NothingMissing(needed: seq<ScopeId>, known: set<ScopeId>)
    requires forall id :: id in needed ==> id in known
    ensures Missing(needed, known) == []
  {
    if needed != [] {
      assert needed[0] in needed;
      NothingMissing(needed[1..], known);
    }
  }

  /** Parents older than their children leave nothing to repair. */
  lemma OlderParentsNeedNoCut(h: History)
    requires DistinctIds(h.scopes)
    requires forall s :: s in h.scopes && s.parent.Some? ==> s.parent.value < s.id
    ensures CutsOf(h) == [] && FinalScopes(h) == WithPlaceholders(h)
  {
    var full := WithPlaceholders(h);
    var g := ParentGraph(full);
    PlaceholdersClosed(h);
    IdSeqElems(full);
    var rank: Rank := map id | id in ScopeIds(full) :: id;
    forall id {:trigger g[id]} | id in g && g[id].Some?
      ensures g[id].value in g && rank[g[id].value] < rank[id]
    {
      var i := IndexOf(full, id).value;
      assert i < |h.scopes| && full[i] in h.scopes;
    }
    assert Ranked(g, g.Keys, rank);
    AcyclicNeedsNoCut(g, IdSeq(full));
    assert CutLinks(full, []) == full;
  }

  lemma {:induction false} OwnRecord(es: seq<Emission>, i: nat)
    requires Coherent(es) && OwnReferences(es) && i < |Recorded(es)|
    ensures Recorded(es)[i].scope.Some? ==> Recorded(es)[i].scope.value < |Entered(es)|
  {
    var n := |es| - 1;
    if i < |Recorded(es[..n])| {
      OwnRecord(es[..n], i);
    }
  }

  lemma RecoveredDistinct(es: seq<Emission>, scopes: seq<Scope>)
    requires Recovers(es, scopes)
    ensures DistinctIds(scopes)
  {
    DistinctMeans(scopes);
  }

  lemma StreamMissesNothing(es: seq<Emission>, h: History)
    requires Coherent(es) && OwnReferences(es) && Recovers(es, h.scopes) && h.records == Canons(Recorded(es))
    ensures MissingOf(h) == []
    ensures forall s :: s in h.scopes && s.parent.Some? ==> s.parent.value < s.id
  {
    forall s | s in h.scopes && s.parent.Some?
      ensures s.parent.value < s.id
    {
      assert Faithful(es, s);
      OwnParentOf(es, s.id);
    }
    var needed := Parents(h.scopes) + RecordScopes(h.records);
    forall id | id in needed
      ensures id in ScopeIds(h.scopes)
    {
      if id in Parents(h.scopes) {
        ParentsFrom(h.scopes, id);
        var s :| s in h.scopes && s.parent == Some(id);
        assert s.id < |h.scopes|;
      } else {
        RecordScopesFrom(h.records, id);
        var r :| r in h.records && r.scope == Some(id);
        var i :| 0 <= i < |h.records| && h.records[i] == r;
        OwnRecord(es, i);
      }
      assert h.scopes[id].id == id && h.scopes[id] in h.scopes;
    }
    NothingMissing(needed, ScopeIds(h.scopes));
  }

  /** What a prefix of a journal's own output is worth. */
  ghost predicate RecoveredRun(es: seq<Emission>, runId: string, run: SavedRun) {
    && run.runId == Some(runId) && run.headers == [] && run.missing == []
    && run.records == Canons(Recorded(es))
    && Recovers(es, run.scopes)
    && (forall id: ScopeId :: (exists s :: s in UnfinishedScopes(run) && s.id == id)
          <==> id < |Entered(es)| && ExitTime(es, id).None?)
  }

  lemma StreamUnfinished(es: seq<Emission>, run: SavedRun, id: ScopeId)
    requires Coherent(es) && Recovers(es, run.scopes) && run.records == Canons(Recorded(es))
    ensures (exists s :: s in UnfinishedScopes(run) && s.id == id) <==> id < |Entered(es)| && ExitTime(es, id).None?
  {
    if id < |Entered(es)| {
      var s := run.scopes[id];
      assert s in run.scopes && Faithful(es, s) && s.id == id;
      if ExitTime(es, id).None? {
        forall r | r in run.records && r.kind.ScopeExit?
          ensures r.scope != Some(id)
        {
          var i :| 0 <= i < |run.records| && run.records[i] == r;
          var k := RecordedExit(es, i);
          ExitTimeMeans(es, id);
          assert !ExitsScope(es[k], id);
        }
        assert s in UnfinishedScopes(run);
      }
    }
    if x :| x in UnfinishedScopes(run) && x.id == id {
      assert x in run.scopes && Faithful(es, x);
    }
  }

  lemma FinishesOneRun(runId: string, source: Option<string>, h: History)
    requires DistinctIds(h.scopes) && CutsOf(h) == []
    ensures RunsDistinct(OneRun(runId, source, h).runs)
    ensures FinishLoad(OneRun(runId, source, h))
         == SavedJournal([SavedRun(Some(runId), [], h.records, WithPlaceholders(h), MissingOf(h))],
                         Unlocated(|MissingOf(h)|, source, MissingScopeMetadata))
  {
    var b := Building(Some(runId), source, [], h);
    assert [b][..0] == [];
    assert CutLinks(WithPlaceholders(h), []) == WithPlaceholders(h);
    assert FinishAll([b]) == [FinishRun(b)];
    assert FinishAllIssues([b]) == FinishIssues(b);
  }

  lemma ReadsOneFile(file: InputFile)
    ensures ReadFiles([file]) == ReadLines(FRESH, file.lines, file.source)
  {
    assert [file][..0] == [];
    assert ReadFiles([]) == FRESH;
  }

  lemma OneFile(lines: seq<InputLine>, source: Option<string>)
    ensures var st := ReadLines(FRESH, lines, source);
      RunsDistinct(st.runs) && LoadFiles([InputFile(source, lines)]) == FinishLoad(st)
  {
    ReadsOneFile(InputFile(source, lines));
    FilesKeepRouting([InputFile(source, lines)]);
  }

  lemma NothingRead()
    ensures RunsDistinct(FRESH.runs) && FinishLoad(FRESH) == SavedJournal([], [])
  {
  }

  /** Loading a file of one run whose hierarchy needs no repair. */
  lemma LoadsOneRun(lines: seq<InputLine>, parts: seq<Part>, runId: string, source: Option<string>)
    requires Carry(lines, parts, runId) && FoldIssues(EMPTY, parts) == []
    requires var h := Fold(EMPTY, parts); DistinctIds(h.scopes) && CutsOf(h) == []
    ensures var h, loaded := Fold(EMPTY, parts), LoadFiles([InputFile(source, lines)]);
      if lines == [] then loaded == SavedJournal([], [])
      else loaded == SavedJournal([SavedRun(Some(runId), [], h.records, WithPlaceholders(h), MissingOf(h))],
                                  Unlocated(|MissingOf(h)|, source, MissingScopeMetadata))
  {
    OneFile(lines, source);
    ReadsOneRun(lines, parts, runId, source);
    if lines == [] {
      NothingRead();
    } else {
      FinishesOneRun(runId, source, Fold(EMPTY, parts));
    }
  }

  lemma HistoryRecovered(es: seq<Emission>, runId: string, h: History)
    requires Coherent(es) && Recovers(es, h.scopes) && h.records == Canons(Recorded(es))
    ensures RecoveredRun(es, runId, SavedRun(Some(runId), [], h.records, h.scopes, []))
  {
    var run := SavedRun(Some(runId), [], h.records, h.scopes, []);
    forall id: ScopeId
      ensures (exists s :: s in UnfinishedScopes(run) && s.id == id) <==> id < |Entered(es)| && ExitTime(es, id).None?
    {
      StreamUnfinished(es, run, id);
    }
  }

  /** A stream of own references reads back as a history with nothing missing and nothing to repair. */
  lemma StreamCompletes(es: seq<Emission>) returns (h: History)
    requires Coherent(es) && OwnReferences(es)
    ensures h == Fold(EMPTY, PartsFrom(es)) && FoldIssues(EMPTY, PartsFrom(es)) == []
    ensures Recovers(es, h.scopes) && h.records == Canons(Recorded(es))
    ensures DistinctIds(h.scopes) && CutsOf(h) == [] && MissingOf(h) == []
  {
    h := Fold(EMPTY, PartsFrom(es));
    StreamFolds(es);
    RecoveredDistinct(es, h.scopes);
    StreamMissesNothing(es, h);
    OlderParentsNeedNoCut(h);
  }

  lemma StreamLoads(es: seq<Emission>, runId: string, source: Option<string>)
    requires Coherent(es) && OwnReferences(es) && runId != ""
    ensures var loaded := LoadFiles([InputFile(source, SavedLines(es, runId))]);
      loaded.issues == [] && if es == [] then loaded.runs == [] else |loaded.runs| == 1 && RecoveredRun(es, runId, loaded.runs[0])
  {
    StreamWritable(es);
    SavedLinesCarry(es, runId);
    var h := StreamCompletes(es);
    LoadsComplete(SavedLines(es, runId), PartsFrom(es), runId, source, h);
    HistoryRecovered(es, runId, h);
  }

  lemma LoadsComplete(lines: seq<InputLine>, parts: seq<Part>, runId: string, source: Option<string>, h: History)
    requires Carry(lines, parts, runId) && FoldIssues(EMPTY, parts) == [] && h == Fold(EMPTY, parts)
    requires DistinctIds(h.scopes) && CutsOf(h) == [] && MissingOf(h) == []
    ensures LoadFiles([InputFile(source, lines)]) ==
      if lines == [] then SavedJournal([], []) else SavedJournal([SavedRun(Some(runId), [], h.records, h.scopes, [])], [])
  {
    LoadsOneRun(lines, parts, runId, source);
    assert WithPlaceholders(h) == h.scopes;
  }

  /**
   Crash recovery: stop a journal after any prefix of what its writer has received, in any run that writes all its
   entries and passes only its own scopes as parents. Loading reports no issue and finds exactly the scopes entered so
   far, as they were entered, the records written so far, and as unfinished exactly the scopes whose exit was not yet
   written.
   */
  lemma CrashRecovery(ops: seq<JournalOp>, k: nat, runId: string, source: Option<string>)
    requires |ops| <= U64_MAX && Writing(ops) && OwnParents(ops) && runId != ""
    requires k <= |OutputOf(ops).written|
    ensures var es := OutputOf(ops).written[..k];
      var loaded := LoadFiles([InputFile(source, SavedLines(es, runId))]);
      loaded.issues == [] && if k == 0 then loaded.runs == [] else |loaded.runs| == 1 && RecoveredRun(es, runId, loaded.runs[0])
  {
    WrittenIsEmitted(ops);
    RunKeeps(ops);
    OwnRun(ops);
    CoherentPrefix(RunOps(ops).emitted, k);
    StreamLoads(RunOps(ops).emitted[..k], runId, source);
  }

  lemma ReadTorn(lines: seq<InputLine>, source: Option<string>)
    ensures ReadLines(FRESH, lines + [Garbage], source) == AddIssue(ReadLines(FRESH, lines, source), source, |lines| + 1, InvalidLine)
  {
    ReadLast(lines + [Garbage], source);
    assert (lines + [Garbage])[..|lines|] == lines;
  }

  lemma FinishesTorn(st: LoaderState, issue: Issue)
    requires RunsDistinct(st.runs)
    ensures var whole, torn := FinishLoad(st), FinishLoad(st.(issues := st.issues + [issue]));
      torn.runs == whole.runs && multiset(torn.issues) == multiset(whole.issues) + multiset{issue}
  {
  }

  /** A torn last line, whatever precedes it, costs one issue at that line and changes nothing else. */
  lemma TornLine(lines: seq<InputLine>, source: Option<string>)
    ensures var whole, torn := LoadFiles([InputFile(source, lines)]), LoadFiles([InputFile(source, lines + [Garbage])]);
      && torn.runs == whole.runs
      && multiset(torn.issues) == multiset(whole.issues) + multiset{Issue(source, Some(|lines| + 1), InvalidLine)}
  {
    OneFile(lines, source);
    OneFile(lines + [Garbage], source);
    ReadTorn(lines, source);
    FinishesTorn(ReadLines(FRESH, lines, source), Issue(source, Some(|lines| + 1), InvalidLine));
  }
}
