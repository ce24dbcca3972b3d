/** The snapshot export of a journal, and loading it back. */
module Export {
  import opened Core
  import opened Retention
  import opened Wire
  import opened Hierarchy
  import opened Recovery
  import opened Routing
  import opened Journaling
  import opened LiveJournal
  import opened RoundTrip

  function Snapshot(scopes: seq<Scope>, r: Record): Option<Scope> {
    if r.scope.Some? && IndexOf(scopes, r.scope.value).Some? then Some(scopes[IndexOf(scopes, r.scope.value).value]) else None
  }

  function RecordCalls(scopes: seq<Scope>, records: seq<Record>): seq<Emission> {
    seq(|records|, i requires 0 <= i < |records| => EmitRecord(records[i], Snapshot(scopes, records[i])))
  }

  /** All retained scopes, then all retained records with the retained scope each belongs to. */
  function ExportCalls(scopes: seq<Scope>, records: seq<Record>): seq<Emission> {
    ScopeCalls(scopes) + RecordCalls(scopes, records)
  }

  /** Each record comes with the retained scope it belongs to, and without one only if that scope is not retained. */
  lemma ExportedRecord(scopes: seq<Scope>, records: seq<Record>, i: nat)
    requires i < |records|
    ensures var e := ExportCalls(scopes, records)[|scopes| + i];
      && e.EmitRecord? && e.record == records[i]
      && (e.snapshot.Some? ==> e.snapshot.value in scopes && records[i].scope == Some(e.snapshot.value.id))
      && (e.snapshot.None? ==> forall s :: s in scopes ==> records[i].scope != Some(s.id))
    ensures forall k :: 0 <= k < |scopes| ==> ExportCalls(scopes, records)[k] == EmitScope(scopes[k])
  {
    if records[i].scope.Some? {
      IndexOfNone(scopes, records[i].scope.value);
    }
  }

  // ---------- the export itself ----------

  /** First match wins, as in a linear search. */
  method IndexScopes(scopes: seq<Scope>) returns (index: map<ScopeId, Scope>)
    ensures forall id: ScopeId :: id in index <==> IndexOf(scopes, id).Some?
    ensures forall id :: id in index ==> index[id] == scopes[IndexOf(scopes, id).value]
  {
    index := map[];
    var i := 0;
    while i < |scopes|
      invariant i <= |scopes|
      invariant forall id: ScopeId :: id in index <==> IndexOf(scopes[..i], id).Some?
      invariant forall id :: id in index ==> index[id] == scopes[IndexOf(scopes[..i], id).value]
    {
      assert scopes[..i + 1] == scopes[..i] + [scopes[i]];
      forall id: ScopeId
        ensures IndexOf(scopes[..i + 1], id)
             == if IndexOf(scopes[..i], id).Some? then IndexOf(scopes[..i], id) else if scopes[i].id == id then Some(i) else None
      {
        IndexOfSnoc(scopes[..i], scopes[i], id);
      }
      if scopes[i].id !in index {
        index := index[scopes[i].id := scopes[i]];
      }
      i := i + 1;
    }
    assert scopes[..i] == scopes;
  }

  function Lines(es: seq<Emission>, runId: string): seq<Json> {
    seq(|es|, i requires 0 <= i < |es| => LineFor(es[i], runId))
  }

  lemma LinesSnoc(es: seq<Emission>, k: nat, runId: string)
    requires k < |es|
    ensures Lines(es[..k + 1], runId) == Lines(es[..k], runId) + [LineFor(es[k], runId)]
  {
  }

  method RenderScopes(scopes: seq<Scope>, runId: string) returns (lines: seq<Json>)
    ensures lines == Lines(ScopeCalls(scopes), runId)
  {
    ghost var calls := ScopeCalls(scopes);
    lines := [];
    for i := 0 to |scopes|
      invariant lines == Lines(calls[..i], runId)
    {
      LinesSnoc(calls, i, runId);
      lines := lines + [LineFor(EmitScope(scopes[i]), runId)];
    }
    assert calls[..|scopes|] == calls;
  }

  /** The lines of the records, in order, each with its scope as the index knows it. */
  method RenderRecords(scopes: seq<Scope>, records: seq<Record>, index: map<ScopeId, Scope>, runId: string) returns (lines: seq<Json>)
    requires forall id: ScopeId :: id in index <==> IndexOf(scopes, id).Some?
    requires forall id :: id in index ==> index[id] == scopes[IndexOf(scopes, id).value]
    ensures lines == Lines(RecordCalls(scopes, records), runId)
  {
    ghost var calls := RecordCalls(scopes, records);
    lines := [];
    for i := 0 to |records|
      invariant lines == Lines(calls[..i], runId)
    {
      var r := records[i];
      var scope := None;
      if r.scope.Some? && r.scope.value in index {
        scope := Some(index[r.scope.value]);
      }
      LinesSnoc(calls, i, runId);
      lines := lines + [LineFor(EmitRecord(r, scope), runId)];
    }
    assert calls[..|records|] == calls;
  }

  lemma LinesConcat(a: seq<Emission>, b: seq<Emission>, runId: string)
    ensures Lines(a + b, runId) == Lines(a, runId) + Lines(b, runId)
  {
  }

  method RenderJsonl(scopes: seq<Scope>, records: seq<Record>, runId: string) returns (lines: seq<Json>)
    ensures lines == Lines(ExportCalls(scopes, records), runId)
  {
    var index := IndexScopes(scopes);
    lines := RenderScopes(scopes, runId);
    var more := RenderRecords(scopes, records, index, runId);
    LinesConcat(ScopeCalls(scopes), RecordCalls(scopes, records), runId);
    lines := lines + more;
  }

  method RecordsJsonl(journal: Journal, runId: string) returns (lines: seq<Json>)
    ensures lines == Lines(ExportCalls(ScopesOf(journal.View().scopes), journal.View().records), runId)
  {
    lines := RenderJsonl(ScopesOf(journal.scopes.Contents()), journal.records.entries, runId);
  }

  // ---------- reading it back ----------

  lemma AddNewScope(h: History, s: Scope)
    requires IndexOf(h.scopes, s.id) == None
    ensures AddPart(h, Part(None, Some(s))) == History(h.records, h.scopes + [s]) && PartIssues(h, Part(None, Some(s))) == []
  {
  }

  lemma ScopeCallsLast(scopes: seq<Scope>)
    requires scopes != []
    ensures var n, parts := |scopes| - 1, PartsFrom(ScopeCalls(scopes));
      |parts| == n + 1 && parts[..n] == PartsFrom(ScopeCalls(scopes[..n])) && parts[n] == Part(None, Some(scopes[n]))
  {
  }

  /** Scope lines with distinct identifiers are read back as they are. */
  lemma {:induction false} ScopeCallsFold(scopes: seq<Scope>)
    requires DistinctIds(scopes)
    ensures Fold(EMPTY, PartsFrom(ScopeCalls(scopes))) == History([], scopes)
    ensures FoldIssues(EMPTY, PartsFrom(ScopeCalls(scopes))) == []
  {
    var parts := PartsFrom(ScopeCalls(scopes));
    if scopes != [] {
      var n := |scopes| - 1;
      DistinctInit(scopes);
      ScopeCallsFold(scopes[..n]);
      ScopeCallsLast(scopes);
      FoldLast(parts);
      AddNewScope(History([], scopes[..n]), scopes[n]);
      assert scopes[..n] + [scopes[n]] == scopes;
    }
  }

  lemma DistinctInit(scopes: seq<Scope>)
    requires DistinctIds(scopes) && scopes != []
    ensures var n := |scopes| - 1; DistinctIds(scopes[..n]) && IndexOf(scopes[..n], scopes[n].id) == None
  {
    var n := |scopes| - 1;
    DistinctMeans(scopes);
    DistinctMeans(scopes[..n]);
    IndexOfNone(scopes[..n], scopes[n].id);
  }

  /** A snapshot identical to what is known changes nothing. */
  lemma AddKnownScope(scopes: seq<Scope>, s: Scope)
    requires IndexOf(scopes, s.id).Some? && scopes[IndexOf(scopes, s.id).value] == s
    ensures AddScope(scopes, s) == scopes && ScopeIssue(scopes, s) == []
  {
    assert MergeScope(s, s) == s;
  }

  predicate SameExit(a: Record, b: Record) {
    a.kind.ScopeExit? && b.kind.ScopeExit? && a.scope == b.scope
  }

  /** Records in increasing order, exits with a scope, no scope exited twice. */
  ghost predicate Sound(records: seq<Record>) {
    && (forall i, k :: 0 <= i < k < |records| ==> records[i].id < records[k].id && !SameExit(records[i], records[k]))
    && (forall i :: 0 <= i < |records| && records[i].kind.ScopeExit? ==> records[i].scope.Some?)
  }

  lemma SplitRecords(records: seq<Record>) returns (earlier: seq<Record>, r: Record)
    requires records != []
    ensures records == earlier + [r] && |earlier| < |records|
    ensures forall i :: 0 <= i < |earlier| ==> records[i] == earlier[i]
  {
    earlier, r := records[..|records| - 1], records[|records| - 1];
  }

  lemma NextIsFresh(records: seq<Record>, r: Record)
    requires Sound(records + [r])
    ensures Sound(records) && FindRecord(Canons(records), r.id) == None
    ensures r.kind.ScopeExit? && r.scope.Some? ==> FirstExit(Canons(records), r.scope.value) == None
  {
    var all, canons := records + [r], Canons(records);
    forall i | 0 <= i < |records|
      ensures all[i] == records[i] && records[i].id < r.id && !SameExit(records[i], r)
    {
      assert all[|records|] == r;
    }
    if r.kind.ScopeExit? && r.scope.Some? {
      NoFirstExit(canons, r.scope.value);
    }
  }

  lemma RecordCallsSnoc(scopes: seq<Scope>, records: seq<Record>, r: Record)
    ensures PartsFrom(RecordCalls(scopes, records + [r]))
         == PartsFrom(RecordCalls(scopes, records)) + [Part(Some(Canon(r)), Snapshot(scopes, r))]
  {
  }

  /** A new record with a known snapshot adds only the record. */
  lemma AddKnownPart(scopes: seq<Scope>, records: seq<Record>, r: Record)
    requires Sound(records + [r])
    ensures var h, p := History(Canons(records), scopes), Part(Some(Canon(r)), Snapshot(scopes, r));
      AddPart(h, p) == History(Canons(records + [r]), scopes) && PartIssues(h, p) == []
  {
    var h, p := History(Canons(records), scopes), Part(Some(Canon(r)), Snapshot(scopes, r));
    NextIsFresh(records, r);
    AddFresh(h, p);
    if p.scope.Some? {
      AddKnownScope(scopes, p.scope.value);
    }
    CanonsSnoc(records, r);
  }

  lemma {:induction false} RecordCallsFold(scopes: seq<Scope>, records: seq<Record>)
    requires DistinctIds(scopes) && Sound(records)
    ensures Fold(History([], scopes), PartsFrom(RecordCalls(scopes, records))) == History(Canons(records), scopes)
    ensures FoldIssues(History([], scopes), PartsFrom(RecordCalls(scopes, records))) == []
    decreases |records|
  {
    if records != [] {
      var earlier, r := SplitRecords(records);
      NextIsFresh(earlier, r);
      RecordCallsFold(scopes, earlier);
      RecordCallsSnoc(scopes, earlier, r);
      FoldSnoc(History([], scopes), PartsFrom(RecordCalls(scopes, earlier)), Part(Some(Canon(r)), Snapshot(scopes, r)));
      AddKnownPart(scopes, earlier, r);
    }
  }

  lemma ExportParts(scopes: seq<Scope>, records: seq<Record>)
    ensures PartsFrom(ExportCalls(scopes, records)) == PartsFrom(ScopeCalls(scopes)) + PartsFrom(RecordCalls(scopes, records))
  {
  }

  lemma ExportFolds(scopes: seq<Scope>, records: seq<Record>)
    requires DistinctIds(scopes) && Sound(records)
    ensures Fold(EMPTY, PartsFrom(ExportCalls(scopes, records))) == History(Canons(records), scopes)
    ensures FoldIssues(EMPTY, PartsFrom(ExportCalls(scopes, records))) == []
  {
    var a, b := PartsFrom(ScopeCalls(scopes)), PartsFrom(RecordCalls(scopes, records));
    ExportParts(scopes, records);
    ScopeCallsFold(scopes);
    RecordCallsFold(scopes, records);
    FoldConcat(EMPTY, a, b);
  }

  lemma ExportWritable(scopes: seq<Scope>, records: seq<Record>)
    requires Sound(records)
    ensures forall e :: e in ExportCalls(scopes, records) ==> Writable(e)
  {
  }

  // ---------- what a reachable journal holds ----------

  lemma JournalSound(es: seq<Emission>, dropped: nat)
    requires Coherent(es) && dropped <= |Recorded(es)|
    ensures Sound(Recorded(es)[dropped..])
  {
    var records := Recorded(es)[dropped..];
    forall i, k | 0 <= i < k < |records|
      ensures records[i].id < records[k].id && !SameExit(records[i], records[k])
    {
      RecordedIncreasing(es, dropped + i, dropped + k);
      DifferentExits(es, dropped + i, dropped + k);
    }
    forall i | 0 <= i < |records| && records[i].kind.ScopeExit?
      ensures records[i].scope.Some?
    {
      var p := RecordedExit(es, dropped + i);
      StreamWritable(es);
      assert es[p] in es;
    }
  }

  lemma DifferentExits(es: seq<Emission>, i: nat, k: nat)
    requires Coherent(es) && i < k < |Recorded(es)|
    ensures !SameExit(Recorded(es)[i], Recorded(es)[k])
  {
    var p := RecordedExit(es, i);
    var q := RecordedExit(es, k);
    StreamWritable(es);
    assert es[p] in es;
    if SameExit(es[p].record, es[q].record) {
      ExitAtMostOnce(es, es[p].record.scope.value, p, q);
    }
  }

  lemma IncreasingDistinct(s: seq<BufferedScope>)
    requires IncreasingScopes(s)
    ensures DistinctIds(ScopesOf(s))
  {
    DistinctMeans(ScopesOf(s));
  }

  lemma CanonsDangle(scopes: seq<Scope>, records: seq<Record>, id: ScopeId)
    ensures Dangling(scopes, Canons(records), id) <==> Dangling(scopes, records, id)
  {
    if r :| r in records && r.scope == Some(id) {
      var i :| 0 <= i < |records| && records[i] == r;
      assert Canons(records)[i].scope == Some(id) && Canons(records)[i] in Canons(records);
    }
    if r :| r in Canons(records) && r.scope == Some(id) {
      var i :| 0 <= i < |records| && Canons(records)[i] == r;
      assert records[i].scope == Some(id) && records[i] in records;
    }
  }

  lemma RetainedParentsOlder(j: JournalState)
    requires JournalInv(j) && OwnReferences(j.emitted)
    ensures forall s :: s in ScopesOf(j.scopes) && s.parent.Some? ==> s.parent.value < s.id
  {
    forall s | s in ScopesOf(j.scopes) && s.parent.Some?
      ensures s.parent.value < s.id
    {
      assert Faithful(j.emitted, s);
      OwnParentOf(j.emitted, s.id);
    }
  }

  lemma NotRetained(s: seq<BufferedScope>, id: ScopeId)
    requires forall x :: x in ScopesOf(s) ==> x.id != id
    ensures FindScope(s, id) == None
  {
    forall i | 0 <= i < |s|
      ensures s[i].scope.id != id
    {
      assert ScopesOf(s)[i] in ScopesOf(s);
    }
  }

  /** Only cleared scopes, and scopes that have exited, can dangle: an open one is still retained. */
  lemma DanglingIsGone(j: JournalState, id: ScopeId)
    requires JournalInv(j) && OwnReferences(j.emitted) && Dangling(ScopesOf(j.scopes), j.records, id)
    ensures id < j.nextScope && (id < j.cleared || ExitTime(j.emitted, id).Some?)
  {
    DanglingWasEntered(j, id);
    NotRetained(j.scopes, id);
  }

  lemma DanglingWasEntered(j: JournalState, id: ScopeId)
    requires JournalInv(j) && OwnReferences(j.emitted) && Dangling(ScopesOf(j.scopes), j.records, id)
    ensures id < |Entered(j.emitted)|
  {
    if s :| s in ScopesOf(j.scopes) && s.parent == Some(id) {
      assert Faithful(j.emitted, s);
      OwnParentOf(j.emitted, s.id);
    } else {
      var r :| r in j.records && r.scope == Some(id);
      var i :| 0 <= i < |j.records| && j.records[i] == r;
      OwnRecord(j.emitted, j.dropped + i);
    }
  }

  lemma ExportLoads(scopes: seq<Scope>, records: seq<Record>, runId: string, source: Option<string>)
    requires DistinctIds(scopes) && Sound(records) && runId != ""
    requires forall s :: s in scopes && s.parent.Some? ==> s.parent.value < s.id
    requires scopes != [] || records != []
    ensures var h := History(Canons(records), scopes);
      LoadFiles([InputFile(source, SavedLines(ExportCalls(scopes, records), runId))])
      == SavedJournal([SavedRun(Some(runId), [], h.records, WithPlaceholders(h), MissingOf(h))],
                      Unlocated(|MissingOf(h)|, source, MissingScopeMetadata))
  {
    var es := ExportCalls(scopes, records);
    ExportFolds(scopes, records);
    ExportWritable(scopes, records);
    OlderParentsNeedNoCut(History(Canons(records), scopes));
    SavedLinesCarry(es, runId);
    LoadsOneRun(SavedLines(es, runId), PartsFrom(es), runId, source);
  }

  /** The placeholders are for exactly the scopes that are referred to but gone, each once. */
  lemma ExportMisses(scopes: seq<Scope>, records: seq<Record>)
    ensures var missing := MissingOf(History(Canons(records), scopes));
      && (forall i, k :: 0 <= i < k < |missing| ==> missing[i] != missing[k])
      && (forall id :: id in missing <==> Dangling(scopes, records, id))
  {
    var h := History(Canons(records), scopes);
    MissingCovers(Parents(h.scopes) + RecordScopes(h.records), ScopeIds(h.scopes));
    forall id
      ensures id in MissingOf(h) <==> Dangling(scopes, records, id)
    {
      MissingIsDangling(h, id);
      CanonsDangle(scopes, records, id);
    }
  }

  /**
   Exporting any reachable nonempty journal and loading the lines gives one run with the retained records in order,
   the retained scopes in order, and then one placeholder for each scope that is referred to but gone; the only issues
   are one about each of those.
   */
  lemma SnapshotRoundTrip(ops: seq<JournalOp>, runId: string, source: Option<string>)
    requires |ops| <= U64_MAX && OwnParents(ops) && runId != ""
    requires var j := RunOps(ops); j.scopes != [] || j.records != []
    ensures var j := RunOps(ops);
      var scopes := ScopesOf(j.scopes);
      var missing := MissingOf(History(Canons(j.records), scopes));
      && LoadFiles([InputFile(source, SavedLines(ExportCalls(scopes, j.records), runId))])
         == SavedJournal([SavedRun(Some(runId), [], Canons(j.records), scopes + Placeholders(missing), missing)],
                         Unlocated(|missing|, source, MissingScopeMetadata))
      && (forall i, k :: 0 <= i < k < |missing| ==> missing[i] != missing[k])
      && (forall id :: id in missing <==> Dangling(scopes, j.records, id))
  {
    var j := RunOps(ops);
    RunKeeps(ops);
    OwnRun(ops);
    IncreasingDistinct(j.scopes);
    JournalSound(j.emitted, j.dropped);
    RetainedParentsOlder(j);
    ExportLoads(ScopesOf(j.scopes), j.records, runId, source);
    ExportMisses(ScopesOf(j.scopes), j.records);
  }
}
