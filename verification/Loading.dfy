/** The loader as it runs: builders with hash indexes, routed to by a mutable loader. */
module Loading {
  import opened Core
  import opened Wire
  import opened Hierarchy
  import opened Retention
  import opened Recovery
  import opened Routing

  // ---------- the tables of a run builder ----------

  ghost predicate ScopeTable(at: map<ScopeId, nat>, scopes: seq<Scope>) {
    forall id: ScopeId :: IndexOf(scopes, id) == if id in at then Some(at[id]) else None
  }

  ghost predicate RecordTable(at: map<RecordId, nat>, records: seq<Record>) {
    forall id: RecordId :: FindRecord(records, id) == if id in at then Some(at[id]) else None
  }

  ghost predicate ExitTable(outcomes: map<ScopeId, (Outcome, U64)>, records: seq<Record>) {
    forall id: ScopeId :: FirstExit(records, id) == if id in outcomes then Some(outcomes[id]) else None
  }

  lemma ScopeTablePush(at: map<ScopeId, nat>, scopes: seq<Scope>, s: Scope, n: nat)
    requires ScopeTable(at, scopes) && s.id !in at && n == |scopes|
    ensures ScopeTable(at[s.id := n], scopes + [s])
    ensures DistinctIds(scopes) ==> DistinctIds(scopes + [s])
  {
    var at', longer := at[s.id := n], scopes + [s];
    assert IndexOf(scopes, s.id) == None;
    if DistinctIds(scopes) {
      DistinctPush(scopes, s);
    }
    forall id: ScopeId
      ensures IndexOf(longer, id) == if id in at' then Some(at'[id]) else None
    {
      assert IndexOf(scopes, id) == if id in at then Some(at[id]) else None;
      IndexOfSnoc(scopes, s, id);
    }
  }

  lemma ScopeTableUpdate(at: map<ScopeId, nat>, scopes: seq<Scope>, i: nat, s: Scope)
    requires ScopeTable(at, scopes) && i < |scopes| && s.id == scopes[i].id
    ensures ScopeTable(at, scopes[i := s])
    ensures DistinctIds(scopes) ==> DistinctIds(scopes[i := s])
  {
    var updated := scopes[i := s];
    if DistinctIds(scopes) {
      DistinctUpdate(scopes, i, s);
    }
    forall id: ScopeId
      ensures IndexOf(updated, id) == if id in at then Some(at[id]) else None
    {
      assert IndexOf(scopes, id) == if id in at then Some(at[id]) else None;
      IndexOfUpdate(scopes, i, s, id);
    }
  }

  lemma RecordTablePush(at: map<RecordId, nat>, records: seq<Record>, r: Record, n: nat)
    requires RecordTable(at, records) && n == |records|
    ensures RecordTable(if r.id in at then at else at[r.id := n], records + [r])
  {
    var at', longer := if r.id in at then at else at[r.id := n], records + [r];
    assert FindRecord(records, r.id) == if r.id in at then Some(at[r.id]) else None;
    forall id: RecordId
      ensures FindRecord(longer, id) == if id in at' then Some(at'[id]) else None
    {
      assert FindRecord(records, id) == if id in at then Some(at[id]) else None;
      assert longer[n] == r && forall j :: 0 <= j < n ==> longer[j] == records[j];
    }
  }

  function NoteExit(outcomes: map<ScopeId, (Outcome, U64)>, r: Record): map<ScopeId, (Outcome, U64)> {
    if r.kind.ScopeExit? && r.scope.Some? && r.scope.value !in outcomes
    then outcomes[r.scope.value := (r.kind.outcome, r.kind.durationNs)] else outcomes
  }

  lemma ExitTablePush(outcomes: map<ScopeId, (Outcome, U64)>, records: seq<Record>, r: Record)
    requires ExitTable(outcomes, records)
    ensures ExitTable(NoteExit(outcomes, r), records + [r])
  {
    var outcomes', longer := NoteExit(outcomes, r), records + [r];
    assert longer[..|longer| - 1] == records;
    forall id: ScopeId
      ensures FirstExit(longer, id) == if id in outcomes' then Some(outcomes'[id]) else None
    {
      assert FirstExit(records, id) == if id in outcomes then Some(outcomes[id]) else None;
    }
  }

  // ---------- the builder ----------

  class RunBuilder {
    // Where the loader keeps this builder; no two positions share one.
    ghost const position: nat
    var runId: Option<string>
    var source: Option<string>
    var headers: seq<string>
    var records: seq<Record>
    var scopes: seq<Scope>
    var recordAt: map<RecordId, nat>
    var scopeAt: map<ScopeId, nat>
    var outcomes: map<ScopeId, (Outcome, U64)>

    ghost predicate Valid()
      reads this
    {
      && DistinctIds(scopes)
      && ScopeTable(scopeAt, scopes)
      && RecordTable(recordAt, records)
      && ExitTable(outcomes, records)
    }

    ghost function History(): History
      reads this
    {
      Recovery.History(records, scopes)
    }

    ghost function View(): Building
      reads this
    {
      Building(runId, source, headers, History())
    }

    constructor (runId: Option<string>, source: Option<string>, ghost position: nat)
      ensures this.position == position && Valid() && View() == Building(runId, source, [], EMPTY)
    {
      this.position := position;
      this.runId, this.source, headers := runId, source, [];
      records, scopes, recordAt, scopeAt, outcomes := [], [], map[], map[], map[];
    }

    /** Conflicting metadata leaves the first metadata in place and is reported. */
    method AddScope(incoming: Scope) returns (conflict: seq<IssueKind>)
      requires Valid()
      modifies this`scopes, this`scopeAt
      ensures Valid() && scopes == Recovery.AddScope(old(scopes), incoming)
      ensures conflict == ScopeIssue(old(scopes), incoming)
    {
      assert IndexOf(scopes, incoming.id) == if incoming.id in scopeAt then Some(scopeAt[incoming.id]) else None;
      if incoming.id !in scopeAt {
        ScopeTablePush(scopeAt, scopes, incoming, |scopes|);
        scopeAt := scopeAt[incoming.id := |scopes|];
        scopes := scopes + [incoming];
        return [];
      }
      var index := scopeAt[incoming.id];
      var existing := scopes[index];
      if Contradicts(existing, incoming) {
        return [ConflictingScope];
      }
      var acceptMessages := existing.exitedAt.None? || incoming.exitedAt.Some?;
      existing := existing.(exitedAt := Or(existing.exitedAt, incoming.exitedAt));
      if acceptMessages && incoming.exitMessages.success.Some? {
        existing := existing.(exitMessages := existing.exitMessages.(success := incoming.exitMessages.success));
      }
      if acceptMessages && incoming.exitMessages.failure.Some? {
        existing := existing.(exitMessages := existing.exitMessages.(failure := incoming.exitMessages.failure));
      }
      if acceptMessages && incoming.exitMessages.aborted.Some? {
        existing := existing.(exitMessages := existing.exitMessages.(aborted := incoming.exitMessages.aborted));
      }
      assert existing == MergeScope(scopes[index], incoming);
      ScopeTableUpdate(scopeAt, scopes, index, existing);
      scopes := scopes[index := existing];
      conflict := [];
    }

    /** Only a record equal to the first one retained under its identifier is dropped. */
    method AddRecord(record: Record) returns (conflict: seq<IssueKind>)
      requires Valid()
      modifies this`records, this`recordAt, this`outcomes
      ensures Valid() && records == Recovery.AddRecord(old(records), record)
      ensures conflict == RecordIssue(old(records), record)
    {
      conflict := [];
      assert FindRecord(records, record.id) == if record.id in recordAt then Some(recordAt[record.id]) else None;
      if record.id in recordAt {
        if WireEqual(records[recordAt[record.id]], record) {
          return;
        }
        conflict := [ConflictingRecord];
      }
      var contradicts := PushRecord(record);
      if contradicts && conflict == [] {
        conflict := [ConflictingScope];
      }
    }

    /** Retain a record; the first exit of each scope is remembered, and a different later one contradicts it. */
    method PushRecord(record: Record) returns (contradicts: bool)
      requires Valid()
      modifies this`records, this`recordAt, this`outcomes
      ensures Valid() && records == old(records) + [record]
      ensures contradicts == (record.kind.ScopeExit? && record.scope.Some?
          && var first := FirstExit(old(records), record.scope.value);
             first.Some? && first.value != (record.kind.outcome, record.kind.durationNs))
    {
      RecordTablePush(recordAt, records, record, |records|);
      ExitTablePush(outcomes, records, record);
      contradicts := false;
      if record.id !in recordAt {
        recordAt := recordAt[record.id := |records|];
      }
      if record.kind.ScopeExit? && record.scope.Some? {
        var id := record.scope.value;
        assert FirstExit(records, id) == if id in outcomes then Some(outcomes[id]) else None;
        if id in outcomes {
          contradicts := outcomes[id] != (record.kind.outcome, record.kind.durationNs);
        } else {
          outcomes := outcomes[id := (record.kind.outcome, record.kind.durationNs)];
        }
      }
      records := records + [record];
    }

    method AbsorbScope(incoming: Option<Scope>) returns (conflict: seq<IssueKind>)
      requires Valid()
      modifies this`scopes, this`scopeAt
      ensures Valid()
      ensures scopes == if incoming.Some? then Recovery.AddScope(old(scopes), incoming.value) else old(scopes)
      ensures conflict == if incoming.Some? then ScopeIssue(old(scopes), incoming.value) else []
    {
      conflict := [];
      if incoming.Some? {
        conflict := AddScope(incoming.value);
      }
    }

    method AbsorbRecord(record: Option<Record>) returns (conflict: seq<IssueKind>)
      requires Valid()
      modifies this`records, this`recordAt, this`outcomes
      ensures Valid()
      ensures records == if record.Some? then Recovery.AddRecord(old(records), record.value) else old(records)
      ensures conflict == if record.Some? then RecordIssue(old(records), record.value) else []
    {
      conflict := [];
      if record.Some? {
        conflict := AddRecord(record.value);
      }
    }

    /** One accepted line: pending headers, then scope metadata, then the record. */
    method Absorb(pending: seq<string>, part: Part) returns (conflicts: seq<IssueKind>)
      requires Valid()
      modifies this
      ensures Valid() && conflicts == PartIssues(old(History()), part)
      ensures var v := old(View()); View() == v.(headers := v.headers + pending, history := AddPart(v.history, part))
    {
      headers := headers + pending;
      conflicts := AbsorbScope(part.scope);
      var more := AbsorbRecord(part.record);
      conflicts := conflicts + more;
    }

    method Finish() returns (saved: SavedRun, issues: seq<Issue>)
      requires Valid()
      modifies this
      ensures saved == FinishRun(old(View())) && issues == FinishIssues(old(View()))
    {
      ghost var h := History();
      PlaceholdersClosed(h);
      var missing;
      scopes, scopeAt, missing := AddPlaceholders(scopes, scopeAt, records);
      var repaired, cuts := RepairCycles(scopes, scopeAt);
      scopes := repaired;
      saved := SavedRun(runId, headers, records, scopes, missing);
      issues := Unlocated(|missing|, source, MissingScopeMetadata) + Unlocated(|cuts|, source, InvalidHierarchy);
    }
  }

  /** Insert a placeholder for each referenced scope that has no metadata. */
  method AddPlaceholders(scopes: seq<Scope>, at: map<ScopeId, nat>, records: seq<Record>)
    returns (full: seq<Scope>, at': map<ScopeId, nat>, missing: seq<ScopeId>)
    requires DistinctIds(scopes) && ScopeTable(at, scopes)
    ensures missing == MissingOf(History(records, scopes)) && full == WithPlaceholders(History(records, scopes))
    ensures DistinctIds(full) && ScopeTable(at', full)
  {
    var needed := Parents(scopes) + RecordScopes(records);
    full, at', missing := scopes, at, [];
    FillStart(scopes, needed);
    var i := 0;
    while i < |needed|
      invariant i <= |needed| && DistinctIds(full) && ScopeTable(at', full)
      invariant Filling(scopes, needed, i, full, missing)
    {
      var id := needed[i];
      TableKeys(at', full, id);
      FillNext(scopes, needed, i, full, missing);
      if id !in at' {
        ScopeTablePush(at', full, Placeholder(id), |full|);
        at' := at'[id := |full|];
        full := full + [Placeholder(id)];
        missing := missing + [id];
      }
      i := i + 1;
    }
    FillEnd(scopes, needed, full, missing);
  }

  /** References up to `i` are in place; those missing among them have their placeholders. */
  ghost predicate Filling(scopes: seq<Scope>, needed: seq<ScopeId>, i: nat, full: seq<Scope>, missing: seq<ScopeId>)
    requires i <= |needed|
  {
    var known := ScopeIds(scopes);
    && missing + Missing(needed[i..], known + Elems(missing)) == Missing(needed, known)
    && full == scopes + Placeholders(missing)
    && ScopeIds(full) == known + Elems(missing)
  }

  lemma FillStart(scopes: seq<Scope>, needed: seq<ScopeId>)
    ensures Filling(scopes, needed, 0, scopes, [])
  {
    var known := ScopeIds(scopes);
    assert needed[0..] == needed && known + Elems([]) == known;
    assert [] + Missing(needed, known) == Missing(needed, known);
    assert scopes + Placeholders([]) == scopes;
  }

  lemma FillNext(scopes: seq<Scope>, needed: seq<ScopeId>, i: nat, full: seq<Scope>, missing: seq<ScopeId>)
    requires i < |needed| && Filling(scopes, needed, i, full, missing)
    ensures var id := needed[i];
      if id in ScopeIds(full) then Filling(scopes, needed, i + 1, full, missing)
      else Filling(scopes, needed, i + 1, full + [Placeholder(id)], missing + [id])
  {
    NextNeeded(needed, i, ScopeIds(scopes), missing);
    PlaceholderPush(scopes, missing, needed[i]);
  }

  lemma FillEnd(scopes: seq<Scope>, needed: seq<ScopeId>, full: seq<Scope>, missing: seq<ScopeId>)
    requires Filling(scopes, needed, |needed|, full, missing)
    ensures missing == Missing(needed, ScopeIds(scopes)) && full == scopes + Placeholders(missing)
  {
    assert needed[|needed|..] == [] && missing + [] == missing;
  }

  lemma NextNeeded(needed: seq<ScopeId>, i: nat, known: set<ScopeId>, missing: seq<ScopeId>)
    requires i < |needed|
    ensures var id, seen := needed[i], known + Elems(missing);
      && (id in seen ==> Missing(needed[i..], seen) == Missing(needed[i + 1..], seen))
      && (id !in seen ==>
            missing + Missing(needed[i..], seen) == missing + [id] + Missing(needed[i + 1..], known + Elems(missing + [id])))
  {
    var id, seen := needed[i], known + Elems(missing);
    assert needed[i..][0] == id && needed[i..][1..] == needed[i + 1..];
    assert seen + {id} == known + Elems(missing + [id]);
    SeqAssociative(missing, [id], Missing(needed[i + 1..], seen + {id}));
  }

  lemma PlaceholderPush(before: seq<Scope>, missing: seq<ScopeId>, id: ScopeId)
    ensures before + Placeholders(missing) + [Placeholder(id)] == before + Placeholders(missing + [id])
    ensures ScopeIds(before + Placeholders(missing + [id])) == ScopeIds(before + Placeholders(missing)) + {id}
    ensures Elems(missing + [id]) == Elems(missing) + {id}
  {
    var scopes, longer := before + Placeholders(missing), before + Placeholders(missing + [id]);
    assert longer == scopes + [Placeholder(id)];
    assert forall s :: s in longer <==> s in scopes || s == Placeholder(id);
    assert Placeholder(id) in longer;
  }

  lemma TableKeys(at: map<ScopeId, nat>, scopes: seq<Scope>, id: ScopeId)
    requires ScopeTable(at, scopes)
    ensures id in at <==> id in ScopeIds(scopes)
    ensures id in at ==> at[id] < |scopes| && scopes[at[id]].id == id && ParentOf(scopes, id) == scopes[at[id]].parent
  {
    assert IndexOf(scopes, id) == if id in at then Some(at[id]) else None;
    IndexOfNone(scopes, id);
  }

  /** Walk up from one scope until a root, a scope already dealt with, or one met on this very walk. */
  method WalkUp(scopes: seq<Scope>, at: map<ScopeId, nat>, start: ScopeId, done: set<ScopeId>)
    returns (path: set<ScopeId>, cut: Option<ScopeId>)
    requires ScopeTable(at, scopes) && Closed(ParentGraph(scopes)) && start in ScopeIds(scopes)
    ensures var w := Walk(ParentGraph(scopes), done, [], Some(start));
      path == Elems(w.path) && cut == (if Cycled(w, done) then w.stop else None)
  {
    ghost var g: Graph, trail: seq<ScopeId> := ParentGraph(scopes), [];
    path, cut := {}, None;
    var current := Some(start);
    while current.Some?
      invariant current.Some? ==> current.value in g
      invariant Elems(trail) <= g.Keys
      invariant path == Elems(trail)
      invariant Walk(g, done, trail, current) == Walk(g, done, [], Some(start))
      decreases |g.Keys - path|, if current.Some? then 1 else 0
    {
      var id := current.value;
      if id in done {
        return;
      }
      TableKeys(at, scopes, id);
      var index := at[id];
      if id in path {
        cut := Some(id);
        return;
      }
      WalkStep(g, done, trail, id);
      path := path + {id};
      trail := trail + [id];
      current := scopes[index].parent;
    }
  }

  /** Starts before `i` have been dealt with: the cuts so far followed by those still to come are all the cuts. */
  ghost predicate CutsLeft(g0: Graph, starts: seq<ScopeId>, i: nat, g: Graph, cuts: seq<ScopeId>, done: set<ScopeId>) {
    && Closed(g0) && Elems(starts) <= g0.Keys
    && Closed(g) && i <= |starts| && Elems(starts[i..]) <= g.Keys
    && cuts + Cuts(g, starts[i..], done) == Cuts(g0, starts, {})
  }

  lemma CutsLeftStarts(g: Graph, starts: seq<ScopeId>)
    requires Closed(g) && Elems(starts) <= g.Keys
    ensures CutsLeft(g, starts, 0, g, [], {})
  {
    assert starts[0..] == starts;
    var cuts := Cuts(g, starts, {});
    assert [] + cuts == cuts;
  }

  /** One more start has been walked from; its walk may have cost one link. */
  lemma CutsLeftStep(g0: Graph, starts: seq<ScopeId>, i: nat, g: Graph, cuts: seq<ScopeId>, done: set<ScopeId>, w: Walked)
    requires i < |starts| && CutsLeft(g0, starts, i, g, cuts, done)
    requires starts[i] in g && w == Walk(g, done, [], Some(starts[i]))
    ensures !Cycled(w, done) ==> CutsLeft(g0, starts, i + 1, g, cuts, done + Elems(w.path))
    ensures Cycled(w, done) ==>
      w.stop.value in g && CutsLeft(g0, starts, i + 1, g[w.stop.value := None], cuts + [w.stop.value], done + Elems(w.path))
  {
    var rest, done' := starts[i..], done + Elems(w.path);
    assert rest[0] == starts[i] && rest[1..] == starts[i + 1..];
    assert Elems(rest[1..]) <= Elems(rest);
    StopInGraph(g, done, starts[i]);
    if Cycled(w, done) {
      SeqAssociative(cuts, [w.stop.value], Cuts(g[w.stop.value := None], rest[1..], done'));
    }
  }

  /** Walk from one start and remove the link that closes a cycle, if the walk met one. */
  method RepairFrom(scopes: seq<Scope>, at: map<ScopeId, nat>, before: seq<Scope>, ghost cuts: seq<ScopeId>, ghost g: Graph,
                    start: ScopeId, done: set<ScopeId>)
    returns (repaired: seq<Scope>, path: set<ScopeId>, cut: Option<ScopeId>)
    requires Linked(scopes, at, before, cuts, g) && Closed(g) && start in g
    ensures var w := Walk(g, done, [], Some(start));
      && path == Elems(w.path)
      && (if Cycled(w, done) then
            cut == w.stop && cut.value in g && Linked(scopes, at, repaired, cuts + [cut.value], g[cut.value := None])
          else cut == None && Linked(scopes, at, repaired, cuts, g))
  {
    path, cut := WalkUp(before, at, start, done);
    StopInGraph(g, done, start);
    repaired := before;
    if cut.Some? {
      LinkCut(scopes, at, before, cuts, g, cut.value);
      var index := at[cut.value];
      repaired := before[index := before[index].(parent := None)];
    }
  }

  /** Remove one link per cycle, following links that earlier removals may have changed. */
  method RepairCycles(scopes: seq<Scope>, at: map<ScopeId, nat>) returns (repaired: seq<Scope>, cuts: seq<ScopeId>)
    requires DistinctIds(scopes) && ScopeTable(at, scopes) && Closed(ParentGraph(scopes))
    ensures Elems(IdSeq(scopes)) <= ParentGraph(scopes).Keys
    ensures cuts == Cuts(ParentGraph(scopes), IdSeq(scopes), {}) && repaired == CutLinks(scopes, cuts)
  {
    var starts := IdSeq(scopes);
    ghost var g0: Graph := ParentGraph(scopes);
    ghost var g: Graph := g0;
    IdSeqElems(scopes);
    CutsLeftStarts(g0, starts);
    repaired, cuts := scopes, [];
    assert repaired == CutLinks(scopes, []);
    var done: set<ScopeId> := {};
    var i := 0;
    while i < |starts|
      invariant i <= |starts|
      invariant Linked(scopes, at, repaired, cuts, g)
      invariant CutsLeft(g0, starts, i, g, cuts, done)
    {
      StartKnown(g0, starts, i, g, cuts, done);
      var path, cut;
      repaired, path, cut := RepairFrom(scopes, at, repaired, cuts, g, starts[i], done);
      CutsLeftStep(g0, starts, i, g, cuts, done, Walk(g, done, [], Some(starts[i])));
      if cut.Some? {
        cuts := cuts + [cut.value];
        g := g[cut.value := None];
      }
      done := done + path;
      i := i + 1;
    }
    CutsLeftDone(g0, starts, g, cuts, done);
  }

  lemma StartKnown(g0: Graph, starts: seq<ScopeId>, i: nat, g: Graph, cuts: seq<ScopeId>, done: set<ScopeId>)
    requires i < |starts| && CutsLeft(g0, starts, i, g, cuts, done)
    ensures starts[i] in g
  {
    assert starts[i..][0] in Elems(starts[i..]);
  }

  lemma CutsLeftDone(g0: Graph, starts: seq<ScopeId>, g: Graph, cuts: seq<ScopeId>, done: set<ScopeId>)
    requires CutsLeft(g0, starts, |starts|, g, cuts, done)
    ensures cuts == Cuts(g0, starts, {})
  {
    assert starts[|starts|..] == [] && cuts + [] == cuts;
  }

  /** The scopes after some cuts, with their table and their parent links. */
  ghost predicate Linked(scopes: seq<Scope>, at: map<ScopeId, nat>, repaired: seq<Scope>, cuts: seq<ScopeId>, g: Graph) {
    DistinctIds(repaired) && ScopeTable(at, repaired) && repaired == CutLinks(scopes, cuts) && ParentGraph(repaired) == g
  }

  lemma LinkCut(scopes: seq<Scope>, at: map<ScopeId, nat>, repaired: seq<Scope>, cuts: seq<ScopeId>, g: Graph, c: ScopeId)
    requires Linked(scopes, at, repaired, cuts, g) && c in g
    ensures c in at && at[c] < |repaired|
    ensures Linked(scopes, at, repaired[at[c] := repaired[at[c]].(parent := None)], cuts + [c], g[c := None])
  {
    CutTable(scopes, at, repaired, cuts, c);
    CutGraph(scopes, at, repaired, cuts, c);
  }

  /** Removing one more link. */
  lemma CutTable(scopes: seq<Scope>, at: map<ScopeId, nat>, repaired: seq<Scope>, cuts: seq<ScopeId>, c: ScopeId)
    requires DistinctIds(repaired) && ScopeTable(at, repaired) && repaired == CutLinks(scopes, cuts)
    requires c in ScopeIds(repaired)
    ensures c in at && at[c] < |repaired|
    ensures var next := repaired[at[c] := repaired[at[c]].(parent := None)];
      DistinctIds(next) && ScopeTable(at, next) && next == CutLinks(scopes, cuts + [c])
  {
    TableKeys(at, repaired, c);
    ScopeTableUpdate(at, repaired, at[c], repaired[at[c]].(parent := None));
    assert repaired[at[c] := repaired[at[c]].(parent := None)] == CutLinks(scopes, cuts + [c]);
  }

  lemma CutGraph(scopes: seq<Scope>, at: map<ScopeId, nat>, repaired: seq<Scope>, cuts: seq<ScopeId>, c: ScopeId)
    requires DistinctIds(repaired) && ScopeTable(at, repaired) && c in ScopeIds(repaired)
    ensures c in at && at[c] < |repaired| && c in ParentGraph(repaired)
    ensures ParentGraph(repaired[at[c] := repaired[at[c]].(parent := None)]) == ParentGraph(repaired)[c := None]
  {
    TableKeys(at, repaired, c);
    assert repaired[at[c] := repaired[at[c]].(parent := None)] == CutLinks(repaired, [c]);
    CutLinksGraph(repaired, [c]);
    assert Cut(ParentGraph(repaired), [c]) == ParentGraph(repaired)[c := None];
  }

  // ---------- the loader ----------

  ghost predicate RunTable(byId: map<string, nat>, runs: seq<Building>) {
    forall runId: string :: FindRun(runs, runId) == if runId in byId then Some(byId[runId]) else None
  }

  lemma RunTablePush(byId: map<string, nat>, runs: seq<Building>, run: Building, n: nat)
    requires RunTable(byId, runs) && n == |runs|
    ensures RunTable(if run.runId.Some? then byId[run.runId.value := n] else byId, runs + [run])
  {
    var byId', longer := if run.runId.Some? then byId[run.runId.value := n] else byId, runs + [run];
    forall runId: string
      ensures FindRun(longer, runId) == if runId in byId' then Some(byId'[runId]) else None
    {
      FindRunPush(runs, run, runId);
      assert FindRun(runs, runId) == if runId in byId then Some(byId[runId]) else None;
    }
  }

  lemma RunTableUpdate(byId: map<string, nat>, runs: seq<Building>, i: nat, run: Building)
    requires RunTable(byId, runs) && i < |runs| && run.runId == runs[i].runId
    ensures RunTable(byId, runs[i := run])
  {
    var updated := runs[i := run];
    forall runId: string
      ensures FindRun(updated, runId) == if runId in byId then Some(byId[runId]) else None
    {
      FindRunUpdate(runs, i, run, runId);
      assert FindRun(runs, runId) == if runId in byId then Some(byId[runId]) else None;
    }
  }

  /** Builders are owned, one per position; `views` are their abstract values. */
  ghost predicate AllOk(runs: seq<RunBuilder>, views: seq<Building>)
    reads runs
  {
    && |runs| == |views|
    && forall i :: 0 <= i < |runs| ==> runs[i].position == i && runs[i].Valid() && runs[i].View() == views[i]
  }

  /** Where the table sends a versioned line. */
  lemma RoutesByTable(st: LoaderState, byId: map<string, nat>, runId: string, part: Part, source: Option<string>, line: nat)
    requires LegacyOk(st) && RunTable(byId, st.runs)
    ensures Recovery.Route(st, Some(runId), part, source, line) ==
      if runId in byId then (st.(legacy := None), byId[runId])
      else (st.(legacy := None, runs := st.runs + [Building(Some(runId), source, [], EMPTY)]), |st.runs|)
  {
    assert FindRun(st.runs, runId) == if runId in byId then Some(byId[runId]) else None;
  }

  class Loader {
    var runs: seq<RunBuilder>
    var byId: map<string, nat>
    var legacy: Option<nat>
    var headers: seq<string>
    var issues: seq<Issue>
    ghost var views: seq<Building>

    ghost predicate Valid()
      reads this, runs
    {
      AllOk(runs, views) && RunTable(byId, views) && (legacy.Some? ==> legacy.value < |runs|)
    }

    ghost function Owned(): set<RunBuilder>
      reads this`runs
    {
      set r | r in runs
    }

    ghost function View(): LoaderState
      reads this
    {
      LoaderState(views, legacy, headers, issues)
    }

    constructor ()
      ensures Valid() && View() == FRESH && Owned() == {}
    {
      runs, byId, legacy, headers, issues, views := [], map[], None, [], [], [];
    }

    method PushRun(runId: Option<string>, source: Option<string>) returns (index: nat)
      requires Valid()
      modifies this`runs, this`byId, this`views
      ensures Valid() && index == |old(runs)| == |runs| - 1
      ensures fresh(Owned() - old(Owned()))
      ensures views == old(views) + [Building(runId, source, [], EMPTY)]
    {
      index := |runs|;
      var run := new RunBuilder(runId, source, index);
      RunTablePush(byId, views, Building(runId, source, [], EMPTY), index);
      if runId.Some? {
        byId := byId[runId.value := index];
      }
      runs := runs + [run];
      views := views + [run.View()];
    }

    /** The open legacy run has already seen this record identifier. */
    method LegacyRepeats(part: Part) returns (repeats: bool)
      requires Valid()
      ensures repeats == RepeatsLegacy(View(), part)
    {
      if legacy.None? || part.record.None? {
        return false;
      }
      var run, id := runs[legacy.value], part.record.value.id;
      assert run.View() == views[legacy.value];
      assert FindRecord(run.records, id) == if id in run.recordAt then Some(run.recordAt[id]) else None;
      repeats := id in run.recordAt;
    }

    method CloseLegacy()
      requires Valid()
      modifies this`legacy
      ensures Valid() && View() == old(View()).(legacy := None)
    {
      legacy := None;
    }

    method Report(source: Option<string>, line: nat, kind: IssueKind)
      requires Valid()
      modifies this`issues
      ensures Valid() && View() == AddIssue(old(View()), source, line, kind)
    {
      issues := issues + [Issue(source, Some(line), kind)];
    }

    method OpenVersioned(runId: string, source: Option<string>) returns (index: nat)
      requires Valid()
      modifies this
      ensures Valid() && index < |runs| && fresh(Owned() - old(Owned())) && index == old(|views|)
      ensures var st := old(View());
        View() == st.(legacy := None, runs := st.runs + [Building(Some(runId), source, [], EMPTY)])
    {
      index := PushRun(Some(runId), source);
      legacy := None;
    }

    /** A versioned line ends any legacy run and goes to the run with its identity. */
    method RouteVersioned(runId: string, part: Part, source: Option<string>, line: nat) returns (index: nat)
      requires Valid()
      modifies this
      ensures Valid() && index < |runs| && fresh(Owned() - old(Owned()))
      ensures (View(), index) == Recovery.Route(old(View()), Some(runId), part, source, line)
    {
      RoutesByTable(View(), byId, runId, part, source, line);
      if runId in byId {
        index := byId[runId];
        CloseLegacy();
      } else {
        index := OpenVersioned(runId, source);
      }
    }

    /** A repeated record identifier ends the open legacy run. */
    method InferBoundary(part: Part, source: Option<string>, line: nat)
      requires Valid()
      modifies this`issues, this`legacy
      ensures Valid()
      ensures var st := old(View());
        View() == if RepeatsLegacy(st, part) then AddIssue(st, source, line, InferredRunBoundary).(legacy := None) else st
    {
      var repeats := LegacyRepeats(part);
      if repeats {
        Report(source, line, InferredRunBoundary);
        CloseLegacy();
      }
    }

    /** The open legacy run, or a new one. */
    method JoinLegacy(source: Option<string>) returns (index: nat)
      requires Valid()
      modifies this
      ensures Valid() && index < |runs| && fresh(Owned() - old(Owned()))
      ensures var st := old(View());
        if st.legacy.Some? then View() == st && index == st.legacy.value
        else index == |st.runs| && View() == st.(runs := st.runs + [Building(None, source, [], EMPTY)], legacy := Some(index))
    {
      if legacy.None? {
        index := PushRun(None, source);
        legacy := Some(index);
      } else {
        index := legacy.value;
      }
    }

    /** A legacy line joins the open legacy run, unless it repeats one of its records. */
    method RouteLegacy(part: Part, source: Option<string>, line: nat) returns (index: nat)
      requires Valid()
      modifies this
      ensures Valid() && index < |runs| && fresh(Owned() - old(Owned()))
      ensures (View(), index) == Recovery.Route(old(View()), None, part, source, line)
    {
      InferBoundary(part, source, line);
      index := JoinLegacy(source);
    }

    /** Find the run of an accepted line, opening one where the format or a repeated record calls for it. */
    method Route(runId: Option<string>, part: Part, source: Option<string>, line: nat) returns (index: nat)
      requires Valid()
      modifies this
      ensures Valid() && index < |runs| && fresh(Owned() - old(Owned()))
      ensures (View(), index) == Recovery.Route(old(View()), runId, part, source, line)
    {
      if runId.Some? {
        index := RouteVersioned(runId.value, part, source, line);
      } else {
        index := RouteLegacy(part, source, line);
      }
    }

    /** One run takes in a part and the pending headers; no other run changes. */
    method Feed(index: nat, part: Part) returns (conflicts: seq<IssueKind>)
      requires Valid() && index < |runs|
      modifies this`views, runs[index]
      ensures Valid()
      ensures var run := old(views[index]);
        && conflicts == PartIssues(run.history, part)
        && views == old(views)[index := run.(headers := run.headers + headers, history := AddPart(run.history, part))]
    {
      var run := runs[index];
      assert run.View() == views[index];
      conflicts := run.Absorb(headers, part);
      RunTableUpdate(byId, views, index, run.View());
      views := views[index := run.View()];
      forall j | 0 <= j < |runs|
        ensures runs[j].position == j && runs[j].Valid() && runs[j].View() == views[j]
      {
        if j != index {
          assert runs[j].position != run.position;
        }
      }
    }

    /** Hand a part and the pending headers to one run; no other run changes. */
    method Deliver(index: nat, part: Part, source: Option<string>, line: nat)
      requires Valid() && index < |runs|
      modifies this`headers, this`issues, this`views, runs[index]
      ensures Valid() && View() == Recovery.Deliver(old(View()), index, part, source, line)
    {
      var conflicts := Feed(index, part);
      ReportAll(source, line, conflicts);
    }

    /** The pending headers have been handed over. */
    method ReportAll(source: Option<string>, line: nat, kinds: seq<IssueKind>)
      requires Valid()
      modifies this`headers, this`issues
      ensures Valid() && View() == old(View()).(headers := [], issues := old(issues) + Located(kinds, source, line))
    {
      headers := [];
      issues := issues + Located(kinds, source, line);
    }

    method AddHeader(text: string)
      requires Valid()
      modifies this`headers, this`legacy
      ensures Valid() && View() == old(View()).(headers := old(headers) + [text], legacy := None)
    {
      headers := headers + [text];
      legacy := None;
    }

    method AbsorbLine(m: Meaning, source: Option<string>, line: nat)
      requires Valid()
      modifies this, Owned()
      ensures Valid() && fresh(Owned() - old(Owned()))
      ensures View() == Recovery.Absorb(old(View()), m, source, line)
    {
      match m {
        case Nothing =>
        case HeaderText(text) =>
          AddHeader(text);
        case Entry(Rejected(kind)) =>
          Report(source, line, kind);
        case Entry(Accepted(runId, part)) =>
          var index := Route(runId, part, source, line);
          Deliver(index, part, source, line);
      }
    }

    method Read(lines: seq<InputLine>, source: Option<string>)
      requires Valid()
      modifies this, Owned()
      ensures Valid() && fresh(Owned() - old(Owned()))
      ensures View() == ReadLines(old(View()), lines, source)
    {
      ghost var start := View();
      var line := 0;
      while line < |lines|
        invariant line <= |lines| && Valid() && fresh(Owned() - old(Owned()))
        invariant View() == ReadLines(start, lines[..line], source)
      {
        assert lines[..line + 1][..line] == lines[..line];
        AbsorbLine(MeaningOf(lines[line]), source, line + 1);
        line := line + 1;
      }
      assert lines[..line] == lines;
    }

    /** Headers after the last entry get a run of their own. */
    method TakeHeaders()
      requires Valid()
      modifies this, Owned()
      ensures Valid() && fresh(Owned() - old(Owned()))
      ensures views == WithHeaderRun(old(View())) && issues == old(issues)
    {
      if headers != [] {
        ghost var st := View();
        var index := PushRun(None, None);
        assert AddPart(EMPTY, Part(None, None)) == EMPTY && [] + st.headers == st.headers;
        Deliver(index, Part(None, None), None, 0);
        assert views == st.runs + [Building(None, None, st.headers, EMPTY)];
        assert issues == st.issues + [];
      }
    }

    method Finish() returns (saved: SavedJournal)
      requires Valid()
      modifies this, Owned()
      ensures RunsDistinct(old(views)) && saved == FinishLoad(old(View()))
    {
      AllDistinct();
      TakeHeaders();
      saved := FinishRuns();
    }

    lemma AllDistinct()
      requires AllOk(runs, views)
      ensures RunsDistinct(views)
    {
      forall i | 0 <= i < |views|
        ensures DistinctIds(views[i].history.scopes)
      {
        assert runs[i].View() == views[i];
      }
    }

    /** Complete every run in order, collecting its issues after those of the lines. */
    method FinishRuns() returns (saved: SavedJournal)
      requires AllOk(runs, views)
      modifies Owned()
      ensures RunsDistinct(views)
      ensures saved == SavedJournal(FinishAll(views), issues + FinishAllIssues(views))
    {
      AllDistinct();
      var done, found := [], [];
      var i := 0;
      while i < |runs|
        invariant i <= |runs| == |views|
        invariant RunsDistinct(views[..i]) && done == FinishAll(views[..i]) && found == FinishAllIssues(views[..i])
        invariant forall j :: i <= j < |runs| ==> runs[j].position == j && runs[j].Valid() && runs[j].View() == views[j]
      {
        FinishOneMore(views, i);
        var run, more := runs[i].Finish();
        done := done + [run];
        found := found + more;
        i := i + 1;
      }
      assert views[..i] == views;
      saved := SavedJournal(done, issues + found);
    }
  }

  lemma FinishAllSnoc(before: seq<Building>, b: Building)
    requires RunsDistinct(before) && DistinctIds(b.history.scopes)
    ensures RunsDistinct(before + [b])
    ensures FinishAll(before + [b]) == FinishAll(before) + [FinishRun(b)]
    ensures FinishAllIssues(before + [b]) == FinishAllIssues(before) + FinishIssues(b)
  {
    assert (before + [b])[..|before|] == before;
  }

  lemma FinishOneMore(views: seq<Building>, i: nat)
    requires RunsDistinct(views) && i < |views|
    ensures RunsDistinct(views[..i]) && RunsDistinct(views[..i + 1])
    ensures FinishAll(views[..i + 1]) == FinishAll(views[..i]) + [FinishRun(views[i])]
    ensures FinishAllIssues(views[..i + 1]) == FinishAllIssues(views[..i]) + FinishIssues(views[i])
  {
    assert views[..i + 1] == views[..i] + [views[i]];
    FinishAllSnoc(views[..i], views[i]);
  }

  /** Load files in the given order, oldest first. */
  method LoadJsonlFiles(files: seq<InputFile>) returns (saved: SavedJournal)
    ensures saved == LoadFiles(files)
  {
    var loader := new Loader();
    var i := 0;
    while i < |files|
      invariant i <= |files| && loader.Valid() && fresh(loader) && fresh(loader.Owned())
      invariant loader.View() == ReadFiles(files[..i])
    {
      assert files[..i + 1][..i] == files[..i];
      loader.Read(files[i].lines, files[i].source);
      i := i + 1;
    }
    assert files[..i] == files;
    saved := loader.Finish();
  }
}
