/** What recovering a saved journal means: how lines find their run, how a run absorbs them, how a run is completed. */
module Recovery {
  import opened Core
  import opened Wire
  import opened Hierarchy
  import opened Retention

  // ---------- the contents of one run ----------

  datatype History = History(records: seq<Record>, scopes: seq<Scope>)

  const EMPTY := History([], [])

  /** Position of the first scope with `id`. */
  function IndexOf(scopes: seq<Scope>, id: ScopeId): (r: Option<nat>)
    ensures r.Some? ==> r.value < |scopes| && scopes[r.value].id == id
  {
    if scopes == [] then None
    else if scopes[0].id == id then Some(0)
    else
      var r := IndexOf(scopes[1..], id);
      if r.None? then None else Some(r.value + 1)
  }

  /** Every scope is the first one with its identifier. */
  ghost predicate DistinctIds(scopes: seq<Scope>) {
    forall i {:trigger IndexOf(scopes, scopes[i].id)} :: 0 <= i < |scopes| ==> IndexOf(scopes, scopes[i].id) == Some(i)
  }

  lemma DistinctMeans(scopes: seq<Scope>)
    ensures DistinctIds(scopes) <==> forall i, j :: 0 <= i < j < |scopes| ==> scopes[i].id != scopes[j].id
  {
    if DistinctIds(scopes) {
      forall i, j | 0 <= i < j < |scopes|
        ensures scopes[i].id != scopes[j].id
      {
        assert IndexOf(scopes, scopes[i].id) == Some(i) && IndexOf(scopes, scopes[j].id) == Some(j);
      }
    }
    if forall i, j :: 0 <= i < j < |scopes| ==> scopes[i].id != scopes[j].id {
      forall i | 0 <= i < |scopes|
        ensures IndexOf(scopes, scopes[i].id) == Some(i)
      {
        IndexOfLeast(scopes, i, scopes[i].id);
      }
    }
  }

  lemma {:induction false} IndexOfLeast(scopes: seq<Scope>, i: nat, id: ScopeId)
    requires i < |scopes| && scopes[i].id == id && forall j :: 0 <= j < i ==> scopes[j].id != id
    ensures IndexOf(scopes, id) == Some(i)
  {
    if i > 0 {
      IndexOfLeast(scopes[1..], i - 1, id);
    }
  }

  lemma {:induction false} IndexOfNone(scopes: seq<Scope>, id: ScopeId)
    ensures IndexOf(scopes, id) == None <==> forall s :: s in scopes ==> s.id != id
  {
    if scopes != [] {
      IndexOfNone(scopes[1..], id);
      assert scopes == [scopes[0]] + scopes[1..];
    }
  }

  lemma {:induction false} IndexOfSnoc(scopes: seq<Scope>, s: Scope, id: ScopeId)
    ensures IndexOf(scopes + [s], id) ==
      if IndexOf(scopes, id).Some? then IndexOf(scopes, id) else if s.id == id then Some(|scopes|) else None
  {
    if scopes == [] {
      assert scopes + [s] == [s];
    } else {
      assert (scopes + [s])[1..] == scopes[1..] + [s] && (scopes + [s])[0] == scopes[0];
      IndexOfSnoc(scopes[1..], s, id);
    }
  }

  lemma {:induction false} IndexOfUpdate(scopes: seq<Scope>, i: nat, s: Scope, id: ScopeId)
    requires i < |scopes| && s.id == scopes[i].id
    ensures IndexOf(scopes[i := s], id) == IndexOf(scopes, id)
  {
    if i > 0 {
      assert scopes[i := s][1..] == scopes[1..][i - 1 := s];
      IndexOfUpdate(scopes[1..], i - 1, s, id);
    } else {
      assert scopes[i := s][1..] == scopes[1..];
    }
  }

  lemma DistinctPush(scopes: seq<Scope>, s: Scope)
    requires DistinctIds(scopes) && IndexOf(scopes, s.id) == None
    ensures DistinctIds(scopes + [s])
  {
    forall i | 0 <= i < |scopes| + 1
      ensures IndexOf(scopes + [s], (scopes + [s])[i].id) == Some(i)
    {
      IndexOfSnoc(scopes, s, (scopes + [s])[i].id);
      assert i < |scopes| ==> IndexOf(scopes, scopes[i].id) == Some(i);
    }
  }

  lemma DistinctUpdate(scopes: seq<Scope>, k: nat, s: Scope)
    requires DistinctIds(scopes) && k < |scopes| && s.id == scopes[k].id
    ensures DistinctIds(scopes[k := s])
  {
    forall i | 0 <= i < |scopes|
      ensures IndexOf(scopes[k := s], scopes[k := s][i].id) == Some(i)
    {
      IndexOfUpdate(scopes, k, s, scopes[i].id);
      assert IndexOf(scopes, scopes[i].id) == Some(i);
    }
  }

  /** Metadata that cannot describe the same scope. */
  predicate Contradicts(existing: Scope, incoming: Scope) {
    || existing.parent != incoming.parent
    || existing.enteredAt != incoming.enteredAt
    || existing.name != incoming.name
    || (existing.exitedAt.Some? && incoming.exitedAt.Some? && existing.exitedAt != incoming.exitedAt)
  }

  /** Messages from an open snapshot do not overwrite those of a closed one. */
  function MergeScope(existing: Scope, incoming: Scope): Scope {
    existing.(
      exitedAt := Or(existing.exitedAt, incoming.exitedAt),
      exitMessages := if existing.exitedAt.None? || incoming.exitedAt.Some?
                      then OverlayMessages(existing.exitMessages, incoming.exitMessages) else existing.exitMessages)
  }

  function AddScope(scopes: seq<Scope>, incoming: Scope): seq<Scope> {
    var i := IndexOf(scopes, incoming.id);
    if i.None? then scopes + [incoming]
    else if Contradicts(scopes[i.value], incoming) then scopes
    else scopes[i.value := MergeScope(scopes[i.value], incoming)]
  }

  function ScopeIssue(scopes: seq<Scope>, incoming: Scope): seq<IssueKind> {
    var i := IndexOf(scopes, incoming.id);
    if i.Some? && Contradicts(scopes[i.value], incoming) then [ConflictingScope] else []
  }

  /** The first exit observed for a scope. */
  function FirstExit(records: seq<Record>, id: ScopeId): Option<(Outcome, U64)> {
    if records == [] then None
    else
      var earlier := FirstExit(records[..|records| - 1], id);
      var r := records[|records| - 1];
      if earlier.Some? then earlier
      else if r.kind.ScopeExit? && r.scope == Some(id) then Some((r.kind.outcome, r.kind.durationNs))
      else None
  }

  /** A repeated identifier is dropped only when it equals the first record retained under that identifier. */
  predicate Repeats(records: seq<Record>, r: Record) {
    var i := FindRecord(records, r.id);
    i.Some? && WireEqual(records[i.value], r)
  }

  function AddRecord(records: seq<Record>, r: Record): seq<Record> {
    if Repeats(records, r) then records else records + [r]
  }

  function RecordIssue(records: seq<Record>, r: Record): seq<IssueKind> {
    if Repeats(records, r) then []
    else if FindRecord(records, r.id).Some? then [ConflictingRecord]
    else if r.kind.ScopeExit? && r.scope.Some? then
      var first := FirstExit(records, r.scope.value);
      if first.Some? && first.value != (r.kind.outcome, r.kind.durationNs) then [ConflictingScope] else []
    else []
  }

  function AddPart(h: History, p: Part): History {
    History(
      if p.record.Some? then AddRecord(h.records, p.record.value) else h.records,
      if p.scope.Some? then AddScope(h.scopes, p.scope.value) else h.scopes)
  }

  function PartIssues(h: History, p: Part): seq<IssueKind> {
    (if p.scope.Some? then ScopeIssue(h.scopes, p.scope.value) else [])
    + (if p.record.Some? then RecordIssue(h.records, p.record.value) else [])
  }

  function Fold(h: History, parts: seq<Part>): History {
    if parts == [] then h else AddPart(Fold(h, parts[..|parts| - 1]), parts[|parts| - 1])
  }

  function FoldIssues(h: History, parts: seq<Part>): seq<IssueKind> {
    if parts == [] then []
    else
      var n := |parts| - 1;
      FoldIssues(h, parts[..n]) + PartIssues(Fold(h, parts[..n]), parts[n])
  }

  lemma AddScopeKeepsDistinct(scopes: seq<Scope>, incoming: Scope)
    requires DistinctIds(scopes)
    ensures DistinctIds(AddScope(scopes, incoming))
  {
    var i := IndexOf(scopes, incoming.id);
    if i.None? {
      DistinctPush(scopes, incoming);
    } else {
      DistinctUpdate(scopes, i.value, MergeScope(scopes[i.value], incoming));
    }
  }

  // ---------- completing a run ----------

  function Parents(scopes: seq<Scope>): seq<ScopeId> {
    if scopes == [] then []
    else (if scopes[0].parent.Some? then [scopes[0].parent.value] else []) + Parents(scopes[1..])
  }

  function RecordScopes(records: seq<Record>): seq<ScopeId> {
    if records == [] then []
    else (if records[0].scope.Some? then [records[0].scope.value] else []) + RecordScopes(records[1..])
  }

  /** Referenced scopes without metadata, each once, in order of first reference. */
  function Missing(needed: seq<ScopeId>, known: set<ScopeId>): seq<ScopeId> {
    if needed == [] then []
    else if needed[0] in known then Missing(needed[1..], known)
    else [needed[0]] + Missing(needed[1..], known + {needed[0]})
  }

  function Placeholder(id: ScopeId): Scope {
    Scope(id, None, 0, None, None, NO_MESSAGES)
  }

  function Placeholders(ids: seq<ScopeId>): seq<Scope> {
    seq(|ids|, i requires 0 <= i < |ids| => Placeholder(ids[i]))
  }

  function IdSeq(scopes: seq<Scope>): seq<ScopeId> {
    seq(|scopes|, i requires 0 <= i < |scopes| => scopes[i].id)
  }

  function MissingOf(h: History): seq<ScopeId> {
    Missing(Parents(h.scopes) + RecordScopes(h.records), ScopeIds(h.scopes))
  }

  function WithPlaceholders(h: History): seq<Scope> {
    h.scopes + Placeholders(MissingOf(h))
  }

  function ParentGraph(scopes: seq<Scope>): Graph {
    map id | id in ScopeIds(scopes) :: ParentOf(scopes, id)
  }

  function ParentOf(scopes: seq<Scope>, id: ScopeId): Option<ScopeId> {
    var i := IndexOf(scopes, id);
    if i.Some? then scopes[i.value].parent else None
  }

  function CutLinks(scopes: seq<Scope>, cuts: seq<ScopeId>): seq<Scope> {
    seq(|scopes|, i requires 0 <= i < |scopes| => if scopes[i].id in cuts then scopes[i].(parent := None) else scopes[i])
  }

  lemma {:induction false} MissingCovers(needed: seq<ScopeId>, known: set<ScopeId>)
    ensures var m := Missing(needed, known);
      && (forall id :: id in needed ==> id in known || id in m)
      && (forall id :: id in m ==> id in needed && id !in known)
      && (forall i, j :: 0 <= i < j < |m| ==> m[i] != m[j])
  {
    if needed != [] {
      if needed[0] in known {
        MissingCovers(needed[1..], known);
      } else {
        MissingCovers(needed[1..], known + {needed[0]});
      }
    }
  }

  /** Placeholders come in the order in which their scopes are first referred to. */
  lemma {:induction false} MissingInOrder(needed: seq<ScopeId>, known: set<ScopeId>, i: nat, j: nat, q: nat) returns (p: nat)
    requires i < j < |Missing(needed, known)| && q < |needed| && needed[q] == Missing(needed, known)[j]
    ensures p < q && needed[p] == Missing(needed, known)[i]
  {
    MissingCovers(needed, known);
    var m := Missing(needed, known);
    assert m[j] in m;
    if needed[0] in known {
      p := MissingInOrder(needed[1..], known, i, j, q - 1);
      p := p + 1;
    } else {
      var rest := Missing(needed[1..], known + {needed[0]});
      assert m == [needed[0]] + rest && m[i] != m[j];
      MissingCovers(needed[1..], known + {needed[0]});
      assert rest[j - 1] in rest;
      if i == 0 {
        p := 0;
      } else {
        p := MissingInOrder(needed[1..], known + {needed[0]}, i - 1, j - 1, q - 1);
        p := p + 1;
      }
    }
  }

  lemma ParentsFirst(s: Scope, rest: seq<Scope>)
    ensures Parents([s] + rest) == (if s.parent.Some? then [s.parent.value] else []) + Parents(rest)
  {
    assert ([s] + rest)[1..] == rest;
  }

  /** References are collected in the order of the scopes, and of the records. */
  lemma {:induction false} ParentsConcat(a: seq<Scope>, b: seq<Scope>)
    ensures Parents(a + b) == Parents(a) + Parents(b)
    decreases |a|
  {
    if a == [] {
      assert a + b == b;
    } else {
      var s, rest := a[0], a[1..];
      assert a == [s] + rest;
      ParentsConcat(rest, b);
      SeqAssociative([s], rest, b);
      ParentsFirst(s, rest);
      ParentsFirst(s, rest + b);
      SeqAssociative(if s.parent.Some? then [s.parent.value] else [], Parents(rest), Parents(b));
    }
  }

  lemma RecordScopesFirst(r: Record, rest: seq<Record>)
    ensures RecordScopes([r] + rest) == (if r.scope.Some? then [r.scope.value] else []) + RecordScopes(rest)
  {
    assert ([r] + rest)[1..] == rest;
  }

  lemma {:induction false} RecordScopesConcat(a: seq<Record>, b: seq<Record>)
    ensures RecordScopes(a + b) == RecordScopes(a) + RecordScopes(b)
    decreases |a|
  {
    if a == [] {
      assert a + b == b;
    } else {
      var r, rest := a[0], a[1..];
      assert a == [r] + rest;
      RecordScopesConcat(rest, b);
      SeqAssociative([r], rest, b);
      RecordScopesFirst(r, rest);
      RecordScopesFirst(r, rest + b);
      SeqAssociative(if r.scope.Some? then [r.scope.value] else [], RecordScopes(rest), RecordScopes(b));
    }
  }

  /** Missing parents come before scopes that only records refer to. */
  lemma MissingParentsFirst(h: History, i: nat, j: nat)
    requires i < j < |MissingOf(h)| && MissingOf(h)[j] in Parents(h.scopes)
    ensures MissingOf(h)[i] in Parents(h.scopes)
  {
    var parents, records := Parents(h.scopes), RecordScopes(h.records);
    var q: nat :| q < |parents| && parents[q] == MissingOf(h)[j];
    assert (parents + records)[q] == parents[q];
    var p := MissingInOrder(parents + records, ScopeIds(h.scopes), i, j, q);
    assert (parents + records)[p] == parents[p];
  }

  lemma {:induction false} ParentsMember(scopes: seq<Scope>, s: Scope)
    requires s in scopes && s.parent.Some?
    ensures s.parent.value in Parents(scopes)
  {
    if s != scopes[0] {
      ParentsMember(scopes[1..], s);
    }
  }

  lemma {:induction false} RecordScopesMember(records: seq<Record>, r: Record)
    requires r in records && r.scope.Some?
    ensures r.scope.value in RecordScopes(records)
  {
    if r != records[0] {
      RecordScopesMember(records[1..], r);
    }
  }

  lemma {:induction false} ParentsFrom(scopes: seq<Scope>, id: ScopeId)
    requires id in Parents(scopes)
    ensures exists s :: s in scopes && s.parent == Some(id)
  {
    if scopes[0].parent == Some(id) {
      assert scopes[0] in scopes;
    } else {
      ParentsFrom(scopes[1..], id);
      var s :| s in scopes[1..] && s.parent == Some(id);
      assert s in scopes;
    }
  }

  lemma {:induction false} RecordScopesFrom(records: seq<Record>, id: ScopeId)
    requires id in RecordScopes(records)
    ensures exists r :: r in records && r.scope == Some(id)
  {
    if records[0].scope == Some(id) {
      assert records[0] in records;
    } else {
      RecordScopesFrom(records[1..], id);
      var r :| r in records[1..] && r.scope == Some(id);
      assert r in records;
    }
  }

  /** A scope that the history refers to without holding it. */
  ghost predicate Dangling(scopes: seq<Scope>, records: seq<Record>, id: ScopeId) {
    && (forall s :: s in scopes ==> s.id != id)
    && ((exists s :: s in scopes && s.parent == Some(id)) || (exists r :: r in records && r.scope == Some(id)))
  }

  lemma MissingIsDangling(h: History, id: ScopeId)
    ensures id in MissingOf(h) <==> Dangling(h.scopes, h.records, id)
  {
    var needed := Parents(h.scopes) + RecordScopes(h.records);
    MissingCovers(needed, ScopeIds(h.scopes));
    if id in Parents(h.scopes) {
      ParentsFrom(h.scopes, id);
    }
    if id in RecordScopes(h.records) {
      RecordScopesFrom(h.records, id);
    }
    if s :| s in h.scopes && s.parent == Some(id) {
      ParentsMember(h.scopes, s);
    }
    if r :| r in h.records && r.scope == Some(id) {
      RecordScopesMember(h.records, r);
    }
  }

  /** The retained identifiers are those with metadata and those that are missing it. */
  lemma FullIds(h: History, id: ScopeId)
    ensures id in ScopeIds(WithPlaceholders(h)) <==> id in ScopeIds(h.scopes) || id in MissingOf(h)
  {
    var missing, full := MissingOf(h), WithPlaceholders(h);
    if id in ScopeIds(h.scopes) {
      var s :| s in h.scopes && s.id == id;
      assert s in full;
    }
    if id in missing {
      var i :| 0 <= i < |missing| && missing[i] == id;
      assert full[|h.scopes| + i] == Placeholder(id) && full[|h.scopes| + i] in full;
    }
  }

  lemma PlaceholdersDistinct(h: History)
    requires DistinctIds(h.scopes)
    ensures DistinctIds(WithPlaceholders(h))
  {
    var missing, full, n := MissingOf(h), WithPlaceholders(h), |h.scopes|;
    MissingCovers(Parents(h.scopes) + RecordScopes(h.records), ScopeIds(h.scopes));
    DistinctMeans(h.scopes);
    DistinctMeans(full);
    forall i, j | 0 <= i < j < |full|
      ensures full[i].id != full[j].id
    {
      if j < n {
        assert full[i] == h.scopes[i] && full[j] == h.scopes[j];
      } else if i < n {
        assert full[j].id == missing[j - n] && missing[j - n] in missing;
        assert full[i] == h.scopes[i] && h.scopes[i].id in ScopeIds(h.scopes);
      } else {
        assert full[i].id == missing[i - n] && full[j].id == missing[j - n];
      }
    }
  }

  /** Placeholders follow the scopes that were read, and say nothing but their identifier. */
  lemma PlaceholdersFollow(h: History)
    ensures var full, n := WithPlaceholders(h), |h.scopes|;
      && |full| == n + |MissingOf(h)| && full[..n] == h.scopes
      && forall i :: n <= i < |full| ==> full[i] == Scope(MissingOf(h)[i - n], None, 0, None, None, NO_MESSAGES)
  {
  }

  lemma PlaceholdersClosed(h: History)
    ensures Closed(ParentGraph(WithPlaceholders(h)))
  {
    var full := WithPlaceholders(h);
    MissingCovers(Parents(h.scopes) + RecordScopes(h.records), ScopeIds(h.scopes));
    forall id | id in ScopeIds(full) && ParentOf(full, id).Some?
      ensures ParentOf(full, id).value in ScopeIds(full)
    {
      var i := IndexOf(full, id).value;
      assert i < |h.scopes| && full[i] == h.scopes[i];
      ParentsMember(h.scopes, full[i]);
      FullIds(h, full[i].parent.value);
    }
  }

  lemma RecordScopesPresent(h: History, r: Record)
    requires r in h.records && r.scope.Some?
    ensures r.scope.value in ScopeIds(WithPlaceholders(h))
  {
    MissingCovers(Parents(h.scopes) + RecordScopes(h.records), ScopeIds(h.scopes));
    RecordScopesMember(h.records, r);
    FullIds(h, r.scope.value);
  }

  lemma IdSeqElems(scopes: seq<Scope>)
    ensures Elems(IdSeq(scopes)) == ScopeIds(scopes)
  {
    forall id
      ensures id in IdSeq(scopes) <==> id in ScopeIds(scopes)
    {
      if id in IdSeq(scopes) {
        var i :| 0 <= i < |scopes| && IdSeq(scopes)[i] == id;
        assert scopes[i] in scopes;
      }
      if id in ScopeIds(scopes) {
        var s :| s in scopes && s.id == id;
        var i :| 0 <= i < |scopes| && scopes[i] == s;
        assert IdSeq(scopes)[i] == id;
      }
    }
  }

  /** The repaired hierarchy of a run: placeholders first, then one link removed per cycle. */
  function CutsOf(h: History): seq<ScopeId>
    requires DistinctIds(h.scopes)
  {
    var full := WithPlaceholders(h);
    PlaceholdersClosed(h);
    IdSeqElems(full);
    Cuts(ParentGraph(full), IdSeq(full), {})
  }

  datatype SavedRun = SavedRun(
    runId: Option<string>,
    headers: seq<string>,
    records: seq<Record>,
    scopes: seq<Scope>,
    missing: seq<ScopeId>)

  function FinalScopes(h: History): seq<Scope>
    requires DistinctIds(h.scopes)
  {
    CutLinks(WithPlaceholders(h), CutsOf(h))
  }

  lemma {:induction false} CutLinksIndex(scopes: seq<Scope>, cuts: seq<ScopeId>, id: ScopeId)
    ensures IndexOf(CutLinks(scopes, cuts), id) == IndexOf(scopes, id)
  {
    var cut := CutLinks(scopes, cuts);
    if scopes != [] {
      assert cut[1..] == CutLinks(scopes[1..], cuts);
      CutLinksIndex(scopes[1..], cuts, id);
    }
  }

  lemma CutLinksGraph(scopes: seq<Scope>, cuts: seq<ScopeId>)
    requires DistinctIds(scopes)
    ensures DistinctIds(CutLinks(scopes, cuts)) && IdSeq(CutLinks(scopes, cuts)) == IdSeq(scopes)
    ensures ScopeIds(CutLinks(scopes, cuts)) == ScopeIds(scopes)
    ensures ParentGraph(CutLinks(scopes, cuts)) == Cut(ParentGraph(scopes), cuts)
  {
    var cut := CutLinks(scopes, cuts);
    assert IdSeq(cut) == IdSeq(scopes);
    IdSeqElems(scopes);
    IdSeqElems(cut);
    forall i | 0 <= i < |cut|
      ensures IndexOf(cut, cut[i].id) == Some(i)
    {
      CutLinksIndex(scopes, cuts, cut[i].id);
      assert IndexOf(scopes, scopes[i].id) == Some(i);
    }
    forall id | id in ScopeIds(scopes)
      ensures ParentOf(cut, id) == if id in cuts then None else ParentOf(scopes, id)
    {
      CutLinksIndex(scopes, cuts, id);
      IndexOfNone(scopes, id);
    }
  }

  /**
   What a completed run guarantees: distinct identifiers, every parent and every record's scope present, no cycle;
   apart from one removed link per cycle it is the history as read, followed by placeholders.
   */
  lemma FinalScopesRepaired(h: History)
    requires DistinctIds(h.scopes)
    ensures var full, final, cuts := WithPlaceholders(h), FinalScopes(h), CutsOf(h);
      && (forall i, j :: 0 <= i < j < |final| ==> final[i].id != final[j].id) && |final| == |full|
      && Closed(ParentGraph(final)) && Acyclic(ParentGraph(final))
      && (forall r :: r in h.records && r.scope.Some? ==> r.scope.value in ScopeIds(final))
      && (forall i :: 0 <= i < |final| ==> final[i] == if full[i].id in cuts then full[i].(parent := None) else full[i])
      && OneCutPerCycle(ParentGraph(full), cuts)
  {
    var full := WithPlaceholders(h);
    PlaceholdersDistinct(h);
    PlaceholdersClosed(h);
    IdSeqElems(full);
    RepairTheorem(ParentGraph(full), IdSeq(full));
    CutLinksGraph(full, CutsOf(h));
    DistinctMeans(FinalScopes(h));
    forall r | r in h.records && r.scope.Some?
      ensures r.scope.value in ScopeIds(full)
    {
      RecordScopesPresent(h, r);
    }
  }

  function ExitedIds(records: seq<Record>): set<ScopeId> {
    set r | r in records && r.kind.ScopeExit? && r.scope.Some? :: r.scope.value
  }

  /** Scopes with no observed exit, neither in their metadata nor among the records. */
  function UnfinishedScopes(run: SavedRun): (r: seq<Scope>)
    ensures forall s :: s in r <==> s in run.scopes && s.exitedAt.None? && s.id !in ExitedIds(run.records)
  {
    OpenScopes(run.scopes, ExitedIds(run.records))
  }

  function OpenScopes(scopes: seq<Scope>, exited: set<ScopeId>): (r: seq<Scope>)
    ensures forall s :: s in r <==> s in scopes && s.exitedAt.None? && s.id !in exited
  {
    if scopes == [] then []
    else (if scopes[0].exitedAt.None? && scopes[0].id !in exited then [scopes[0]] else []) + OpenScopes(scopes[1..], exited)
  }

  // ---------- routing lines to runs ----------

  datatype Issue = Issue(source: Option<string>, line: Option<nat>, kind: IssueKind)

  /** A run under construction. */
  datatype Building = Building(runId: Option<string>, source: Option<string>, headers: seq<string>, history: History)

  datatype LoaderState = LoaderState(
    runs: seq<Building>,
    legacy: Option<nat>,
    headers: seq<string>,
    issues: seq<Issue>)

  const FRESH := LoaderState([], None, [], [])

  /** A line after trimming: decorated headers are recognised before anything is parsed. */
  datatype InputLine = Blank | Header(text: string) | Garbage | Value(json: Json)

  function FindRun(runs: seq<Building>, runId: string): (r: Option<nat>)
    ensures r.Some? ==> r.value < |runs| && runs[r.value].runId == Some(runId)
  {
    if runs == [] then None
    else if runs[|runs| - 1].runId == Some(runId) then Some(|runs| - 1)
    else
      FindRun(runs[..|runs| - 1], runId)
  }

  predicate LegacyOk(st: LoaderState) {
    st.legacy.Some? ==> st.legacy.value < |st.runs|
  }

  /** The open legacy run already holds a record with this identifier: the writer must have restarted. */
  predicate RepeatsLegacy(st: LoaderState, p: Part)
    requires LegacyOk(st)
  {
    st.legacy.Some? && p.record.Some? && FindRecord(st.runs[st.legacy.value].history.records, p.record.value.id).Some?
  }

  function AddIssue(st: LoaderState, source: Option<string>, line: nat, kind: IssueKind): LoaderState {
    st.(issues := st.issues + [Issue(source, Some(line), kind)])
  }

  /** Find or create the run of an accepted line. */
  function Route(st: LoaderState, runId: Option<string>, p: Part, source: Option<string>, line: nat): (r: (LoaderState, nat))
    requires LegacyOk(st)
    ensures LegacyOk(r.0) && r.1 < |r.0.runs|
  {
    if runId.Some? then
      var i := FindRun(st.runs, runId.value);
      if i.Some? then (st.(legacy := None), i.value)
      else (st.(legacy := None, runs := st.runs + [Building(runId, source, [], EMPTY)]), |st.runs|)
    else
      var st' := if RepeatsLegacy(st, p) then AddIssue(st, source, line, InferredRunBoundary).(legacy := None) else st;
      if st'.legacy.Some? then (st', st'.legacy.value)
      else (st'.(runs := st'.runs + [Building(None, source, [], EMPTY)], legacy := Some(|st'.runs|)), |st'.runs|)
  }

  function Located(kinds: seq<IssueKind>, source: Option<string>, line: nat): seq<Issue> {
    seq(|kinds|, i requires 0 <= i < |kinds| => Issue(source, Some(line), kinds[i]))
  }

  /** Hand a part, with any pending headers, to run `i`. */
  function Deliver(st: LoaderState, i: nat, p: Part, source: Option<string>, line: nat): LoaderState
    requires i < |st.runs|
  {
    var run := st.runs[i];
    st.(runs := st.runs[i := run.(headers := run.headers + st.headers, history := AddPart(run.history, p))],
        headers := [],
        issues := st.issues + Located(PartIssues(run.history, p), source, line))
  }

  /** What a line means to the loader, once parsed. */
  datatype Meaning = Nothing | HeaderText(text: string) | Entry(decoded: Decoded)

  function MeaningOf(input: InputLine): Meaning {
    match input
    case Blank => Nothing
    case Header(text) => HeaderText(text)
    case Garbage => Entry(Rejected(InvalidLine))
    case Value(json) => Entry(DecodeLine(json))
  }

  function Absorb(st: LoaderState, m: Meaning, source: Option<string>, line: nat): (r: LoaderState)
    requires LegacyOk(st)
    ensures LegacyOk(r)
  {
    match m
    case Nothing => st
    case HeaderText(text) => st.(headers := st.headers + [text], legacy := None)
    case Entry(Rejected(kind)) => AddIssue(st, source, line, kind)
    case Entry(Accepted(runId, part)) =>
      var (routed, i) := Route(st, runId, part, source, line);
      Deliver(routed, i, part, source, line)
  }

  function ReadLine(st: LoaderState, input: InputLine, source: Option<string>, line: nat): (r: LoaderState)
    requires LegacyOk(st)
    ensures LegacyOk(r)
  {
    Absorb(st, MeaningOf(input), source, line)
  }

  function ReadLines(st: LoaderState, lines: seq<InputLine>, source: Option<string>): (r: LoaderState)
    requires LegacyOk(st)
    ensures LegacyOk(r)
  {
    if lines == [] then st
    else
      var n := |lines| - 1;
      ReadLine(ReadLines(st, lines[..n], source), lines[n], source, n + 1)
  }

  datatype SavedJournal = SavedJournal(runs: seq<SavedRun>, issues: seq<Issue>)

  ghost predicate RunsDistinct(runs: seq<Building>) {
    forall i :: 0 <= i < |runs| ==> DistinctIds(runs[i].history.scopes)
  }

  function FinishRun(b: Building): SavedRun
    requires DistinctIds(b.history.scopes)
  {
    SavedRun(b.runId, b.headers, b.history.records, FinalScopes(b.history), MissingOf(b.history))
  }

  /** One issue per placeholder and one per removed link. */
  function FinishIssues(b: Building): seq<Issue>
    requires DistinctIds(b.history.scopes)
  {
    Unlocated(|MissingOf(b.history)|, b.source, MissingScopeMetadata) + Unlocated(|CutsOf(b.history)|, b.source, InvalidHierarchy)
  }

  function Unlocated(n: nat, source: Option<string>, kind: IssueKind): seq<Issue> {
    seq(n, _ => Issue(source, None, kind))
  }

  function FinishAll(runs: seq<Building>): seq<SavedRun>
    requires RunsDistinct(runs)
  {
    seq(|runs|, i requires 0 <= i < |runs| => FinishRun(runs[i]))
  }

  function FinishAllIssues(runs: seq<Building>): seq<Issue>
    requires RunsDistinct(runs)
  {
    if runs == [] then [] else FinishAllIssues(runs[..|runs| - 1]) + FinishIssues(runs[|runs| - 1])
  }

  /** Headers after the last entry form a run of their own. */
  function WithHeaderRun(st: LoaderState): seq<Building> {
    if st.headers == [] then st.runs else st.runs + [Building(None, None, st.headers, EMPTY)]
  }

  function FinishLoad(st: LoaderState): SavedJournal
    requires RunsDistinct(st.runs)
  {
    var runs := WithHeaderRun(st);
    SavedJournal(FinishAll(runs), st.issues + FinishAllIssues(runs))
  }

  /** Completing a run reports each scope without metadata and each link removed, by kind and source, without a line. */
  lemma CompletionReported(b: Building)
    requires DistinctIds(b.history.scopes)
    ensures var issues, n := FinishIssues(b), |MissingOf(b.history)|;
      && |issues| == n + |CutsOf(b.history)|
      && (forall i :: 0 <= i < n ==> issues[i] == Issue(b.source, None, MissingScopeMetadata))
      && (forall i :: n <= i < |issues| ==> issues[i] == Issue(b.source, None, InvalidHierarchy))
  {
  }
}
