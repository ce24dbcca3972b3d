/** Exit messages across a crash: a recovered scope has the messages of the last snapshot written of it. */
module MessageRecovery {
  import opened Core
  import opened Retention
  import opened Wire
  import opened Recovery
  import opened Routing
  import opened Journaling
  import opened RoundTrip

  /** Every message that `a` has, `b` has too, perhaps with another text. */
  predicate Extends(a: ExitMessages, b: ExitMessages) {
    && (a.success.Some? ==> b.success.Some?)
    && (a.failure.Some? ==> b.failure.Some?)
    && (a.aborted.Some? ==> b.aborted.Some?)
  }

  function SnapshotOf(e: Emission): Option<Scope> {
    if e.EmitScope? then Some(e.scope) else e.snapshot
  }

  /** The messages in the last snapshot of a scope. */
  function LastMessages(es: seq<Emission>, id: ScopeId): ExitMessages {
    if es == [] then NO_MESSAGES
    else
      var s := SnapshotOf(es[|es| - 1]);
      if s.Some? && s.value.id == id then s.value.exitMessages else LastMessages(es[..|es| - 1], id)
  }

  lemma LastSnoc(es: seq<Emission>, e: Emission, id: ScopeId)
    ensures var s := SnapshotOf(e);
      LastMessages(es + [e], id) == if s.Some? && s.value.id == id then s.value.exitMessages else LastMessages(es, id)
  {
    assert (es + [e])[..|es|] == es;
  }

  /** Messages are added and replaced over time, never withdrawn. */
  ghost predicate Growing(es: seq<Emission>) {
    es != [] ==>
      var init, s := es[..|es| - 1], SnapshotOf(es[|es| - 1]);
      Growing(init) && (s.Some? ==> Extends(LastMessages(init, s.value.id), s.value.exitMessages))
  }

  lemma GrowingSnoc(es: seq<Emission>, e: Emission)
    requires Growing(es)
    requires var s := SnapshotOf(e); s.Some? ==> Extends(LastMessages(es, s.value.id), s.value.exitMessages)
    ensures Growing(es + [e])
  {
    assert (es + [e])[..|es|] == es;
  }

  /** Each retained scope has at least the messages of its last snapshot. */
  ghost predicate UpToDate(es: seq<Emission>, s: seq<BufferedScope>) {
    forall i :: 0 <= i < |s| ==> Extends(LastMessages(es, s[i].scope.id), s[i].scope.exitMessages)
  }

  ghost predicate MessagesInv(j: JournalState) {
    Growing(j.emitted) && UpToDate(j.emitted, j.scopes)
  }

  lemma {:induction false} NothingWritten(es: seq<Emission>, id: ScopeId)
    requires Coherent(es) && id >= |Entered(es)|
    ensures LastMessages(es, id) == NO_MESSAGES
  {
    if es != [] {
      NothingWritten(es[..|es| - 1], id);
    }
  }

  lemma EnterGrows(es: seq<Emission>, s: seq<BufferedScope>, b: BufferedScope)
    requires Coherent(es) && Growing(es) && UpToDate(es, s) && IncreasingScopes(s + [b])
    requires b.scope.id == |Entered(es)| && b.scope.exitMessages == NO_MESSAGES
    ensures Growing(es + [EmitScope(b.scope)]) && UpToDate(es + [EmitScope(b.scope)], s + [b])
  {
    var e, longer := EmitScope(b.scope), s + [b];
    NothingWritten(es, b.scope.id);
    GrowingSnoc(es, e);
    forall i | 0 <= i < |longer|
      ensures Extends(LastMessages(es + [e], longer[i].scope.id), longer[i].scope.exitMessages)
    {
      LastSnoc(es, e, longer[i].scope.id);
      assert i < |s| ==> longer[i].scope.id < longer[|s|].scope.id;
    }
  }

  /** A record entry shows retained scope `k`, if any; exits do not change messages. */
  lemma RecordGrows(es: seq<Emission>, s: seq<BufferedScope>, s': seq<BufferedScope>, e: Emission, k: Option<nat>)
    requires Growing(es) && UpToDate(es, s) && IncreasingScopes(s) && e.EmitRecord?
    requires |s'| == |s| && forall i :: 0 <= i < |s| ==>
      s'[i].scope.id == s[i].scope.id && s'[i].scope.exitMessages == s[i].scope.exitMessages
    requires e.snapshot.Some? <==> k.Some?
    requires k.Some? ==> k.value < |s| && e.snapshot.value.id == s[k.value].scope.id
    requires k.Some? ==> e.snapshot.value.exitMessages == s[k.value].scope.exitMessages
    ensures Growing(es + [e]) && UpToDate(es + [e], s')
  {
    GrowingSnoc(es, e);
    forall i | 0 <= i < |s'|
      ensures Extends(LastMessages(es + [e], s'[i].scope.id), s'[i].scope.exitMessages)
    {
      LastSnoc(es, e, s'[i].scope.id);
      assert k.Some? && i != k.value ==> s[i].scope.id != s[k.value].scope.id;
    }
  }

  lemma EventMessages(j: JournalState, kind: EventKind, name: string, fields: map<string, Value>, scope: Option<ScopeId>, at: Moment)
    requires JournalInv(j) && MessagesInv(j)
    ensures MessagesInv(RecordIn(j, kind, name, fields, scope, at))
  {
    var record := Record(j.nextRecord, scope, at.nanos, Event(kind, name, fields));
    var k := if scope.Some? then FindScope(j.scopes, scope.value) else None;
    RecordGrows(j.emitted, j.scopes, j.scopes, EmitRecord(record, LookupFor(j, scope)), k);
  }

  lemma ExitMessagesKept(j: JournalState, id: ScopeId, outcome: Outcome, at: Moment)
    requires JournalInv(j) && MessagesInv(j)
    ensures MessagesInv(ExitScope(j, id, outcome, at))
  {
    var i := ExitTarget(j.scopes, id);
    if i.Some? {
      var b := j.scopes[i.value];
      var closed := CloseEntry(b, at.millis, at.instant);
      var record := ExitRecord(j, id, outcome, ExitDuration(b, at.millis, at.instant), at);
      RecordGrows(j.emitted, j.scopes, j.scopes[i.value := closed], EmitRecord(record, Some(closed.scope)), i);
    }
  }

  lemma EnterMessages(j: JournalState, name: Option<string>, parent: Option<ScopeId>, at: Moment)
    requires JournalInv(j) && MessagesInv(j) && j.nextScope < U64_MAX
    ensures MessagesInv(EnterScope(j, name, parent, at))
  {
    var b := NewScope(j, name, parent, at);
    PushIncreasing(j.emitted, j.scopes, b);
    NewScopeFound(j, name, parent, at);
    EnterGrows(j.emitted, j.scopes, b);
  }

  lemma TrimMessages(j: JournalState, max: nat)
    requires MessagesInv(j)
    ensures MessagesInv(Step(j, TrimScopesTo(max)))
  {
    var n := SaturatingSub(ClosedCount(j.scopes), max);
    var kept := EvictOldest(j.scopes, n);
    EvictedMembers(j.scopes, n);
    forall i | 0 <= i < |kept|
      ensures Extends(LastMessages(j.emitted, kept[i].scope.id), kept[i].scope.exitMessages)
    {
      assert kept[i] in j.scopes;
    }
  }

  lemma StepMessages(j: JournalState, op: JournalOp)
    requires JournalInv(j) && MessagesInv(j) && j.nextScope < U64_MAX && j.nextRecord < U64_MAX
    ensures MessagesInv(Step(j, op))
  {
    match op
    case Enter(name, at) => EnterMessages(j, Some(name), j.current, at);
    case EnterWithParent(name, parent, at) => EnterMessages(j, Some(name), parent, at);
    case EnterUnnamed(parent, at) => EnterMessages(j, None, Or(parent, j.current), at);
    case RecordEvent(kind, name, fields, at) => EventMessages(j, kind, name, fields, j.current, at);
    case RecordQuietly(kind, name, fields, scope, at) => EventMessages(j, kind, name, fields, scope, at);
    case Exit(id, outcome, at) => ExitMessagesKept(j, id, outcome, at);
    case ExitQuietly(id, outcome, at) => ExitMessagesKept(j, id, outcome, at);
    case _ => RetentionMessages(j, op);
  }

  /** Operations that write nothing. */
  lemma RetentionMessages(j: JournalState, op: JournalOp)
    requires JournalInv(j) && MessagesInv(j)
    requires op.SetExitMessages? || op.TrimRecordsTo? || op.TrimScopesTo? || op.Clear? || op.AttachWriter?
    ensures MessagesInv(Step(j, op))
  {
    if op.TrimScopesTo? {
      TrimMessages(j, op.max);
    }
  }

  lemma {:induction false} RunMessages(ops: seq<JournalOp>)
    requires |ops| <= U64_MAX
    ensures MessagesInv(RunOps(ops))
  {
    if ops != [] {
      RunKeeps(ops[..|ops| - 1]);
      RunMessages(ops[..|ops| - 1]);
      StepMessages(RunOps(ops[..|ops| - 1]), ops[|ops| - 1]);
    }
  }

  lemma {:induction false} GrowingPrefix(es: seq<Emission>, k: nat)
    requires Growing(es) && k <= |es|
    ensures Growing(es[..k])
  {
    if k < |es| {
      assert es[..|es| - 1][..k] == es[..k];
      GrowingPrefix(es[..|es| - 1], k);
    } else {
      assert es[..k] == es;
    }
  }

  // ---------- reading them back ----------

  ghost predicate HasLastMessages(es: seq<Emission>, scopes: seq<Scope>) {
    forall i :: 0 <= i < |scopes| ==> scopes[i].exitMessages == LastMessages(es, scopes[i].id)
  }

  lemma NewScopeMessages(es: seq<Emission>, e: Emission, scopes: seq<Scope>)
    requires Coherent(es) && e.EmitScope? && Continues(es, e) && Recovers(es, scopes) && HasLastMessages(es, scopes)
    ensures HasLastMessages(es + [e], AddScope(scopes, e.scope))
  {
    IdentityIndex(scopes, e.scope.id);
    var longer := scopes + [e.scope];
    forall i | 0 <= i < |longer|
      ensures longer[i].exitMessages == LastMessages(es + [e], longer[i].id)
    {
      LastSnoc(es, e, longer[i].id);
    }
  }

  /** A later snapshot never comes with fewer messages, so the merge ends up with exactly its messages. */
  lemma SnapshotMessages(es: seq<Emission>, e: Emission, scopes: seq<Scope>)
    requires Coherent(es) && e.EmitRecord? && Continues(es, e) && Recovers(es, scopes) && HasLastMessages(es, scopes)
    requires e.snapshot.Some? ==> Extends(LastMessages(es, e.snapshot.value.id), e.snapshot.value.exitMessages)
    ensures HasLastMessages(es + [e], if e.snapshot.Some? then AddScope(scopes, e.snapshot.value) else scopes)
  {
    var scopes' := if e.snapshot.Some? then AddScope(scopes, e.snapshot.value) else scopes;
    if e.snapshot.Some? {
      var s := e.snapshot.value;
      IdentityIndex(scopes, s.id);
      SnapshotRecovers(es, e, scopes);
      assert Faithful(es, scopes[s.id]);
    }
    forall i | 0 <= i < |scopes'|
      ensures scopes'[i].exitMessages == LastMessages(es + [e], scopes'[i].id)
    {
      LastSnoc(es, e, scopes'[i].id);
    }
  }

  lemma {:induction false} MessagesFold(es: seq<Emission>)
    requires Coherent(es) && Growing(es)
    ensures HasLastMessages(es, Fold(EMPTY, PartsFrom(es)).scopes)
    decreases |es|
  {
    if es != [] {
      var init, e := SplitStream(es);
      Snoc(init, e);
      GrowingInit(init, e);
      MessagesFold(init);
      StreamFolds(init);
      PartsFromSnoc(init, e);
      FoldSnoc(EMPTY, PartsFrom(init), PartOf(e));
      EntryMessages(init, e, Fold(EMPTY, PartsFrom(init)));
    }
  }

  lemma GrowingInit(es: seq<Emission>, e: Emission)
    requires Growing(es + [e])
    ensures Growing(es) && var s := SnapshotOf(e); s.Some? ==> Extends(LastMessages(es, s.value.id), s.value.exitMessages)
  {
    assert (es + [e])[..|es|] == es;
  }

  lemma EntryMessages(es: seq<Emission>, e: Emission, h: History)
    requires Coherent(es) && Continues(es, e) && Recovers(es, h.scopes) && HasLastMessages(es, h.scopes)
    requires e.EmitRecord? && e.snapshot.Some? ==> Extends(LastMessages(es, e.snapshot.value.id), e.snapshot.value.exitMessages)
    ensures HasLastMessages(es + [e], AddPart(h, PartOf(e)).scopes)
  {
    if e.EmitScope? {
      NewScopeMessages(es, e, h.scopes);
    } else {
      SnapshotMessages(es, e, h.scopes);
    }
  }

  /**
   Stop a journal after any prefix of what it has written, as in crash recovery: each recovered scope has exactly the
   exit messages of the last snapshot of it in that prefix.
   */
  lemma CrashMessages(ops: seq<JournalOp>, k: nat, runId: string, source: Option<string>)
    requires |ops| <= U64_MAX && Writing(ops) && OwnParents(ops) && runId != ""
    requires 0 < k <= |OutputOf(ops).written|
    ensures var es := OutputOf(ops).written[..k];
      var loaded := LoadFiles([InputFile(source, SavedLines(es, runId))]);
      |loaded.runs| == 1 && HasLastMessages(es, loaded.runs[0].scopes)
  {
    var all := RunOps(ops).emitted;
    WrittenIsEmitted(ops);
    RunKeeps(ops);
    OwnRun(ops);
    RunMessages(ops);
    CoherentPrefix(all, k);
    GrowingPrefix(all, k);
    StreamMessagesLoad(all[..k], runId, source);
  }

  lemma StreamMessagesLoad(es: seq<Emission>, runId: string, source: Option<string>)
    requires Coherent(es) && OwnReferences(es) && Growing(es) && runId != "" && es != []
    ensures var loaded := LoadFiles([InputFile(source, SavedLines(es, runId))]);
      |loaded.runs| == 1 && HasLastMessages(es, loaded.runs[0].scopes)
  {
    StreamWritable(es);
    MessagesFold(es);
    SavedLinesCarry(es, runId);
    var h := StreamCompletes(es);
    LoadsComplete(SavedLines(es, runId), PartsFrom(es), runId, source, h);
  }
}
