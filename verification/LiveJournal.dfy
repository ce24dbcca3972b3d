/** The journal object over the indexed buffer, and the guard that exits a scope exactly once. */
module LiveJournal {
  import opened Core
  import opened Retention
  import opened Buffer
  import opened Journaling

  /** A journal; a writer attached to it wants scope metadata and never fails. */
  class Journal {
    const scopes: Scopes
    const records: Records
    var nextScopeId: U64
    var nextRecordId: U64
    var currentScope: Option<ScopeId>
    var hasWriter: bool
    // The calls received by the current writer, in order.
    var written: seq<Emission>
    ghost var cleared: U64
    ghost var dropped: nat
    ghost var emitted: seq<Emission>

    ghost predicate Valid()
      reads this, scopes, records
    {
      scopes.Valid() && records.Valid()
    }

    /** The deques cannot hold `usize::MAX` entries. */
    ghost predicate HasRoom()
      reads scopes, records
    {
      |scopes.Contents()| < USIZE_MAX && |records.entries| < USIZE_MAX
    }

    ghost function View(): JournalState
      reads this, scopes, records
    {
      JournalState(scopes.Contents(), records.entries, nextScopeId, nextRecordId, currentScope, cleared, dropped, emitted)
    }

    ghost function Sink(): Output
      reads this
    {
      Output(hasWriter, written)
    }

    /** What an operation does to the journal and to its writer. */
    twostate predicate Does(op: JournalOp)
      reads this, scopes, records
    {
      View() == Step(old(View()), op) && Sink() == Deliver(old(Sink()), old(View()), op)
    }

    /** One more retained scope, open, with this name, parent and time, and its clock running. */
    twostate predicate Added(name: Option<string>, parent: Option<ScopeId>, at: Moment)
      reads this, scopes
    {
      var scope := Scope(old(nextScopeId), parent, at.millis, name, None, NO_MESSAGES);
      && scopes.Contents() == old(scopes.Contents()) + [BufferedScope(scope, Some(ScopeClock(at.instant, None)))]
      && (hasWriter && FindScope(old(scopes.Contents()), scope.id).None? ==> written == old(written) + [EmitScope(scope)])
      && (!hasWriter ==> written == old(written))
    }

    constructor ()
      ensures Valid() && View() == NEW_JOURNAL && Sink() == Output(false, []) && fresh(scopes) && fresh(records)
    {
      scopes := new Scopes();
      records := new Records();
      nextScopeId, nextRecordId, currentScope := 0, 0, None;
      hasWriter, written := false, [];
      cleared, dropped, emitted := 0, 0, [];
    }

    /** A new writer first receives the metadata of every retained scope. */
    method SetWriter()
      requires Valid()
      modifies this`hasWriter, this`written
      ensures Valid() && Does(AttachWriter)
      ensures hasWriter && |written| == |scopes.Contents()|
      ensures forall i :: 0 <= i < |written| ==> written[i] == EmitScope(scopes.Contents()[i].scope)
    {
      var retained := ScopesOf(scopes.Contents());
      var calls := [];
      for i := 0 to |retained|
        invariant calls == ScopeCalls(retained[..i])
      {
        assert ScopeCalls(retained[..i + 1]) == ScopeCalls(retained[..i]) + [EmitScope(retained[i])];
        calls := calls + [EmitScope(retained[i])];
      }
      assert retained[..|retained|] == retained;
      hasWriter, written := true, calls;
    }

    method Write(e: Emission)
      modifies this`written
      ensures written == if hasWriter then old(written) + [e] else old(written)
    {
      if hasWriter {
        written := written + [e];
      }
    }

    method PushNewScope(name: Option<string>, parent: Option<ScopeId>, at: Moment) returns (id: ScopeId)
      requires Valid() && HasRoom()
      modifies this`nextScopeId, this`written, this`emitted, scopes
      ensures Valid() && id == old(nextScopeId) && View() == EnterScope(old(View()), name, parent, at)
      ensures Added(name, parent, at)
      ensures Sink() == if hasWriter then Output(true, old(written) + emitted[|old(emitted)|..]) else old(Sink())
    {
      ghost var before := View();
      id := nextScopeId;
      nextScopeId := Successor(nextScopeId);
      var scope := Scope(id, parent, at.millis, name, None, NO_MESSAGES);
      scopes.Push(BufferedScope(scope, Some(ScopeClock(at.instant, None))));
      NewScopeFound(before, name, parent, at);
      emitted := emitted + [EmitScope(LookupScope(scopes.Contents(), id).value)];
      WriteScopeMetadata(id);
    }

    /** The writer gets the scope that a lookup finds, which is there. */
    method WriteScopeMetadata(id: ScopeId)
      requires Valid() && LookupScope(scopes.Contents(), id).Some?
      modifies this`written
      ensures written == if hasWriter then old(written) + [EmitScope(LookupScope(scopes.Contents(), id).value)] else old(written)
    {
      if hasWriter {
        var scope := scopes.Get(id);
        written := written + [EmitScope(scope.value)];
      }
    }

    method EnterScopeNamed(name: string, at: Moment) returns (id: ScopeId)
      requires Valid() && HasRoom()
      modifies this, scopes
      ensures Valid() && id == old(nextScopeId) && Does(Enter(name, at))
      ensures Added(Some(name), old(currentScope), at) && currentScope == Some(id)
    {
      id := PushNewScope(Some(name), currentScope, at);
      currentScope := Some(id);
    }

    method EnterScopeUnnamed(parent: Option<ScopeId>, at: Moment) returns (id: ScopeId)
      requires Valid() && HasRoom()
      modifies this, scopes
      ensures Valid() && id == old(nextScopeId) && Does(EnterUnnamed(parent, at))
      ensures Added(None, if parent.Some? then parent else old(currentScope), at) && currentScope == Some(id)
    {
      id := PushNewScope(None, Or(parent, currentScope), at);
      currentScope := Some(id);
    }

    method RecordNoWriteInScope(kind: EventKind, name: string, fields: map<string, Value>, scopeId: Option<ScopeId>, at: Moment)
      returns (id: RecordId, record: Record, scope: Option<Scope>)
      requires Valid() && HasRoom()
      modifies this`nextRecordId, this`emitted, records
      ensures Valid() && id == old(nextRecordId) && Does(RecordQuietly(kind, name, fields, scopeId, at))
      ensures emitted == old(emitted) + [EmitRecord(record, scope)]
      ensures record == Record(id, scopeId, at.nanos, Event(kind, name, fields))
      ensures records.entries == old(records.entries) + [record]
      ensures scope == if scopeId.Some? then LookupScope(scopes.Contents(), scopeId.value) else None
    {
      id := nextRecordId;
      nextRecordId := Successor(nextRecordId);
      record := Record(id, scopeId, at.nanos, Event(kind, name, fields));
      scope := None;
      if scopeId.Some? {
        scope := scopes.Get(scopeId.value);
      }
      records.Push(record);
      emitted := emitted + [EmitRecord(record, scope)];
    }

    method RecordEvent(kind: EventKind, name: string, fields: map<string, Value>, at: Moment) returns (id: RecordId)
      requires Valid() && HasRoom()
      modifies this, records
      ensures Valid() && id == old(nextRecordId) && Does(JournalOp.RecordEvent(kind, name, fields, at))
      ensures var record := Record(id, old(currentScope), at.nanos, Event(kind, name, fields));
        var scope := if record.scope.Some? then LookupScope(scopes.Contents(), record.scope.value) else None;
        && records.entries == old(records.entries) + [record]
        && written == (if hasWriter then old(written) + [EmitRecord(record, scope)] else old(written))
    {
      var record, scope;
      id, record, scope := RecordNoWriteInScope(kind, name, fields, currentScope, at);
      Write(EmitRecord(record, scope));
    }

    method ExitScopeNoWrite(scopeId: ScopeId, outcome: Outcome, at: Moment)
      returns (id: RecordId, payload: Option<(Record, Scope)>)
      requires Valid() && HasRoom()
      modifies this`nextRecordId, this`currentScope, this`emitted, scopes, records
      ensures Valid() && id == old(nextRecordId) && Does(ExitQuietly(scopeId, outcome, at))
      ensures emitted == if payload.Some? then old(emitted) + [EmitRecord(payload.value.0, Some(payload.value.1))] else old(emitted)
      ensures Leaves(old(View()), View(), id, scopeId, outcome, at, payload)
    {
      id, payload := CloseScope(scopeId, outcome, at);
      ExitLeaves(old(View()), scopeId, outcome, at, payload);
    }

    method CloseScope(scopeId: ScopeId, outcome: Outcome, at: Moment)
      returns (id: RecordId, payload: Option<(Record, Scope)>)
      requires Valid() && HasRoom()
      modifies this`nextRecordId, this`currentScope, this`emitted, scopes, records
      ensures Valid() && id == old(nextRecordId) && Does(ExitQuietly(scopeId, outcome, at))
      ensures emitted == if payload.Some? then old(emitted) + [EmitRecord(payload.value.0, Some(payload.value.1))] else old(emitted)
    {
      id := nextRecordId;
      nextRecordId := Successor(nextRecordId);
      payload := None;
      var closed := scopes.FinalizeExit(scopeId, at.millis, at.instant);
      if closed.Some? {
        var (scope, elapsed) := closed.value;
        var record := Record(id, Some(scopeId), at.nanos, ScopeExit(outcome, DurationNanos(elapsed)));
        KeepExit(scopeId, record, scope);
        payload := Some((record, scope));
      }
    }

    /** Retain the exit record of a scope that has just been closed; leaving the current scope returns to its parent. */
    method KeepExit(scopeId: ScopeId, record: Record, scope: Scope)
      requires records.Valid() && |records.entries| < USIZE_MAX
      modifies this`currentScope, this`emitted, records
      ensures records.Valid() && records.entries == old(records.entries) + [record]
      ensures currentScope == if old(currentScope) == Some(scopeId) then scope.parent else old(currentScope)
      ensures emitted == old(emitted) + [EmitRecord(record, Some(scope))]
    {
      records.Push(record);
      if Some(scopeId) == currentScope {
        currentScope := scope.parent;
      }
      emitted := emitted + [EmitRecord(record, Some(scope))];
    }

    method ExitScope(scopeId: ScopeId, outcome: Outcome, at: Moment) returns (id: RecordId, ghost payload: Option<(Record, Scope)>)
      requires Valid() && HasRoom()
      modifies this, scopes, records
      ensures Valid() && id == old(nextRecordId) && Does(Exit(scopeId, outcome, at))
      ensures Leaves(old(View()), View(), id, scopeId, outcome, at, payload)
      ensures written == (if hasWriter && payload.Some? then old(written) + [EmitRecord(payload.value.0, Some(payload.value.1))] else old(written))
    {
      var entry;
      id, entry := ExitScopeNoWrite(scopeId, outcome, at);
      if entry.Some? {
        Write(EmitRecord(entry.value.0, Some(entry.value.1)));
      }
      payload := entry;
    }

    method TrimRecords(max: nat)
      requires Valid()
      modifies this`dropped, records
      ensures Valid() && Does(JournalOp.TrimRecordsTo(max))
    {
      dropped := dropped + SaturatingSub(|records.entries|, max);
      records.Trim(max);
    }

    method Clear()
      requires Valid()
      modifies this, scopes, records
      ensures Valid() && Does(JournalOp.Clear)
      ensures scopes.Contents() == [] && records.entries == [] && currentScope == None
      ensures nextScopeId == old(nextScopeId) && nextRecordId == old(nextRecordId)
    {
      dropped := dropped + |records.entries|;
      records.Clear();
      scopes.Clear();
      cleared := nextScopeId;
      currentScope := None;
    }

    method PerformEntry(op: JournalOp)
      requires Valid() && HasRoom() && (op.Enter? || op.EnterWithParent? || op.EnterUnnamed?)
      modifies this, scopes, records
      ensures Valid() && Does(op)
    {
      match op {
        case Enter(name, at) => var _ := EnterScopeNamed(name, at);
        case EnterWithParent(name, parent, at) => var _ := PushNewScope(Some(name), parent, at);
        case EnterUnnamed(parent, at) => var _ := EnterScopeUnnamed(parent, at);
      }
    }

    method PerformRecord(op: JournalOp)
      requires Valid() && HasRoom() && (op.RecordEvent? || op.RecordQuietly? || op.Exit? || op.ExitQuietly?)
      modifies this, scopes, records
      ensures Valid() && Does(op)
    {
      match op {
        case RecordEvent(kind, name, fields, at) => var _ := RecordEvent(kind, name, fields, at);
        case RecordQuietly(kind, name, fields, scope, at) => var _, _, _ := RecordNoWriteInScope(kind, name, fields, scope, at);
        case Exit(id, outcome, at) => var _, _ := ExitScope(id, outcome, at);
        case ExitQuietly(id, outcome, at) => var _, _ := ExitScopeNoWrite(id, outcome, at);
      }
    }

    method Perform(op: JournalOp)
      requires Valid() && HasRoom()
      modifies this, scopes, records
      ensures Valid() && Does(op)
    {
      if op.Enter? || op.EnterWithParent? || op.EnterUnnamed? {
        PerformEntry(op);
      } else if op.RecordEvent? || op.RecordQuietly? || op.Exit? || op.ExitQuietly? {
        PerformRecord(op);
      } else {
        PerformOther(op);
      }
    }

    method PerformOther(op: JournalOp)
      requires Valid() && HasRoom()
      requires op.SetExitMessages? || op.TrimRecordsTo? || op.TrimScopesTo? || op.Clear? || op.AttachWriter?
      modifies this, scopes, records
      ensures Valid() && Does(op)
    {
      match op {
        case SetExitMessages(id, messages) => var _ := scopes.SetScopeExitMessages(id, messages);
        case TrimRecordsTo(max) => TrimRecords(max);
        case TrimScopesTo(max) => ghost var _ := scopes.Trim(max);
        case Clear => Clear();
        case AttachWriter => SetWriter();
      }
    }

    /** Any sequence of calls leaves the journal and its writer exactly as the plain vectors say. */
    method Run(ops: seq<JournalOp>)
      requires Valid() && View() == NEW_JOURNAL && Sink() == Output(false, []) && |ops| < USIZE_MAX
      modifies this, scopes, records
      ensures Valid() && View() == RunOps(ops) && Sink() == OutputOf(ops)
    {
      var i := 0;
      while i < |ops|
        invariant i <= |ops| && Valid() && View() == RunOps(ops[..i]) && Sink() == OutputOf(ops[..i])
        invariant |scopes.Contents()| <= i && |records.entries| <= i
      {
        assert ops[..i + 1][..i] == ops[..i];
        StepGrowth(View(), ops[i]);
        Perform(ops[i]);
        i := i + 1;
      }
      assert ops[..i] == ops;
    }
  }

  /**
   The scope, if it is retained and open, is closed and its exit recorded; leaving the current scope returns to its
   parent, leaving any other one does not.
   */
  ghost predicate Leaves(j: JournalState, j': JournalState, id: RecordId, scopeId: ScopeId, outcome: Outcome, at: Moment,
                         payload: Option<(Record, Scope)>) {
    var s, t, i := j.scopes, j'.scopes, FindScope(j.scopes, scopeId);
    && (payload.Some? <==> i.Some? && !s[i.value].Closed())
    && (payload.None? ==> t == s && j'.records == j.records && j'.current == j.current)
    && (payload.Some? ==>
          && SameBut(s, t, i.value) && j'.records == j.records + [payload.value.0]
          && payload.value.1 == t[i.value].scope
          && j'.current == (if j.current == Some(scopeId) then s[i.value].scope.parent else j.current)
          && exists elapsed: nat ::
               && ClosedBy(s[i.value], t[i.value], at.millis, at.instant, elapsed)
               && payload.value.0 == Record(id, Some(scopeId), at.nanos, ScopeExit(outcome, Min(elapsed, U64_MAX))))
  }

  lemma ExitLeaves(j: JournalState, scopeId: ScopeId, outcome: Outcome, at: Moment, payload: Option<(Record, Scope)>)
    requires var j' := ExitScope(j, scopeId, outcome, at);
      j'.emitted == if payload.Some? then j.emitted + [EmitRecord(payload.value.0, Some(payload.value.1))] else j.emitted
    ensures Leaves(j, ExitScope(j, scopeId, outcome, at), j.nextRecord, scopeId, outcome, at, payload)
  {
    var j', i := ExitScope(j, scopeId, outcome, at), ExitTarget(j.scopes, scopeId);
    assert |j'.emitted| == |j.emitted| + (if payload.Some? then 1 else 0);
    if i.Some? {
      var b := j.scopes[i.value];
      CloseEntryMeans(b, at.millis, at.instant);
      assert j'.emitted[|j.emitted|] == EmitRecord(payload.value.0, Some(payload.value.1));
    }
  }

  lemma StepGrowth(j: JournalState, op: JournalOp)
    ensures |Step(j, op).scopes| <= |j.scopes| + 1 && |Step(j, op).records| <= |j.records| + 1
  {
    if op.TrimScopesTo? {
      TrimLeavesAtMost(j.scopes, op.max);
    }
  }

  // ---------- the guard ----------

  /** What a program can do with a guard before it goes out of scope. */
  datatype GuardCall = ExitWith(outcome: Outcome, at: Moment) | ExitResult(ok: bool, at: Moment)

  function CallOutcome(call: GuardCall): Outcome {
    match call
    case ExitWith(outcome, _) => outcome
    case ExitResult(ok, _) => if ok then Success else Failure
  }

  /** Dropping a guard that was not used exits its scope too, as a failure while unwinding. */
  function GuardExit(id: ScopeId, calls: seq<GuardCall>, panicking: bool, dropAt: Moment): JournalOp {
    if calls != [] then Exit(id, CallOutcome(calls[0]), calls[0].at)
    else Exit(id, if panicking then Failure else Success, dropAt)
  }

  /** The first use of a guard decides; an unused one succeeds, or fails while unwinding. */
  function FirstOutcome(calls: seq<GuardCall>, panicking: bool): Outcome {
    if calls == [] then (if panicking then Failure else Success)
    else if calls[0].ExitWith? then calls[0].outcome
    else if calls[0].ok then Success
    else Failure
  }

  class ScopeGuard {
    const journal: Journal
    const scopeId: ScopeId
    var exited: bool

    constructor (journal: Journal, scopeId: ScopeId)
      ensures this.journal == journal && this.scopeId == scopeId && !exited
    {
      this.journal, this.scopeId, exited := journal, scopeId, false;
    }

    method Exit(outcome: Outcome, at: Moment)
      requires journal.Valid() && (exited || journal.HasRoom())
      modifies this, journal, journal.scopes, journal.records
      ensures journal.Valid() && exited
      ensures !old(exited) ==> journal.Does(JournalOp.Exit(scopeId, outcome, at))
      ensures old(exited) ==> journal.View() == old(journal.View()) && journal.Sink() == old(journal.Sink())
    {
      if !exited {
        var _, _ := journal.ExitScope(scopeId, outcome, at);
        exited := true;
      }
    }

    /** However often a guard is used before it is dropped, its scope is exited once, by the first use. */
    method Live(calls: seq<GuardCall>, panicking: bool, dropAt: Moment)
      requires journal.Valid() && journal.HasRoom() && !exited
      modifies this, journal, journal.scopes, journal.records
      ensures journal.Valid() && exited
      ensures journal.Does(GuardExit(scopeId, calls, panicking, dropAt))
    {
      var i := 0;
      while i < |calls|
        invariant i <= |calls| && journal.Valid() && (exited <==> i > 0)
        invariant i == 0 ==> journal.HasRoom() && journal.View() == old(journal.View()) && journal.Sink() == old(journal.Sink())
        invariant i > 0 ==> journal.Does(GuardExit(scopeId, calls, panicking, dropAt))
      {
        Exit(CallOutcome(calls[i]), calls[i].at);
        i := i + 1;
      }
      if !exited {
        Exit(if panicking then Failure else Success, dropAt);
      }
    }
  }

  lemma NewestIsTarget(s: seq<BufferedScope>, b: BufferedScope)
    requires FindScope(s, b.scope.id) == None && !b.Closed()
    ensures ExitTarget(s + [b], b.scope.id) == Some(|s|)
  {
    assert (s + [b])[|s|] == b;
    assert forall k :: 0 <= k < |s| ==> (s + [b])[k] == s[k];
  }

  /** A guarded scope is entered once and exited once, and both end up in the emitted stream. */
  lemma GuardedScope(j: JournalState, name: string, at: Moment, calls: seq<GuardCall>, panicking: bool, dropAt: Moment)
    requires JournalInv(j) && j.nextScope < U64_MAX && j.nextRecord < U64_MAX
    ensures var id, entered := j.nextScope, Step(j, Enter(name, at));
      var left := Step(entered, GuardExit(id, calls, panicking, dropAt));
      && |left.emitted| == |j.emitted| + 2 && left.emitted[..|j.emitted|] == j.emitted
      && left.emitted[|j.emitted|].EmitScope? && left.emitted[|j.emitted|].scope.id == id
      && ExitsScope(left.emitted[|j.emitted| + 1], id)
      && left.emitted[|j.emitted| + 1].record.kind.outcome == FirstOutcome(calls, panicking)
      && left.current == j.current
  {
    var b := NewScope(j, Some(name), j.current, at);
    var entered, exit := Step(j, Enter(name, at)), GuardExit(b.scope.id, calls, panicking, dropAt);
    EnterKeeps(j, Some(name), j.current, at);
    PushIncreasing(j.emitted, j.scopes, b);
    NewestIsTarget(j.scopes, b);
    assert Step(entered, exit) == ExitAt(entered, |j.scopes|, b.scope.id, exit.outcome, exit.at);
  }
}
