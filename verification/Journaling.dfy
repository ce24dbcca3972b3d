/** What each journal operation does, on plain vectors, the entries it hands out, and those its writer receives. */
module Journaling {
  import opened Core
  import opened Retention

  /** Readings of the wall clock (milliseconds and nanoseconds) and of the monotonic clock. */
  datatype Moment = Moment(millis: U64, nanos: U64, instant: nat)

  /** One entry handed out, as a call of a writer: scope metadata on entry, records with their scope's snapshot. */
  datatype Emission = EmitScope(scope: Scope) | EmitRecord(record: Record, snapshot: Option<Scope>)

  datatype JournalState = JournalState(
    scopes: seq<BufferedScope>,
    records: seq<Record>,
    nextScope: U64,
    nextRecord: U64,
    current: Option<ScopeId>,
    // The past: identifiers below `cleared` belong to cleared scopes, `dropped` records are gone, and `emitted` are all
    // entries handed out so far, whether or not a writer received them.
    cleared: U64,
    dropped: nat,
    emitted: seq<Emission>)

  const NEW_JOURNAL := JournalState([], [], 0, 0, None, 0, 0, [])

  datatype JournalOp =
    | Enter(name: string, at: Moment)
    | EnterWithParent(name: string, parent: Option<ScopeId>, at: Moment)
    | EnterUnnamed(parent: Option<ScopeId>, at: Moment)
    | RecordEvent(kind: EventKind, name: string, fields: map<string, Value>, at: Moment)
    | RecordQuietly(kind: EventKind, name: string, fields: map<string, Value>, scope: Option<ScopeId>, at: Moment)
    | Exit(id: ScopeId, outcome: Outcome, at: Moment)
    | ExitQuietly(id: ScopeId, outcome: Outcome, at: Moment)
    | SetExitMessages(id: ScopeId, messages: ExitMessages)
    | TrimRecordsTo(max: nat)
    | TrimScopesTo(max: nat)
    | Clear
    | AttachWriter

  function NewScope(j: JournalState, name: Option<string>, parent: Option<ScopeId>, at: Moment): BufferedScope {
    BufferedScope(Scope(j.nextScope, parent, at.millis, name, None, NO_MESSAGES), Some(ScopeClock(at.instant, None)))
  }

  /** The writer is given the retained metadata of the new identifier. */
  function EnterScope(j: JournalState, name: Option<string>, parent: Option<ScopeId>, at: Moment): JournalState {
    var scopes := j.scopes + [NewScope(j, name, parent, at)];
    NewScopeFound(j, name, parent, at);
    j.(scopes := scopes, nextScope := Successor(j.nextScope),
       emitted := j.emitted + [EmitScope(LookupScope(scopes, j.nextScope).value)])
  }

  lemma NewScopeFound(j: JournalState, name: Option<string>, parent: Option<ScopeId>, at: Moment)
    ensures LookupScope(j.scopes + [NewScope(j, name, parent, at)], j.nextScope).Some?
    ensures FindScope(j.scopes, j.nextScope) == None ==>
      LookupScope(j.scopes + [NewScope(j, name, parent, at)], j.nextScope).value == NewScope(j, name, parent, at).scope
  {
    var s := j.scopes + [NewScope(j, name, parent, at)];
    assert s[|j.scopes|] == NewScope(j, name, parent, at);
    assert forall k :: 0 <= k < |j.scopes| ==> s[k] == j.scopes[k];
  }

  /** The retained metadata of the scope a record belongs to. */
  function LookupFor(j: JournalState, scope: Option<ScopeId>): Option<Scope> {
    if scope.None? then None else LookupScope(j.scopes, scope.value)
  }

  /** One more record entry, for what is retained afterwards. */
  function Emit(j: JournalState, record: Record, snapshot: Option<Scope>, scopes: seq<BufferedScope>, current: Option<ScopeId>): JournalState {
    j.(scopes := scopes, records := j.records + [record], nextRecord := Successor(j.nextRecord), current := current,
       emitted := j.emitted + [EmitRecord(record, snapshot)])
  }

  function RecordIn(j: JournalState, kind: EventKind, name: string, fields: map<string, Value>, scope: Option<ScopeId>, at: Moment): JournalState {
    Emit(j, Record(j.nextRecord, scope, at.nanos, Event(kind, name, fields)), LookupFor(j, scope), j.scopes, j.current)
  }

  function DurationNanos(elapsed: nat): U64 {
    if elapsed > U64_MAX then U64_MAX else elapsed
  }

  function ExitRecord(j: JournalState, id: ScopeId, outcome: Outcome, elapsed: nat, at: Moment): Record {
    Record(j.nextRecord, Some(id), at.nanos, ScopeExit(outcome, DurationNanos(elapsed)))
  }

  /** Closing the open scope at position `i`. */
  function ExitAt(j: JournalState, i: nat, id: ScopeId, outcome: Outcome, at: Moment): JournalState
    requires i < |j.scopes|
  {
    var closed := CloseEntry(j.scopes[i], at.millis, at.instant);
    Emit(j, ExitRecord(j, id, outcome, ExitDuration(j.scopes[i], at.millis, at.instant), at), Some(closed.scope),
         j.scopes[i := closed], if j.current == Some(id) then closed.scope.parent else j.current)
  }

  /** A record identifier is used up even when there is nothing to exit. */
  function ExitScope(j: JournalState, id: ScopeId, outcome: Outcome, at: Moment): JournalState {
    var i := ExitTarget(j.scopes, id);
    if i.None? then j.(nextRecord := Successor(j.nextRecord)) else ExitAt(j, i.value, id, outcome, at)
  }

  function Step(j: JournalState, op: JournalOp): JournalState {
    match op
    case Enter(name, at) => EnterScope(j, Some(name), j.current, at).(current := Some(j.nextScope))
    case EnterWithParent(name, parent, at) => EnterScope(j, Some(name), parent, at)
    case EnterUnnamed(parent, at) => EnterScope(j, None, Or(parent, j.current), at).(current := Some(j.nextScope))
    case RecordEvent(kind, name, fields, at) => RecordIn(j, kind, name, fields, j.current, at)
    case RecordQuietly(kind, name, fields, scope, at) => RecordIn(j, kind, name, fields, scope, at)
    case Exit(id, outcome, at) => ExitScope(j, id, outcome, at)
    case ExitQuietly(id, outcome, at) => ExitScope(j, id, outcome, at)
    case SetExitMessages(id, messages) => j.(scopes := SetMessages(j.scopes, id, messages))
    case TrimRecordsTo(max) =>
      j.(records := TrimRecords(j.records, max), dropped := j.dropped + SaturatingSub(|j.records|, max))
    case TrimScopesTo(max) => j.(scopes := TrimScopes(j.scopes, max))
    case Clear => j.(scopes := [], records := [], current := None, cleared := j.nextScope, dropped := j.dropped + |j.records|)
    case AttachWriter => j
  }

  function RunOps(ops: seq<JournalOp>): JournalState {
    if ops == [] then NEW_JOURNAL else Step(RunOps(ops[..|ops| - 1]), ops[|ops| - 1])
  }

  // ---------- what the writer receives ----------

  /** Whether a writer is attached, and the calls it has received. */
  datatype Output = Output(attached: bool, written: seq<Emission>)

  function ScopesOf(s: seq<BufferedScope>): (r: seq<Scope>)
    ensures |r| == |s|
  {
    seq(|s|, i requires 0 <= i < |s| => s[i].scope)
  }

  function ScopeCalls(scopes: seq<Scope>): seq<Emission> {
    seq(|scopes|, i requires 0 <= i < |scopes| => EmitScope(scopes[i]))
  }

  predicate Quiet(op: JournalOp) {
    op.RecordQuietly? || op.ExitQuietly?
  }

  /** A new writer starts from the retained scopes; later it receives every entry except those of the quiet operations. */
  function Deliver(o: Output, j: JournalState, op: JournalOp): Output {
    if op.AttachWriter? then Output(true, ScopeCalls(ScopesOf(j.scopes)))
    else if !o.attached || Quiet(op) || |Step(j, op).emitted| < |j.emitted| then o
    else o.(written := o.written + Step(j, op).emitted[|j.emitted|..])
  }

  function OutputOf(ops: seq<JournalOp>): Output {
    if ops == [] then Output(false, [])
    else
      var init := ops[..|ops| - 1];
      Deliver(OutputOf(init), RunOps(init), ops[|ops| - 1])
  }

  // ---------- the emitted stream ----------

  /** Scopes in the order they were entered. */
  function Entered(es: seq<Emission>): seq<Scope> {
    if es == [] then []
    else
      var e := es[|es| - 1];
      Entered(es[..|es| - 1]) + (if e.EmitScope? then [e.scope] else [])
  }

  function Recorded(es: seq<Emission>): seq<Record> {
    if es == [] then []
    else
      var e := es[|es| - 1];
      Recorded(es[..|es| - 1]) + (if e.EmitRecord? then [e.record] else [])
  }

  /** A bound above every record identifier of the stream. */
  function RecordBound(es: seq<Emission>): nat {
    if es == [] then 0
    else
      var e, before := es[|es| - 1], RecordBound(es[..|es| - 1]);
      if e.EmitRecord? && e.record.id >= before then e.record.id + 1 else before
  }

  predicate ExitsScope(e: Emission, id: ScopeId) {
    e.EmitRecord? && e.record.kind.ScopeExit? && e.record.scope == Some(id)
  }

  /** The exit time that the exit entry of a scope carries. */
  function ExitTime(es: seq<Emission>, id: ScopeId): Option<U64> {
    if es == [] then None
    else
      var e, earlier := es[|es| - 1], ExitTime(es[..|es| - 1], id);
      if earlier.Some? then earlier
      else if ExitsScope(e, id) && e.snapshot.Some? then e.snapshot.value.exitedAt
      else None
  }

  /** One more entry continues a coherent stream. */
  ghost predicate Continues(es: seq<Emission>, e: Emission) {
    match e
    case EmitScope(s) => s.id == |Entered(es)| && s.exitedAt.None?
    case EmitRecord(r, snapshot) =>
      && r.id >= RecordBound(es)
      && (snapshot.Some? ==>
            && r.scope == Some(snapshot.value.id) && snapshot.value.id < |Entered(es)|
            && SameIdentity(snapshot.value, Entered(es)[snapshot.value.id]))
      && (match r.kind
          case Event(_, _, _) => snapshot.Some? ==> snapshot.value.exitedAt == ExitTime(es, snapshot.value.id)
          case ScopeExit(_, _) => snapshot.Some? && snapshot.value.exitedAt.Some? && ExitTime(es, snapshot.value.id).None?)
  }

  /**
   Scopes are numbered in order of entry, record identifiers increase, every snapshot shows the identity its scope
   was entered with and is closed exactly after the scope's only exit.
   */
  ghost predicate Coherent(es: seq<Emission>) {
    es != [] ==> Coherent(es[..|es| - 1]) && Continues(es[..|es| - 1], es[|es| - 1])
  }

  /** Scopes are only referred to once entered: parents before their children, a record's scope before the record. */
  ghost predicate OwnReferences(es: seq<Emission>) {
    es != [] ==>
      var init, e := es[..|es| - 1], es[|es| - 1];
      && OwnReferences(init)
      && (match e
          case EmitScope(s) => s.parent.Some? ==> s.parent.value < |Entered(init)|
          case EmitRecord(r, _) => r.scope.Some? ==> r.scope.value < |Entered(init)|)
  }

  lemma {:induction false} CoherentPrefix(es: seq<Emission>, k: nat)
    requires Coherent(es) && k <= |es|
    ensures Coherent(es[..k]) && (OwnReferences(es) ==> OwnReferences(es[..k]))
  {
    if k < |es| {
      assert es[..|es| - 1][..k] == es[..k];
      CoherentPrefix(es[..|es| - 1], k);
    } else {
      assert es[..k] == es;
    }
  }

  lemma SplitStream(es: seq<Emission>) returns (init: seq<Emission>, e: Emission)
    requires es != []
    ensures es == init + [e] && |init| < |es|
  {
    init, e := es[..|es| - 1], es[|es| - 1];
  }

  lemma Snoc(es: seq<Emission>, e: Emission)
    ensures Entered(es + [e]) == Entered(es) + (if e.EmitScope? then [e.scope] else [])
    ensures Recorded(es + [e]) == Recorded(es) + (if e.EmitRecord? then [e.record] else [])
    ensures Coherent(es + [e]) <==> Coherent(es) && Continues(es, e)
    ensures RecordBound(es + [e]) == if e.EmitRecord? && e.record.id >= RecordBound(es) then e.record.id + 1 else RecordBound(es)
  {
    assert (es + [e])[..|es|] == es;
  }

  lemma ExitTimeSnoc(es: seq<Emission>, e: Emission, id: ScopeId)
    ensures ExitTime(es + [e], id) ==
      if ExitTime(es, id).Some? then ExitTime(es, id)
      else if ExitsScope(e, id) && e.snapshot.Some? then e.snapshot.value.exitedAt else None
  {
    assert (es + [e])[..|es|] == es;
  }

  /** In a coherent stream exit times are about entered scopes, and stand for exit entries. */
  lemma {:induction false} ExitTimeMeans(es: seq<Emission>, id: ScopeId)
    requires Coherent(es)
    ensures ExitTime(es, id).Some? ==> id < |Entered(es)|
    ensures ExitTime(es, id).Some? <==> exists i :: 0 <= i < |es| && ExitsScope(es[i], id)
  {
    if es != [] {
      var n := |es| - 1;
      ExitTimeMeans(es[..n], id);
      if ExitTime(es[..n], id).Some? {
        var i :| 0 <= i < n && ExitsScope(es[..n][i], id);
        assert ExitsScope(es[i], id);
      } else {
        forall k | 0 <= k < n
          ensures !ExitsScope(es[k], id)
        {
          assert es[..n][k] == es[k];
        }
      }
    }
  }

  /** No scope is ever exited twice. */
  lemma {:induction false} ExitAtMostOnce(es: seq<Emission>, id: ScopeId, i: nat, k: nat)
    requires Coherent(es) && i < |es| && k < |es|
    requires ExitsScope(es[i], id) && ExitsScope(es[k], id)
    ensures i == k
  {
    var n := |es| - 1;
    if i < n && k < n {
      assert es[..n][i] == es[i] && es[..n][k] == es[k];
      ExitAtMostOnce(es[..n], id, i, k);
    } else if i != k {
      var earlier := if i < n then i else k;
      assert ExitsScope(es[..n][earlier], id);
      ExitTimeMeans(es[..n], id);
    }
  }

  // ---------- the journal invariant ----------

  ghost predicate IncreasingScopes(s: seq<BufferedScope>) {
    forall i, k :: 0 <= i < k < |s| ==> s[i].scope.id < s[k].scope.id
  }

  /** A retained scope is what was entered, closed exactly when its exit has been written. */
  ghost predicate Faithful(es: seq<Emission>, s: Scope) {
    s.id < |Entered(es)| && SameIdentity(s, Entered(es)[s.id]) && s.exitedAt == ExitTime(es, s.id)
  }

  ghost predicate AllFaithful(es: seq<Emission>, s: seq<BufferedScope>) {
    forall i :: 0 <= i < |s| ==> Faithful(es, s[i].scope)
  }

  /** Scopes entered since the last clear stay retained at least until their exit is written. */
  ghost predicate RetainsOpen(es: seq<Emission>, cleared: nat, s: seq<BufferedScope>) {
    forall id: ScopeId {:trigger ExitTime(es, id)} {:trigger FindScope(s, id)} ::
      cleared <= id < |Entered(es)| && ExitTime(es, id).None? ==> FindScope(s, id).Some?
  }

  ghost predicate JournalInv(j: JournalState) {
    && Coherent(j.emitted)
    && j.nextScope == |Entered(j.emitted)|
    && RecordBound(j.emitted) <= j.nextRecord
    && IncreasingScopes(j.scopes)
    && AllFaithful(j.emitted, j.scopes)
    && j.dropped <= |Recorded(j.emitted)| && j.records == Recorded(j.emitted)[j.dropped..]
    && RetainsOpen(j.emitted, j.cleared, j.scopes)
  }

  /** Entries that are not exits leave every retained scope faithful. */
  lemma StillFaithful(es: seq<Emission>, e: Emission, s: Scope)
    requires Coherent(es) && Faithful(es, s) && !ExitsScope(e, s.id)
    ensures Faithful(es + [e], s)
  {
    Snoc(es, e);
    ExitTimeSnoc(es, e, s.id);
  }

  lemma PushFaithful(es: seq<Emission>, s: seq<BufferedScope>, b: BufferedScope)
    requires Coherent(es) && AllFaithful(es, s) && b.scope.id == |Entered(es)| && !b.Closed()
    ensures AllFaithful(es + [EmitScope(b.scope)], s + [b])
  {
    var e := EmitScope(b.scope);
    forall i | 0 <= i < |s| + 1
      ensures Faithful(es + [e], (s + [b])[i].scope)
    {
      if i < |s| {
        StillFaithful(es, e, s[i].scope);
      } else {
        Snoc(es, e);
        ExitTimeSnoc(es, e, b.scope.id);
        ExitTimeMeans(es, b.scope.id);
      }
    }
  }

  lemma PushRetainsOpen(es: seq<Emission>, cleared: nat, s: seq<BufferedScope>, b: BufferedScope)
    requires RetainsOpen(es, cleared, s) && b.scope.id == |Entered(es)|
    ensures RetainsOpen(es + [EmitScope(b.scope)], cleared, s + [b])
  {
    var e := EmitScope(b.scope);
    Snoc(es, e);
    forall id: ScopeId | cleared <= id < |Entered(es)| + 1 && ExitTime(es + [e], id).None?
      ensures FindScope(s + [b], id).Some?
    {
      ExitTimeSnoc(es, e, id);
      FindInLonger(s, b, id);
    }
  }

  lemma PushIncreasing(es: seq<Emission>, s: seq<BufferedScope>, b: BufferedScope)
    requires IncreasingScopes(s) && AllFaithful(es, s) && b.scope.id == |Entered(es)|
    ensures IncreasingScopes(s + [b]) && FindScope(s, b.scope.id) == None
  {
  }

  lemma EnterKeeps(j: JournalState, name: Option<string>, parent: Option<ScopeId>, at: Moment)
    requires JournalInv(j) && j.nextScope < U64_MAX
    ensures var j' := EnterScope(j, name, parent, at);
      && JournalInv(j') && j'.nextScope == j.nextScope + 1
      && j'.emitted == j.emitted + [EmitScope(NewScope(j, name, parent, at).scope)]
  {
    var b := NewScope(j, name, parent, at);
    PushIncreasing(j.emitted, j.scopes, b);
    NewScopeFound(j, name, parent, at);
    PushFaithful(j.emitted, j.scopes, b);
    PushRetainsOpen(j.emitted, j.cleared, j.scopes, b);
    Snoc(j.emitted, EmitScope(b.scope));
  }

  lemma FindInLonger(s: seq<BufferedScope>, b: BufferedScope, id: ScopeId)
    requires FindScope(s, id).Some? || b.scope.id == id
    ensures FindScope(s + [b], id).Some?
  {
    assert (s + [b])[|s|] == b;
    if FindScope(s, id).Some? {
      assert (s + [b])[FindScope(s, id).value].scope.id == id;
    }
  }

  lemma EventRetainsOpen(es: seq<Emission>, cleared: nat, s: seq<BufferedScope>, e: Emission)
    requires RetainsOpen(es, cleared, s) && e.EmitRecord?
    ensures RetainsOpen(es + [e], cleared, s)
  {
    Snoc(es, e);
    forall id: ScopeId | cleared <= id < |Entered(es)| && ExitTime(es + [e], id).None?
      ensures FindScope(s, id).Some?
    {
      ExitTimeSnoc(es, e, id);
    }
  }

  /** One more record entry; `scopes` is what is retained afterwards. */
  lemma EmitKeeps(j: JournalState, r: Record, snapshot: Option<Scope>, scopes: seq<BufferedScope>, current: Option<ScopeId>)
    requires JournalInv(j) && j.nextRecord < U64_MAX && r.id == j.nextRecord
    requires Continues(j.emitted, EmitRecord(r, snapshot))
    requires IncreasingScopes(scopes) && AllFaithful(j.emitted + [EmitRecord(r, snapshot)], scopes)
    requires RetainsOpen(j.emitted, j.cleared, scopes)
    ensures JournalInv(Emit(j, r, snapshot, scopes, current))
  {
    var e := EmitRecord(r, snapshot);
    Snoc(j.emitted, e);
    assert Recorded(j.emitted + [e])[j.dropped..] == j.records + [r];
    EventRetainsOpen(j.emitted, j.cleared, scopes, e);
  }

  lemma EventFaithful(es: seq<Emission>, s: seq<BufferedScope>, e: Emission)
    requires Coherent(es) && AllFaithful(es, s) && e.EmitRecord? && e.record.kind.Event?
    ensures AllFaithful(es + [e], s)
  {
    forall i | 0 <= i < |s|
      ensures Faithful(es + [e], s[i].scope)
    {
      StillFaithful(es, e, s[i].scope);
    }
  }

  lemma EventKeeps(j: JournalState, kind: EventKind, name: string, fields: map<string, Value>, scope: Option<ScopeId>, at: Moment)
    requires JournalInv(j) && j.nextRecord < U64_MAX
    ensures JournalInv(RecordIn(j, kind, name, fields, scope, at))
  {
    var r, snapshot := Record(j.nextRecord, scope, at.nanos, Event(kind, name, fields)), LookupFor(j, scope);
    if snapshot.Some? {
      assert Faithful(j.emitted, j.scopes[FindScope(j.scopes, scope.value).value].scope);
    }
    EventFaithful(j.emitted, j.scopes, EmitRecord(r, snapshot));
    EmitKeeps(j, r, snapshot, j.scopes, j.current);
  }

  /** Replacing an entry by one with the same identifier. */
  lemma UpdateRetainsOpen(es: seq<Emission>, cleared: nat, s: seq<BufferedScope>, i: nat, b: BufferedScope)
    requires RetainsOpen(es, cleared, s) && i < |s| && b.scope.id == s[i].scope.id
    ensures RetainsOpen(es, cleared, s[i := b])
  {
    forall id: ScopeId | cleared <= id < |Entered(es)| && ExitTime(es, id).None?
      ensures FindScope(s[i := b], id).Some?
    {
      assert s[i := b][FindScope(s, id).value].scope.id == id;
    }
  }

  /** The exited scope is faithful to the longer stream, and so are all others. */
  lemma ExitFaithful(es: seq<Emission>, s: seq<BufferedScope>, i: nat, closed: BufferedScope, e: Emission)
    requires Coherent(es) && AllFaithful(es, s) && IncreasingScopes(s) && i < |s| && !s[i].Closed()
    requires SameIdentity(closed.scope, s[i].scope) && closed.Closed()
    requires ExitsScope(e, closed.scope.id) && e.snapshot == Some(closed.scope)
    ensures AllFaithful(es + [e], s[i := closed])
  {
    var s' := s[i := closed];
    forall k | 0 <= k < |s'|
      ensures Faithful(es + [e], s'[k].scope)
    {
      assert Faithful(es, s[k].scope);
      if k == i {
        Snoc(es, e);
        ExitTimeSnoc(es, e, closed.scope.id);
      } else {
        assert s[k].scope.id != s[i].scope.id;
        StillFaithful(es, e, s[k].scope);
      }
    }
  }

  /** The entry of an exit, and what is then retained, continue the stream. */
  lemma ExitContinues(es: seq<Emission>, s: seq<BufferedScope>, i: nat, closed: BufferedScope, r: Record)
    requires Coherent(es) && AllFaithful(es, s) && IncreasingScopes(s) && i < |s| && !s[i].Closed()
    requires SameIdentity(closed.scope, s[i].scope) && closed.Closed()
    requires r.kind.ScopeExit? && r.scope == Some(closed.scope.id) && r.id >= RecordBound(es)
    ensures Continues(es, EmitRecord(r, Some(closed.scope)))
    ensures IncreasingScopes(s[i := closed]) && AllFaithful(es + [EmitRecord(r, Some(closed.scope))], s[i := closed])
  {
    assert Faithful(es, s[i].scope);
    ExitFaithful(es, s, i, closed, EmitRecord(r, Some(closed.scope)));
  }

  lemma ExitAtKeeps(j: JournalState, i: nat, id: ScopeId, outcome: Outcome, at: Moment)
    requires JournalInv(j) && j.nextRecord < U64_MAX
    requires i < |j.scopes| && j.scopes[i].scope.id == id && !j.scopes[i].Closed()
    ensures JournalInv(ExitAt(j, i, id, outcome, at))
  {
    var b := j.scopes[i];
    var closed := CloseEntry(b, at.millis, at.instant);
    var r := ExitRecord(j, id, outcome, ExitDuration(b, at.millis, at.instant), at);
    ExitContinues(j.emitted, j.scopes, i, closed, r);
    UpdateRetainsOpen(j.emitted, j.cleared, j.scopes, i, closed);
    EmitKeeps(j, r, Some(closed.scope), j.scopes[i := closed], if j.current == Some(id) then closed.scope.parent else j.current);
  }

  lemma SkipKeeps(j: JournalState)
    requires JournalInv(j) && j.nextRecord < U64_MAX
    ensures JournalInv(j.(nextRecord := j.nextRecord + 1))
  {
  }

  lemma ExitKeeps(j: JournalState, id: ScopeId, outcome: Outcome, at: Moment)
    requires JournalInv(j) && j.nextRecord < U64_MAX
    ensures JournalInv(ExitScope(j, id, outcome, at))
  {
    var i := ExitTarget(j.scopes, id);
    if i.Some? {
      ExitAtKeeps(j, i.value, id, outcome, at);
    } else {
      SkipKeeps(j);
    }
  }

  lemma {:induction false} EvictedMembers(s: seq<BufferedScope>, n: nat)
    ensures forall b :: b in EvictOldest(s, n) ==> b in s
    ensures forall b :: b in s && !b.Closed() ==> b in EvictOldest(s, n)
    ensures IncreasingScopes(s) ==> IncreasingScopes(EvictOldest(s, n))
  {
    if s != [] && n > 0 {
      var rest := s[1..];
      EvictedMembers(rest, if s[0].Closed() then n - 1 else n);
      assert IncreasingScopes(s) ==> IncreasingScopes(rest);
      if !s[0].Closed() {
        var kept := EvictOldest(rest, n);
        forall k | IncreasingScopes(s) && 0 <= k < |kept|
          ensures s[0].scope.id < kept[k].scope.id
        {
          assert kept[k] in rest;
        }
      }
    }
  }

  lemma {:induction false} FoundIfPresent(s: seq<BufferedScope>, b: BufferedScope)
    requires b in s
    ensures FindScope(s, b.scope.id).Some?
  {
  }

  /** Trimming never evicts an open scope. */
  lemma TrimRetainsOpen(es: seq<Emission>, cleared: nat, s: seq<BufferedScope>, n: nat)
    requires AllFaithful(es, s) && RetainsOpen(es, cleared, s)
    ensures RetainsOpen(es, cleared, EvictOldest(s, n))
  {
    EvictedMembers(s, n);
    forall id: ScopeId | cleared <= id < |Entered(es)| && ExitTime(es, id).None?
      ensures FindScope(EvictOldest(s, n), id).Some?
    {
      var b := s[FindScope(s, id).value];
      assert Faithful(es, b.scope);
      FoundIfPresent(EvictOldest(s, n), b);
    }
  }

  lemma TrimKeeps(j: JournalState, max: nat)
    requires JournalInv(j)
    ensures JournalInv(Step(j, TrimScopesTo(max)))
  {
    var n := SaturatingSub(ClosedCount(j.scopes), max);
    var scopes := EvictOldest(j.scopes, n);
    EvictedMembers(j.scopes, n);
    TrimRetainsOpen(j.emitted, j.cleared, j.scopes, n);
    forall i | 0 <= i < |scopes|
      ensures Faithful(j.emitted, scopes[i].scope)
    {
      assert scopes[i] in j.scopes;
    }
  }

  lemma MessagesKeep(j: JournalState, id: ScopeId, messages: ExitMessages)
    requires JournalInv(j)
    ensures JournalInv(Step(j, SetExitMessages(id, messages)))
  {
    var i := FindScope(j.scopes, id);
    if i.Some? {
      var b := j.scopes[i.value];
      var updated := b.(scope := b.scope.(exitMessages := OverlayMessages(b.scope.exitMessages, messages)));
      assert Faithful(j.emitted, b.scope);
      UpdateRetainsOpen(j.emitted, j.cleared, j.scopes, i.value, updated);
    }
  }

  lemma TrimRecordsKeeps(j: JournalState, max: nat)
    requires JournalInv(j)
    ensures JournalInv(Step(j, TrimRecordsTo(max)))
  {
    var all := Recorded(j.emitted);
    var n := SaturatingSub(|j.records|, max);
    assert all[j.dropped..][n..] == all[j.dropped + n..];
  }

  lemma ClearKeeps(j: JournalState)
    requires JournalInv(j)
    ensures JournalInv(Step(j, Clear))
  {
  }

  lemma EnteringKeeps(j: JournalState, op: JournalOp)
    requires JournalInv(j) && j.nextScope < U64_MAX && (op.Enter? || op.EnterWithParent? || op.EnterUnnamed?)
    ensures JournalInv(Step(j, op))
  {
    match op
    case Enter(name, at) => EnterKeeps(j, Some(name), j.current, at);
    case EnterWithParent(name, parent, at) => EnterKeeps(j, Some(name), parent, at);
    case EnterUnnamed(parent, at) => EnterKeeps(j, None, Or(parent, j.current), at);
  }

  lemma RecordingKeeps(j: JournalState, op: JournalOp)
    requires JournalInv(j) && j.nextRecord < U64_MAX && (op.RecordEvent? || op.RecordQuietly?)
    ensures JournalInv(Step(j, op))
  {
    EventKeeps(j, op.kind, op.name, op.fields, if op.RecordEvent? then j.current else op.scope, op.at);
  }

  lemma ExitingKeeps(j: JournalState, op: JournalOp)
    requires JournalInv(j) && j.nextRecord < U64_MAX && (op.Exit? || op.ExitQuietly?)
    ensures JournalInv(Step(j, op))
  {
    ExitKeeps(j, op.id, op.outcome, op.at);
  }

  /** Every operation keeps the journal invariant while the identifier counters do not wrap. */
  lemma StepKeeps(j: JournalState, op: JournalOp)
    requires JournalInv(j) && j.nextScope < U64_MAX && j.nextRecord < U64_MAX
    ensures JournalInv(Step(j, op))
  {
    match op
    case SetExitMessages(id, messages) => MessagesKeep(j, id, messages);
    case TrimRecordsTo(max) => TrimRecordsKeeps(j, max);
    case TrimScopesTo(max) => TrimKeeps(j, max);
    case Clear => ClearKeeps(j);
    case AttachWriter =>
    case Enter(_, _) => EnteringKeeps(j, op);
    case EnterWithParent(_, _, _) => EnteringKeeps(j, op);
    case EnterUnnamed(_, _) => EnteringKeeps(j, op);
    case RecordEvent(_, _, _, _) => RecordingKeeps(j, op);
    case RecordQuietly(_, _, _, _, _) => RecordingKeeps(j, op);
    case _ => ExitingKeeps(j, op);
  }

  /** An operation uses up at most one identifier of each kind, and never takes an entry back. */
  lemma StepGrows(j: JournalState, op: JournalOp)
    requires j.nextScope < U64_MAX && j.nextRecord < U64_MAX
    ensures var j' := Step(j, op);
      j'.nextScope <= j.nextScope + 1 && j'.nextRecord <= j.nextRecord + 1 && j.emitted <= j'.emitted
  {
  }

  lemma {:induction false} RunKeeps(ops: seq<JournalOp>)
    requires |ops| <= U64_MAX
    ensures var j := RunOps(ops); JournalInv(j) && j.nextScope <= |ops| && j.nextRecord <= |ops|
  {
    if ops != [] {
      RunKeeps(ops[..|ops| - 1]);
      StepKeeps(RunOps(ops[..|ops| - 1]), ops[|ops| - 1]);
      StepGrows(RunOps(ops[..|ops| - 1]), ops[|ops| - 1]);
    }
  }

  /** A writer attached before anything else, and then neither replaced nor bypassed. */
  predicate Writing(ops: seq<JournalOp>) {
    ops != [] && ops[0].AttachWriter? && forall i :: 1 <= i < |ops| ==> !ops[i].AttachWriter? && !Quiet(ops[i])
  }

  lemma DeliverAll(o: Output, j: JournalState, op: JournalOp)
    requires o == Output(true, j.emitted) && !op.AttachWriter? && !Quiet(op) && j.emitted <= Step(j, op).emitted
    ensures Deliver(o, j, op) == Output(true, Step(j, op).emitted)
  {
    var longer := Step(j, op).emitted;
    assert longer == j.emitted + longer[|j.emitted|..];
  }

  /** Such a writer has received every entry, in order. */
  lemma {:induction false} WrittenIsEmitted(ops: seq<JournalOp>)
    requires Writing(ops) && |ops| <= U64_MAX
    ensures OutputOf(ops) == Output(true, RunOps(ops).emitted)
  {
    if |ops| == 1 {
      WrittenFirst(ops);
    } else {
      var n := |ops| - 1;
      WrittenIsEmitted(ops[..n]);
      RunKeeps(ops[..n]);
      StepGrows(RunOps(ops[..n]), ops[n]);
      DeliverAll(OutputOf(ops[..n]), RunOps(ops[..n]), ops[n]);
    }
  }

  lemma WrittenFirst(ops: seq<JournalOp>)
    requires |ops| == 1 && ops[0].AttachWriter?
    ensures OutputOf(ops) == Output(true, RunOps(ops).emitted)
  {
    assert ops[..0] == [];
  }

  /** Over any run of a journal, whatever is trimmed, cleared or exited again, no scope gets a second exit record. */
  lemma NoSecondExit(ops: seq<JournalOp>, id: ScopeId, i: nat, k: nat)
    requires |ops| <= U64_MAX
    requires var es := RunOps(ops).emitted; i < |es| && k < |es| && ExitsScope(es[i], id) && ExitsScope(es[k], id)
    ensures i == k
  {
    RunKeeps(ops);
    ExitAtMostOnce(RunOps(ops).emitted, id, i, k);
  }

  /**
   After any run, exiting a scope records an exit exactly when the scope was entered, is retained or was never
   cleared, and has not exited before: eviction alone never makes a first exit fail.
   */
  lemma FirstExitSucceeds(ops: seq<JournalOp>, id: ScopeId, outcome: Outcome, at: Moment)
    requires |ops| < U64_MAX
    ensures var j := RunOps(ops); var j' := Step(j, Exit(id, outcome, at));
      if j.cleared <= id < j.nextScope && (forall i :: 0 <= i < |j.emitted| ==> !ExitsScope(j.emitted[i], id))
      then
        && |j'.emitted| == |j.emitted| + 1 && ExitsScope(j'.emitted[|j.emitted|], id)
        && var e := j'.emitted[|j.emitted|];
          && e.record.id == j.nextRecord && e.record.timeNs == at.nanos && e.record.kind.outcome == outcome
          && e.snapshot.Some? && e.snapshot.value.exitedAt == Some(at.millis)
      else j'.emitted == j.emitted
  {
    RunKeeps(ops);
    ClearedGone(ops);
    ExitTargetMeans(RunOps(ops), id);
    ExitTimeMeans(RunOps(ops).emitted, id);
  }

  /** There is something to exit exactly if the scope was entered after the last clear and has not exited. */
  lemma ExitTargetMeans(j: JournalState, id: ScopeId)
    requires JournalInv(j) && SinceClear(j)
    ensures ExitTarget(j.scopes, id).Some? <==> j.cleared <= id < j.nextScope && ExitTime(j.emitted, id).None?
  {
    var i := FindScope(j.scopes, id);
    if i.Some? {
      assert Faithful(j.emitted, j.scopes[i.value].scope);
    }
    ExitTimeMeans(j.emitted, id);
  }

  /** What is retained was entered after the last clear. */
  ghost predicate SinceClear(j: JournalState) {
    j.cleared <= j.nextScope && forall i :: 0 <= i < |j.scopes| ==> j.cleared <= j.scopes[i].scope.id
  }

  lemma StepSinceClear(j: JournalState, op: JournalOp)
    requires SinceClear(j) && j.nextScope < U64_MAX
    ensures SinceClear(Step(j, op))
  {
    if op.TrimScopesTo? {
      var n := SaturatingSub(ClosedCount(j.scopes), op.max);
      EvictedMembers(j.scopes, n);
      var scopes := EvictOldest(j.scopes, n);
      forall i | 0 <= i < |scopes|
        ensures j.cleared <= scopes[i].scope.id
      {
        assert scopes[i] in j.scopes;
      }
    }
  }

  /** Scopes cleared from the journal never come back. */
  lemma {:induction false} ClearedGone(ops: seq<JournalOp>)
    requires |ops| <= U64_MAX
    ensures SinceClear(RunOps(ops))
  {
    if ops != [] {
      RunKeeps(ops[..|ops| - 1]);
      ClearedGone(ops[..|ops| - 1]);
      StepSinceClear(RunOps(ops[..|ops| - 1]), ops[|ops| - 1]);
    }
  }

  // ---------- references ----------

  /** The caller passes only scopes that this journal has entered. */
  predicate OwnParent(j: JournalState, op: JournalOp) {
    match op
    case EnterWithParent(_, parent, _) => parent.Some? ==> parent.value < j.nextScope
    case EnterUnnamed(parent, _) => parent.Some? ==> parent.value < j.nextScope
    case RecordQuietly(_, _, _, scope, _) => scope.Some? ==> scope.value < j.nextScope
    case _ => true
  }

  predicate OwnParents(ops: seq<JournalOp>) {
    ops != [] ==> OwnParents(ops[..|ops| - 1]) && OwnParent(RunOps(ops[..|ops| - 1]), ops[|ops| - 1])
  }

  lemma {:induction false} OwnParentOf(es: seq<Emission>, i: nat)
    requires Coherent(es) && OwnReferences(es) && i < |Entered(es)|
    ensures Entered(es)[i].id == i && (Entered(es)[i].parent.Some? ==> Entered(es)[i].parent.value < i)
  {
    var n := |es| - 1;
    if i < |Entered(es[..n])| {
      OwnParentOf(es[..n], i);
    }
  }

  /** Everything handed out, and the current scope, refer to entered scopes. */
  ghost predicate Own(j: JournalState) {
    OwnReferences(j.emitted) && (j.current.Some? ==> j.current.value < j.nextScope)
  }

  lemma {:induction false} OwnRun(ops: seq<JournalOp>)
    requires |ops| <= U64_MAX && OwnParents(ops)
    ensures Own(RunOps(ops))
  {
    if ops != [] {
      var j, op := RunOps(ops[..|ops| - 1]), ops[|ops| - 1];
      OwnRun(ops[..|ops| - 1]);
      RunKeeps(ops[..|ops| - 1]);
      OwnStep(j, op);
    }
  }

  lemma OwnEnter(j: JournalState, name: Option<string>, parent: Option<ScopeId>, at: Moment)
    requires JournalInv(j) && j.nextScope < U64_MAX && Own(j) && (parent.Some? ==> parent.value < j.nextScope)
    ensures var j' := EnterScope(j, name, parent, at); Own(j') && Own(j'.(current := Some(j.nextScope)))
  {
    EnterKeeps(j, name, parent, at);
    OwnSnoc(j.emitted, EmitScope(NewScope(j, name, parent, at).scope));
  }

  lemma OwnEmit(j: JournalState, r: Record, snapshot: Option<Scope>, scopes: seq<BufferedScope>, current: Option<ScopeId>)
    requires j.nextScope == |Entered(j.emitted)| && Own(j)
    requires (r.scope.Some? ==> r.scope.value < j.nextScope) && (current.Some? ==> current.value < j.nextScope)
    ensures Own(Emit(j, r, snapshot, scopes, current))
  {
    OwnSnoc(j.emitted, EmitRecord(r, snapshot));
  }

  lemma OwnExit(j: JournalState, id: ScopeId, outcome: Outcome, at: Moment)
    requires JournalInv(j) && Own(j)
    ensures Own(ExitScope(j, id, outcome, at))
  {
    var i := ExitTarget(j.scopes, id);
    if i.Some? {
      OwnExitAt(j, i.value, id, outcome, at);
    }
  }

  lemma OwnExitAt(j: JournalState, i: nat, id: ScopeId, outcome: Outcome, at: Moment)
    requires JournalInv(j) && Own(j) && i < |j.scopes| && j.scopes[i].scope.id == id
    ensures Own(ExitAt(j, i, id, outcome, at))
  {
    var b := j.scopes[i];
    assert Faithful(j.emitted, b.scope);
    OwnParentOf(j.emitted, id);
    var closed := CloseEntry(b, at.millis, at.instant);
    OwnEmit(j, ExitRecord(j, id, outcome, ExitDuration(b, at.millis, at.instant), at), Some(closed.scope),
            j.scopes[i := closed], if j.current == Some(id) then closed.scope.parent else j.current);
  }

  lemma OwnEvent(j: JournalState, kind: EventKind, name: string, fields: map<string, Value>, scope: Option<ScopeId>, at: Moment)
    requires JournalInv(j) && Own(j) && (scope.Some? ==> scope.value < j.nextScope)
    ensures Own(RecordIn(j, kind, name, fields, scope, at))
  {
    OwnEmit(j, Record(j.nextRecord, scope, at.nanos, Event(kind, name, fields)), LookupFor(j, scope), j.scopes, j.current);
  }

  lemma OwnStep(j: JournalState, op: JournalOp)
    requires JournalInv(j) && j.nextScope < U64_MAX && j.nextRecord < U64_MAX && OwnParent(j, op) && Own(j)
    ensures Own(Step(j, op))
  {
    match op
    case Enter(name, at) => OwnEnter(j, Some(name), j.current, at);
    case EnterWithParent(name, parent, at) => OwnEnter(j, Some(name), parent, at);
    case EnterUnnamed(parent, at) => OwnEnter(j, None, Or(parent, j.current), at);
    case RecordEvent(kind, name, fields, at) => OwnEvent(j, kind, name, fields, j.current, at);
    case RecordQuietly(kind, name, fields, scope, at) => OwnEvent(j, kind, name, fields, scope, at);
    case Exit(id, outcome, at) => OwnExit(j, id, outcome, at);
    case ExitQuietly(id, outcome, at) => OwnExit(j, id, outcome, at);
    case _ =>
  }

  lemma OwnSnoc(es: seq<Emission>, e: Emission)
    requires OwnReferences(es)
    requires match e
      case EmitScope(s) => s.parent.Some? ==> s.parent.value < |Entered(es)|
      case EmitRecord(r, _) => r.scope.Some? ==> r.scope.value < |Entered(es)|
    ensures OwnReferences(es + [e])
  {
    assert (es + [e])[..|es|] == es;
  }
}
