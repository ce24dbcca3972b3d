/** A journal's bookkeeping without its buffer: what the calls so far mean for every entry and every retained scope. */
module Ledger {
  import opened Core
  import opened Retention
  import opened Journaling

  /** A scope as it was entered. */
  datatype Entrance = Entrance(name: Option<string>, parent: Option<ScopeId>, at: Moment)

  /** Entrances by identifier, exits and messages of the scopes concerned, all records, and the current scope. */
  datatype Account = Account(
    entrances: seq<Entrance>,
    exits: map<ScopeId, Moment>,
    messages: map<ScopeId, ExitMessages>,
    records: seq<Record>,
    used: nat,
    current: Option<ScopeId>,
    cleared: nat)

  const OPENED := Account([], map[], map[], [], 0, None, 0)

  /** Entered since the last clear and not yet exited. */
  predicate IsOpen(l: Account, id: ScopeId) {
    l.cleared <= id < |l.entrances| && id !in l.exits
  }

  /** Time between two readings of the monotonic clock. */
  function Between(from: Moment, to: Moment): nat {
    if to.instant > from.instant then to.instant - from.instant else 0
  }

  function Messages(l: Account, id: ScopeId): ExitMessages {
    if id in l.messages then l.messages[id] else NO_MESSAGES
  }

  predicate Room(l: Account) {
    |l.entrances| < U64_MAX && l.used < U64_MAX
  }

  function Entering(l: Account, entrance: Entrance): Account {
    l.(entrances := l.entrances + [entrance])
  }

  function Recording(l: Account, scope: Option<ScopeId>, at: Moment, kind: RecordKind): Account
    requires Room(l)
  {
    l.(records := l.records + [Record(l.used, scope, at.nanos, kind)], used := l.used + 1)
  }

  function Exiting(l: Account, id: ScopeId, outcome: Outcome, at: Moment): Account
    requires Room(l)
  {
    if !IsOpen(l, id) then l.(used := l.used + 1)
    else
      var entrance := l.entrances[id];
      Recording(l, Some(id), at, ScopeExit(outcome, Min(Between(entrance.at, at), U64_MAX))).(
        exits := l.exits[id := at], current := if l.current == Some(id) then entrance.parent else l.current)
  }

  function Note(l: Account, op: JournalOp): Account
    requires Room(l)
  {
    match op
    case Enter(name, at) => Entering(l, Entrance(Some(name), l.current, at)).(current := Some(|l.entrances|))
    case EnterWithParent(name, parent, at) => Entering(l, Entrance(Some(name), parent, at))
    case EnterUnnamed(parent, at) =>
      Entering(l, Entrance(None, if parent.Some? then parent else l.current, at)).(current := Some(|l.entrances|))
    case RecordEvent(kind, name, fields, at) => Recording(l, l.current, at, Event(kind, name, fields))
    case RecordQuietly(kind, name, fields, scope, at) => Recording(l, scope, at, Event(kind, name, fields))
    case Exit(id, outcome, at) => Exiting(l, id, outcome, at)
    case ExitQuietly(id, outcome, at) => Exiting(l, id, outcome, at)
    case SetExitMessages(id, messages) =>
      if l.cleared <= id < |l.entrances| then l.(messages := l.messages[id := OverlayMessages(Messages(l, id), messages)]) else l
    case Clear => l.(current := None, cleared := |l.entrances|)
    case _ => l
  }

  function AccountOf(ops: seq<JournalOp>): (l: Account)
    requires |ops| <= U64_MAX
    ensures |l.entrances| <= |ops| && l.used <= |ops|
  {
    if ops == [] then OPENED else Note(AccountOf(ops[..|ops| - 1]), ops[|ops| - 1])
  }

  // ---------- the journal agrees with it ----------

  function EnteredScope(id: ScopeId, e: Entrance): Scope {
    Scope(id, e.parent, e.at.millis, e.name, None, NO_MESSAGES)
  }

  /** The retained form of scope `id`. */
  function RetainedScope(l: Account, id: ScopeId): BufferedScope
    requires id < |l.entrances|
  {
    var e, exited := l.entrances[id], id in l.exits;
    BufferedScope(
      EnteredScope(id, e).(exitedAt := if exited then Some(l.exits[id].millis) else None, exitMessages := Messages(l, id)),
      Some(ScopeClock(e.at.instant, if exited then Some(Between(e.at, l.exits[id])) else None)))
  }

  ghost predicate RetainedAsCalled(l: Account, s: seq<BufferedScope>) {
    forall i :: 0 <= i < |s| ==> s[i].scope.id < |l.entrances| && s[i] == RetainedScope(l, s[i].scope.id)
  }

  ghost predicate EnteredAsCalled(l: Account, entered: seq<Scope>) {
    |entered| == |l.entrances| && forall i :: 0 <= i < |entered| ==> i <= U64_MAX && entered[i] == EnteredScope(i, l.entrances[i])
  }

  ghost predicate ExitsAsCalled(l: Account, es: seq<Emission>) {
    forall id: ScopeId {:trigger ExitTime(es, id)} :: ExitTime(es, id) == if id in l.exits then Some(l.exits[id].millis) else None
  }

  ghost predicate Agrees(l: Account, j: JournalState) {
    && j.nextScope == |l.entrances| && j.nextRecord == l.used && j.current == l.current && j.cleared == l.cleared
    && Recorded(j.emitted) == l.records
    && EnteredAsCalled(l, Entered(j.emitted)) && ExitsAsCalled(l, j.emitted)
    && RetainedAsCalled(l, j.scopes)
    && (forall id :: id in l.exits || id in l.messages ==> id < |l.entrances|)
  }

  lemma NewNotFound(j: JournalState)
    requires JournalInv(j)
    ensures FindScope(j.scopes, j.nextScope) == None
  {
    forall i | 0 <= i < |j.scopes|
      ensures j.scopes[i].scope.id < j.nextScope
    {
      assert Faithful(j.emitted, j.scopes[i].scope);
    }
  }

  lemma EnterRetains(l: Account, s: seq<BufferedScope>, e: Entrance, b: BufferedScope)
    requires RetainedAsCalled(l, s) && |l.entrances| <= U64_MAX && |l.entrances| !in l.exits && |l.entrances| !in l.messages
    requires b == BufferedScope(EnteredScope(|l.entrances|, e), Some(ScopeClock(e.at.instant, None)))
    ensures RetainedAsCalled(Entering(l, e), s + [b])
  {
    var l', longer := Entering(l, e), s + [b];
    forall i | 0 <= i < |longer|
      ensures longer[i].scope.id < |l'.entrances| && longer[i] == RetainedScope(l', longer[i].scope.id)
    {
      if i < |s| {
        assert l'.entrances[s[i].scope.id] == l.entrances[s[i].scope.id];
      }
    }
  }

  lemma EnteredMore(l: Account, entered: seq<Scope>, e: Entrance)
    requires EnteredAsCalled(l, entered) && |l.entrances| <= U64_MAX
    ensures EnteredAsCalled(Entering(l, e), entered + [EnteredScope(|l.entrances|, e)])
  {
  }

  lemma EnterAgrees(l: Account, j: JournalState, e: Entrance)
    requires JournalInv(j) && Agrees(l, j) && Room(l)
    ensures Agrees(Entering(l, e), EnterScope(j, e.name, e.parent, e.at))
  {
    NewNotFound(j);
    NewScopeFound(j, e.name, e.parent, e.at);
    var b := NewScope(j, e.name, e.parent, e.at);
    EnterRetains(l, j.scopes, e, b);
    Snoc(j.emitted, EmitScope(b.scope));
    NoExitNoted(l, j.emitted, EmitScope(b.scope));
    EnteredMore(l, Entered(j.emitted), e);
  }

  lemma EventAgrees(l: Account, j: JournalState, kind: EventKind, name: string, fields: map<string, Value>, scope: Option<ScopeId>, at: Moment)
    requires JournalInv(j) && Agrees(l, j) && Room(l)
    ensures Agrees(Recording(l, scope, at, Event(kind, name, fields)), RecordIn(j, kind, name, fields, scope, at))
  {
    var e := EmitRecord(Record(j.nextRecord, scope, at.nanos, Event(kind, name, fields)), LookupFor(j, scope));
    Snoc(j.emitted, e);
    NoExitNoted(l, j.emitted, e);
  }

  lemma ExitRetains(l: Account, s: seq<BufferedScope>, i: nat, id: ScopeId, at: Moment)
    requires RetainedAsCalled(l, s) && IncreasingScopes(s) && i < |s| && s[i].scope.id == id && id !in l.exits
    ensures RetainedAsCalled(l.(exits := l.exits[id := at]), s[i := CloseEntry(s[i], at.millis, at.instant)])
  {
    var l', s' := l.(exits := l.exits[id := at]), s[i := CloseEntry(s[i], at.millis, at.instant)];
    forall k | 0 <= k < |s'|
      ensures s'[k].scope.id < |l'.entrances| && s'[k] == RetainedScope(l', s'[k].scope.id)
    {
      assert s[k] == RetainedScope(l, s[k].scope.id);
      if k < i {
        assert s[k].scope.id < s[i].scope.id;
      } else if k > i {
        assert s[i].scope.id < s[k].scope.id;
      }
    }
  }

  lemma ExitAtAgrees(l: Account, j: JournalState, i: nat, id: ScopeId, outcome: Outcome, at: Moment)
    requires JournalInv(j) && Agrees(l, j) && Room(l) && IsOpen(l, id)
    requires i < |j.scopes| && j.scopes[i].scope.id == id
    ensures Agrees(Exiting(l, id, outcome, at), ExitAt(j, i, id, outcome, at))
  {
    var b := j.scopes[i];
    assert b == RetainedScope(l, id);
    var closed := CloseEntry(b, at.millis, at.instant);
    var r := ExitRecord(j, id, outcome, ExitDuration(b, at.millis, at.instant), at);
    var e := EmitRecord(r, Some(closed.scope));
    ExitRetains(l, j.scopes, i, id, at);
    Snoc(j.emitted, e);
    ExitNoted(l, j.emitted, e, id, at);
  }

  lemma ExitNoted(l: Account, es: seq<Emission>, e: Emission, id: ScopeId, at: Moment)
    requires ExitsAsCalled(l, es) && id !in l.exits && ExitsScope(e, id) && e.snapshot.Some? && e.snapshot.value.exitedAt == Some(at.millis)
    ensures ExitsAsCalled(l.(exits := l.exits[id := at]), es + [e])
  {
    forall other: ScopeId
      ensures ExitTime(es + [e], other) == if other == id then Some(at.millis) else ExitTime(es, other)
    {
      assert ExitTime(es, id) == None;
      ExitTimeSnoc(es, e, other);
    }
  }

  /** Entries that are not exits leave the exit times as they are. */
  lemma NoExitNoted(l: Account, es: seq<Emission>, e: Emission)
    requires ExitsAsCalled(l, es) && (e.EmitRecord? ==> e.record.kind.Event?)
    ensures ExitsAsCalled(l, es + [e])
  {
    forall id: ScopeId
      ensures ExitTime(es + [e], id) == ExitTime(es, id)
    {
      ExitTimeSnoc(es, e, id);
    }
  }

  lemma NoExitAgrees(l: Account, j: JournalState, id: ScopeId, outcome: Outcome, at: Moment)
    requires Agrees(l, j) && Room(l) && ExitTarget(j.scopes, id).None? && !IsOpen(l, id)
    ensures Agrees(Exiting(l, id, outcome, at), ExitScope(j, id, outcome, at))
  {
  }

  lemma OpenMeans(l: Account, j: JournalState, id: ScopeId)
    requires JournalInv(j) && SinceClear(j) && Agrees(l, j)
    ensures IsOpen(l, id) <==> ExitTarget(j.scopes, id).Some?
    ensures IsOpen(l, id) <==> l.cleared <= id < |l.entrances| && ExitTime(j.emitted, id).None?
  {
    ExitTargetMeans(j, id);
    assert ExitTime(j.emitted, id) == if id in l.exits then Some(l.exits[id].millis) else None;
  }

  lemma ExitAgrees(l: Account, j: JournalState, id: ScopeId, outcome: Outcome, at: Moment)
    requires JournalInv(j) && SinceClear(j) && Agrees(l, j) && Room(l)
    ensures Agrees(Exiting(l, id, outcome, at), ExitScope(j, id, outcome, at))
  {
    OpenMeans(l, j, id);
    var i := ExitTarget(j.scopes, id);
    if i.Some? {
      ExitAtAgrees(l, j, i.value, id, outcome, at);
    } else {
      NoExitAgrees(l, j, id, outcome, at);
    }
  }

  lemma MessagesRetain(l: Account, s: seq<BufferedScope>, i: nat, messages: ExitMessages, after: BufferedScope)
    requires RetainedAsCalled(l, s) && IncreasingScopes(s) && i < |s|
    requires var m := OverlayMessages(Messages(l, s[i].scope.id), messages); after == s[i].(scope := s[i].scope.(exitMessages := m))
    ensures var id := s[i].scope.id;
      RetainedAsCalled(l.(messages := l.messages[id := OverlayMessages(Messages(l, id), messages)]), s[i := after])
  {
    var id := s[i].scope.id;
    var l', s' := l.(messages := l.messages[id := OverlayMessages(Messages(l, id), messages)]), s[i := after];
    forall k | 0 <= k < |s'|
      ensures s'[k].scope.id < |l'.entrances| && s'[k] == RetainedScope(l', s'[k].scope.id)
    {
      assert s[k] == RetainedScope(l, s[k].scope.id);
      if k < i {
        assert s[k].scope.id < s[i].scope.id;
      } else if k > i {
        assert s[i].scope.id < s[k].scope.id;
      }
    }
  }

  /** Messages for a scope that is not retained are for one that has exited or was cleared. */
  lemma UnseenMessages(l: Account, s: seq<BufferedScope>, id: ScopeId, m: ExitMessages)
    requires RetainedAsCalled(l, s) && FindScope(s, id).None?
    ensures RetainedAsCalled(l.(messages := l.messages[id := m]), s)
  {
    forall k | 0 <= k < |s|
      ensures s[k] == RetainedScope(l.(messages := l.messages[id := m]), s[k].scope.id)
    {
      assert s[k].scope.id != id;
    }
  }

  lemma ScopesAgree(l: Account, j: JournalState, messages: map<ScopeId, ExitMessages>, scopes: seq<BufferedScope>)
    requires Agrees(l, j) && RetainedAsCalled(l.(messages := messages), scopes)
    requires forall id :: id in messages ==> id < |l.entrances|
    ensures Agrees(l.(messages := messages), j.(scopes := scopes))
  {
  }

  lemma MessagesKept(l: Account, s: seq<BufferedScope>, id: ScopeId, messages: ExitMessages)
    requires RetainedAsCalled(l, s) && IncreasingScopes(s)
    ensures var m := OverlayMessages(Messages(l, id), messages);
      RetainedAsCalled(l.(messages := l.messages[id := m]), SetMessages(s, id, messages))
  {
    var i, m := FindScope(s, id), OverlayMessages(Messages(l, id), messages);
    if i.Some? {
      var b := s[i.value];
      assert b == RetainedScope(l, id);
      MessagesRetain(l, s, i.value, messages, b.(scope := b.scope.(exitMessages := m)));
    } else {
      UnseenMessages(l, s, id, m);
    }
  }

  lemma NothingToRelabel(l: Account, s: seq<BufferedScope>, id: ScopeId, messages: ExitMessages)
    requires RetainedAsCalled(l, s) && (forall i :: 0 <= i < |s| ==> l.cleared <= s[i].scope.id)
    requires !(l.cleared <= id < |l.entrances|)
    ensures SetMessages(s, id, messages) == s
  {
  }

  lemma MessagesAgree(l: Account, j: JournalState, id: ScopeId, messages: ExitMessages)
    requires JournalInv(j) && SinceClear(j) && Agrees(l, j) && Room(l)
    ensures Agrees(Note(l, SetExitMessages(id, messages)), Step(j, SetExitMessages(id, messages)))
  {
    if l.cleared <= id < |l.entrances| {
      MessagesKept(l, j.scopes, id, messages);
      ScopesAgree(l, j, l.messages[id := OverlayMessages(Messages(l, id), messages)], SetMessages(j.scopes, id, messages));
    } else {
      NothingToRelabel(l, j.scopes, id, messages);
    }
  }

  lemma TrimAgrees(l: Account, j: JournalState, max: nat)
    requires Agrees(l, j) && Room(l)
    ensures Agrees(Note(l, TrimScopesTo(max)), Step(j, TrimScopesTo(max)))
  {
    var scopes := TrimScopes(j.scopes, max);
    EvictedMembers(j.scopes, SaturatingSub(ClosedCount(j.scopes), max));
    forall i | 0 <= i < |scopes|
      ensures scopes[i].scope.id < |l.entrances| && scopes[i] == RetainedScope(l, scopes[i].scope.id)
    {
      assert scopes[i] in j.scopes;
    }
  }

  lemma CurrentAgrees(l: Account, j: JournalState, current: Option<ScopeId>)
    requires Agrees(l, j)
    ensures Agrees(l.(current := current), j.(current := current))
  {
  }

  lemma NamedAgrees(l: Account, j: JournalState, name: string, at: Moment)
    requires JournalInv(j) && Agrees(l, j) && Room(l)
    ensures Agrees(Note(l, Enter(name, at)), Step(j, Enter(name, at)))
  {
    var e := Entrance(Some(name), l.current, at);
    EnterAgrees(l, j, e);
    CurrentAgrees(Entering(l, e), EnterScope(j, e.name, e.parent, at), Some(|l.entrances|));
  }

  lemma UnnamedAgrees(l: Account, j: JournalState, parent: Option<ScopeId>, at: Moment)
    requires JournalInv(j) && Agrees(l, j) && Room(l)
    ensures Agrees(Note(l, EnterUnnamed(parent, at)), Step(j, EnterUnnamed(parent, at)))
  {
    var e := Entrance(None, if parent.Some? then parent else l.current, at);
    EnterAgrees(l, j, e);
    CurrentAgrees(Entering(l, e), EnterScope(j, e.name, e.parent, at), Some(|l.entrances|));
  }

  lemma RecordingAgrees(l: Account, j: JournalState, op: JournalOp)
    requires JournalInv(j) && SinceClear(j) && Agrees(l, j) && Room(l)
    requires op.RecordEvent? || op.RecordQuietly?
    ensures Agrees(Note(l, op), Step(j, op))
  {
    EventAgrees(l, j, op.kind, op.name, op.fields, if op.RecordEvent? then l.current else op.scope, op.at);
  }

  lemma LeavingAgrees(l: Account, j: JournalState, op: JournalOp)
    requires JournalInv(j) && SinceClear(j) && Agrees(l, j) && Room(l) && (op.Exit? || op.ExitQuietly?)
    ensures Agrees(Note(l, op), Step(j, op))
  {
    ExitAgrees(l, j, op.id, op.outcome, op.at);
  }

  lemma ForgettingAgrees(l: Account, j: JournalState, op: JournalOp)
    requires Agrees(l, j) && Room(l) && (op.TrimRecordsTo? || op.Clear? || op.AttachWriter?)
    ensures Agrees(Note(l, op), Step(j, op))
  {
  }

  lemma StepAgrees(l: Account, j: JournalState, op: JournalOp)
    requires JournalInv(j) && SinceClear(j) && Agrees(l, j) && Room(l)
    ensures Agrees(Note(l, op), Step(j, op))
  {
    match op
    case Enter(name, at) => NamedAgrees(l, j, name, at);
    case EnterWithParent(name, parent, at) => EnterAgrees(l, j, Entrance(Some(name), parent, at));
    case EnterUnnamed(parent, at) => UnnamedAgrees(l, j, parent, at);
    case SetExitMessages(id, messages) => MessagesAgree(l, j, id, messages);
    case TrimScopesTo(max) => TrimAgrees(l, j, max);
    case TrimRecordsTo(_) => ForgettingAgrees(l, j, op);
    case Clear => ForgettingAgrees(l, j, op);
    case AttachWriter => ForgettingAgrees(l, j, op);
    case Exit(_, _, _) => LeavingAgrees(l, j, op);
    case ExitQuietly(_, _, _) => LeavingAgrees(l, j, op);
    case _ => RecordingAgrees(l, j, op);
  }

  /**
   Over any run, whatever is evicted, trimmed or cleared meanwhile: every scope entered, every record and every
   retained scope, its clock and messages included, is what the calls made it, and so is the current scope.
   */
  lemma {:induction false} RunAgrees(ops: seq<JournalOp>)
    requires |ops| <= U64_MAX
    ensures Agrees(AccountOf(ops), RunOps(ops))
  {
    if ops != [] {
      var init := ops[..|ops| - 1];
      RunAgrees(init);
      RunKeeps(init);
      ClearedGone(init);
      StepAgrees(AccountOf(init), RunOps(init), ops[|ops| - 1]);
    }
  }

  /**
   An event belongs to the scope current at the time, or to the one given, and is handed out with that scope as it is
   by then; only a scope that has exited, was cleared or never entered can be missing.
   */
  lemma EventShown(l: Account, j: JournalState, op: JournalOp) returns (snapshot: Option<Scope>)
    requires JournalInv(j) && SinceClear(j) && Agrees(l, j) && Room(l) && (op.RecordEvent? || op.RecordQuietly?)
    ensures var scope := if op.RecordEvent? then l.current else op.scope;
      && Step(j, op).emitted
         == j.emitted + [EmitRecord(Record(l.used, scope, op.at.nanos, Event(op.kind, op.name, op.fields)), snapshot)]
      && (snapshot.Some? ==>
            scope.Some? && scope.value < |l.entrances| && snapshot.value == RetainedScope(l, scope.value).scope)
      && (scope.Some? && IsOpen(l, scope.value) ==> snapshot.Some?)
  {
    var scope := if op.RecordEvent? then l.current else op.scope;
    snapshot := LookupFor(j, scope);
    if scope.Some? {
      OpenMeans(l, j, scope.value);
    }
  }

  // ---------- durations ----------

  function MomentOf(op: JournalOp): Option<Moment> {
    match op
    case Enter(_, at) => Some(at)
    case EnterWithParent(_, _, at) => Some(at)
    case EnterUnnamed(_, at) => Some(at)
    case _ => None
  }

  lemma EntranceStays(l: Account, op: JournalOp)
    requires Room(l)
    ensures |l.entrances| <= |Note(l, op).entrances|
    ensures forall i :: 0 <= i < |l.entrances| ==> Note(l, op).entrances[i] == l.entrances[i]
    ensures MomentOf(op).Some? ==>
      |Note(l, op).entrances| == |l.entrances| + 1 && Note(l, op).entrances[|l.entrances|].at == MomentOf(op).value
  {
  }

  lemma AccountSnoc(ops: seq<JournalOp>, op: JournalOp)
    requires |ops| < U64_MAX
    ensures AccountOf(ops + [op]) == Note(AccountOf(ops), op)
  {
    assert (ops + [op])[..|ops|] == ops;
  }

  lemma SplitOps(ops: seq<JournalOp>) returns (init: seq<JournalOp>, op: JournalOp)
    requires ops != []
    ensures ops == init + [op] && |init| == |ops| - 1
  {
    init, op := ops[..|ops| - 1], ops[|ops| - 1];
  }

  /** A scope that an operation entered keeps its entrance. */
  lemma {:induction false} EntranceOf(before: seq<JournalOp>, enter: JournalOp, after: seq<JournalOp>)
    requires |before + [enter] + after| <= U64_MAX && MomentOf(enter).Some?
    ensures var id, l := |AccountOf(before).entrances|, AccountOf(before + [enter] + after);
      id < |l.entrances| && l.entrances[id].at == MomentOf(enter).value
    decreases |after|
  {
    if after == [] {
      assert before + [enter] + after == before + [enter];
      AccountSnoc(before, enter);
      EntranceStays(AccountOf(before), enter);
    } else {
      var init, op := SplitOps(after);
      SeqAssociative(before + [enter], init, [op]);
      EntranceOf(before, enter, init);
      AccountSnoc(before + [enter] + init, op);
      EntranceStays(AccountOf(before + [enter] + init), op);
    }
  }

  lemma ExitRecorded(l: Account, j: JournalState, id: ScopeId, outcome: Outcome, at: Moment)
    requires JournalInv(j) && SinceClear(j) && Agrees(l, j) && Room(l) && IsOpen(l, id)
    ensures Recorded(Step(j, Exit(id, outcome, at)).emitted) == Recorded(j.emitted)
      + [Record(j.nextRecord, Some(id), at.nanos, ScopeExit(outcome, Min(Between(l.entrances[id].at, at), U64_MAX)))]
  {
    ExitAgrees(l, j, id, outcome, at);
  }

  /**
   The exit record of a scope measures the time since the operation that entered it on the monotonic clock, zero if
   that clock seems to run backwards, and is capped at what 64 bits hold.
   */
  lemma MeasuredExit(before: seq<JournalOp>, enter: JournalOp, after: seq<JournalOp>, id: ScopeId, outcome: Outcome, at: Moment)
    requires |before + [enter] + after| < U64_MAX && MomentOf(enter).Some? && id == RunOps(before).nextScope
    requires var j := RunOps(before + [enter] + after);
      j.cleared <= id && forall i :: 0 <= i < |j.emitted| ==> !ExitsScope(j.emitted[i], id)
    ensures var j, a := RunOps(before + [enter] + after), MomentOf(enter).value.instant;
      var duration := if at.instant >= a then Min(at.instant - a, U64_MAX) else 0;
      Recorded(Step(j, Exit(id, outcome, at)).emitted)
        == Recorded(j.emitted) + [Record(j.nextRecord, Some(id), at.nanos, ScopeExit(outcome, duration))]
  {
    var ops := before + [enter] + after;
    RunAgrees(before);
    EntranceOf(before, enter, after);
    RunAgrees(ops);
    RunKeeps(ops);
    ClearedGone(ops);
    StillOpen(AccountOf(ops), RunOps(ops), id);
    ExitRecorded(AccountOf(ops), RunOps(ops), id, outcome, at);
  }

  lemma StillOpen(l: Account, j: JournalState, id: ScopeId)
    requires JournalInv(j) && SinceClear(j) && Agrees(l, j) && j.cleared <= id < |l.entrances|
    requires forall i :: 0 <= i < |j.emitted| ==> !ExitsScope(j.emitted[i], id)
    ensures IsOpen(l, id)
  {
    ExitTimeMeans(j.emitted, id);
    OpenMeans(l, j, id);
  }
}
