/** What the background writer makes of the calls it gets: which messages it accepts and hands on, which errors it reports. */
module WriterCalls {
  import opened Core
  import opened BackgroundWriter

  // ---------- subsequences ----------

  lemma {:induction false} SubsequenceOfLonger<T>(a: seq<T>, b: seq<T>, x: T)
    requires Subsequence(a, b)
    ensures Subsequence(a, b + [x])
  {
    if a != [] {
      assert (b + [x])[1..] == b[1..] + [x] && (b + [x])[0] == b[0];
      if a[0] == b[0] && Subsequence(a[1..], b[1..]) {
        SubsequenceOfLonger(a[1..], b[1..], x);
      } else {
        SubsequenceOfLonger(a, b[1..], x);
      }
    }
  }

  lemma {:induction false} SubsequenceTogether<T>(a: seq<T>, b: seq<T>, x: T)
    requires Subsequence(a, b)
    ensures Subsequence(a + [x], b + [x])
  {
    if b == [] {
      assert [x][1..] == [];
    } else {
      assert (b + [x])[1..] == b[1..] + [x] && (b + [x])[0] == b[0];
      if a != [] && a[0] == b[0] && Subsequence(a[1..], b[1..]) {
        assert (a + [x])[1..] == a[1..] + [x];
        SubsequenceTogether(a[1..], b[1..], x);
      } else {
        SubsequenceTogether(a, b[1..], x);
      }
    }
  }

  /** What is added at the end of a subsequence may be what is added to the whole, or nothing. */
  lemma SubsequenceStep<T>(a: seq<T>, b: seq<T>, taken: seq<T>, offered: seq<T>)
    requires Subsequence(a, b) && |offered| <= 1 && (taken == offered || taken == [])
    ensures Subsequence(a + taken, b + offered)
  {
    if offered == [] {
      assert a + taken == a && b + offered == b;
    } else {
      assert offered == [offered[0]];
      if taken == [] {
        assert a + taken == a;
        SubsequenceOfLonger(a, b, offered[0]);
      } else {
        SubsequenceTogether(a, b, offered[0]);
      }
    }
  }

  // ---------- the arguments of the calls ----------

  /** The entry that a call writes: its own scope or record, and the scope given with the record. */
  function WriteOf(metadata: bool, a: Action): (r: seq<Msg>)
    ensures |r| <= 1
  {
    match a
    case WriteScope(scope) => if metadata then [ScopeMsg(scope)] else []
    case WriteRecord(record, scopeOf) => [RecordMsg(record, scopeOf)]
    case _ => []
  }

  function RunIdOf(a: Action): (r: seq<Msg>)
    ensures |r| <= 1
  {
    if a.SetRunId? then [RunId(a.runId)] else []
  }

  function Writes(metadata: bool, actions: seq<Action>): seq<Msg> {
    if actions == [] then []
    else Writes(metadata, actions[..|actions| - 1]) + WriteOf(metadata, actions[|actions| - 1])
  }

  function RunIds(actions: seq<Action>): seq<Msg> {
    if actions == [] then [] else RunIds(actions[..|actions| - 1]) + RunIdOf(actions[|actions| - 1])
  }

  /** The entries of the writes whose call returned. */
  function ReturnedWrites(s: State, actions: seq<Action>): seq<Msg> {
    if actions == [] then []
    else
      var n := |actions| - 1;
      var before := RunFrom(s, actions[..n]);
      ReturnedWrites(s, actions[..n]) + (if Waits(before) then [] else WriteOf(before.config.metadata, actions[n]))
  }

  function EntriesOf(msgs: seq<Msg>): seq<Msg> {
    if msgs == [] then [] else EntriesOf(msgs[..|msgs| - 1]) + (if IsEntry(msgs[|msgs| - 1]) then [msgs[|msgs| - 1]] else [])
  }

  function RunIdsOf(msgs: seq<Msg>): seq<Msg> {
    if msgs == [] then [] else RunIdsOf(msgs[..|msgs| - 1]) + (if msgs[|msgs| - 1].RunId? then [msgs[|msgs| - 1]] else [])
  }

  lemma OfSnoc(msgs: seq<Msg>, m: Msg)
    ensures EntriesOf(msgs + [m]) == EntriesOf(msgs) + (if IsEntry(m) then [m] else [])
    ensures RunIdsOf(msgs + [m]) == RunIdsOf(msgs) + (if m.RunId? then [m] else [])
  {
    assert (msgs + [m])[..|msgs|] == msgs;
  }

  lemma SplitMsgs(msgs: seq<Msg>) returns (init: seq<Msg>, m: Msg)
    requires msgs != []
    ensures msgs == init + [m] && |init| < |msgs|
  {
    init, m := msgs[..|msgs| - 1], msgs[|msgs| - 1];
  }

  lemma {:induction false} OfConcat(a: seq<Msg>, b: seq<Msg>)
    ensures EntriesOf(a + b) == EntriesOf(a) + EntriesOf(b) && RunIdsOf(a + b) == RunIdsOf(a) + RunIdsOf(b)
    decreases |b|
  {
    if b == [] {
      assert a + b == a;
    } else {
      var init, m := SplitMsgs(b);
      SeqAssociative(a, init, [m]);
      OfSnoc(a + init, m);
      OfSnoc(init, m);
      OfConcat(a, init);
      SeqAssociative(EntriesOf(a), EntriesOf(init), if IsEntry(m) then [m] else []);
      SeqAssociative(RunIdsOf(a), RunIdsOf(init), if m.RunId? then [m] else []);
    }
  }

  // ---------- what one step accepts ----------

  predicate HasRoom(s: State) {
    s.open && s.Alive() && |s.queue| < s.config.cap
  }

  /** The message of a call, if it is one that sends something. */
  function MessageOf(s: State, a: Action): (r: seq<Msg>)
    ensures |r| <= 1
  {
    if a.SendFlush? then [FlushMsg(s.flushes.tickets)]
    else if a.SetRunId? then RunIdOf(a)
    else WriteOf(s.config.metadata, a)
  }

  /** A message is accepted exactly if the writer is open, its worker alive and its queue not full. */
  lemma StepAccepts(s: State, a: Action)
    ensures Step(s, a).config == s.config
    ensures Step(s, a).past.accepted == if HasRoom(s) then s.past.accepted + MessageOf(s, a) else s.past.accepted
  {
    match a
    case WriteScope(scope) =>
    case WriteRecord(record, scopeOf) =>
    case SetRunId(runId) =>
    case SendFlush =>
    case _ => WorkAccepts(s, a);
  }

  lemma WorkAccepts(s: State, a: Action)
    requires a.AwaitFlush? || a.Receive? || a.Finish? || a.Panic? || a.Close? || a.ShutdownFlush? || a.ClearDiagnostics?
    ensures Step(s, a).config == s.config && Step(s, a).past.accepted == s.past.accepted
  {
  }

  /** Entries in order, of each step its own. */
  ghost predicate InOrder(metadata: bool, actions: seq<Action>, accepted: seq<Msg>) {
    Subsequence(EntriesOf(accepted), Writes(metadata, actions)) && Subsequence(RunIdsOf(accepted), RunIds(actions))
  }

  lemma CallsSnoc(metadata: bool, actions: seq<Action>, a: Action)
    ensures Writes(metadata, actions + [a]) == Writes(metadata, actions) + WriteOf(metadata, a)
    ensures RunIds(actions + [a]) == RunIds(actions) + RunIdOf(a)
  {
    assert (actions + [a])[..|actions|] == actions;
  }

  lemma OfAtMostOne(msgs: seq<Msg>)
    requires |msgs| <= 1
    ensures EntriesOf(msgs) == if msgs != [] && IsEntry(msgs[0]) then msgs else []
    ensures RunIdsOf(msgs) == if msgs != [] && msgs[0].RunId? then msgs else []
  {
    if msgs != [] {
      assert msgs[..0] == [] && msgs == [msgs[0]];
    }
  }

  /** The message of a step, taken apart. */
  lemma MessageParts(s: State, a: Action, m: seq<Msg>)
    requires m == MessageOf(s, a)
    ensures EntriesOf(m) == WriteOf(s.config.metadata, a) && RunIdsOf(m) == RunIdOf(a)
  {
    OfAtMostOne(m);
    MessageKinds(s, a);
  }

  lemma MessageKinds(s: State, a: Action)
    ensures var m := MessageOf(s, a);
      && WriteOf(s.config.metadata, a) == (if m != [] && IsEntry(m[0]) then m else [])
      && RunIdOf(a) == (if m != [] && m[0].RunId? then m else [])
  {
  }

  lemma TakenInOrder(s: State, actions: seq<Action>, a: Action)
    requires InOrder(s.config.metadata, actions, s.past.accepted)
    ensures InOrder(s.config.metadata, actions + [a], s.past.accepted + MessageOf(s, a))
  {
    var accepted, metadata := s.past.accepted, s.config.metadata;
    CallsSnoc(metadata, actions, a);
    MessageParts(s, a, MessageOf(s, a));
    OfConcat(accepted, MessageOf(s, a));
    SubsequenceStep(EntriesOf(accepted), Writes(metadata, actions), WriteOf(metadata, a), WriteOf(metadata, a));
    SubsequenceStep(RunIdsOf(accepted), RunIds(actions), RunIdOf(a), RunIdOf(a));
  }

  lemma SkippedInOrder(metadata: bool, actions: seq<Action>, a: Action, accepted: seq<Msg>)
    requires InOrder(metadata, actions, accepted)
    ensures InOrder(metadata, actions + [a], accepted)
  {
    CallsSnoc(metadata, actions, a);
    SubsequenceStep(EntriesOf(accepted), Writes(metadata, actions), [], WriteOf(metadata, a));
    SubsequenceStep(RunIdsOf(accepted), RunIds(actions), [], RunIdOf(a));
    assert EntriesOf(accepted) + [] == EntriesOf(accepted) && RunIdsOf(accepted) + [] == RunIdsOf(accepted);
  }

  lemma StepInOrder(s: State, actions: seq<Action>, a: Action)
    requires InOrder(s.config.metadata, actions, s.past.accepted)
    ensures InOrder(s.config.metadata, actions + [a], Step(s, a).past.accepted)
  {
    StepAccepts(s, a);
    if HasRoom(s) {
      TakenInOrder(s, actions, a);
    } else {
      SkippedInOrder(s.config.metadata, actions, a, s.past.accepted);
    }
  }

  lemma SplitActions(actions: seq<Action>) returns (init: seq<Action>, a: Action)
    requires actions != []
    ensures actions == init + [a] && |init| < |actions|
  {
    init, a := actions[..|actions| - 1], actions[|actions| - 1];
  }

  lemma RunSnoc(s: State, actions: seq<Action>, a: Action)
    ensures RunFrom(s, actions + [a]) == Step(RunFrom(s, actions), a)
    ensures ReturnedWrites(s, actions + [a]) == ReturnedWrites(s, actions)
      + (if Waits(RunFrom(s, actions)) then [] else WriteOf(RunFrom(s, actions).config.metadata, a))
  {
    assert (actions + [a])[..|actions|] == actions;
  }

  lemma {:induction false} RunInOrder(s: State, actions: seq<Action>)
    requires s.past.accepted == []
    ensures RunFrom(s, actions).config == s.config
    ensures InOrder(s.config.metadata, actions, RunFrom(s, actions).past.accepted)
    decreases |actions|
  {
    if actions != [] {
      var init, a := SplitActions(actions);
      RunInOrder(s, init);
      RunSnoc(s, init, a);
      StepAccepts(RunFrom(s, init), a);
      StepInOrder(RunFrom(s, init), init, a);
    }
  }

  // ---------- nothing dropped, nothing missing ----------

  lemma DropsGrow(s: State, a: Action)
    ensures Step(s, a).health.drops >= s.health.drops
    ensures WriteOf(s.config.metadata, a) != [] && !HasRoom(s) && !Waits(s) ==> Step(s, a).health.drops > s.health.drops
  {
  }

  lemma StepKeepsAll(s: State, a: Action, returned: seq<Msg>)
    requires EntriesOf(s.past.accepted) == returned && Step(s, a).health.drops == s.health.drops
    ensures EntriesOf(Step(s, a).past.accepted) == returned + (if Waits(s) then [] else WriteOf(s.config.metadata, a))
  {
    StepAccepts(s, a);
    DropsGrow(s, a);
    MessageParts(s, a, MessageOf(s, a));
    if HasRoom(s) {
      OfConcat(s.past.accepted, MessageOf(s, a));
    }
  }

  lemma {:induction false} RunKeepsAll(s: State, actions: seq<Action>)
    requires s.past.accepted == [] && RunFrom(s, actions).health.drops == s.health.drops
    ensures EntriesOf(RunFrom(s, actions).past.accepted) == ReturnedWrites(s, actions)
    decreases |actions|
  {
    if actions != [] {
      var init, a := SplitActions(actions);
      RunSnoc(s, init, a);
      RunDropsGrow(s, init);
      DropsGrow(RunFrom(s, init), a);
      RunKeepsAll(s, init);
      StepKeepsAll(RunFrom(s, init), a, ReturnedWrites(s, init));
    }
  }

  lemma {:induction false} RunDropsGrow(s: State, actions: seq<Action>)
    ensures RunFrom(s, actions).health.drops >= s.health.drops
    decreases |actions|
  {
    if actions != [] {
      var init, a := SplitActions(actions);
      RunSnoc(s, init, a);
      RunDropsGrow(s, init);
      DropsGrow(RunFrom(s, init), a);
    }
  }

  // ---------- what reaches the inner writer ----------

  lemma {:induction false} SubsequencePrefix<T>(a: seq<T>, more: seq<T>, b: seq<T>)
    requires Subsequence(a + more, b)
    ensures Subsequence(a, b)
  {
    if a != [] {
      assert (a + more)[0] == a[0] && (a + more)[1..] == a[1..] + more;
      if (a + more)[0] == b[0] && Subsequence((a + more)[1..], b[1..]) {
        SubsequencePrefix(a[1..], more, b[1..]);
      } else {
        SubsequencePrefix(a, more, b[1..]);
      }
    }
  }

  lemma HandledFirst(s: State) returns (more: seq<Msg>)
    requires Conserves(s)
    ensures s.past.accepted == Msgs(s.past.handled) + more
  {
    more := s.past.accepted[|s.past.handled|..];
    forall i | 0 <= i < |s.past.handled|
      ensures s.past.accepted[i] == Msgs(s.past.handled)[i]
    {
    }
  }

  lemma HandledInOrder(s: State, metadata: bool, actions: seq<Action>)
    requires WriterInv(s) && InOrder(metadata, actions, s.past.accepted)
    ensures InOrder(metadata, actions, Msgs(s.past.handled))
  {
    var more := HandledFirst(s);
    OfConcat(Msgs(s.past.handled), more);
    SubsequencePrefix(EntriesOf(Msgs(s.past.handled)), EntriesOf(more), Writes(metadata, actions));
    SubsequencePrefix(RunIdsOf(Msgs(s.past.handled)), RunIdsOf(more), RunIds(actions));
  }

  lemma SpawnedEmpty(mode: WriteMode, metadata: bool, cap: nat, error: Option<Error>)
    ensures var s := Spawn(mode, metadata, cap, error);
      && s.past.accepted == [] && s.health.drops == 0
      && s.config == Config(mode, metadata, if cap == 0 then 1 else cap)
      && s.open == s.Alive() == error.None? && (error.Some? ==> s.health.lastError == Some((Starting, error.value)))
  {
  }

  /** What has become of the calls `actions` that a writer was spawned for. */
  ghost predicate Delivers(s0: State, actions: seq<Action>, s: State) {
    && InOrder(s0.config.metadata, actions, s.past.accepted) && InOrder(s0.config.metadata, actions, Msgs(s.past.handled))
    && (s.health.drops == 0 ==> EntriesOf(s.past.accepted) == ReturnedWrites(s0, actions))
  }

  lemma RunDelivers(s0: State, actions: seq<Action>)
    requires WriterInv(s0) && s0.past.accepted == [] && s0.health.drops == 0
    ensures Delivers(s0, actions, RunFrom(s0, actions))
  {
    RunInOrder(s0, actions);
    RunKeepsInv(s0, actions);
    HandledInOrder(RunFrom(s0, actions), s0.config.metadata, actions);
    if RunFrom(s0, actions).health.drops == 0 {
      RunKeepsAll(s0, actions);
    }
  }

  /**
   Over any run, the entries accepted, and of these the ones handed to the inner writer, are arguments of the writes
   that were called, each record with the scope given for it, in the order of the calls; if nothing was dropped, they
   are those of all writes that returned. The run identities are those of the calls, in order, likewise.
   */
  lemma WritesInOrder(mode: WriteMode, metadata: bool, cap: nat, error: Option<Error>, actions: seq<Action>)
    ensures var s0 := Spawn(mode, metadata, cap, error); s0.config.metadata == metadata && Delivers(s0, actions, RunFrom(s0, actions))
  {
    SpawnedEmpty(mode, metadata, cap, error);
    SpawnInv(mode, metadata, cap, error);
    RunDelivers(Spawn(mode, metadata, cap, error), actions);
  }

  // ---------- the latest error ----------

  /** The operation that fails in a step, with its error. */
  function Reported(s: State, a: Action): Option<(Operation, Error)> {
    match a
    case WriteScope(_) => if s.config.metadata then Unsent(s, if s.open then NotAvailable else ShutDown) else None
    case WriteRecord(_, _) => Unsent(s, if s.open then NotAvailable else ShutDown)
    case SetRunId(_) => Unsent(s, NotAvailable)
    case SendFlush => Unsent(s, if s.open then NotAvailable else ShutDown)
    case AwaitFlush(ticket) =>
      if ticket in s.flushes.waiting && ticket !in s.flushes.replies && !s.Alive() then Some((Queueing, NoAcknowledgement)) else None
    case Finish(result) =>
      if !s.Alive() || s.inHand.None? || s.inHand.value.RunId? || result.Done? then None
      else if s.inHand.value.FlushMsg? then Some((Flushing, result.error))
      else Some((if s.inHand.value.ScopeMsg? then WritingScope else WritingRecord, result.error))
    case Panic => if s.Alive() && (s.inHand.Some? || (!s.open && s.queue == [])) then Some((Working, WorkerPanicked)) else None
    case ShutdownFlush(result) =>
      if s.Alive() && !s.open && s.inHand.None? && s.queue == [] && result.Failed? then Some((FlushingAtShutdown, result.error))
      else None
    case _ => None
  }

  /** A call on a writer that is shut down or has lost its worker. */
  function Unsent(s: State, error: Error): Option<(Operation, Error)> {
    if s.open && s.Alive() then None else Some((Queueing, error))
  }

  lemma CallReports(s: State, a: Action)
    requires a.WriteScope? || a.WriteRecord? || a.SetRunId? || a.SendFlush? || a.AwaitFlush?
    ensures Step(s, a).health.lastError == if Reported(s, a).Some? then Reported(s, a) else s.health.lastError
    ensures Step(s, a).health.errors == s.health.errors + (if Reported(s, a).Some? then 1 else 0)
  {
  }

  lemma WorkReports(s: State, a: Action)
    requires a.Receive? || a.Finish? || a.Panic? || a.Close? || a.ShutdownFlush?
    ensures Step(s, a).health.lastError == if Reported(s, a).Some? then Reported(s, a) else s.health.lastError
    ensures Step(s, a).health.errors == s.health.errors + (if Reported(s, a).Some? then 1 else 0)
  {
  }

  /** The latest failure since the last clear, over a whole run. */
  function LatestFailure(s: State, actions: seq<Action>): Option<(Operation, Error)> {
    if actions == [] then s.health.lastError
    else
      var n := |actions| - 1;
      if actions[n].ClearDiagnostics? then None
      else
        var reported := Reported(RunFrom(s, actions[..n]), actions[n]);
        if reported.Some? then reported else LatestFailure(s, actions[..n])
  }

  /** The diagnostics show the latest failure since the last clear, with the operation that failed. */
  lemma {:induction false} LatestErrorShown(s: State, actions: seq<Action>)
    ensures RunFrom(s, actions).health.lastError == LatestFailure(s, actions)
  {
    if actions != [] {
      var n := |actions| - 1;
      LatestErrorShown(s, actions[..n]);
      StepReports(RunFrom(s, actions[..n]), actions[n]);
    }
  }

  lemma StepReports(s: State, a: Action)
    ensures Step(s, a).health.lastError
         == if a.ClearDiagnostics? then None else if Reported(s, a).Some? then Reported(s, a) else s.health.lastError
    ensures Step(s, a).health.errors == s.health.errors + (if Reported(s, a).Some? then 1 else 0)
  {
    match a
    case ClearDiagnostics =>
    case Receive => WorkReports(s, a);
    case Finish(_) => WorkReports(s, a);
    case Panic => WorkReports(s, a);
    case Close => WorkReports(s, a);
    case ShutdownFlush(_) => WorkReports(s, a);
    case _ => CallReports(s, a);
  }
}
