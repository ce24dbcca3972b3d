/** The objects behind the writer protocol: the shared counters, and the writer with its queue and worker. */
module WriterThread {
  import opened Core
  import opened BackgroundWriter

  class WriterState {
    var dropped: U64
    var failed: U64
    var lastError: Option<(Operation, Error)>
    ghost var drops: nat
    ghost var errors: nat
    ghost var dropsCleared: nat
    ghost var errorsCleared: nat

    ghost function View(): Health
      reads this
    {
      Health(dropped, failed, lastError, drops, errors, dropsCleared, errorsCleared)
    }

    constructor ()
      ensures View() == HEALTHY
    {
      dropped, failed, lastError, drops, errors, dropsCleared, errorsCleared := 0, 0, None, 0, 0, 0, 0;
    }

    method RecordError(operation: Operation, error: Error)
      modifies this
      ensures View() == BackgroundWriter.RecordError(old(View()), operation, error)
    {
      failed := Successor(failed);
      lastError := Some((operation, error));
      errors := errors + 1;
    }

    method DropRecord()
      modifies this
      ensures View() == BackgroundWriter.DropRecord(old(View()))
    {
      dropped := Successor(dropped);
      drops := drops + 1;
    }

    method Clear()
      modifies this
      ensures View() == ClearHealth(old(View()))
    {
      dropped, failed, lastError := 0, 0, None;
      dropsCleared, errorsCleared := drops, errors;
    }
  }

  class AsyncWriter {
    const config: Config
    const state: WriterState
    var txOpen: bool
    var running: bool
    var queue: seq<Msg>
    var inHand: Option<Msg>
    var pendingError: Option<Error>
    var tickets: nat
    var waiting: set<nat>
    var replies: map<nat, IoResult>
    ghost var past: Past

    ghost predicate Valid()
      reads this
    {
      running == past.ending.Running? && config.cap > 0
    }

    ghost function View(): State
      reads this, state
    {
      State(config, txOpen, queue, inHand, pendingError, state.View(), Flushes(tickets, waiting, replies), past)
    }

    constructor (mode: WriteMode, metadata: bool, cap: nat, error: Option<Error>)
      ensures Valid() && fresh(state) && View() == Spawn(mode, metadata, cap, error)
      ensures config == Config(mode, metadata, if cap == 0 then 1 else cap)
      ensures txOpen == running == error.None? && queue == [] && past.accepted == []
      ensures state.lastError == if error.Some? then Some((Starting, error.value)) else None
    {
      config := Config(mode, metadata, if cap == 0 then 1 else cap);
      state := new WriterState();
      txOpen, running, queue, inHand, pendingError := error.None?, error.None?, [], None, None;
      tickets, waiting, replies := 0, {}, map[];
      past := Past([], [], [], 0, if error.None? then Running else NotStarted);
      new;
      if error.Some? {
        state.RecordError(Starting, error.value);
      }
    }

    /** A producer would be kept waiting for the worker. */
    predicate WouldWait()
      reads this
    {
      txOpen && running && |queue| >= config.cap
    }

    method Refuse(error: Error) returns (r: IoResult)
      modifies this`past, state
      ensures Valid() == old(Valid()) && View() == Unavailable(old(View()), error) && r == Failed(error)
    {
      state.RecordError(Queueing, error);
      past := past.(refused := past.refused + 1);
      r := Failed(error);
    }

    method Put(m: Msg)
      modifies this`queue, this`past
      ensures Valid() == old(Valid()) && View() == Accept(old(View()), m)
    {
      queue := queue + [m];
      past := past.(accepted := past.accepted + [m]);
    }

    method Discard()
      modifies state
      ensures Valid() == old(Valid()) && View() == DropEntry(old(View()))
    {
      state.DropRecord();
    }

    /** A write that need not wait. */
    method Offer(m: Msg) returns (r: IoResult)
      requires Valid() && (config.mode.Blocking? ==> !WouldWait())
      modifies this`queue, this`past, state
      ensures Valid() && View() == BackgroundWriter.Enqueue(old(View()), m)
      ensures r == if !old(txOpen) then Failed(ShutDown) else if !old(running) then Failed(NotAvailable) else Done
    {
      r := Done;
      if !txOpen {
        Discard();
        r := Refuse(ShutDown);
      } else if !running {
        Discard();
        r := Refuse(NotAvailable);
      } else if |queue| < config.cap {
        Put(m);
      } else {
        Discard();
      }
    }

    method SendRunId(runId: string)
      requires Valid() && !WouldWait()
      modifies this`queue, this`past, state
      ensures Valid() && View() == BackgroundWriter.SendRunId(old(View()), runId)
    {
      if txOpen && running {
        Put(RunId(runId));
      } else {
        var _ := Refuse(NotAvailable);
      }
    }

    method SendFlush() returns (r: IoResult)
      requires Valid() && !WouldWait()
      modifies this`queue, this`past, this`tickets, this`waiting, state
      ensures Valid() && View() == SendFlushMsg(old(View()))
      ensures r == if !old(txOpen) then Failed(ShutDown) else if !old(running) then Failed(NotAvailable) else Done
    {
      r := Done;
      if !txOpen {
        r := Refuse(ShutDown);
      } else if !running {
        r := Refuse(NotAvailable);
      } else {
        Put(FlushMsg(tickets));
        waiting := waiting + {tickets};
        tickets := tickets + 1;
      }
    }

    /** The reply channel holds an answer, or its other end is gone with the worker. */
    method AwaitFlush(ticket: nat) returns (r: IoResult)
      requires Valid() && ticket in waiting && (ticket in replies || !running)
      modifies this`waiting, this`past, state
      ensures Valid() && View() == Await(old(View()), ticket)
      ensures r == if ticket in replies then replies[ticket] else Failed(NoAcknowledgement)
    {
      waiting := waiting - {ticket};
      if ticket in replies {
        r := replies[ticket];
      } else {
        r := Refuse(NoAcknowledgement);
      }
    }

    method Receive()
      requires Valid() && running && inHand.None? && queue != []
      modifies this`queue, this`inHand
      ensures Valid() && View() == Step(old(View()), Action.Receive)
    {
      inHand := Some(queue[0]);
      queue := queue[1..];
    }

    /** A failed operation is counted, and remembered as the latest. */
    method Note(operation: Operation, answer: IoResult)
      modifies state
      ensures state.View() == if answer.Failed? then BackgroundWriter.RecordError(old(state.View()), operation, answer.error) else old(state.View())
    {
      if answer.Failed? {
        state.RecordError(operation, answer.error);
      }
    }

    method FinishFlush(ticket: nat, answer: IoResult)
      requires Valid() && running && inHand == Some(FlushMsg(ticket))
      modifies this`inHand, this`pendingError, this`replies, this`past, state
      ensures Valid() && View() == Complete(old(View()), FlushMsg(ticket), answer)
    {
      Note(Flushing, answer);
      replies := replies[ticket := if pendingError.Some? then Failed(pendingError.value) else answer];
      inHand, pendingError := None, None;
      past := past.(handled := past.handled + [Handled(FlushMsg(ticket), answer)]);
    }

    method FinishWrite(m: Msg, answer: IoResult)
      requires Valid() && running && inHand == Some(m) && IsEntry(m)
      modifies this`inHand, this`pendingError, this`past, state
      ensures Valid() && View() == Complete(old(View()), m, answer)
    {
      Note(if m.ScopeMsg? then WritingScope else WritingRecord, answer);
      if answer.Failed? && pendingError.None? {
        pendingError := Some(answer.error);
      }
      inHand := None;
      past := past.(handled := past.handled + [Handled(m, answer)]);
    }

    /** The body of the worker's loop, once the inner writer has answered. */
    method Finish(answer: IoResult)
      requires Valid() && running && inHand.Some?
      modifies this`inHand, this`pendingError, this`replies, this`past, state
      ensures Valid() && View() == Step(old(View()), Action.Finish(answer))
    {
      var m := inHand.value;
      match m {
        case RunId(_) =>
          inHand := None;
          past := past.(handled := past.handled + [Handled(m, Done)]);
        case FlushMsg(ticket) => FinishFlush(ticket, answer);
        case _ => FinishWrite(m, answer);
      }
    }

    method Panic()
      requires Valid() && running && (inHand.Some? || (!txOpen && queue == []))
      modifies this`inHand, this`queue, this`running, this`past, state
      ensures Valid() && View() == Step(old(View()), Action.Panic)
    {
      past := past.(lost := if inHand.Some? then [inHand.value] + queue else [],
                    ending := if inHand.Some? then PanickedOn(inHand.value) else PanickedLast);
      inHand, queue, running := None, [], false;
      state.RecordError(Working, WorkerPanicked);
    }

    method ShutdownFlush(answer: IoResult)
      requires Valid() && running && !txOpen && inHand.None? && queue == []
      modifies this`running, this`past, state
      ensures Valid() && View() == Step(old(View()), Action.ShutdownFlush(answer))
    {
      if answer.Failed? {
        state.RecordError(FlushingAtShutdown, answer.error);
      }
      running := false;
      past := past.(ending := Finished(answer));
    }

    method CloseQueue()
      requires Valid()
      modifies this`txOpen
      ensures Valid() && View() == Step(old(View()), Action.Close)
    {
      txOpen := false;
    }

    /** Calls by producers. One that has to wait for the worker has not happened yet. */
    method PerformCall(a: Action)
      requires Valid() && (a.WriteScope? || a.WriteRecord? || a.SetRunId? || a.SendFlush? || a.AwaitFlush?)
      modifies this, state
      ensures Valid() && View() == Step(old(View()), a)
    {
      match a {
        case WriteScope(scope) =>
          if config.metadata && !(config.mode.Blocking? && WouldWait()) {
            var _ := Offer(ScopeMsg(scope));
          }
        case WriteRecord(record, scope) =>
          if !(config.mode.Blocking? && WouldWait()) {
            var _ := Offer(RecordMsg(record, scope));
          }
        case SetRunId(runId) => if !WouldWait() { SendRunId(runId); }
        case SendFlush => if !WouldWait() { var _ := SendFlush(); }
        case AwaitFlush(ticket) =>
          if ticket in waiting && (ticket in replies || !running) {
            var _ := AwaitFlush(ticket);
          }
      }
    }

    /** Steps that cannot be taken now, such as receiving from an empty queue, leave everything as it is. */
    method Perform(a: Action)
      requires Valid()
      modifies this, state
      ensures Valid() && View() == Step(old(View()), a)
    {
      match a {
        case Receive => if running && inHand.None? && queue != [] { Receive(); }
        case Finish(answer) => if running && inHand.Some? { Finish(answer); }
        case Panic => if running && (inHand.Some? || (!txOpen && queue == [])) { Panic(); }
        case Close => CloseQueue();
        case ShutdownFlush(answer) => if running && !txOpen && inHand.None? && queue == [] { ShutdownFlush(answer); }
        case ClearDiagnostics => state.Clear();
        case _ => PerformCall(a);
      }
    }

    /** Any interleaving of steps leaves the writer in the state that the protocol prescribes. */
    method Run(actions: seq<Action>)
      requires Valid()
      modifies this, state
      ensures Valid() && View() == RunFrom(old(View()), actions)
    {
      ghost var start := View();
      var i := 0;
      while i < |actions|
        invariant i <= |actions| && Valid() && View() == RunFrom(start, actions[..i])
      {
        assert actions[..i + 1][..i] == actions[..i];
        Perform(actions[i]);
        i := i + 1;
      }
      assert actions[..i] == actions;
    }

    function Backlog(): nat
      reads this
    {
      2 * |queue| + (if inHand.Some? then 1 else 0)
    }

    /** One move of a worker that has something to do; without an answer, the inner writer panics. */
    method Work(answer: Option<IoResult>) returns (ghost move: Action)
      requires Valid() && running && Backlog() > 0
      modifies this, state
      ensures Valid() && ByWorker(move) && View() == Step(old(View()), move) && Backlog() < old(Backlog())
      ensures answer.Some? ==> running
      ensures !running ==> past.ending.PanickedOn? && replies == old(replies)
    {
      if inHand.None? {
        move := Action.Receive;
        Receive();
      } else if answer.Some? {
        move := Action.Finish(answer.value);
        Finish(answer.value);
      } else {
        move := Action.Panic;
        Panic();
      }
    }

    /** A blocked producer waits for the worker to make room, or to be gone. */
    method MakeRoom(answers: nat -> Option<IoResult>) returns (ghost moves: seq<Action>)
      requires Valid()
      modifies this, state
      ensures Valid() && !WouldWait() && WorkerRun(old(View()), moves, View())
      ensures !old(WouldWait()) ==> moves == []
      ensures running == old(running) || (past.ending.PanickedOn? && !AllAnswered(answers))
    {
      moves := [];
      var n := 0;
      while WouldWait()
        invariant Valid() && WorkerRun(old(View()), moves, View())
        invariant !old(WouldWait()) ==> moves == []
        invariant running == old(running) || (past.ending.PanickedOn? && !AllAnswered(answers))
        decreases Backlog()
      {
        ghost var before := View();
        ghost var move := Work(answers(n));
        RunOneMore(old(View()), moves, before, move);
        moves := moves + [move];
        n := n + 1;
      }
    }

    /**
     Dropping an entry under pressure is not an error to the caller; an unavailable worker is. In blocking mode the
     call first waits, `moves` being what the worker does meanwhile.
     */
    method Enqueue(m: Msg, answers: nat -> Option<IoResult>) returns (r: IoResult, ghost moves: seq<Action>)
      requires Valid()
      modifies this, state
      ensures Valid() && WorkerMoves(moves) && View() == BackgroundWriter.Enqueue(RunFrom(old(View()), moves), m)
      ensures config.mode.BestEffort? || !old(WouldWait()) ==> moves == []
      ensures config.mode.Blocking? && running ==> past.accepted == old(past.accepted) + (if txOpen then [m] else [])
      ensures config.mode.BestEffort? ==>
        past.accepted == old(past.accepted) + (if old(txOpen && running && |queue| < config.cap) then [m] else [])
      ensures r == if !old(txOpen) then Failed(ShutDown) else if !running then Failed(NotAvailable) else Done
    {
      moves := [];
      if config.mode.Blocking? {
        moves := MakeRoom(answers);
        WorkerAccepts(old(View()), moves);
      }
      r := Offer(m);
    }

    /** Without an interest in scope metadata there is nothing to write and nothing to fail. */
    method WriteScope(scope: Scope, answers: nat -> Option<IoResult>) returns (r: IoResult, ghost moves: seq<Action>)
      requires Valid()
      modifies this, state
      ensures Valid() && WorkerMoves(moves)
      ensures !config.metadata ==> r == Done && View() == old(View())
      ensures config.metadata ==> Sent(ScopeMsg(scope), r)
    {
      if !config.metadata {
        moves := [];
        return Done, [];
      }
      r, moves := Enqueue(ScopeMsg(scope), answers);
    }

    method WriteRecord(record: Record, scope: Option<Scope>, answers: nat -> Option<IoResult>)
      returns (r: IoResult, ghost moves: seq<Action>)
      requires Valid()
      modifies this, state
      ensures Valid() && WorkerMoves(moves)
      ensures Sent(RecordMsg(record, scope), r)
    {
      r, moves := Enqueue(RecordMsg(record, scope), answers);
    }

    /** The message is the next one accepted, unless it finds the queue full in best-effort mode or no worker. */
    twostate predicate Sent(m: Msg, new r: IoResult)
      reads this
    {
      var room := if config.mode.Blocking? then txOpen && running else old(txOpen && running && |queue| < config.cap);
      && (config.mode.BestEffort? || running ==> past.accepted == old(past.accepted) + (if room then [m] else []))
      && (r == if !old(txOpen) then Failed(ShutDown) else if !running then Failed(NotAvailable) else Done)
    }

    /** The name of the run is sent with a blocking send in either mode. */
    method SetRunId(runId: string, answers: nat -> Option<IoResult>) returns (ghost moves: seq<Action>)
      requires Valid()
      modifies this, state
      ensures Valid() && WorkerMoves(moves) && View() == BackgroundWriter.SendRunId(RunFrom(old(View()), moves), runId)
      ensures !old(WouldWait()) ==> moves == []
      ensures running ==> past.accepted == old(past.accepted) + (if txOpen then [RunId(runId)] else [])
    {
      moves := MakeRoom(answers);
      WorkerAccepts(old(View()), moves);
      SendRunId(runId);
    }

    /** Waiting for a reply ends: the worker answers, or it is gone. */
    method WorkUntil(ticket: nat, answers: nat -> Option<IoResult>) returns (ghost moves: seq<Action>)
      requires Valid() && running && Asked(View(), ticket)
      modifies this, state
      ensures Valid() && WorkerRun(old(View()), moves, View()) && running == (ticket in replies)
      ensures running || (past.ending.PanickedOn? && !AllAnswered(answers))
    {
      moves := [];
      var n := 0;
      while running && ticket !in replies
        invariant Valid() && WorkerRun(old(View()), moves, View())
        invariant running || (ticket !in replies && past.ending.PanickedOn? && !AllAnswered(answers))
        decreases Backlog()
      {
        ghost var before := View();
        StillWorking(old(View()), moves, before, ticket);
        ghost var move := Work(answers(n));
        RunOneMore(old(View()), moves, before, move);
        moves := moves + [move];
        n := n + 1;
      }
    }

    /** A flush whose message has been accepted: wait for its reply and take it. */
    method AwaitReply(ticket: nat, answers: nat -> Option<IoResult>) returns (r: IoResult)
      requires Valid() && running && Asked(View(), ticket)
      modifies this, state
      ensures Valid() && WriterInv(View())
      ensures if running then ReplyTo(old(past.accepted), past.handled, r)
        else past.ending.PanickedOn? && !AllAnswered(answers) && r == Failed(NoAcknowledgement)
    {
      ghost var asked := View();
      ghost var moves := WorkUntil(ticket, answers);
      Replied(asked, moves, View(), ticket);
      AwaitKeeps(View(), ticket);
      r := AwaitFlush(ticket);
    }

    /**
     A flush waits for room and for its reply. A worker that lives to give it has by then handled everything accepted
     before, and reports the first failure since the previous flush, its own included.
     */
    method Flush(answers: nat -> Option<IoResult>) returns (r: IoResult)
      requires Valid() && WriterInv(View())
      modifies this, state
      ensures Valid() && WriterInv(View())
      ensures !old(txOpen) ==> r == Failed(ShutDown)
      ensures old(txOpen) && !old(running) ==> r == Failed(NotAvailable)
      ensures old(txOpen) && running ==> ReplyTo(old(past.accepted) + [FlushMsg(old(tickets))], past.handled, r)
      ensures old(txOpen && running) && !running ==>
        past.ending.PanickedOn? && !AllAnswered(answers) && (r == Failed(NotAvailable) || r == Failed(NoAcknowledgement))
    {
      ghost var start := View();
      ghost var moves := MakeRoom(answers);
      WorkerKeeps(start, moves, View());
      FlushAsks(View());
      var ticket := tickets;
      r := SendFlush();
      if r.Done? {
        r := AwaitReply(ticket, answers);
      }
    }

    method Drain(answers: nat -> Option<IoResult>) returns (ghost moves: seq<Action>)
      requires Valid()
      modifies this, state
      ensures Valid() && WorkerRun(old(View()), moves, View())
      ensures !running || (inHand.None? && queue == [])
      ensures !old(running) ==> moves == []
      ensures running == old(running) || (past.ending.PanickedOn? && !AllAnswered(answers))
    {
      moves := [];
      var n := 0;
      while running && Backlog() > 0
        invariant Valid() && WorkerRun(old(View()), moves, View())
        invariant !old(running) ==> moves == []
        invariant running == old(running) || (past.ending.PanickedOn? && !AllAnswered(answers))
        decreases Backlog()
      {
        ghost var before := View();
        ghost var move := Work(answers(n));
        RunOneMore(old(View()), moves, before, move);
        moves := moves + [move];
        n := n + 1;
      }
    }

    method CloseAndDrain(answers: nat -> Option<IoResult>) returns (ghost moves: seq<Action>)
      requires Valid()
      modifies this, state
      ensures Valid() && WorkerRun(Step(old(View()), Action.Close), moves, View())
      ensures !running || (inHand.None? && queue == [])
      ensures !old(running) ==> moves == []
      ensures running == old(running) || (past.ending.PanickedOn? && !AllAnswered(answers))
    {
      CloseQueue();
      moves := Drain(answers);
    }

    /** The worker has left its loop: one last flush, or a panic in it. */
    method Leave(last: Option<IoResult>)
      requires Valid() && running && !txOpen && inHand.None? && queue == []
      modifies this, state
      ensures Valid() && !running && View() == Step(old(View()), LastMove(last))
    {
      if last.Some? {
        ShutdownFlush(last.value);
      } else {
        Panic();
      }
    }

    /**
     Dropping the writer closes the queue and joins the worker, which first handles everything accepted and flushes
     once more, unless it panics on a message.
     */
    method Drop(answers: nat -> Option<IoResult>, last: Option<IoResult>)
      requires Valid() && WriterInv(View())
      modifies this, state
      ensures Valid() && Dropped(old(View()), View(), last)
      ensures old(running) && AllAnswered(answers) ==> !past.ending.PanickedOn?
    {
      ghost var start := View();
      ghost var moves := CloseAndDrain(answers);
      ghost var end := if running then Step(View(), LastMove(last)) else View();
      DropMeans(start, moves, View(), end, last);
      if running {
        Leave(last);
      }
      assert View() == end;
    }
  }

  // ---------- what the worker does while others wait ----------

  ghost predicate AllAnswered(answers: nat -> Option<IoResult>) {
    forall n :: answers(n).Some?
  }

  ghost predicate ByWorker(move: Action) {
    move.Receive? || move.Finish? || move.Panic?
  }

  ghost predicate WorkerMoves(moves: seq<Action>) {
    forall move :: move in moves ==> ByWorker(move)
  }

  /** The state `t` is what `s` becomes when the worker alone moves. */
  ghost predicate WorkerRun(s: State, moves: seq<Action>, t: State) {
    WorkerMoves(moves) && t == RunFrom(s, moves)
  }

  lemma RunOneMore(s: State, moves: seq<Action>, t: State, move: Action)
    requires WorkerRun(s, moves, t) && ByWorker(move)
    ensures WorkerRun(s, moves + [move], Step(t, move))
  {
    assert (moves + [move])[..|moves|] == moves;
  }

  lemma WorkerMove(s: State, move: Action)
    requires ByWorker(move)
    ensures var t := Step(s, move);
      && t.config == s.config && t.open == s.open && t.past.accepted == s.past.accepted
      && t.flushes.tickets == s.flushes.tickets && t.flushes.waiting == s.flushes.waiting
  {
  }

  /** Nothing is accepted while only the worker moves. */
  lemma {:induction false} WorkerAccepts(s: State, moves: seq<Action>)
    requires WorkerMoves(moves)
    ensures var t := RunFrom(s, moves);
      && t.config == s.config && t.open == s.open && t.past.accepted == s.past.accepted
      && t.flushes.tickets == s.flushes.tickets && t.flushes.waiting == s.flushes.waiting
  {
    if moves != [] {
      var n := |moves| - 1;
      assert moves[n] in moves;
      WorkerAccepts(s, moves[..n]);
      WorkerMove(RunFrom(s, moves[..n]), moves[n]);
    }
  }

  lemma WorkerKeeps(s: State, moves: seq<Action>, t: State)
    requires WriterInv(s) && WorkerRun(s, moves, t)
    ensures WriterInv(t) && t.config == s.config && t.open == s.open && t.past.accepted == s.past.accepted
    ensures t.flushes.tickets == s.flushes.tickets && t.flushes.waiting == s.flushes.waiting
  {
    RunKeepsInv(s, moves);
    WorkerAccepts(s, moves);
  }

  // ---------- flushes ----------

  /** The message of flush `ticket` is the last one accepted. */
  ghost predicate Asked(s: State, ticket: nat) {
    && WriterInv(s) && ticket in s.flushes.waiting && LastAccepted(s.past.accepted, ticket)
  }

  ghost predicate LastAccepted(accepted: seq<Msg>, ticket: nat) {
    accepted != [] && accepted[|accepted| - 1] == FlushMsg(ticket)
  }

  lemma FlushAsks(s: State)
    requires WriterInv(s)
    ensures WriterInv(SendFlushMsg(s))
    ensures s.open && s.Alive() && |s.queue| < s.config.cap ==> Asked(SendFlushMsg(s), s.flushes.tickets)
  {
    FlushKeeps(s);
  }

  /** Everything accepted has been handled, and `r` is the answer that the last of it, a flush, calls for. */
  ghost predicate ReplyTo(accepted: seq<Msg>, handled: seq<Handled>, r: IoResult) {
    && handled != []
    && Msgs(handled) == accepted && r == ReplyAt(handled, |handled| - 1)
  }

  /** Only the last message accepted is the flush's own. */
  lemma AskedOnce(s: State, ticket: nat, i: nat)
    requires Asked(s, ticket) && i < |s.past.accepted| && s.past.accepted[i] == FlushMsg(ticket)
    ensures i == |s.past.accepted| - 1
  {
    TicketsUnique(s.past.accepted, s.flushes.tickets, i, |s.past.accepted| - 1);
  }

  lemma HandledAll(accepted: seq<Msg>, handled: seq<Handled>, hand: Option<Msg>, queue: seq<Msg>, lost: seq<Msg>)
    requires Split(accepted, handled, hand, queue, lost) && |handled| >= |accepted|
    ensures Msgs(handled) == accepted
  {
  }

  /** The reply to the last message accepted comes after everything has been handled. */
  lemma RepliedLast(s: State, ticket: nat)
    requires Asked(s, ticket) && ticket in s.flushes.replies
    ensures ReplyTo(s.past.accepted, s.past.handled, s.flushes.replies[ticket])
  {
    assert Acknowledged(s.past.handled, ticket);
    var i :| 0 <= i < |s.past.handled| && s.past.handled[i].msg == FlushMsg(ticket);
    AskedOnce(s, ticket, i);
    HandledAll(s.past.accepted, s.past.handled, s.inHand, s.queue, s.past.lost);
  }

  /** A worker with nothing left to do has answered every flush. */
  lemma AllHandled(s: State, ticket: nat)
    requires Asked(s, ticket) && s.Alive() && s.queue == [] && s.inHand.None?
    ensures ticket in s.flushes.replies
  {
    var n := |s.past.accepted| - 1;
    assert s.past.handled[n].msg == s.past.accepted[n];
  }

  lemma AskedStays(s: State, moves: seq<Action>, t: State, ticket: nat)
    requires Asked(s, ticket) && WorkerRun(s, moves, t)
    ensures Asked(t, ticket) && t.past.accepted == s.past.accepted
  {
    WorkerKeeps(s, moves, t);
  }

  lemma StillWorking(s: State, moves: seq<Action>, t: State, ticket: nat)
    requires Asked(s, ticket) && WorkerRun(s, moves, t) && t.Alive() && ticket !in t.flushes.replies
    ensures t.queue != [] || t.inHand.Some?
  {
    AskedStays(s, moves, t, ticket);
    if t.queue == [] && t.inHand.None? {
      AllHandled(t, ticket);
    }
  }

  lemma Replied(s: State, moves: seq<Action>, t: State, ticket: nat)
    requires Asked(s, ticket) && WorkerRun(s, moves, t)
    ensures WriterInv(t) && ticket in t.flushes.waiting
    ensures ticket in t.flushes.replies ==> ReplyTo(s.past.accepted, t.past.handled, t.flushes.replies[ticket])
  {
    AskedStays(s, moves, t, ticket);
    if ticket in t.flushes.replies {
      RepliedLast(t, ticket);
    }
  }

  // ---------- shutting down ----------

  function LastMove(last: Option<IoResult>): Action {
    if last.Some? then ShutdownFlush(last.value) else Panic
  }

  /**
   The writer `s` has been dropped. Its worker, if it had one, has handled everything accepted and flushed once more,
   or has panicked on a message.
   */
  ghost predicate Dropped(s: State, t: State, last: Option<IoResult>) {
    && WriterInv(t) && !t.Alive() && !t.open
    && (!s.Alive() ==> t.past == s.past)
    && (s.Alive() && !t.past.ending.PanickedOn? ==>
          Msgs(t.past.handled) == s.past.accepted && t.past.ending == (if last.Some? then Finished(last.value) else PanickedLast))
  }

  lemma LastMoveEnds(t: State, last: Option<IoResult>)
    requires WriterInv(t) && Drained(t)
    ensures var t' := Step(t, LastMove(last));
      && WriterInv(t') && !t'.Alive() && !t'.open && Msgs(t'.past.handled) == t.past.accepted
      && t'.past.ending == if last.Some? then Finished(last.value) else PanickedLast
  {
    StepKeepsInv(t, LastMove(last));
    SplitMeans(t);
  }

  lemma DropMeans(s: State, moves: seq<Action>, t: State, end: State, last: Option<IoResult>)
    requires WriterInv(s) && WorkerRun(Step(s, Close), moves, t)
    requires !s.Alive() ==> moves == []
    requires t.Alive() ==> t.queue == [] && t.inHand.None?
    requires s.Alive() && !t.Alive() ==> t.past.ending.PanickedOn?
    requires end == if t.Alive() then Step(t, LastMove(last)) else t
    ensures Dropped(s, end, last)
  {
    StepKeepsInv(s, Close);
    WorkerKeeps(Step(s, Close), moves, t);
    if t.Alive() {
      LastMoveEnds(t, last);
    }
  }
}
