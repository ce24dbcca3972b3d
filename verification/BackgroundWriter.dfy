/** The background writer: producers, a bounded queue, one worker, flush replies and health counters. */
module BackgroundWriter {
  import opened Core

  /** What can go wrong: the inner writer's own errors, or one of the fixed messages of the queue and the worker. */
  datatype Error = Io(code: int) | ShutDown | NotAvailable | NoAcknowledgement | WorkerPanicked

  /** The operation an error is reported with. */
  datatype Operation = Starting | WritingScope | WritingRecord | Flushing | FlushingAtShutdown | Working | Queueing

  datatype IoResult = Done | Failed(error: Error)

  // ---------- health ----------

  /**
   The counters and the latest error with its operation. `drops` and `errors` count from the start, the rest since
   the last clear.
   */
  datatype Health = Health(
    dropped: U64,
    failed: U64,
    lastError: Option<(Operation, Error)>,
    drops: nat,
    errors: nat,
    dropsCleared: nat,
    errorsCleared: nat)

  const HEALTHY := Health(0, 0, None, 0, 0, 0, 0)

  /** What a counter shows after `n` increments. */
  function Count(n: nat): U64 {
    n % 0x1_0000_0000_0000_0000
  }

  lemma CountNext(n: nat)
    ensures Count(n + 1) == Successor(Count(n))
  {
  }

  function RecordError(h: Health, operation: Operation, error: Error): Health {
    h.(failed := Successor(h.failed), lastError := Some((operation, error)), errors := h.errors + 1)
  }

  function DropRecord(h: Health): Health {
    h.(dropped := Successor(h.dropped), drops := h.drops + 1)
  }

  function ClearHealth(h: Health): Health {
    h.(dropped := 0, failed := 0, lastError := None, dropsCleared := h.drops, errorsCleared := h.errors)
  }

  /** What the snapshot shows: drops and failures since the last clear, and an error exactly if there was one. */
  ghost predicate Counted(h: Health) {
    && h.dropsCleared <= h.drops && h.dropped == Count(h.drops - h.dropsCleared)
    && h.errorsCleared <= h.errors && h.failed == Count(h.errors - h.errorsCleared)
    && (h.lastError.Some? <==> h.errors > h.errorsCleared)
  }

  lemma ErrorCounted(h: Health, operation: Operation, error: Error)
    requires Counted(h)
    ensures Counted(RecordError(h, operation, error))
  {
    CountNext(h.errors - h.errorsCleared);
  }

  lemma DropCounted(h: Health)
    requires Counted(h)
    ensures Counted(DropRecord(h))
  {
    CountNext(h.drops - h.dropsCleared);
  }

  lemma ClearCounted(h: Health)
    requires Counted(h)
    ensures Counted(ClearHealth(h))
  {
  }

  // ---------- the protocol ----------

  datatype Msg =
    | RunId(runId: string)
    | ScopeMsg(scope: Scope)
    | RecordMsg(record: Record, scopeOf: Option<Scope>)
    | FlushMsg(ticket: nat)

  datatype WriteMode = BestEffort | Blocking

  /** A message handed to the inner writer, with what the inner writer answered. */
  datatype Handled = Handled(msg: Msg, result: IoResult)

  /** How the worker ended, if it has: it could not start, it panicked on a message or at the end, or it finished. */
  datatype Ending = NotStarted | Running | PanickedOn(msg: Msg) | PanickedLast | Finished(last: IoResult)

  datatype Config = Config(mode: WriteMode, metadata: bool, cap: nat)

  /** What has happened: messages accepted, handled and thrown away, and calls refused. */
  datatype Past = Past(accepted: seq<Msg>, handled: seq<Handled>, lost: seq<Msg>, refused: nat, ending: Ending)

  datatype Flushes = Flushes(tickets: nat, waiting: set<nat>, replies: map<nat, IoResult>)

  datatype State = State(
    config: Config,
    open: bool,
    queue: seq<Msg>,
    inHand: Option<Msg>,
    pending: Option<Error>,
    health: Health,
    flushes: Flushes,
    past: Past)
  {
    predicate Alive() {
      past.ending.Running?
    }
  }

  /** One atomic step of a producer, of the worker, or of the program that owns the writer. */
  datatype Action =
    | WriteScope(scope: Scope)
    | WriteRecord(record: Record, scopeOf: Option<Scope>)
    | SetRunId(runId: string)
    | SendFlush
    | AwaitFlush(ticket: nat)
    | Receive
    | Finish(result: IoResult)
    | Panic
    | Close
    | ShutdownFlush(result: IoResult)
    | ClearDiagnostics

  function Fresh(config: Config, open: bool, health: Health, ending: Ending): State {
    State(config, open, [], None, None, health, Flushes(0, {}, map[]), Past([], [], [], 0, ending))
  }

  /** The capacity of the channel is never zero. A thread that cannot be started is the first recorded failure. */
  function Spawn(mode: WriteMode, metadata: bool, cap: nat, error: Option<Error>): State {
    var config := Config(mode, metadata, if cap == 0 then 1 else cap);
    if error.None? then Fresh(config, true, HEALTHY, Running)
    else Fresh(config, false, RecordError(HEALTHY, Starting, error.value), NotStarted)
  }

  function Unavailable(s: State, error: Error): State {
    s.(health := RecordError(s.health, Queueing, error), past := s.past.(refused := s.past.refused + 1))
  }

  /** An entry that does not make it into the queue. */
  function DropEntry(s: State): State {
    s.(health := DropRecord(s.health))
  }

  function Accept(s: State, m: Msg): State {
    s.(queue := s.queue + [m], past := s.past.(accepted := s.past.accepted + [m]))
  }

  /** A full queue drops the entry or, in blocking mode, keeps the producer waiting: then nothing has happened yet. */
  function Enqueue(s: State, m: Msg): State {
    if !s.open then Unavailable(DropEntry(s), ShutDown)
    else if !s.Alive() then Unavailable(DropEntry(s), NotAvailable)
    else if |s.queue| < s.config.cap then Accept(s, m)
    else if s.config.mode.BestEffort? then DropEntry(s)
    else s
  }

  function SendRunId(s: State, runId: string): State {
    if !s.open || !s.Alive() then Unavailable(s, NotAvailable)
    else if |s.queue| < s.config.cap then Accept(s, RunId(runId))
    else s
  }

  function SendFlushMsg(s: State): State {
    var f := s.flushes;
    if !s.open then Unavailable(s, ShutDown)
    else if !s.Alive() then Unavailable(s, NotAvailable)
    else if |s.queue| < s.config.cap then
      Accept(s, FlushMsg(f.tickets)).(flushes := f.(tickets := f.tickets + 1, waiting := f.waiting + {f.tickets}))
    else s
  }

  function Await(s: State, ticket: nat): State {
    var f := s.flushes;
    if ticket !in f.waiting then s
    else if ticket in f.replies then s.(flushes := f.(waiting := f.waiting - {ticket}))
    else if !s.Alive() then Unavailable(s.(flushes := f.(waiting := f.waiting - {ticket})), NoAcknowledgement)
    else s
  }

  function OperationOn(m: Msg): Operation {
    match m
    case ScopeMsg(_) => WritingScope
    case FlushMsg(_) => Flushing
    case _ => WritingRecord
  }

  /** Only writes and flushes have an answer. */
  function Answered(m: Msg, answer: IoResult): Handled {
    Handled(m, if m.RunId? then Done else answer)
  }

  function HealthAfter(health: Health, h: Handled): Health {
    if h.result.Failed? then RecordError(health, OperationOn(h.msg), h.result.error) else health
  }

  /** The first error is kept for the next flush, which takes it. */
  function PendingAfter(pending: Option<Error>, h: Handled): Option<Error> {
    if h.msg.FlushMsg? then None
    else if h.result.Failed? && pending.None? then Some(h.result.error)
    else pending
  }

  function FlushesAfter(f: Flushes, pending: Option<Error>, h: Handled): Flushes {
    if h.msg.FlushMsg? then
      f.(replies := f.replies[h.msg.ticket := if pending.Some? then Failed(pending.value) else h.result])
    else f
  }

  /** What the worker does with the answer to the message in its hand. */
  function Complete(s: State, m: Msg, answer: IoResult): State {
    var h := Answered(m, answer);
    State(s.config, s.open, s.queue, None, PendingAfter(s.pending, h), HealthAfter(s.health, h),
          FlushesAfter(s.flushes, s.pending, h), s.past.(handled := s.past.handled + [h]))
  }

  function WorkerPanic(s: State, lost: seq<Msg>, ending: Ending): State {
    s.(inHand := None, queue := [], health := RecordError(s.health, Working, WorkerPanicked),
       past := s.past.(lost := lost, ending := ending))
  }

  function FlushAtExit(s: State, result: IoResult): State {
    s.(health := if result.Failed? then RecordError(s.health, FlushingAtShutdown, result.error) else s.health,
       past := s.past.(ending := Finished(result)))
  }

  /** The sender is gone and everything queued has been handled: the worker leaves its loop. */
  predicate Drained(s: State) {
    s.Alive() && !s.open && s.inHand.None? && s.queue == []
  }

  function Step(s: State, a: Action): State {
    match a
    case WriteScope(scope) => if s.config.metadata then Enqueue(s, ScopeMsg(scope)) else s
    case WriteRecord(record, scope) => Enqueue(s, RecordMsg(record, scope))
    case SetRunId(runId) => SendRunId(s, runId)
    case SendFlush => SendFlushMsg(s)
    case AwaitFlush(ticket) => Await(s, ticket)
    case Receive =>
      if s.Alive() && s.inHand.None? && s.queue != [] then s.(inHand := Some(s.queue[0]), queue := s.queue[1..]) else s
    case Finish(result) => if s.Alive() && s.inHand.Some? then Complete(s, s.inHand.value, result) else s
    case Panic =>
      if s.Alive() && s.inHand.Some? then WorkerPanic(s, [s.inHand.value] + s.queue, PanickedOn(s.inHand.value))
      else if Drained(s) then WorkerPanic(s, [], PanickedLast)
      else s
    case Close => s.(open := false)
    case ShutdownFlush(result) => if Drained(s) then FlushAtExit(s, result) else s
    case ClearDiagnostics => s.(health := ClearHealth(s.health))
  }

  function RunFrom(s: State, actions: seq<Action>): State {
    if actions == [] then s else Step(RunFrom(s, actions[..|actions| - 1]), actions[|actions| - 1])
  }

  // ---------- what the past says ----------

  function Msgs(handled: seq<Handled>): (r: seq<Msg>)
    ensures |r| == |handled|
  {
    seq(|handled|, i requires 0 <= i < |handled| => handled[i].msg)
  }

  function InHand(s: State): seq<Msg> {
    if s.inHand.Some? then [s.inHand.value] else []
  }

  predicate IsEntry(m: Msg) {
    m.ScopeMsg? || m.RecordMsg?
  }

  function Entries(msgs: seq<Msg>): nat {
    if msgs == [] then 0 else Entries(msgs[..|msgs| - 1]) + (if IsEntry(msgs[|msgs| - 1]) then 1 else 0)
  }

  function FailedCount(handled: seq<Handled>): nat {
    if handled == [] then 0 else FailedCount(handled[..|handled| - 1]) + (if handled[|handled| - 1].result.Failed? then 1 else 0)
  }

  /** Starting, running to the end and the last flush can each fail, once. */
  function EndingFailure(ending: Ending): nat {
    match ending
    case Running => 0
    case Finished(last) => if last.Failed? then 1 else 0
    case _ => 1
  }

  /** Every operation that has failed so far, once: writes and flushes, refused calls, the worker itself. */
  function Failures(past: Past): nat {
    FailedCount(past.handled) + past.refused + EndingFailure(past.ending)
  }

  /** The first entry since the last flush whose write failed. */
  function FirstFailure(handled: seq<Handled>): (k: Option<nat>)
    ensures k.Some? ==> k.value < |handled| && handled[k.value].result.Failed?
  {
    if handled == [] then None
    else
      var n := |handled| - 1;
      if handled[n].msg.FlushMsg? then None
      else
        var earlier := FirstFailure(handled[..n]);
        if earlier.Some? then earlier else if handled[n].result.Failed? then Some(n) else None
  }

  /** The operation whose error the flush at position `i` reports. */
  function Origin(handled: seq<Handled>, i: nat): (k: Option<nat>)
    requires i < |handled|
    ensures k.Some? ==> k.value <= i && handled[k.value].result.Failed?
  {
    var first := FirstFailure(handled[..i]);
    if first.Some? then first else if handled[i].result.Failed? then Some(i) else None
  }

  function ReplyAt(handled: seq<Handled>, i: nat): IoResult
    requires i < |handled|
  {
    var k := Origin(handled, i);
    if k.Some? then handled[k.value].result else Done
  }

  // ---------- the invariant ----------

  /** Accepted messages in order: those handled, the one in hand, those queued, those thrown away by a panic. */
  ghost predicate Split(accepted: seq<Msg>, handled: seq<Handled>, hand: Option<Msg>, queue: seq<Msg>, lost: seq<Msg>) {
    var h, q := |handled|, |handled| + (if hand.Some? then 1 else 0);
    && |accepted| == q + |queue| + |lost|
    && (forall i :: 0 <= i < h ==> accepted[i] == handled[i].msg)
    && (hand.Some? ==> accepted[h] == hand.value)
    && (forall i :: 0 <= i < |queue| ==> accepted[q + i] == queue[i])
    && (forall i :: 0 <= i < |lost| ==> accepted[q + |queue| + i] == lost[i])
  }

  /** Nothing is lost, duplicated or reordered on the way to the inner writer. */
  ghost predicate Conserves(s: State) {
    Split(s.past.accepted, s.past.handled, s.inHand, s.queue, s.past.lost)
  }

  ghost predicate Counts(s: State) {
    && s.health.errors == Failures(s.past)
    && Counted(s.health)
  }

  ghost predicate Modes(s: State) {
    && s.config.cap > 0 && |s.queue| <= s.config.cap
    && (s.config.mode.Blocking? && s.Alive() && s.open ==> s.health.drops == 0)
    && (s.past.lost != [] <==> s.past.ending.PanickedOn?)
    && (!s.Alive() ==> s.queue == [] && s.inHand.None?)
    && (s.past.ending.Finished? || s.past.ending.PanickedLast? ==> !s.open)
  }

  function FlushesBefore(accepted: seq<Msg>, n: nat): nat
    requires n <= |accepted|
  {
    if n == 0 then 0 else FlushesBefore(accepted, n - 1) + (if accepted[n - 1].FlushMsg? then 1 else 0)
  }

  /** Flushes are numbered in order of acceptance. */
  ghost predicate Tickets(accepted: seq<Msg>, tickets: nat) {
    && tickets == FlushesBefore(accepted, |accepted|)
    && (forall i :: 0 <= i < |accepted| && accepted[i].FlushMsg? ==> accepted[i].ticket == FlushesBefore(accepted, i))
  }

  ghost predicate Answers(handled: seq<Handled>, replies: map<nat, IoResult>) {
    && (forall i :: 0 <= i < |handled| && handled[i].msg.FlushMsg? ==>
          handled[i].msg.ticket in replies && replies[handled[i].msg.ticket] == ReplyAt(handled, i))
    && (forall t :: t in replies ==> Acknowledged(handled, t))
  }

  ghost predicate Acknowledged(handled: seq<Handled>, ticket: nat) {
    exists i :: 0 <= i < |handled| && handled[i].msg == FlushMsg(ticket)
  }

  ghost predicate Pending(handled: seq<Handled>, pending: Option<Error>) {
    var k := FirstFailure(handled);
    pending == if k.Some? then Some(handled[k.value].result.error) else None
  }

  ghost predicate WriterInv(s: State) {
    && Conserves(s) && Counts(s) && Modes(s)
    && Tickets(s.past.accepted, s.flushes.tickets)
    && Answers(s.past.handled, s.flushes.replies)
    && Pending(s.past.handled, s.pending)
  }

  lemma HealthyCounted()
    ensures Counted(HEALTHY)
  {
  }

  lemma FreshCounts(config: Config, open: bool, health: Health, ending: Ending)
    requires Counted(health) && health.drops == 0 && health.errors == EndingFailure(ending)
    ensures Counts(Fresh(config, open, health, ending))
  {
  }

  lemma FreshConserves(config: Config, open: bool, health: Health, ending: Ending)
    ensures Conserves(Fresh(config, open, health, ending))
  {
  }

  lemma SpawnCounts(mode: WriteMode, metadata: bool, cap: nat, error: Option<Error>)
    ensures Counts(Spawn(mode, metadata, cap, error)) && Conserves(Spawn(mode, metadata, cap, error))
  {
    HealthyCounted();
    var config := Config(mode, metadata, if cap == 0 then 1 else cap);
    if error.None? {
      FreshCounts(config, true, HEALTHY, Running);
      FreshConserves(config, true, HEALTHY, Running);
    } else {
      var health := RecordError(HEALTHY, Starting, error.value);
      ErrorCounted(HEALTHY, Starting, error.value);
      FreshCounts(config, false, health, NotStarted);
      FreshConserves(config, false, health, NotStarted);
    }
  }

  lemma SpawnQuiet(mode: WriteMode, metadata: bool, cap: nat, error: Option<Error>)
    ensures var s := Spawn(mode, metadata, cap, error);
      && Modes(s) && Tickets(s.past.accepted, s.flushes.tickets)
      && Answers(s.past.handled, s.flushes.replies) && Pending(s.past.handled, s.pending)
  {
  }

  lemma SpawnInv(mode: WriteMode, metadata: bool, cap: nat, error: Option<Error>)
    ensures WriterInv(Spawn(mode, metadata, cap, error))
  {
    SpawnCounts(mode, metadata, cap, error);
    SpawnQuiet(mode, metadata, cap, error);
  }

  // ---------- producers ----------

  lemma {:induction false} FlushesSnoc(accepted: seq<Msg>, m: Msg, n: nat)
    requires n <= |accepted|
    ensures FlushesBefore(accepted + [m], n) == FlushesBefore(accepted, n)
  {
    if n > 0 {
      FlushesSnoc(accepted, m, n - 1);
    }
  }

  lemma TicketsSnoc(accepted: seq<Msg>, tickets: nat, m: Msg)
    requires Tickets(accepted, tickets) && (m.FlushMsg? ==> m.ticket == tickets)
    ensures Tickets(accepted + [m], if m.FlushMsg? then tickets + 1 else tickets)
  {
    var longer := accepted + [m];
    forall i | 0 <= i < |longer| && longer[i].FlushMsg?
      ensures longer[i].ticket == FlushesBefore(longer, i)
    {
      FlushesSnoc(accepted, m, i);
    }
    FlushesSnoc(accepted, m, |accepted|);
  }

  lemma {:induction false} FlushesGrow(accepted: seq<Msg>, i: nat, k: nat)
    requires i < k <= |accepted| && accepted[i].FlushMsg?
    ensures FlushesBefore(accepted, i) < FlushesBefore(accepted, k)
  {
    if i + 1 < k {
      FlushesGrow(accepted, i, k - 1);
    }
  }

  lemma TicketsUnique(accepted: seq<Msg>, tickets: nat, i: nat, k: nat)
    requires Tickets(accepted, tickets) && i < |accepted| && k < |accepted| && accepted[i].FlushMsg? && accepted[i] == accepted[k]
    ensures i == k
  {
    if i < k {
      FlushesGrow(accepted, i, k);
    } else if k < i {
      FlushesGrow(accepted, k, i);
    }
  }

  lemma AppendSplits(accepted: seq<Msg>, handled: seq<Handled>, hand: Option<Msg>, queue: seq<Msg>, m: Msg)
    requires Split(accepted, handled, hand, queue, [])
    ensures Split(accepted + [m], handled, hand, queue + [m], [])
  {
  }

  /** Putting a message into the queue of a live worker. */
  lemma AcceptKeeps(s: State, m: Msg, flushes: Flushes)
    requires WriterInv(s) && s.Alive() && s.open && |s.queue| < s.config.cap
    requires m.FlushMsg? ==> m.ticket == s.flushes.tickets
    requires flushes.replies == s.flushes.replies
    requires flushes.tickets == if m.FlushMsg? then s.flushes.tickets + 1 else s.flushes.tickets
    ensures WriterInv(Accept(s, m).(flushes := flushes))
  {
    AppendSplits(s.past.accepted, s.past.handled, s.inHand, s.queue, m);
    TicketsSnoc(s.past.accepted, s.flushes.tickets, m);
  }

  lemma UnavailableKeeps(s: State, error: Error)
    requires WriterInv(s)
    ensures WriterInv(Unavailable(s, error))
  {
    ErrorCounted(s.health, Queueing, error);
  }

  lemma DropKeeps(s: State)
    requires WriterInv(s) && (s.config.mode.Blocking? ==> !s.Alive() || !s.open)
    ensures WriterInv(DropEntry(s))
  {
    DropCounted(s.health);
  }

  lemma EnqueueKeeps(s: State, m: Msg)
    requires WriterInv(s) && !m.FlushMsg?
    ensures WriterInv(Enqueue(s, m))
  {
    if !s.open || !s.Alive() {
      DropKeeps(s);
      UnavailableKeeps(DropEntry(s), if s.open then NotAvailable else ShutDown);
    } else if |s.queue| < s.config.cap {
      AcceptKeeps(s, m, s.flushes);
    } else if s.config.mode.BestEffort? {
      DropKeeps(s);
    }
  }

  lemma RunIdKeeps(s: State, runId: string)
    requires WriterInv(s)
    ensures WriterInv(SendRunId(s, runId))
  {
    if !s.open || !s.Alive() {
      UnavailableKeeps(s, NotAvailable);
    } else if |s.queue| < s.config.cap {
      AcceptKeeps(s, RunId(runId), s.flushes);
    }
  }

  lemma FlushKeeps(s: State)
    requires WriterInv(s)
    ensures WriterInv(SendFlushMsg(s))
  {
    var f := s.flushes;
    if !s.open || !s.Alive() {
      UnavailableKeeps(s, if s.open then NotAvailable else ShutDown);
    } else if |s.queue| < s.config.cap {
      AcceptKeeps(s, FlushMsg(f.tickets), f.(tickets := f.tickets + 1, waiting := f.waiting + {f.tickets}));
    }
  }

  lemma AwaitKeeps(s: State, ticket: nat)
    requires WriterInv(s)
    ensures WriterInv(Await(s, ticket))
  {
    var f := s.flushes;
    UnavailableKeeps(s.(flushes := f.(waiting := f.waiting - {ticket})), NoAcknowledgement);
  }

  // ---------- the worker ----------

  lemma FailedCountSnoc(handled: seq<Handled>, h: Handled)
    ensures FailedCount(handled + [h]) == FailedCount(handled) + (if h.result.Failed? then 1 else 0)
  {
    assert (handled + [h])[..|handled|] == handled;
  }

  lemma FirstFailureSnoc(handled: seq<Handled>, h: Handled)
    ensures FirstFailure(handled + [h]) ==
      if h.msg.FlushMsg? then None
      else if FirstFailure(handled).Some? then FirstFailure(handled) else if h.result.Failed? then Some(|handled|) else None
  {
    assert (handled + [h])[..|handled|] == handled;
  }

  lemma OriginPrefix(handled: seq<Handled>, h: Handled, i: nat)
    requires i < |handled|
    ensures ReplyAt(handled + [h], i) == ReplyAt(handled, i)
  {
    assert (handled + [h])[..i] == handled[..i];
  }

  lemma AcknowledgedLater(handled: seq<Handled>, h: Handled, ticket: nat)
    requires Acknowledged(handled, ticket)
    ensures Acknowledged(handled + [h], ticket)
  {
    var i :| 0 <= i < |handled| && handled[i].msg == FlushMsg(ticket);
    assert (handled + [h])[i].msg == FlushMsg(ticket);
  }

  /** Answering anything but a flush leaves the replies as they are. */
  lemma AnswersOther(handled: seq<Handled>, replies: map<nat, IoResult>, h: Handled)
    requires Answers(handled, replies) && !h.msg.FlushMsg?
    ensures Answers(handled + [h], replies)
  {
    var longer := handled + [h];
    forall i | 0 <= i < |longer| && longer[i].msg.FlushMsg?
      ensures longer[i].msg.ticket in replies && replies[longer[i].msg.ticket] == ReplyAt(longer, i)
    {
      OriginPrefix(handled, h, i);
    }
    forall t | t in replies
      ensures Acknowledged(longer, t)
    {
      AcknowledgedLater(handled, h, t);
    }
  }

  lemma AnswersFlush(handled: seq<Handled>, replies: map<nat, IoResult>, h: Handled, reply: IoResult)
    requires Answers(handled, replies) && h.msg.FlushMsg?
    requires forall i :: 0 <= i < |handled| ==> handled[i].msg != h.msg
    requires reply == ReplyAt(handled + [h], |handled|)
    ensures Answers(handled + [h], replies[h.msg.ticket := reply])
  {
    var longer, replies' := handled + [h], replies[h.msg.ticket := reply];
    forall i | 0 <= i < |longer| && longer[i].msg.FlushMsg?
      ensures longer[i].msg.ticket in replies' && replies'[longer[i].msg.ticket] == ReplyAt(longer, i)
    {
      if i < |handled| {
        assert handled[i].msg != h.msg;
        OriginPrefix(handled, h, i);
      }
    }
    forall t | t in replies'
      ensures Acknowledged(longer, t)
    {
      if t == h.msg.ticket {
        assert longer[|handled|].msg == FlushMsg(t);
      } else {
        AcknowledgedLater(handled, h, t);
      }
    }
  }

  /** The message in hand was accepted after every message already handled. */
  lemma InHandIsNew(s: State)
    requires Conserves(s) && Tickets(s.past.accepted, s.flushes.tickets) && s.inHand.Some? && s.inHand.value.FlushMsg?
    ensures forall i :: 0 <= i < |s.past.handled| ==> s.past.handled[i].msg != s.inHand.value
  {
    forall i | 0 <= i < |s.past.handled|
      ensures s.past.handled[i].msg != s.inHand.value
    {
      assert s.past.accepted[i] == s.past.handled[i].msg;
      if s.past.handled[i].msg == s.inHand.value {
        TicketsUnique(s.past.accepted, s.flushes.tickets, i, |s.past.handled|);
      }
    }
  }

  /** The answer a flush gets is the one its position calls for. */
  lemma FlushReply(handled: seq<Handled>, pending: Option<Error>, h: Handled)
    requires Pending(handled, pending) && h.msg.FlushMsg?
    ensures (if pending.Some? then Failed(pending.value) else h.result) == ReplyAt(handled + [h], |handled|)
  {
    assert (handled + [h])[..|handled|] == handled;
  }

  lemma CompleteSplits(accepted: seq<Msg>, handled: seq<Handled>, h: Handled, queue: seq<Msg>, lost: seq<Msg>)
    requires Split(accepted, handled, Some(h.msg), queue, lost)
    ensures Split(accepted, handled + [h], None, queue, lost)
  {
  }

  lemma CompletePending(handled: seq<Handled>, pending: Option<Error>, h: Handled)
    requires Pending(handled, pending)
    ensures Pending(handled + [h], PendingAfter(pending, h))
  {
    FirstFailureSnoc(handled, h);
  }

  lemma CompleteAnswers(s: State, h: Handled)
    requires WriterInv(s) && s.inHand == Some(h.msg)
    ensures Answers(s.past.handled + [h], FlushesAfter(s.flushes, s.pending, h).replies)
  {
    if h.msg.FlushMsg? {
      InHandIsNew(s);
      FlushReply(s.past.handled, s.pending, h);
      AnswersFlush(s.past.handled, s.flushes.replies, h, if s.pending.Some? then Failed(s.pending.value) else h.result);
    } else {
      AnswersOther(s.past.handled, s.flushes.replies, h);
    }
  }

  lemma CompleteCounts(health: Health, past: Past, h: Handled, longer: seq<Handled>)
    requires Counted(health) && health.errors == Failures(past)
    requires FailedCount(longer) == FailedCount(past.handled) + (if h.result.Failed? then 1 else 0)
    ensures var health' := HealthAfter(health, h);
      && Counted(health') && health'.errors == Failures(past.(handled := longer)) && health'.drops == health.drops
  {
    if h.result.Failed? {
      ErrorCounted(health, OperationOn(h.msg), h.result.error);
    }
  }

  lemma CompleteKeeps(s: State, answer: IoResult)
    requires WriterInv(s) && s.inHand.Some?
    ensures WriterInv(Complete(s, s.inHand.value, answer))
  {
    var h := Answered(s.inHand.value, answer);
    CompleteAnswers(s, h);
    FailedCountSnoc(s.past.handled, h);
    CompleteCounts(s.health, s.past, h, s.past.handled + [h]);
    CompletePending(s.past.handled, s.pending, h);
    CompleteSplits(s.past.accepted, s.past.handled, h, s.queue, s.past.lost);
  }

  lemma ReceiveSplits(accepted: seq<Msg>, handled: seq<Handled>, queue: seq<Msg>, lost: seq<Msg>)
    requires queue != [] && Split(accepted, handled, None, queue, lost)
    ensures Split(accepted, handled, Some(queue[0]), queue[1..], lost)
  {
    var rest, q := queue[1..], |handled| + 1;
    forall i | 0 <= i < |rest|
      ensures accepted[q + i] == rest[i]
    {
      assert rest[i] == queue[i + 1];
    }
  }

  lemma ReceiveKeeps(s: State)
    requires WriterInv(s)
    ensures WriterInv(Step(s, Receive))
  {
    if s.Alive() && s.inHand.None? && s.queue != [] {
      ReceiveSplits(s.past.accepted, s.past.handled, s.queue, s.past.lost);
    }
  }

  lemma PanicSplits(accepted: seq<Msg>, handled: seq<Handled>, m: Msg, queue: seq<Msg>)
    requires Split(accepted, handled, Some(m), queue, [])
    ensures Split(accepted, handled, None, [], [m] + queue)
  {
    var lost := [m] + queue;
    forall i | 0 <= i < |lost|
      ensures accepted[|handled| + i] == lost[i]
    {
      if i > 0 {
        assert lost[i] == queue[i - 1];
      }
    }
  }

  lemma PanicKeeps(s: State)
    requires WriterInv(s)
    ensures WriterInv(Step(s, Panic))
  {
    ErrorCounted(s.health, Working, WorkerPanicked);
    if s.Alive() && s.inHand.Some? {
      PanicSplits(s.past.accepted, s.past.handled, s.inHand.value, s.queue);
    }
  }

  lemma ExitKeeps(s: State, result: IoResult)
    requires WriterInv(s)
    ensures WriterInv(Step(s, ShutdownFlush(result)))
  {
    if result.Failed? {
      ErrorCounted(s.health, FlushingAtShutdown, result.error);
    }
  }

  // ---------- all runs ----------

  lemma StepKeepsInv(s: State, a: Action)
    requires WriterInv(s)
    ensures WriterInv(Step(s, a))
  {
    match a
    case WriteScope(scope) => EnqueueKeeps(s, ScopeMsg(scope));
    case WriteRecord(record, scope) => EnqueueKeeps(s, RecordMsg(record, scope));
    case SetRunId(runId) => RunIdKeeps(s, runId);
    case SendFlush => FlushKeeps(s);
    case AwaitFlush(ticket) => AwaitKeeps(s, ticket);
    case Receive => ReceiveKeeps(s);
    case Finish(result) =>
      if s.Alive() && s.inHand.Some? {
        CompleteKeeps(s, result);
      }
    case Panic => PanicKeeps(s);
    case Close =>
    case ShutdownFlush(result) => ExitKeeps(s, result);
    case ClearDiagnostics => ClearCounted(s.health);
  }

  lemma {:induction false} RunKeepsInv(s: State, actions: seq<Action>)
    requires WriterInv(s)
    ensures WriterInv(RunFrom(s, actions))
  {
    if actions != [] {
      RunKeepsInv(s, actions[..|actions| - 1]);
      StepKeepsInv(RunFrom(s, actions[..|actions| - 1]), actions[|actions| - 1]);
    }
  }

  // ---------- safety over all runs ----------

  /** Some run of steps, from a writer that may have failed to start, leads here. */
  ghost predicate Reachable(s: State) {
    exists mode, metadata, cap, error, actions :: s == RunFrom(Spawn(mode, metadata, cap, error), actions)
  }

  lemma ReachableInv(s: State)
    requires Reachable(s)
    ensures WriterInv(s)
  {
    var mode, metadata, cap, error, actions :| s == RunFrom(Spawn(mode, metadata, cap, error), actions);
    SpawnInv(mode, metadata, cap, error);
    RunKeepsInv(Spawn(mode, metadata, cap, error), actions);
  }

  /**
   Whatever producers, worker and owner do: the queue stays within its capacity, a blocking queue drops nothing while
   its worker lives, and messages handled, in hand and queued are exactly those accepted, in order, unless the worker
   has panicked on a message. A worker that has left its loop has handled everything accepted.
   */
  lemma WriterSafety(s: State)
    requires Reachable(s)
    ensures 0 < s.config.cap && |s.queue| <= s.config.cap
    ensures s.config.mode.Blocking? && s.Alive() && s.open ==> s.health.drops == 0
    ensures Msgs(s.past.handled) + InHand(s) + s.queue == s.past.accepted <==> !s.past.ending.PanickedOn?
    ensures s.past.ending.Finished? || s.past.ending.PanickedLast? ==> Msgs(s.past.handled) == s.past.accepted
  {
    ReachableInv(s);
    SplitMeans(s);
  }

  lemma SplitMeans(s: State)
    requires Conserves(s)
    ensures Msgs(s.past.handled) + InHand(s) + s.queue == s.past.accepted <==> s.past.lost == []
    ensures s.inHand.None? && s.queue == [] && s.past.lost == [] ==> Msgs(s.past.handled) == s.past.accepted
  {
    var front := Msgs(s.past.handled) + InHand(s) + s.queue;
    assert |front| == |s.past.accepted| - |s.past.lost|;
    forall i | 0 <= i < |front|
      ensures front[i] == s.past.accepted[i]
    {
      var h, q := |s.past.handled|, |s.past.handled| + |InHand(s)|;
      if i >= q {
        assert front[i] == s.queue[i - q];
      } else if i < h {
        assert front[i] == s.past.handled[i].msg;
      }
    }
  }

  // ---------- every write is accounted for ----------

  lemma EntriesSnoc(msgs: seq<Msg>, m: Msg)
    ensures Entries(msgs + [m]) == Entries(msgs) + (if IsEntry(m) then 1 else 0)
  {
    assert (msgs + [m])[..|msgs|] == msgs;
  }

  /** The entry that an action offers to the queue of a writer with the given configuration. */
  predicate Offers(config: Config, a: Action) {
    a.WriteRecord? || (a.WriteScope? && config.metadata)
  }

  /** A blocked producer has not got past its send. */
  predicate Waits(s: State) {
    s.config.mode.Blocking? && s.open && s.Alive() && |s.queue| >= s.config.cap
  }

  /** The writes among `actions` whose call returned. */
  function Returned(s: State, actions: seq<Action>): nat {
    if actions == [] then 0
    else
      var n := |actions| - 1;
      var before := RunFrom(s, actions[..n]);
      Returned(s, actions[..n]) + (if Offers(before.config, actions[n]) && !Waits(before) then 1 else 0)
  }

  function Offered(config: Config, actions: seq<Action>): nat {
    if actions == [] then 0
    else Offered(config, actions[..|actions| - 1]) + (if Offers(config, actions[|actions| - 1]) then 1 else 0)
  }

  function Accounted(s: State): nat {
    Entries(s.past.accepted) + s.health.drops
  }

  lemma AcceptAccounts(s: State, m: Msg)
    ensures Accounted(Accept(s, m)) == Accounted(s) + (if IsEntry(m) then 1 else 0)
  {
    EntriesSnoc(s.past.accepted, m);
  }

  lemma EnqueueAccounts(s: State, m: Msg)
    requires IsEntry(m)
    ensures Enqueue(s, m).config == s.config
    ensures Accounted(Enqueue(s, m)) == Accounted(s) + (if Waits(s) then 0 else 1)
  {
    AcceptAccounts(s, m);
  }

  lemma SendAccounts(s: State, runId: string)
    ensures SendRunId(s, runId).config == s.config && SendFlushMsg(s).config == s.config
    ensures Accounted(SendRunId(s, runId)) == Accounted(s) && Accounted(SendFlushMsg(s)) == Accounted(s)
  {
    AcceptAccounts(s, RunId(runId));
    AcceptAccounts(s, FlushMsg(s.flushes.tickets));
  }

  lemma WorkAccounts(s: State, a: Action)
    requires a.AwaitFlush? || a.Receive? || a.Finish? || a.Panic? || a.Close? || a.ShutdownFlush? || a.ClearDiagnostics?
    ensures Step(s, a).config == s.config && Accounted(Step(s, a)) == Accounted(s)
  {
  }

  lemma StepAccounts(s: State, a: Action)
    ensures Step(s, a).config == s.config
    ensures Accounted(Step(s, a)) == Accounted(s) + (if Offers(s.config, a) && !Waits(s) then 1 else 0)
  {
    match a
    case WriteScope(scope) => EnqueueAccounts(s, ScopeMsg(scope));
    case WriteRecord(record, scope) => EnqueueAccounts(s, RecordMsg(record, scope));
    case SetRunId(runId) => SendAccounts(s, runId);
    case SendFlush => SendAccounts(s, "");
    case _ => WorkAccounts(s, a);
  }

  lemma {:induction false} RunAccounts(s: State, actions: seq<Action>)
    ensures var t := RunFrom(s, actions);
      && t.config == s.config
      && Accounted(t) == Accounted(s) + Returned(s, actions)
      && (s.config.mode.BestEffort? ==> Returned(s, actions) == Offered(s.config, actions))
  {
    if actions != [] {
      var n := |actions| - 1;
      RunAccounts(s, actions[..n]);
      StepAccounts(RunFrom(s, actions[..n]), actions[n]);
    }
  }

  /**
   Every write whose call returned was accepted or counted as dropped, and not both. Only blocking mode keeps
   producers waiting: a best-effort queue has decided on every write there was.
   */
  lemma EveryWriteCounted(mode: WriteMode, metadata: bool, cap: nat, error: Option<Error>, actions: seq<Action>)
    ensures var s0 := Spawn(mode, metadata, cap, error);
      var s := RunFrom(s0, actions);
      && Returned(s0, actions) == Entries(s.past.accepted) + s.health.drops
      && (mode.BestEffort? ==> Offered(s.config, actions) == Entries(s.past.accepted) + s.health.drops)
  {
    RunAccounts(Spawn(mode, metadata, cap, error), actions);
  }

  /** Messages that were queued when the worker panicked are gone, and no counter of dropped entries shows it. */
  lemma PanicLosesMessages(r: Record)
    ensures var write := WriteRecord(r, None);
      var s := RunFrom(Spawn(BestEffort, true, 2, None), [write, write, Receive, Panic]);
      && |s.past.accepted| == 2 && s.past.handled == [] && s.queue == []
      && s.health.dropped == 0 && s.health.failed == 1
  {
    var write, s0 := WriteRecord(r, None), Spawn(BestEffort, true, 2, None);
    var all := [write, write, Receive, Panic];
    assert all[..3] == [write, write, Receive] && all[..3][..2] == [write, write] && all[..3][..2][..1] == [write];
    assert RunFrom(s0, []) == s0;
    assert RunFrom(s0, [write]) == Step(s0, write);
    assert RunFrom(s0, [write, write]) == Step(Step(s0, write), write);
  }

  // ---------- flushes ----------

  /** No flush was handled from `j` up to, but not including, `i`. */
  ghost predicate SinceFlush(handled: seq<Handled>, j: nat, i: nat)
    requires j <= i <= |handled|
  {
    forall m :: j <= m < i ==> !handled[m].msg.FlushMsg?
  }

  lemma {:induction false} FirstFailureMeans(handled: seq<Handled>)
    ensures var k := FirstFailure(handled);
      && (k.Some? ==> SinceFlush(handled, k.value, |handled|))
      && (forall j :: 0 <= j < (if k.Some? then k.value else |handled|) && SinceFlush(handled, j, |handled|) ==> handled[j].result.Done?)
  {
    if handled != [] {
      var n := |handled| - 1;
      FirstFailureMeans(handled[..n]);
      var k := FirstFailure(handled);
      forall j | 0 <= j < (if k.Some? then k.value else |handled|) && SinceFlush(handled, j, |handled|)
        ensures handled[j].result.Done?
      {
        if j < n {
          assert SinceFlush(handled[..n], j, n);
        }
      }
    }
  }

  /** A flush reports the first failure since the previous flush, its own included, and nothing if there was none. */
  lemma OriginMeans(handled: seq<Handled>, i: nat)
    requires i < |handled|
    ensures var k := Origin(handled, i);
      && (k.Some? ==> SinceFlush(handled, k.value, i) && handled[k.value].result.Failed?)
      && (forall j :: 0 <= j <= i && SinceFlush(handled, j, i) && (k.Some? ==> j < k.value) ==> handled[j].result.Done?)
  {
    FirstFailureMeans(handled[..i]);
    var k := Origin(handled, i);
    forall j | 0 <= j <= i && SinceFlush(handled, j, i) && (k.Some? ==> j < k.value)
      ensures handled[j].result.Done?
    {
      if j < i {
        assert SinceFlush(handled[..i], j, i);
      }
    }
  }

  /** No failure is reported by two flushes. */
  lemma ReportedOnce(handled: seq<Handled>, i: nat, j: nat)
    requires i < |handled| && j < |handled| && handled[i].msg.FlushMsg? && handled[j].msg.FlushMsg?
    requires Origin(handled, i).Some? && Origin(handled, i) == Origin(handled, j)
    ensures i == j
  {
    OriginMeans(handled, i);
    OriginMeans(handled, j);
  }

  /**
   An acknowledged flush was handled after everything accepted before it, and its answer is the first failure since
   the previous flush, if any.
   */
  lemma FlushAcknowledged(s: State, ticket: nat) returns (i: nat)
    requires Reachable(s) && ticket in s.flushes.replies
    ensures i < |s.past.handled| && i < |s.past.accepted|
    ensures s.past.accepted[i] == FlushMsg(ticket) && Msgs(s.past.handled)[..i] == s.past.accepted[..i]
    ensures forall k :: 0 <= k < |s.past.accepted| && s.past.accepted[k] == FlushMsg(ticket) ==> k == i
    ensures s.flushes.replies[ticket] == ReplyAt(s.past.handled, i)
  {
    ReachableInv(s);
    assert Acknowledged(s.past.handled, ticket);
    i :| 0 <= i < |s.past.handled| && s.past.handled[i].msg == FlushMsg(ticket);
    assert s.past.accepted[i] == s.past.handled[i].msg;
    forall k | 0 <= k < |s.past.accepted| && s.past.accepted[k] == FlushMsg(ticket)
      ensures k == i
    {
      TicketsUnique(s.past.accepted, s.flushes.tickets, i, k);
    }
  }

  // ---------- counters between clears ----------

  lemma StepKeepsMarks(s: State, a: Action)
    requires !a.ClearDiagnostics?
    ensures var h := Step(s, a).health;
      && h.errorsCleared == s.health.errorsCleared && h.dropsCleared == s.health.dropsCleared
      && h.errors >= s.health.errors && h.drops >= s.health.drops
  {
  }

  ghost predicate NeverClears(actions: seq<Action>) {
    forall a :: a in actions ==> !a.ClearDiagnostics?
  }

  lemma {:induction false} MarksStay(s: State, actions: seq<Action>)
    requires NeverClears(actions)
    ensures var h := RunFrom(s, actions).health;
      && h.errorsCleared == s.health.errorsCleared && h.dropsCleared == s.health.dropsCleared
      && h.errors >= s.health.errors && h.drops >= s.health.drops
  {
    if actions != [] {
      var n := |actions| - 1;
      assert actions[n] in actions;
      MarksStay(s, actions[..n]);
      StepKeepsMarks(RunFrom(s, actions[..n]), actions[n]);
    }
  }

  lemma Cleared(s: State)
    requires Reachable(s)
    ensures var t := Step(s, ClearDiagnostics);
      && WriterInv(t) && t.past == s.past
      && t.health.drops == t.health.dropsCleared == s.health.drops && t.health.errorsCleared == Failures(s.past)
  {
    ReachableInv(s);
    StepKeepsInv(s, ClearDiagnostics);
  }

  /**
   The counters show each operation that failed after the first `errors`, exactly once, and each entry dropped after
   the first `drops`; there is a latest error exactly if one of those operations failed.
   */
  ghost predicate ShowsSince(h: Health, past: Past, drops: nat, errors: nat) {
    && drops <= h.drops && h.dropped == Count(h.drops - drops)
    && errors <= Failures(past) && h.failed == Count(Failures(past) - errors)
    && (h.lastError.Some? <==> Failures(past) > errors)
  }

  lemma CountedMeans(h: Health, past: Past)
    requires Counted(h) && h.errors == Failures(past)
    ensures ShowsSince(h, past, h.dropsCleared, h.errorsCleared)
  {
  }

  lemma RunCounts(s: State, actions: seq<Action>)
    requires WriterInv(s) && NeverClears(actions)
    ensures var t := RunFrom(s, actions); ShowsSince(t.health, t.past, s.health.dropsCleared, s.health.errorsCleared)
  {
    RunKeepsInv(s, actions);
    MarksStay(s, actions);
    CountedMeans(RunFrom(s, actions).health, RunFrom(s, actions).past);
  }

  lemma SpawnMarks(mode: WriteMode, metadata: bool, cap: nat, error: Option<Error>)
    ensures var h := Spawn(mode, metadata, cap, error).health; h.dropsCleared == 0 && h.errorsCleared == 0
  {
  }

  /**
   From one clear to the next, the failure counter shows each operation that failed in between exactly once, refused
   calls, worker panics and the flush at shutdown included, and the drop counter each dropped entry.
   */
  lemma BetweenClears(s: State, actions: seq<Action>)
    requires Reachable(s) && NeverClears(actions)
    ensures var t := RunFrom(Step(s, ClearDiagnostics), actions);
      ShowsSince(t.health, t.past, s.health.drops, Failures(s.past))
  {
    Cleared(s);
    RunCounts(Step(s, ClearDiagnostics), actions);
  }

  /** Before the first clear, the counters show everything since the writer was made, a failure to start included. */
  lemma BeforeFirstClear(mode: WriteMode, metadata: bool, cap: nat, error: Option<Error>, actions: seq<Action>)
    requires NeverClears(actions)
    ensures var t := RunFrom(Spawn(mode, metadata, cap, error), actions); ShowsSince(t.health, t.past, 0, 0)
  {
    SpawnInv(mode, metadata, cap, error);
    SpawnMarks(mode, metadata, cap, error);
    RunCounts(Spawn(mode, metadata, cap, error), actions);
  }
}
