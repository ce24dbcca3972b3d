/** The runtime's scope stacks as mutable state: entering, leaving, polling, and the guards of async scopes. */
module Runtime {
  import opened Core
  import opened ScopeContext

  /** What the code run by a poll does; unwinding from it at any point is running a shorter body. */
  datatype Move = EnterScope(id: ScopeId) | ExitScope(id: ScopeId) | PollFuture(f: FutureId, body: seq<Move>)

  lemma {:induction false} RemoveLastAt(s: Stack, id: ScopeId, k: nat)
    requires k < |s| && s[k] == id && forall i :: k < i < |s| ==> s[i] != id
    ensures RemoveLast(s, id) == s[..k] + s[k + 1..]
  {
    var n := |s| - 1;
    if k < n {
      RemoveLastAt(s[..n], id, k);
      assert s[..n][..k] == s[..k];
      assert s[..k] + s[..n][k + 1..] + [s[n]] == s[..k] + s[k + 1..];
    }
  }

  lemma {:induction false} RemoveAbsent(s: Stack, id: ScopeId)
    requires id !in s
    ensures RemoveLast(s, id) == s
  {
    if s != [] {
      RemoveAbsent(s[..|s| - 1], id);
    }
  }

  /** A poll never leaves the levels its caller is at. */
  lemma PollStays(start: Trace, inside: Trace, t: ThreadId, f: FutureId)
    requires Polling(start, inside, t, f)
    ensures Stays(Then(inside, End(t)), start, t, Nest(RunOf(start), t))
  {
    var nest := Nest(RunOf(start), t);
    PollRestores(start, inside, t, f);
    StaysBelow(inside, Then(start, Begin(t, f)), t, nest, [f]);
    StaysOn(inside, Then(start, Begin(t, f)), start, t, nest);
  }

  lemma InstalledKept(trace: Trace, t: ThreadId)
    requires Nest(RunOf(trace), t) != []
    ensures var nest := Nest(RunOf(trace), t); nest[|nest| - 1] in RunOf(trace).contexts
  {
    RunPlaced(trace);
    assert PlacedAt(RunOf(trace), t, |Nest(RunOf(trace), t)| - 1);
  }

  ghost predicate LastAt(s: Stack, id: ScopeId, k: nat) {
    k < |s| && s[k] == id && forall i :: k < i < |s| ==> s[i] != id
  }

  /** Exactly the last occurrence of `id` is gone, if there was one. */
  ghost predicate WithoutLast(s: Stack, id: ScopeId, t: Stack) {
    if id in s then exists k: nat :: LastAt(s, id, k) && t == s[..k] + s[k + 1..] else t == s
  }

  class ScopeStacks {
    var active: map<ThreadId, Stack>
    var contexts: map<FutureId, Stack>
    var nests: map<ThreadId, seq<FutureId>>
    // The futures that are mutably borrowed by a poll or a drop in progress.
    var installed: map<FutureId, (ThreadId, nat)>
    ghost var entries: seq<Entry>
    ghost var trace: Trace

    ghost function View(): World
      reads this
    {
      World(active, contexts, nests, installed, entries)
    }

    ghost predicate Valid()
      reads this
    {
      View() == RunOf(trace)
    }

    constructor ()
      ensures Valid() && trace == Begun
    {
      active, contexts, nests, installed, entries, trace := map[], map[], map[], map[], [], Begun;
    }

    /** No poll begins or ends, and no waiting future is touched. */
    twostate predicate SamePolls()
      reads this
    {
      nests == old(nests) && installed == old(installed) && contexts == old(contexts)
    }

    /** No other thread's stack changes. */
    twostate predicate OthersSame(t: ThreadId)
      reads this
    {
      forall u :: u != t ==> Stack(u) == old(Stack(u))
    }

    function Stack(t: ThreadId): ScopeContext.Stack
      reads this
    {
      if t in active then active[t] else []
    }

    /** The parent is whatever is on top of the thread's stack right now. */
    method Enter(t: ThreadId, id: ScopeId) returns (parent: Option<ScopeId>)
      requires Valid()
      modifies this
      ensures Valid() && trace == Then(old(trace), Action.Enter(t, id))
      ensures SamePolls()
      ensures parent == Top(Logical(old(trace), Current(old(View()), t))) == Top(old(Stack(t)))
      ensures entries == old(entries) + [Entry(Current(old(View()), t), id, parent)]
      ensures Stack(t) == old(Stack(t)) + [id] && OthersSame(t)
    {
      ActiveIsLogical(trace, t);
      parent := Top(Stack(t));
      entries := entries + [Entry(Current(View(), t), id, parent)];
      active := active[t := Stack(t) + [id]];
      trace := Then(trace, Action.Enter(t, id));
    }

    /** Usually the scope is on top; otherwise search down for its last occurrence. */
    method Exit(t: ThreadId, id: ScopeId)
      requires Valid()
      modifies this
      ensures Valid() && trace == Then(old(trace), Action.Exit(t, id)) && entries == old(entries)
      ensures SamePolls()
      ensures WithoutLast(old(Stack(t)), id, Stack(t)) && OthersSame(t)
    {
      var stack := Stack(t);
      var pos := |stack|;
      while pos > 0 && stack[pos - 1] != id
        invariant 0 <= pos <= |stack| && forall i :: pos <= i < |stack| ==> stack[i] != id
      {
        pos := pos - 1;
      }
      if pos > 0 {
        RemoveLastAt(stack, id, pos - 1);
        active := active[t := stack[..pos - 1] + stack[pos..]];
        assert LastAt(stack, id, pos - 1);
      } else {
        RemoveAbsent(stack, id);
        active := active[t := stack];
      }
      trace := Then(trace, Action.Exit(t, id));
    }

    method Wrap(f: FutureId, context: ScopeContext.Stack)
      requires Valid() && f !in contexts
      modifies this
      ensures Valid() && trace == Then(old(trace), Action.Wrap(f, context))
    {
      contexts := contexts[f := context];
      trace := Then(trace, Action.Wrap(f, context));
    }

    /** Swap the future's stack with the thread's. */
    method Install(t: ThreadId, f: FutureId)
      requires Valid() && CanBegin(View(), f)
      modifies this
      ensures Valid() && trace == Then(old(trace), Begin(t, f))
      ensures f in contexts && Nest(View(), t) == old(Nest(View(), t)) + [f]
      ensures Stack(t) == old(contexts[f]) && contexts == old(contexts)[f := old(Stack(t))]
      ensures OthersSame(t) && entries == old(entries)
    {
      var nest := if t in nests then nests[t] else [];
      installed := installed[f := (t, |nest|)];
      nests := nests[t := nest + [f]];
      active, contexts := active[t := contexts[f]], contexts[f := Stack(t)];
      trace := Then(trace, Begin(t, f));
    }

    /** The guard that installed `f` swaps the two stacks back. */
    method Restore(t: ThreadId, f: FutureId)
      requires Valid() && var nest := Nest(View(), t); nest != [] && nest[|nest| - 1] == f && f in contexts
      modifies this
      ensures Valid() && trace == Then(old(trace), End(t))
      ensures CanBegin(View(), f) && entries == old(entries)
      ensures Stack(t) == old(contexts[f]) && contexts == old(contexts)[f := old(Stack(t))] && OthersSame(t)
    {
      var nest := nests[t];
      installed := installed - {f};
      nests := nests[t := nest[..|nest| - 1]];
      active, contexts := active[t := contexts[f]], contexts[f := Stack(t)];
      trace := Then(trace, End(t));
    }

    /** What every call of a poll, or of the code run by one, keeps: the caller's level is never left. */
    twostate predicate Nested(t: ThreadId)
      reads this
    {
      && Stays(trace, old(trace), t, Nest(old(View()), t))
      && Nest(View(), t) == Nest(old(View()), t)
      && old(entries) <= entries
    }

    /** Poll or drop a wrapped future: the caller's stack is afterwards what it was before. */
    method Poll(t: ThreadId, f: FutureId, body: seq<Move>)
      requires Valid() && CanBegin(View(), f)
      modifies this
      ensures Valid() && Nested(t) && Stack(t) == old(Stack(t))
      decreases body, 1
    {
      ghost var start := trace;
      Install(t, f);
      Play(t, body);
      InstalledKept(trace, t);
      ghost var inside := trace;
      Restore(t, f);
      PollRestores(start, inside, t, f);
      PollStays(start, inside, t, f);
    }

    /** One move of a body; a future that is already being polled cannot be polled again. */
    method Act(t: ThreadId, move: Move)
      requires Valid()
      modifies this
      ensures Valid() && Nested(t)
      decreases move
    {
      match move {
        case EnterScope(id) =>
          var _ := Enter(t, id);
        case ExitScope(id) =>
          Exit(t, id);
        case PollFuture(f, body) =>
          if f in contexts && f !in installed {
            Poll(t, f, body);
          }
      }
    }

    method Play(t: ThreadId, body: seq<Move>)
      requires Valid()
      modifies this
      ensures Valid() && Nested(t)
      decreases body, 0
    {
      var i := 0;
      while i < |body|
        invariant i <= |body| && Valid() && Nested(t)
      {
        ghost var before := trace;
        Act(t, body[i]);
        StaysOn(trace, before, old(trace), t, old(Nest(View(), t)));
        i := i + 1;
      }
    }
  }

  // ---------- scopes around futures ----------

  /** How a future made by `scope_async` (no result) or `scope_async_result` ends; it may be dropped while unwinding. */
  datatype AsyncEnding = Completed | Resolved(ok: bool) | Panicked | Cancelled(unwinding: bool)

  function AsyncOutcome(ending: AsyncEnding): Outcome {
    match ending
    case Completed => Success
    case Resolved(ok) => if ok then Success else Failure
    case Panicked => Failure
    case Cancelled(unwinding) => if unwinding then Failure else Aborted
  }

  class RuntimeScopeGuard {
    const id: ScopeId
    var exited: bool
    // The exits passed on to the runtime.
    var exits: seq<Outcome>

    constructor (id: ScopeId)
      ensures this.id == id && !exited && exits == []
    {
      this.id, exited, exits := id, false, [];
    }

    method Exit(stacks: ScopeStacks, t: ThreadId, outcome: Outcome)
      requires stacks.Valid()
      modifies this, stacks
      ensures stacks.Valid() && exited
      ensures exits == if old(exited) then old(exits) else old(exits) + [outcome]
      ensures stacks.trace == if old(exited) then old(stacks.trace) else Then(old(stacks.trace), Action.Exit(t, id))
      ensures stacks.SamePolls() && stacks.entries == old(stacks.entries)
    {
      if !exited {
        stacks.Exit(t, id);
        exits := exits + [outcome];
        exited := true;
      }
    }

    /** The async guard exits first; the guard inside it is dropped right after and finds nothing left to do. */
    method DropAsync(stacks: ScopeStacks, t: ThreadId, panicking: bool)
      requires stacks.Valid()
      modifies this, stacks
      ensures stacks.Valid() && exited
      ensures exits == if old(exited) then old(exits) else old(exits) + [if panicking then Failure else Aborted]
      ensures stacks.trace == if old(exited) then old(stacks.trace) else Then(old(stacks.trace), Action.Exit(t, id))
      ensures stacks.SamePolls() && stacks.entries == old(stacks.entries)
    {
      Exit(stacks, t, if panicking then Failure else Aborted);
      Exit(stacks, t, if panicking then Failure else Success);
    }
  }

  /** What the guard of an async scope does in the poll that ends it, or when the future is dropped. */
  method EndAsync(guard: RuntimeScopeGuard, stacks: ScopeStacks, t: ThreadId, ending: AsyncEnding)
    requires stacks.Valid() && !guard.exited && guard.exits == []
    modifies guard, stacks
    ensures stacks.Valid() && guard.exits == [AsyncOutcome(ending)]
    ensures stacks.trace == Then(old(stacks.trace), Action.Exit(t, guard.id))
    ensures stacks.SamePolls() && stacks.entries == old(stacks.entries)
  {
    if ending.Completed? || ending.Resolved? {
      guard.Exit(stacks, t, AsyncOutcome(ending));
    }
    guard.DropAsync(stacks, t, ending.Panicked? || ending == Cancelled(true));
  }

  /** A future made by `scope_async` or `scope_async_result`: pending, and with a guard once it has been polled. */
  class AsyncScope {
    const stacks: ScopeStacks
    const f: FutureId
    const id: ScopeId
    var guard: RuntimeScopeGuard?

    ghost predicate Valid()
      reads this, stacks, guard
    {
      && stacks.Valid() && CanBegin(stacks.View(), f)
      && (guard != null ==> guard.id == id)
    }

    ghost predicate Pending()
      reads this, guard
    {
      guard != null ==> !guard.exited && guard.exits == []
    }

    constructor (stacks: ScopeStacks, f: FutureId, id: ScopeId)
      requires stacks.Valid() && CanBegin(stacks.View(), f)
      ensures Valid() && Pending() && guard == null
      ensures this.stacks == stacks && this.f == f && this.id == id
    {
      this.stacks, this.f, this.id, guard := stacks, f, id, null;
    }

    /** The scope is entered lazily, by the first poll, under the scope that is then current. */
    method Start(t: ThreadId)
      requires stacks.Valid() && Pending() && (guard != null ==> guard.id == id)
      modifies this, stacks
      ensures stacks.Valid() && Pending() && guard != null && guard.id == id
      ensures if old(guard) == null then fresh(guard) else guard == old(guard)
      ensures stacks.trace == if old(guard) == null then Then(old(stacks.trace), Action.Enter(t, id)) else old(stacks.trace)
      ensures stacks.entries == old(stacks.entries) +
        if old(guard) == null then [Entry(Current(old(stacks.View()), t), id, Top(old(stacks.Stack(t))))] else []
      ensures stacks.SamePolls()
    {
      if guard == null {
        var _ := stacks.Enter(t, id);
        guard := new RuntimeScopeGuard(id);
      }
    }

    /** The first poll enters the scope for the future, under the scope on top of the future's own stack. */
    twostate predicate Entered()
      reads this, stacks
    {
      && old(stacks.entries) <= stacks.entries
      && (old(guard) == null && f in old(stacks.contexts) ==>
            && |stacks.entries| > |old(stacks.entries)|
            && stacks.entries[|old(stacks.entries)|] == Entry(OfFuture(f), id, Top(old(stacks.contexts[f]))))
    }

    /** What every poll does before it restores the stacks. */
    method Resume(t: ThreadId, body: seq<Move>)
      requires Valid() && Pending()
      modifies this, stacks
      ensures stacks.Valid() && Pending() && guard != null && guard.id == id && Entered()
      ensures if old(guard) == null then fresh(guard) else guard == old(guard)
      ensures var nest := Nest(stacks.View(), t); nest != [] && nest[|nest| - 1] == f && f in stacks.contexts
    {
      stacks.Install(t, f);
      Start(t);
      stacks.Play(t, body);
      InstalledKept(stacks.trace, t);
    }

    method Poll(t: ThreadId, body: seq<Move>)
      requires Valid() && Pending()
      modifies this, stacks
      ensures Valid() && Pending() && guard != null && Entered()
      ensures if old(guard) == null then fresh(guard) else guard == old(guard)
    {
      Resume(t, body);
      stacks.Restore(t, f);
    }

    method LastPoll(t: ThreadId, body: seq<Move>, ending: AsyncEnding)
      requires Valid() && Pending()
      modifies this, stacks, guard
      ensures Valid() && guard != null && guard.exits == [AsyncOutcome(ending)] && Entered()
    {
      Resume(t, body);
      EndAsync(guard, stacks, t, ending);
      stacks.Restore(t, f);
    }

    method DropGuard(t: ThreadId, unwinding: bool)
      requires stacks.Valid() && Pending()
      modifies stacks, guard
      ensures stacks.Valid() && (guard != null ==> guard.exits == [AsyncOutcome(Cancelled(unwinding))])
      ensures guard == null ==> stacks.trace == old(stacks.trace)
      ensures stacks.SamePolls() && stacks.entries == old(stacks.entries)
    {
      if guard != null {
        EndAsync(guard, stacks, t, Cancelled(unwinding));
      }
    }

    /** Dropping a pending future runs its destructors with its own stack installed. */
    method Drop(t: ThreadId, unwinding: bool)
      requires Valid() && Pending()
      modifies stacks, guard
      ensures Valid() && (guard != null ==> guard.exits == [AsyncOutcome(Cancelled(unwinding))])
      ensures guard == null ==> stacks.trace == Then(Then(old(stacks.trace), Begin(t, f)), End(t))
      ensures stacks.entries == old(stacks.entries)
    {
      stacks.Install(t, f);
      DropGuard(t, unwinding);
      stacks.Restore(t, f);
    }

    method LivePolled(polls: seq<(ThreadId, seq<Move>)>, ending: AsyncEnding, dropper: ThreadId)
      requires Valid() && guard == null && polls != []
      modifies this, stacks
      ensures guard != null && guard.exits == [AsyncOutcome(ending)] && Entered()
    {
      var last := |polls| - 1;
      for i := 0 to last
        invariant Valid() && Pending() && (guard != null ==> fresh(guard))
        invariant if guard == null then stacks.contexts == old(stacks.contexts) && stacks.entries == old(stacks.entries) else Entered()
      {
        Poll(polls[i].0, polls[i].1);
      }
      if ending.Cancelled? {
        Poll(polls[last].0, polls[last].1);
        Drop(dropper, ending.unwinding);
      } else {
        LastPoll(polls[last].0, polls[last].1, ending);
      }
    }

    /**
     The whole life of an async scope: its scope is entered by the first poll, under the scope that was current where
     the future was made, and exited exactly once, in the last poll or by the drop, with the outcome that its ending
     calls for. A future that is never polled enters and exits nothing: it only has its stack installed and restored.
     */
    method Live(polls: seq<(ThreadId, seq<Move>)>, ending: AsyncEnding, dropper: ThreadId) returns (exits: seq<Outcome>)
      requires Valid() && guard == null
      modifies this, stacks
      ensures exits == if polls == [] then [] else [AsyncOutcome(ending)]
      ensures polls != [] && (ending == Completed || ending == Resolved(true)) ==> exits == [Success]
      ensures polls != [] && (ending == Resolved(false) || ending == Panicked || ending == Cancelled(true)) ==> exits == [Failure]
      ensures polls != [] && ending == Cancelled(false) ==> exits == [Aborted]
      ensures guard == null <==> polls == []
      ensures polls != [] ==> Entered()
      ensures polls == [] ==>
        && stacks.trace == Then(Then(old(stacks.trace), Begin(dropper, f)), End(dropper))
        && stacks.entries == old(stacks.entries)
    {
      if polls == [] {
        Drop(dropper, ending == Cancelled(true));
        return [];
      }
      LivePolled(polls, ending, dropper);
      exits := guard.exits;
    }
  }
}
