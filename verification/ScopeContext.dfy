/** Scope stacks of threads and of wrapped futures: swapped on every poll and drop, never mixed up. */
module ScopeContext {
  import opened Core

  type ThreadId = nat
  type FutureId = nat
  type Stack = seq<ScopeId>

  /** Whose scopes are being entered and left: a thread's own, or those of a wrapped future it is polling. */
  datatype Owner = OfThread(t: ThreadId) | OfFuture(f: FutureId)

  /** A scope entered with this parent. */
  datatype Entry = Entry(owner: Owner, id: ScopeId, parent: Option<ScopeId>)

  datatype World = World(
    // The thread-local stacks, empty where absent, and the stack stored in each wrapped future.
    active: map<ThreadId, Stack>,
    contexts: map<FutureId, Stack>,
    // Installed contexts per thread, innermost last, and where each of them is installed.
    nests: map<ThreadId, seq<FutureId>>,
    installed: map<FutureId, (ThreadId, nat)>,
    entries: seq<Entry>)

  const START := World(map[], map[], map[], map[], [])

  datatype Action =
    | Enter(t: ThreadId, id: ScopeId)
    | Exit(t: ThreadId, id: ScopeId)
    | Wrap(f: FutureId, context: Stack)
    | Begin(t: ThreadId, f: FutureId)
    | End(t: ThreadId)

  function Active(w: World, t: ThreadId): Stack {
    if t in w.active then w.active[t] else []
  }

  function Nest(w: World, t: ThreadId): seq<FutureId> {
    if t in w.nests then w.nests[t] else []
  }

  function Top(s: Stack): Option<ScopeId> {
    if s == [] then None else Some(s[|s| - 1])
  }

  /** Exits need not be in order: the last occurrence goes, wherever it is. */
  function RemoveLast(s: Stack, id: ScopeId): Stack {
    if s == [] then []
    else if s[|s| - 1] == id then s[..|s| - 1]
    else RemoveLast(s[..|s| - 1], id) + [s[|s| - 1]]
  }

  /** Who acts at level `i` of a thread: the thread at the bottom, then the futures it is polling inside each other. */
  function OwnerAt(w: World, t: ThreadId, i: nat): Owner
    requires i <= |Nest(w, t)|
  {
    if i == 0 then OfThread(t) else OfFuture(Nest(w, t)[i - 1])
  }

  function Current(w: World, t: ThreadId): Owner {
    OwnerAt(w, t, |Nest(w, t)|)
  }

  /** Borrowing rules out polling a future while it is being polled or dropped. */
  predicate CanBegin(w: World, f: FutureId) {
    f in w.contexts && f !in w.installed
  }

  function Step(w: World, a: Action): World {
    match a
    case Enter(t, id) =>
      w.(active := w.active[t := Active(w, t) + [id]], entries := w.entries + [Entry(Current(w, t), id, Top(Active(w, t)))])
    case Exit(t, id) => w.(active := w.active[t := RemoveLast(Active(w, t), id)])
    case Wrap(f, context) => if f in w.contexts then w else w.(contexts := w.contexts[f := context])
    case Begin(t, f) =>
      if !CanBegin(w, f) then w
      else
        var nest := Nest(w, t);
        w.(active := w.active[t := w.contexts[f]], contexts := w.contexts[f := Active(w, t)],
           nests := w.nests[t := nest + [f]], installed := w.installed[f := (t, |nest|)])
    case End(t) =>
      var nest := Nest(w, t);
      if nest == [] || nest[|nest| - 1] !in w.contexts then w
      else
        var f := nest[|nest| - 1];
        w.(active := w.active[t := w.contexts[f]], contexts := w.contexts[f := Active(w, t)],
           nests := w.nests[t := nest[..|nest| - 1]], installed := w.installed - {f})
  }

  /** What has happened so far, latest last. */
  datatype Trace = Begun | Then(before: Trace, a: Action)

  function RunOf(trace: Trace): World {
    if trace.Begun? then START else Step(RunOf(trace.before), trace.a)
  }

  // ---------- logical stacks ----------

  /** The effect of one step on the stack that belongs to `o`: only its own enters and exits, and its capture. */
  function Own(w: World, a: Action, o: Owner, s: Stack): Stack {
    match a
    case Enter(t, id) => if Current(w, t) == o then s + [id] else s
    case Exit(t, id) => if Current(w, t) == o then RemoveLast(s, id) else s
    case Wrap(f, context) => if o == OfFuture(f) && f !in w.contexts then context else s
    case _ => s
  }

  /** The captured stack of `o` with its own enters and exits applied, no matter what else happened. */
  function Logical(trace: Trace, o: Owner): Stack {
    if trace.Begun? then [] else Own(RunOf(trace.before), trace.a, o, Logical(trace.before, o))
  }

  /** Where the stack of the owner at level `i` is kept while the levels above it are active. */
  function Kept(w: World, t: ThreadId, i: nat): Option<Stack>
    requires i <= |Nest(w, t)|
  {
    if i == |Nest(w, t)| then Some(Active(w, t))
    else if Nest(w, t)[i] in w.contexts then Some(w.contexts[Nest(w, t)[i]])
    else None
  }

  predicate PlacedAt(w: World, t: ThreadId, i: nat)
    requires i < |Nest(w, t)|
  {
    var f := Nest(w, t)[i];
    f in w.contexts && f in w.installed && w.installed[f] == (t, i)
  }

  predicate Located(w: World, f: FutureId)
    requires f in w.installed
  {
    var (t, i) := w.installed[f];
    i < |Nest(w, t)| && Nest(w, t)[i] == f
  }

  /** A future is installed at one place at most. */
  ghost predicate Placed(w: World) {
    && (forall t: ThreadId, i: nat :: i < |Nest(w, t)| ==> PlacedAt(w, t, i))
    && (forall f :: f in w.installed ==> Located(w, f))
  }

  lemma OwnersDistinct(w: World, t: ThreadId, i: nat, t': ThreadId, i': nat)
    requires Placed(w) && i <= |Nest(w, t)| && i' <= |Nest(w, t')| && OwnerAt(w, t, i) == OwnerAt(w, t', i')
    ensures t == t' && i == i'
  {
    if i > 0 && i' > 0 {
      assert PlacedAt(w, t, i - 1) && PlacedAt(w, t', i' - 1);
    }
  }

  lemma BeginPlaced(w: World, t: ThreadId, f: FutureId)
    requires Placed(w)
    ensures Placed(Step(w, Begin(t, f)))
  {
    var w' := Step(w, Begin(t, f));
    if CanBegin(w, f) {
      forall t': ThreadId, i: nat | i < |Nest(w', t')|
        ensures PlacedAt(w', t', i)
      {
        if i < |Nest(w, t')| {
          assert PlacedAt(w, t', i);
        }
      }
      forall g | g in w'.installed
        ensures Located(w', g)
      {
        if g != f {
          assert Located(w, g);
        }
      }
    }
  }

  lemma EndPlaced(w: World, t: ThreadId)
    requires Placed(w)
    ensures Placed(Step(w, End(t)))
  {
    var w', nest := Step(w, End(t)), Nest(w, t);
    if nest != [] {
      assert PlacedAt(w, t, |nest| - 1);
      forall t': ThreadId, i: nat | i < |Nest(w', t')|
        ensures PlacedAt(w', t', i)
      {
        assert PlacedAt(w, t', i);
      }
      forall g | g in w'.installed
        ensures Located(w', g)
      {
        assert Located(w, g) && g != nest[|nest| - 1];
        var (t', i) := w.installed[g];
        assert t' == t ==> i < |nest| - 1;
      }
    }
  }

  lemma OtherPlaced(w: World, a: Action)
    requires Placed(w) && !a.Begin? && !a.End?
    ensures Placed(Step(w, a))
  {
    var w' := Step(w, a);
    forall t': ThreadId, i: nat | i < |Nest(w', t')|
      ensures PlacedAt(w', t', i)
    {
      assert PlacedAt(w, t', i);
    }
    forall g | g in w'.installed
      ensures Located(w', g)
    {
      assert Located(w, g);
    }
  }

  lemma {:induction false} RunPlaced(trace: Trace)
    ensures Placed(RunOf(trace))
  {
    if trace.Then? {
      var w := RunOf(trace.before);
      RunPlaced(trace.before);
      match trace.a
      case Begin(t, f) => BeginPlaced(w, t, f);
      case End(t) => EndPlaced(w, t);
      case _ => OtherPlaced(w, trace.a);
    }
  }

  // ---------- isolation ----------

  /** The stack kept for each level of each thread, and in each future at rest, is its owner's logical stack. */
  ghost predicate Isolated(trace: Trace) {
    var w := RunOf(trace);
    && (forall t: ThreadId, i: nat :: i <= |Nest(w, t)| ==> Kept(w, t, i) == Some(Logical(trace, OwnerAt(w, t, i))))
    && (forall f :: f in w.contexts && f !in w.installed ==> w.contexts[f] == Logical(trace, OfFuture(f)))
  }

  /** Entering and leaving scopes touches the stack of whoever is acting, and no other. */
  lemma ActIsolated(trace: Trace, a: Action)
    requires Isolated(trace) && (a.Enter? || a.Exit?)
    ensures Isolated(Then(trace, a))
  {
    var w, longer := RunOf(trace), Then(trace, a);
    var w' := Step(w, a);
    RunPlaced(trace);
    forall t: ThreadId, i: nat | i <= |Nest(w', t)|
      ensures Kept(w', t, i) == Some(Logical(longer, OwnerAt(w', t, i)))
    {
      var o := OwnerAt(w, t, i);
      assert Kept(w, t, i) == Some(Logical(trace, o));
      if o == Current(w, a.t) {
        OwnersDistinct(w, t, i, a.t, |Nest(w, a.t)|);
      }
    }
    forall f | f in w'.contexts && f !in w'.installed
      ensures w'.contexts[f] == Logical(longer, OfFuture(f))
    {
      RestingActsNot(w, f, a.t);
    }
  }

  lemma RestingActsNot(w: World, f: FutureId, t: ThreadId)
    requires Placed(w) && f !in w.installed
    ensures Current(w, t) != OfFuture(f)
  {
    if Nest(w, t) != [] {
      assert PlacedAt(w, t, |Nest(w, t)| - 1);
    }
  }

  lemma WrapIsolated(trace: Trace, f: FutureId, context: Stack)
    requires Isolated(trace)
    ensures Isolated(Then(trace, Wrap(f, context)))
  {
    var w, longer := RunOf(trace), Then(trace, Wrap(f, context));
    var w' := RunOf(longer);
    RunPlaced(trace);
    forall t: ThreadId, i: nat | i <= |Nest(w', t)|
      ensures Kept(w', t, i) == Some(Logical(longer, OwnerAt(w', t, i)))
    {
      WrapIsolatedAt(trace, f, context, t, i);
    }
  }

  lemma WrapIsolatedAt(trace: Trace, f: FutureId, context: Stack, t: ThreadId, i: nat)
    requires Isolated(trace) && Placed(RunOf(trace)) && i <= |Nest(RunOf(trace), t)|
    ensures var w, longer := RunOf(Then(trace, Wrap(f, context))), Then(trace, Wrap(f, context));
      Nest(w, t) == Nest(RunOf(trace), t) && Kept(w, t, i) == Some(Logical(longer, OwnerAt(w, t, i)))
  {
    var w := RunOf(trace);
    assert Kept(w, t, i) == Some(Logical(trace, OwnerAt(w, t, i)));
    if i > 0 {
      assert PlacedAt(w, t, i - 1);
    }
  }

  /** Installing a context swaps two stacks between their places; every owner keeps its own. */
  lemma BeginIsolated(trace: Trace, t: ThreadId, f: FutureId)
    requires Isolated(trace)
    ensures Isolated(Then(trace, Begin(t, f)))
  {
    var w, longer := RunOf(trace), Then(trace, Begin(t, f));
    var w' := RunOf(longer);
    RunPlaced(trace);
    forall t': ThreadId, i: nat | i <= |Nest(w', t')|
      ensures Kept(w', t', i) == Some(Logical(longer, OwnerAt(w', t', i)))
    {
      if i <= |Nest(w, t')| {
        assert Kept(w, t', i) == Some(Logical(trace, OwnerAt(w, t', i)));
        assert i < |Nest(w, t')| ==> PlacedAt(w, t', i);
      }
    }
  }

  lemma EndIsolated(trace: Trace, t: ThreadId)
    requires Isolated(trace)
    ensures Isolated(Then(trace, End(t)))
  {
    var w, longer := RunOf(trace), Then(trace, End(t));
    var w', nest := RunOf(longer), Nest(RunOf(trace), t);
    RunPlaced(trace);
    if nest != [] {
      var n := |nest| - 1;
      assert PlacedAt(w, t, n);
      assert Kept(w, t, n) == Some(Logical(trace, OwnerAt(w, t, n)));
      assert Kept(w, t, n + 1) == Some(Logical(trace, OwnerAt(w, t, n + 1)));
      forall t': ThreadId, i: nat | i <= |Nest(w', t')|
        ensures Kept(w', t', i) == Some(Logical(longer, OwnerAt(w', t', i)))
      {
        assert Kept(w, t', i) == Some(Logical(trace, OwnerAt(w, t', i)));
        assert i < |Nest(w, t')| ==> PlacedAt(w, t', i);
      }
    }
  }

  /**
   Under any interleaving of enters, exits, polls and drops, nested and migrating between threads in any way, every
   thread and every wrapped future finds its own stack whenever it acts: what it captured, with only its own enters and
   exits applied.
   */
  lemma {:induction false} Isolation(trace: Trace)
    ensures Isolated(trace)
  {
    if trace.Then? {
      Isolation(trace.before);
      match trace.a
      case Enter(_, _) => ActIsolated(trace.before, trace.a);
      case Exit(_, _) => ActIsolated(trace.before, trace.a);
      case Wrap(f, context) => WrapIsolated(trace.before, f, context);
      case Begin(t, f) => BeginIsolated(trace.before, t, f);
      case End(t) => EndIsolated(trace.before, t);
    }
  }

  // ---------- what follows ----------

  lemma ActiveIsLogical(trace: Trace, t: ThreadId)
    ensures var w := RunOf(trace); Active(w, t) == Logical(trace, Current(w, t))
  {
    Isolation(trace);
    var w := RunOf(trace);
    assert Kept(w, t, |Nest(w, t)|) == Some(Logical(trace, Current(w, t)));
  }

  /** Every scope is entered under the top of the logical stack of whoever enters it. */
  lemma ParentIsOwnTop(trace: Trace, t: ThreadId, id: ScopeId)
    ensures var w := RunOf(trace); var o := Current(w, t);
      RunOf(Then(trace, Enter(t, id))).entries == w.entries + [Entry(o, id, Top(Logical(trace, o)))]
  {
    ActiveIsLogical(trace, t);
  }

  /** `trace` continues `since`, and on the way thread `t` never left the levels `base`. */
  ghost predicate Stays(trace: Trace, since: Trace, t: ThreadId, base: seq<FutureId>) {
    && base <= Nest(RunOf(trace), t)
    && (trace == since || (trace.Then? && Stays(trace.before, since, t, base)))
  }

  lemma {:induction false} StaysOn(trace: Trace, middle: Trace, since: Trace, t: ThreadId, base: seq<FutureId>)
    requires Stays(trace, middle, t, base) && Stays(middle, since, t, base)
    ensures Stays(trace, since, t, base)
  {
    if trace != middle {
      StaysOn(trace.before, middle, since, t, base);
    }
  }

  lemma {:induction false} StaysBelow(trace: Trace, since: Trace, t: ThreadId, base: seq<FutureId>, more: seq<FutureId>)
    requires Stays(trace, since, t, base + more)
    ensures Stays(trace, since, t, base)
  {
    var nest := Nest(RunOf(trace), t);
    assert forall i :: 0 <= i < |base| ==> nest[i] == (base + more)[i];
    if trace != since {
      StaysBelow(trace.before, since, t, base, more);
    }
  }

  lemma WaitingStep(trace: Trace, a: Action, t: ThreadId, i: nat)
    requires i < |Nest(RunOf(trace), t)| && i < |Nest(RunOf(Then(trace, a)), t)|
    ensures var o := OwnerAt(RunOf(trace), t, i);
      OwnerAt(RunOf(Then(trace, a)), t, i) == o && Logical(Then(trace, a), o) == Logical(trace, o)
  {
    var w := RunOf(trace);
    var o := OwnerAt(w, t, i);
    RunPlaced(trace);
    if (a.Enter? || a.Exit?) && Current(w, a.t) == o {
      OwnersDistinct(w, a.t, |Nest(w, a.t)|, t, i);
    }
    if a.Wrap? && o == OfFuture(a.f) {
      assert PlacedAt(w, t, i - 1);
    }
  }

  /** Nobody acts for an owner whose thread is busy polling something on its behalf. */
  lemma {:induction false} WaitingIsUntouched(trace: Trace, since: Trace, t: ThreadId, base: seq<FutureId>, i: nat)
    requires Stays(trace, since, t, base) && i < |base|
    ensures i < |Nest(RunOf(since), t)| && i < |Nest(RunOf(trace), t)|
    ensures var o := OwnerAt(RunOf(since), t, i); OwnerAt(RunOf(trace), t, i) == o && Logical(trace, o) == Logical(since, o)
  {
    if trace != since {
      WaitingIsUntouched(trace.before, since, t, base, i);
      WaitingStep(trace.before, trace.a, t, i);
    }
  }

  /** `inside` continues a poll (or drop) of `f` by thread `t` that began after `start`, interleaved with anything else. */
  ghost predicate Polling(start: Trace, inside: Trace, t: ThreadId, f: FutureId) {
    var w := RunOf(start);
    && CanBegin(w, f) && Stays(inside, Then(start, Begin(t, f)), t, Nest(w, t) + [f])
    && Nest(RunOf(inside), t) == Nest(w, t) + [f]
  }

  /**
   A poll or a drop leaves the caller's stack exactly as it found it: whatever happens between installing the context
   and taking it out again, on this thread and on others, and however the poll ends.
   */
  lemma PollRestores(start: Trace, inside: Trace, t: ThreadId, f: FutureId)
    requires Polling(start, inside, t, f)
    ensures var w, w' := RunOf(start), RunOf(Then(inside, End(t)));
      && Nest(w', t) == Nest(w, t) && Active(w', t) == Active(w, t)
      && f in w'.contexts && w'.contexts[f] == Logical(inside, OfFuture(f))
  {
    var w, n := RunOf(start), |Nest(RunOf(start), t)|;
    WaitingIsUntouched(inside, Then(start, Begin(t, f)), t, Nest(w, t) + [f], n);
    ActiveIsLogical(start, t);
    ActiveIsLogical(inside, t);
    Isolation(inside);
    assert Kept(RunOf(inside), t, n) == Some(Logical(inside, OwnerAt(RunOf(inside), t, n)));
  }
}
