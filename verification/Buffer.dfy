/** The indexed retention store: deques of records and scopes addressed by logical position. */
module Buffer {
  import opened Core
  import opened PositionIndex
  import opened Retention

  const USIZE_MAX := U64_MAX

  // ---------- slots of the scope deque ----------

  type Entries = seq<Option<BufferedScope>>

  function SlotId(e: Option<BufferedScope>): Option<U64> {
    if e.Some? then Some(e.value.scope.id) else None
  }

  function SlotIds(entries: Entries): Slots {
    seq(|entries|, i requires 0 <= i < |entries| => SlotId(entries[i]))
  }

  predicate IsClosed(e: Option<BufferedScope>) {
    e.Some? && e.value.Closed()
  }

  /** The retained scopes, in insertion order. */
  function Present(entries: Entries): (s: seq<BufferedScope>)
    ensures |s| <= |entries|
  {
    if entries == [] then []
    else if entries[0].Some? then [entries[0].value] + Present(entries[1..])
    else Present(entries[1..])
  }

  predicate ClosedAt(entries: Entries, base: nat, key: nat) {
    base <= key < base + |entries| && IsClosed(entries[key - base])
  }

  ghost function ClosedKeys(entries: Entries, base: nat): set<nat> {
    set k: nat | k < base + |entries| && ClosedAt(entries, base, k)
  }

  lemma ClosedKeysAppend(entries: Entries, base: nat, e: Option<BufferedScope>)
    ensures ClosedKeys(entries + [e], base) == ClosedKeys(entries, base) + (if IsClosed(e) then {base + |entries|} else {})
  {
    var longer := entries + [e];
    forall k: nat
      ensures ClosedAt(longer, base, k) <==> ClosedAt(entries, base, k) || (k == base + |entries| && IsClosed(e))
    {
    }
  }

  lemma ClosedKeysUpdate(entries: Entries, base: nat, i: nat, e: Option<BufferedScope>)
    requires i < |entries|
    ensures ClosedKeys(entries[i := e], base) == ClosedKeys(entries, base) - {base + i} + (if IsClosed(e) then {base + i} else {})
  {
    var updated, key := entries[i := e], base + i;
    forall k: nat
      ensures ClosedAt(updated, base, k) <==> if k == key then IsClosed(e) else ClosedAt(entries, base, k)
    {
    }
  }

  lemma ClosedKeysDrop(entries: Entries, base: nat)
    requires entries != []
    ensures ClosedKeys(entries[1..], base + 1) == ClosedKeys(entries, base) - {base}
  {
    var rest, next := entries[1..], base + 1;
    forall k: nat
      ensures ClosedAt(rest, next, k) <==> ClosedAt(entries, base, k) && k != base
    {
    }
  }

  lemma {:induction false} PresentConcat(a: Entries, b: Entries)
    ensures Present(a + b) == Present(a) + Present(b)
  {
    if a == [] {
      assert a + b == b;
    } else {
      var head := if a[0].Some? then [a[0].value] else [];
      assert (a + b)[0] == a[0] && (a + b)[1..] == a[1..] + b;
      PresentConcat(a[1..], b);
      assert head + (Present(a[1..]) + Present(b)) == head + Present(a[1..]) + Present(b);
    }
  }

  lemma {:induction false} PresentMembers(entries: Entries, x: BufferedScope)
    ensures x in Present(entries) <==> Some(x) in entries
  {
    if entries != [] {
      PresentMembers(entries[1..], x);
      assert entries == [entries[0]] + entries[1..];
    }
  }

  /** Slot `k` is entry `|Present(entries[..k])|` of the sequence; replacing or emptying the slot does just that to it. */
  lemma PresentAt(entries: Entries, k: nat, e: Option<BufferedScope>)
    requires k < |entries| && entries[k].Some?
    ensures var a, b := Present(entries[..k]), Present(entries[k + 1..]);
      && Present(entries) == a + [entries[k].value] + b
      && Present(entries[k := e]) == a + (if e.Some? then [e.value] else []) + b
  {
    assert entries == entries[..k] + ([entries[k]] + entries[k + 1..]);
    assert entries[k := e] == entries[..k] + ([e] + entries[k + 1..]);
    PresentConcat(entries[..k], [entries[k]] + entries[k + 1..]);
    PresentConcat(entries[..k], [e] + entries[k + 1..]);
    assert ([entries[k]] + entries[k + 1..])[1..] == entries[k + 1..];
    assert ([e] + entries[k + 1..])[1..] == entries[k + 1..];
  }

  lemma FirstSlotIsFirstMatch(entries: Entries, k: int, id: ScopeId)
    requires FirstAt(SlotIds(entries), k, id)
    ensures FindScope(Present(entries), id) == Some(|Present(entries[..k])|)
    ensures entries[k].Some? && Present(entries)[|Present(entries[..k])|] == entries[k].value
  {
    var a, s := Present(entries[..k]), Present(entries);
    assert SlotIds(entries)[k] == SlotId(entries[k]);
    PresentAt(entries, k, None);
    assert s[|a|] == entries[k].value;
    forall j | 0 <= j < |a|
      ensures s[j].scope.id != id
    {
      assert s[j] == a[j];
      PresentMembers(entries[..k], a[j]);
      var i :| 0 <= i < k && entries[..k][i] == Some(a[j]);
      assert SlotIds(entries)[i] == SlotId(entries[i]);
    }
  }

  lemma NoSlotNoMatch(entries: Entries, id: ScopeId)
    requires Some(id) !in SlotIds(entries)
    ensures FindScope(Present(entries), id) == None
  {
    var s := Present(entries);
    forall j | 0 <= j < |s|
      ensures s[j].scope.id != id
    {
      PresentMembers(entries, s[j]);
      var i :| 0 <= i < |entries| && entries[i] == Some(s[j]);
      assert SlotIds(entries)[i] == SlotId(entries[i]);
    }
  }

  lemma {:induction false} ClosedKeysCount(entries: Entries, base: nat)
    ensures |ClosedKeys(entries, base)| == ClosedCount(Present(entries))
  {
    if entries == [] {
      assert ClosedKeys(entries, base) == {};
    } else {
      ClosedKeysCount(entries[1..], base + 1);
      ClosedKeysDrop(entries, base);
      assert ClosedAt(entries, base, base) == IsClosed(entries[0]);
      var rest := ClosedKeys(entries, base) - {base};
      assert ClosedKeys(entries, base) == rest + if IsClosed(entries[0]) then {base} else {};
      if entries[0].Some? {
        assert Present(entries)[1..] == Present(entries[1..]);
      } else {
        assert Present(entries) == Present(entries[1..]);
      }
    }
  }

  /** Emptying the first closed slot evicts the oldest closed scope. */
  lemma EvictSlot(entries: Entries, k: nat)
    requires k < |entries| && IsClosed(entries[k])
    requires forall j :: 0 <= j < k ==> !IsClosed(entries[j])
    ensures Present(entries[k := None]) == EvictOldest(Present(entries), 1)
    ensures |Present(entries[k := None])| == |Present(entries)| - 1
  {
    PresentAt(entries, k, None);
    var a, b := Present(entries[..k]), Present(entries[k + 1..]);
    forall y | y in a
      ensures !y.Closed()
    {
      PresentMembers(entries[..k], y);
      var i :| 0 <= i < k && entries[..k][i] == Some(y);
      assert !IsClosed(entries[i]);
    }
    EvictFirstClosed(a, entries[k].value, b);
    assert a + [] + b == a + b;
  }

  lemma {:induction false} LeastOf(s: set<nat>) returns (k: nat)
    requires s != {}
    ensures k in s && forall j :: j in s ==> k <= j
  {
    var x :| x in s;
    k := x;
    var rest := s - {x};
    assert forall j :: j in s ==> j == x || j in rest;
    if rest != {} {
      var y := LeastOf(rest);
      k := if x <= y then x else y;
    }
  }

  /** Slots, hash index, closed keys, base and length agree, and no logical key overflows. */
  ghost predicate Consistent(entries: Entries, byId: Index, exited: set<nat>, base: nat, len: nat) {
    && base + |entries| <= USIZE_MAX
    && Indexes(byId, base, SlotIds(entries))
    && exited == ClosedKeys(entries, base)
    && len == |Present(entries)|
  }

  lemma PushKeeps(entries: Entries, byId: Index, exited: set<nat>, base: nat, len: nat, entry: BufferedScope, key: nat)
    requires Consistent(entries, byId, exited, base, len) && key == base + |entries| < USIZE_MAX
    ensures Consistent(entries + [Some(entry)], Enter(byId, entry.scope.id, key),
                       exited + (if entry.Closed() then {key} else {}), base, len + 1)
    ensures Present(entries + [Some(entry)]) == Present(entries) + [entry]
  {
    EnterIndexes(byId, base, SlotIds(entries), entry.scope.id, key);
    SlotIdsPush(entries, entry);
    ClosedKeysAppend(entries, base, Some(entry));
    PresentPush(entries, entry);
  }

  lemma SlotIdsPush(entries: Entries, entry: BufferedScope)
    ensures |SlotIds(entries)| == |entries| && SlotIds(entries + [Some(entry)]) == SlotIds(entries) + [Some(entry.scope.id)]
  {
  }

  lemma PresentPush(entries: Entries, entry: BufferedScope)
    ensures Present(entries + [Some(entry)]) == Present(entries) + [entry]
  {
    PresentConcat(entries, [Some(entry)]);
  }

  lemma UpdateKeeps(entries: Entries, byId: Index, exited: set<nat>, base: nat, len: nat, k: nat, entry: BufferedScope)
    requires Consistent(entries, byId, exited, base, len)
    requires k < |entries| && FirstAt(SlotIds(entries), k, entry.scope.id)
    requires entries[k].Some? && (entries[k].value.Closed() ==> entry.Closed())
    ensures Consistent(entries[k := Some(entry)], byId, exited + (if entry.Closed() then {base + k} else {}), base, len)
    ensures var i := FindScope(Present(entries), entry.scope.id);
      i.Some? && Present(entries[k := Some(entry)]) == Present(entries)[i.value := entry]
  {
    PresentUpdate(entries, k, entry);
    SlotIdsUpdate(entries, k, entry);
    ClosedKeysUpdate(entries, base, k, Some(entry));
    assert ClosedAt(entries, base, base + k) ==> entry.Closed();
  }

  lemma SlotIdsUpdate(entries: Entries, k: nat, entry: BufferedScope)
    requires k < |entries| && SlotIds(entries)[k] == Some(entry.scope.id)
    ensures SlotIds(entries[k := Some(entry)]) == SlotIds(entries)
  {
  }

  lemma PresentUpdate(entries: Entries, k: nat, entry: BufferedScope)
    requires k < |entries| && entries[k].Some? && FirstAt(SlotIds(entries), k, entry.scope.id)
    ensures var i := FindScope(Present(entries), entry.scope.id);
      i.Some? && Present(entries[k := Some(entry)]) == Present(entries)[i.value := entry]
    ensures |Present(entries[k := Some(entry)])| == |Present(entries)|
  {
    FirstSlotIsFirstMatch(entries, k, entry.scope.id);
    PresentAt(entries, k, Some(entry));
  }

  lemma EvictKeeps(entries: Entries, byId: Index, exited: set<nat>, base: nat, len: nat, key: nat)
    requires Consistent(entries, byId, exited, base, len)
    requires key in exited && forall j :: j in exited ==> key <= j
    ensures ClosedAt(entries, base, key)
    ensures var id, vacated := entries[key - base].value.scope.id, entries[key - base := None];
      && id in byId && byId[id].count > 0 && (byId[id].count > 1 ==> Some(id) in SlotIds(vacated))
      && len > 0
      && Consistent(vacated, Leave(byId, base, SlotIds(vacated), id, key), exited - {key}, base, len - 1)
      && Present(vacated) == EvictOldest(Present(entries), 1)
  {
    assert ClosedAt(entries, base, key);
    var k := key - base;
    var id, vacated, slots := entries[k].value.scope.id, entries[k := None], SlotIds(entries);
    forall j | 0 <= j < k
      ensures !IsClosed(entries[j])
    {
      assert base + j !in exited;
      assert !ClosedAt(entries, base, base + j);
    }
    EvictSlot(entries, k);
    assert slots[k] == Some(id) && SlotIds(vacated) == slots[k := None];
    assert Describes(byId, base, slots, id);
    LeaveIsDefined(byId, base, slots, k, id);
    LeaveIndexes(byId, base, slots, k, id);
    ClosedKeysUpdate(entries, base, k, None);
  }

  lemma DropKeeps(entries: Entries, byId: Index, exited: set<nat>, base: nat, len: nat)
    requires Consistent(entries, byId, exited, base, len)
    requires entries != [] && entries[0].None?
    ensures Consistent(entries[1..], byId, exited, base + 1, len)
    ensures Present(entries[1..]) == Present(entries)
  {
    DropVacantFront(byId, base, SlotIds(entries));
    assert SlotIds(entries)[1..] == SlotIds(entries[1..]);
    ClosedKeysDrop(entries, base);
    assert !ClosedAt(entries, base, base);
  }

  lemma RebaseKeeps(byId: Index, exited: set<nat>, base: nat, len: nat)
    requires Consistent([], byId, exited, base, len)
    ensures Consistent([], byId, exited, 0, len)
  {
    var none := SlotIds([]);
    forall id: U64
      ensures Describes(byId, 0, none, id)
    {
      assert Describes(byId, base, none, id);
    }
    assert ClosedKeys([], base) == {} == ClosedKeys([], 0);
  }

  // ---------- scopes ----------

  datatype ScopeOp =
    | PushScope(entry: BufferedScope)
    | Finalize(id: ScopeId, millis: U64, instant: nat)
    | SetExitMessages(id: ScopeId, messages: ExitMessages)
    | TrimTo(max: nat)
    | ClearScopes

  datatype ScopeAnswer = Quiet | Found(ok: bool) | Exited(exit: Option<(Scope, nat)>)

  /** The plain-vector meaning of each operation. */
  function ApplyScopeOp(s: seq<BufferedScope>, op: ScopeOp): (seq<BufferedScope>, ScopeAnswer) {
    match op
    case PushScope(entry) => (s + [entry], Quiet)
    case Finalize(id, millis, instant) =>
      var i := ExitTarget(s, id);
      (CloseScope(s, id, millis, instant),
       Exited(if i.None? then None
              else Some((CloseEntry(s[i.value], millis, instant).scope, ExitDuration(s[i.value], millis, instant)))))
    case SetExitMessages(id, messages) => (SetMessages(s, id, messages), Found(FindScope(s, id).Some?))
    case TrimTo(max) => (TrimScopes(s, max), Quiet)
    case ClearScopes => ([], Quiet)
  }

  function ApplyScopeOps(s: seq<BufferedScope>, ops: seq<ScopeOp>): (seq<BufferedScope>, seq<ScopeAnswer>) {
    if ops == [] then (s, []) else
      var (before, answers) := ApplyScopeOps(s, ops[..|ops| - 1]);
      var (after, answer) := ApplyScopeOp(before, ops[|ops| - 1]);
      (after, answers + [answer])
  }

  /** How many scopes an operation evicts from `s`. */
  function EvictedBy(s: seq<BufferedScope>, op: ScopeOp): nat {
    if op.TrimTo? then SaturatingSub(ClosedCount(s), op.max) else 0
  }

  /** How many scopes a sequence of operations evicts, starting from nothing. */
  function TotalEvicted(ops: seq<ScopeOp>): nat {
    if ops == [] then 0
    else
      var init := ops[..|ops| - 1];
      TotalEvicted(init) + EvictedBy(ApplyScopeOps([], init).0, ops[|ops| - 1])
  }

  /** How many scopes are moved if these operations compact: each compaction moves everything then retained. */
  function TotalMoved(ops: seq<ScopeOp>, compactions: seq<bool>): nat
    requires |compactions| == |ops|
  {
    if ops == [] then 0
    else
      var n := |ops| - 1;
      TotalMoved(ops[..n], compactions[..n]) + (if compactions[n] then |ApplyScopeOps([], ops).0| else 0)
  }

  /** Some slots have been vacated, and nothing else has changed. */
  ghost predicate Vacated(before: Entries, now: Entries) {
    |now| == |before| && forall k :: 0 <= k < |now| && now[k].Some? ==> now[k] == before[k]
  }

  /** Every retained scope has kept its logical position. */
  ghost predicate InPlace(before: Entries, baseBefore: nat, now: Entries, base: nat) {
    forall k :: 0 <= k < |now| && now[k].Some? ==>
      0 <= base + k - baseBefore < |before| && before[base + k - baseBefore] == now[k]
  }

  lemma VacatedInPlace(before: Entries, base: nat, vacated: Entries)
    requires Vacated(before, vacated)
    ensures InPlace(before, base, vacated, base)
  {
  }

  lemma InPlaceChains(a: Entries, aBase: nat, b: Entries, bBase: nat, c: Entries, cBase: nat)
    requires InPlace(a, aBase, b, bBase) && InPlace(b, bBase, c, cBase)
    ensures InPlace(a, aBase, c, cBase)
  {
  }

  lemma TrimBound(s: seq<BufferedScope>, max: nat)
    ensures |TrimScopes(s, max)| <= |OpenOnly(TrimScopes(s, max))| + max
  {
    TrimLeavesAtMost(s, max);
    OpenOnlyIsOpen(TrimScopes(s, max));
  }

  lemma IndexNext(entries: Entries, key: nat, byId: Index, exited: set<nat>)
    requires key < |entries| <= USIZE_MAX && entries[key].Some?
    requires Consistent(entries[..key], byId, exited, 0, key)
    ensures var entry := entries[key].value;
      Consistent(entries[..key + 1], Enter(byId, entry.scope.id, key), exited + (if entry.Closed() then {key} else {}), 0, key + 1)
  {
    PushKeeps(entries[..key], byId, exited, 0, key, entries[key].value, key);
    assert entries[..key + 1] == entries[..key] + [Some(entries[key].value)];
  }

  /** The least key of an ordered set. */
  method First(keys: set<nat>) returns (key: nat)
    requires keys != {}
    ensures key in keys && forall j :: j in keys ==> key <= j
  {
    ghost var least := LeastOf(keys);
    key :| key in keys && forall j :: j in keys ==> key <= j;
  }

  class Scopes {
    var entries: Entries
    var byId: Index
    var exited: set<nat>
    var base: nat
    var len: nat
    // Scopes evicted, and scopes moved by the compactions of `Trim`, since construction.
    ghost var evicted: nat
    ghost var moved: nat

    ghost predicate Valid()
      reads this
    {
      && Consistent(entries, byId, exited, base, len)
      && moved + (|entries| - len) <= evicted
    }

    function Contents(): seq<BufferedScope>
      reads this
    {
      Present(entries)
    }

    constructor ()
      ensures Valid() && Contents() == [] && evicted == moved == 0
    {
      entries, byId, exited, base, len, evicted, moved := [], map[], {}, 0, 0, 0, 0;
    }

    /** The deque itself can never hold `usize::MAX` entries; nothing else is asked of the caller. */
    method Push(entry: BufferedScope)
      requires Valid() && |Contents()| < USIZE_MAX
      modifies this
      ensures Valid() && Contents() == old(Contents()) + [entry]
      ensures evicted == old(evicted) && moved == old(moved)
    {
      if base + |entries| >= USIZE_MAX {
        Compact();
      }
      var key := base + |entries|;
      PushKeeps(entries, byId, exited, base, len, entry, key);
      byId := Enter(byId, entry.scope.id, key);
      if entry.scope.exitedAt.Some? {
        exited := exited + {key};
      }
      entries := entries + [Some(entry)];
      len := len + 1;
    }

    /** `get` and `get_mut`: the slot of the first retained scope with `id`. */
    method Slot(id: ScopeId) returns (k: Option<nat>)
      requires Valid()
      ensures k.None? ==> FindScope(Contents(), id) == None
      ensures k.Some? ==> k.value < |entries| && FirstAt(SlotIds(entries), k.value, id)
      ensures k.Some? ==> id in byId && byId[id].first == base + k.value
    {
      assert Describes(byId, base, SlotIds(entries), id);
      if id in byId {
        k := Some(byId[id].first - base);
      } else {
        NoSlotNoMatch(entries, id);
        k := None;
      }
    }

    method Get(id: ScopeId) returns (r: Option<Scope>)
      requires Valid()
      ensures r == LookupScope(Contents(), id)
    {
      var k := Slot(id);
      if k.None? {
        return None;
      }
      FirstSlotIsFirstMatch(entries, k.value, id);
      r := Some(entries[k.value].value.scope);
    }

    /** Positional access skips vacant slots. */
    method GetAt(idx: nat) returns (r: Option<Scope>)
      requires Valid()
      ensures r == if idx < |Contents()| then Some(Contents()[idx].scope) else None
    {
      var s := Contents();
      if len == |entries| {
        FullIsPresent(entries);
        r := if idx < |entries| then Some(entries[idx].value.scope) else None;
      } else {
        r := if idx < |s| then Some(s[idx].scope) else None;
      }
    }

    /** Replace the scope in slot `k` by one with the same identifier. */
    method Update(k: nat, id: ScopeId, entry: BufferedScope)
      requires Valid() && k < |entries| && FirstAt(SlotIds(entries), k, id)
      requires entry.scope.id == id
      requires entries[k].Some? && (entries[k].value.Closed() ==> entry.Closed())
      modifies this`entries, this`exited
      ensures Valid()
      ensures FindScope(old(Contents()), id).Some?
      ensures Contents() == old(Contents())[FindScope(old(Contents()), id).value := entry]
      ensures entries == old(entries)[k := Some(entry)]
    {
      UpdateKeeps(entries, byId, exited, base, len, k, entry);
      entries := entries[k := Some(entry)];
      if entry.Closed() {
        exited := exited + {base + k};
      }
    }

    /** Exits at most once: a scope that is absent or already closed is left alone. */
    method FinalizeExit(id: ScopeId, millis: U64, instant: nat) returns (r: Option<(Scope, nat)>)
      requires Valid()
      modifies this
      ensures Valid() && evicted == old(evicted) && moved == old(moved)
      ensures ApplyScopeOp(old(Contents()), Finalize(id, millis, instant)) == (Contents(), Exited(r))
      ensures var s, i := old(Contents()), FindScope(old(Contents()), id);
        && (r.Some? <==> i.Some? && !s[i.value].Closed())
        && (r.None? ==> Contents() == s)
        && (r.Some? ==>
              && SameBut(s, Contents(), i.value) && r.value.0 == Contents()[i.value].scope
              && ClosedBy(s[i.value], Contents()[i.value], millis, instant, r.value.1))
    {
      var k := Slot(id);
      if k.None? {
        return None;
      }
      FirstSlotIsFirstMatch(entries, k.value, id);
      var entry := entries[k.value].value;
      if entry.scope.exitedAt.Some? {
        return None;
      }
      var elapsed := ExitDuration(entry, millis, instant);
      var closed := CloseEntry(entry, millis, instant);
      assert SlotIds(entries)[k.value] == SlotId(entries[k.value]);
      CloseEntryMeans(entry, millis, instant);
      Update(k.value, id, closed);
      r := Some((closed.scope, elapsed));
    }

    method SetScopeExitMessages(id: ScopeId, messages: ExitMessages) returns (ok: bool)
      requires Valid()
      modifies this
      ensures Valid() && evicted == old(evicted) && moved == old(moved)
      ensures ApplyScopeOp(old(Contents()), SetExitMessages(id, messages)) == (Contents(), Found(ok))
      ensures var s, i := old(Contents()), FindScope(old(Contents()), id);
        && (ok <==> i.Some?)
        && (!ok ==> Contents() == s)
        && (ok ==> SameBut(s, Contents(), i.value) && Relabelled(s[i.value], Contents()[i.value], messages))
    {
      var k := Slot(id);
      if k.None? {
        return false;
      }
      FirstSlotIsFirstMatch(entries, k.value, id);
      var entry := entries[k.value].value;
      var scope := entry.scope;
      if messages.success.Some? {
        scope := scope.(exitMessages := scope.exitMessages.(success := messages.success));
      }
      if messages.failure.Some? {
        scope := scope.(exitMessages := scope.exitMessages.(failure := messages.failure));
      }
      if messages.aborted.Some? {
        scope := scope.(exitMessages := scope.exitMessages.(aborted := messages.aborted));
      }
      assert SlotIds(entries)[k.value] == SlotId(entries[k.value]);
      Update(k.value, id, entry.(scope := scope));
      ok := true;
    }

    /** Squeeze out the vacant slots and rebuild both indexes from key zero. */
    method Compact()
      requires Valid()
      modifies this
      ensures Valid() && Contents() == old(Contents())
      ensures base == 0 && |entries| == len
      ensures len == old(len) && evicted == old(evicted) && moved == old(moved)
    {
      ghost var before := entries;
      entries := Retained(entries);
      RetainedPresent(before);
      base := 0;
      byId := map[];
      exited := {};
      var key := 0;
      while key < |entries|
        modifies this`byId, this`exited
        invariant key <= |entries|
        invariant Consistent(entries[..key], byId, exited, 0, key)
      {
        var scope := entries[key].value.scope;
        IndexNext(entries, key, byId, exited);
        byId := Enter(byId, scope.id, key);
        if scope.exitedAt.Some? {
          exited := exited + {key};
        }
        key := key + 1;
      }
      assert entries[..key] == entries;
    }

    /** One eviction: the least closed key. */
    method EvictOne()
      requires Valid() && exited != {}
      modifies this
      ensures Valid() && Contents() == EvictOldest(old(Contents()), 1)
      ensures |exited| == old(|exited|) - 1
      ensures Vacated(old(entries), entries) && base == old(base)
      ensures evicted == old(evicted) + 1 && moved == old(moved)
    {
      var key := First(exited);
      EvictKeeps(entries, byId, exited, base, len, key);
      var id, vacated := entries[key - base].value.scope.id, entries[key - base := None];
      byId := Leave(byId, base, SlotIds(vacated), id, key);
      entries, exited, len := vacated, exited - {key}, len - 1;
      evicted := evicted + 1;
    }

    method EvictTo(max: nat)
      requires Valid()
      modifies this
      ensures Valid() && Contents() == TrimScopes(old(Contents()), max)
      ensures InPlace(old(entries), old(base), entries, base) && base == old(base)
      ensures evicted == old(evicted) + SaturatingSub(ClosedCount(old(Contents())), max) && moved == old(moved)
    {
      ghost var start, n := Contents(), 0;
      ClosedKeysCount(entries, base);
      while |exited| > max
        invariant Valid()
        invariant Contents() == EvictOldest(start, n)
        invariant |exited| == ClosedCount(start) - n
        invariant n <= SaturatingSub(ClosedCount(start), max)
        invariant Vacated(old(entries), entries) && base == old(base)
        invariant evicted == old(evicted) + n && moved == old(moved)
        decreases |exited|
      {
        EvictOneMore(start, n);
        EvictOne();
        n := n + 1;
      }
      VacatedInPlace(old(entries), base, entries);
    }

    /**
     Evict the oldest closed scopes until at most `max` remain, release vacant front slots, and compact when more
     than half of over 64 slots are vacant.
     */
    method Trim(max: nat) returns (ghost compacted: bool)
      requires Valid()
      modifies this
      ensures Valid() && Contents() == TrimScopes(old(Contents()), max)
      ensures |entries| <= 64 || |entries| <= 2 * |Contents()|
      ensures |Contents()| <= |OpenOnly(Contents())| + max
      ensures evicted == old(evicted) + SaturatingSub(ClosedCount(old(Contents())), max)
      ensures moved == old(moved) + (if compacted then |Contents()| else 0)
      ensures !compacted ==> InPlace(old(entries), old(base), entries, base)
    {
      Vacate(max);
      compacted := false;
      if |entries| == 0 {
        RebaseKeeps(byId, exited, base, len);
        base := 0;
      } else if |entries| > 64 && |entries| - len > len {
        // Each vacant slot was paid for by one eviction, and they outnumber the scopes to be moved.
        Compact();
        moved := moved + len;
        compacted := true;
      }
    }

    /** Evict, and release vacant slots at the front, without moving anything. */
    method Vacate(max: nat)
      requires Valid()
      modifies this
      ensures Valid() && Contents() == TrimScopes(old(Contents()), max)
      ensures |Contents()| <= |OpenOnly(Contents())| + max
      ensures evicted == old(evicted) + SaturatingSub(ClosedCount(old(Contents())), max) && moved == old(moved)
      ensures InPlace(old(entries), old(base), entries, base)
    {
      TrimBound(Contents(), max);
      EvictTo(max);
      ghost var vacated, front := entries, base;
      DropVacant();
      InPlaceChains(old(entries), old(base), vacated, front, entries, base);
    }

    /** Release the vacant slots at the front of the deque. */
    method DropVacant()
      requires Valid()
      modifies this
      ensures Valid() && Contents() == old(Contents()) && len == old(len)
      ensures InPlace(old(entries), old(base), entries, base)
      ensures evicted == old(evicted) && moved == old(moved)
    {
      while entries != [] && entries[0].None?
        invariant Valid() && Contents() == old(Contents()) && len == old(len)
        invariant InPlace(old(entries), old(base), entries, base)
        invariant evicted == old(evicted) && moved == old(moved)
        decreases |entries|
      {
        DropKeeps(entries, byId, exited, base, len);
        entries := entries[1..];
        base := base + 1;
      }
    }

    method Clear()
      requires Valid()
      modifies this
      ensures Valid() && Contents() == []
      ensures evicted == old(evicted) && moved == old(moved)
    {
      entries, byId, exited, base, len := [], map[], {}, 0, 0;
    }

    method Perform(op: ScopeOp) returns (answer: ScopeAnswer, ghost compacted: bool)
      requires Valid() && (op.PushScope? ==> |Contents()| < USIZE_MAX)
      modifies this
      ensures Valid() && (Contents(), answer) == ApplyScopeOp(old(Contents()), op)
      ensures evicted == old(evicted) + EvictedBy(old(Contents()), op)
      ensures moved == old(moved) + (if compacted then |Contents()| else 0)
      ensures compacted ==> op.TrimTo?
      ensures op.TrimTo? && !compacted ==> InPlace(old(entries), old(base), entries, base)
    {
      compacted := false;
      match op {
        case PushScope(entry) => Push(entry); answer := Quiet;
        case Finalize(id, millis, instant) =>
          var exit := FinalizeExit(id, millis, instant);
          answer := Exited(exit);
        case SetExitMessages(id, messages) =>
          var ok := SetScopeExitMessages(id, messages);
          answer := Found(ok);
        case TrimTo(max) => compacted := Trim(max); answer := Quiet;
        case ClearScopes => Clear(); answer := Quiet;
      }
    }

    /** One more operation of a run. */
    method PerformNext(ops: seq<ScopeOp>, i: nat, answers: seq<ScopeAnswer>, ghost compactions: seq<bool>)
      returns (answers': seq<ScopeAnswer>, ghost compactions': seq<bool>)
      requires Valid() && i < |ops| < USIZE_MAX && Tally(ops[..i], Contents(), answers, compactions, evicted, moved)
      requires forall k :: 0 <= k < i && compactions[k] ==> ops[k].TrimTo?
      modifies this
      ensures Valid() && Tally(ops[..i + 1], Contents(), answers', compactions', evicted, moved)
      ensures forall k :: 0 <= k <= i && compactions'[k] ==> ops[k].TrimTo?
    {
      ghost var before, evictedBefore, movedBefore := Contents(), evicted, moved;
      var answer;
      ghost var compacted;
      answer, compacted := Perform(ops[i]);
      TallyOneMore(ops, i, compactions, compacted, before, answers, Contents(), answer, evictedBefore, movedBefore);
      answers', compactions' := answers + [answer], compactions + [compacted];
    }

    /**
     Any sequence of operations, whatever identifiers are repeated, answers and leaves behind exactly what the
     plain vector does; over the whole run compactions move no more scopes than the plain vector evicts.
     */
    method Run(ops: seq<ScopeOp>) returns (answers: seq<ScopeAnswer>, ghost compactions: seq<bool>)
      requires Valid() && Contents() == [] && evicted == moved == 0
      requires |ops| < USIZE_MAX
      modifies this
      ensures Valid() && (Contents(), answers) == ApplyScopeOps([], ops)
      ensures |compactions| == |ops| && forall i :: 0 <= i < |ops| && compactions[i] ==> ops[i].TrimTo?
      ensures evicted == TotalEvicted(ops) && moved == TotalMoved(ops, compactions)
      ensures TotalMoved(ops, compactions) <= TotalEvicted(ops)
    {
      answers, compactions := [], [];
      var i := 0;
      while i < |ops|
        invariant i <= |ops| && Valid()
        invariant Tally(ops[..i], Contents(), answers, compactions, evicted, moved)
        invariant forall k :: 0 <= k < i && compactions[k] ==> ops[k].TrimTo?
      {
        answers, compactions := PerformNext(ops, i, answers, compactions);
        i := i + 1;
      }
      assert ops[..i] == ops;
      assert |entries| >= len;
    }
  }

  /** What a run of operations has left, answered, evicted and moved. */
  ghost predicate Tally(ops: seq<ScopeOp>, contents: seq<BufferedScope>, answers: seq<ScopeAnswer>, compactions: seq<bool>,
                        evicted: nat, moved: nat) {
    && (contents, answers) == ApplyScopeOps([], ops)
    && |compactions| == |ops| && |contents| <= |ops|
    && evicted == TotalEvicted(ops) && moved == TotalMoved(ops, compactions)
  }

  lemma TallyOneMore(ops: seq<ScopeOp>, i: nat, compactions: seq<bool>, compacted: bool, before: seq<BufferedScope>,
                     answers: seq<ScopeAnswer>, after: seq<BufferedScope>, answer: ScopeAnswer, evicted: nat, moved: nat)
    requires i < |ops| && Tally(ops[..i], before, answers, compactions, evicted, moved)
    requires (after, answer) == ApplyScopeOp(before, ops[i])
    ensures Tally(ops[..i + 1], after, answers + [answer], compactions + [compacted],
                  evicted + EvictedBy(before, ops[i]), moved + (if compacted then |after| else 0))
  {
    assert ops[..i + 1][..i] == ops[..i];
    assert (compactions + [compacted])[..i] == compactions;
    ScopeOpGrowth(before, ops[i]);
  }

  function Retained(entries: Entries): (r: Entries)
    ensures forall e :: e in r ==> e.Some?
    ensures |r| <= |entries|
  {
    if entries == [] then []
    else if entries[0].Some? then [entries[0]] + Retained(entries[1..])
    else Retained(entries[1..])
  }

  lemma {:induction false} RetainedPresent(entries: Entries)
    ensures Present(Retained(entries)) == Present(entries)
    ensures |Retained(entries)| == |Present(entries)|
  {
    if entries != [] {
      RetainedPresent(entries[1..]);
      if entries[0].Some? {
        assert Retained(entries)[1..] == Retained(entries[1..]);
      }
    }
  }

  lemma {:induction false} FullIsPresent(entries: Entries)
    requires |Present(entries)| == |entries|
    ensures forall i :: 0 <= i < |entries| ==> entries[i] == Some(Present(entries)[i])
  {
    if entries != [] {
      assert |Present(entries[1..])| <= |entries| - 1;
      FullIsPresent(entries[1..]);
      forall i | 1 <= i < |entries|
        ensures entries[i] == Some(Present(entries)[i])
      {
        assert entries[i] == entries[1..][i - 1];
      }
    }
  }

  lemma ScopeOpGrowth(s: seq<BufferedScope>, op: ScopeOp)
    ensures |ApplyScopeOp(s, op).0| <= |s| + 1
  {
    if op.TrimTo? {
      TrimLeavesAtMost(s, op.max);
    }
  }

  // ---------- records ----------

  function RecordIds(entries: seq<Record>): Slots {
    seq(|entries|, i requires 0 <= i < |entries| => Some(entries[i].id))
  }

  lemma FirstRecordSlot(entries: seq<Record>, k: int, id: RecordId)
    requires FirstAt(RecordIds(entries), k, id)
    ensures FindRecord(entries, id) == Some(k)
  {
    assert RecordIds(entries)[k] == Some(entries[k].id);
    assert forall j :: 0 <= j < k ==> RecordIds(entries)[j] == Some(entries[j].id);
    assert forall j :: 0 <= j < k ==> entries[j].id != id;
  }

  lemma NoRecordSlot(entries: seq<Record>, id: RecordId)
    requires Some(id) !in RecordIds(entries)
    ensures FindRecord(entries, id) == None
  {
    assert forall j :: 0 <= j < |entries| ==> RecordIds(entries)[j] == Some(entries[j].id);
  }

  datatype RecordOp =
    | PushRecord(record: Record)
    | TrimRecordsTo(max: nat)
    | ClearRecords
    | Lookup(id: RecordId, between: seq<RecordOp>)

  /** The plain-vector meaning; `between` is what other threads do while a lookup holds no lock. */
  function ApplyRecordOp(s: seq<Record>, op: RecordOp): seq<Record>
    decreases op, 0
  {
    match op
    case PushRecord(record) => s + [record]
    case TrimRecordsTo(max) => TrimRecords(s, max)
    case ClearRecords => []
    case Lookup(_, between) => ApplyRecordOps(s, between)
  }

  function ApplyRecordOps(s: seq<Record>, ops: seq<RecordOp>): seq<Record>
    decreases ops, 1
  {
    if ops == [] then s else ApplyRecordOps(ApplyRecordOp(s, ops[0]), ops[1..])
  }

  /** How many pushes a sequence of operations performs. */
  function Pushes(ops: seq<RecordOp>): nat
    decreases ops, 1
  {
    if ops == [] then 0 else PushesOf(ops[0]) + Pushes(ops[1..])
  }

  function PushesOf(op: RecordOp): nat
    decreases op, 0
  {
    match op
    case PushRecord(_) => 1
    case Lookup(_, between) => Pushes(between)
    case _ => 0
  }

  /**
   The answers a plain vector could give: a lookup returns the first record with its identifier, as of its first
   or its last moment. Without interference the two moments coincide.
   */
  ghost predicate Explains(s: seq<Record>, ops: seq<RecordOp>, answers: seq<Option<Record>>)
    decreases |ops|
  {
    if ops == [] then answers == []
    else
      var after := ApplyRecordOp(s, ops[0]);
      && answers != []
      && (ops[0].Lookup? ==> answers[0] == LookupRecord(s, ops[0].id) || answers[0] == LookupRecord(after, ops[0].id))
      && Explains(after, ops[1..], answers[1..])
  }

  class Records {
    var entries: seq<Record>
    var byId: Option<Index>
    var base: nat

    ghost predicate Valid()
      reads this
    {
      && base + |entries| <= USIZE_MAX
      && (byId.Some? ==> Indexes(byId.value, base, RecordIds(entries)))
    }

    constructor ()
      ensures Valid() && entries == []
    {
      entries, byId, base := [], None, 0;
    }

    method Push(record: Record)
      requires Valid() && |entries| < USIZE_MAX
      modifies this
      ensures Valid() && entries == old(entries) + [record]
      ensures byId.Some? == old(byId.Some?)
    {
      if base + |entries| >= USIZE_MAX {
        Reindex();
      }
      var key := base + |entries|;
      if byId.Some? {
        EnterIndexes(byId.value, base, RecordIds(entries), record.id, key);
        byId := Some(Enter(byId.value, record.id, key));
      }
      assert RecordIds(entries + [record]) == RecordIds(entries) + [Some(record.id)];
      entries := entries + [record];
    }

    method Reindex()
      requires Valid()
      modifies this`base, this`byId
      ensures Valid() && base == 0 && byId.Some? == old(byId.Some?)
    {
      base := 0;
      if byId.Some? {
        BuildIndex();
      }
    }

    method BuildIndex()
      requires base + |entries| <= USIZE_MAX
      modifies this`byId
      ensures Valid() && byId.Some?
    {
      var index: Index := map[];
      var key := 0;
      while key < |entries|
        invariant key <= |entries|
        invariant Indexes(index, base, RecordIds(entries[..key]))
      {
        EnterIndexes(index, base, RecordIds(entries[..key]), entries[key].id, base + key);
        assert RecordIds(entries[..key + 1]) == RecordIds(entries[..key]) + [Some(entries[key].id)];
        index := Enter(index, entries[key].id, base + key);
        key := key + 1;
      }
      assert entries[..key] == entries;
      byId := Some(index);
    }

    method Trim(max: nat)
      requires Valid()
      modifies this
      ensures Valid() && entries == TrimRecords(old(entries), max) && byId.Some? == old(byId.Some?)
      ensures |entries| == Min(max, |old(entries)|)
      ensures forall k :: 0 <= k < |entries| ==> entries[k] == old(entries)[|old(entries)| - |entries| + k]
    {
      while |entries| > max
        invariant Valid() && byId.Some? == old(byId.Some?)
        invariant |entries| <= |old(entries)| && entries == old(entries)[|old(entries)| - |entries|..]
        invariant |entries| >= Min(max, |old(entries)|)
        decreases |entries|
      {
        PopFront();
      }
      if |entries| == 0 {
        if byId.Some? {
          assert RecordIds(entries) == [];
          RebaseEmptyIndex(byId.value, base);
        }
        base := 0;
      }
    }

    method PopFront()
      requires Valid() && entries != []
      modifies this
      ensures Valid() && entries == old(entries)[1..] && byId.Some? == old(byId.Some?)
    {
      var record := entries[0];
      var slots := RecordIds(entries);
      entries := entries[1..];
      assert slots[0 := None][1..] == RecordIds(entries);
      base := base + 1;
      if byId.Some? {
        var index := PopIndex(byId.value, base - 1, slots, record.id);
        byId := Some(index);
      }
    }

    /** The first of several equal identifiers leaves its place to the next one. */
    method PopIndex(index: Index, front: nat, slots: Slots, id: RecordId) returns (popped: Index)
      requires Indexes(index, front, slots) && slots != [] && slots[0] == Some(id)
      ensures Indexes(popped, front + 1, slots[0 := None][1..])
    {
      PopKeeps(index, front, slots, id);
      var position := index[id];
      if position.count == 1 {
        popped := index - {id};
      } else {
        popped := index[id := Position(front + 1 + FirstSlot(slots[0 := None][1..], id), position.count - 1)];
      }
    }

    method Clear()
      requires Valid()
      modifies this
      ensures Valid() && entries == [] && byId.Some? == old(byId.Some?)
    {
      entries, base := [], 0;
      if byId.Some? {
        byId := Some(map[]);
      }
    }

    /** The read-locked attempt of a lookup: nothing is known before the index exists. */
    method Probe(id: RecordId) returns (hit: Option<Option<Record>>)
      requires Valid()
      ensures hit.Some? == byId.Some?
      ensures hit.Some? ==> hit.value == LookupRecord(entries, id)
    {
      if byId.None? {
        return None;
      }
      assert Describes(byId.value, base, RecordIds(entries), id);
      if id !in byId.value {
        NoRecordSlot(entries, id);
        return Some(None);
      }
      FirstRecordSlot(entries, byId.value[id].first - base, id);
      hit := Some(Some(entries[byId.value[id].first - base]));
    }

    /** The write-locked rest of a lookup; another thread may have built the index in the meantime. */
    method LookupBuilding(id: RecordId) returns (r: Option<Record>)
      requires Valid()
      modifies this`byId
      ensures Valid() && r == LookupRecord(entries, id)
    {
      if byId.None? {
        BuildIndex();
      }
      var hit := Probe(id);
      r := hit.value;
    }

    method GetRecordById(id: RecordId, between: seq<RecordOp>) returns (r: Option<Record>)
      requires Valid() && |entries| + Pushes(between) < USIZE_MAX
      modifies this
      ensures Valid() && entries == ApplyRecordOps(old(entries), between)
      ensures r == LookupRecord(old(entries), id) || r == LookupRecord(entries, id)
      ensures |entries| <= |old(entries)| + Pushes(between)
      decreases between, 2
    {
      var hit := Probe(id);
      var _ := Run(between);
      if hit.Some? {
        r := hit.value;
      } else {
        r := LookupBuilding(id);
      }
    }

    method Perform(op: RecordOp) returns (answer: Option<Record>)
      requires Valid() && |entries| + PushesOf(op) < USIZE_MAX
      modifies this
      ensures Valid() && entries == ApplyRecordOp(old(entries), op)
      ensures op.Lookup? ==> answer == LookupRecord(old(entries), op.id) || answer == LookupRecord(entries, op.id)
      ensures |entries| <= |old(entries)| + PushesOf(op)
      decreases op, 0
    {
      answer := None;
      match op {
        case PushRecord(record) => Push(record);
        case TrimRecordsTo(max) => Trim(max);
        case ClearRecords => Clear();
        case Lookup(id, between) => answer := GetRecordById(id, between);
      }
    }

    /** Whether and when the index gets built cannot be observed through any sequence of operations. */
    method Run(ops: seq<RecordOp>) returns (answers: seq<Option<Record>>)
      requires Valid() && |entries| + Pushes(ops) < USIZE_MAX
      modifies this
      ensures Valid() && entries == ApplyRecordOps(old(entries), ops)
      ensures Explains(old(entries), ops, answers)
      ensures |entries| <= |old(entries)| + Pushes(ops)
      decreases ops, 1
    {
      if ops == [] {
        return [];
      }
      var answer := Perform(ops[0]);
      var rest := Run(ops[1..]);
      answers := [answer] + rest;
      assert answers[1..] == rest;
    }
  }

  lemma RebaseEmptyIndex(index: Index, base: nat)
    requires Indexes(index, base, [])
    ensures Indexes(index, 0, [])
  {
    var none: Slots := [];
    forall id: U64
      ensures Describes(index, 0, none, id)
    {
      assert Describes(index, base, none, id);
    }
  }

  /** Popping the front record: its position is the first one, so the index must look for the next duplicate. */
  lemma PopKeeps(index: Index, base: nat, slots: Slots, id: U64)
    requires Indexes(index, base, slots)
    requires slots != [] && slots[0] == Some(id)
    ensures var rest := slots[0 := None][1..];
      && id in index && index[id].count > 0
      && (index[id].count == 1 ==> Indexes(index - {id}, base + 1, rest))
      && (index[id].count > 1 ==>
            && Some(id) in rest
            && Indexes(index[id := Position(base + 1 + FirstSlot(rest, id), index[id].count - 1)], base + 1, rest))
  {
    assert Describes(index, base, slots, id);
    LeaveIsDefined(index, base, slots, 0, id);
    LeaveIndexes(index, base, slots, 0, id);
    var vacated := slots[0 := None];
    var left := Leave(index, base, vacated, id, base);
    DropVacantFront(left, base, vacated);
    assert FirstAt(slots, 0, id) && index[id].first == base;
    if index[id].count > 1 {
      assert Some(id) in vacated;
      var k := FirstSlot(vacated, id);
      assert vacated[1..][k - 1] == Some(id);
      assert FirstSlot(vacated, id) == 1 + FirstSlot(vacated[1..], id);
    }
  }
}
