/**
 The plain vectors that the indexed buffer must be indistinguishable from: linear search for the first
 match, and removal of the oldest closed entries.
 */
module Retention {
  import opened Core

  datatype ScopeClock = ScopeClock(startedAt: nat, finished: Option<nat>)

  /** A retained scope with its monotonic clock, in nanoseconds. */
  datatype BufferedScope = BufferedScope(scope: Scope, clock: Option<ScopeClock>) {
    predicate Closed() {
      scope.exitedAt.Some?
    }
  }

  // ---------- linear search ----------

  function FindScope(s: seq<BufferedScope>, id: ScopeId): (r: Option<nat>)
    ensures r.Some? ==> r.value < |s| && s[r.value].scope.id == id && forall j :: 0 <= j < r.value ==> s[j].scope.id != id
    ensures r.None? ==> forall j :: 0 <= j < |s| ==> s[j].scope.id != id
  {
    if s == [] then None
    else if s[0].scope.id == id then Some(0)
    else
      var r := FindScope(s[1..], id);
      assert forall j :: 1 <= j < |s| ==> s[j] == s[1..][j - 1];
      if r.None? then None else Some(r.value + 1)
  }

  function LookupScope(s: seq<BufferedScope>, id: ScopeId): Option<Scope> {
    var r := FindScope(s, id);
    if r.None? then None else Some(s[r.value].scope)
  }

  function FindRecord(s: seq<Record>, id: RecordId): (r: Option<nat>)
    ensures r.Some? ==> r.value < |s| && s[r.value].id == id && forall j :: 0 <= j < r.value ==> s[j].id != id
    ensures r.None? ==> forall j :: 0 <= j < |s| ==> s[j].id != id
  {
    if s == [] then None
    else if s[0].id == id then Some(0)
    else
      var r := FindRecord(s[1..], id);
      assert forall j :: 1 <= j < |s| ==> s[j] == s[1..][j - 1];
      if r.None? then None else Some(r.value + 1)
  }

  function LookupRecord(s: seq<Record>, id: RecordId): Option<Record> {
    var r := FindRecord(s, id);
    if r.None? then None else Some(s[r.value])
  }

  // ---------- updates ----------

  function SaturatingSub(a: nat, b: nat): nat {
    if a >= b then a - b else 0
  }

  /** The frozen duration of a scope that exits at wall-clock `millis` and monotonic `instant`. */
  function ExitDuration(entry: BufferedScope, millis: U64, instant: nat): nat {
    if entry.clock.Some? then SaturatingSub(instant, entry.clock.value.startedAt)
    else SaturatingSub(millis, entry.scope.enteredAt) * 1_000_000
  }

  function CloseEntry(entry: BufferedScope, millis: U64, instant: nat): BufferedScope {
    BufferedScope(
      entry.scope.(exitedAt := Some(millis)),
      if entry.clock.Some? then Some(entry.clock.value.(finished := Some(ExitDuration(entry, millis, instant)))) else None)
  }

  /**
   An exit as the clocks tell it: the exit time is the wall clock's; the duration is the time since the start on the
   monotonic clock, or on the wall clock, in milliseconds, for a scope that came without one, and never negative; a
   clock keeps the duration for good.
   */
  ghost predicate ClosedBy(before: BufferedScope, after: BufferedScope, millis: U64, instant: nat, elapsed: nat) {
    && after.scope == before.scope.(exitedAt := Some(millis))
    && (before.clock.Some? ==>
          && after.clock == Some(ScopeClock(before.clock.value.startedAt, Some(elapsed)))
          && before.clock.value.startedAt + elapsed == if instant < before.clock.value.startedAt then before.clock.value.startedAt else instant)
    && (before.clock.None? ==>
          && after.clock == None
          && before.scope.enteredAt * 1_000_000 + elapsed ==
             (if millis < before.scope.enteredAt then before.scope.enteredAt else millis) * 1_000_000)
  }

  lemma CloseEntryMeans(entry: BufferedScope, millis: U64, instant: nat)
    ensures ClosedBy(entry, CloseEntry(entry, millis, instant), millis, instant, ExitDuration(entry, millis, instant))
  {
  }

  ghost predicate SameBut(s: seq<BufferedScope>, t: seq<BufferedScope>, i: nat) {
    i < |s| == |t| && forall k :: 0 <= k < |s| && k != i ==> t[k] == s[k]
  }

  /** Given messages replace earlier ones, absent ones leave them, and nothing else changes. */
  ghost predicate Relabelled(before: BufferedScope, after: BufferedScope, messages: ExitMessages) {
    var old_, now := before.scope.exitMessages, after.scope.exitMessages;
    && after == before.(scope := before.scope.(exitMessages := now))
    && now.success == (if messages.success.Some? then messages.success else old_.success)
    && now.failure == (if messages.failure.Some? then messages.failure else old_.failure)
    && now.aborted == (if messages.aborted.Some? then messages.aborted else old_.aborted)
  }

  /** Exiting the first scope with `id` succeeds exactly when there is one and it is still open. */
  function ExitTarget(s: seq<BufferedScope>, id: ScopeId): (r: Option<nat>)
    ensures r.Some? ==> r.value < |s|
  {
    var i := FindScope(s, id);
    if i.Some? && !s[i.value].Closed() then i else None
  }

  function CloseScope(s: seq<BufferedScope>, id: ScopeId, millis: U64, instant: nat): seq<BufferedScope> {
    var i := ExitTarget(s, id);
    if i.None? then s else s[i.value := CloseEntry(s[i.value], millis, instant)]
  }

  function SetMessages(s: seq<BufferedScope>, id: ScopeId, messages: ExitMessages): seq<BufferedScope> {
    var i := FindScope(s, id);
    if i.None? then s
    else
      var e := s[i.value];
      s[i.value := e.(scope := e.scope.(exitMessages := OverlayMessages(e.scope.exitMessages, messages)))]
  }

  // ---------- eviction ----------

  function ClosedCount(s: seq<BufferedScope>): nat {
    if s == [] then 0 else (if s[0].Closed() then 1 else 0) + ClosedCount(s[1..])
  }

  /** Remove the first `n` closed scopes, keeping everything else in place. */
  function EvictOldest(s: seq<BufferedScope>, n: nat): seq<BufferedScope> {
    if s == [] || n == 0 then s
    else if s[0].Closed() then EvictOldest(s[1..], n - 1)
    else [s[0]] + EvictOldest(s[1..], n)
  }

  function TrimScopes(s: seq<BufferedScope>, max: nat): seq<BufferedScope> {
    EvictOldest(s, SaturatingSub(ClosedCount(s), max))
  }

  function TrimRecords(s: seq<Record>, max: nat): seq<Record> {
    s[SaturatingSub(|s|, max)..]
  }

  function OpenOnly(s: seq<BufferedScope>): seq<BufferedScope> {
    if s == [] then [] else (if s[0].Closed() then [] else [s[0]]) + OpenOnly(s[1..])
  }

  lemma {:induction false} OpenOnlyIsOpen(s: seq<BufferedScope>)
    ensures forall x :: x in OpenOnly(s) ==> !x.Closed()
    ensures |OpenOnly(s)| + ClosedCount(s) == |s|
  {
    if s != [] {
      OpenOnlyIsOpen(s[1..]);
    }
  }

  lemma {:induction false} ClosedCountConcat(a: seq<BufferedScope>, b: seq<BufferedScope>)
    ensures ClosedCount(a + b) == ClosedCount(a) + ClosedCount(b)
  {
    if a == [] {
      assert a + b == b;
    } else {
      assert (a + b)[1..] == a[1..] + b;
      ClosedCountConcat(a[1..], b);
    }
  }

  lemma {:induction false} OpenOnlyCount(s: seq<BufferedScope>)
    ensures ClosedCount(OpenOnly(s)) == 0
  {
    if s != [] {
      OpenOnlyCount(s[1..]);
      if s[0].Closed() {
        assert OpenOnly(s) == OpenOnly(s[1..]);
      } else {
        assert OpenOnly(s)[1..] == OpenOnly(s[1..]);
      }
    }
  }

  /**
   Eviction cuts the history at one boundary `p`: behind it only the open scopes survive, beyond it everything
   does, and what is removed behind it is exactly the `n` oldest closed scopes (all of them if there are fewer).
   */
  lemma {:induction false} EvictionBoundary(s: seq<BufferedScope>, n: nat) returns (p: nat)
    ensures p <= |s|
    ensures EvictOldest(s, n) == OpenOnly(s[..p]) + s[p..]
    ensures ClosedCount(s[..p]) == Min(n, ClosedCount(s))
  {
    if s == [] || n == 0 {
      p := 0;
    } else {
      var q := EvictionBoundary(s[1..], if s[0].Closed() then n - 1 else n);
      p := q + 1;
      assert s[..p][1..] == s[1..][..q];
      assert s[p..] == s[1..][q..];
    }
  }

  /** Trimming leaves at most `max` closed scopes, and as many as that allows. */
  lemma TrimLeavesAtMost(s: seq<BufferedScope>, max: nat)
    ensures ClosedCount(TrimScopes(s, max)) == Min(max, ClosedCount(s))
    ensures OpenOnly(TrimScopes(s, max)) == OpenOnly(s)
    ensures |s| - |TrimScopes(s, max)| == SaturatingSub(ClosedCount(s), max)
  {
    var p := EvictionBoundary(s, SaturatingSub(ClosedCount(s), max));
    assert s == s[..p] + s[p..];
    CutCounts(s[..p], s[p..]);
  }

  /** What is left when the closed scopes of a beginning are gone. */
  lemma CutCounts(a: seq<BufferedScope>, b: seq<BufferedScope>)
    ensures ClosedCount(OpenOnly(a) + b) == ClosedCount(b) && ClosedCount(a + b) == ClosedCount(a) + ClosedCount(b)
    ensures OpenOnly(OpenOnly(a) + b) == OpenOnly(a + b)
    ensures |a + b| - |OpenOnly(a) + b| == ClosedCount(a)
  {
    ClosedCountConcat(OpenOnly(a), b);
    OpenOnlyCount(a);
    ClosedCountConcat(a, b);
    OpenOnlyConcat(OpenOnly(a), b);
    OpenOnlyConcat(a, b);
    OpenOnlyTwice(a);
    OpenOnlyIsOpen(a);
  }

  lemma {:induction false} OpenOnlyConcat(a: seq<BufferedScope>, b: seq<BufferedScope>)
    ensures OpenOnly(a + b) == OpenOnly(a) + OpenOnly(b)
  {
    if a == [] {
      assert a + b == b;
    } else {
      assert (a + b)[1..] == a[1..] + b;
      OpenOnlyConcat(a[1..], b);
    }
  }

  lemma {:induction false} OpenOnlyTwice(s: seq<BufferedScope>)
    ensures OpenOnly(OpenOnly(s)) == OpenOnly(s)
  {
    if s != [] {
      OpenOnlyTwice(s[1..]);
      if s[0].Closed() {
        assert OpenOnly(s) == OpenOnly(s[1..]);
      } else {
        assert OpenOnly(s)[1..] == OpenOnly(s[1..]);
      }
    }
  }

  lemma {:induction false} EvictFirstClosed(a: seq<BufferedScope>, x: BufferedScope, b: seq<BufferedScope>)
    requires forall y :: y in a ==> !y.Closed()
    requires x.Closed()
    ensures EvictOldest(a + [x] + b, 1) == a + b
  {
    var s := a + [x] + b;
    if a == [] {
      assert s[1..] == b && s[0] == x;
      assert a + b == b;
      assert EvictOldest(b, 0) == b;
    } else {
      assert s[1..] == a[1..] + [x] + b && s[0] == a[0];
      EvictFirstClosed(a[1..], x, b);
      assert a + b == [a[0]] + (a[1..] + b);
    }
  }

  lemma {:induction false} EvictOneMore(s: seq<BufferedScope>, n: nat)
    ensures EvictOldest(EvictOldest(s, n), 1) == EvictOldest(s, n + 1)
  {
    if s == [] || n == 0 {
      assert EvictOldest(s, n) == s;
    } else if s[0].Closed() {
      EvictOneMore(s[1..], n - 1);
    } else {
      EvictOneMore(s[1..], n);
      var e := EvictOldest(s, n);
      assert e[0] == s[0] && e[1..] == EvictOldest(s[1..], n);
    }
  }
}
