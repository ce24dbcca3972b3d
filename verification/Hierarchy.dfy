/** Parent links as a graph: walking up, cycles, and the repair that removes one link per cycle. */
module Hierarchy {
  import opened Core

  /** Every retained scope with its parent link. */
  type Graph = map<ScopeId, Option<ScopeId>>

  ghost predicate Closed(g: Graph) {
    forall id {:trigger g[id]} :: id in g && g[id].Some? ==> g[id].value in g
  }

  /** The ancestor `n` links above `id`. */
  ghost function Ancestor(g: Graph, id: ScopeId, n: nat): Option<ScopeId>
    decreases n
  {
    if n == 0 then Some(id)
    else if id !in g || g[id].None? then None
    else Ancestor(g, g[id].value, n - 1)
  }

  ghost predicate Reaches(g: Graph, a: ScopeId, b: ScopeId) {
    exists n: nat :: Ancestor(g, a, n) == Some(b)
  }

  ghost predicate OnCycle(g: Graph, id: ScopeId) {
    exists n: nat :: n > 0 && Ancestor(g, id, n) == Some(id)
  }

  type Rank = map<ScopeId, nat>

  /** `rank` decreases along every link out of `done`, and no link leaves `done`. */
  ghost predicate Ranked(g: Graph, done: set<ScopeId>, rank: Rank) {
    && (forall id :: id in done ==> id in g && id in rank)
    && (forall id {:trigger g[id]} :: id in done && g[id].Some? ==> g[id].value in done && rank[g[id].value] < rank[id])
  }

  ghost predicate Acyclic(g: Graph) {
    exists rank :: Ranked(g, g.Keys, rank)
  }

  // ---------- the walk ----------

  function Elems(path: seq<ScopeId>): set<ScopeId> {
    set id | id in path
  }

  /** Where a walk stopped: the nodes it visited, and the node it ran into, if any. */
  datatype Walked = Walked(path: seq<ScopeId>, stop: Option<ScopeId>)

  function Walk(g: Graph, done: set<ScopeId>, path: seq<ScopeId>, current: Option<ScopeId>): Walked
    requires Closed(g) && (current.Some? ==> current.value in g)
    requires Elems(path) <= g.Keys
    decreases |g.Keys - Elems(path)|
  {
    if current.None? || current.value in done || current.value in path then Walked(path, current)
    else
      WalkGrows(g, path, current.value);
      Walk(g, done, path + [current.value], g[current.value])
  }

  lemma WalkGrows(g: Graph, path: seq<ScopeId>, id: ScopeId)
    requires id in g && id !in path
    ensures |g.Keys - Elems(path + [id])| < |g.Keys - Elems(path)|
  {
    assert Elems(path + [id]) == Elems(path) + {id};
    assert id in g.Keys - Elems(path);
    assert g.Keys - Elems(path + [id]) == g.Keys - Elems(path) - {id};
  }

  lemma WalkStep(g: Graph, done: set<ScopeId>, path: seq<ScopeId>, id: ScopeId)
    requires Closed(g) && id in g && Elems(path) <= g.Keys && id !in done && id !in path
    ensures Elems(path + [id]) == Elems(path) + {id}
    ensures |g.Keys - Elems(path + [id])| < |g.Keys - Elems(path)|
    ensures Walk(g, done, path + [id], g[id]) == Walk(g, done, path, Some(id))
  {
    WalkGrows(g, path, id);
    assert Elems(path + [id]) == Elems(path) + {id};
  }

  /** The walk closed a cycle: the node it ran into is one it had just visited. */
  predicate Cycled(w: Walked, done: set<ScopeId>) {
    w.stop.Some? && w.stop.value !in done
  }

  /** Consecutive nodes linked by parent links, none of them done, ending at `current`. */
  ghost predicate Chain(g: Graph, done: set<ScopeId>, path: seq<ScopeId>, current: Option<ScopeId>) {
    && (forall i :: 0 <= i < |path| ==> path[i] in g && path[i] !in done)
    && (forall i, j :: 0 <= i < j < |path| ==> path[i] != path[j])
    && (forall i :: 0 <= i < |path| - 1 ==> g[path[i]] == Some(path[i + 1]))
    && (path != [] ==> g[path[|path| - 1]] == current)
  }

  lemma ChainGrows(g: Graph, done: set<ScopeId>, path: seq<ScopeId>, id: ScopeId)
    requires Chain(g, done, path, Some(id)) && id in g && id !in done && id !in path
    ensures Chain(g, done, path + [id], g[id])
  {
    var longer := path + [id];
    forall i | 0 <= i < |longer| - 1
      ensures g[longer[i]] == Some(longer[i + 1])
    {
      assert longer[i] == path[i];
    }
  }

  lemma {:induction false} WalkChain(g: Graph, done: set<ScopeId>, path: seq<ScopeId>, current: Option<ScopeId>)
    requires Closed(g) && (current.Some? ==> current.value in g)
    requires Elems(path) <= g.Keys
    requires Chain(g, done, path, current)
    ensures var w := Walk(g, done, path, current);
      && Chain(g, done, w.path, w.stop)
      && path <= w.path
      && (w.stop.Some? ==> w.stop.value in done || w.stop.value in w.path)
      && (path == [] && current.Some? && current.value !in done ==> current.value in w.path)
    decreases |g.Keys - Elems(path)|
  {
    if current.None? || current.value in done || current.value in path {
    } else {
      WalkGrows(g, path, current.value);
      ChainGrows(g, done, path, current.value);
      WalkChain(g, done, path + [current.value], g[current.value]);
    }
  }

  // ---------- the repair ----------

  /** Scopes that lose their parent link, in the order the repair meets them. */
  function Cuts(g: Graph, starts: seq<ScopeId>, done: set<ScopeId>): (cuts: seq<ScopeId>)
    requires Closed(g) && Elems(starts) <= g.Keys
    decreases |starts|
  {
    if starts == [] then []
    else
      var w := Walk(g, done, [], Some(starts[0]));
      var done' := done + Elems(w.path);
      if Cycled(w, done) then
        StopInGraph(g, done, starts[0]);
        [w.stop.value] + Cuts(g[w.stop.value := None], starts[1..], done')
      else Cuts(g, starts[1..], done')
  }

  lemma StopInGraph(g: Graph, done: set<ScopeId>, start: ScopeId)
    requires Closed(g) && start in g
    ensures var w := Walk(g, done, [], Some(start)); Cycled(w, done) ==> w.stop.value in g && w.stop.value in w.path
  {
    WalkChain(g, done, [], Some(start));
  }

  function Cut(g: Graph, cuts: seq<ScopeId>): Graph {
    map id | id in g :: if id in cuts then None else g[id]
  }

  /** A chain that ends outside the graph or in a ranked node can itself be ranked, last node first. */
  lemma {:induction false} RankChain(g: Graph, done: set<ScopeId>, rank: Rank, path: seq<ScopeId>, stop: Option<ScopeId>)
    returns (rank': Rank)
    requires Chain(g, done, path, stop) && Ranked(g, done, rank)
    requires stop.Some? ==> stop.value in done
    ensures Ranked(g, done + Elems(path), rank')
    decreases |path|
  {
    if path == [] {
      rank' := rank;
    } else {
      var n := |path| - 1;
      var last := path[n];
      var mid := rank[last := if stop.Some? then rank[stop.value] + 1 else 0];
      assert Ranked(g, done + {last}, mid);
      assert Chain(g, done + {last}, path[..n], Some(last));
      rank' := RankChain(g, done + {last}, mid, path[..n], Some(last));
      assert done + {last} + Elems(path[..n]) == done + Elems(path);
    }
  }

  /** The part of a closed chain above the node that loses its link. */
  lemma UpperChain(g: Graph, done: set<ScopeId>, path: seq<ScopeId>, k: nat)
    requires k < |path| && Chain(g, done, path, Some(path[k]))
    ensures Chain(g[path[k] := None], done + {path[k]}, path[k + 1..], Some(path[k]))
  {
    var upper := path[k + 1..];
    forall i | 0 <= i < |upper|
      ensures upper[i] in g && upper[i] !in done + {path[k]}
    {
      assert upper[i] == path[k + 1 + i];
    }
  }

  /** The part below it, once the rest is done. */
  lemma LowerChain(g: Graph, done: set<ScopeId>, path: seq<ScopeId>, k: nat)
    requires k < |path| && Chain(g, done, path, Some(path[k]))
    ensures Chain(g[path[k] := None], done + {path[k]} + Elems(path[k + 1..]), path[..k], Some(path[k]))
  {
    var lower, upper := path[..k], path[k + 1..];
    forall i | 0 <= i < k
      ensures lower[i] !in done + {path[k]} + Elems(upper)
    {
      assert forall j :: 0 <= j < |upper| ==> upper[j] == path[k + 1 + j];
    }
  }

  /** The chain of a walk that closed a cycle at `path[k]` can be ranked once that node has lost its link. */
  lemma RankCycle(g: Graph, done: set<ScopeId>, rank: Rank, path: seq<ScopeId>, k: nat) returns (rank': Rank)
    requires k < |path| && Chain(g, done, path, Some(path[k])) && Ranked(g, done, rank)
    ensures Ranked(g[path[k] := None], done + Elems(path), rank')
  {
    var c, upper, lower := path[k], path[k + 1..], path[..k];
    var g' := g[c := None];
    UpperChain(g, done, path, k);
    LowerChain(g, done, path, k);
    RankRoot(g, done, rank, c);
    var r1 := RankChain(g', done + {c}, rank[c := 0], upper, Some(c));
    rank' := RankChain(g', done + {c} + Elems(upper), r1, lower, Some(c));
    ElemsAround(path, k);
    assert done + {c} + Elems(upper) + Elems(lower) == done + Elems(path);
  }

  lemma RankRoot(g: Graph, done: set<ScopeId>, rank: Rank, c: ScopeId)
    requires c in g && c !in done && Ranked(g, done, rank)
    ensures Ranked(g[c := None], done + {c}, rank[c := 0])
  {
  }

  lemma ElemsAround(path: seq<ScopeId>, k: nat)
    requires k < |path|
    ensures Elems(path) == {path[k]} + Elems(path[k + 1..]) + Elems(path[..k])
  {
    assert path == path[..k] + [path[k]] + path[k + 1..];
  }

  /** Following links from `path[k]` on a closed chain never leaves `path[k..]`. */
  lemma {:induction false} AroundCycle(g: Graph, done: set<ScopeId>, path: seq<ScopeId>, k: nat, i: nat, n: nat)
    requires k <= i < |path| && Chain(g, done, path, Some(path[k]))
    ensures Ancestor(g, path[i], n).Some? && Ancestor(g, path[i], n).value in path[k..]
    decreases n
  {
    if n > 0 {
      if i + 1 < |path| {
        AroundCycle(g, done, path, k, i + 1, n - 1);
      } else {
        AroundCycle(g, done, path, k, k, n - 1);
      }
    } else {
      assert path[k..][i - k] == path[i];
    }
  }

  lemma {:induction false} AlongChain(g: Graph, done: set<ScopeId>, path: seq<ScopeId>, stop: Option<ScopeId>, i: nat)
    requires i < |path| && Chain(g, done, path, stop)
    ensures Ancestor(g, path[i], |path| - i) == stop
    decreases |path| - i
  {
    if i + 1 < |path| {
      AlongChain(g, done, path, stop, i + 1);
    } else {
      assert Ancestor(g, path[i], 1) == stop;
    }
  }

  /** Removing links creates no new ancestors. */
  lemma {:induction false} FewerLinks(g: Graph, g': Graph, id: ScopeId, n: nat)
    requires g'.Keys == g.Keys && forall x :: x in g ==> g'[x] == g[x] || g'[x] == None
    ensures Ancestor(g', id, n).Some? ==> Ancestor(g, id, n) == Ancestor(g', id, n)
    decreases n
  {
    if n > 0 && id in g && g'[id].Some? {
      FewerLinks(g, g', g'[id].value, n - 1);
    }
  }

  /** What the repair guarantees about a list of cuts, starting from the nodes already known to be harmless. */
  ghost predicate Repairs(g: Graph, done: set<ScopeId>, cuts: seq<ScopeId>) {
    && (forall i :: 0 <= i < |cuts| ==> cuts[i] in g && cuts[i] !in done && OnCycle(g, cuts[i]))
    && (forall i, j :: 0 <= i < j < |cuts| ==> !Reaches(g, cuts[i], cuts[j]))
  }

  lemma {:induction false} CutsRepair(g: Graph, starts: seq<ScopeId>, done: set<ScopeId>, rank: Rank)
    returns (all: set<ScopeId>, rank': Rank)
    requires Closed(g) && Elems(starts) <= g.Keys && Ranked(g, done, rank)
    ensures Repairs(g, done, Cuts(g, starts, done))
    ensures done + Elems(starts) <= all && Ranked(Cut(g, Cuts(g, starts, done)), all, rank')
    decreases |starts|
  {
    if starts == [] {
      all, rank' := done, rank;
      assert Cut(g, []) == g;
    } else {
      var start, rest := starts[0], starts[1..];
      assert starts == [start] + rest;
      var w := Walk(g, done, [], Some(start));
      WalkChain(g, done, [], Some(start));
      if Cycled(w, done) {
        var k :| 0 <= k < |w.path| && w.path[k] == w.stop.value;
        var mid := RankCycle(g, done, rank, w.path, k);
        all, rank' := CutsRepair(g[w.path[k] := None], rest, done + Elems(w.path), mid);
        CutsCompose(g, done, w.path, k, Cuts(g[w.path[k] := None], rest, done + Elems(w.path)));
      } else {
        var mid := RankChain(g, done, rank, w.path, w.stop);
        all, rank' := CutsRepair(g, rest, done + Elems(w.path), mid);
      }
    }
  }

  /** One more cut in front of cuts that repair what is left. */
  lemma CutsCompose(g: Graph, done: set<ScopeId>, path: seq<ScopeId>, k: nat, later: seq<ScopeId>)
    requires k < |path| && Chain(g, done, path, Some(path[k])) && path[k] in g
    requires Repairs(g[path[k] := None], done + Elems(path), later)
    ensures Repairs(g, done, [path[k]] + later)
    ensures Cut(g[path[k] := None], later) == Cut(g, [path[k]] + later)
  {
    var c := path[k];
    var g' := g[c := None];
    var cuts := [c] + later;
    AlongChain(g, done, path, Some(c), k);
    assert OnCycle(g, c);
    forall i | 0 <= i < |later|
      ensures OnCycle(g, later[i]) && !Reaches(g, c, later[i])
    {
      var n: nat :| n > 0 && Ancestor(g', later[i], n) == Some(later[i]);
      FewerLinks(g, g', later[i], n);
      forall m: nat
        ensures Ancestor(g, c, m) != Some(later[i])
      {
        AroundCycle(g, done, path, k, k, m);
      }
    }
    forall i, j | 0 <= i < j < |later|
      ensures !Reaches(g, later[i], later[j])
    {
      forall m: nat
        ensures Ancestor(g, later[i], m) != Some(later[j])
      {
        if Ancestor(g, later[i], m) == Some(later[j]) {
          AvoidsCut(g, done, path, k, later[i], later[j], m);
        }
      }
    }
  }

  /** A way to a node off the cycle never uses the link that was cut. */
  lemma {:induction false} AvoidsCut(g: Graph, done: set<ScopeId>, path: seq<ScopeId>, k: nat, x: ScopeId, y: ScopeId, n: nat)
    requires k < |path| && Chain(g, done, path, Some(path[k])) && path[k] in g
    requires y !in path && Ancestor(g, x, n) == Some(y)
    ensures Ancestor(g[path[k] := None], x, n) == Some(y)
    decreases n
  {
    if x == path[k] {
      AroundCycle(g, done, path, k, k, n);
    } else if n > 0 {
      AvoidsCut(g, done, path, k, g[x].value, y, n - 1);
    }
  }

  lemma {:induction false} AncestorSum(g: Graph, x: ScopeId, a: nat, b: nat)
    ensures Ancestor(g, x, a + b) == if Ancestor(g, x, a).None? then None else Ancestor(g, Ancestor(g, x, a).value, b)
    decreases a
  {
    if a > 0 && x in g && g[x].Some? {
      AncestorSum(g, g[x].value, a - 1, b);
    }
  }

  lemma {:induction false} AroundAgain(g: Graph, x: ScopeId, p: nat, q: nat)
    requires p > 0 && Ancestor(g, x, p) == Some(x)
    ensures p * q >= q && Ancestor(g, x, p * q) == Some(x)
  {
    if q > 0 {
      AroundAgain(g, x, p, q - 1);
      AncestorSum(g, x, p, p * (q - 1));
      assert p + p * (q - 1) == p * q;
    }
  }

  /** Whatever a node on a cycle reaches, reaches it back. */
  lemma CycleReturns(g: Graph, x: ScopeId, y: ScopeId)
    requires OnCycle(g, x) && Reaches(g, x, y)
    ensures Reaches(g, y, x)
  {
    var p: nat :| p > 0 && Ancestor(g, x, p) == Some(x);
    var n: nat :| Ancestor(g, x, n) == Some(y);
    AroundAgain(g, x, p, n);
    AncestorSum(g, x, n, p * n - n);
    assert Ancestor(g, y, p * n - n) == Some(x);
  }

  lemma ReachesTransitive(g: Graph, x: ScopeId, y: ScopeId, z: ScopeId)
    requires Reaches(g, x, y) && Reaches(g, y, z)
    ensures Reaches(g, x, z)
  {
    var a: nat :| Ancestor(g, x, a) == Some(y);
    var b: nat :| Ancestor(g, y, b) == Some(z);
    AncestorSum(g, x, a, b);
    assert Ancestor(g, x, a + b) == Some(z);
  }

  lemma {:induction false} RankDescends(g: Graph, rank: Rank, x: ScopeId, n: nat)
    requires Ranked(g, g.Keys, rank) && x in g && Ancestor(g, x, n).Some?
    ensures var y := Ancestor(g, x, n).value; y in g && y in rank && (n > 0 ==> rank[y] < rank[x])
    decreases n
  {
    if n > 0 {
      RankDescends(g, rank, g[x].value, n - 1);
    }
  }

  /** An acyclic graph has no node on a cycle. */
  lemma AcyclicHasNoCycle(g: Graph, x: ScopeId)
    requires Acyclic(g) && x in g
    ensures !OnCycle(g, x)
  {
    var rank :| Ranked(g, g.Keys, rank);
    forall n: nat | n > 0
      ensures Ancestor(g, x, n) != Some(x)
    {
      if Ancestor(g, x, n) == Some(x) {
        RankDescends(g, rank, x, n);
      }
    }
  }

  /** Either the cuts leave the walk from `x` alone, or it passes one of them. */
  lemma {:induction false} WalkMeetsCut(g: Graph, cuts: seq<ScopeId>, x: ScopeId, n: nat)
    requires x in g && Closed(g)
    ensures Ancestor(Cut(g, cuts), x, n) == Ancestor(g, x, n) || exists c :: c in cuts && Reaches(g, x, c)
    decreases n
  {
    if x in cuts {
      assert Ancestor(g, x, 0) == Some(x);
      assert Reaches(g, x, x);
    } else if n > 0 && g[x].Some? {
      var y := g[x].value;
      WalkMeetsCut(g, cuts, y, n - 1);
      if c :| c in cuts && Reaches(g, y, c) {
        assert Ancestor(g, x, 1) == Some(y);
        ReachesTransitive(g, x, y, c);
      }
    }
  }

  ghost predicate MeetsExactlyOne(g: Graph, cuts: seq<ScopeId>, x: ScopeId) {
    exists i :: 0 <= i < |cuts| && Reaches(g, x, cuts[i])
      && forall j :: 0 <= j < |cuts| && Reaches(g, x, cuts[j]) ==> j == i
  }

  /** Only scopes on a cycle are cut, and every cycle loses exactly one link. */
  ghost predicate OneCutPerCycle(g: Graph, cuts: seq<ScopeId>) {
    && (forall i :: 0 <= i < |cuts| ==> cuts[i] in g && OnCycle(g, cuts[i]))
    && (forall x :: x in g && OnCycle(g, x) ==> MeetsExactlyOne(g, cuts, x))
  }

  lemma CutsMeetOnce(g: Graph, cuts: seq<ScopeId>, x: ScopeId, i: nat, j: nat)
    requires Repairs(g, {}, cuts) && OnCycle(g, x) && i < |cuts| && j < |cuts|
    requires Reaches(g, x, cuts[i]) && Reaches(g, x, cuts[j])
    ensures i == j
  {
    CycleReturns(g, x, cuts[i]);
    CycleReturns(g, x, cuts[j]);
    ReachesTransitive(g, cuts[i], x, cuts[j]);
    ReachesTransitive(g, cuts[j], x, cuts[i]);
  }

  lemma CutsMeetCycle(g: Graph, cuts: seq<ScopeId>, x: ScopeId)
    requires Closed(g) && Acyclic(Cut(g, cuts)) && Repairs(g, {}, cuts) && x in g && OnCycle(g, x)
    ensures MeetsExactlyOne(g, cuts, x)
  {
    var n: nat :| n > 0 && Ancestor(g, x, n) == Some(x);
    WalkMeetsCut(g, cuts, x, n);
    AcyclicHasNoCycle(Cut(g, cuts), x);
    var c :| c in cuts && Reaches(g, x, c);
    var i :| 0 <= i < |cuts| && cuts[i] == c;
    forall j | 0 <= j < |cuts| && Reaches(g, x, cuts[j])
      ensures j == i
    {
      CutsMeetOnce(g, cuts, x, i, j);
    }
  }

  /**
   The repair theorem: the repaired graph is closed and acyclic; a link is removed only from a scope on a cycle,
   and every cycle loses exactly one.
   */
  lemma RepairTheorem(g: Graph, starts: seq<ScopeId>)
    requires Closed(g) && Elems(starts) == g.Keys
    ensures var cuts := Cuts(g, starts, {});
      Closed(Cut(g, cuts)) && Acyclic(Cut(g, cuts)) && OneCutPerCycle(g, cuts)
  {
    var cuts := Cuts(g, starts, {});
    var none: Rank := map[];
    var all, rank := CutsRepair(g, starts, {}, none);
    assert all == Cut(g, cuts).Keys;
    forall x | x in g && OnCycle(g, x)
      ensures MeetsExactlyOne(g, cuts, x)
    {
      CutsMeetCycle(g, cuts, x);
    }
  }

  /** A hierarchy without cycles is left alone. */
  lemma AcyclicNeedsNoCut(g: Graph, starts: seq<ScopeId>)
    requires Closed(g) && Acyclic(g) && Elems(starts) == g.Keys
    ensures Cuts(g, starts, {}) == []
  {
    RepairTheorem(g, starts);
    var cuts := Cuts(g, starts, {});
    if cuts != [] {
      AcyclicHasNoCycle(g, cuts[0]);
    }
  }

  ghost predicate Pair(g: Graph, a: ScopeId, b: ScopeId) {
    a != b && g.Keys == {a, b} && g[a] == Some(b) && g[b] == Some(a)
  }

  lemma WalkFirst(g: Graph, a: ScopeId, b: ScopeId)
    requires Pair(g, a, b)
    ensures Closed(g) && Elems([a]) <= g.Keys && Walk(g, {}, [], Some(a)) == Walk(g, {}, [a], Some(b))
  {
    WalkStep(g, {}, [], a);
    assert [] + [a] == [a];
  }

  lemma WalkSecond(g: Graph, a: ScopeId, b: ScopeId)
    requires Pair(g, a, b) && Closed(g) && Elems([a]) <= g.Keys
    ensures Elems([a, b]) <= g.Keys && Walk(g, {}, [a], Some(b)) == Walk(g, {}, [a, b], Some(a))
  {
    WalkStep(g, {}, [a], b);
    assert [a] + [b] == [a, b];
  }

  lemma WalkStops(g: Graph, path: seq<ScopeId>, id: ScopeId)
    requires Closed(g) && Elems(path) <= g.Keys && id in path
    ensures Walk(g, {}, path, Some(id)) == Walked(path, Some(id))
  {
  }

  lemma WalkAround(g: Graph, a: ScopeId, b: ScopeId)
    requires Pair(g, a, b)
    ensures Closed(g) && Walk(g, {}, [], Some(a)) == Walked([a, b], Some(a))
  {
    WalkFirst(g, a, b);
    WalkSecond(g, a, b);
    WalkStops(g, [a, b], a);
  }

  lemma CutsOne(g: Graph, start: ScopeId, next: ScopeId, path: seq<ScopeId>)
    requires Closed(g) && start in g && next in g && next in path
    requires Walk(g, {}, [], Some(start)) == Walked(path, Some(start)) && start in path
    ensures Cuts(g, [start, next], {}) == [start]
  {
    var cut, done := g[start := None], {} + Elems(path);
    assert next in Elems(path);
    assert [start, next][1..] == [next] && [next][1..] == [];
    assert Cuts(cut, [next], done) == [];
  }

  /** Which link of a cycle is removed is decided by the order of the scopes. */
  lemma CutFollowsOrder(g: Graph, a: ScopeId, b: ScopeId)
    requires Pair(g, a, b)
    ensures Closed(g) && Cuts(g, [a, b], {}) == [a] && Cuts(g, [b, a], {}) == [b]
  {
    WalkAround(g, a, b);
    WalkAround(g, b, a);
    CutsOne(g, a, b, [a, b]);
    CutsOne(g, b, a, [b, a]);
  }
}
