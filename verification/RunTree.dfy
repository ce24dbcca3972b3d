/** The tree of a recovered run shows every scope exactly once, under its parent. */
module RunTree {
  import opened Core
  import opened Hierarchy
  import opened Forests
  import opened Replay
  import opened Recovery

  // ---------- what a tree contains ----------

  /** How often a scope occurs as a node. */
  function Occurrences(forest: seq<ScopeNode>, x: Scope): nat
    decreases forest
  {
    if forest == [] then 0
    else (if forest[0].scope == x then 1 else 0) + Occurrences(forest[0].children, x) + Occurrences(forest[1..], x)
  }

  /** Every node sits under the scope its parent link names. */
  ghost predicate Parented(forest: seq<ScopeNode>, parent: Option<ScopeId>)
    decreases forest
  {
    forest != [] ==>
      && forest[0].scope.parent == parent
      && Parented(forest[0].children, Some(forest[0].scope.id))
      && Parented(forest[1..], parent)
  }

  /** No identifier repeats on any path from a root. */
  ghost predicate PathsDistinct(forest: seq<ScopeNode>, path: set<ScopeId>)
    decreases forest
  {
    forest != [] ==>
      && forest[0].scope.id !in path
      && PathsDistinct(forest[0].children, path + {forest[0].scope.id})
      && PathsDistinct(forest[1..], path)
  }

  lemma {:induction false} ForestShape(scopes: seq<Scope>, kids: seq<Scope>, path: set<ScopeId>, parent: Option<ScopeId>)
    requires Within(kids, scopes) && forall k :: k in kids ==> k.parent == parent
    ensures Parented(Forest(scopes, kids, path), parent) && PathsDistinct(Forest(scopes, kids, path), path)
    decreases |ScopeIds(scopes) - path|, |kids|
  {
    if kids != [] {
      ForestStep(scopes, kids, path);
      ForestShape(scopes, kids[1..], path, parent);
      if kids[0].id !in path {
        var k := kids[0];
        PathGrows(scopes, k, path);
        WithParentSound(scopes, Some(k.id));
        ForestShape(scopes, Children(scopes, k.id), path + {k.id}, Some(k.id));
        var node, rest := ScopeNode(k, Forest(scopes, Children(scopes, k.id), path + {k.id})), Forest(scopes, kids[1..], path);
        assert ([node] + rest)[1..] == rest;
      }
    }
  }

  lemma {:induction false} WithParentSound(scopes: seq<Scope>, parent: Option<ScopeId>)
    ensures forall s :: s in WithParent(scopes, parent) ==> s.parent == parent
  {
    if scopes != [] {
      WithParentSound(scopes[1..], parent);
    }
  }

  /** For any input, malformed or not, the tree respects the parent links and never repeats an identifier on a path. */
  lemma TreeShape(scopes: seq<Scope>)
    ensures Parented(Tree(scopes), None) && PathsDistinct(Tree(scopes), {})
  {
    WithParentSound(scopes, None);
    ForestShape(scopes, Roots(scopes), {}, None);
  }

  // ---------- lineages in an acyclic hierarchy ----------

  ghost predicate Ordered(scopes: seq<Scope>, rank: Rank) {
    && DistinctIds(scopes)
    && (forall s :: s in scopes ==> s.id in rank)
    && (forall s :: s in scopes && s.parent.Some? ==>
          && IndexOf(scopes, s.parent.value).Some?
          && s.parent.value in rank && rank[s.parent.value] < rank[s.id])
  }

  function ParentScope(scopes: seq<Scope>, s: Scope): (p: Scope)
    requires s.parent.Some? && IndexOf(scopes, s.parent.value).Some?
    ensures p in scopes && p.id == s.parent.value
  {
    scopes[IndexOf(scopes, s.parent.value).value]
  }

  /** A scope and all its ancestors. */
  ghost function Lineage(scopes: seq<Scope>, rank: Rank, x: Scope): set<ScopeId>
    requires Ordered(scopes, rank) && x in scopes
    decreases rank[x.id]
  {
    {x.id} + if x.parent.None? then {} else Lineage(scopes, rank, ParentScope(scopes, x))
  }

  lemma {:induction false} LineageRank(scopes: seq<Scope>, rank: Rank, x: Scope, id: ScopeId)
    requires Ordered(scopes, rank) && x in scopes && id in Lineage(scopes, rank, x)
    ensures id in rank && rank[id] <= rank[x.id] && (id != x.id ==> rank[id] < rank[x.id])
    decreases rank[x.id]
  {
    if id != x.id {
      LineageRank(scopes, rank, ParentScope(scopes, x), id);
    }
  }

  function CountOn(kids: seq<Scope>, ids: set<ScopeId>): nat {
    if kids == [] then 0 else (if kids[0].id in ids then 1 else 0) + CountOn(kids[1..], ids)
  }

  lemma {:induction false} CountOnSplit(kids: seq<Scope>, id: ScopeId, ids: set<ScopeId>)
    requires id !in ids
    ensures CountOn(kids, {id} + ids) == CountOn(kids, {id}) + CountOn(kids, ids)
  {
    if kids != [] {
      CountOnSplit(kids[1..], id, ids);
    }
  }

  lemma {:induction false} CountOnNone(kids: seq<Scope>, ids: set<ScopeId>)
    requires forall k :: k in kids ==> k.id !in ids
    ensures CountOn(kids, ids) == 0
  {
    if kids != [] {
      CountOnNone(kids[1..], ids);
    }
  }

  /** A scope is counted once, among the scopes with its own parent link. */
  lemma {:induction false} CountSelf(scopes: seq<Scope>, parent: Option<ScopeId>, id: ScopeId)
    requires forall i, j :: 0 <= i < j < |scopes| ==> scopes[i].id != scopes[j].id
    ensures CountOn(WithParent(scopes, parent), {id})
         == if IndexOf(scopes, id).Some? && scopes[IndexOf(scopes, id).value].parent == parent then 1 else 0
  {
    if scopes != [] {
      CountSelf(scopes[1..], parent, id);
      if scopes[0].id == id {
        IndexOfNone(scopes[1..], id);
      }
    }
  }

  lemma SelfOnce(scopes: seq<Scope>, rank: Rank, parent: Option<ScopeId>, x: Scope)
    requires Ordered(scopes, rank) && x in scopes
    ensures CountOn(WithParent(scopes, parent), {x.id}) == if x.parent == parent then 1 else 0
  {
    DistinctMeans(scopes);
    CountSelf(scopes, parent, x.id);
    var i :| 0 <= i < |scopes| && scopes[i] == x;
    assert IndexOf(scopes, scopes[i].id) == Some(i);
  }

  lemma SameScope(scopes: seq<Scope>, k: Scope, x: Scope)
    requires DistinctIds(scopes) && k in scopes && x in scopes && k.id == x.id
    ensures k == x
  {
    var i :| 0 <= i < |scopes| && scopes[i] == k;
    var j :| 0 <= j < |scopes| && scopes[j] == x;
    assert IndexOf(scopes, scopes[i].id) == Some(i) && IndexOf(scopes, scopes[j].id) == Some(j);
  }

  /** One step down from `k` toward `x`: exactly one child lies on the lineage of `x`, unless `k` is `x` or off it. */
  lemma {:induction false} StepDown(scopes: seq<Scope>, rank: Rank, k: Scope, x: Scope)
    requires Ordered(scopes, rank) && k in scopes && x in scopes
    ensures (if k == x then 1 else 0) + CountOn(Children(scopes, k.id), Lineage(scopes, rank, x))
         == if k.id in Lineage(scopes, rank, x) then 1 else 0
    decreases rank[x.id]
  {
    var kids, line := Children(scopes, k.id), Lineage(scopes, rank, x);
    WithParentSound(scopes, Some(k.id));
    if k == x {
      forall c | c in kids
        ensures c.id !in line
      {
        if c.id in line {
          LineageRank(scopes, rank, x, c.id);
        }
      }
      CountOnNone(kids, line);
    } else {
      if k.id == x.id {
        SameScope(scopes, k, x);
      }
      SelfOnce(scopes, rank, Some(k.id), x);
      if x.parent.None? {
        assert line == {x.id};
      } else {
        var y := ParentScope(scopes, x);
        var above := Lineage(scopes, rank, y);
        if x.id in above {
          LineageRank(scopes, rank, y, x.id);
        }
        CountOnSplit(kids, x.id, above);
        StepDown(scopes, rank, k, y);
        if k.id == y.id {
          SameScope(scopes, k, y);
        }
      }
    }
  }

  /** Exactly one root lies on the lineage of a scope. */
  lemma {:induction false} OneRoot(scopes: seq<Scope>, rank: Rank, x: Scope)
    requires Ordered(scopes, rank) && x in scopes
    ensures CountOn(Roots(scopes), Lineage(scopes, rank, x)) == 1
    decreases rank[x.id]
  {
    SelfOnce(scopes, rank, None, x);
    if x.parent.None? {
      assert Lineage(scopes, rank, x) == {x.id};
    } else {
      var y := ParentScope(scopes, x);
      var above := Lineage(scopes, rank, y);
      if x.id in above {
        LineageRank(scopes, rank, y, x.id);
      }
      CountOnSplit(Roots(scopes), x.id, above);
      OneRoot(scopes, rank, y);
    }
  }

  ghost predicate Above(path: set<ScopeId>, rank: Rank, kids: seq<Scope>) {
    forall p, k :: p in path && k in kids ==> p in rank && k.id in rank && rank[p] < rank[k.id]
  }

  lemma AboveChildren(scopes: seq<Scope>, rank: Rank, kids: seq<Scope>, path: set<ScopeId>)
    requires Ordered(scopes, rank) && Within(kids, scopes) && kids != [] && Above(path, rank, kids)
    ensures kids[0].id !in path
    ensures Above(path + {kids[0].id}, rank, Children(scopes, kids[0].id)) && Above(path, rank, kids[1..])
  {
    var id := kids[0].id;
    WithParentSound(scopes, Some(id));
    forall p, c | p in path + {id} && c in Children(scopes, id)
      ensures p in rank && c.id in rank && rank[p] < rank[c.id]
    {
      assert c in scopes && c.parent == Some(id) && rank[id] < rank[c.id];
      assert kids[0] in kids;
    }
  }

  lemma OccurrencesCons(node: ScopeNode, rest: seq<ScopeNode>, x: Scope)
    ensures Occurrences([node] + rest, x) == (if node.scope == x then 1 else 0) + Occurrences(node.children, x) + Occurrences(rest, x)
  {
    assert ([node] + rest)[1..] == rest;
  }

  /** In an acyclic hierarchy, `x` occurs below `kids` once for each of them that lies on its lineage. */
  lemma {:induction false} OccurrencesBelow(scopes: seq<Scope>, rank: Rank, kids: seq<Scope>, path: set<ScopeId>, x: Scope)
    requires Ordered(scopes, rank) && Within(kids, scopes) && x in scopes && Above(path, rank, kids)
    ensures Occurrences(Forest(scopes, kids, path), x) == CountOn(kids, Lineage(scopes, rank, x))
    decreases |ScopeIds(scopes) - path|, |kids|
  {
    if kids != [] {
      var k := kids[0];
      var below, deeper := Children(scopes, k.id), path + {k.id};
      AboveChildren(scopes, rank, kids, path);
      PathGrows(scopes, k, path);
      OccurrencesBelow(scopes, rank, kids[1..], path, x);
      OccurrencesBelow(scopes, rank, below, deeper, x);
      StepDown(scopes, rank, k, x);
      OccurrencesFirst(scopes, kids, path, x);
    }
  }

  lemma OccurrencesFirst(scopes: seq<Scope>, kids: seq<Scope>, path: set<ScopeId>, x: Scope)
    requires Within(kids, scopes) && kids != [] && kids[0].id !in path
    ensures var k := kids[0];
      Occurrences(Forest(scopes, kids, path), x) == (if k == x then 1 else 0)
        + Occurrences(Forest(scopes, Children(scopes, k.id), path + {k.id}), x) + Occurrences(Forest(scopes, kids[1..], path), x)
  {
    var k := kids[0];
    ForestStep(scopes, kids, path);
    OccurrencesCons(ScopeNode(k, Forest(scopes, Children(scopes, k.id), path + {k.id})), Forest(scopes, kids[1..], path), x);
  }

  lemma RankedIsOrdered(scopes: seq<Scope>, rank: Rank)
    requires DistinctIds(scopes) && Closed(ParentGraph(scopes)) && Ranked(ParentGraph(scopes), ParentGraph(scopes).Keys, rank)
    ensures Ordered(scopes, rank)
  {
    var g := ParentGraph(scopes);
    forall s | s in scopes
      ensures s.id in g && g[s.id] == s.parent
    {
      assert s.id in ScopeIds(scopes);
      var i :| 0 <= i < |scopes| && scopes[i] == s;
      assert IndexOf(scopes, scopes[i].id) == Some(i);
    }
    forall s | s in scopes && s.parent.Some?
      ensures IndexOf(scopes, s.parent.value).Some?
    {
      IndexOfNone(scopes, s.parent.value);
    }
  }

  lemma {:induction false} OccurrencesOnlyOf(scopes: seq<Scope>, kids: seq<Scope>, path: set<ScopeId>, x: Scope)
    requires Within(kids, scopes) && x !in scopes
    ensures Occurrences(Forest(scopes, kids, path), x) == 0
    decreases |ScopeIds(scopes) - path|, |kids|
  {
    if kids != [] {
      ForestStep(scopes, kids, path);
      OccurrencesOnlyOf(scopes, kids[1..], path, x);
      if kids[0].id !in path {
        PathGrows(scopes, kids[0], path);
        OccurrencesOnlyOf(scopes, Children(scopes, kids[0].id), path + {kids[0].id}, x);
        OccurrencesCons(ScopeNode(kids[0], Forest(scopes, Children(scopes, kids[0].id), path + {kids[0].id})),
                        Forest(scopes, kids[1..], path), x);
      }
    }
  }

  /** In a closed acyclic hierarchy the tree holds every scope exactly once and nothing else. */
  lemma EachScopeOnce(scopes: seq<Scope>, x: Scope)
    requires DistinctIds(scopes) && Closed(ParentGraph(scopes)) && Acyclic(ParentGraph(scopes))
    ensures Occurrences(Tree(scopes), x) == if x in scopes then 1 else 0
  {
    if x in scopes {
      var rank :| Ranked(ParentGraph(scopes), ParentGraph(scopes).Keys, rank);
      RankedIsOrdered(scopes, rank);
      OccurrencesBelow(scopes, rank, Roots(scopes), {}, x);
      OneRoot(scopes, rank, x);
    } else {
      OccurrencesOnlyOf(scopes, Roots(scopes), {}, x);
    }
  }

  // ---------- loaded runs ----------

  function LinesOf(lines: seq<Line>, x: Scope): nat {
    if lines == [] then 0 else (if lines[0].scope == x then 1 else 0) + LinesOf(lines[1..], x)
  }

  lemma {:induction false} LinesOfConcat(a: seq<Line>, b: seq<Line>, x: Scope)
    ensures LinesOf(a + b, x) == LinesOf(a, x) + LinesOf(b, x)
  {
    if a == [] {
      assert a + b == b;
    } else {
      assert (a + b)[1..] == a[1..] + b && (a + b)[0] == a[0];
      LinesOfConcat(a[1..], b, x);
    }
  }

  lemma {:induction false} LinesAreNodes(forest: seq<ScopeNode>, depth: nat, x: Scope)
    ensures LinesOf(Preorder(forest, depth), x) == Occurrences(forest, x)
    decreases forest
  {
    if forest != [] {
      LinesAreNodes(forest[0].children, depth + 1, x);
      LinesAreNodes(forest[1..], depth, x);
      var first, below, rest := [Line(depth, forest[0].scope)], Preorder(forest[0].children, depth + 1), Preorder(forest[1..], depth);
      LinesOfConcat(first, below, x);
      LinesOfConcat(first + below, rest, x);
      assert first[1..] == [];
    }
  }

  /**
   End to end: whatever was read, every scope of the recovered run, placeholders included, occurs exactly once in its
   tree, on exactly one line of the rendering, and under its repaired parent.
   */
  lemma LoadedRunTree(h: History, x: Scope)
    requires DistinctIds(h.scopes)
    ensures var scopes := FinalScopes(h);
      && Occurrences(Tree(scopes), x) == (if x in scopes then 1 else 0)
      && LinesOf(Preorder(Tree(scopes), 0), x) == (if x in scopes then 1 else 0)
      && Parented(Tree(scopes), None)
      && (forall i, j :: 0 <= i < j < |scopes| ==> scopes[i].id != scopes[j].id)
      && (forall id :: id in ScopeIds(WithPlaceholders(h)) <==> id in ScopeIds(scopes))
  {
    var scopes := FinalScopes(h);
    FinalScopesRepaired(h);
    DistinctMeans(scopes);
    EachScopeOnce(scopes, x);
    LinesAreNodes(Tree(scopes), 0, x);
    TreeShape(scopes);
    PlaceholdersDistinct(h);
    CutLinksGraph(WithPlaceholders(h), CutsOf(h));
  }
}
