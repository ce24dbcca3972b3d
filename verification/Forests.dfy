/** Scope forests and their listings, described without reference to how either is computed. */
module Forests {
  import opened Core

  datatype ScopeNode = ScopeNode(scope: Scope, children: seq<ScopeNode>)

  function Tops(forest: seq<ScopeNode>): (r: seq<Scope>)
    ensures |r| == |forest|
  {
    seq(|forest|, i requires 0 <= i < |forest| => forest[i].scope)
  }

  /** All scopes with this parent link whose identifier is not in `path`, each as often as in `scopes`, and no others. */
  ghost predicate AllWithParent(tops: seq<Scope>, scopes: seq<Scope>, parent: Option<ScopeId>, path: set<ScopeId>) {
    forall s :: multiset(tops)[s] == if s.parent == parent && s.id !in path then multiset(scopes)[s] else 0
  }

  /**
   The forest below `parent`: at its top all scopes with that parent link, in input order; below each node the same
   for its identifier. `path` holds the identifiers above, which do not occur again.
   */
  ghost predicate IsForestOf(forest: seq<ScopeNode>, scopes: seq<Scope>, parent: Option<ScopeId>, path: set<ScopeId>)
    decreases forest
  {
    && Subsequence(Tops(forest), scopes)
    && AllWithParent(Tops(forest), scopes, parent, path)
    && forall i :: 0 <= i < |forest| ==>
         IsForestOf(forest[i].children, scopes, Some(forest[i].scope.id), path + {forest[i].scope.id})
  }

  lemma {:induction false} SubsequenceCounts<T>(a: seq<T>, b: seq<T>, x: T)
    requires Subsequence(a, b)
    ensures multiset(a)[x] <= multiset(b)[x]
  {
    if a != [] {
      assert b == [b[0]] + b[1..];
      if a[0] == b[0] && Subsequence(a[1..], b[1..]) {
        assert a == [a[0]] + a[1..];
        SubsequenceCounts(a[1..], b[1..], x);
      } else {
        SubsequenceCounts(a, b[1..], x);
      }
    }
  }

  /** A scope that belongs to the selection comes first if it is first in the input. */
  lemma FirstIsSelected(a: seq<Scope>, scopes: seq<Scope>, parent: Option<ScopeId>, path: set<ScopeId>)
    requires scopes != [] && Subsequence(a, scopes) && AllWithParent(a, scopes, parent, path)
    ensures var s := scopes[0];
      if s.parent == parent && s.id !in path then
        a != [] && a[0] == s && Subsequence(a[1..], scopes[1..]) && AllWithParent(a[1..], scopes[1..], parent, path)
      else Subsequence(a, scopes[1..]) && AllWithParent(a, scopes[1..], parent, path)
  {
    var s, rest := scopes[0], scopes[1..];
    assert scopes == [s] + rest;
    assert multiset(scopes)[s] == multiset(rest)[s] + 1;
    if s.parent == parent && s.id !in path {
      assert multiset(a)[s] > multiset(rest)[s];
      if Subsequence(a, rest) {
        SubsequenceCounts(a, rest, s);
      }
      assert a[0] == s;
      assert a == [s] + a[1..];
    } else {
      assert multiset(a)[s] == 0;
      assert a != [] ==> a[0] in a && a[0] != s;
    }
  }

  /** Input order and multiplicities determine the selection. */
  lemma {:induction false} SelectedOnce(a: seq<Scope>, b: seq<Scope>, scopes: seq<Scope>, parent: Option<ScopeId>, path: set<ScopeId>)
    requires Subsequence(a, scopes) && AllWithParent(a, scopes, parent, path)
    requires Subsequence(b, scopes) && AllWithParent(b, scopes, parent, path)
    ensures a == b
  {
    if scopes != [] {
      FirstIsSelected(a, scopes, parent, path);
      FirstIsSelected(b, scopes, parent, path);
      if scopes[0].parent == parent && scopes[0].id !in path {
        SelectedOnce(a[1..], b[1..], scopes[1..], parent, path);
        assert a == [a[0]] + a[1..] && b == [b[0]] + b[1..];
      } else {
        SelectedOnce(a, b, scopes[1..], parent, path);
      }
    }
  }

  /** There is only one such forest: the description leaves nothing open. */
  lemma {:induction false} ForestUnique(f: seq<ScopeNode>, g: seq<ScopeNode>, scopes: seq<Scope>, parent: Option<ScopeId>, path: set<ScopeId>)
    requires IsForestOf(f, scopes, parent, path) && IsForestOf(g, scopes, parent, path)
    ensures f == g
    decreases f
  {
    SelectedOnce(Tops(f), Tops(g), scopes, parent, path);
    assert |f| == |g|;
    forall i | 0 <= i < |f|
      ensures f[i] == g[i]
    {
      assert Tops(f)[i] == f[i].scope && Tops(g)[i] == g[i].scope;
      ForestUnique(f[i].children, g[i].children, scopes, Some(f[i].scope.id), path + {f[i].scope.id});
    }
  }

  // ---------- listings ----------

  datatype Line = Line(depth: nat, scope: Scope)

  /** What a reader makes of an indented listing: deeper lines right below a line are its children. */
  function Rebuild(lines: seq<Line>, depth: nat): (r: (seq<ScopeNode>, seq<Line>))
    ensures |r.1| <= |lines|
    decreases |lines|
  {
    if lines == [] || lines[0].depth < depth then ([], lines)
    else
      var (children, after) := Rebuild(lines[1..], depth + 1);
      var (siblings, rest) := Rebuild(after, depth);
      ([ScopeNode(lines[0].scope, children)] + siblings, rest)
  }

  /** The scopes listed at one depth. */
  function AtDepth(lines: seq<Line>, depth: nat): seq<Scope> {
    if lines == [] then []
    else (if lines[0].depth == depth then [lines[0].scope] else []) + AtDepth(lines[1..], depth)
  }

  lemma {:induction false} AtDepthConcat(a: seq<Line>, b: seq<Line>, depth: nat)
    ensures AtDepth(a + b, depth) == AtDepth(a, depth) + AtDepth(b, depth)
  {
    if a == [] {
      assert a + b == b;
    } else {
      assert (a + b)[1..] == a[1..] + b && (a + b)[0] == a[0];
      AtDepthConcat(a[1..], b, depth);
    }
  }
}
