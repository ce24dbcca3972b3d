/** The scope forest of a history, and the two explicit-stack traversals that build it and print it. */
module Replay {
  import opened Core
  import opened Forests

  // ---------- the recursive meaning ----------

  ghost predicate Within(kids: seq<Scope>, scopes: seq<Scope>) {
    forall s :: s in kids ==> s in scopes
  }

  /** The scopes with a given parent link, in input order. */
  function WithParent(scopes: seq<Scope>, parent: Option<ScopeId>): (r: seq<Scope>)
    ensures Within(r, scopes)
  {
    if scopes == [] then []
    else if scopes[0].parent == parent then [scopes[0]] + WithParent(scopes[1..], parent)
    else WithParent(scopes[1..], parent)
  }

  function Children(scopes: seq<Scope>, id: ScopeId): (r: seq<Scope>)
    ensures Within(r, scopes)
  {
    WithParent(scopes, Some(id))
  }

  function Roots(scopes: seq<Scope>): (r: seq<Scope>)
    ensures Within(r, scopes)
  {
    WithParent(scopes, None)
  }

  /**
   The forest below `kids`, where no identifier repeats on any path from the root. `path` holds the identifiers
   above. Terminates on any input: every level adds an identifier of the input to `path`.
   */
  function Forest(scopes: seq<Scope>, kids: seq<Scope>, path: set<ScopeId>): (f: seq<ScopeNode>)
    requires Within(kids, scopes)
    decreases |ScopeIds(scopes) - path|, |kids|
  {
    if kids == [] then []
    else if kids[0].id in path then Forest(scopes, kids[1..], path)
    else
      PathGrows(scopes, kids[0], path);
      [ScopeNode(kids[0], Forest(scopes, Children(scopes, kids[0].id), path + {kids[0].id}))]
      + Forest(scopes, kids[1..], path)
  }

  function Tree(scopes: seq<Scope>): seq<ScopeNode> {
    Forest(scopes, Roots(scopes), {})
  }

  lemma PathGrows(scopes: seq<Scope>, s: Scope, path: set<ScopeId>)
    requires s in scopes && s.id !in path
    ensures |ScopeIds(scopes) - (path + {s.id})| < |ScopeIds(scopes) - path|
  {
    assert s.id in ScopeIds(scopes) - path;
    assert ScopeIds(scopes) - (path + {s.id}) == ScopeIds(scopes) - path - {s.id};
  }

  /** Traversal steps below `kids`: one to skip a repeated identifier, two (enter and leave) for a visited scope. */
  ghost function Steps(scopes: seq<Scope>, kids: seq<Scope>, path: set<ScopeId>): nat
    requires Within(kids, scopes)
    decreases |ScopeIds(scopes) - path|, |kids|
  {
    if kids == [] then 0
    else if kids[0].id in path then 1 + Steps(scopes, kids[1..], path)
    else
      PathGrows(scopes, kids[0], path);
      2 + Steps(scopes, Children(scopes, kids[0].id), path + {kids[0].id}) + Steps(scopes, kids[1..], path)
  }

  // ---------- the children index ----------

  type ChildIndex = map<ScopeId, seq<Scope>>

  function ChildrenIn(index: ChildIndex, id: ScopeId): seq<Scope> {
    if id in index then index[id] else []
  }

  lemma {:induction false} ChildrenSnoc(scopes: seq<Scope>, s: Scope, id: ScopeId)
    ensures Children(scopes + [s], id) == Children(scopes, id) + (if s.parent == Some(id) then [s] else [])
  {
    if scopes == [] {
      assert scopes + [s] == [s];
    } else {
      assert (scopes + [s])[1..] == scopes[1..] + [s];
      ChildrenSnoc(scopes[1..], s, id);
    }
  }

  method IndexChildren(scopes: seq<Scope>) returns (index: ChildIndex)
    ensures forall id: ScopeId :: ChildrenIn(index, id) == Children(scopes, id)
  {
    index := map[];
    var i := 0;
    while i < |scopes|
      invariant i <= |scopes|
      invariant forall id: ScopeId :: ChildrenIn(index, id) == Children(scopes[..i], id)
    {
      var scope := scopes[i];
      ghost var before := index;
      if scope.parent.Some? {
        index := index[scope.parent.value := ChildrenIn(index, scope.parent.value) + [scope]];
      }
      forall id: ScopeId
        ensures ChildrenIn(index, id) == Children(scopes[..i + 1], id)
      {
        assert ChildrenIn(before, id) == Children(scopes[..i], id);
        assert scopes[..i + 1] == scopes[..i] + [scope];
        ChildrenSnoc(scopes[..i], scope, id);
      }
      i := i + 1;
    }
    assert scopes[..i] == scopes;
  }

  // ---------- building the forest with an explicit stack ----------

  datatype Frame = Frame(scope: Scope, nextChild: nat, children: seq<ScopeNode>)

  ghost function PathOf(stack: seq<Frame>): set<ScopeId> {
    if stack == [] then {} else PathOf(stack[..|stack| - 1]) + {stack[|stack| - 1].scope.id}
  }

  ghost predicate FrameOk(scopes: seq<Scope>, f: Frame) {
    f.scope in scopes && f.nextChild <= |Children(scopes, f.scope.id)|
  }

  ghost predicate StackOk(scopes: seq<Scope>, stack: seq<Frame>) {
    stack != [] ==>
      var top, rest := stack[|stack| - 1], stack[..|stack| - 1];
      FrameOk(scopes, top) && top.scope.id !in PathOf(rest) && StackOk(scopes, rest)
  }

  ghost function Unvisited(scopes: seq<Scope>, f: Frame): (kids: seq<Scope>)
    requires FrameOk(scopes, f)
    ensures Within(kids, scopes)
  {
    Children(scopes, f.scope.id)[f.nextChild..]
  }

  /**
   The root node that the stack will have become once everything on it has been completed, `done` being nodes
   already finished for the top frame but not yet stored in it.
   */
  ghost function Completed(scopes: seq<Scope>, stack: seq<Frame>, done: seq<ScopeNode>): ScopeNode
    requires stack != [] && StackOk(scopes, stack)
    decreases |stack|
  {
    var top, rest := stack[|stack| - 1], stack[..|stack| - 1];
    var node := ScopeNode(top.scope, top.children + (done + Forest(scopes, Unvisited(scopes, top), PathOf(stack))));
    if rest == [] then node else Completed(scopes, rest, [node])
  }

  /** Steps until every frame on the stack has been popped. */
  ghost function Remaining(scopes: seq<Scope>, stack: seq<Frame>): nat
    requires StackOk(scopes, stack)
    decreases |stack|
  {
    if stack == [] then 0 else
      var top, rest := stack[|stack| - 1], stack[..|stack| - 1];
      1 + Steps(scopes, Unvisited(scopes, top), PathOf(stack)) + Remaining(scopes, rest)
  }

  lemma Unfold(scopes: seq<Scope>, rest: seq<Frame>, top: Frame, done: seq<ScopeNode>)
    requires StackOk(scopes, rest) && FrameOk(scopes, top) && top.scope.id !in PathOf(rest)
    ensures StackOk(scopes, rest + [top]) && PathOf(rest + [top]) == PathOf(rest) + {top.scope.id}
    ensures var path, kids := PathOf(rest) + {top.scope.id}, Unvisited(scopes, top);
      var node := ScopeNode(top.scope, top.children + (done + Forest(scopes, kids, path)));
      && Completed(scopes, rest + [top], done) == (if rest == [] then node else Completed(scopes, rest, [node]))
      && Remaining(scopes, rest + [top]) == 1 + Steps(scopes, kids, path) + Remaining(scopes, rest)
  {
    assert (rest + [top])[..|rest|] == rest;
  }

  /** One unfolding of the forest and of its cost. */
  lemma ForestStep(scopes: seq<Scope>, kids: seq<Scope>, path: set<ScopeId>)
    requires kids != [] && Within(kids, scopes)
    ensures kids[0].id in path ==>
      && Forest(scopes, kids, path) == Forest(scopes, kids[1..], path)
      && Steps(scopes, kids, path) == 1 + Steps(scopes, kids[1..], path)
    ensures kids[0].id !in path ==>
      var below, deeper := Children(scopes, kids[0].id), path + {kids[0].id};
      && Forest(scopes, kids, path) == [ScopeNode(kids[0], Forest(scopes, below, deeper))] + Forest(scopes, kids[1..], path)
      && Steps(scopes, kids, path) == 2 + Steps(scopes, below, deeper) + Steps(scopes, kids[1..], path)
  {
  }

  function Advance(f: Frame): Frame {
    f.(nextChild := f.nextChild + 1)
  }

  lemma StepSkip(scopes: seq<Scope>, rest: seq<Frame>, f: Frame)
    requires StackOk(scopes, rest) && FrameOk(scopes, f) && f.scope.id !in PathOf(rest)
    requires var kids := Unvisited(scopes, f); kids != [] && kids[0].id in PathOf(rest) + {f.scope.id}
    ensures FrameOk(scopes, Advance(f))
    ensures StackOk(scopes, rest + [f]) && StackOk(scopes, rest + [Advance(f)])
    ensures PathOf(rest + [Advance(f)]) == PathOf(rest + [f])
    ensures Completed(scopes, rest + [Advance(f)], []) == Completed(scopes, rest + [f], [])
    ensures Remaining(scopes, rest + [Advance(f)]) < Remaining(scopes, rest + [f])
  {
    var kids := Unvisited(scopes, f);
    assert kids[1..] == Unvisited(scopes, Advance(f));
    ForestStep(scopes, kids, PathOf(rest) + {f.scope.id});
    Unfold(scopes, rest, f, []);
    Unfold(scopes, rest, Advance(f), []);
  }

  /** The stack after entering a child: its parent advanced, the child on top. */
  function Entered(rest: seq<Frame>, f: Frame, child: Scope): seq<Frame> {
    rest + [Advance(f)] + [Frame(child, 0, [])]
  }

  lemma EnterPath(scopes: seq<Scope>, rest: seq<Frame>, f: Frame, child: Scope)
    requires StackOk(scopes, rest) && FrameOk(scopes, f) && f.scope.id !in PathOf(rest)
    requires var kids := Unvisited(scopes, f); kids != [] && kids[0] == child && child.id !in PathOf(rest) + {f.scope.id}
    ensures StackOk(scopes, rest + [f]) && StackOk(scopes, rest + [Advance(f)]) && StackOk(scopes, Entered(rest, f, child))
    ensures FrameOk(scopes, Advance(f)) && FrameOk(scopes, Frame(child, 0, []))
    ensures PathOf(rest + [Advance(f)]) == PathOf(rest + [f]) == PathOf(rest) + {f.scope.id}
    ensures PathOf(Entered(rest, f, child)) == PathOf(rest + [f]) + {child.id}
    ensures Unvisited(scopes, Advance(f)) == Unvisited(scopes, f)[1..]
    ensures Unvisited(scopes, Frame(child, 0, [])) == Children(scopes, child.id)
  {
    var entered := Frame(child, 0, []);
    assert Unvisited(scopes, entered) == Children(scopes, child.id);
    Unfold(scopes, rest, f, []);
    Unfold(scopes, rest, Advance(f), []);
    Unfold(scopes, rest + [Advance(f)], entered, []);
  }

  lemma StepEnter(scopes: seq<Scope>, rest: seq<Frame>, f: Frame, child: Scope)
    requires StackOk(scopes, rest) && FrameOk(scopes, f) && f.scope.id !in PathOf(rest)
    requires var kids := Unvisited(scopes, f); kids != [] && kids[0] == child && child.id !in PathOf(rest) + {f.scope.id}
    ensures var next := Entered(rest, f, child);
      && StackOk(scopes, rest + [f]) && StackOk(scopes, next)
      && PathOf(next) == PathOf(rest + [f]) + {child.id}
      && Completed(scopes, next, []) == Completed(scopes, rest + [f], [])
      && Remaining(scopes, next) < Remaining(scopes, rest + [f])
  {
    var kids, path, entered := Unvisited(scopes, f), PathOf(rest) + {f.scope.id}, Frame(child, 0, []);
    EnterPath(scopes, rest, f, child);
    ForestStep(scopes, kids, path);
    var below := Forest(scopes, Children(scopes, child.id), path + {child.id});
    var node := ScopeNode(child, below);
    Unfold(scopes, rest, f, []);
    Unfold(scopes, rest, Advance(f), [node]);
    Unfold(scopes, rest + [Advance(f)], entered, []);
    assert entered.children + ([] + below) == below;
    var others := Forest(scopes, kids[1..], path);
    assert [] + ([node] + others) == [node] + others;
  }

  lemma StepLeave(scopes: seq<Scope>, rest: seq<Frame>, f: Frame)
    requires StackOk(scopes, rest) && FrameOk(scopes, f) && f.scope.id !in PathOf(rest)
    requires Unvisited(scopes, f) == []
    ensures var node := ScopeNode(f.scope, f.children);
      && StackOk(scopes, rest + [f]) && PathOf(rest) == PathOf(rest + [f]) - {f.scope.id}
      && Remaining(scopes, rest) < Remaining(scopes, rest + [f])
      && Completed(scopes, rest + [f], []) == if rest == [] then node else Completed(scopes, rest, [node])
  {
    Unfold(scopes, rest, f, []);
    assert f.children + ([] + []) == f.children;
  }

  /** Storing a finished node in the frame below it. */
  lemma StepAdopt(scopes: seq<Scope>, rest: seq<Frame>, f: Frame, node: ScopeNode)
    requires StackOk(scopes, rest) && FrameOk(scopes, f) && f.scope.id !in PathOf(rest)
    ensures var adopted := rest + [f.(children := f.children + [node])];
      && StackOk(scopes, rest + [f]) && StackOk(scopes, adopted) && PathOf(adopted) == PathOf(rest + [f])
      && Completed(scopes, adopted, []) == Completed(scopes, rest + [f], [node])
      && Remaining(scopes, adopted) == Remaining(scopes, rest + [f])
  {
    var f' := f.(children := f.children + [node]);
    Unfold(scopes, rest, f, [node]);
    Unfold(scopes, rest, f', []);
    var kids := Unvisited(scopes, f);
    assert Unvisited(scopes, f') == kids;
    var others := Forest(scopes, kids, PathOf(rest) + {f.scope.id});
    assert f'.children + ([] + others) == f.children + ([node] + others);
  }

  lemma {:induction false} ForestSnoc(scopes: seq<Scope>, kids: seq<Scope>, s: Scope, path: set<ScopeId>)
    requires Within(kids, scopes) && s in scopes
    ensures Forest(scopes, kids + [s], path) == Forest(scopes, kids, path) + Forest(scopes, [s], path)
  {
    if kids == [] {
      assert kids + [s] == [s];
    } else {
      assert (kids + [s])[1..] == kids[1..] + [s] && (kids + [s])[0] == kids[0];
      ForestSnoc(scopes, kids[1..], s, path);
    }
  }

  /** The stack, its path and the last node finished, with `target` what they will have become in the end. */
  ghost predicate Building(scopes: seq<Scope>, stack: seq<Frame>, path: set<ScopeId>, node: ScopeNode, target: ScopeNode) {
    && StackOk(scopes, stack)
    && path == PathOf(stack)
    && if stack == [] then node == target else Completed(scopes, stack, []) == target
  }

  /** A finished node on its way into the frame below it, if any. */
  function Adopted(stack: seq<Frame>, node: ScopeNode): seq<Frame> {
    if stack == [] then []
    else
      var m := |stack| - 1;
      stack[..m] + [stack[m].(children := stack[m].children + [node])]
  }

  lemma TurnEnter(scopes: seq<Scope>, rest: seq<Frame>, f: Frame, path: set<ScopeId>, node: ScopeNode, target: ScopeNode)
    requires Building(scopes, rest + [f], path, node, target)
    requires var kids := Unvisited(scopes, f); kids != [] && kids[0].id !in path
    ensures var child := Unvisited(scopes, f)[0];
      && Building(scopes, Entered(rest, f, child), path + {child.id}, node, target)
      && Remaining(scopes, Entered(rest, f, child)) < Remaining(scopes, rest + [f])
  {
    assert (rest + [f])[..|rest|] == rest;
    StepEnter(scopes, rest, f, Unvisited(scopes, f)[0]);
  }

  lemma TurnSkip(scopes: seq<Scope>, rest: seq<Frame>, f: Frame, path: set<ScopeId>, node: ScopeNode, target: ScopeNode)
    requires Building(scopes, rest + [f], path, node, target)
    requires var kids := Unvisited(scopes, f); kids != [] && kids[0].id in path
    ensures Building(scopes, rest + [Advance(f)], path, node, target)
    ensures Remaining(scopes, rest + [Advance(f)]) < Remaining(scopes, rest + [f])
  {
    assert (rest + [f])[..|rest|] == rest;
    StepSkip(scopes, rest, f);
  }

  lemma AdoptKeeps(scopes: seq<Scope>, stack: seq<Frame>, node: ScopeNode)
    requires stack != [] && StackOk(scopes, stack)
    ensures var next := Adopted(stack, node);
      && next != [] && StackOk(scopes, next) && PathOf(next) == PathOf(stack)
      && Completed(scopes, next, []) == Completed(scopes, stack, [node])
      && Remaining(scopes, next) == Remaining(scopes, stack)
  {
    var m := |stack| - 1;
    assert stack == stack[..m] + [stack[m]];
    StepAdopt(scopes, stack[..m], stack[m], node);
  }

  lemma TurnLeave(scopes: seq<Scope>, rest: seq<Frame>, f: Frame, path: set<ScopeId>, node: ScopeNode, target: ScopeNode)
    requires Building(scopes, rest + [f], path, node, target)
    requires Unvisited(scopes, f) == []
    ensures var finished := ScopeNode(f.scope, f.children);
      && Building(scopes, Adopted(rest, finished), path - {f.scope.id}, finished, target)
      && Remaining(scopes, Adopted(rest, finished)) < Remaining(scopes, rest + [f])
  {
    assert (rest + [f])[..|rest|] == rest;
    StepLeave(scopes, rest, f);
    if rest != [] { AdoptKeeps(scopes, rest, ScopeNode(f.scope, f.children)); }
  }

  /** One turn of the inner loop: enter the next child, skip one already on the path, or leave the top frame. */
  method Turn(scopes: seq<Scope>, children: ChildIndex, stack: seq<Frame>, path: set<ScopeId>, node: ScopeNode,
              ghost target: ScopeNode)
    returns (stack': seq<Frame>, path': set<ScopeId>, node': ScopeNode)
    requires forall id: ScopeId :: ChildrenIn(children, id) == Children(scopes, id)
    requires stack != [] && Building(scopes, stack, path, node, target)
    ensures Building(scopes, stack', path', node', target)
    ensures Remaining(scopes, stack') < Remaining(scopes, stack)
  {
    var n := |stack| - 1;
    var frame, rest := stack[n], stack[..n];
    assert stack == rest + [frame];
    var kids := ChildrenIn(children, frame.scope.id);
    ghost var unvisited := Unvisited(scopes, frame);
    if frame.nextChild < |kids| {
      var child := kids[frame.nextChild];
      assert unvisited != [] && unvisited[0] == child;
      if child.id !in path {
        TurnEnter(scopes, rest, frame, path, node, target);
        stack', path', node' := Entered(rest, frame, child), path + {child.id}, node;
      } else {
        TurnSkip(scopes, rest, frame, path, node, target);
        stack', path', node' := rest + [Advance(frame)], path, node;
      }
    } else {
      TurnLeave(scopes, rest, frame, path, node, target);
      var finished := ScopeNode(frame.scope, frame.children);
      stack', path', node' := Adopted(rest, finished), path - {frame.scope.id}, finished;
    }
  }

  /** The inner loop of the forest construction: one root and everything below it. */
  method BuildNode(scopes: seq<Scope>, children: ChildIndex, root: Scope) returns (node: ScopeNode)
    requires root in scopes
    requires forall id: ScopeId :: ChildrenIn(children, id) == Children(scopes, id)
    ensures [node] == Forest(scopes, [root], {})
  {
    var path: set<ScopeId> := {root.id};
    var stack := [Frame(root, 0, [])];
    ghost var target := StartsAt(scopes, root);
    node := ScopeNode(root, []);
    while stack != []
      invariant Building(scopes, stack, path, node, target)
      decreases Remaining(scopes, stack)
    {
      stack, path, node := Turn(scopes, children, stack, path, node, target);
    }
  }

  lemma StartsAt(scopes: seq<Scope>, root: Scope) returns (target: ScopeNode)
    requires root in scopes
    ensures var stack := [Frame(root, 0, [])];
      StackOk(scopes, stack) && PathOf(stack) == {root.id} && target == Completed(scopes, stack, [])
    ensures [target] == Forest(scopes, [root], {})
  {
    var frame := Frame(root, 0, []);
    Unfold(scopes, [], frame, []);
    assert [] + [frame] == [frame];
    assert {} + {root.id} == {root.id};
    var below := Children(scopes, root.id);
    assert Unvisited(scopes, frame) == below;
    ForestStep(scopes, [root], {});
    assert [] + ([] + Forest(scopes, below, {root.id})) == Forest(scopes, below, {root.id});
    target := Completed(scopes, [frame], []);
    assert [root][1..] == [];
  }

  // ---------- what the forest is ----------

  function NotOn(kids: seq<Scope>, path: set<ScopeId>): seq<Scope> {
    if kids == [] then []
    else if kids[0].id in path then NotOn(kids[1..], path)
    else [kids[0]] + NotOn(kids[1..], path)
  }

  lemma SelectFirst(scopes: seq<Scope>, parent: Option<ScopeId>, path: set<ScopeId>)
    requires scopes != []
    ensures var s, rest := scopes[0], NotOn(WithParent(scopes[1..], parent), path);
      NotOn(WithParent(scopes, parent), path) == if s.parent == parent && s.id !in path then [s] + rest else rest
  {
    var s, kids := scopes[0], WithParent(scopes, parent);
    assert s.parent == parent ==> kids[0] == s && kids[1..] == WithParent(scopes[1..], parent);
  }

  lemma {:induction false} SelectedInOrder(scopes: seq<Scope>, parent: Option<ScopeId>, path: set<ScopeId>)
    ensures Subsequence(NotOn(WithParent(scopes, parent), path), scopes)
  {
    if scopes != [] {
      SelectFirst(scopes, parent, path);
      SelectedInOrder(scopes[1..], parent, path);
      var s, rest := scopes[0], NotOn(WithParent(scopes[1..], parent), path);
      assert ([s] + rest)[1..] == rest;
    }
  }

  lemma {:induction false} SelectedAll(scopes: seq<Scope>, parent: Option<ScopeId>, path: set<ScopeId>)
    ensures AllWithParent(NotOn(WithParent(scopes, parent), path), scopes, parent, path)
  {
    if scopes != [] {
      SelectFirst(scopes, parent, path);
      SelectedAll(scopes[1..], parent, path);
      assert scopes == [scopes[0]] + scopes[1..];
    }
  }

  /** A node whose children are the forest below it. */
  ghost predicate Grown(scopes: seq<Scope>, path: set<ScopeId>, node: ScopeNode) {
    && node.scope in scopes && node.scope.id !in path
    && node.children == Forest(scopes, Children(scopes, node.scope.id), path + {node.scope.id})
  }

  lemma {:induction false} ForestTops(scopes: seq<Scope>, kids: seq<Scope>, path: set<ScopeId>)
    requires Within(kids, scopes)
    ensures Tops(Forest(scopes, kids, path)) == NotOn(kids, path)
    ensures forall i :: 0 <= i < |Forest(scopes, kids, path)| ==> Grown(scopes, path, Forest(scopes, kids, path)[i])
  {
    if kids != [] {
      ForestStep(scopes, kids, path);
      ForestTops(scopes, kids[1..], path);
      if kids[0].id !in path {
        var node := ScopeNode(kids[0], Forest(scopes, Children(scopes, kids[0].id), path + {kids[0].id}));
        var others := Forest(scopes, kids[1..], path);
        assert kids[0] in kids && Grown(scopes, path, node);
        assert Tops([node] + others) == [node.scope] + Tops(others);
      }
    }
  }

  /** The computed forest is the one described, below any parent. */
  lemma {:induction false} ForestDescribed(scopes: seq<Scope>, parent: Option<ScopeId>, path: set<ScopeId>)
    ensures IsForestOf(Forest(scopes, WithParent(scopes, parent), path), scopes, parent, path)
    decreases |ScopeIds(scopes) - path|
  {
    var kids := WithParent(scopes, parent);
    var forest := Forest(scopes, kids, path);
    SelectedInOrder(scopes, parent, path);
    SelectedAll(scopes, parent, path);
    ForestTops(scopes, kids, path);
    forall i | 0 <= i < |forest|
      ensures IsForestOf(forest[i].children, scopes, Some(forest[i].scope.id), path + {forest[i].scope.id})
    {
      assert Grown(scopes, path, forest[i]);
      PathGrows(scopes, forest[i].scope, path);
      ForestDescribed(scopes, Some(forest[i].scope.id), path + {forest[i].scope.id});
    }
  }

  /** All roots in input order, all children of every node in input order, no identifier twice on a path. */
  method ScopeTree(scopes: seq<Scope>) returns (roots: seq<ScopeNode>)
    ensures roots == Tree(scopes)
    ensures IsForestOf(roots, scopes, None, {})
  {
    ForestDescribed(scopes, None, {});
    var children := IndexChildren(scopes);
    var tops := Roots(scopes);
    roots := [];
    var i := 0;
    while i < |tops|
      invariant i <= |tops|
      invariant roots == Forest(scopes, tops[..i], {})
    {
      var node := BuildNode(scopes, children, tops[i]);
      assert tops[..i + 1] == tops[..i] + [tops[i]];
      ForestSnoc(scopes, tops[..i], tops[i], {});
      roots := roots + [node];
      i := i + 1;
    }
    assert tops[..i] == tops;
  }

  // ---------- printing ----------

  function Preorder(forest: seq<ScopeNode>, depth: nat): seq<Line>
    decreases forest
  {
    if forest == [] then []
    else [Line(depth, forest[0].scope)] + Preorder(forest[0].children, depth + 1) + Preorder(forest[1..], depth)
  }

  function Indent(depth: nat): string {
    if depth == 0 then "" else Indent(depth - 1) + "  "
  }

  function NameOr(name: Option<string>, default: string): string {
    if name.Some? then name.value else default
  }

  function LineText(line: Line): string {
    Indent(line.depth) + NameOr(line.scope.name, "unnamed") + "#" + Decimal(line.scope.id) + "\n"
  }

  function Text(lines: seq<Line>): string {
    if lines == [] then "" else LineText(lines[0]) + Text(lines[1..])
  }

  datatype Visit = Visit(scope: Scope, depth: nat, leaving: bool)

  /** Entering visits of `kids`, stacked so that the first one is on top. */
  function Visits(kids: seq<Scope>, depth: nat): seq<Visit> {
    if kids == [] then [] else Visits(kids[1..], depth) + [Visit(kids[0], depth, false)]
  }

  ghost predicate VisitsOk(scopes: seq<Scope>, stack: seq<Visit>) {
    stack != [] ==> stack[|stack| - 1].scope in scopes && VisitsOk(scopes, stack[..|stack| - 1])
  }

  /** The lines still to be printed. */
  ghost function Pending(scopes: seq<Scope>, stack: seq<Visit>, path: set<ScopeId>): seq<Line>
    requires VisitsOk(scopes, stack)
  {
    if stack == [] then [] else
      var top, rest := stack[|stack| - 1], stack[..|stack| - 1];
      if top.leaving then Pending(scopes, rest, path - {top.scope.id})
      else Preorder(Forest(scopes, [top.scope], path), top.depth) + Pending(scopes, rest, path)
  }

  ghost function Work(scopes: seq<Scope>, stack: seq<Visit>, path: set<ScopeId>): nat
    requires VisitsOk(scopes, stack)
  {
    if stack == [] then 0 else
      var top, rest := stack[|stack| - 1], stack[..|stack| - 1];
      if top.leaving then 1 + Work(scopes, rest, path - {top.scope.id})
      else Steps(scopes, [top.scope], path) + Work(scopes, rest, path)
  }

  lemma {:induction false} PreorderConcat(a: seq<ScopeNode>, b: seq<ScopeNode>, depth: nat)
    ensures Preorder(a + b, depth) == Preorder(a, depth) + Preorder(b, depth)
  {
    if a == [] {
      assert a + b == b;
    } else {
      assert (a + b)[1..] == a[1..] + b && (a + b)[0] == a[0];
      PreorderConcat(a[1..], b, depth);
    }
  }

  lemma {:induction false} ForestCons(scopes: seq<Scope>, kids: seq<Scope>, path: set<ScopeId>)
    requires kids != [] && Within(kids, scopes)
    ensures Forest(scopes, kids, path) == Forest(scopes, [kids[0]], path) + Forest(scopes, kids[1..], path)
    ensures Steps(scopes, kids, path) == Steps(scopes, [kids[0]], path) + Steps(scopes, kids[1..], path)
  {
    assert [kids[0]][1..] == [];
  }

  lemma PendingTop(scopes: seq<Scope>, rest: seq<Visit>, top: Visit, path: set<ScopeId>)
    requires VisitsOk(scopes, rest) && top.scope in scopes
    ensures VisitsOk(scopes, rest + [top])
    ensures top.leaving ==>
      && Pending(scopes, rest + [top], path) == Pending(scopes, rest, path - {top.scope.id})
      && Work(scopes, rest + [top], path) == 1 + Work(scopes, rest, path - {top.scope.id})
    ensures !top.leaving ==>
      && Pending(scopes, rest + [top], path) == Preorder(Forest(scopes, [top.scope], path), top.depth) + Pending(scopes, rest, path)
      && Work(scopes, rest + [top], path) == Steps(scopes, [top.scope], path) + Work(scopes, rest, path)
  {
    assert (rest + [top])[..|rest|] == rest;
  }

  lemma {:induction false} PendingKids(scopes: seq<Scope>, rest: seq<Visit>, kids: seq<Scope>, depth: nat, path: set<ScopeId>)
    requires VisitsOk(scopes, rest) && Within(kids, scopes)
    ensures VisitsOk(scopes, rest + Visits(kids, depth))
    ensures Pending(scopes, rest + Visits(kids, depth), path)
         == Preorder(Forest(scopes, kids, path), depth) + Pending(scopes, rest, path)
    ensures Work(scopes, rest + Visits(kids, depth), path) == Steps(scopes, kids, path) + Work(scopes, rest, path)
  {
    if kids == [] {
      assert rest + Visits(kids, depth) == rest;
    } else {
      var top, under := Visit(kids[0], depth, false), rest + Visits(kids[1..], depth);
      assert rest + Visits(kids, depth) == under + [top];
      PendingKids(scopes, rest, kids[1..], depth, path);
      PendingTop(scopes, under, top, path);
      PreorderFirst(scopes, kids, depth, path, Pending(scopes, rest, path));
    }
  }

  lemma PreorderFirst(scopes: seq<Scope>, kids: seq<Scope>, depth: nat, path: set<ScopeId>, after: seq<Line>)
    requires kids != [] && Within(kids, scopes)
    ensures Steps(scopes, kids, path) == Steps(scopes, [kids[0]], path) + Steps(scopes, kids[1..], path)
    ensures Preorder(Forest(scopes, kids, path), depth) + after
         == Preorder(Forest(scopes, [kids[0]], path), depth) + (Preorder(Forest(scopes, kids[1..], path), depth) + after)
  {
    ForestCons(scopes, kids, path);
    var first, others := Forest(scopes, [kids[0]], path), Forest(scopes, kids[1..], path);
    PreorderConcat(first, others, depth);
    SeqAssociative(Preorder(first, depth), Preorder(others, depth), after);
  }

  /** Printing a scope: its line, then its children above a leaving visit that restores the path. */
  lemma VisitScope(scopes: seq<Scope>, rest: seq<Visit>, top: Visit, path: set<ScopeId>)
    requires VisitsOk(scopes, rest) && top.scope in scopes && !top.leaving && top.scope.id !in path
    ensures var id := top.scope.id;
      var next := rest + [top.(leaving := true)] + Visits(Children(scopes, id), top.depth + 1);
      && VisitsOk(scopes, rest + [top]) && VisitsOk(scopes, next)
      && Pending(scopes, rest + [top], path) == [Line(top.depth, top.scope)] + Pending(scopes, next, path + {id})
      && Work(scopes, rest + [top], path) > Work(scopes, next, path + {id})
  {
    var id, kids, leave := top.scope.id, Children(scopes, top.scope.id), top.(leaving := true);
    PendingTop(scopes, rest, top, path);
    PendingTop(scopes, rest, leave, path + {id});
    PendingKids(scopes, rest + [leave], kids, top.depth + 1, path + {id});
    assert path + {id} - {id} == path;
    ForestStep(scopes, [top.scope], path);
    assert [top.scope][1..] == [];
    PreorderNode(top.scope, Forest(scopes, kids, path + {id}), top.depth);
    SeqAssociative([Line(top.depth, top.scope)], Preorder(Forest(scopes, kids, path + {id}), top.depth + 1), Pending(scopes, rest, path));
  }

  lemma PreorderNode(scope: Scope, below: seq<ScopeNode>, depth: nat)
    ensures Preorder([ScopeNode(scope, below)], depth) == [Line(depth, scope)] + Preorder(below, depth + 1)
  {
    assert [ScopeNode(scope, below)][1..] == [];
  }

  /** The text of one line, written piece by piece. */
  method WriteLine(before: string, scope: Scope, depth: nat) returns (out: string)
    ensures out == before + LineText(Line(depth, scope))
  {
    out := before;
    var d := 0;
    while d < depth
      invariant d <= depth && out == before + Indent(d)
    {
      out := out + "  ";
      d := d + 1;
    }
    out := out + NameOr(scope.name, "unnamed");
    out := out + "#";
    out := out + Decimal(scope.id);
    out := out + "\n";
  }

  /** A leaving visit, or one whose identifier is already on the path, prints nothing. */
  lemma VisitSilently(scopes: seq<Scope>, rest: seq<Visit>, top: Visit, path: set<ScopeId>)
    requires VisitsOk(scopes, rest) && top.scope in scopes && (top.leaving || top.scope.id in path)
    ensures var path' := if top.leaving then path - {top.scope.id} else path;
      && VisitsOk(scopes, rest + [top])
      && Pending(scopes, rest + [top], path) == Pending(scopes, rest, path')
      && Work(scopes, rest + [top], path) > Work(scopes, rest, path')
  {
    PendingTop(scopes, rest, top, path);
    ForestStep(scopes, [top.scope], path);
    assert [top.scope][1..] == [];
  }

  lemma {:induction false} TextSnoc(lines: seq<Line>, line: Line)
    ensures Text(lines + [line]) == Text(lines) + LineText(line)
  {
    if lines == [] {
      assert lines + [line] == [line];
    } else {
      assert (lines + [line])[1..] == lines[1..] + [line] && (lines + [line])[0] == lines[0];
      TextSnoc(lines[1..], line);
    }
  }

  lemma PrintScope(scopes: seq<Scope>, rest: seq<Visit>, top: Visit, path: set<ScopeId>, printed: seq<Line>, all: seq<Line>)
    requires VisitsOk(scopes, rest) && top.scope in scopes && !top.leaving && top.scope.id !in path
    requires VisitsOk(scopes, rest + [top]) && printed + Pending(scopes, rest + [top], path) == all
    ensures var next := rest + [top.(leaving := true)] + Visits(Children(scopes, top.scope.id), top.depth + 1);
      && VisitsOk(scopes, next)
      && printed + [Line(top.depth, top.scope)] + Pending(scopes, next, path + {top.scope.id}) == all
      && Work(scopes, next, path + {top.scope.id}) < Work(scopes, rest + [top], path)
    ensures Text(printed + [Line(top.depth, top.scope)]) == Text(printed) + LineText(Line(top.depth, top.scope))
  {
    var line := Line(top.depth, top.scope);
    var next := rest + [top.(leaving := true)] + Visits(Children(scopes, top.scope.id), top.depth + 1);
    VisitScope(scopes, rest, top, path);
    SeqAssociative(printed, [line], Pending(scopes, next, path + {top.scope.id}));
    TextSnoc(printed, line);
  }

  /** `printed` is what has been written and the stack what is still to come; together they are `all`. */
  ghost predicate Printing(scopes: seq<Scope>, stack: seq<Visit>, path: set<ScopeId>, out: string, printed: seq<Line>, all: seq<Line>) {
    VisitsOk(scopes, stack) && printed + Pending(scopes, stack, path) == all && out == Text(printed)
  }

  /** One iteration of the rendering loop: the top visit enters, leaves, or repeats an identifier. */
  method VisitTop(scopes: seq<Scope>, children: ChildIndex, stack: seq<Visit>, path: set<ScopeId>, out: string,
                  ghost printed: seq<Line>, ghost all: seq<Line>)
    returns (stack': seq<Visit>, path': set<ScopeId>, out': string, ghost printed': seq<Line>)
    requires stack != [] && Printing(scopes, stack, path, out, printed, all)
    requires forall id: ScopeId :: ChildrenIn(children, id) == Children(scopes, id)
    ensures Printing(scopes, stack', path', out', printed', all)
    ensures Work(scopes, stack', path') < Work(scopes, stack, path)
  {
    var n := |stack| - 1;
    var top, rest := stack[n], stack[..n];
    assert stack == rest + [top];
    stack', path', out', printed' := rest, path, out, printed;
    if top.leaving {
      VisitSilently(scopes, rest, top, path);
      path' := path - {top.scope.id};
    } else if top.scope.id in path {
      VisitSilently(scopes, rest, top, path);
    } else {
      PrintScope(scopes, rest, top, path, printed, all);
      out' := WriteLine(out, top.scope, top.depth);
      printed' := printed + [Line(top.depth, top.scope)];
      stack' := rest + [top.(leaving := true)] + Visits(ChildrenIn(children, top.scope.id), top.depth + 1);
      path' := path + {top.scope.id};
    }
  }

  /** Reading the listing of a forest back gives the forest. */
  lemma {:induction false} PreorderRebuilds(forest: seq<ScopeNode>, depth: nat, rest: seq<Line>)
    requires rest == [] || rest[0].depth < depth
    ensures Rebuild(Preorder(forest, depth) + rest, depth) == (forest, rest)
    decreases forest
  {
    if forest == [] {
      assert Preorder(forest, depth) + rest == rest;
    } else {
      var first, below, others := Line(depth, forest[0].scope), Preorder(forest[0].children, depth + 1), Preorder(forest[1..], depth);
      ListingSplits(first, below, others, rest);
      PreorderDepth(forest[1..], depth);
      PreorderRebuilds(forest[0].children, depth + 1, others + rest);
      PreorderRebuilds(forest[1..], depth, rest);
      assert [ScopeNode(forest[0].scope, forest[0].children)] + forest[1..] == forest;
    }
  }

  lemma ListingSplits(first: Line, below: seq<Line>, others: seq<Line>, rest: seq<Line>)
    ensures var all := [first] + below + others + rest; all != [] && all[0] == first && all[1..] == below + (others + rest)
  {
  }

  lemma PreorderDepth(forest: seq<ScopeNode>, depth: nat)
    ensures forest != [] ==> Preorder(forest, depth) != [] && Preorder(forest, depth)[0] == Line(depth, forest[0].scope)
    ensures forest == [] ==> Preorder(forest, depth) == []
  {
  }

  lemma {:induction false} DeeperLines(forest: seq<ScopeNode>, depth: nat, d: nat)
    requires d < depth
    ensures AtDepth(Preorder(forest, depth), d) == []
    decreases forest
  {
    if forest != [] {
      DeeperLines(forest[0].children, depth + 1, d);
      DeeperLines(forest[1..], depth, d);
      var first, below, others := [Line(depth, forest[0].scope)], Preorder(forest[0].children, depth + 1), Preorder(forest[1..], depth);
      AtDepthConcat(first, below, d);
      AtDepthConcat(first + below, others, d);
      assert first[1..] == [];
    }
  }

  lemma {:induction false} TopLines(forest: seq<ScopeNode>, depth: nat)
    ensures AtDepth(Preorder(forest, depth), depth) == Tops(forest)
    decreases |forest|
  {
    if forest != [] {
      DeeperLines(forest[0].children, depth + 1, depth);
      TopLines(forest[1..], depth);
      var first, below, others := [Line(depth, forest[0].scope)], Preorder(forest[0].children, depth + 1), Preorder(forest[1..], depth);
      AtDepthConcat(first, below, depth);
      AtDepthConcat(first + below, others, depth);
      assert first[1..] == [];
      assert Tops(forest) == [forest[0].scope] + Tops(forest[1..]);
    }
  }

  /** `lines` list the forest of `scopes`: they read back as it, its roots unindented and in input order. */
  ghost predicate Lists(lines: seq<Line>, scopes: seq<Scope>) {
    && Rebuild(lines, 0).1 == [] && IsForestOf(Rebuild(lines, 0).0, scopes, None, {})
    && Subsequence(AtDepth(lines, 0), scopes) && AllWithParent(AtDepth(lines, 0), scopes, None, {})
  }

  lemma TreeListed(scopes: seq<Scope>)
    ensures Lists(Preorder(Tree(scopes), 0), scopes)
  {
    ForestDescribed(scopes, None, {});
    PreorderRebuilds(Tree(scopes), 0, []);
    assert Preorder(Tree(scopes), 0) + [] == Preorder(Tree(scopes), 0);
    TopLines(Tree(scopes), 0);
  }

  /** The text has one line per listed scope: two spaces per level, its name, `#`, its number. */
  lemma LineTextShape(line: Line)
    ensures var text, shift := LineText(line), 2 * line.depth;
      && |text| > shift && (forall i :: 0 <= i < shift ==> text[i] == ' ')
      && text[shift..] == (if line.scope.name.Some? then line.scope.name.value else "unnamed") + "#" + Decimal(line.scope.id) + "\n"
  {
    IndentSpaces(line.depth);
    var rest := NameOr(line.scope.name, "unnamed") + "#" + Decimal(line.scope.id) + "\n";
    assert LineText(line) == Indent(line.depth) + rest;
  }

  lemma {:induction false} IndentSpaces(depth: nat)
    ensures |Indent(depth)| == 2 * depth && forall i :: 0 <= i < 2 * depth ==> Indent(depth)[i] == ' '
  {
    if depth > 0 {
      IndentSpaces(depth - 1);
    }
  }

  method PrintTree(scopes: seq<Scope>) returns (out: string)
    ensures out == Text(Preorder(Tree(scopes), 0))
  {
    var children := IndexChildren(scopes);
    var stack := Visits(Roots(scopes), 0);
    var path: set<ScopeId> := {};
    out := "";
    ghost var all, printed: seq<Line> := Preorder(Tree(scopes), 0), [];
    PendingKids(scopes, [], Roots(scopes), 0, {});
    assert [] + stack == stack;
    while stack != []
      invariant Printing(scopes, stack, path, out, printed, all)
      decreases Work(scopes, stack, path)
    {
      stack, path, out, printed := VisitTop(scopes, children, stack, path, out, printed, all);
    }
    assert Pending(scopes, stack, path) == [] && printed + [] == printed;
  }

  method RenderScopeTree(scopes: seq<Scope>) returns (out: string)
    ensures out == Text(Preorder(Tree(scopes), 0))
    ensures Lists(Preorder(Tree(scopes), 0), scopes)
  {
    out := PrintTree(scopes);
    TreeListed(scopes);
  }

  /** The two-line text of a scope and its only child. */
  lemma RenderedPair(root: Scope, child: Scope)
    requires root.id == 1 && root.parent == None && root.name == Some("root")
    requires child.id == 2 && child.parent == Some(1) && child.name == Some("child")
    ensures Text(Preorder(Tree([root, child]), 0)) == "root#1\n  child#2\n"
  {
    PairTree(root, child);
    var lines := [Line(0, root), Line(1, child)];
    assert Indent(1) == Indent(0) + "  ";
    assert LineText(lines[0]) == "root#1\n" && LineText(lines[1]) == "  child#2\n";
    assert lines[1..] == [lines[1]] && lines[1..][1..] == [];
    assert Text(lines[1..]) == LineText(lines[1]) + "";
  }

  lemma WithParentPair(a: Scope, b: Scope, parent: Option<ScopeId>)
    ensures WithParent([a, b], parent) == (if a.parent == parent then [a] else []) + (if b.parent == parent then [b] else [])
  {
    assert [a, b][1..] == [b] && [b][1..] == [];
    assert WithParent([b], parent) == if b.parent == parent then [b] else [];
  }

  lemma OneTop(scopes: seq<Scope>, s: Scope, path: set<ScopeId>)
    requires s in scopes && s.id !in path
    ensures Forest(scopes, [s], path) == [ScopeNode(s, Forest(scopes, Children(scopes, s.id), path + {s.id}))]
  {
    ForestStep(scopes, [s], path);
    assert [s][1..] == [];
  }

  lemma PreorderOne(node: ScopeNode, depth: nat)
    ensures Preorder([node], depth) == [Line(depth, node.scope)] + Preorder(node.children, depth + 1)
  {
    assert [node][1..] == [] && Preorder([], depth) == [];
  }

  lemma PairTree(root: Scope, child: Scope)
    requires root.id != child.id && root.parent == None && child.parent == Some(root.id)
    ensures Preorder(Tree([root, child]), 0) == [Line(0, root), Line(1, child)]
  {
    var scopes, leaf := [root, child], ScopeNode(child, []);
    WithParentPair(root, child, None);
    WithParentPair(root, child, Some(root.id));
    WithParentPair(root, child, Some(child.id));
    OneTop(scopes, child, {root.id});
    OneTop(scopes, root, {});
    assert {} + {root.id} == {root.id};
    assert Forest(scopes, Children(scopes, child.id), {root.id} + {child.id}) == [];
    assert Tree(scopes) == [ScopeNode(root, [leaf])];
    PreorderOne(leaf, 1);
    PreorderOne(ScopeNode(root, [leaf]), 0);
    assert Preorder([], 2) == [];
  }
}
