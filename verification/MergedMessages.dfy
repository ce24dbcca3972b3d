/** Exit messages under merging: exactly when their order of arrival does not matter. */
module MergedMessages {
  import opened Core
  import opened Wire
  import opened Retention
  import opened Recovery
  import opened Merging

  function MessageFor(s: Scope, outcome: Outcome): Option<string> {
    match outcome
    case Success => s.exitMessages.success
    case Failure => s.exitMessages.failure
    case Aborted => s.exitMessages.aborted
  }

  lemma MessagesEqual(s: Scope, t: Scope)
    requires forall o :: MessageFor(s, o) == MessageFor(t, o)
    ensures s.exitMessages == t.exitMessages
  {
    assert MessageFor(s, Success) == MessageFor(t, Success) && MessageFor(s, Failure) == MessageFor(t, Failure);
    assert MessageFor(s, Aborted) == MessageFor(t, Aborted);
  }

  lemma MergedMessage(s: Scope, x: Scope, o: Outcome)
    ensures MessageFor(MergeScope(s, x), o) ==
      if s.exitedAt.None? || x.exitedAt.Some? then Or(MessageFor(x, o), MessageFor(s, o)) else MessageFor(s, o)
  {
  }

  /**
   Two snapshots of one scope agree on its messages: of two open ones or two closed ones, none replaces a message of
   the other; a closed one has every message that an open one has.
   */
  ghost predicate MessagesAgree(x: Scope, y: Scope) {
    forall o :: MessageAgrees(x, y, o)
  }

  predicate MessageAgrees(x: Scope, y: Scope, o: Outcome) {
    var a, b := MessageFor(x, o), MessageFor(y, o);
    if x.exitedAt.Some? == y.exitedAt.Some? then a.Some? && b.Some? ==> a == b
    else if x.exitedAt.Some? then b.Some? ==> a.Some?
    else a.Some? ==> b.Some?
  }

  /** Two snapshots merge to the same messages in either order exactly if they agree. */
  lemma MessagesCommute(x: Scope, y: Scope)
    requires x.id == y.id && !Contradicts(x, y)
    ensures AddScope([x], y) == AddScope([y], x) <==> MessagesAgree(x, y)
  {
    assert AddScope([x], y) == [MergeScope(x, y)] && AddScope([y], x) == [MergeScope(y, x)];
    forall o
      ensures MessageFor(MergeScope(x, y), o) == MessageFor(MergeScope(y, x), o) <==> MessageAgrees(x, y, o)
    {
      MergedMessage(x, y, o);
      MergedMessage(y, x, o);
    }
    if MessagesAgree(x, y) {
      assert forall o :: MessageAgrees(x, y, o);
      MessagesEqual(MergeScope(x, y), MergeScope(y, x));
    }
  }

  ghost predicate AgreeMessages(S: set<Scope>) {
    forall x, y :: x in S && y in S && x.id == y.id ==> MessagesAgree(x, y)
  }

  /** A snapshot that counts for the messages of `s`: a closed one once the scope is closed, an open one until then. */
  predicate Counts(x: Scope, s: Scope) {
    x.id == s.id && x.exitedAt.Some? == s.exitedAt.Some?
  }

  /** The message of a scope is the one that the snapshots which count have, if any has one. */
  ghost predicate Says(S: set<Scope>, s: Scope, o: Outcome) {
    && (forall x :: x in S && Counts(x, s) && MessageFor(x, o).Some? ==> MessageFor(s, o) == MessageFor(x, o))
    && (MessageFor(s, o).Some? ==> exists x :: x in S && Counts(x, s) && MessageFor(x, o).Some?)
  }

  ghost predicate HoldsMessages(S: set<Scope>, scopes: seq<Scope>) {
    forall s, o :: s in scopes ==> Says(S, s, o)
  }

  lemma OtherSays(S: set<Scope>, s: Scope, x: Scope, o: Outcome)
    requires Says(S, s, o) && !Counts(x, s)
    ensures Says(S + {x}, s, o)
  {
    if MessageFor(s, o).Some? {
      var w :| w in S && Counts(w, s) && MessageFor(w, o).Some?;
      assert w in S + {x};
    }
  }

  lemma NewSays(S: set<Scope>, x: Scope, o: Outcome)
    requires forall y :: y in S ==> y.id != x.id
    ensures Says(S + {x}, x, o)
  {
    assert x in S + {x} && Counts(x, x);
  }

  /** The merged scope has what both say. */
  lemma MergedSays(S: set<Scope>, s: Scope, x: Scope, o: Outcome)
    requires Says(S, s, o) && Described(S, s) && s.id == x.id && (s.exitedAt.Some? && x.exitedAt.Some? ==> s.exitedAt == x.exitedAt)
    requires AgreeMessages(S + {x})
    ensures Says(S + {x}, MergeScope(s, x), o)
  {
    var S', m := S + {x}, MergeScope(s, x);
    MergedMessage(s, x, o);
    assert x in S';
    if MessageFor(s, o).Some? {
      var w :| w in S && Counts(w, s) && MessageFor(w, o).Some?;
      assert w in S' && MessagesAgree(w, x) && MessageAgrees(w, x, o);
    }
    forall y | y in S' && Counts(y, m) && MessageFor(y, o).Some?
      ensures MessageFor(m, o) == MessageFor(y, o)
    {
      assert MessagesAgree(y, x) && MessageAgrees(y, x, o);
    }
    if MessageFor(m, o).Some? {
      assert exists y :: y in S' && Counts(y, m) && MessageFor(y, o).Some?;
    }
  }

  lemma AddAgreeingMessages(S: set<Scope>, scopes: seq<Scope>, x: Scope)
    requires HoldsScopes(S, scopes) && HoldsMessages(S, scopes) && AgreeScopes(S + {x}) && AgreeMessages(S + {x})
    ensures HoldsMessages(S + {x}, AddScope(scopes, x))
  {
    var k, scopes' := IndexOf(scopes, x.id), AddScope(scopes, x);
    AddAgreeingScope(S, scopes, x);
    forall s, o | s in scopes'
      ensures Says(S + {x}, s, o)
    {
      if k.None? {
        IndexOfNone(scopes, x.id);
        if s in scopes {
          OtherSays(S, s, x, o);
        } else {
          NewToAll(S, scopes, x);
          NewSays(S, x, o);
        }
      } else {
        MergedEntry(S, scopes, x, k.value, s, o);
      }
    }
  }

  lemma NewToAll(S: set<Scope>, scopes: seq<Scope>, x: Scope)
    requires HoldsScopes(S, scopes) && IndexOf(scopes, x.id) == None
    ensures forall y :: y in S ==> y.id != x.id
  {
    forall y | y in S
      ensures y.id != x.id
    {
      assert IndexOf(scopes, y.id).Some?;
    }
  }

  lemma MergedEntry(S: set<Scope>, scopes: seq<Scope>, x: Scope, k: nat, s: Scope, o: Outcome)
    requires HoldsScopes(S, scopes) && HoldsMessages(S, scopes) && AgreeMessages(S + {x})
    requires IndexOf(scopes, x.id) == Some(k) && ScopeIssue(scopes, x) == [] && s in AddScope(scopes, x)
    ensures Says(S + {x}, s, o)
  {
    var e := scopes[k];
    assert e in scopes && !Contradicts(e, x);
    var j :| 0 <= j < |scopes| && AddScope(scopes, x)[j] == s;
    if j == k {
      MergedSays(S, e, x, o);
    } else {
      assert IndexOf(scopes, scopes[j].id) == Some(j) && scopes[j] in scopes;
      OtherSays(S, s, x, o);
    }
  }

  lemma {:induction false} AgreeingMessagesFold(parts: seq<Part>)
    requires AgreeScopes(Snapshots(parts)) && AgreeRecords(RecordsOf(parts)) && AgreeMessages(Snapshots(parts))
    ensures HoldsMessages(Snapshots(parts), Fold(EMPTY, parts).scopes)
  {
    if parts != [] {
      var n := |parts| - 1;
      var init, p := parts[..n], parts[n];
      assert parts == init + [p];
      SnapshotsSnoc(init, p);
      AgreeingFold(init);
      AgreeingMessagesFold(init);
      if p.scope.Some? {
        AddAgreeingMessages(Snapshots(init), Fold(EMPTY, init).scopes, p.scope.value);
      } else {
        assert Snapshots(parts) == Snapshots(init);
      }
    }
  }

  lemma SameMessages(S: set<Scope>, s: Scope, t: Scope)
    requires Face(s) == Face(t) && forall o :: Says(S, s, o) && Says(S, t, o)
    ensures s == t
  {
    forall o
      ensures MessageFor(s, o) == MessageFor(t, o)
    {
      assert Says(S, s, o) && Says(S, t, o);
    }
    MessagesEqual(s, t);
  }

  lemma ScopesWithin(S: set<Scope>, a: seq<Scope>, b: seq<Scope>)
    requires AgreeScopes(S) && HoldsScopes(S, a) && HoldsScopes(S, b) && HoldsMessages(S, a) && HoldsMessages(S, b)
    ensures forall s :: s in a ==> s in b
  {
    SameFaces(S, a, b);
    forall s | s in a
      ensures s in b
    {
      var t :| t in b && Face(t) == Face(s);
      SameMessages(S, s, t);
    }
  }

  /** Merging theorem, messages included: snapshots that agree on them too give the very same scopes in any order. */
  lemma MergeWithMessages(a: seq<Part>, b: seq<Part>)
    requires Snapshots(a) == Snapshots(b) && RecordsOf(a) == RecordsOf(b)
    requires AgreeScopes(Snapshots(a)) && AgreeRecords(RecordsOf(a)) && AgreeMessages(Snapshots(a))
    ensures forall s :: s in Fold(EMPTY, a).scopes <==> s in Fold(EMPTY, b).scopes
  {
    AgreeingFold(a);
    AgreeingFold(b);
    AgreeingMessagesFold(a);
    AgreeingMessagesFold(b);
    ScopesWithin(Snapshots(a), Fold(EMPTY, a).scopes, Fold(EMPTY, b).scopes);
    ScopesWithin(Snapshots(a), Fold(EMPTY, b).scopes, Fold(EMPTY, a).scopes);
  }

  /** A message replaced in a later snapshot of an open scope: what is left depends on which one is read last. */
  lemma MessagesDependOnOrder(id: ScopeId, x: string, y: string)
    requires x != y
    ensures var a := Scope(id, None, 0, None, None, ExitMessages(Some(x), None, None));
      var b := a.(exitMessages := ExitMessages(Some(y), None, None));
      && !Contradicts(a, b)
      && AddScope([a], b) == [b] && AddScope([b], a) == [a]
  {
  }
}
