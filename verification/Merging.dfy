/** Merging overlapping fragments of one run: independent of arrival order and of repetition. */
module Merging {
  import opened Core
  import opened Wire
  import opened Retention
  import opened Recovery

  // ---------- a closed scope is never reopened ----------

  /** Scope `id` sits at position `i` with this identity and, once closed, this exit time. */
  ghost predicate Settled(scopes: seq<Scope>, i: nat, s: Scope) {
    && i < |scopes| && IndexOf(scopes, s.id) == Some(i)
    && SameIdentity(scopes[i], s)
    && (s.exitedAt.Some? ==> scopes[i].exitedAt == s.exitedAt)
  }

  lemma AddScopeSettled(scopes: seq<Scope>, incoming: Scope, i: nat, s: Scope)
    requires Settled(scopes, i, s)
    ensures Settled(AddScope(scopes, incoming), i, s)
  {
    var k := IndexOf(scopes, incoming.id);
    if k.None? {
      IndexOfSnoc(scopes, incoming, s.id);
    } else {
      IndexOfUpdate(scopes, k.value, MergeScope(scopes[k.value], incoming), s.id);
    }
  }

  /** Whatever arrives later, consistent or not, first metadata and a first exit time stand. */
  lemma {:induction false} NeverReopened(h: History, parts: seq<Part>, i: nat, s: Scope)
    requires Settled(h.scopes, i, s)
    ensures Settled(Fold(h, parts).scopes, i, s)
  {
    if parts != [] {
      var n := |parts| - 1;
      NeverReopened(h, parts[..n], i, s);
      if parts[n].scope.Some? {
        AddScopeSettled(Fold(h, parts[..n]).scopes, parts[n].scope.value, i, s);
      }
    }
  }

  // ---------- fragments that agree ----------

  /** Snapshots of a scope name the same parent, entry time and name, and no two different exit times. */
  ghost predicate AgreeScopes(S: set<Scope>) {
    forall x, y :: x in S && y in S && x.id == y.id ==> ScopesAgree(x, y)
  }

  predicate ScopesAgree(x: Scope, y: Scope) {
    && x.parent == y.parent && x.enteredAt == y.enteredAt && x.name == y.name
    && (x.exitedAt.Some? && y.exitedAt.Some? ==> x.exitedAt == y.exitedAt)
  }

  predicate OpposedExits(a: Record, b: Record) {
    a.kind.ScopeExit? && b.kind.ScopeExit? && a.scope.Some? && a.scope == b.scope && a.kind != b.kind
  }

  ghost predicate AgreeRecords(R: set<Record>) {
    forall a, b :: a in R && b in R && a.id == b.id ==> a == b
  }

  ghost predicate AgreeExits(R: set<Record>) {
    forall a, b :: a in R && b in R ==> !OpposedExits(a, b)
  }

  function Snapshots(parts: seq<Part>): set<Scope> {
    set p | p in parts && p.scope.Some? :: p.scope.value
  }

  function RecordsOf(parts: seq<Part>): set<Record> {
    set p | p in parts && p.record.Some? :: p.record.value
  }

  /** The scope is what the snapshots say: their identity, and closed exactly when one of them is. */
  ghost predicate Described(S: set<Scope>, s: Scope) {
    && (exists x :: x in S && SameIdentity(x, s))
    && (forall x :: x in S && x.id == s.id && x.exitedAt.Some? ==> s.exitedAt == x.exitedAt)
    && (s.exitedAt.Some? ==> exists x :: x in S && x.id == s.id && x.exitedAt.Some?)
  }

  ghost predicate HoldsScopes(S: set<Scope>, scopes: seq<Scope>) {
    && DistinctIds(scopes)
    && (forall s :: s in scopes ==> Described(S, s))
    && (forall x :: x in S ==> IndexOf(scopes, x.id).Some?)
  }

  /** Each record once. */
  ghost predicate HoldsRecords(R: set<Record>, records: seq<Record>) {
    && (forall r :: r in records <==> r in R)
    && (forall i, j :: 0 <= i < j < |records| ==> records[i].id != records[j].id)
  }

  lemma MergesWithDescribed(S: set<Scope>, e: Scope, x: Scope)
    requires Described(S, e) && e.id == x.id && AgreeScopes(S + {x})
    ensures !Contradicts(e, x) && Described(S + {x}, MergeScope(e, x))
  {
    var S', m := S + {x}, MergeScope(e, x);
    assert x in S';
    var w :| w in S && SameIdentity(w, e);
    assert w in S' && ScopesAgree(w, x);
    if e.exitedAt.Some? {
      var z :| z in S && z.id == e.id && z.exitedAt.Some?;
      assert z in S' && ScopesAgree(z, x);
    }
    assert SameIdentity(x, m);
  }

  /** A snapshot that agrees with all earlier ones raises no issue and adds exactly what it says. */
  lemma AddAgreeingScope(S: set<Scope>, scopes: seq<Scope>, x: Scope)
    requires HoldsScopes(S, scopes) && AgreeScopes(S + {x})
    ensures HoldsScopes(S + {x}, AddScope(scopes, x)) && ScopeIssue(scopes, x) == []
  {
    var S', k, scopes' := S + {x}, IndexOf(scopes, x.id), AddScope(scopes, x);
    AddScopeKeepsDistinct(scopes, x);
    assert x in S';
    if k.Some? {
      var e := scopes[k.value];
      assert e in scopes;
      MergesWithDescribed(S, e, x);
      var m := MergeScope(e, x);
      forall y | y in S'
        ensures IndexOf(scopes', y.id).Some?
      {
        IndexOfUpdate(scopes, k.value, m, y.id);
      }
      forall s | s in scopes'
        ensures Described(S', s)
      {
        if s != m {
          var j :| 0 <= j < |scopes| && j != k.value && scopes[j] == s;
          OtherScopeDescribed(S, scopes, x, j, k.value);
        }
      }
    } else {
      IndexOfNone(scopes, x.id);
      forall y | y in S'
        ensures IndexOf(scopes', y.id).Some?
      {
        IndexOfSnoc(scopes, x, y.id);
      }
      forall y | y in S
        ensures y.id != x.id
      {
        assert IndexOf(scopes, y.id).Some?;
      }
      assert SameIdentity(x, x);
      forall s | s in scopes'
        ensures Described(S', s)
      {
        if s in scopes {
          StillDescribed(S, s, x);
        }
      }
    }
  }

  lemma StillDescribed(S: set<Scope>, s: Scope, x: Scope)
    requires Described(S, s) && s.id != x.id
    ensures Described(S + {x}, s)
  {
    var w :| w in S && SameIdentity(w, s);
    assert w in S + {x};
    if s.exitedAt.Some? {
      var z :| z in S && z.id == s.id && z.exitedAt.Some?;
      assert z in S + {x};
    }
  }

  lemma OtherScopeDescribed(S: set<Scope>, scopes: seq<Scope>, x: Scope, j: nat, k: nat)
    requires HoldsScopes(S, scopes) && j < |scopes| && j != k && IndexOf(scopes, x.id) == Some(k)
    ensures Described(S + {x}, scopes[j])
  {
    assert IndexOf(scopes, scopes[j].id) == Some(j);
    assert scopes[j] in scopes;
    StillDescribed(S, scopes[j], x);
  }

  predicate ExitAs(r: Record, id: ScopeId, outcome: (Outcome, U64)) {
    r.kind.ScopeExit? && r.scope == Some(id) && outcome == (r.kind.outcome, r.kind.durationNs)
  }

  lemma {:induction false} FirstExitIsExit(records: seq<Record>, id: ScopeId)
    ensures var e := FirstExit(records, id); e.Some? ==> exists r :: r in records && ExitAs(r, id, e.value)
  {
    if records != [] {
      var n := |records| - 1;
      FirstExitIsExit(records[..n], id);
      if FirstExit(records[..n], id).Some? {
        var r :| r in records[..n] && ExitAs(r, id, FirstExit(records[..n], id).value);
        assert r in records;
      } else if FirstExit(records, id).Some? {
        assert records[n] in records && ExitAs(records[n], id, FirstExit(records, id).value);
      }
    }
  }

  lemma AddAgreeingRecord(R: set<Record>, records: seq<Record>, r: Record)
    requires HoldsRecords(R, records) && AgreeRecords(R + {r})
    ensures HoldsRecords(R + {r}, AddRecord(records, r))
    ensures AgreeExits(R + {r}) ==> RecordIssue(records, r) == []
  {
    var i := FindRecord(records, r.id);
    assert r in R + {r};
    if i.Some? {
      assert records[i.value] in records && records[i.value] in R + {r};
      assert records[i.value] == r;
    } else if AgreeExits(R + {r}) && r.kind.ScopeExit? && r.scope.Some? {
      FirstExitIsExit(records, r.scope.value);
      var e := FirstExit(records, r.scope.value);
      if e.Some? {
        var q :| q in records && ExitAs(q, r.scope.value, e.value);
        assert q in R + {r} && !OpposedExits(q, r);
      }
    }
  }

  lemma SnapshotsSnoc(parts: seq<Part>, p: Part)
    ensures Snapshots(parts + [p]) == Snapshots(parts) + (if p.scope.Some? then {p.scope.value} else {})
    ensures RecordsOf(parts + [p]) == RecordsOf(parts) + (if p.record.Some? then {p.record.value} else {})
  {
    assert forall q :: q in parts + [p] <==> q in parts || q == p;
    assert p in parts + [p];
  }

  /**
   Agreeing fragments, in any order and with any repetition, leave exactly what they say; if their exits agree too,
   they raise no issue.
   */
  lemma {:induction false} AgreeingFold(parts: seq<Part>)
    requires AgreeScopes(Snapshots(parts)) && AgreeRecords(RecordsOf(parts))
    ensures HoldsScopes(Snapshots(parts), Fold(EMPTY, parts).scopes)
    ensures HoldsRecords(RecordsOf(parts), Fold(EMPTY, parts).records)
    ensures AgreeExits(RecordsOf(parts)) ==> FoldIssues(EMPTY, parts) == []
  {
    if parts != [] {
      var n := |parts| - 1;
      var init, p := parts[..n], parts[n];
      assert parts == init + [p];
      SnapshotsSnoc(init, p);
      AgreeingFold(init);
      var h := Fold(EMPTY, init);
      if p.scope.Some? {
        AddAgreeingScope(Snapshots(init), h.scopes, p.scope.value);
      }
      if p.record.Some? {
        AddAgreeingRecord(RecordsOf(init), h.records, p.record.value);
      }
    }
  }

  // ---------- order and repetition do not matter ----------

  /** Everything about a scope but its messages, whose merging does depend on order. */
  function Face(s: Scope): Scope {
    s.(exitMessages := NO_MESSAGES)
  }

  function Faces(scopes: seq<Scope>): set<Scope> {
    set s | s in scopes :: Face(s)
  }

  function UnfinishedIds(h: History): set<ScopeId> {
    set s | s in h.scopes && s.exitedAt.None? && s.id !in ExitedIds(h.records) :: s.id
  }

  lemma SameFaces(S: set<Scope>, a: seq<Scope>, b: seq<Scope>)
    requires AgreeScopes(S) && HoldsScopes(S, a) && HoldsScopes(S, b)
    ensures forall s :: s in a ==> exists t :: t in b && Face(t) == Face(s)
  {
    forall s | s in a
      ensures exists t :: t in b && Face(t) == Face(s)
    {
      assert Described(S, s);
      var x :| x in S && SameIdentity(x, s);
      assert IndexOf(b, x.id).Some?;
      var t := b[IndexOf(b, x.id).value];
      assert t in b && Described(S, t);
      var y :| y in S && SameIdentity(y, t);
      assert !Contradicts(x, y);
      assert s.exitedAt == t.exitedAt by {
        if s.exitedAt.Some? {
          var z :| z in S && z.id == s.id && z.exitedAt.Some?;
        }
        if t.exitedAt.Some? {
          var z :| z in S && z.id == t.id && z.exitedAt.Some?;
        }
      }
      assert Face(t) == Face(s);
    }
  }

  /**
   Merging theorem: two sequences with the same set of agreeing fragments, in any order and with any repetition,
   give the same records, the same scopes with the same exit times, and the same unfinished scopes.
   */
  lemma MergeOrderInsensitive(a: seq<Part>, b: seq<Part>)
    requires Snapshots(a) == Snapshots(b) && RecordsOf(a) == RecordsOf(b)
    requires AgreeScopes(Snapshots(a)) && AgreeRecords(RecordsOf(a))
    ensures var ha, hb := Fold(EMPTY, a), Fold(EMPTY, b);
      && (forall r :: r in ha.records <==> r in hb.records)
      && Faces(ha.scopes) == Faces(hb.scopes)
      && UnfinishedIds(ha) == UnfinishedIds(hb)
      && (AgreeExits(RecordsOf(a)) ==> FoldIssues(EMPTY, a) == [] && FoldIssues(EMPTY, b) == [])
  {
    AgreeingFold(a);
    AgreeingFold(b);
    var ha, hb := Fold(EMPTY, a), Fold(EMPTY, b);
    SameFaces(Snapshots(a), ha.scopes, hb.scopes);
    SameFaces(Snapshots(a), hb.scopes, ha.scopes);
    assert Faces(ha.scopes) == Faces(hb.scopes);
    assert forall r :: r in ha.records <==> r in hb.records;
    assert ExitedIds(ha.records) == ExitedIds(hb.records);
    UnfinishedFrom(ha, hb);
    UnfinishedFrom(hb, ha);
  }

  lemma UnfinishedFrom(a: History, b: History)
    requires Faces(a.scopes) <= Faces(b.scopes) && ExitedIds(a.records) == ExitedIds(b.records)
    ensures UnfinishedIds(a) <= UnfinishedIds(b)
  {
    forall id | id in UnfinishedIds(a)
      ensures id in UnfinishedIds(b)
    {
      var s :| s in a.scopes && s.exitedAt.None? && s.id !in ExitedIds(a.records) && s.id == id;
      assert Face(s) in Faces(b.scopes);
      var t :| t in b.scopes && Face(t) == Face(s);
    }
  }

  /** Records are retained once each: a fragment seen again changes nothing. */
  lemma RepetitionIsSilent(parts: seq<Part>, p: Part)
    requires AgreeScopes(Snapshots(parts)) && AgreeRecords(RecordsOf(parts)) && p in parts
    ensures Fold(EMPTY, parts + [p]).records == Fold(EMPTY, parts).records
    ensures Faces(Fold(EMPTY, parts + [p]).scopes) == Faces(Fold(EMPTY, parts).scopes)
  {
    assert (parts + [p])[..|parts|] == parts;
    assert forall q :: q in parts + [p] <==> q in parts;
    assert Snapshots(parts + [p]) == Snapshots(parts) && RecordsOf(parts + [p]) == RecordsOf(parts);
    MergeOrderInsensitive(parts + [p], parts);
    AgreeingFold(parts);
    if p.record.Some? {
      var records, r := Fold(EMPTY, parts).records, p.record.value;
      assert r in RecordsOf(parts) && r in records;
      var i := FindRecord(records, r.id);
      assert i.Some? && records[i.value] in records;
    }
  }

  // ---------- only the first record counts ----------

  /** A record is dropped exactly if the first one retained under its identifier is the same up to NaNs. */
  lemma DroppedExactlyIf(records: seq<Record>, r: Record)
    requires forall x :: x in records + [r] && x.kind.ScopeExit? ==> x.scope.Some?
    ensures AddRecord(records, r) == records
        <==> FindRecord(records, r.id).Some? && Canon(records[FindRecord(records, r.id).value]) == Canon(r)
  {
    var i := FindRecord(records, r.id);
    assert r in records + [r];
    if i.Some? {
      assert records[i.value] in records + [r];
      WireEqualMeansSame(records[i.value], r);
    }
    assert |records + [r]| == |records| + 1;
  }

  /** So a record seen twice is retained twice if another one with its identifier came first. */
  lemma LaterRepeatIsKept(a: Record, b: Record)
    requires a.kind.Event? && b.kind.Event? && a.id == b.id && Canon(a) != Canon(b)
    ensures AddRecord(AddRecord(AddRecord([], a), b), b) == [a, b, b]
  {
    WireEqualMeansSame(a, b);
  }

  // ---------- exactly when reading is quiet ----------

  /** As the decoder makes them: NaNs are one, exits name their scope. */
  predicate Canonical(r: Record) {
    Canon(r) == r && (r.kind.ScopeExit? ==> r.scope.Some?)
  }

  lemma QuietScope(S: set<Scope>, scopes: seq<Scope>, x: Scope)
    requires HoldsScopes(S, scopes) && AgreeScopes(S) && ScopeIssue(scopes, x) == []
    ensures AgreeScopes(S + {x})
  {
    forall y | y in S && y.id == x.id
      ensures ScopesAgree(x, y) && ScopesAgree(y, x)
    {
      var e := scopes[IndexOf(scopes, y.id).value];
      assert e in scopes && Described(S, e);
      var w :| w in S && SameIdentity(w, e);
      assert ScopesAgree(w, y);
    }
  }

  lemma {:induction false} NoFirstExitMeans(records: seq<Record>, id: ScopeId)
    requires FirstExit(records, id) == None
    ensures forall r :: r in records ==> !(r.kind.ScopeExit? && r.scope == Some(id))
  {
    if records != [] {
      NoFirstExitMeans(records[..|records| - 1], id);
    }
  }

  lemma QuietRepetition(R: set<Record>, records: seq<Record>, r: Record)
    requires HoldsRecords(R, records) && Repeats(records, r) && Canonical(r) && forall q :: q in R ==> Canonical(q)
    ensures r in R
  {
    var q := records[FindRecord(records, r.id).value];
    assert q in records;
    WireEqualMeansSame(q, r);
  }

  lemma QuietExit(R: set<Record>, records: seq<Record>, r: Record, q: Record)
    requires HoldsRecords(R, records) && AgreeExits(R) && q in R && q.kind.ScopeExit? && q.scope.Some?
    requires r.kind.ScopeExit? && r.scope == q.scope
    requires var first := FirstExit(records, q.scope.value); first.Some? ==> first.value == (r.kind.outcome, r.kind.durationNs)
    ensures q.kind == r.kind
  {
    var id := q.scope.value;
    if FirstExit(records, id).None? {
      NoFirstExitMeans(records, id);
    } else {
      FirstExitIsExit(records, id);
      var p :| p in records && ExitAs(p, id, FirstExit(records, id).value);
      assert !OpposedExits(p, q);
    }
  }

  lemma QuietRecord(R: set<Record>, records: seq<Record>, r: Record)
    requires HoldsRecords(R, records) && AgreeRecords(R) && AgreeExits(R) && RecordIssue(records, r) == []
    requires Canonical(r) && forall q :: q in R ==> Canonical(q)
    ensures AgreeRecords(R + {r}) && AgreeExits(R + {r})
  {
    if Repeats(records, r) {
      QuietRepetition(R, records, r);
      assert R + {r} == R;
    } else {
      forall q | q in R
        ensures q.id != r.id && !OpposedExits(q, r) && !OpposedExits(r, q)
      {
        assert q in records;
        if q.kind.ScopeExit? && r.kind.ScopeExit? && q.scope == r.scope {
          QuietExit(R, records, r, q);
        }
      }
    }
  }

  lemma FoldInit(parts: seq<Part>) returns (init: seq<Part>, p: Part)
    requires parts != []
    ensures parts == init + [p] && |init| < |parts| && forall q :: q in init ==> q in parts
    ensures Fold(EMPTY, parts) == AddPart(Fold(EMPTY, init), p)
    ensures FoldIssues(EMPTY, parts) == FoldIssues(EMPTY, init) + PartIssues(Fold(EMPTY, init), p)
  {
    init, p := parts[..|parts| - 1], parts[|parts| - 1];
  }

  ghost predicate AllAgree(parts: seq<Part>) {
    AgreeScopes(Snapshots(parts)) && AgreeRecords(RecordsOf(parts)) && AgreeExits(RecordsOf(parts))
  }

  lemma {:induction false} QuietMeansAgreement(parts: seq<Part>)
    requires FoldIssues(EMPTY, parts) == [] && forall r :: r in RecordsOf(parts) ==> Canonical(r)
    ensures AllAgree(parts)
    decreases |parts|
  {
    if parts != [] {
      var init, p := FoldInit(parts);
      SnapshotsSnoc(init, p);
      QuietMeansAgreement(init);
      AgreeingFold(init);
      var h := Fold(EMPTY, init);
      if p.scope.Some? {
        QuietScope(Snapshots(init), h.scopes, p.scope.value);
      }
      if p.record.Some? {
        QuietRecord(RecordsOf(init), h.records, p.record.value);
      }
    }
  }

  /** Reading a run's entries reports nothing exactly if they agree: every contradiction is reported, whatever the order. */
  lemma QuietExactlyIfAgree(parts: seq<Part>)
    requires forall r :: r in RecordsOf(parts) ==> Canonical(r)
    ensures FoldIssues(EMPTY, parts) == [] <==> AllAgree(parts)
  {
    if AllAgree(parts) {
      AgreeingFold(parts);
    } else if FoldIssues(EMPTY, parts) == [] {
      QuietMeansAgreement(parts);
    }
  }

  /**
   How a contradiction is reported: a second record under an identifier as such, a second outcome of a scope, or other
   metadata for it, as a conflict about the scope.
   */
  lemma ConflictsNamed(records: seq<Record>, r: Record, scopes: seq<Scope>, s: Scope)
    ensures ScopeIssue(scopes, s) == [] || ScopeIssue(scopes, s) == [ConflictingScope]
    ensures RecordIssue(records, r) != [] ==>
      if exists q :: q in records && q.id == r.id then RecordIssue(records, r) == [ConflictingRecord]
      else RecordIssue(records, r) == [ConflictingScope] && r.kind.ScopeExit?
    ensures (exists q :: q in records && q.id == r.id) && RecordIssue(records, r) == [] ==> AddRecord(records, r) == records
  {
    var i := FindRecord(records, r.id);
    if i.Some? {
      assert records[i.value] in records;
    }
  }
}
