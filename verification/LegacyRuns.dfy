/** Unversioned lines: which of them share a run, where a new run begins, and that every line ends up in one place. */
module LegacyRuns {
  import opened Core
  import opened Wire
  import opened Retention
  import opened Recovery
  import opened Routing

  // ---------- lines without a run identity ----------

  /** Everything but headers and versioned entries: blank, rejected and unversioned lines. */
  predicate Unversioned(m: Meaning) {
    m.Nothing? || (m.Entry? && (m.decoded.Rejected? || m.decoded.runId.None?))
  }

  function LegacyPart(m: Meaning): (r: seq<Part>)
    ensures |r| <= 1
  {
    if m.Entry? && m.decoded.Accepted? && m.decoded.runId.None? then [m.decoded.part] else []
  }

  function LegacyParts(lines: seq<InputLine>): seq<Part> {
    if lines == [] then [] else LegacyParts(lines[..|lines| - 1]) + LegacyPart(MeaningOf(lines[|lines| - 1]))
  }

  ghost predicate AllUnversioned(lines: seq<InputLine>) {
    forall i :: 0 <= i < |lines| ==> Unversioned(MeaningOf(lines[i]))
  }

  function Boundaries(issues: seq<Issue>): nat {
    if issues == [] then 0
    else Boundaries(issues[..|issues| - 1]) + (if issues[|issues| - 1].kind == InferredRunBoundary then 1 else 0)
  }

  // ---------- segments ----------

  /** Consecutive groups of entries, one per run. */
  datatype Segments = NoSegments | Then(before: Segments, entries: seq<Part>)

  function Count(segments: Segments): nat {
    if segments.NoSegments? then 0 else Count(segments.before) + 1
  }

  function Joined(segments: Segments): seq<Part> {
    if segments.NoSegments? then [] else Joined(segments.before) + segments.entries
  }

  predicate HasRecord(h: History, id: RecordId) {
    exists r :: r in h.records && r.id == id
  }

  /** What the run of the last segment holds; only the first segment may continue a history. */
  function HistoryOf(h: History, segments: Segments): History
    requires segments.Then?
  {
    Fold(if segments.before.NoSegments? then h else EMPTY, segments.entries)
  }

  /** Within a segment no entry repeats a record identifier that its run holds by then. */
  ghost predicate NeverRepeats(h: History, parts: seq<Part>) {
    parts != [] ==>
      var init, p := parts[..|parts| - 1], parts[|parts| - 1];
      NeverRepeats(h, init) && (p.record.Some? ==> !HasRecord(Fold(h, init), p.record.value.id))
  }

  /** Every segment but the first begins with an entry whose record identifier the run before it already holds. */
  ghost predicate SegmentsOk(h: History, segments: Segments) {
    segments.Then? ==>
      var Then(before, entries) := segments;
      && SegmentsOk(h, before)
      && NeverRepeats(if before.NoSegments? then h else EMPTY, entries)
      && (before.Then? ==>
            entries != [] && entries[0].record.Some? && HasRecord(HistoryOf(h, before), entries[0].record.value.id))
  }

  /** The runs before the first one concerned, and that run: the open legacy run, or a new one with the pending headers. */
  datatype Opening = Opening(base: seq<Building>, first: Building)

  function OpeningOf(st: LoaderState, source: Option<string>): Opening
    requires LegacyOk(st)
  {
    if st.legacy.Some? then Opening(st.runs[..st.legacy.value], st.runs[st.legacy.value])
    else Opening(st.runs, Building(None, source, st.headers, EMPTY))
  }

  function LastRun(o: Opening, source: Option<string>, segments: Segments): Building
    requires segments.Then?
  {
    (if segments.before.NoSegments? then o.first else Building(None, source, [], EMPTY)).(history := HistoryOf(o.first.history, segments))
  }

  function RunsOf(o: Opening, source: Option<string>, segments: Segments): seq<Building> {
    if segments.NoSegments? then o.base else RunsOf(o, source, segments.before) + [LastRun(o, source, segments)]
  }

  /** The state that unversioned lines with these segments have led to. */
  ghost predicate Segmented(st0: LoaderState, st: LoaderState, source: Option<string>, segments: Segments)
    requires LegacyOk(st0)
  {
    if segments.NoSegments? then st.runs == st0.runs && st.legacy == None && st.headers == st0.headers
    else
      && st.runs == RunsOf(OpeningOf(st0, source), source, segments)
      && st.legacy == Some(|st.runs| - 1) && st.headers == []
  }

  lemma FoundMeans(h: History, id: RecordId)
    ensures FindRecord(h.records, id).Some? <==> HasRecord(h, id)
  {
    var i := FindRecord(h.records, id);
    if i.Some? {
      assert h.records[i.value] in h.records;
    }
  }

  lemma NeverRepeatsSnoc(h: History, parts: seq<Part>, p: Part)
    requires NeverRepeats(h, parts) && (p.record.Some? ==> !HasRecord(Fold(h, parts), p.record.value.id))
    ensures NeverRepeats(h, parts + [p])
  {
    assert (parts + [p])[..|parts|] == parts;
  }

  lemma BoundarySnoc(issues: seq<Issue>, issue: Issue)
    ensures Boundaries(issues + [issue]) == Boundaries(issues) + (if issue.kind == InferredRunBoundary then 1 else 0)
  {
    assert (issues + [issue])[..|issues|] == issues;
  }

  lemma {:induction false} NoBoundaries(issues: seq<Issue>, more: seq<Issue>)
    requires forall i :: 0 <= i < |more| ==> more[i].kind != InferredRunBoundary
    ensures Boundaries(issues + more) == Boundaries(issues)
  {
    if more == [] {
      assert issues + more == issues;
    } else {
      var n := |more| - 1;
      assert issues + more == (issues + more[..n]) + [more[n]];
      BoundarySnoc(issues + more[..n], more[n]);
      NoBoundaries(issues, more[..n]);
    }
  }

  lemma ConflictsAreNoBoundaries(issues: seq<Issue>, h: History, p: Part, source: Option<string>, line: nat)
    ensures Boundaries(issues + Located(PartIssues(h, p), source, line)) == Boundaries(issues)
  {
    PartIssueKinds(h, p);
    NoBoundaries(issues, Located(PartIssues(h, p), source, line));
  }

  // ---------- one entry ----------

  /** An entry that repeats nothing joins the open run. */
  lemma Joins(st: LoaderState, p: Part, source: Option<string>, line: nat)
    requires LegacyOk(st) && st.legacy.Some? && st.headers == []
    requires p.record.Some? ==> !HasRecord(st.runs[st.legacy.value].history, p.record.value.id)
    ensures var i := st.legacy.value; var run := st.runs[i];
      var st' := Absorb(st, Entry(Accepted(None, p)), source, line);
      && st'.runs == st.runs[i := run.(history := AddPart(run.history, p))]
      && st'.legacy == st.legacy && st'.headers == [] && Boundaries(st'.issues) == Boundaries(st.issues)
  {
    var run := st.runs[st.legacy.value];
    if p.record.Some? {
      FoundMeans(run.history, p.record.value.id);
    }
    ConflictsAreNoBoundaries(st.issues, run.history, p, source, line);
    assert run.headers + [] == run.headers;
  }

  /** One that does, or one with no run open, starts a run of its own; only in the first case a boundary is reported. */
  lemma Starts(st: LoaderState, p: Part, source: Option<string>, line: nat)
    requires LegacyOk(st)
    requires st.legacy.Some? ==> p.record.Some? && HasRecord(st.runs[st.legacy.value].history, p.record.value.id)
    ensures var st' := Absorb(st, Entry(Accepted(None, p)), source, line);
      && st'.runs == st.runs + [Building(None, source, st.headers, AddPart(EMPTY, p))]
      && st'.legacy == Some(|st.runs|) && st'.headers == []
      && Boundaries(st'.issues) == Boundaries(st.issues) + (if st.legacy.Some? then 1 else 0)
  {
    var issues := if st.legacy.Some? then st.issues + [Issue(source, Some(line), InferredRunBoundary)] else st.issues;
    if st.legacy.Some? {
      FoundMeans(st.runs[st.legacy.value].history, p.record.value.id);
      BoundarySnoc(st.issues, Issue(source, Some(line), InferredRunBoundary));
    }
    ConflictsAreNoBoundaries(issues, EMPTY, p, source, line);
    NewRunFilled(st.runs, Building(None, source, [], EMPTY), Building(None, source, [] + st.headers, AddPart(EMPTY, p)));
    assert [] + st.headers == st.headers;
  }

  lemma NewRunFilled(runs: seq<Building>, empty: Building, filled: Building)
    ensures (runs + [empty])[|runs| := filled] == runs + [filled]
  {
  }

  lemma OtherLine(st: LoaderState, m: Meaning, source: Option<string>, line: nat)
    requires LegacyOk(st) && Unversioned(m) && LegacyPart(m) == [] && RejectionKind(m)
    ensures var st' := Absorb(st, m, source, line);
      && st'.runs == st.runs && st'.legacy == st.legacy && st'.headers == st.headers
      && Boundaries(st'.issues) == Boundaries(st.issues)
  {
    if m.Entry? {
      BoundarySnoc(st.issues, Issue(source, Some(line), m.decoded.kind));
    }
  }

  // ---------- many entries ----------

  ghost predicate Progress(st0: LoaderState, st: LoaderState, source: Option<string>, segments: Segments, parts: seq<Part>)
    requires LegacyOk(st0)
  {
    && Segmented(st0, st, source, segments) && SegmentsOk(OpeningOf(st0, source).first.history, segments)
    && Joined(segments) == parts
    && (st0.legacy.Some? ==> segments.Then?) && (st0.legacy.None? && segments.Then? ==> parts != [])
    && Boundaries(st.issues) == Boundaries(st0.issues) + (if segments.NoSegments? then 0 else Count(segments) - 1)
  }

  lemma BeginOk(h: History, before: Segments, p: Part)
    requires SegmentsOk(h, before)
    requires before.Then? ==> p.record.Some? && HasRecord(HistoryOf(h, before), p.record.value.id)
    requires before.NoSegments? && p.record.Some? ==> !HasRecord(h, p.record.value.id)
    ensures SegmentsOk(h, Then(before, [p]))
  {
    var base := if before.NoSegments? then h else EMPTY;
    NeverRepeatsSnoc(base, [], p);
    assert [] + [p] == [p];
  }

  /** A new segment. */
  lemma Begin(st0: LoaderState, st: LoaderState, source: Option<string>, segments: Segments, parts: seq<Part>, st': LoaderState, p: Part)
    requires LegacyOk(st0) && Progress(st0, st, source, segments, parts)
    requires segments.Then? ==> p.record.Some? && HasRecord(HistoryOf(OpeningOf(st0, source).first.history, segments), p.record.value.id)
    requires st'.runs == st.runs + [Building(None, source, st.headers, AddPart(EMPTY, p))]
    requires st'.legacy == Some(|st.runs|) && st'.headers == []
    requires Boundaries(st'.issues) == Boundaries(st.issues) + (if st.legacy.Some? then 1 else 0)
    ensures Progress(st0, st', source, Then(segments, [p]), parts + [p])
  {
    var o := OpeningOf(st0, source);
    FoldOne(EMPTY, p);
    BeginOk(o.first.history, segments, p);
  }

  lemma LastReplaced(runs: seq<Building>, run: Building, other: Building)
    ensures (runs + [run])[|runs| := other] == runs + [other]
  {
  }

  lemma JoinHistory(h: History, before: Segments, entries: seq<Part>, p: Part)
    ensures HistoryOf(h, Then(before, entries + [p])) == AddPart(HistoryOf(h, Then(before, entries)), p)
  {
    FoldSnoc(if before.NoSegments? then h else EMPTY, entries, p);
  }

  lemma JoinRuns(o: Opening, source: Option<string>, before: Segments, entries: seq<Part>, p: Part)
    ensures var runs, run := RunsOf(o, source, Then(before, entries)), LastRun(o, source, Then(before, entries));
      && |runs| > 0 && runs[|runs| - 1] == run
      && RunsOf(o, source, Then(before, entries + [p])) == runs[|runs| - 1 := run.(history := AddPart(run.history, p))]
  {
    var run := LastRun(o, source, Then(before, entries));
    JoinHistory(o.first.history, before, entries, p);
    LastReplaced(RunsOf(o, source, before), run, run.(history := AddPart(run.history, p)));
  }

  lemma JoinOk(h: History, before: Segments, entries: seq<Part>, p: Part)
    requires SegmentsOk(h, Then(before, entries))
    requires p.record.Some? ==> !HasRecord(HistoryOf(h, Then(before, entries)), p.record.value.id)
    ensures SegmentsOk(h, Then(before, entries + [p]))
  {
    NeverRepeatsSnoc(if before.NoSegments? then h else EMPTY, entries, p);
    assert entries != [] ==> (entries + [p])[0] == entries[0];
  }

  lemma Extended(o: Opening, source: Option<string>, segments: Segments, p: Part) returns (longer: Segments)
    requires segments.Then? && SegmentsOk(o.first.history, segments)
    requires p.record.Some? ==> !HasRecord(HistoryOf(o.first.history, segments), p.record.value.id)
    ensures longer.Then? && SegmentsOk(o.first.history, longer)
    ensures Joined(longer) == Joined(segments) + [p] && Count(longer) == Count(segments)
    ensures var runs := RunsOf(o, source, segments);
      |runs| > 0 && RunsOf(o, source, longer) == runs[|runs| - 1 := runs[|runs| - 1].(history := AddPart(runs[|runs| - 1].history, p))]
  {
    var Then(before, entries) := segments;
    longer := Then(before, entries + [p]);
    JoinRuns(o, source, before, entries, p);
    JoinOk(o.first.history, before, entries, p);
    SeqAssociative(Joined(before), entries, [p]);
  }

  /** The last segment goes on. */
  lemma Continue(st0: LoaderState, st: LoaderState, source: Option<string>, segments: Segments, parts: seq<Part>, st': LoaderState, p: Part)
    returns (longer: Segments)
    requires LegacyOk(st0) && Progress(st0, st, source, segments, parts) && segments.Then?
    requires p.record.Some? ==> !HasRecord(HistoryOf(OpeningOf(st0, source).first.history, segments), p.record.value.id)
    requires var i := |st.runs| - 1; i >= 0 && st'.runs == st.runs[i := st.runs[i].(history := AddPart(st.runs[i].history, p))]
    requires st'.legacy == st.legacy && st'.headers == [] && Boundaries(st'.issues) == Boundaries(st.issues)
    ensures Progress(st0, st', source, longer, parts + [p])
  {
    longer := Extended(OpeningOf(st0, source), source, segments, p);
    StillSegmented(st0, st, source, segments, st', longer);
  }

  lemma StillSegmented(st0: LoaderState, st: LoaderState, source: Option<string>, segments: Segments, st': LoaderState, longer: Segments)
    requires LegacyOk(st0) && Segmented(st0, st, source, segments) && segments.Then? && longer.Then?
    requires st'.runs == RunsOf(OpeningOf(st0, source), source, longer) && |st'.runs| == |st.runs|
    requires st'.legacy == st.legacy && st'.headers == []
    ensures Segmented(st0, st', source, longer)
  {
  }

  lemma LastHistory(st0: LoaderState, st: LoaderState, source: Option<string>, segments: Segments)
    requires LegacyOk(st0) && Segmented(st0, st, source, segments) && segments.Then?
    ensures |st.runs| > 0 && st.runs[|st.runs| - 1].history == HistoryOf(OpeningOf(st0, source).first.history, segments)
  {
    var runs := RunsOf(OpeningOf(st0, source), source, segments.before);
    assert (runs + [LastRun(OpeningOf(st0, source), source, segments)])[|runs|] == LastRun(OpeningOf(st0, source), source, segments);
  }

  /** One more unversioned entry. */
  lemma NextPart(st0: LoaderState, st: LoaderState, source: Option<string>, line: nat, segments: Segments, parts: seq<Part>, p: Part)
    returns (segments': Segments)
    requires LegacyOk(st0) && LegacyOk(st) && Progress(st0, st, source, segments, parts)
    ensures Progress(st0, Absorb(st, Entry(Accepted(None, p)), source, line), source, segments', parts + [p])
  {
    var st' := Absorb(st, Entry(Accepted(None, p)), source, line);
    if segments.Then? {
      LastHistory(st0, st, source, segments);
    }
    if segments.Then? && !(p.record.Some? && HasRecord(st.runs[|st.runs| - 1].history, p.record.value.id)) {
      Joins(st, p, source, line);
      segments' := Continue(st0, st, source, segments, parts, st', p);
    } else {
      Starts(st, p, source, line);
      Begin(st0, st, source, segments, parts, st', p);
      segments' := Then(segments, [p]);
    }
  }

  lemma SameProgress(st0: LoaderState, st: LoaderState, source: Option<string>, segments: Segments, parts: seq<Part>, st': LoaderState)
    requires LegacyOk(st0) && Progress(st0, st, source, segments, parts)
    requires st'.runs == st.runs && st'.legacy == st.legacy && st'.headers == st.headers && Boundaries(st'.issues) == Boundaries(st.issues)
    ensures Progress(st0, st', source, segments, parts)
  {
  }

  lemma NothingYet(st: LoaderState, source: Option<string>) returns (segments: Segments)
    requires LegacyOk(st) && RouteInv(st) && (st.legacy.Some? ==> st.headers == [])
    ensures Progress(st, st, source, segments, [])
  {
    segments := if st.legacy.Some? then Then(NoSegments, []) else NoSegments;
    if st.legacy.Some? {
      var o := OpeningOf(st, source);
      assert LastRun(o, source, segments) == o.first;
      assert st.runs == o.base + [o.first];
    }
  }

  lemma LastLine(lines: seq<InputLine>, st: LoaderState, source: Option<string>) returns (init: seq<InputLine>, m: Meaning)
    requires lines != [] && LegacyOk(st) && AllUnversioned(lines)
    ensures |init| == |lines| - 1 && AllUnversioned(init) && Unversioned(m) && RejectionKind(m)
    ensures ReadLines(st, lines, source) == Absorb(ReadLines(st, init, source), m, source, |lines|)
    ensures LegacyParts(lines) == LegacyParts(init) + LegacyPart(m)
  {
    init, m := lines[..|lines| - 1], MeaningOf(lines[|lines| - 1]);
    MeaningRejects(lines[|lines| - 1]);
  }

  /**
   What unversioned lines lead to, with no header or versioned entry between them: their entries, in order, fall into
   segments, one per run, the first continuing the open legacy run if there is one; each run is the fold of its
   segment; a new segment begins exactly where an entry repeats a record identifier of the run before it, and each
   such beginning is reported once.
   */
  lemma {:induction false} LegacySegments(st0: LoaderState, lines: seq<InputLine>, source: Option<string>)
    returns (segments: Segments)
    requires LegacyOk(st0) && RouteInv(st0) && (st0.legacy.Some? ==> st0.headers == []) && AllUnversioned(lines)
    ensures Progress(st0, ReadLines(st0, lines, source), source, segments, LegacyParts(lines))
    decreases |lines|
  {
    if lines == [] {
      segments := NothingYet(st0, source);
    } else {
      var init, m := LastLine(lines, st0, source);
      segments := LegacySegments(st0, init, source);
      var before := ReadLines(st0, init, source);
      if m.Entry? && m.decoded.Accepted? {
        segments := NextPart(st0, before, source, |lines|, segments, LegacyParts(init), m.decoded.part);
      } else {
        OtherLine(before, m, source, |lines|);
        SameProgress(st0, before, source, segments, LegacyParts(init), Absorb(before, m, source, |lines|));
        assert LegacyParts(init) + [] == LegacyParts(init);
      }
    }
  }

  // ---------- without repetitions ----------

  /** No two entries share a record identifier, and none has one of the run they go to. */
  ghost predicate AllNew(h: History, parts: seq<Part>) {
    && (forall i :: 0 <= i < |parts| && parts[i].record.Some? ==> !HasRecord(h, parts[i].record.value.id))
    && (forall i, k :: 0 <= i < k < |parts| && parts[i].record.Some? && parts[k].record.Some? ==>
          parts[i].record.value.id != parts[k].record.value.id)
  }

  /** The records of a run are those it had and those of its entries. */
  lemma {:induction false} RecordFrom(h: History, parts: seq<Part>, id: RecordId)
    requires HasRecord(Fold(h, parts), id)
    ensures HasRecord(h, id) || exists i :: 0 <= i < |parts| && parts[i].record.Some? && parts[i].record.value.id == id
  {
    if parts != [] {
      var n := |parts| - 1;
      var before, p := Fold(h, parts[..n]), parts[n];
      var r :| r in AddPart(before, p).records && r.id == id;
      if p.record.Some? && r == p.record.value {
        assert parts[n].record.value.id == id;
      } else {
        assert r in before.records;
        RecordFrom(h, parts[..n], id);
        if !HasRecord(h, id) {
          var i :| 0 <= i < n && parts[..n][i].record.Some? && parts[..n][i].record.value.id == id;
          assert parts[i].record.value.id == id;
        }
      }
    }
  }

  /** With more than one segment some entry repeats a record identifier. */
  lemma SecondRepeats(h: History, segments: Segments)
    requires SegmentsOk(h, segments) && segments.Then? && segments.before.Then?
    ensures !AllNew(h, Joined(segments))
  {
    var s1, s2 := segments.before, segments.entries;
    var older, id, all := Joined(s1.before), s2[0].record.value.id, Joined(segments);
    var n := |older| + |s1.entries|;
    assert all == older + s1.entries + s2;
    assert all[n] == s2[0];
    RecordFrom(if s1.before.NoSegments? then h else EMPTY, s1.entries, id);
    if !HasRecord(h, id) {
      var i :| 0 <= i < |s1.entries| && s1.entries[i].record.Some? && s1.entries[i].record.value.id == id;
      assert all[|older| + i] == s1.entries[i];
    }
  }

  lemma OneSegment(h: History, segments: Segments)
    requires SegmentsOk(h, segments) && AllNew(h, Joined(segments))
    ensures segments.Then? ==> segments == Then(NoSegments, Joined(segments))
  {
    if segments.Then? {
      if segments.before.Then? {
        SecondRepeats(h, segments);
      } else {
        assert [] + segments.entries == segments.entries;
      }
    }
  }

  /**
   The lines of an unversioned file stay together: from a state with an open legacy run or none, entries that repeat no
   record identifier add at most one run, which holds exactly them, in order, after what the open run held.
   */
  lemma LegacyRunIsFold(st: LoaderState, lines: seq<InputLine>, source: Option<string>)
    requires LegacyOk(st) && RouteInv(st) && (st.legacy.Some? ==> st.headers == []) && AllUnversioned(lines)
    requires AllNew(OpeningOf(st, source).first.history, LegacyParts(lines))
    ensures var o, st', parts := OpeningOf(st, source), ReadLines(st, lines, source), LegacyParts(lines);
      && st'.runs == (if parts == [] then st.runs else o.base + [o.first.(history := Fold(o.first.history, parts))])
      && Boundaries(st'.issues) == Boundaries(st.issues)
  {
    var segments := LegacySegments(st, lines, source);
    OneSegment(OpeningOf(st, source).first.history, segments);
    OneSegmentMeans(st, ReadLines(st, lines, source), source, segments, LegacyParts(lines));
  }

  lemma OneSegmentMeans(st: LoaderState, st': LoaderState, source: Option<string>, segments: Segments, parts: seq<Part>)
    requires LegacyOk(st) && RouteInv(st) && Progress(st, st', source, segments, parts)
    requires segments.Then? ==> segments == Then(NoSegments, parts)
    ensures var o := OpeningOf(st, source);
      && st'.runs == (if parts == [] then st.runs else o.base + [o.first.(history := Fold(o.first.history, parts))])
      && Boundaries(st'.issues) == Boundaries(st.issues)
  {
    var o := OpeningOf(st, source);
    OneRunOf(o, source, parts);
    if st.legacy.Some? {
      OpenRunLast(st, source);
    }
  }

  lemma OneRunOf(o: Opening, source: Option<string>, parts: seq<Part>)
    ensures RunsOf(o, source, Then(NoSegments, parts)) == o.base + [o.first.(history := Fold(o.first.history, parts))]
    ensures Count(Then(NoSegments, parts)) == 1
    ensures parts == [] ==> o.first.(history := Fold(o.first.history, parts)) == o.first
  {
    assert RunsOf(o, source, NoSegments) == o.base && Count(NoSegments) == 0;
  }

  lemma OpenRunLast(st: LoaderState, source: Option<string>)
    requires LegacyOk(st) && RouteInv(st) && st.legacy.Some?
    ensures var o := OpeningOf(st, source); st.runs == o.base + [o.first]
  {
  }

  /** A repeated record identifier starts one new run, holding just that entry so far, and is reported once. */
  lemma RepetitionStartsRun(st: LoaderState, p: Part, source: Option<string>, line: nat)
    requires LegacyOk(st) && RouteInv(st) && st.legacy.Some? && st.headers == []
    requires p.record.Some? && HasRecord(st.runs[st.legacy.value].history, p.record.value.id)
    ensures var st' := Absorb(st, Entry(Accepted(None, p)), source, line);
      && st'.runs == st.runs + [Building(None, source, [], AddPart(EMPTY, p))] && st'.legacy == Some(|st.runs|)
      && Boundaries(st'.issues) == Boundaries(st.issues) + 1
  {
    Starts(st, p, source, line);
  }

  // ---------- when a legacy run ends ----------

  /** Headers and versioned entries end the open legacy run; blank and rejected lines do not. */
  lemma LegacyEnds(st: LoaderState, m: Meaning, source: Option<string>, line: nat)
    requires LegacyOk(st)
    ensures var st' := Absorb(st, m, source, line);
      && (!Unversioned(m) ==> st'.legacy == None)
      && (Unversioned(m) && LegacyPart(m) == [] ==> st'.legacy == st.legacy)
      && (LegacyPart(m) != [] ==> st'.legacy.Some?)
  {
    if m.Entry? && m.decoded.Accepted? {
      RouteOpens(st, m.decoded.runId, m.decoded.part, source, line);
    }
  }

  lemma RouteOpens(st: LoaderState, runId: Option<string>, p: Part, source: Option<string>, line: nat)
    requires LegacyOk(st)
    ensures Route(st, runId, p, source, line).0.legacy.Some? <==> runId.None?
  {
  }

  lemma LineLeavesNoHeaders(st: LoaderState, m: Meaning, source: Option<string>, line: nat)
    requires LegacyOk(st) && (st.legacy.Some? ==> st.headers == [])
    ensures var st' := Absorb(st, m, source, line); st'.legacy.Some? ==> st'.headers == []
  {
  }

  lemma {:induction false} LinesLeaveNoHeaders(st: LoaderState, lines: seq<InputLine>, source: Option<string>)
    requires LegacyOk(st) && (st.legacy.Some? ==> st.headers == [])
    ensures var st' := ReadLines(st, lines, source); st'.legacy.Some? ==> st'.headers == []
  {
    if lines != [] {
      var n := |lines| - 1;
      LinesLeaveNoHeaders(st, lines[..n], source);
      LineLeavesNoHeaders(ReadLines(st, lines[..n], source), MeaningOf(lines[n]), source, n + 1);
    }
  }

  /** No headers are pending while a legacy run is open, whatever has been read. */
  lemma {:induction false} OpenRunHasHeaders(files: seq<InputFile>)
    ensures var st := ReadFiles(files); st.legacy.Some? ==> st.headers == []
  {
    if files != [] {
      var n := |files| - 1;
      OpenRunHasHeaders(files[..n]);
      LinesLeaveNoHeaders(ReadFiles(files[..n]), files[n].lines, files[n].source);
    }
  }

  // ---------- where a line goes ----------

  /** An accepted entry and the headers before it go to one run, at the end of its own; no other run changes. */
  lemma EntryGoesToOneRun(st: LoaderState, runId: Option<string>, p: Part, source: Option<string>, line: nat) returns (i: nat)
    requires LegacyOk(st)
    ensures var st' := Absorb(st, Entry(Accepted(runId, p)), source, line);
      && i < |st'.runs| && |st'.runs| == (if i < |st.runs| then |st.runs| else |st.runs| + 1) && st'.headers == []
      && (forall j :: 0 <= j < |st.runs| && j != i ==> st'.runs[j] == st.runs[j])
      && (runId.Some? ==> st'.runs[i].runId == runId)
      && (if i < |st.runs| then
            && st'.runs[i].runId == st.runs[i].runId && st'.runs[i].headers == st.runs[i].headers + st.headers
            && st'.runs[i].history == AddPart(st.runs[i].history, p)
          else st'.runs[i] == Building(runId, source, st.headers, AddPart(EMPTY, p)))
  {
    i := Route(st, runId, p, source, line).1;
    assert [] + st.headers == st.headers;
  }

  // ---------- where issues are located ----------

  predicate IsRejection(issue: Issue) {
    issue.kind == InvalidLine || issue.kind == UnsupportedVersion
  }

  function Rejections(issues: seq<Issue>): seq<Issue> {
    if issues == [] then []
    else Rejections(issues[..|issues| - 1]) + (if IsRejection(issues[|issues| - 1]) then [issues[|issues| - 1]] else [])
  }

  /** One issue per rejected line, with its number, counted from one and over blank lines too. */
  function RejectedLines(lines: seq<InputLine>, source: Option<string>): seq<Issue> {
    if lines == [] then []
    else
      var n := |lines| - 1;
      var m := MeaningOf(lines[n]);
      RejectedLines(lines[..n], source) + (if Rejects(m) then [Issue(source, Some(n + 1), m.decoded.kind)] else [])
  }

  lemma RejectionSnoc(issues: seq<Issue>, issue: Issue)
    ensures Rejections(issues + [issue]) == Rejections(issues) + (if IsRejection(issue) then [issue] else [])
  {
    assert (issues + [issue])[..|issues|] == issues;
  }

  lemma {:induction false} NoMoreRejections(issues: seq<Issue>, more: seq<Issue>)
    requires forall i :: 0 <= i < |more| ==> !IsRejection(more[i])
    ensures Rejections(issues + more) == Rejections(issues)
  {
    if more == [] {
      assert issues + more == issues;
    } else {
      var n := |more| - 1;
      assert issues + more == (issues + more[..n]) + [more[n]];
      RejectionSnoc(issues + more[..n], more[n]);
      NoMoreRejections(issues, more[..n]);
    }
  }

  lemma DeliverRejectsNothing(st: LoaderState, i: nat, p: Part, source: Option<string>, line: nat)
    requires i < |st.runs|
    ensures Rejections(Deliver(st, i, p, source, line).issues) == Rejections(st.issues)
  {
    PartIssueKinds(st.runs[i].history, p);
    NoMoreRejections(st.issues, Located(PartIssues(st.runs[i].history, p), source, line));
  }

  lemma RouteRejectsNothing(st: LoaderState, runId: Option<string>, p: Part, source: Option<string>, line: nat)
    requires LegacyOk(st)
    ensures Rejections(Route(st, runId, p, source, line).0.issues) == Rejections(st.issues)
  {
    if runId.None? && RepeatsLegacy(st, p) {
      RejectionSnoc(st.issues, Issue(source, Some(line), InferredRunBoundary));
    } else {
      assert Route(st, runId, p, source, line).0.issues == st.issues;
    }
  }

  lemma LineRejections(st: LoaderState, m: Meaning, source: Option<string>, line: nat)
    requires LegacyOk(st) && RejectionKind(m)
    ensures var issues := Absorb(st, m, source, line).issues;
      Rejections(issues) == if Rejects(m) then Rejections(st.issues) + [Issue(source, Some(line), m.decoded.kind)] else Rejections(st.issues)
  {
    if Rejects(m) {
      RejectionSnoc(st.issues, Issue(source, Some(line), m.decoded.kind));
    } else if m.Entry? {
      var (routed, i) := Route(st, m.decoded.runId, m.decoded.part, source, line);
      RouteRejectsNothing(st, m.decoded.runId, m.decoded.part, source, line);
      DeliverRejectsNothing(routed, i, m.decoded.part, source, line);
    }
  }

  ghost predicate OnlyAbout(before: seq<Issue>, after: seq<Issue>, source: Option<string>, line: nat) {
    && before <= after
    && forall i :: |before| <= i < |after| ==> after[i].source == source && after[i].line == Some(line)
  }

  lemma RouteReports(st: LoaderState, runId: Option<string>, p: Part, source: Option<string>, line: nat)
    requires LegacyOk(st)
    ensures OnlyAbout(st.issues, Route(st, runId, p, source, line).0.issues, source, line)
  {
  }

  lemma DeliverReports(st: LoaderState, i: nat, p: Part, source: Option<string>, line: nat)
    requires i < |st.runs|
    ensures OnlyAbout(st.issues, Deliver(st, i, p, source, line).issues, source, line)
  {
  }

  /** Whatever is reported about a line names its file and its number, after what was reported before. */
  lemma IssuesNameLine(st: LoaderState, m: Meaning, source: Option<string>, line: nat)
    requires LegacyOk(st)
    ensures OnlyAbout(st.issues, Absorb(st, m, source, line).issues, source, line)
  {
    if m.Entry? && m.decoded.Accepted? {
      var Accepted(runId, p) := m.decoded;
      var (routed, i) := Route(st, runId, p, source, line);
      RouteReports(st, runId, p, source, line);
      DeliverReports(routed, i, p, source, line);
    }
  }

  /** Every rejected line of a file is reported once, in order, by its physical line number. */
  lemma {:induction false} RejectionsLocated(st: LoaderState, lines: seq<InputLine>, source: Option<string>)
    requires LegacyOk(st)
    ensures Rejections(ReadLines(st, lines, source).issues) == Rejections(st.issues) + RejectedLines(lines, source)
  {
    if lines != [] {
      var n, m := |lines| - 1, MeaningOf(lines[|lines| - 1]);
      RejectionsLocated(st, lines[..n], source);
      MeaningRejects(lines[n]);
      LineRejections(ReadLines(st, lines[..n], source), m, source, n + 1);
      SeqAssociative(Rejections(st.issues), RejectedLines(lines[..n], source),
                     if Rejects(m) then [Issue(source, Some(n + 1), m.decoded.kind)] else []);
    }
  }

  /** An unversioned file that repeats no record identifier loads as one run holding all its entries, in order. */
  lemma LegacyFileLoads(lines: seq<InputLine>, source: Option<string>)
    requires AllUnversioned(lines) && LegacyParts(lines) != [] && AllNew(EMPTY, LegacyParts(lines))
    ensures var h, runs := Fold(EMPTY, LegacyParts(lines)), LoadFiles([InputFile(source, lines)]).runs;
      && DistinctIds(h.scopes) && |runs| == 1 && runs[0] == SavedRun(None, [], h.records, FinalScopes(h), MissingOf(h))
  {
    var st := LegacyFileRead(lines, source);
    FilesKeepRouting([InputFile(source, lines)]);
    LoadedLegacy(st, lines, source);
  }

  lemma LegacyFileRead(lines: seq<InputLine>, source: Option<string>) returns (st: LoaderState)
    requires AllUnversioned(lines) && LegacyParts(lines) != [] && AllNew(EMPTY, LegacyParts(lines))
    ensures st == ReadFiles([InputFile(source, lines)]) == ReadLines(FRESH, lines, source)
    ensures st.runs == [Building(None, source, [], Fold(EMPTY, LegacyParts(lines)))]
  {
    st := ReadLines(FRESH, lines, source);
    OneFileRead(lines, source);
    LegacyRead(FRESH, Opening([], Building(None, source, [], EMPTY)), lines, source, LegacyParts(lines));
  }

  lemma LegacyRead(st: LoaderState, o: Opening, lines: seq<InputLine>, source: Option<string>, parts: seq<Part>)
    requires st == FRESH && o == Opening([], Building(None, source, [], EMPTY))
    requires AllUnversioned(lines) && parts == LegacyParts(lines) && parts != [] && AllNew(o.first.history, parts)
    ensures ReadLines(st, lines, source).runs == [o.first.(history := Fold(EMPTY, parts))]
  {
    assert OpeningOf(st, source) == o;
    LegacyRunIsFold(st, lines, source);
    assert [] + [o.first.(history := Fold(EMPTY, parts))] == [o.first.(history := Fold(EMPTY, parts))];
  }

  lemma OneFileRead(lines: seq<InputLine>, source: Option<string>)
    ensures ReadFiles([InputFile(source, lines)]) == ReadLines(FRESH, lines, source)
  {
    var file := InputFile(source, lines);
    assert [file][..0] == [] && ReadFiles([]) == FRESH;
  }

  /** No headers are left after a line that went to a legacy run. */
  lemma LoadedLegacy(st: LoaderState, lines: seq<InputLine>, source: Option<string>)
    requires st == ReadLines(FRESH, lines, source) && AllUnversioned(lines) && |st.runs| == 1 && RouteInv(st)
    ensures RunsDistinct(st.runs) && FinishLoad(st).runs == [FinishRun(st.runs[0])]
  {
    NoHeadersPending(lines, source);
    FinishesOne(st);
  }

  lemma FinishesOne(st: LoaderState)
    requires |st.runs| == 1 && st.headers == [] && RunsDistinct(st.runs)
    ensures FinishLoad(st).runs == [FinishRun(st.runs[0])]
  {
  }

  lemma {:induction false} NoHeadersPending(lines: seq<InputLine>, source: Option<string>)
    requires AllUnversioned(lines)
    ensures ReadLines(FRESH, lines, source).headers == []
    decreases |lines|
  {
    if lines != [] {
      var init, m := LastLine(lines, FRESH, source);
      NoHeadersPending(init, source);
    }
  }
}
