/** The rotating file writer: when it rotates, and what a log directory holds after any sequence of writes. */
module LogFile {
  import opened Core
  import opened Rotation

  /** Rotation is off when `maxBytes` is zero. */
  datatype LogPolicy = LogPolicy(maxBytes: U64, keepBackups: nat)

  datatype LogState = LogState(
    slots: seq<Option<File>>,
    size: nat,
    // Everything written so far, what rotations have discarded of it, and how many there were.
    written: File,
    lost: File,
    rotations: nat)

  datatype LogOp = WriteLine(text: seq<Byte>) | WriteHeader(text: seq<Byte>) | Reopen

  function SaturatingAdd(a: nat, b: nat): nat {
    if a + b > U64_MAX then U64_MAX else a + b
  }

  /** After opening a log in a directory that holds none of its files. */
  function NewLog(policy: LogPolicy): LogState {
    LogState(seq(policy.keepBackups + 1, i => if i == 0 then Some([]) else None), 0, [], [], 0)
  }

  predicate Opened(st: LogState) {
    st.slots != [] && st.slots[0].Some?
  }

  function Append(st: LogState, c: Chunk): LogState
    requires Opened(st)
  {
    st.(slots := st.slots[0 := Some(st.slots[0].value + [c])], size := st.size + Size(c), written := st.written + [c])
  }

  function Rotated(st: LogState): LogState
    requires st.slots != []
  {
    st.(slots := RotatedSlots(st.slots)[0 := Some([])], size := 0, lost := st.lost + Discarded(st.slots), rotations := st.rotations + 1)
  }

  /** An empty file takes any line; otherwise the line has to fit below the limit. */
  predicate MustRotate(policy: LogPolicy, st: LogState, bytes: nat) {
    policy.maxBytes > 0 && st.size > 0 && SaturatingAdd(st.size, bytes) > policy.maxBytes
  }

  function Step(policy: LogPolicy, st: LogState, op: LogOp): (r: LogState)
    requires Opened(st)
    ensures Opened(r)
  {
    match op
    case WriteLine(text) =>
      var line := Line(text);
      Append(if MustRotate(policy, st, Size(line)) then Rotated(st) else st, line)
    case WriteHeader(text) => Append(if st.size > 0 then Append(st, BlankLine) else st, HeaderBlock(text))
    case Reopen =>
      var len := Bytes(st.slots[0].value);
      if policy.maxBytes > 0 && len >= policy.maxBytes then Rotated(st) else st.(size := len)
  }

  /** After opening a log in a directory that may already hold files of it: they count as written. */
  function OpenLog(policy: LogPolicy, slots: seq<Option<File>>): LogState
    requires slots != []
  {
    Step(policy, LogState(Present(slots), 0, Contents(slots), [], 0), Reopen)
  }

  /** The active file is created if it is not there. */
  function Present(slots: seq<Option<File>>): (r: seq<Option<File>>)
    requires slots != []
    ensures |r| == |slots| && r[0].Some?
  {
    if slots[0].Some? then slots else slots[0 := Some([])]
  }

  function RunLog(policy: LogPolicy, start: LogState, ops: seq<LogOp>): (r: LogState)
    requires Opened(start)
    ensures Opened(r)
  {
    if ops == [] then start else Step(policy, RunLog(policy, start, ops[..|ops| - 1]), ops[|ops| - 1])
  }

  // ---------- the invariant ----------

  /** Within the limit, or a single oversized line, or ending with a header, which bypasses limits. */
  predicate Fits(f: File, max: nat) {
    Bytes(f) <= max || (|f| == 1 && f[0].Line?) || (f != [] && f[|f| - 1].HeaderBlock?)
  }

  ghost predicate AllFit(slots: seq<Option<File>>, max: nat) {
    forall j :: 0 <= j < |slots| && slots[j].Some? ==> Fits(slots[j].value, max)
  }

  /** The backups fill up from the newest slot on, one per rotation. */
  ghost predicate Filled(slots: seq<Option<File>>, rotations: nat) {
    forall j :: 1 <= j < |slots| ==> (slots[j].Some? <==> j <= rotations)
  }

  ghost predicate LogInv(policy: LogPolicy, st: LogState) {
    && Opened(st) && |st.slots| == policy.keepBackups + 1
    && st.size == Bytes(st.slots[0].value)
    && st.lost + Contents(st.slots) == st.written
    && (st.rotations <= policy.keepBackups ==> st.lost == [])
    && Filled(st.slots, st.rotations)
    && (policy.maxBytes > 0 ==> AllFit(st.slots, policy.maxBytes))
  }

  lemma {:induction false} HistoryOfNone(s: seq<Option<File>>)
    requires forall j :: 0 <= j < |s| ==> s[j].None?
    ensures Contents(s) == []
  {
    if s != [] {
      HistoryOfNone(s[1..]);
    }
  }

  /** The slots of a directory that holds none of the log's files. */
  ghost predicate NoFiles(policy: LogPolicy, slots: seq<Option<File>>) {
    |slots| == policy.keepBackups + 1 && forall j :: 0 <= j < |slots| ==> slots[j].None?
  }

  lemma OpenEmpty(policy: LogPolicy, slots: seq<Option<File>>)
    requires NoFiles(policy, slots)
    ensures OpenLog(policy, slots) == NewLog(policy)
  {
    HistoryOfNone(slots);
    assert slots[0 := Some([])] == NewLog(policy).slots;
  }

  lemma NewLogInv(policy: LogPolicy)
    ensures LogInv(policy, NewLog(policy))
  {
    var st := NewLog(policy);
    HistoryOfNone(st.slots[1..]);
  }

  lemma HistoryActive(s: seq<Option<File>>, f: File)
    requires s != []
    ensures Contents(s[0 := Some(f)]) == Contents(s[1..]) + f
  {
    assert s[0 := Some(f)][1..] == s[1..];
  }

  lemma AppendHistory(st: LogState, c: Chunk)
    requires Opened(st) && st.lost + Contents(st.slots) == st.written
    ensures var t := Append(st, c); t.lost + Contents(t.slots) == t.written
  {
    var f, back := st.slots[0].value, Contents(st.slots[1..]);
    HistoryActive(st.slots, f + [c]);
    SeqAssociative(back, f, [c]);
    SeqAssociative(st.lost, back + f, [c]);
  }

  /** Everything but the size limit. */
  lemma AppendKeeps(policy: LogPolicy, st: LogState, c: Chunk)
    requires LogInv(policy, st)
    requires policy.maxBytes > 0 ==> Fits(st.slots[0].value + [c], policy.maxBytes)
    ensures LogInv(policy, Append(st, c))
  {
    AppendHistory(st, c);
    BytesSnoc(st.slots[0].value, c);
  }

  lemma RotatedHistory(st: LogState)
    requires Opened(st) && st.lost + Contents(st.slots) == st.written
    ensures var t := Rotated(st); t.lost + Contents(t.slots) == t.written
  {
    var r := RotatedSlots(st.slots);
    RotationKeepsHistory(st.slots);
    HistoryActive(r, []);
    assert Content(r[0]) == [];
    SeqAssociative(st.lost, Discarded(st.slots), Contents(r));
  }

  lemma RotatedFits(slots: seq<Option<File>>, max: nat)
    requires slots != [] && AllFit(slots, max)
    ensures AllFit(RotatedSlots(slots)[0 := Some([])], max)
  {
    var r := RotatedSlots(slots)[0 := Some([])];
    forall j | 0 <= j < |r| && r[j].Some?
      ensures Fits(r[j].value, max)
    {
      assert j > 0 ==> r[j] == slots[j - 1] || r[j] == slots[j];
    }
  }

  lemma RotatedFills(slots: seq<Option<File>>, rotations: nat)
    requires slots != [] && slots[0].Some? && Filled(slots, rotations)
    ensures Filled(RotatedSlots(slots)[0 := Some([])], rotations + 1)
  {
  }

  lemma RotatedKeeps(policy: LogPolicy, st: LogState)
    requires LogInv(policy, st)
    ensures LogInv(policy, Rotated(st))
  {
    RotatedHistory(st);
    if policy.maxBytes > 0 {
      RotatedFits(st.slots, policy.maxBytes);
    }
    RotatedFills(st.slots, st.rotations);
    assert st.rotations + 1 <= policy.keepBackups ==> st.slots[policy.keepBackups].None?;
  }

  lemma EmptyIfNoBytes(f: File)
    requires Bytes(f) == 0
    ensures f == []
  {
  }

  lemma LineFits(policy: LogPolicy, st: LogState, text: seq<Byte>)
    requires LogInv(policy, st) && policy.maxBytes > 0 && !MustRotate(policy, st, Size(Line(text)))
    requires st.size + Size(Line(text)) <= U64_MAX
    ensures Fits(st.slots[0].value + [Line(text)], policy.maxBytes)
  {
    BytesSnoc(st.slots[0].value, Line(text));
    if st.size == 0 {
      EmptyIfNoBytes(st.slots[0].value);
    }
  }

  lemma HeaderFits(f: File, text: seq<Byte>, max: nat)
    ensures Fits(f + [HeaderBlock(text)], max)
  {
  }

  /** Everything but the size limit, which the active file may pass for a moment. */
  ghost predicate AlmostInv(policy: LogPolicy, st: LogState) {
    && Opened(st) && |st.slots| == policy.keepBackups + 1
    && st.size == Bytes(st.slots[0].value)
    && st.lost + Contents(st.slots) == st.written
    && (st.rotations <= policy.keepBackups ==> st.lost == [])
    && Filled(st.slots, st.rotations)
    && (policy.maxBytes > 0 ==> forall j :: 1 <= j < |st.slots| && st.slots[j].Some? ==> Fits(st.slots[j].value, policy.maxBytes))
  }

  lemma AppendAlmost(policy: LogPolicy, st: LogState, c: Chunk)
    requires AlmostInv(policy, st)
    ensures AlmostInv(policy, Append(st, c))
  {
    AppendHistory(st, c);
    BytesSnoc(st.slots[0].value, c);
  }

  lemma HeaderEnds(policy: LogPolicy, st: LogState, text: seq<Byte>)
    requires AlmostInv(policy, st)
    ensures LogInv(policy, Append(st, HeaderBlock(text)))
  {
    AppendAlmost(policy, st, HeaderBlock(text));
    HeaderFits(st.slots[0].value, text, policy.maxBytes);
  }

  /** The blank line before a header may pass the limit for a moment; the header then ends the file. */
  lemma HeaderKeeps(policy: LogPolicy, st: LogState, text: seq<Byte>)
    requires LogInv(policy, st)
    ensures LogInv(policy, Step(policy, st, WriteHeader(text)))
  {
    if st.size > 0 {
      AppendAlmost(policy, st, BlankLine);
      HeaderEnds(policy, Append(st, BlankLine), text);
    } else {
      HeaderEnds(policy, st, text);
    }
  }

  /** The bytes an operation may add. */
  function OpBytes(op: LogOp): nat {
    match op
    case WriteLine(text) => |text| + 1
    case WriteHeader(text) => |text| + 2
    case Reopen => 0
  }

  function TotalBytes(ops: seq<LogOp>): nat {
    if ops == [] then 0 else TotalBytes(ops[..|ops| - 1]) + OpBytes(ops[|ops| - 1])
  }

  lemma WriteKeeps(policy: LogPolicy, st: LogState, text: seq<Byte>)
    requires LogInv(policy, st) && st.size + |text| + 1 <= U64_MAX && !MustRotate(policy, st, Size(Line(text)))
    ensures LogInv(policy, Append(st, Line(text))) && Append(st, Line(text)).size == st.size + |text| + 1
  {
    if policy.maxBytes > 0 {
      LineFits(policy, st, text);
    }
    AppendKeeps(policy, st, Line(text));
  }

  lemma LineKeeps(policy: LogPolicy, st: LogState, text: seq<Byte>)
    requires LogInv(policy, st) && st.size + |text| + 1 <= U64_MAX
    ensures var t := Step(policy, st, WriteLine(text)); LogInv(policy, t) && t.size <= st.size + |text| + 1
  {
    if MustRotate(policy, st, Size(Line(text))) {
      RotatedKeeps(policy, st);
      WriteKeeps(policy, Rotated(st), text);
    } else {
      WriteKeeps(policy, st, text);
    }
  }

  lemma ReopenKeeps(policy: LogPolicy, st: LogState)
    requires LogInv(policy, st)
    ensures LogInv(policy, Step(policy, st, Reopen)) && Step(policy, st, Reopen).size <= st.size
  {
    RotatedKeeps(policy, st);
  }

  lemma StepKeeps(policy: LogPolicy, st: LogState, op: LogOp)
    requires LogInv(policy, st) && st.size + OpBytes(op) <= U64_MAX
    ensures LogInv(policy, Step(policy, st, op)) && Step(policy, st, op).size <= st.size + OpBytes(op)
  {
    match op
    case WriteLine(text) => LineKeeps(policy, st, text);
    case WriteHeader(text) => HeaderKeeps(policy, st, text);
    case Reopen => ReopenKeeps(policy, st);
  }

  lemma {:induction false} RunKeeps(policy: LogPolicy, ops: seq<LogOp>)
    requires TotalBytes(ops) <= U64_MAX
    ensures var st := RunLog(policy, NewLog(policy), ops); LogInv(policy, st) && st.size <= TotalBytes(ops)
  {
    if ops == [] {
      NewLogInv(policy);
    } else {
      var n := |ops| - 1;
      RunKeeps(policy, ops[..n]);
      StepKeeps(policy, RunLog(policy, NewLog(policy), ops[..n]), ops[n]);
    }
  }

  // ---------- from any directory ----------

  /** What is there and what was discarded is what was written, and the writer knows the size of its file. */
  ghost predicate Conserves(st: LogState) {
    && Opened(st)
    && st.size == Bytes(st.slots[0].value)
    && st.lost + Contents(st.slots) == st.written
  }

  lemma AppendConserves(st: LogState, c: Chunk)
    requires Conserves(st)
    ensures Conserves(Append(st, c))
  {
    AppendHistory(st, c);
    BytesSnoc(st.slots[0].value, c);
  }

  lemma RotatedConserves(st: LogState)
    requires Opened(st) && st.lost + Contents(st.slots) == st.written
    ensures Conserves(Rotated(st))
  {
    RotatedHistory(st);
  }

  lemma LineConserves(policy: LogPolicy, st: LogState, text: seq<Byte>)
    requires Conserves(st)
    ensures var t := Step(policy, st, WriteLine(text)); Conserves(t) && t.size <= st.size + |text| + 1
  {
    if MustRotate(policy, st, Size(Line(text))) {
      RotatedConserves(st);
      AppendConserves(Rotated(st), Line(text));
    } else {
      AppendConserves(st, Line(text));
    }
  }

  lemma HeaderConserves(policy: LogPolicy, st: LogState, text: seq<Byte>)
    requires Conserves(st)
    ensures var t := Step(policy, st, WriteHeader(text)); Conserves(t) && t.size <= st.size + |text| + 2
  {
    if st.size > 0 {
      AppendConserves(st, BlankLine);
      AppendConserves(Append(st, BlankLine), HeaderBlock(text));
    } else {
      AppendConserves(st, HeaderBlock(text));
    }
  }

  lemma StepConserves(policy: LogPolicy, st: LogState, op: LogOp)
    requires Conserves(st)
    ensures Conserves(Step(policy, st, op)) && Step(policy, st, op).size <= st.size + OpBytes(op)
  {
    match op
    case WriteLine(text) => LineConserves(policy, st, text);
    case WriteHeader(text) => HeaderConserves(policy, st, text);
    case Reopen => RotatedConserves(st);
  }

  lemma {:induction false} RunConserves(policy: LogPolicy, start: LogState, ops: seq<LogOp>)
    requires Conserves(start)
    ensures var st := RunLog(policy, start, ops); Conserves(st) && st.size <= start.size + TotalBytes(ops)
  {
    if ops != [] {
      var n := |ops| - 1;
      RunConserves(policy, start, ops[..n]);
      StepConserves(policy, RunLog(policy, start, ops[..n]), ops[n]);
    }
  }

  lemma PresentHistory(slots: seq<Option<File>>)
    requires slots != []
    ensures [] + Contents(Present(slots)) == Contents(slots)
  {
    if slots[0].None? {
      HistoryActive(slots, []);
      assert Contents(slots) == Contents(slots[1..]) + [];
    }
  }

  lemma ReopenConserves(policy: LogPolicy, st: LogState)
    requires Opened(st) && st.lost + Contents(st.slots) == st.written
    ensures var t := Step(policy, st, Reopen); Conserves(t) && t.written == st.written
  {
    RotatedConserves(st);
  }

  lemma OpenConserves(policy: LogPolicy, slots: seq<Option<File>>)
    requires slots != []
    ensures Conserves(OpenLog(policy, slots)) && OpenLog(policy, slots).written == Contents(slots)
  {
    PresentHistory(slots);
    ReopenConserves(policy, LogState(Present(slots), 0, Contents(slots), [], 0));
  }

  /**
   A line makes the log rotate exactly if it would take a nonempty file past the limit, reopening exactly if the file
   has reached it, a header never.
   */
  lemma RotatesExactlyWhenFull(policy: LogPolicy, st: LogState, text: seq<Byte>)
    requires LogInv(policy, st) && st.size + |text| + 1 <= U64_MAX
    ensures var active := st.slots[0].value;
      Step(policy, st, WriteLine(text)).rotations == st.rotations + (
        if policy.maxBytes > 0 && active != [] && Bytes(active + [Line(text)]) > policy.maxBytes then 1 else 0)
    ensures Step(policy, st, WriteHeader(text)).rotations == st.rotations
    ensures Step(policy, st, Reopen).rotations == st.rotations + (
      if policy.maxBytes > 0 && Bytes(st.slots[0].value) >= policy.maxBytes then 1 else 0)
  {
    BytesSnoc(st.slots[0].value, Line(text));
    if st.size == 0 {
      EmptyIfNoBytes(st.slots[0].value);
    }
  }

  /**
   A line goes to the end of the active file, or into a new one; so does a header, after one blank line unless the file
   is empty.
   */
  lemma ActiveAfter(policy: LogPolicy, st: LogState, text: seq<Byte>)
    requires LogInv(policy, st)
    ensures var active, line, header := st.slots[0].value, Step(policy, st, WriteLine(text)), Step(policy, st, WriteHeader(text));
      && line.slots[0] == Some(if line.rotations > st.rotations then [Line(text)] else active + [Line(text)])
      && header.slots[0] == Some(if active == [] then [HeaderBlock(text)] else active + [BlankLine, HeaderBlock(text)])
  {
    var active := st.slots[0].value;
    if st.size == 0 {
      EmptyIfNoBytes(active);
    }
    assert active + [BlankLine] + [HeaderBlock(text)] == active + [BlankLine, HeaderBlock(text)];
    assert [] + [Line(text)] == [Line(text)] && [] + [HeaderBlock(text)] == [HeaderBlock(text)];
  }

  // ---------- what a reader of the directory finds ----------

  function Request(op: LogOp): File {
    match op
    case WriteLine(text) => [Line(text)]
    case WriteHeader(text) => [HeaderBlock(text)]
    case Reopen => []
  }

  function Requested(ops: seq<LogOp>): File {
    if ops == [] then [] else Requested(ops[..|ops| - 1]) + Request(ops[|ops| - 1])
  }

  function WithoutBlanks(f: File): File {
    if f == [] then [] else WithoutBlanks(f[..|f| - 1]) + (if f[|f| - 1].BlankLine? then [] else [f[|f| - 1]])
  }

  lemma WithoutBlanksSnoc(f: File, c: Chunk)
    ensures WithoutBlanks(f + [c]) == WithoutBlanks(f) + (if c.BlankLine? then [] else [c])
  {
    assert (f + [c])[..|f|] == f;
  }

  lemma BlankThenHeader(f: File, text: seq<Byte>)
    ensures WithoutBlanks(f + [BlankLine] + [HeaderBlock(text)]) == WithoutBlanks(f) + [HeaderBlock(text)]
  {
    WithoutBlanksSnoc(f, BlankLine);
    WithoutBlanksSnoc(f + [BlankLine], HeaderBlock(text));
  }

  lemma StepWrites(policy: LogPolicy, st: LogState, op: LogOp)
    requires Opened(st)
    ensures WithoutBlanks(Step(policy, st, op).written) == WithoutBlanks(st.written) + Request(op)
  {
    if op.WriteLine? {
      WithoutBlanksSnoc(st.written, Line(op.text));
    } else if op.WriteHeader? && st.size > 0 {
      BlankThenHeader(st.written, op.text);
    } else if op.WriteHeader? {
      WithoutBlanksSnoc(st.written, HeaderBlock(op.text));
    }
  }

  /** Apart from blank lines, what is written is exactly what was asked for, in order. */
  lemma {:induction false} WrittenAsRequested(policy: LogPolicy, start: LogState, ops: seq<LogOp>)
    requires Opened(start)
    ensures WithoutBlanks(RunLog(policy, start, ops).written) == WithoutBlanks(start.written) + Requested(ops)
  {
    if ops != [] {
      var n := |ops| - 1;
      WrittenAsRequested(policy, start, ops[..n]);
      StepWrites(policy, RunLog(policy, start, ops[..n]), ops[n]);
      SeqAssociative(WithoutBlanks(start.written), Requested(ops[..n]), Request(ops[n]));
    }
  }

  /**
   Whatever the directory held before: its files, from the oldest backup to the active one, followed by everything
   asked for since, are what rotations have discarded followed by what the files hold now, apart from blank lines.
   */
  lemma LogConserved(policy: LogPolicy, slots: seq<Option<File>>, ops: seq<LogOp>)
    requires slots != []
    ensures var st := RunLog(policy, OpenLog(policy, slots), ops);
      && WithoutBlanks(st.lost + Contents(st.slots)) == WithoutBlanks(Contents(slots)) + Requested(ops)
      && st.size == Bytes(st.slots[0].value)
  {
    OpenConserves(policy, slots);
    RunConserves(policy, OpenLog(policy, slots), ops);
    WrittenAsRequested(policy, OpenLog(policy, slots), ops);
  }

  /**
   From an empty directory, the backups from oldest to newest followed by the active file are a suffix of everything
   written, cut between two writes, and all of it as long as there were no more rotations than backups. The size the
   writer works with is that of the active file, and no file passes the limit except for a single long line or a
   header at its end.
   */
  lemma LogKept(policy: LogPolicy, slots: seq<Option<File>>, ops: seq<LogOp>)
    requires NoFiles(policy, slots) && TotalBytes(ops) <= U64_MAX
    ensures var st := RunLog(policy, OpenLog(policy, slots), ops);
      && st.lost + Contents(st.slots) == st.written && WithoutBlanks(st.written) == Requested(ops)
      && (st.rotations <= policy.keepBackups ==> Contents(st.slots) == st.written)
      && st.size == Bytes(st.slots[0].value)
      && (policy.maxBytes > 0 ==> AllFit(st.slots, policy.maxBytes))
      && (policy.maxBytes == 0 ==> st.rotations == 0 && Contents(st.slots) == st.written)
  {
    OpenEmpty(policy, slots);
    RunKeeps(policy, ops);
    WrittenAsRequested(policy, NewLog(policy), ops);
    if policy.maxBytes == 0 {
      NeverRotates(policy, ops);
    }
  }

  lemma {:induction false} NeverRotates(policy: LogPolicy, ops: seq<LogOp>)
    requires policy.maxBytes == 0
    ensures RunLog(policy, NewLog(policy), ops).rotations == 0
  {
    if ops != [] {
      NeverRotates(policy, ops[..|ops| - 1]);
    }
  }

  // ---------- the writer ----------

  class RotatingFileWriter {
    const path: string
    const policy: LogPolicy
    var files: Files
    var currentSize: nat
    ghost var written: File
    ghost var lost: File
    ghost var rotations: nat

    ghost function View(): LogState
      reads this
    {
      LogState(Slots(files, path, policy.keepBackups), currentSize, written, lost, rotations)
    }

    ghost predicate Valid()
      reads this
    {
      path in files && currentSize == Bytes(files[path]) <= U64_MAX
    }

    constructor (path: string, policy: LogPolicy, files: Files)
      requires path in files ==> Bytes(files[path]) <= U64_MAX
      ensures Valid() && this.path == path && this.policy == policy
      ensures View() == OpenLog(policy, Slots(files, path, policy.keepBackups))
    {
      this.path, this.policy, this.files, currentSize := path, policy, files, 0;
      written, lost, rotations := Contents(Slots(files, path, policy.keepBackups)), [], 0;
      new;
      CreateSlot(files, path, policy.keepBackups, []);
      if path !in files {
        this.files := files[path := []];
      }
      Reopen();
    }

    /** Rotate, then create the active file anew. */
    method RotateAndReopen()
      requires path in files
      modifies this
      ensures Valid() && View() == Rotated(old(View()))
    {
      rotations := rotations + 1;
      lost := lost + Discarded(View().slots);
      var rotated := Rotate(files, path, policy.keepBackups);
      files := rotated;
      CreateSlot(files, path, policy.keepBackups, []);
      files := files[path := []];
      currentSize := 0;
    }

    method AppendChunk(c: Chunk)
      requires Valid() && currentSize + Size(c) <= U64_MAX
      modifies this
      ensures Valid() && Opened(old(View())) && View() == Append(old(View()), c)
    {
      GrowSlot(files, path, policy.keepBackups, c);
      files := files[path := files[path] + [c]];
      currentSize := currentSize + Size(c);
      written := written + [c];
    }

    method WriteLine(text: seq<Byte>)
      requires Valid() && currentSize + |text| + 1 <= U64_MAX
      modifies this
      ensures Valid() && Opened(old(View())) && View() == Step(policy, old(View()), LogOp.WriteLine(text))
    {
      ActiveSlot(files, path, policy.keepBackups);
      var len := |text| + 1;
      if policy.maxBytes > 0 && currentSize > 0 && SaturatingAdd(currentSize, len) > policy.maxBytes {
        RotateAndReopen();
      }
      AppendChunk(Line(text));
    }

    method WriteHeader(text: seq<Byte>)
      requires Valid() && currentSize + |text| + 2 <= U64_MAX
      modifies this
      ensures Valid() && Opened(old(View())) && View() == Step(policy, old(View()), LogOp.WriteHeader(text))
    {
      ActiveSlot(files, path, policy.keepBackups);
      if currentSize > 0 {
        AppendChunk(BlankLine);
      }
      AppendChunk(HeaderBlock(text));
    }

    /** A new writer on the same path finds the length of the file it is going to append to. */
    method Reopen()
      requires path in files && Bytes(files[path]) <= U64_MAX
      modifies this
      ensures Valid() && Opened(old(View())) && View() == Step(policy, old(View()), LogOp.Reopen)
    {
      ActiveSlot(files, path, policy.keepBackups);
      if policy.maxBytes > 0 && Bytes(files[path]) >= policy.maxBytes {
        RotateAndReopen();
      } else {
        currentSize := Bytes(files[path]);
      }
    }

    method Perform(op: LogOp)
      requires Valid() && currentSize + OpBytes(op) <= U64_MAX
      modifies this
      ensures Valid() && Opened(old(View())) && View() == Step(policy, old(View()), op)
    {
      match op {
        case WriteLine(text) => WriteLine(text);
        case WriteHeader(text) => WriteHeader(text);
        case Reopen => Reopen();
      }
    }

    /** Any sequence of operations leaves the directory in the state that the slots describe. */
    method Run(ops: seq<LogOp>)
      requires Valid() && Conserves(View()) && currentSize + TotalBytes(ops) <= U64_MAX
      modifies this
      ensures Valid() && View() == RunLog(policy, old(View()), ops)
    {
      ghost var start := View();
      var i := 0;
      while i < |ops|
        invariant i <= |ops| && Valid() && View() == RunLog(policy, start, ops[..i])
      {
        assert ops[..i + 1][..i] == ops[..i];
        TotalGrows(ops, i + 1);
        RunConserves(policy, start, ops[..i]);
        Perform(ops[i]);
        i := i + 1;
      }
      assert ops[..i] == ops;
    }
  }

  /**
   Writing a log into a directory that holds none of its files: what is found there, from the oldest backup to the
   active file, is all that was asked for, apart from blank lines, as long as there were no more rotations than
   backups, and never passes the limit.
   */
  method WriteLog(files: Files, path: string, policy: LogPolicy, ops: seq<LogOp>) returns (after: Files)
    requires NoFiles(policy, Slots(files, path, policy.keepBackups)) && TotalBytes(ops) <= U64_MAX
    ensures Slots(after, path, policy.keepBackups)
         == RunLog(policy, OpenLog(policy, Slots(files, path, policy.keepBackups)), ops).slots
    ensures RunLog(policy, OpenLog(policy, Slots(files, path, policy.keepBackups)), ops).rotations <= policy.keepBackups ==>
      WithoutBlanks(Contents(Slots(after, path, policy.keepBackups))) == Requested(ops)
    ensures policy.maxBytes > 0 ==> AllFit(Slots(after, path, policy.keepBackups), policy.maxBytes)
  {
    ghost var slots := Slots(files, path, policy.keepBackups);
    ActiveSlot(files, path, policy.keepBackups);
    OpenConserves(policy, slots);
    OpenEmpty(policy, slots);
    LogKept(policy, slots, ops);
    var writer := new RotatingFileWriter(path, policy, files);
    writer.Run(ops);
    after := writer.files;
  }

  lemma {:induction false} TotalGrows(ops: seq<LogOp>, k: nat)
    requires k <= |ops|
    ensures TotalBytes(ops[..k]) <= TotalBytes(ops)
  {
    if k < |ops| {
      TotalGrows(ops[..|ops| - 1], k);
      assert ops[..|ops| - 1][..k] == ops[..k];
    } else {
      assert ops[..k] == ops;
    }
  }

  lemma ActiveSlot(files: Files, path: string, keep: nat)
    ensures Slots(files, path, keep)[0] == Lookup(files, path)
  {
    assert SlotName(path, 0) == path;
  }

  lemma CreateSlot(files: Files, path: string, keep: nat, f: File)
    ensures Slots(files[path := f], path, keep) == Slots(files, path, keep)[0 := Some(f)]
    ensures Slots(files, path, keep)[0] == Lookup(files, path)
  {
    var a, b := Slots(files[path := f], path, keep), Slots(files, path, keep)[0 := Some(f)];
    ActiveSlot(files, path, keep);
    ActiveSlot(files[path := f], path, keep);
    forall i | 1 <= i <= keep
      ensures a[i] == b[i]
    {
      assert |SlotName(path, i)| > |path|;
    }
  }

  lemma GrowSlot(files: Files, path: string, keep: nat, c: Chunk)
    requires path in files
    ensures var slots, grown := Slots(files, path, keep), files[path] + [c];
      && slots[0] == Some(files[path]) && Bytes(grown) == Bytes(files[path]) + Size(c)
      && Slots(files[path := grown], path, keep) == slots[0 := Some(grown)]
  {
    BytesSnoc(files[path], c);
    CreateSlot(files, path, keep, files[path] + [c]);
  }
}
