/** Log rotation on an abstract directory: what a rotation does to the files, and what every history of writes keeps. */
module Rotation {
  import opened Core

  // ---------- files ----------

  type Byte = n: nat | n < 256

  /** One write: a record line, a session header, or the blank line put before a header. */
  datatype Chunk = Line(text: seq<Byte>) | HeaderBlock(text: seq<Byte>) | BlankLine

  type File = seq<Chunk>

  /** Lines and headers end in a newline. */
  function Size(c: Chunk): nat {
    if c.BlankLine? then 1 else |c.text| + 1
  }

  function Bytes(f: File): nat {
    if f == [] then 0 else Bytes(f[..|f| - 1]) + Size(f[|f| - 1])
  }

  lemma BytesSnoc(f: File, c: Chunk)
    ensures Bytes(f + [c]) == Bytes(f) + Size(c)
  {
    assert (f + [c])[..|f|] == f;
  }

  /** A directory. */
  type Files = map<string, File>

  function Lookup(files: Files, name: string): Option<File> {
    if name in files then Some(files[name]) else None
  }

  /** Slot 0 is the active file, slot `n` its `n`-th backup. */
  function SlotName(path: string, n: nat): string {
    if n == 0 then path else path + "." + Decimal(n)
  }

  lemma SlotNamesDistinct(path: string, i: nat, j: nat)
    requires SlotName(path, i) == SlotName(path, j)
    ensures i == j
  {
    if i > 0 && j > 0 {
      var k := |path| + 1;
      assert SlotName(path, i)[k..] == Decimal(i) && SlotName(path, j)[k..] == Decimal(j);
      DecimalInjective(i, j);
    }
  }

  /** Renaming replaces the target; a missing source is harmless. */
  function Renamed(files: Files, from: string, to: string): Files
    requires from != to
  {
    if from in files then (files - {from})[to := files[from]] else files
  }

  function Slots(files: Files, path: string, keep: nat): (s: seq<Option<File>>)
    ensures |s| == keep + 1
  {
    seq(keep + 1, i requires 0 <= i <= keep => Lookup(files, SlotName(path, i)))
  }

  function MoveUp(s: seq<Option<File>>, i: nat): seq<Option<File>>
    requires i + 1 < |s|
  {
    if s[i].Some? then s[i := None][i + 1 := s[i]] else s
  }

  /** Nothing but the slots of this log changes. */
  ghost predicate SameElsewhere(a: Files, b: Files, path: string, keep: nat) {
    forall name {:trigger Lookup(a, name)} {:trigger Lookup(b, name)} ::
      (forall i {:trigger SlotName(path, i)} :: 0 <= i <= keep ==> name != SlotName(path, i)) ==> Lookup(a, name) == Lookup(b, name)
  }

  lemma RenameSlot(files: Files, path: string, keep: nat, i: nat)
    requires i < keep && SlotName(path, i) != SlotName(path, i + 1)
    ensures var files' := Renamed(files, SlotName(path, i), SlotName(path, i + 1));
      Slots(files', path, keep) == MoveUp(Slots(files, path, keep), i) && SameElsewhere(files', files, path, keep)
  {
    var from, to := SlotName(path, i), SlotName(path, i + 1);
    var files' := Renamed(files, from, to);
    var s', s := Slots(files', path, keep), MoveUp(Slots(files, path, keep), i);
    forall k | 0 <= k <= keep
      ensures s'[k] == s[k]
    {
      if SlotName(path, k) == from {
        SlotNamesDistinct(path, k, i);
      }
      if SlotName(path, k) == to {
        SlotNamesDistinct(path, k, i + 1);
      }
    }
  }

  /**
   What a rotation does to the slots: the active file becomes the first backup and every backup moves up. The last
   slot gives up its old content only if something moves into it.
   */
  function RotatedSlots(s: seq<Option<File>>): (r: seq<Option<File>>)
    requires s != []
    ensures |r| == |s|
  {
    seq(|s|, j requires 0 <= j < |s| =>
      if j == 0 then None
      else if j == |s| - 1 then Or(s[j - 1], s[j])
      else s[j - 1])
  }

  /** The shift in progress: slots up to `i` are as they were, the one above is free, those beyond are final. */
  ghost predicate Shifting(now: seq<Option<File>>, s: seq<Option<File>>, i: nat) {
    && |now| == |s| && i + 1 < |s|
    && (forall j :: 0 <= j <= i ==> now[j] == s[j])
    && now[i + 1] == (if i + 2 == |s| then s[i + 1] else None)
    && (forall j :: i + 2 <= j < |s| ==> now[j] == RotatedSlots(s)[j])
  }

  lemma ShiftOne(now: seq<Option<File>>, s: seq<Option<File>>, i: nat)
    requires Shifting(now, s, i) && i > 0
    ensures Shifting(MoveUp(now, i), s, i - 1)
  {
  }

  lemma ShiftActive(now: seq<Option<File>>, s: seq<Option<File>>)
    requires Shifting(now, s, 0)
    ensures MoveUp(now, 0) == RotatedSlots(s)
  {
  }

  lemma SameElsewhereChains(a: Files, b: Files, c: Files, path: string, keep: nat)
    requires SameElsewhere(a, b, path, keep) && SameElsewhere(b, c, path, keep)
    ensures SameElsewhere(a, c, path, keep)
  {
    forall name | forall i {:trigger SlotName(path, i)} :: 0 <= i <= keep ==> name != SlotName(path, i)
      ensures Lookup(a, name) == Lookup(c, name)
    {
      assert Lookup(a, name) == Lookup(b, name);
    }
  }

  lemma NextNameDiffers(path: string, i: nat)
    ensures SlotName(path, i) != SlotName(path, i + 1)
  {
    if SlotName(path, i) == SlotName(path, i + 1) {
      SlotNamesDistinct(path, i, i + 1);
    }
  }

  /** Move slot `i` up by one, if there is anything in it. */
  method ShiftSlot(files: Files, path: string, keep: nat, i: nat) returns (after: Files)
    requires i < keep
    ensures Slots(after, path, keep) == MoveUp(Slots(files, path, keep), i)
    ensures SameElsewhere(after, files, path, keep)
  {
    NextNameDiffers(path, i);
    RenameSlot(files, path, keep, i);
    after := Renamed(files, SlotName(path, i), SlotName(path, i + 1));
  }

  lemma RemoveActive(files: Files, path: string)
    ensures Slots(files - {path}, path, 0) == RotatedSlots(Slots(files, path, 0))
    ensures SameElsewhere(files - {path}, files, path, 0)
  {
    assert SlotName(path, 0) == path;
  }

  /** The log becomes its backup `.1`, which becomes `.2`, and so on up to the last backup kept. */
  ghost predicate MovedUp(files: Files, after: Files, path: string, keep: nat) {
    && path !in after
    && (keep > 0 && path in files ==> Lookup(after, path + ".1") == Lookup(files, path))
    && forall n {:trigger Decimal(n)} :: 0 < n < keep && path + "." + Decimal(n) in files ==>
         Lookup(after, path + "." + Decimal(n + 1)) == Lookup(files, path + "." + Decimal(n))
  }

  lemma RotatedNames(files: Files, after: Files, path: string, keep: nat)
    requires keep > 0 && Slots(after, path, keep) == RotatedSlots(Slots(files, path, keep))
    ensures MovedUp(files, after, path, keep)
  {
    var s, r := Slots(files, path, keep), Slots(after, path, keep);
    assert SlotName(path, 0) == path && SlotName(path, 1) == path + "." + "1";
    assert path + "." + "1" == path + ".1";
    assert r[0] == None && (s[0].Some? ==> r[1] == s[0]);
    forall n | 0 < n < keep && path + "." + Decimal(n) in files
      ensures Lookup(after, path + "." + Decimal(n + 1)) == Lookup(files, path + "." + Decimal(n))
    {
      assert r[n + 1] == if n + 1 == keep then Or(s[n], s[n + 1]) else s[n];
    }
  }

  method Rotate(files: Files, path: string, keep: nat) returns (after: Files)
    ensures Slots(after, path, keep) == RotatedSlots(Slots(files, path, keep))
    ensures SameElsewhere(after, files, path, keep)
    ensures MovedUp(files, after, path, keep)
  {
    after := ShiftAll(files, path, keep);
    if keep > 0 {
      RotatedNames(files, after, path, keep);
    }
  }

  method ShiftAll(files: Files, path: string, keep: nat) returns (after: Files)
    ensures Slots(after, path, keep) == RotatedSlots(Slots(files, path, keep))
    ensures SameElsewhere(after, files, path, keep)
    ensures keep == 0 ==> path !in after
  {
    if keep == 0 {
      RemoveActive(files, path);
      return files - {path};
    }
    ghost var s := Slots(files, path, keep);
    after := files;
    var i := keep - 1;
    while i >= 1
      invariant 0 <= i < keep
      invariant SameElsewhere(after, files, path, keep)
      invariant Shifting(Slots(after, path, keep), s, i)
    {
      ShiftOne(Slots(after, path, keep), s, i);
      var shifted := ShiftSlot(after, path, keep, i);
      SameElsewhereChains(shifted, after, files, path, keep);
      after := shifted;
      i := i - 1;
    }
    ShiftActive(Slots(after, path, keep), s);
    var shifted := ShiftSlot(after, path, keep, 0);
    SameElsewhereChains(shifted, after, files, path, keep);
    after := shifted;
  }

  // ---------- history ----------

  function Content(slot: Option<File>): File {
    if slot.Some? then slot.value else []
  }

  /** The backups from oldest to newest, then the active file. */
  function Contents(s: seq<Option<File>>): File {
    if s == [] then [] else Contents(s[1..]) + Content(s[0])
  }

  lemma {:induction false} HistoryLast(s: seq<Option<File>>, last: Option<File>)
    ensures Contents(s + [last]) == Content(last) + Contents(s)
  {
    if s == [] {
      assert [last][1..] == [];
    } else {
      assert (s + [last])[1..] == s[1..] + [last];
      HistoryLast(s[1..], last);
      SeqAssociative(Content(last), Contents(s[1..]), Content(s[0]));
    }
  }

  /** What a rotation discards: with no backups the active file, otherwise the last backup if it has to make room. */
  function Discarded(s: seq<Option<File>>): File
    requires s != []
  {
    var k := |s| - 1;
    if k == 0 then Content(s[0]) else if s[k - 1].Some? then Content(s[k]) else []
  }

  /** Rotation keeps the history, except that it may lose its oldest part. */
  lemma RotationKeepsHistory(s: seq<Option<File>>)
    requires s != []
    ensures Contents(s) == Discarded(s) + Contents(RotatedSlots(s))
  {
    var k, r := |s| - 1, RotatedSlots(s);
    assert s == s[..k] + [s[k]];
    if k == 0 {
      assert s[1..] == [] && r[1..] == [];
    } else {
      HistoryLast(s[..k], s[k]);
      if s[k - 1].Some? {
        assert r[1..] == s[..k];
      } else {
        assert r[1..] == s[..k - 1] + [s[k]];
        assert s[..k] == s[..k - 1] + [s[k - 1]];
        AcrossGap(s[..k - 1], s[k - 1], s[k]);
      }
    }
  }

  lemma AcrossGap(front: seq<Option<File>>, gap: Option<File>, last: Option<File>)
    requires gap.None?
    ensures Contents(front + [last]) == Content(last) + Contents(front + [gap])
  {
    HistoryLast(front, last);
    HistoryLast(front, gap);
    assert [] + Contents(front) == Contents(front);
  }

  /** With backup `keep - 1` missing, an old last backup stays where it is, so the backups can have a gap. */
  lemma GapKeepsOldBackup(old_: File, active: File)
    ensures RotatedSlots([Some(active), None, Some(old_)]) == [None, Some(active), Some(old_)]
    ensures RotatedSlots([Some(active), None, None, Some(old_)]) == [None, Some(active), None, Some(old_)]
  {
  }
}
