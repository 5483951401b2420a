/** The whole transformation as a function of the line buffer
    (fix_system_data.py, lines 6-113 without the file I/O and the printing):
    every record's line is overwritten with the record reformatted after its
    molecule has been moved, and every other line is kept. */
module Rewrite {
  import opened Text
  import opened Records
  import opened Section
  import opened Placement

  /** The two ways the routine gives up without writing anything. */
  datatype Abort = NoAtomsSection | NoAtoms

  datatype Result<+T, +E> = Success(value: T) | Failure(error: E)

  /** `lines[atom['line_num']] = new_line` for each record in turn. */
  function Overwrite(num: Numerics, lines: seq<string>, recs: seq<AtomRecord>): (r: seq<string>)
    requires forall k :: 0 <= k < |recs| ==> recs[k].lineNum < |lines|
    ensures |r| == |lines|
    decreases |recs|
  {
    if recs == [] then lines
    else
      var last := recs[|recs| - 1];
      Overwrite(num, lines, recs[..|recs| - 1])[last.lineNum := FormatLine(num, last)]
  }

  /** The records of the Atoms section; none when there is no section. */
  function SectionRecords(num: Numerics, lines: seq<string>): (atoms: seq<AtomRecord>)
    ensures forall k :: 0 <= k < |atoms| ==> atoms[k].lineNum < |lines|
    ensures forall k, l :: 0 <= k < l < |atoms| ==> atoms[k].lineNum < atoms[l].lineNum
  {
    match SectionStart(lines)
    case None => []
    case Some(s) => ParseRange(num, lines, s, SectionEnd(lines, s))
  }

  /** The output buffer, or the reason no output is written. */
  function Fix(num: Numerics, lines: seq<string>): Result<seq<string>, Abort> {
    if SectionStart(lines).None? then Failure(NoAtomsSection)
    else
      var atoms := SectionRecords(num, lines);
      if atoms == [] then Failure(NoAtoms)
      else Success(Overwrite(num, lines, Placed(atoms)))
  }

  /** A line that is no record's keeps its text. */
  lemma {:induction false} OverwriteKeeps(num: Numerics, lines: seq<string>, recs: seq<AtomRecord>, i: nat)
    requires forall k :: 0 <= k < |recs| ==> recs[k].lineNum < |lines|
    requires i < |lines|
    requires forall k :: 0 <= k < |recs| ==> recs[k].lineNum != i
    ensures Overwrite(num, lines, recs)[i] == lines[i]
    decreases |recs|
  {
    if recs != [] {
      var p := recs[..|recs| - 1];
      assert forall k :: 0 <= k < |p| ==> p[k] == recs[k];
      OverwriteKeeps(num, lines, p, i);
    }
  }

  /** With records on increasing lines, a record's line holds that record,
      formatted. */
  lemma {:induction false} OverwriteWrites(num: Numerics, lines: seq<string>, recs: seq<AtomRecord>, k: nat)
    requires forall j :: 0 <= j < |recs| ==> recs[j].lineNum < |lines|
    requires forall j, l :: 0 <= j < l < |recs| ==> recs[j].lineNum < recs[l].lineNum
    requires k < |recs|
    ensures Overwrite(num, lines, recs)[recs[k].lineNum] == FormatLine(num, recs[k])
    decreases |recs|
  {
    var n := |recs|;
    var p := recs[..n - 1];
    var prev := Overwrite(num, lines, p);
    assert Overwrite(num, lines, recs) == prev[recs[n - 1].lineNum := FormatLine(num, recs[n - 1])];
    if k < n - 1 {
      assert p[k] == recs[k];
      OverwriteWrites(num, lines, p, k);
      assert recs[k].lineNum != recs[n - 1].lineNum;
    }
  }

  /** No output exactly when no line is a header line of the Atoms section. */
  lemma FixNoSectionIff(num: Numerics, lines: seq<string>)
    ensures Fix(num, lines) == Failure(NoAtomsSection) <==>
      forall j :: 0 <= j < |lines| ==> !IsHeader(lines[j])
  {
    NoSectionStartIff(lines);
  }

  /** No output for want of atoms exactly when there is a section but none
      of its lines parses as a record. */
  lemma FixNoAtomsIff(num: Numerics, lines: seq<string>)
    ensures Fix(num, lines) == Failure(NoAtoms) <==>
      && SectionStart(lines).Some?
      && var s := SectionStart(lines).value;
         forall i :: s <= i < SectionEnd(lines, s) ==> ParseRecord(num, lines[i], i).None?
  {
    if SectionStart(lines).Some? {
      var s := SectionStart(lines).value;
      ParseRangeEmptyIff(num, lines, s, SectionEnd(lines, s));
    }
  }

  lemma FixSuccess(num: Numerics, lines: seq<string>)
    requires Fix(num, lines).Success?
    ensures SectionRecords(num, lines) != []
    ensures Fix(num, lines).value == Overwrite(num, lines, Placed(SectionRecords(num, lines)))
  {
  }

  /** Once the atoms are placed, the line of the k-th holds its seven
      fields, its position moved by its molecule's base. */
  lemma OverwritePlacedAt(num: Numerics, lines: seq<string>, atoms: seq<AtomRecord>, k: nat)
    requires forall j :: 0 <= j < |atoms| ==> atoms[j].lineNum < |lines|
    requires forall j, l :: 0 <= j < l < |atoms| ==> atoms[j].lineNum < atoms[l].lineNum
    requires k < |atoms|
    ensures Overwrite(num, lines, Placed(atoms))[atoms[k].lineNum] ==
      FormatLine(num, Translate(atoms[k], Bases(atoms)[atoms[k].mol]))
  {
    var placed := Placed(atoms);
    assert placed[k] == Translate(atoms[k], Bases(atoms)[atoms[k].mol]);
    OverwriteWrites(num, lines, placed, k);
  }

  /** The output has as many lines as the input, and the line of the k-th
      record holds that record's seven fields, its position moved by its
      molecule's base. */
  lemma FixRecordLine(num: Numerics, lines: seq<string>, k: nat)
    requires Fix(num, lines).Success?
    requires k < |SectionRecords(num, lines)|
    ensures |Fix(num, lines).value| == |lines|
    ensures var a := SectionRecords(num, lines)[k];
      && a.lineNum < |lines|
      && Fix(num, lines).value[a.lineNum] == FormatLine(num, Translate(a, Bases(SectionRecords(num, lines))[a.mol]))
  {
    FixSuccess(num, lines);
    OverwritePlacedAt(num, lines, SectionRecords(num, lines), k);
  }

  /** A line that is no record's line comes out unchanged. */
  lemma FixOtherLine(num: Numerics, lines: seq<string>, i: nat)
    requires Fix(num, lines).Success?
    requires i < |lines|
    requires forall k :: 0 <= k < |SectionRecords(num, lines)| ==> SectionRecords(num, lines)[k].lineNum != i
    ensures |Fix(num, lines).value| == |lines|
    ensures Fix(num, lines).value[i] == lines[i]
  {
    var atoms := SectionRecords(num, lines);
    var placed := Placed(atoms);
    FixSuccess(num, lines);
    OverwriteKeeps(num, lines, placed, i);
  }

  /** The record lines are exactly the lines of the section that parse,
      each giving one record, in line order. */
  lemma RecordLineIff(num: Numerics, lines: seq<string>, i: nat)
    requires SectionStart(lines).Some?
    requires i < |lines|
    ensures var s := SectionStart(lines).value;
      (exists k :: 0 <= k < |SectionRecords(num, lines)| && SectionRecords(num, lines)[k].lineNum == i) <==>
      (s <= i < SectionEnd(lines, s) && ParseRecord(num, lines[i], i).Some?)
  {
    var s := SectionStart(lines).value;
    var e := SectionEnd(lines, s);
    var atoms := SectionRecords(num, lines);
    assert atoms == ParseRange(num, lines, s, e);
    if s <= i < e && ParseRecord(num, lines[i], i).Some? {
      ParseRangeComplete(num, lines, s, e, i);
    }
    if exists k :: 0 <= k < |atoms| && atoms[k].lineNum == i {
      var k :| 0 <= k < |atoms| && atoms[k].lineNum == i;
      ParseRangeSound(num, lines, s, e, k);
    }
  }
}
