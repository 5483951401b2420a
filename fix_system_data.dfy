/** The routine `fix_system_data` step by step, as the source runs it
    (fix_system_data.py, lines 16-109): each loop is a method proved equal
    to the function of the other modules that says what it computes. */
module FixSystemData {
  import opened Text
  import opened Grid
  import opened Records
  import opened Section
  import opened Placement
  import opened Rewrite

  /** The first skip-over-blank-lines result is the only one: a position
      with blank lines before it and a non-blank line (or the end) at it. */
  lemma SkipBlankUnique(lines: seq<string>, i: nat, s: nat)
    requires i <= s <= |lines|
    requires forall j :: i <= j < s ==> IsBlank(lines[j])
    requires s < |lines| ==> !IsBlank(lines[s])
    ensures SkipBlank(lines, i) == s
  {
  }

  /** Lines 23-25: from line `i` on, past the lines that are blank once
      stripped. */
  method SkipBlankLines(lines: seq<string>, i: nat) returns (s: nat)
    requires i <= |lines|
    ensures s == SkipBlank(lines, i)
  {
    s := i;
    while s < |lines| && Strip(lines[s]) == []
      invariant i <= s <= |lines|
      invariant forall j :: i <= j < s ==> IsBlank(lines[j])
    {
      s := s + 1;
    }
    SkipBlankUnique(lines, i, s);
  }

  /** Lines 17-26: the first line that contains `Atoms` and is not a
      comment, then past the blank lines that follow it. */
  method FindAtomsStart(lines: seq<string>) returns (start: Option<nat>)
    ensures start == SectionStart(lines)
    ensures start.Some? ==> 1 <= start.value <= |lines|
  {
    start := None;
    for i := 0 to |lines|
      invariant start.None?
      invariant forall j :: 0 <= j < i ==> !IsHeader(lines[j])
    {
      if IsHeader(lines[i]) {
        assert FirstHeader(lines, 0) == Some(i);
        var s := SkipBlankLines(lines, i + 1);
        start := Some(s);
        break;
      }
    }
  }

  /** Lines 32-41: the first line from `start` on that is blank or names a
      following section; the end of the buffer when there is none. As in
      the source, a found index is tested for truth, which cannot fail as
      the search starts at line 1 or later. */
  method FindAtomsEnd(lines: seq<string>, start: nat) returns (end: nat)
    requires 1 <= start <= |lines|
    ensures end == SectionEnd(lines, start)
  {
    var found: Option<nat> := None;
    for i := start to |lines|
      invariant found.None?
      invariant forall j :: start <= j < i ==> !EndsSection(lines[j])
      invariant SectionEnd(lines, start) == SectionEnd(lines, i)
    {
      var t := Strip(lines[i]);
      if t == [] || IsFollowingSection(t) {
        found := Some(i);
        break;
      }
    }
    if found.None? || found.value == 0 {
      end := |lines|;
    } else {
      end := found.value;
    }
  }

  /** Lines 46-62: every line of the range that splits into at least seven
      tokens whose first three `int()` and next four `float()` accept
      becomes a record; any other line is skipped. */
  method ParseAtoms(num: Numerics, lines: seq<string>, start: nat, end: nat) returns (atoms: seq<AtomRecord>)
    requires start <= end <= |lines|
    ensures atoms == ParseRange(num, lines, start, end)
  {
    atoms := [];
    for i := start to end
      invariant atoms == ParseRange(num, lines, start, i)
    {
      var parts := Split(lines[i]);
      if |parts| >= 7 {
        var id, mol, atomType := num.parseInt(parts[0]), num.parseInt(parts[1]), num.parseInt(parts[2]);
        var q, x, y, z := num.parseFloat(parts[3]), num.parseFloat(parts[4]), num.parseFloat(parts[5]), num.parseFloat(parts[6]);
        if id.Some? && mol.Some? && atomType.Some? && q.Some? && x.Some? && y.Some? && z.Some? {
          atoms := atoms + [AtomRecord(id.value, mol.value, atomType.value, q.value, x.value, y.value, z.value, i)];
        }
      }
    }
  }

  /** The atoms before `j` have been moved by their molecule's base in
      `positions`, and the others are as parsed. */
  ghost predicate MovedUpTo(atoms: seq<AtomRecord>, moved: seq<AtomRecord>, positions: map<int, Base>, j: nat) {
    && |moved| == |atoms| && j <= |atoms|
    && (forall k :: 0 <= k < |atoms| ==> moved[k].lineNum == atoms[k].lineNum)
    && (forall k :: 0 <= k < j ==> atoms[k].mol in positions && moved[k] == Translate(atoms[k], positions[atoms[k].mol]))
    && (forall k :: j <= k < |atoms| ==> moved[k] == atoms[k])
  }

  /** One turn of the placement loop keeps `MovedUpTo`, and the records
      written so far grow by the one moved. */
  lemma MoveOne(atoms: seq<AtomRecord>, moved: seq<AtomRecord>, m0: map<int, Base>, id: int, j: nat)
    requires j < |atoms| && id == atoms[j].mol
    requires MovedUpTo(atoms, moved, m0, j)
    ensures var m1 := Enter(m0, id);
      var moved' := moved[j := Translate(atoms[j], m1[id])];
      && MovedUpTo(atoms, moved', m1, j + 1)
      && moved'[..j + 1] == moved[..j] + [moved'[j]]
  {
    var m1 := Enter(m0, id);
    var moved' := moved[j := Translate(atoms[j], m1[id])];
    forall k | 0 <= k < j
      ensures atoms[k].mol in m1 && moved'[k] == Translate(atoms[k], m1[atoms[k].mol])
    {
      assert moved'[k] == moved[k];
    }
  }

  /** Lines 84-97: the base position of the counter's cell, and the
      counter stepped on to the next cell, which from an in-range cell is
      the in-range cell of the next index. */
  method NewPosition(ix: nat, iy: nat, iz: nat) returns (base: Base, ix': nat, iy': nat, iz': nat)
    ensures base == BaseOf(Cell(ix, iy, iz))
    ensures Cell(ix', iy', iz') == Next(Cell(ix, iy, iz))
    ensures InRange(Cell(ix, iy, iz)) ==>
      InRange(Cell(ix', iy', iz')) && Index(Cell(ix', iy', iz')) == Index(Cell(ix, iy, iz)) + 1
  {
    if InRange(Cell(ix, iy, iz)) {
      NextIndex(Cell(ix, iy, iz));
    }
    base := Base(100 + ix * 160, 10 + iy * 70, 10 + iz * 700);
    ix', iy', iz' := ix + 1, iy, iz;
    if ix' >= 22 {
      ix' := 0;
      iy' := iy' + 1;
      if iy' >= 20 {
        iy' := 0;
        iz' := iz' + 1;
      }
    }
  }

  /** Lines 76-109: the molecule placement loop. A molecule id met for the
      first time gets the base of the counter's cell and the counter steps
      on; each atom is moved by its molecule's base and its line
      overwritten. The map, the moved atoms and the new lines are those the
      other modules define. */
  method PlaceMolecules(num: Numerics, lines: seq<string>, atoms: seq<AtomRecord>)
      returns (out: seq<string>, moved: seq<AtomRecord>, positions: map<int, Base>)
    requires forall k :: 0 <= k < |atoms| ==> atoms[k].lineNum < |lines|
    ensures positions == Bases(atoms)
    ensures moved == Placed(atoms)
    ensures out == Overwrite(num, lines, Placed(atoms))
  {
    positions := map[];
    var ix: nat, iy: nat, iz: nat := 0, 0, 0;
    moved := atoms;
    out := lines;
    for j := 0 to |atoms|
      invariant positions == Bases(atoms[..j])
      invariant Cell(ix, iy, iz) == Counter(|positions|)
      invariant MovedUpTo(atoms, moved, positions, j)
      invariant out == Overwrite(num, lines, moved[..j])
    {
      BasesSnoc(atoms, j);
      var molId := atoms[j].mol;
      ghost var m0 := positions;
      if molId !in positions {
        var base;
        base, ix, iy, iz := NewPosition(ix, iy, iz);
        positions := positions[molId := base];
      }
      assert positions == Enter(m0, molId);
      var a := Translate(atoms[j], positions[molId]);
      MoveOne(atoms, moved, m0, molId, j);
      moved := moved[j := a];
      out := out[a.lineNum := FormatLine(num, a)];
    }
    assert atoms[..|atoms|] == atoms;
    assert moved[..|atoms|] == moved;
  }

  /** Lines 16-109 without the file I/O and the messages: the output buffer,
      or the reason nothing is written. */
  method FixSystemData(num: Numerics, lines: seq<string>) returns (r: Result<seq<string>, Abort>)
    ensures r == Fix(num, lines)
  {
    var start := FindAtomsStart(lines);
    if start.None? || start.value == 0 {
      return Failure(NoAtomsSection);
    }
    var end := FindAtomsEnd(lines, start.value);
    var atoms := ParseAtoms(num, lines, start.value, end);
    if |atoms| == 0 {
      return Failure(NoAtoms);
    }
    var out, moved, positions := PlaceMolecules(num, lines, atoms);
    return Success(out);
  }
}
