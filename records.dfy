/** One line of the Atoms section as a record (fix_system_data.py, lines
    46-62 and 103-108): parsing a line leniently into an atom record,
    translating the record, and formatting it back into a line. */
module Records {
  import opened Text
  import opened Grid

  datatype Option<+T> = None | Some(value: T)

  /** An atom dict: `id`, `mol`, `type`, charge `q`, position `x y z`, and
      `line_num`, the index of the line it was parsed from. */
  datatype AtomRecord = AtomRecord(
    id: int, mol: int, atomType: int,
    q: real, x: real, y: real, z: real,
    lineNum: nat)

  /** The numeric library behaviour the routine calls into: Python's `int()`
      and `float()` on a token (`None` where they raise `ValueError`), and
      the `:.6f` formatting of a float. */
  datatype Numerics = Numerics(
    parseInt: string -> Option<int>,
    parseFloat: string -> Option<real>,
    fixed6: real -> string)

  /** `.6f` output of a finite value is never empty and never holds
      whitespace: it is an optional sign, digits, a point and six digits. */
  ghost predicate FormatsAsToken(num: Numerics) {
    forall v: real :: num.fixed6(v) != [] && NoSpace(num.fixed6(v))
  }

  /** Line `i` parsed leniently: a record when it splits into at least seven
      tokens, the first three parse as integers and the next four as floats;
      `None` otherwise, for the caller to skip. Tokens past the seventh are
      ignored. */
  function ParseRecord(num: Numerics, line: string, i: nat): Option<AtomRecord> {
    var parts := Split(line);
    if |parts| < 7 then None
    else
      match (num.parseInt(parts[0]), num.parseInt(parts[1]), num.parseInt(parts[2]))
      case (Some(id), Some(mol), Some(atomType)) =>
        (match (num.parseFloat(parts[3]), num.parseFloat(parts[4]), num.parseFloat(parts[5]), num.parseFloat(parts[6]))
         case (Some(q), Some(x), Some(y), Some(z)) => Some(AtomRecord(id, mol, atomType, q, x, y, z, i))
         case _ => None)
      case _ => None
  }

  /** A line is a record exactly when it has at least seven tokens, the
      first three `int()` accepts and the next four `float()` accepts; the
      record then holds those seven values and the line's index. */
  lemma ParseRecordSpec(num: Numerics, line: string, i: nat)
    ensures var r, parts := ParseRecord(num, line, i), Split(line);
      && (r.Some? <==>
           && |parts| >= 7
           && (forall k :: 0 <= k < 3 ==> num.parseInt(parts[k]).Some?)
           && (forall k :: 3 <= k < 7 ==> num.parseFloat(parts[k]).Some?))
      && (r.Some? ==>
           && r.value.lineNum == i
           && Some(r.value.id) == num.parseInt(parts[0])
           && Some(r.value.mol) == num.parseInt(parts[1])
           && Some(r.value.atomType) == num.parseInt(parts[2])
           && Some(r.value.q) == num.parseFloat(parts[3])
           && Some(r.value.x) == num.parseFloat(parts[4])
           && Some(r.value.y) == num.parseFloat(parts[5])
           && Some(r.value.z) == num.parseFloat(parts[6]))
  {
  }

  /** `atom['x'] += x_base` and likewise for y and z, with the float
      addition taken as exact. */
  function Translate(a: AtomRecord, b: Base): (r: AtomRecord)
    ensures r.x - a.x == b.x as real && r.y - a.y == b.y as real && r.z - a.z == b.z as real
    ensures r.(x := a.x, y := a.y, z := a.z) == a
  {
    a.(x := a.x + b.x as real, y := a.y + b.y as real, z := a.z + b.z as real)
  }

  /** The seven fields of a record as the rewritten line spells them. */
  function Fields(num: Numerics, a: AtomRecord): seq<string> {
    [IntToString(a.id), IntToString(a.mol), IntToString(a.atomType),
     num.fixed6(a.q), num.fixed6(a.x), num.fixed6(a.y), num.fixed6(a.z)]
  }

  /** `f"{id} {mol} {type} {q:.6f} {x:.6f} {y:.6f} {z:.6f}\n"`. */
  function FormatLine(num: Numerics, a: AtomRecord): string {
    Join(Fields(num, a)) + "\n"
  }

  /** A rewritten line splits into exactly the seven fields of the record:
      columns past the seventh in the original line are gone. */
  lemma FormatLineSplits(num: Numerics, a: AtomRecord)
    requires FormatsAsToken(num)
    ensures Split(FormatLine(num, a)) == Fields(num, a)
    ensures |Split(FormatLine(num, a))| == 7
  {
    var f := Fields(num, a);
    forall k | 0 <= k < 7 ensures f[k] != [] && NoSpace(f[k]) {
      if k >= 3 {
        assert f[k] == num.fixed6([a.q, a.x, a.y, a.z][k - 3]);
      }
    }
    SplitJoin(f, "\n");
  }

  /** A rewritten line is itself a record line again, with the same id,
      molecule and type, whenever `int()` reads back what `str()` writes and
      `float()` accepts what `.6f` writes: a second run would parse it and
      move the molecule once more. */
  lemma FormatLineReparses(num: Numerics, a: AtomRecord, i: nat)
    requires FormatsAsToken(num)
    requires forall n: int :: num.parseInt(IntToString(n)) == Some(n)
    requires forall v: real :: num.parseFloat(num.fixed6(v)).Some?
    ensures ParseRecord(num, FormatLine(num, a), i).Some?
    ensures var r := ParseRecord(num, FormatLine(num, a), i).value;
      r.id == a.id && r.mol == a.mol && r.atomType == a.atomType && r.lineNum == i
  {
    FormatLineSplits(num, a);
    ParseRecordSpec(num, FormatLine(num, a), i);
    var parts := Split(FormatLine(num, a));
    assert parts[0] == IntToString(a.id);
    assert parts[1] == IntToString(a.mol);
    assert parts[2] == IntToString(a.atomType);
    assert parts[3] == num.fixed6(a.q);
    assert parts[4] == num.fixed6(a.x);
    assert parts[5] == num.fixed6(a.y);
    assert parts[6] == num.fixed6(a.z);
  }
}
