# fix_system_data, modelled in Dafny

`fix_system_data` rewrites the Atoms section of a LAMMPS-style data file so
that the molecules sit on a grid instead of all at the origin. Once the file
I/O is taken away, the routine transforms a buffer of lines in four stages:

1. It locates the section. The header is the first line that contains
   `Atoms` and, once stripped, does not start with `#`. The section starts
   one line past it, after any blank lines. It ends at the first line that is
   blank or is exactly `Bonds`, `Velocities`, `Angles` or `Dihedrals` once
   stripped. Without such a line it runs to the end of the buffer.
2. It parses the records leniently. A line of the section is an atom record
   when `split()` gives at least seven tokens, the first three of which
   `int()` accepts and the next four `float()`. Every other line is skipped.
3. It places the molecules. A three-dimensional counter wraps at 22 cells in
   x and 20 in y, and grows without bound in z. Each molecule id is given the
   base position of the counter's cell the first time it is met, and the
   counter then steps on. Every atom is moved by its molecule's base.
4. It rewrites each record's line in place with the record's seven fields.
   The `.6f` format is used for the charge and the position. Every other line
   is kept.

The routine gives up without output in two cases: when no line is a header,
and when the section holds no record.

## Project layout

| file | module | contents |
|---|---|---|
| `text.dfy` | `Text` | The Python `str` operations used: `isspace`, `strip`, `split()`, `in`, `startswith`, `str(int)`. |
| `grid.dfy` | `Grid` | The cell counter, its closed form `(k % 22, (k / 22) % 20, k / 440)`, and the base position of a cell. |
| `records.dfy` | `Records` | The atom record, parsing one line, moving a record, and formatting it back into a line. |
| `section.dfy` | `Section` | Where the section starts and ends, and the records parsed from a range of lines. |
| `placement.dfy` | `Placement` | `mol_positions` as a function of the records, and the moved records. |
| `rewrite.dfy` | `Rewrite` | The output buffer, or the reason for giving up, as a function of the input buffer. |
| `fix_system_data.dfy` | `FixSystemData` | The routine step by step. |

`FixSystemData` holds the routine as the source runs it: loops that update
variables, a map and the line buffer. Each method is proved equal to the
function of the other modules that specifies it. Lemmas about those functions
state what the routine promises.

`Numerics` stands for the number handling the routine borrows from Python:
`int()` and `float()` on a token (`None` where Python raises `ValueError`),
and the `:.6f` formatting of a float.

Coordinates are `real`. Grid offsets are integers.

`mol_positions` is a `map<int, Base>`.

## Model

| member | source | states |
|---|---|---|
| Text.TrimLeftSpec | fix_system_data.py:20 | `lstrip` removes exactly the leading whitespace. The result is a suffix of the line, everything dropped is whitespace, and the result does not start with whitespace. |
| Text.TrimRightSpec | fix_system_data.py:20 | `rstrip` removes exactly the trailing whitespace. The result is a prefix, everything dropped is whitespace, and the result does not end with whitespace. |
| Text.StripEmptyIff | fix_system_data.py:24 | `line.strip() == ''` holds exactly when every character of the line is whitespace. |
| Text.Split | fix_system_data.py:48 | No token that `split()` returns is empty or holds whitespace. Which tokens they are is stated by `Text.SplitSpec` and `Text.SplitInterleave`. |
| Text.SplitSpec | fix_system_data.py:48 | Every line is the tokens `split()` returns, with runs of whitespace before, between and after them, the runs between two tokens non-empty. |
| Text.SplitInterleave | fix_system_data.py:48 | For any non-empty whitespace-free tokens and any whitespace runs around them, non-empty between tokens, `split()` of the line they make returns exactly those tokens. With `Text.SplitSpec`, the tokens are the line's maximal whitespace-free runs. |
| Text.SplitJoin | fix_system_data.py:108 | Splitting `" ".join(tokens)` plus trailing whitespace gives the tokens back, when no token is empty or holds whitespace. |
| Text.IntToString | fix_system_data.py:108 | `str` of an `int` is never empty and holds no whitespace. |
| Text.ReadIntToString | fix_system_data.py:108 | The decimal text that `str` writes for an `int` reads back to the same `int`. |
| Grid.Next | fix_system_data.py:91-97 | The counter's step: `ix` wraps at 22 into `iy`, `iy` wraps at 20 into `iz`. Its contract is stated by `Grid.NextIndex` and `Grid.NextCellAt`. |
| Grid.BaseOf | fix_system_data.py:84-86 | The base position `(100 + ix * 160, 10 + iy * 70, 10 + iz * 700)` of a cell. Its properties are stated by `Grid.DistinctCountsDistinctBases` and `Grid.InsideBoxIff`. |
| Grid.NextIndex | fix_system_data.py:91-97 | From an in-range cell, one step of the wrapping counter stays in range and adds one to the cell's row-major index. |
| Grid.NextCellAt | fix_system_data.py:91-97 | One step of the counter takes the closed-form cell of count k to the cell of count k + 1. |
| Grid.CounterClosedForm | fix_system_data.py:77-97 | After k steps from (0, 0, 0), the counter is `(k % 22, (k / 22) % 20, k / 440)`, so `ix < 22` and `iy < 20`. |
| Grid.DistinctCountsDistinctBases | fix_system_data.py:84-86 | Distinct counts give distinct cells and distinct base positions. |
| Grid.InsideBoxIff | fix_system_data.py:71-86 | The base of count k lies in the box x in [2, 3700], y and z in [0, 1400] exactly when k < 880. |
| Records.ParseRecord | fix_system_data.py:48-62 | One line parsed leniently into a record, or `None` for a skipped line. Its contract is stated by `Records.ParseRecordSpec`. |
| Records.ParseRecordSpec | fix_system_data.py:48-62 | A line is a record exactly when it has at least seven tokens, the first three accepted by `int()` and the next four by `float()`. The record holds those seven values and the line's index. |
| Records.Translate | fix_system_data.py:103-105 | The position moves by exactly the base, and every other field is kept. |
| Records.FormatLine | fix_system_data.py:108 | The rewritten line of a record. Its contract is stated by `Records.FormatLineSplits` and `Records.FormatLineReparses`. |
| Records.FormatLineSplits | fix_system_data.py:108 | A rewritten line splits into exactly the record's seven fields, so columns past the seventh are gone. |
| Records.FormatLineReparses | fix_system_data.py:108 | A rewritten line parses again, with the same id, molecule and type, when `int()` reads what `str()` writes and `float()` accepts what `.6f` writes. |
| Section.IsHeader | fix_system_data.py:20 | A header contains `Atoms` and does not start with `#` once stripped. `Section.FirstHeader` and `Section.NoSectionStartIff` state where the headers are. |
| Section.EndsSection | fix_system_data.py:34-35 | A line ends the section when it is blank or exactly a following section's name once stripped. `Section.SectionEnd` states where the first such line is. |
| Section.SectionStart | fix_system_data.py:17-26 | `atoms_start`, or `None` when no line is a header. Its contract is stated by `Section.SectionStartAfterHeader` and `Section.NoSectionStartIff`. |
| Section.FirstHeader | fix_system_data.py:19-22 | The result is the least index at or after `from` whose line is a header, or `None` exactly when there is no such line. |
| Section.SkipBlank | fix_system_data.py:24-25 | The result is the first non-blank line at or after `i`, or the end of the buffer. Every line skipped is blank. |
| Section.SectionEnd | fix_system_data.py:33-41 | `atoms_end` is the least index at or after the start whose stripped line is empty or a following section's name, or the buffer's length. |
| Section.SectionStartAfterHeader | fix_system_data.py:19-26 | When `h` is the first header line, `atoms_start` lies in `[h + 1, len(lines)]`. The lines in between are blank, and the start line is non-blank unless it is the end. |
| Section.NoSectionStartIff | fix_system_data.py:19-30 | There is no section start exactly when no line is a header. |
| Section.ParseRange | fix_system_data.py:47-62 | At most one record comes from each line of the range. The records' line indices lie in the range and strictly increase. |
| Section.ParseRangeSound | fix_system_data.py:47-62 | Every record is what its own line parses to. |
| Section.ParseRangeComplete | fix_system_data.py:47-62 | Every line of the range that parses gives a record. |
| Section.ParseRangeEmptyIff | fix_system_data.py:66-68 | No record comes out exactly when no line of the range parses. |
| Placement.Enter | fix_system_data.py:82-97 | Entering an id keeps every existing entry. An id not yet present gets the base of the counter after as many steps as there are entries, and the map grows by one. |
| Placement.Bases | fix_system_data.py:79-88 | Every atom's molecule id has an entry in `mol_positions`. |
| Placement.BasesKeys | fix_system_data.py:79-88 | The ids in `mol_positions` are exactly the molecule ids of the records. |
| Placement.Placed | fix_system_data.py:100-105 | Moving the atoms keeps their number, their order and their line indices. |
| Placement.BasesFollowFirstSeen | fix_system_data.py:82-97 | The k-th distinct molecule id met has the base of the counter after k steps, and the map has one entry per distinct id. |
| Placement.BasesOnGrid | fix_system_data.py:84-97 | The k-th distinct molecule id met has base `(100 + (k % 22) * 160, 10 + ((k / 22) % 20) * 70, 10 + (k / 440) * 700)`. |
| Placement.BasesSize | fix_system_data.py:82-88 | `len(mol_positions)` is the number of distinct molecule ids among the records. |
| Placement.BasesStable | fix_system_data.py:82-88 | An entry, once made, is never overwritten by later atoms. |
| Placement.BaseAtFirstOccurrence | fix_system_data.py:82-88 | A molecule's base is fixed at its first atom, from the number of ids placed before it. |
| Placement.BasesInjective | fix_system_data.py:84-88 | Distinct molecules get distinct bases. |
| Placement.RigidBody | fix_system_data.py:100-105 | Two atoms of the same molecule are moved by the same vector, their molecule's base. |
| Placement.FirstMoleculeExample | fix_system_data.py:84-105 | An atom `5 2 1 0.0 1.0 2.0 3.0` of the first molecule met comes out at (101, 12, 13) with its other fields unchanged. |
| Rewrite.Overwrite | fix_system_data.py:108-109 | Overwriting lines keeps the buffer's length. |
| Rewrite.SectionRecords | fix_system_data.py:46-62 | The records' line indices lie within the buffer and strictly increase. |
| Rewrite.OverwriteKeeps | fix_system_data.py:109 | A line that is no record's line keeps its text. |
| Rewrite.OverwriteWrites | fix_system_data.py:108-109 | When line indices increase, a record's line holds that record, formatted. |
| Rewrite.Fix | fix_system_data.py:16-109 | The routine's outcome: the rewritten buffer, or why it gives up. Its contract is stated by `Rewrite.FixNoSectionIff`, `Rewrite.FixNoAtomsIff`, `Rewrite.FixRecordLine` and `Rewrite.FixOtherLine`. |
| Rewrite.FixNoSectionIff | fix_system_data.py:28-30 | The routine gives up for want of a section exactly when no line is a header. |
| Rewrite.FixNoAtomsIff | fix_system_data.py:66-68 | The routine gives up for want of atoms exactly when there is a section and no line of it parses. |
| Rewrite.OverwritePlacedAt | fix_system_data.py:100-109 | After placement, the line of the k-th record holds that record moved by its molecule's base, formatted. |
| Rewrite.FixRecordLine | fix_system_data.py:100-109 | The output has as many lines as the input. Each record's line holds its seven fields, moved by its molecule's base. |
| Rewrite.FixOtherLine | fix_system_data.py:108-113 | Every line that is no record's line comes out unchanged. |
| Rewrite.RecordLineIff | fix_system_data.py:47-62 | A line is a record's line exactly when it lies in the section and parses. |
| FixSystemData.SkipBlankLines | fix_system_data.py:23-25 | The `while` loop stops at the first non-blank line at or after `i`. |
| FixSystemData.FindAtomsStart | fix_system_data.py:17-26 | The loop gives the section start of the specification, and a start always lies in `[1, len(lines)]`. |
| FixSystemData.FindAtomsEnd | fix_system_data.py:32-41 | The loop and the fallback to `len(lines)` give the section end of the specification. |
| FixSystemData.ParseAtoms | fix_system_data.py:46-62 | The loop's list of records is the records of the range. |
| FixSystemData.NewPosition | fix_system_data.py:84-97 | The base is that of the counter's cell. The counter steps to the next cell, which from an in-range cell is the in-range cell of the next index. |
| FixSystemData.PlaceMolecules | fix_system_data.py:76-109 | `mol_positions`, the moved atoms and the rewritten buffer are the specified ones. |
| FixSystemData.FixSystemData | fix_system_data.py:16-109 | The routine's outcome is the specified one: the rewritten buffer, or which of the two reasons it gives up for. |

The comment at fix_system_data.py:16 describes the header as `Atoms`
followed by an optional comment. The code differs from that comment, and the
model follows the code:

- The header test is a substring test (`'Atoms' in line`), not a test for a
  whole token. For example, a line `NoAtoms` is a header.
- The comment test looks at the stripped line.

The routine tests `not atoms_start` and `not atoms_end` for truth, so a value
of 0 would count as missing. The model keeps both tests, and proves that
neither value can be 0: the start is at least one past a header line, and the
end is at or after the start.

The grid is sized for the box written in the source's comment, but the
counter has no upper bound. `Grid.InsideBoxIff` shows that the molecule with
count 880 (the 881st) and all later ones get bases outside that box, with z
from 1410 on.

## Left out

- File I/O: reading the input with `readlines` and writing the output with `writelines`. The model takes the input lines and returns the output lines.
- Console output: every `print`, including the report of the first five molecule positions.
- Python's `int()` and `float()` on a token, and the `:.6f` formatting of a float. These are library behaviour and are fields of `Numerics`, so no property depends on what they accept. `Records.FormatLineReparses` states its assumptions about them as preconditions.
- Floating-point arithmetic: moving a coordinate is exact addition on `real`, without rounding.
- Records.ParseRecord: `float()` also accepts `inf`, `-inf` and `nan`, which have no `real` counterpart. A `Numerics` must either reject such a token, so that the model skips a line Python keeps and rewrites with `inf` or `nan` text (a section made only of such lines then gives up with no atoms where Python succeeds), or read it as some finite value. Non-finite coordinates are not modelled.
- `Records.Translate`: does not model float rounding, because coordinates are exact reals (see above).
- Aliasing of the atom dicts: the routine updates each dict in the `atoms` list in place. `FixSystemData.PlaceMolecules` returns the updated records as a new sequence. Nothing else holds a reference to the dicts.
- `FixSystemData.PlaceMolecules` requires every record's line index to lie within the buffer. The parser guarantees this, so the `IndexError` that an out-of-range index would raise is not modelled.
- The `__main__` block with its fixed file names.
- Unicode details of `str.isspace`: only the characters that Python treats as whitespace are modelled, and they are listed out in `Text.IsSpace`. There is no normalisation and no encoding step.
