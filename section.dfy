/** Where the Atoms section lies in the line buffer, and which of its lines
    are atom records (fix_system_data.py, lines 17-62). */
module Section {
  import opened Text
  import opened Records

  /** The names of the sections that may follow the Atoms section:
      `['Bonds', 'Velocities', 'Angles', 'Dihedrals']`. */
  predicate IsFollowingSection(t: string) {
    t == "Bonds" || t == "Velocities" || t == "Angles" || t == "Dihedrals"
  }

  /** A line that opens the Atoms section: it contains `Atoms` anywhere and,
      once stripped, does not start with `#`. */
  predicate IsHeader(line: string) {
    Contains(line, "Atoms") && !StartsWith(Strip(line), "#")
  }

  /** `line.strip() == ''`. */
  predicate IsBlank(line: string) {
    Strip(line) == []
  }

  /** A line that ends the Atoms section: blank, or exactly the name of a
      following section once stripped. */
  predicate EndsSection(line: string) {
    var t := Strip(line);
    t == [] || IsFollowingSection(t)
  }

  /** The first header line at or after `from`, if any. */
  function FirstHeader(lines: seq<string>, from: nat): (r: Option<nat>)
    requires from <= |lines|
    ensures r.None? <==> forall j :: from <= j < |lines| ==> !IsHeader(lines[j])
    ensures r.Some? ==>
      from <= r.value < |lines| && IsHeader(lines[r.value]) &&
      forall j :: from <= j < r.value ==> !IsHeader(lines[j])
    decreases |lines| - from
  {
    if from == |lines| then None
    else if IsHeader(lines[from]) then Some(from)
    else FirstHeader(lines, from + 1)
  }

  /** The first non-blank line at or after `i`, or the end of the buffer. */
  function SkipBlank(lines: seq<string>, i: nat): (r: nat)
    requires i <= |lines|
    ensures i <= r <= |lines|
    ensures forall j :: i <= j < r ==> IsBlank(lines[j])
    ensures r < |lines| ==> !IsBlank(lines[r])
    decreases |lines| - i
  {
    if i < |lines| && IsBlank(lines[i]) then SkipBlank(lines, i + 1) else i
  }

  /** `atoms_start`: one past the first header line, moved on over blank
      lines; `None` when no line is a header. */
  function SectionStart(lines: seq<string>): Option<nat> {
    match FirstHeader(lines, 0)
    case None => None
    case Some(h) => Some(SkipBlank(lines, h + 1))
  }

  /** `atoms_end`: the first line at or after `i` that ends the section, or
      the end of the buffer. */
  function SectionEnd(lines: seq<string>, i: nat): (r: nat)
    requires i <= |lines|
    ensures i <= r <= |lines|
    ensures forall j :: i <= j < r ==> !EndsSection(lines[j])
    ensures r < |lines| ==> EndsSection(lines[r])
    decreases |lines| - i
  {
    if i == |lines| || EndsSection(lines[i]) then i
    else SectionEnd(lines, i + 1)
  }

  /** The records parsed from lines `lo` up to `hi`, in line order. */
  function ParseRange(num: Numerics, lines: seq<string>, lo: nat, hi: nat): (r: seq<AtomRecord>)
    requires lo <= hi <= |lines|
    ensures |r| <= hi - lo
    ensures forall k :: 0 <= k < |r| ==> lo <= r[k].lineNum < hi
    ensures forall k, l :: 0 <= k < l < |r| ==> r[k].lineNum < r[l].lineNum
    decreases hi - lo
  {
    if hi == lo then []
    else
      var before := ParseRange(num, lines, lo, hi - 1);
      match ParseRecord(num, lines[hi - 1], hi - 1)
      case None => before
      case Some(a) => before + [a]
  }

  /** The section start when there is a header: `h` is the first header
      line, the start is past it, the lines skipped in between are blank,
      and the start line is not blank unless it is the end of the buffer. */
  lemma SectionStartAfterHeader(lines: seq<string>, h: nat)
    requires h < |lines| && IsHeader(lines[h])
    requires forall j :: 0 <= j < h ==> !IsHeader(lines[j])
    ensures SectionStart(lines).Some?
    ensures var s := SectionStart(lines).value;
      && 1 <= h + 1 <= s <= |lines|
      && (forall j :: h < j < s ==> IsBlank(lines[j]))
      && (s < |lines| ==> !IsBlank(lines[s]))
  {
  }

  /** There is no section start exactly when no line is a header. */
  lemma NoSectionStartIff(lines: seq<string>)
    ensures SectionStart(lines).None? <==> forall j :: 0 <= j < |lines| ==> !IsHeader(lines[j])
  {
  }

  /** Parsing one more line only adds to the end, and adds that line's
      record when it parses. */
  lemma ParseRangeExtends(num: Numerics, lines: seq<string>, lo: nat, hi: nat)
    requires lo < hi <= |lines|
    ensures var r, before := ParseRange(num, lines, lo, hi), ParseRange(num, lines, lo, hi - 1);
      && |before| <= |r| && r[..|before|] == before
      && (ParseRecord(num, lines[hi - 1], hi - 1).Some? ==> |r| == |before| + 1 && r[|before|].lineNum == hi - 1)
  {
  }

  /** Every record is what its own line parses to. */
  lemma {:induction false} ParseRangeSound(num: Numerics, lines: seq<string>, lo: nat, hi: nat, k: nat)
    requires lo <= hi <= |lines|
    requires k < |ParseRange(num, lines, lo, hi)|
    ensures var a := ParseRange(num, lines, lo, hi)[k];
      ParseRecord(num, lines[a.lineNum], a.lineNum) == Some(a)
    decreases hi - lo
  {
    var before := ParseRange(num, lines, lo, hi - 1);
    ParseRangeExtends(num, lines, lo, hi);
    if k < |before| {
      ParseRangeSound(num, lines, lo, hi - 1, k);
      assert ParseRange(num, lines, lo, hi)[..|before|][k] == before[k];
    }
  }

  /** Where a parsing line of the range sits among the records. */
  lemma {:induction false} ParseRangeFind(num: Numerics, lines: seq<string>, lo: nat, hi: nat, i: nat) returns (k: nat)
    requires lo <= i < hi <= |lines|
    requires ParseRecord(num, lines[i], i).Some?
    ensures k < |ParseRange(num, lines, lo, hi)| && ParseRange(num, lines, lo, hi)[k].lineNum == i
    decreases hi - lo
  {
    var before := ParseRange(num, lines, lo, hi - 1);
    ParseRangeExtends(num, lines, lo, hi);
    if i == hi - 1 {
      assert ParseRecord(num, lines[hi - 1], hi - 1).Some?;
      k := |before|;
    } else {
      k := ParseRangeFind(num, lines, lo, hi - 1, i);
      assert ParseRange(num, lines, lo, hi)[..|before|][k] == before[k];
    }
  }

  /** Every line of the range that parses is among the records: the records
      are exactly the parsing lines of the range. */
  lemma ParseRangeComplete(num: Numerics, lines: seq<string>, lo: nat, hi: nat, i: nat)
    requires lo <= i < hi <= |lines|
    requires ParseRecord(num, lines[i], i).Some?
    ensures exists k :: 0 <= k < |ParseRange(num, lines, lo, hi)| && ParseRange(num, lines, lo, hi)[k].lineNum == i
  {
    var k := ParseRangeFind(num, lines, lo, hi, i);
  }

  /** No record comes out of the range exactly when no line of it parses. */
  lemma ParseRangeEmptyIff(num: Numerics, lines: seq<string>, lo: nat, hi: nat)
    requires lo <= hi <= |lines|
    ensures ParseRange(num, lines, lo, hi) == [] <==>
      forall i :: lo <= i < hi ==> ParseRecord(num, lines[i], i).None?
  {
    if ParseRange(num, lines, lo, hi) == [] {
      forall i | lo <= i < hi ensures ParseRecord(num, lines[i], i).None? {
        if ParseRecord(num, lines[i], i).Some? {
          ParseRangeComplete(num, lines, lo, hi, i);
        }
      }
    }
  }
}
