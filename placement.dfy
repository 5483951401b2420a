/** Placing molecules on the grid (fix_system_data.py, lines 76-105): the
    map `mol_positions` from molecule id to base position, filled in the
    order molecule ids are first met, and the translation of every atom by
    its molecule's base. */
module Placement {
  import opened Grid
  import opened Records

  /** The molecule ids among the records. */
  function MolIds(atoms: seq<AtomRecord>): set<int> {
    set k | 0 <= k < |atoms| :: atoms[k].mol
  }

  lemma MolIdsSnoc(atoms: seq<AtomRecord>)
    requires atoms != []
    ensures MolIds(atoms) == MolIds(atoms[..|atoms| - 1]) + {atoms[|atoms| - 1].mol}
  {
    var p := atoms[..|atoms| - 1];
    forall id | id in MolIds(atoms) ensures id in MolIds(p) + {atoms[|atoms| - 1].mol} {
      var k :| 0 <= k < |atoms| && atoms[k].mol == id;
      if k < |atoms| - 1 {
        assert p[k] == atoms[k];
      }
    }
    forall id | id in MolIds(p) ensures id in MolIds(atoms) {
      var k :| 0 <= k < |p| && p[k].mol == id;
      assert atoms[k] == p[k];
    }
  }

  /** One entry of `mol_positions`: an id not yet present gets the base of
      the counter's cell after as many steps as there are entries; an id
      already present keeps its base. */
  function Enter(m: map<int, Base>, id: int): (m': map<int, Base>)
    ensures id in m'
    ensures forall i :: i in m ==> i in m' && m'[i] == m[i]
    ensures id !in m ==> |m'| == |m| + 1 && m'[id] == BaseOf(Counter(|m|))
  {
    if id in m then m else m[id := BaseOf(Counter(|m|))]
  }

  /** `mol_positions` once the loop has gone through `atoms`: each atom's
      molecule id entered in turn. */
  function Bases(atoms: seq<AtomRecord>): (m: map<int, Base>)
    ensures forall k :: 0 <= k < |atoms| ==> atoms[k].mol in m
    decreases |atoms|
  {
    if atoms == [] then map[]
    else Enter(Bases(atoms[..|atoms| - 1]), atoms[|atoms| - 1].mol)
  }

  /** The ids placed are exactly those met. */
  lemma {:induction false} BasesKeys(atoms: seq<AtomRecord>)
    ensures Bases(atoms).Keys == MolIds(atoms)
    decreases |atoms|
  {
    if atoms != [] {
      BasesKeys(atoms[..|atoms| - 1]);
      MolIdsSnoc(atoms);
    }
  }

  /** The distinct molecule ids in the order they are first met. */
  function FirstSeen(atoms: seq<AtomRecord>): (r: seq<int>)
    ensures forall i, j :: 0 <= i < j < |r| ==> r[i] != r[j]
    ensures forall id :: id in r <==> id in MolIds(atoms)
    decreases |atoms|
  {
    if atoms == [] then []
    else
      var r := FirstSeen(atoms[..|atoms| - 1]);
      var id := atoms[|atoms| - 1].mol;
      MolIdsSnoc(atoms);
      if id in r then r else r + [id]
  }

  /** Every atom translated by its molecule's base. */
  function Placed(atoms: seq<AtomRecord>): (r: seq<AtomRecord>)
    ensures |r| == |atoms|
    ensures forall k :: 0 <= k < |r| ==> r[k].lineNum == atoms[k].lineNum
  {
    var m := Bases(atoms);
    seq(|atoms|, k requires 0 <= k < |atoms| => Translate(atoms[k], m[atoms[k].mol]))
  }

  /** One more atom: its id is placed at the base of the cell of the number
      of ids already placed, unless it is already present. */
  lemma BasesSnoc(atoms: seq<AtomRecord>, j: nat)
    requires j < |atoms|
    ensures Bases(atoms[..j + 1]) == Enter(Bases(atoms[..j]), atoms[j].mol)
  {
    assert atoms[..j + 1][..j] == atoms[..j];
  }

  /** The k-th distinct molecule id met (counting from 0) has the base of
      the counter's cell after k steps, and the map holds one entry per
      distinct id. */
  lemma {:induction false} BasesFollowFirstSeen(atoms: seq<AtomRecord>)
    ensures |Bases(atoms)| == |FirstSeen(atoms)|
    ensures forall k :: 0 <= k < |FirstSeen(atoms)| ==>
      FirstSeen(atoms)[k] in Bases(atoms) && Bases(atoms)[FirstSeen(atoms)[k]] == BaseOf(Counter(k))
    decreases |atoms|
  {
    if atoms != [] {
      var p := atoms[..|atoms| - 1];
      var id := atoms[|atoms| - 1].mol;
      BasesFollowFirstSeen(p);
      BasesKeys(p);
      var m, r := Bases(p), FirstSeen(p);
      if id !in r {
        assert id !in m;
        PlaceNewId(m, r, id);
      }
    }
  }

  /** In closed form: the k-th distinct molecule id met (counting from 0)
      has the base of grid cell `(k % 22, (k / 22) % 20, k / 440)`. */
  lemma BasesOnGrid(atoms: seq<AtomRecord>, k: nat)
    requires k < |FirstSeen(atoms)|
    ensures FirstSeen(atoms)[k] in Bases(atoms) && Bases(atoms)[FirstSeen(atoms)[k]] == BaseOf(CellAt(k))
  {
    BasesFollowFirstSeen(atoms);
    CounterClosedForm(k);
  }

  /** Placing an id not yet in the map keeps the map in step with the
      first-seen order. */
  lemma PlaceNewId(m: map<int, Base>, r: seq<int>, id: int)
    requires |m| == |r| && id !in m
    requires forall k :: 0 <= k < |r| ==> r[k] in m && m[r[k]] == BaseOf(Counter(k))
    ensures var m', r' := m[id := BaseOf(Counter(|m|))], r + [id];
      && |m'| == |r'|
      && forall k :: 0 <= k < |r'| ==> r'[k] in m' && m'[r'[k]] == BaseOf(Counter(k))
  {
    var m', r' := m[id := BaseOf(Counter(|m|))], r + [id];
    forall k | 0 <= k < |r'| ensures r'[k] in m' && m'[r'[k]] == BaseOf(Counter(k)) {
      if k < |r| {
        assert r'[k] == r[k] != id;
      }
    }
  }

  /** A sequence without repetitions has as many elements as its set. */
  lemma {:induction false} DistinctCard(s: seq<int>)
    requires forall i, j :: 0 <= i < j < |s| ==> s[i] != s[j]
    ensures |set x | x in s| == |s|
    decreases |s|
  {
    if s != [] {
      var p := s[..|s| - 1];
      DistinctCard(p);
      assert (set x | x in s) == (set x | x in p) + {s[|s| - 1]};
    }
  }

  /** `len(mol_positions)` is the number of distinct molecule ids. */
  lemma BasesSize(atoms: seq<AtomRecord>)
    ensures |Bases(atoms)| == |MolIds(atoms)|
  {
    BasesFollowFirstSeen(atoms);
    var r := FirstSeen(atoms);
    DistinctCard(r);
    assert (set x | x in r) == MolIds(atoms);
  }

  /** One more atom leaves every entry already made as it was. */
  lemma BasesGrow(atoms: seq<AtomRecord>, j: nat)
    requires j < |atoms|
    ensures forall id :: id in Bases(atoms[..j]) ==> id in Bases(atoms[..j + 1]) && Bases(atoms[..j + 1])[id] == Bases(atoms[..j])[id]
  {
    assert atoms[..j + 1][..j] == atoms[..j];
  }

  /** An entry, once made, is never overwritten: the map after a prefix of
      the atoms is part of the map after all of them. */
  lemma {:induction false} BasesStable(atoms: seq<AtomRecord>, j: nat)
    requires j <= |atoms|
    ensures forall id :: id in Bases(atoms[..j]) ==> id in Bases(atoms) && Bases(atoms)[id] == Bases(atoms[..j])[id]
    decreases |atoms| - j
  {
    if j < |atoms| {
      BasesStable(atoms, j + 1);
      BasesGrow(atoms, j);
    } else {
      assert atoms[..j] == atoms;
    }
  }

  /** A molecule's base is fixed when its id is first met, at atom `k`:
      it is the base of the cell of the number of ids placed before. */
  lemma BaseAtFirstOccurrence(atoms: seq<AtomRecord>, k: nat)
    requires k < |atoms|
    requires forall j :: 0 <= j < k ==> atoms[j].mol != atoms[k].mol
    ensures Bases(atoms)[atoms[k].mol] == BaseOf(Counter(|Bases(atoms[..k])|))
  {
    var p := atoms[..k + 1];
    assert p[..k] == atoms[..k];
    assert atoms[k].mol !in MolIds(atoms[..k]);
    BasesKeys(atoms[..k]);
    BasesStable(atoms, k + 1);
  }

  /** Distinct molecules get distinct bases. */
  lemma BasesInjective(atoms: seq<AtomRecord>, id1: int, id2: int)
    requires id1 in Bases(atoms) && id2 in Bases(atoms) && id1 != id2
    ensures Bases(atoms)[id1] != Bases(atoms)[id2]
  {
    BasesFollowFirstSeen(atoms);
    BasesKeys(atoms);
    var r := FirstSeen(atoms);
    var k1 :| 0 <= k1 < |r| && r[k1] == id1;
    var k2 :| 0 <= k2 < |r| && r[k2] == id2;
    CounterClosedForm(k1);
    CounterClosedForm(k2);
    DistinctCountsDistinctBases(k1, k2);
  }

  /** Rigid-body translation: two atoms of the same molecule are moved by
      the same vector, which is their molecule's base. */
  lemma RigidBody(atoms: seq<AtomRecord>, k: nat, l: nat)
    requires k < |atoms| && l < |atoms| && atoms[k].mol == atoms[l].mol
    ensures var b := Bases(atoms)[atoms[k].mol];
      && Placed(atoms)[k].x - atoms[k].x == Placed(atoms)[l].x - atoms[l].x == b.x as real
      && Placed(atoms)[k].y - atoms[k].y == Placed(atoms)[l].y - atoms[l].y == b.y as real
      && Placed(atoms)[k].z - atoms[k].z == Placed(atoms)[l].z - atoms[l].z == b.z as real
  {
  }

  /** Atom `5 2 1 0.0 1.0 2.0 3.0` of molecule 2, the first molecule met,
      comes out at (101, 12, 13) with everything else unchanged. */
  lemma FirstMoleculeExample(atoms: seq<AtomRecord>, line: nat)
    requires atoms != [] && atoms[0] == AtomRecord(5, 2, 1, 0.0, 1.0, 2.0, 3.0, line)
    ensures Placed(atoms)[0] == AtomRecord(5, 2, 1, 0.0, 101.0, 12.0, 13.0, line)
  {
    BaseAtFirstOccurrence(atoms, 0);
    assert atoms[..0] == [];
    assert BaseOf(Counter(0)) == Base(100, 10, 10);
    assert Placed(atoms)[0] == Translate(atoms[0], Base(100, 10, 10));
  }
}
