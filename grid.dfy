/** The grid that molecules are spread over (fix_system_data.py, lines 72-97):
    a three-dimensional cell counter that wraps at 22 cells in x and 20 in y
    and grows without bound in z, and the base position of each cell. */
module Grid {

  const CellsX: nat := 22
  const CellsY: nat := 20

  /** Spacing of the cells, and the base position of cell (0, 0, 0). */
  const SpacingX: int := 160
  const SpacingY: int := 70
  const SpacingZ: int := 700
  const OriginX: int := 100
  const OriginY: int := 10
  const OriginZ: int := 10

  /** The counter `ix, iy, iz`. */
  datatype Cell = Cell(ix: nat, iy: nat, iz: nat)

  /** A molecule's base position `(x_base, y_base, z_base)`. */
  datatype Base = Base(x: int, y: int, z: int)

  predicate InRange(c: Cell) {
    c.ix < CellsX && c.iy < CellsY
  }

  /** The counter's initial value, `ix, iy, iz = 0, 0, 0`. */
  const Start := Cell(0, 0, 0)

  /** One step of the counter: x moves on, wrapping into y at 22, which
      wraps into z at 20. */
  function Next(c: Cell): Cell {
    if c.ix + 1 >= CellsX then
      if c.iy + 1 >= CellsY then Cell(0, 0, c.iz + 1)
      else Cell(0, c.iy + 1, c.iz)
    else Cell(c.ix + 1, c.iy, c.iz)
  }

  /** The base position of a cell. */
  function BaseOf(c: Cell): Base {
    Base(OriginX + c.ix * SpacingX, OriginY + c.iy * SpacingY, OriginZ + c.iz * SpacingZ)
  }

  /** The counter after `k` steps, in closed form:
      `(k % 22, (k / 22) % 20, k / 440)`. */
  function CellAt(k: nat): Cell {
    Cell(k % CellsX, (k / CellsX) % CellsY, k / (CellsX * CellsY))
  }

  /** The number of steps that reach a cell. */
  function Index(c: Cell): nat {
    c.ix + CellsX * c.iy + CellsX * CellsY * c.iz
  }

  /** The counter after `k` steps from `Start`, step by step. */
  function Counter(k: nat): Cell
    decreases k
  {
    if k == 0 then Start else Next(Counter(k - 1))
  }

  lemma Div440(k: nat)
    ensures k / 440 == (k / 22) / 20
  {
    var q := k / 22;
    var p := q / 20;
    assert k == 22 * q + k % 22;
    assert q == 20 * p + q % 20;
    assert k == 440 * p + (22 * (q % 20) + k % 22);
    assert 0 <= 22 * (q % 20) + k % 22 < 440;
  }

  /** Every count reaches an in-range cell, and the cell gives the count back. */
  lemma IndexOfCellAt(k: nat)
    ensures InRange(CellAt(k)) && Index(CellAt(k)) == k
  {
    Div440(k);
    var q := k / 22;
    assert k == 22 * q + k % 22;
    assert q == 20 * (q / 20) + q % 20;
  }

  /** An in-range cell is reached by its own index, and only by it. */
  lemma CellAtOfIndex(c: Cell)
    requires InRange(c)
    ensures CellAt(Index(c)) == c
  {
    var k := Index(c);
    var q := c.iy + 20 * c.iz;
    assert k == 22 * q + c.ix;
    assert k / 22 == q && k % 22 == c.ix;
    assert q / 20 == c.iz && q % 20 == c.iy;
    Div440(k);
  }

  /** One step of the counter adds one to the index of an in-range cell and
      stays in range. */
  lemma NextIndex(c: Cell)
    requires InRange(c)
    ensures InRange(Next(c)) && Index(Next(c)) == Index(c) + 1
  {
  }

  /** The counter's wrap-around steps agree with the closed form. */
  lemma NextCellAt(k: nat)
    ensures Next(CellAt(k)) == CellAt(k + 1)
  {
    IndexOfCellAt(k);
    NextIndex(CellAt(k));
    CellAtOfIndex(Next(CellAt(k)));
  }

  /** After `k` steps from zero, the counter is `(k % 22, (k / 22) % 20, k / 440)`. */
  lemma {:induction false} CounterClosedForm(k: nat)
    ensures Counter(k) == CellAt(k)
    ensures Counter(k).ix < CellsX && Counter(k).iy < CellsY
    decreases k
  {
    if k == 0 {
    } else {
      CounterClosedForm(k - 1);
      NextCellAt(k - 1);
    }
    IndexOfCellAt(k);
  }

  /** Distinct counts give distinct cells, and distinct cells distinct bases. */
  lemma DistinctCountsDistinctBases(k1: nat, k2: nat)
    requires k1 != k2
    ensures CellAt(k1) != CellAt(k2)
    ensures BaseOf(CellAt(k1)) != BaseOf(CellAt(k2))
  {
    IndexOfCellAt(k1);
    IndexOfCellAt(k2);
  }

  /** The box the grid was sized for: x in [2, 3700], y and z in [0, 1400]. */
  predicate InsideBox(b: Base) {
    2 <= b.x <= 3700 && 0 <= b.y <= 1400 && 0 <= b.z <= 1400
  }

  /** Only the first 880 cells (two z layers of 22 by 20) have their base
      inside that box; the cell of count 880 onwards starts at z = 1410. */
  lemma InsideBoxIff(k: nat)
    ensures InsideBox(BaseOf(CellAt(k))) <==> k < 880
  {
    IndexOfCellAt(k);
    var c := CellAt(k);
    if k < 880 {
      assert c.iz <= 1;
    } else {
      assert c.iz >= 2;
    }
  }
}
