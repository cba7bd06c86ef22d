/** The square board (`PieceSolver::Board`): a fixed set of blocked peg
    cells and a growing set of cells covered by placed pieces. */
module BoardModel {
  import opened Geometry

  /** `size` is the side length; `pegs` and `occupied` are Ruby `Set`s of cells. */
  datatype Board = Board(size: int, pegs: set<Cell>, occupied: set<Cell>)

  /** `Board.new(size:, pegs:)`: the pegs become a set, nothing is occupied. */
  function NewBoard(size: int, pegs: seq<Cell>): (b: Board)
    ensures b.size == size && b.occupied == {}
    ensures forall c :: c in b.pegs <==> c in pegs
  {
    Board(size, Elems(pegs), {})
  }

  predicate InBounds(b: Board, c: Cell) {
    InSquare(b.size, c)
  }

  predicate Blocked(b: Board, c: Cell) {
    c in b.pegs
  }

  predicate Occupied(b: Board, c: Cell) {
    c in b.occupied
  }

  /** `free?`: on the board, not a peg and not covered. */
  predicate Free(b: Board, c: Cell) {
    InBounds(b, c) && !Blocked(b, c) && !Occupied(b, c)
  }

  /** The free cells as one set: the grid less the pegs and the covered cells. */
  function FreeCells(b: Board): (r: set<Cell>)
    ensures forall c :: c in r <==> Free(b, c)
  {
    var n := if b.size < 0 then 0 else b.size;
    GridCard(n);
    Grid(n) - b.pegs - b.occupied
  }

  /** `place`: adds each cell to the occupied set, one at a time. */
  function Place(b: Board, cells: seq<Cell>): (r: Board)
    ensures r.size == b.size && r.pegs == b.pegs
    ensures r.occupied == b.occupied + Elems(cells)
    decreases |cells|
  {
    if |cells| == 0 then b
    else
      var r := Place(Board(b.size, b.pegs, b.occupied + {cells[0]}), cells[1..]);
      assert Elems(cells) == {cells[0]} + Elems(cells[1..]) by {
        assert cells == [cells[0]] + cells[1..];
      }
      r
  }

  /** `unplace`: deletes each cell from the occupied set, one at a time. */
  function Unplace(b: Board, cells: seq<Cell>): (r: Board)
    ensures r.size == b.size && r.pegs == b.pegs
    ensures r.occupied == b.occupied - Elems(cells)
    decreases |cells|
  {
    if |cells| == 0 then b
    else
      var r := Unplace(Board(b.size, b.pegs, b.occupied - {cells[0]}), cells[1..]);
      assert Elems(cells) == {cells[0]} + Elems(cells[1..]) by {
        assert cells == [cells[0]] + cells[1..];
      }
      r
  }

  /** Taking back cells that were not covered before restores the board. */
  lemma {:induction false} PlaceThenUnplace(b: Board, cells: seq<Cell>)
    requires Elems(cells) !! b.occupied
    ensures Unplace(Place(b, cells), cells) == b
  {
    var r := Unplace(Place(b, cells), cells);
    assert r.occupied == b.occupied;
  }

  function OccupancyCount(b: Board): nat {
    |b.occupied|
  }

  /** Placing distinct, uncovered cells raises the count by their number. */
  lemma {:induction false} PlaceCount(b: Board, cells: seq<Cell>)
    requires Distinct(cells) && Elems(cells) !! b.occupied
    ensures OccupancyCount(Place(b, cells)) == OccupancyCount(b) + |cells|
  {
    DistinctCard(cells);
  }

  /** `free_cells_target`: cells to cover for a full board. */
  function FreeCellsTarget(b: Board): int {
    b.size * b.size - |b.pegs|
  }

  /** When every peg is on the board, the target is the number of cells a
      bare board leaves free. */
  lemma {:induction false} FreeCellsTargetCounts(b: Board)
    requires b.size >= 0 && b.occupied == {}
    requires forall c :: c in b.pegs ==> InBounds(b, c)
    ensures FreeCellsTarget(b) == |FreeCells(b)|
  {
    GridCard(b.size);
    assert FreeCells(b) == Grid(b.size) - b.pegs;
    assert b.pegs <= Grid(b.size);
  }

  /** `a` comes before `c` in the scan order of `next_free_cell`: rows
      (`y`) outside, columns (`x`) inside. */
  predicate RowMajorLess(a: Cell, c: Cell) {
    a.1 < c.1 || (a.1 == c.1 && a.0 < c.0)
  }

  /** Cell `c` is reached at or after position `(x, y)` of the scan. */
  predicate AtOrAfter(c: Cell, x: int, y: int) {
    c.1 > y || (c.1 == y && c.0 >= x)
  }

  /** The rest of the scan, starting at column `x` of row `y`. */
  function ScanFrom(b: Board, x: int, y: int): (r: Option<Cell>)
    requires 0 <= x && 0 <= y
    ensures r.Some? ==> Free(b, r.value) && AtOrAfter(r.value, x, y)
    ensures r.Some? ==> forall c :: Free(b, c) && AtOrAfter(c, x, y) ==> !RowMajorLess(c, r.value)
    ensures r.None? <==> forall c :: Free(b, c) ==> !AtOrAfter(c, x, y)
    decreases b.size - y, b.size - x
  {
    if y >= b.size then None
    else if x >= b.size then ScanFrom(b, 0, y + 1)
    else if Free(b, (x, y)) then Some((x, y))
    else ScanFrom(b, x + 1, y)
  }

  /** `next_free_cell`: the first free cell in row-major order, if any. */
  function NextFreeCell(b: Board): (r: Option<Cell>)
    ensures r.Some? ==> Free(b, r.value)
    ensures r.Some? ==> forall c :: Free(b, c) ==> !RowMajorLess(c, r.value)
    ensures r.None? <==> forall c :: !Free(b, c)
  {
    ScanFrom(b, 0, 0)
  }
}
