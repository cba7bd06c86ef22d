/** The backtracking search (`PieceSolver::Solver`): always cover the first
    free cell, trying every unused piece, every orientation and every cell
    of the orientation as the one that lands on it; undo a placement when
    the search below it fails. */
module Solver {
  import opened Geometry
  import opened PieceShape
  import opened PieceCatalog
  import opened BoardModel

  /** `Solver::Placement`: which piece, where, in which orientation, and the
      absolute cells it covers. */
  datatype Placement = Placement(pieceName: string, origin: Cell, orientationIndex: nat, cells: seq<Cell>)

  /** What the search reads of a piece: its name and the orientation list
      the constructor stored. */
  datatype Stock = Stock(name: string, orientations: seq<seq<Cell>>)

  /** The pieces as the search sees them. */
  function StockOf(pieces: seq<Piece>): (r: seq<Stock>)
    ensures |r| == |pieces|
    ensures forall i :: 0 <= i < |pieces| ==>
      r[i].name == pieces[i].name && r[i].orientations == OrientationsOf(pieces[i])
  {
    seq(|pieces|, i requires 0 <= i < |pieces| => Stock(pieces[i].name, OrientationsOf(pieces[i])))
  }

  /** The names the search may still pick from. */
  function StockNameSet(stock: seq<Stock>): set<string> {
    set i | 0 <= i < |stock| :: stock[i].name
  }

  /** The mutable state of the search: the board, the placement stack and
      the `used` hash (as the set of its keys). */
  datatype Search = Search(board: Board, placements: seq<Placement>, used: set<string>)

  /** The result of a search step. A failed step hands back the state it
      leaves behind, which the undo makes equal to the state it started from. */
  datatype Attempt = Found(state: Search) | NotFound(state: Search)

  /** `placement_valid?`: every cell is free. */
  function PlacementValid(b: Board, cells: seq<Cell>): (r: bool)
    ensures r <==> forall k :: 0 <= k < |cells| ==> Free(b, cells[k])
    decreases |cells|
  {
    if |cells| == 0 then true
    else Free(b, cells[0]) && PlacementValid(b, cells[1..])
  }

  /** The cells covered by a list of placements. */
  function Covered(ps: seq<Placement>): (r: set<Cell>)
    ensures forall k :: 0 <= k < |ps| ==> Elems(ps[k].cells) <= r
    decreases |ps|
  {
    if |ps| == 0 then {}
    else Covered(ps[..|ps| - 1]) + Elems(ps[|ps| - 1].cells)
  }

  /** The piece names of a list of placements, in order. */
  function PlacedNames(ps: seq<Placement>): (r: seq<string>)
    ensures |r| == |ps| && forall k :: 0 <= k < |ps| ==> r[k] == ps[k].pieceName
  {
    seq(|ps|, k requires 0 <= k < |ps| => ps[k].pieceName)
  }

  /** The placement is an orientation of a piece of that name, shifted by
      its origin. */
  predicate FitsPiece(stock: seq<Stock>, p: Placement) {
    exists j :: 0 <= j < |stock| && stock[j].name == p.pieceName
      && p.orientationIndex < |stock[j].orientations|
      && p.cells == Translate(stock[j].orientations[p.orientationIndex], p.origin.0, p.origin.1)
  }

  /** No two placements share a cell. */
  predicate PairwiseDisjoint(ps: seq<Placement>) {
    forall a, c :: 0 <= a < c < |ps| ==> Elems(ps[a].cells) !! Elems(ps[c].cells)
  }

  /** Every placed cell was free on the starting board `b0`. */
  predicate AllFree(b0: Board, ps: seq<Placement>) {
    forall k, c :: 0 <= k < |ps| && c in ps[k].cells ==> Free(b0, c)
  }

  /** A legal stack of placements on `b0`: shapes from the catalog, each
      piece name at most once, on free cells, without overlap. */
  predicate Legal(b0: Board, stock: seq<Stock>, ps: seq<Placement>) {
    (forall k :: 0 <= k < |ps| ==> FitsPiece(stock, ps[k]))
    && Distinct(PlacedNames(ps))
    && AllFree(b0, ps)
    && PairwiseDisjoint(ps)
  }

  /** The board `b0` with the first `k` placements added. */
  function BoardAfter(b0: Board, ps: seq<Placement>, k: nat): Board
    requires k <= |ps|
  {
    Board(b0.size, b0.pegs, b0.occupied + Covered(ps[..k]))
  }

  /** Placement `k` covers the row-major-first cell that `b0` and the
      placements before it leave free. */
  predicate AnchorHolds(b0: Board, ps: seq<Placement>, k: nat)
    requires k < |ps|
  {
    var first := NextFreeCell(BoardAfter(b0, ps, k));
    first.Some? && first.value in ps[k].cells
  }

  /** Every placement covers the row-major-first cell that `b0` and the
      placements before it leave free (`AnchorHolds` at each position). */
  predicate Anchored(b0: Board, ps: seq<Placement>)
    decreases |ps|
  {
    |ps| == 0 || (Anchored(b0, ps[..|ps| - 1]) && AnchorHolds(b0, ps, |ps| - 1))
  }

  /** The invariant of `backtrack`: the board is `b0` with exactly the
      placed cells added, `used` holds exactly the placed names, and the
      placements are legal and each anchored on the first free cell. */
  predicate Consistent(b0: Board, stock: seq<Stock>, st: Search) {
    st.board == Board(b0.size, b0.pegs, b0.occupied + Covered(st.placements))
    && st.used == Elems(PlacedNames(st.placements))
    && Legal(b0, stock, st.placements)
    && Anchored(b0, st.placements)
  }

  /** The completion test of `backtrack`. */
  predicate Complete(st: Search) {
    OccupancyCount(st.board) == FreeCellsTarget(st.board)
  }

  /** The names no placement has taken yet: the measure the search shrinks. */
  function Unused(stock: seq<Stock>, used: set<string>): nat {
    |StockNameSet(stock) - used|
  }

  lemma {:induction false} UnusedShrinks(stock: seq<Stock>, used: set<string>, i: nat)
    requires i < |stock| && stock[i].name !in used
    ensures Unused(stock, used + {stock[i].name}) < Unused(stock, used)
  {
    var all := StockNameSet(stock);
    assert all - (used + {stock[i].name}) == (all - used) - {stock[i].name};
  }

  /** Anchor `k` of orientation `o` of piece `i` on target `t`: the origin
      that puts cell `k` of the orientation on `t`. */
  function AnchorOrigin(orient: seq<Cell>, k: nat, t: Cell): Cell
    requires k < |orient|
  {
    (t.0 - orient[k].0, t.1 - orient[k].1)
  }

  /** Shifted by the anchor origin, cell `k` of the orientation lands on `t`. */
  lemma {:induction false} AnchorLands(orient: seq<Cell>, k: nat, t: Cell)
    requires k < |orient|
    ensures t in Translate(orient, AnchorOrigin(orient, k, t).0, AnchorOrigin(orient, k, t).1)
  {
    var origin := AnchorOrigin(orient, k, t);
    assert Translate(orient, origin.0, origin.1)[k] == t;
  }

  /** The state after `place`, `used[name] = true` and `placements <<`. */
  function Push(st: Search, p: Placement): Search {
    Search(Place(st.board, p.cells), st.placements + [p], st.used + {p.pieceName})
  }

  /** The state after `placements.pop`, `used.delete(name)` and `unplace`. */
  function Pop(st: Search, p: Placement): Search
    requires |st.placements| > 0
  {
    Search(Unplace(st.board, p.cells), st.placements[..|st.placements| - 1], st.used - {p.pieceName})
  }

  /** Undoing a push restores the state exactly. */
  lemma {:induction false} PopUndoesPush(st: Search, p: Placement)
    requires Elems(p.cells) !! st.board.occupied && p.pieceName !in st.used
    ensures Pop(Push(st, p), p) == st
  {
    PlaceThenUnplace(st.board, p.cells);
    assert (st.placements + [p])[..|st.placements|] == st.placements;
  }

  /** Every covered cell lies in some placement. */
  lemma {:induction false} CoveredFromPlacements(ps: seq<Placement>, c: Cell)
    requires c in Covered(ps)
    ensures exists k :: 0 <= k < |ps| && c in ps[k].cells
    decreases |ps|
  {
    var n := |ps| - 1;
    if c !in Elems(ps[n].cells) {
      CoveredFromPlacements(ps[..n], c);
      var k :| 0 <= k < n && c in ps[..n][k].cells;
      assert ps[..n][k] == ps[k];
    }
  }

  /** The cells of placements that were all free on `b0` were free on `b0`. */
  lemma {:induction false} CoveredWasFree(b0: Board, ps: seq<Placement>)
    requires AllFree(b0, ps)
    ensures forall c :: c in Covered(ps) ==> Free(b0, c)
  {
    forall c | c in Covered(ps) ensures Free(b0, c) {
      CoveredFromPlacements(ps, c);
    }
  }

  /** The cells and names after a push. */
  lemma {:induction false} PushParts(st: Search, p: Placement)
    ensures Covered(st.placements + [p]) == Covered(st.placements) + Elems(p.cells)
    ensures PlacedNames(st.placements + [p]) == PlacedNames(st.placements) + [p.pieceName]
    ensures Elems(PlacedNames(st.placements + [p])) == Elems(PlacedNames(st.placements)) + {p.pieceName}
  {
    var ps := st.placements + [p];
    assert ps[..|ps| - 1] == st.placements;
    assert PlacedNames(ps) == PlacedNames(st.placements) + [p.pieceName];
    ElemsSnoc(PlacedNames(ps));
  }

  /** A valid placement of an unused piece keeps the invariant. */
  lemma {:induction false} PushKeepsConsistent(b0: Board, stock: seq<Stock>, st: Search, t: Cell, i: nat, o: nat, origin: Cell)
    requires Consistent(b0, stock, st) && i < |stock| && stock[i].name !in st.used
    requires o < |stock[i].orientations|
    requires PlacementValid(st.board, Translate(stock[i].orientations[o], origin.0, origin.1))
    requires NextFreeCell(st.board) == Some(t) && t in Translate(stock[i].orientations[o], origin.0, origin.1)
    ensures var p := Placement(stock[i].name, origin, o, Translate(stock[i].orientations[o], origin.0, origin.1));
      Consistent(b0, stock, Push(st, p))
  {
    var cells := Translate(stock[i].orientations[o], origin.0, origin.1);
    var p := Placement(stock[i].name, origin, o, cells);
    var next := Push(st, p);
    PushParts(st, p);
    assert next.board == Board(b0.size, b0.pegs, b0.occupied + Covered(next.placements));
    assert next.used == Elems(PlacedNames(next.placements));
    FitsPieceAt(stock, i, o, origin);
    PushLegal(b0, stock, st.placements, p, st.board);
    PushAnchored(b0, st.placements, p, t);
  }

  /** A placement covering the first free cell keeps the stack anchored. */
  lemma {:induction false} PushAnchored(b0: Board, ps: seq<Placement>, p: Placement, t: Cell)
    requires Anchored(b0, ps)
    requires NextFreeCell(Board(b0.size, b0.pegs, b0.occupied + Covered(ps))) == Some(t) && t in p.cells
    ensures Anchored(b0, ps + [p])
  {
    var qs := ps + [p];
    assert qs[..|qs| - 1] == ps;
  }

  /** Unfolded, anchoring says of every `k`: placement `k` covers the first
      free cell of `b0` with placements `0 .. k - 1` added. */
  lemma {:induction false} AnchoredAt(b0: Board, ps: seq<Placement>)
    ensures Anchored(b0, ps) <==> forall k :: 0 <= k < |ps| ==> AnchorHolds(b0, ps, k)
  {
    if Anchored(b0, ps) {
      forall k | 0 <= k < |ps| ensures AnchorHolds(b0, ps, k) {
        AnchoredEach(b0, ps, k);
      }
    }
    if forall k :: 0 <= k < |ps| ==> AnchorHolds(b0, ps, k) {
      EachAnchored(b0, ps);
    }
  }

  /** Dropping later placements does not change whether placement `k` is
      anchored. */
  lemma {:induction false} AnchorHoldsPrefix(b0: Board, ps: seq<Placement>, n: nat, k: nat)
    requires k < n <= |ps|
    ensures AnchorHolds(b0, ps[..n], k) == AnchorHolds(b0, ps, k)
  {
    assert ps[..n][..k] == ps[..k];
  }

  lemma {:induction false} AnchoredEach(b0: Board, ps: seq<Placement>, k: nat)
    requires Anchored(b0, ps) && k < |ps|
    ensures AnchorHolds(b0, ps, k)
    decreases |ps|
  {
    if k < |ps| - 1 {
      AnchoredEach(b0, ps[..|ps| - 1], k);
      AnchorHoldsPrefix(b0, ps, |ps| - 1, k);
    }
  }

  lemma {:induction false} EachAnchored(b0: Board, ps: seq<Placement>)
    requires forall k :: 0 <= k < |ps| ==> AnchorHolds(b0, ps, k)
    ensures Anchored(b0, ps)
    decreases |ps|
  {
    if |ps| > 0 {
      var qs := ps[..|ps| - 1];
      forall k | 0 <= k < |qs| ensures AnchorHolds(b0, qs, k) {
        AnchorHoldsPrefix(b0, ps, |ps| - 1, k);
      }
      EachAnchored(b0, qs);
    }
  }

  /** Orientation `o` of piece `i` shifted by `origin` fits that piece. */
  lemma {:induction false} FitsPieceAt(stock: seq<Stock>, i: nat, o: nat, origin: Cell)
    requires i < |stock| && o < |stock[i].orientations|
    ensures FitsPiece(stock, Placement(stock[i].name, origin, o, Translate(stock[i].orientations[o], origin.0, origin.1)))
  {
  }

  /** Adding a fitting placement of a new name on free cells keeps the
      stack legal. */
  lemma {:induction false} PushLegal(b0: Board, stock: seq<Stock>, ps: seq<Placement>, p: Placement, b: Board)
    requires Legal(b0, stock, ps) && FitsPiece(stock, p)
    requires b == Board(b0.size, b0.pegs, b0.occupied + Covered(ps))
    requires p.pieceName !in Elems(PlacedNames(ps))
    requires forall k :: 0 <= k < |p.cells| ==> Free(b, p.cells[k])
    ensures Legal(b0, stock, ps + [p])
  {
    PushFits(stock, ps, p);
    PushDistinctNames(ps, p);
    PushAllFree(b0, ps, p, b);
    PushDisjoint(b0, ps, p, b);
  }

  lemma {:induction false} PushFits(stock: seq<Stock>, ps: seq<Placement>, p: Placement)
    requires forall k :: 0 <= k < |ps| ==> FitsPiece(stock, ps[k])
    requires FitsPiece(stock, p)
    ensures forall k :: 0 <= k < |ps + [p]| ==> FitsPiece(stock, (ps + [p])[k])
  {
    var qs := ps + [p];
    forall k | 0 <= k < |qs| ensures FitsPiece(stock, qs[k]) {
      if k < |ps| {
        assert qs[k] == ps[k];
      }
    }
  }

  lemma {:induction false} PushDistinctNames(ps: seq<Placement>, p: Placement)
    requires Distinct(PlacedNames(ps)) && p.pieceName !in Elems(PlacedNames(ps))
    ensures Distinct(PlacedNames(ps + [p]))
  {
    var qs := ps + [p];
    var n := |ps|;
    forall a, c | 0 <= a < c < |qs| ensures PlacedNames(qs)[a] != PlacedNames(qs)[c] {
      assert qs[a] == ps[a];
      if c < n {
        assert qs[c] == ps[c];
        assert PlacedNames(ps)[a] != PlacedNames(ps)[c];
      } else {
        assert PlacedNames(ps)[a] in Elems(PlacedNames(ps));
      }
    }
  }

  lemma {:induction false} PushAllFree(b0: Board, ps: seq<Placement>, p: Placement, b: Board)
    requires AllFree(b0, ps)
    requires b == Board(b0.size, b0.pegs, b0.occupied + Covered(ps))
    requires forall k :: 0 <= k < |p.cells| ==> Free(b, p.cells[k])
    ensures AllFree(b0, ps + [p])
  {
    var qs := ps + [p];
    forall k, c | 0 <= k < |qs| && c in qs[k].cells ensures Free(b0, c) {
      if k == |ps| {
        var m :| 0 <= m < |p.cells| && p.cells[m] == c;
        assert Free(b, c);
      } else {
        assert qs[k] == ps[k];
      }
    }
  }

  lemma {:induction false} PushDisjoint(b0: Board, ps: seq<Placement>, p: Placement, b: Board)
    requires PairwiseDisjoint(ps)
    requires b == Board(b0.size, b0.pegs, b0.occupied + Covered(ps))
    requires forall k :: 0 <= k < |p.cells| ==> Free(b, p.cells[k])
    ensures PairwiseDisjoint(ps + [p])
  {
    var qs := ps + [p];
    assert forall x :: x in p.cells ==> x !in Covered(ps);
    forall a, c | 0 <= a < c < |qs| ensures Elems(qs[a].cells) !! Elems(qs[c].cells) {
      assert qs[a] == ps[a];
      if c == |ps| {
        assert Elems(ps[a].cells) <= Covered(ps);
      } else {
        assert qs[c] == ps[c];
      }
    }
  }

  /** `backtrack`: done when the occupancy reaches the target; stuck when no
      cell is free; otherwise try the unused pieces on the first free cell.
      A success extends the placement stack to a complete, consistent
      state; a failure leaves the state as it was. */
  function Backtrack(stock: seq<Stock>, b0: Board, st: Search): (r: Attempt)
    requires Consistent(b0, stock, st)
    ensures r.NotFound? ==> r.state == st
    ensures r.Found? ==> (Consistent(b0, stock, r.state) && Complete(r.state)
      && st.placements <= r.state.placements)
    decreases Unused(stock, st.used), 3, 0, 0
  {
    if Complete(st) then Found(st)
    else
      match NextFreeCell(st.board)
      case None => NotFound(st)
      case Some(t) => TryPieces(stock, b0, st, t, 0)
  }

  /** `@pieces.each`, from piece `i` on, skipping used names. */
  function TryPieces(stock: seq<Stock>, b0: Board, st: Search, t: Cell, i: nat): (r: Attempt)
    requires Consistent(b0, stock, st) && i <= |stock| && NextFreeCell(st.board) == Some(t)
    ensures r.NotFound? ==> r.state == st
    ensures r.Found? ==> (Consistent(b0, stock, r.state) && Complete(r.state)
      && st.placements <= r.state.placements)
    decreases Unused(stock, st.used), 2, |stock| - i, 0
  {
    if i == |stock| then NotFound(st)
    else if stock[i].name in st.used then TryPieces(stock, b0, st, t, i + 1)
    else
      match TryOrientations(stock, b0, st, t, i, 0)
      case Found(s) => Found(s)
      case NotFound(s) => TryPieces(stock, b0, s, t, i + 1)
  }

  /** `piece.orientations.each_with_index`, from orientation `o` on. */
  function TryOrientations(stock: seq<Stock>, b0: Board, st: Search, t: Cell, i: nat, o: nat): (r: Attempt)
    requires Consistent(b0, stock, st) && i < |stock| && stock[i].name !in st.used
    requires o <= |stock[i].orientations| && NextFreeCell(st.board) == Some(t)
    ensures r.NotFound? ==> r.state == st
    ensures r.Found? ==> (Consistent(b0, stock, r.state) && Complete(r.state)
      && st.placements <= r.state.placements)
    decreases Unused(stock, st.used), 1, |stock[i].orientations| - o, 0
  {
    if o == |stock[i].orientations| then NotFound(st)
    else
      match TryAnchors(stock, b0, st, t, i, o, 0)
      case Found(s) => Found(s)
      case NotFound(s) => TryOrientations(stock, b0, s, t, i, o + 1)
  }

  /** `orientation.each`, from cell `k` on. */
  function TryAnchors(stock: seq<Stock>, b0: Board, st: Search, t: Cell, i: nat, o: nat, k: nat): (r: Attempt)
    requires Consistent(b0, stock, st) && i < |stock| && stock[i].name !in st.used
    requires o < |stock[i].orientations| && k <= |stock[i].orientations[o]|
    requires NextFreeCell(st.board) == Some(t)
    ensures r.NotFound? ==> r.state == st
    ensures r.Found? ==> (Consistent(b0, stock, r.state) && Complete(r.state)
      && st.placements <= r.state.placements)
    decreases Unused(stock, st.used), 0, |stock[i].orientations[o]| - k, 1
  {
    if k == |stock[i].orientations[o]| then NotFound(st)
    else
      match TryAnchor(stock, b0, st, t, i, o, k)
      case Found(s) => Found(s)
      case NotFound(s) => TryAnchors(stock, b0, s, t, i, o, k + 1)
  }

  /** One pass of the `orientation.each` body: shift the orientation so
      cell `k` lands on the target; when every cell is free, place it,
      mark the name used, push the placement and search on; when that
      fails, pop, unmark and unplace. */
  function TryAnchor(stock: seq<Stock>, b0: Board, st: Search, t: Cell, i: nat, o: nat, k: nat): (r: Attempt)
    requires Consistent(b0, stock, st) && i < |stock| && stock[i].name !in st.used
    requires o < |stock[i].orientations| && k < |stock[i].orientations[o]|
    requires NextFreeCell(st.board) == Some(t)
    ensures r.NotFound? ==> r.state == st
    ensures r.Found? ==> (Consistent(b0, stock, r.state) && Complete(r.state)
      && st.placements <= r.state.placements)
    decreases Unused(stock, st.used), 0, |stock[i].orientations[o]| - k, 0
  {
    var orient := stock[i].orientations[o];
    var origin := AnchorOrigin(orient, k, t);
    var cells := Translate(orient, origin.0, origin.1);
    if !PlacementValid(st.board, cells) then NotFound(st)
    else
      AnchorLands(orient, k, t);
      Descend(stock, b0, st, t, i, o, origin)
  }

  /** Place, mark and push orientation `o` of piece `i` shifted by
      `origin`, search on, and on failure pop, unmark and unplace. */
  function Descend(stock: seq<Stock>, b0: Board, st: Search, t: Cell, i: nat, o: nat, origin: Cell): (r: Attempt)
    requires Consistent(b0, stock, st) && i < |stock| && stock[i].name !in st.used
    requires o < |stock[i].orientations|
    requires PlacementValid(st.board, Translate(stock[i].orientations[o], origin.0, origin.1))
    requires NextFreeCell(st.board) == Some(t) && t in Translate(stock[i].orientations[o], origin.0, origin.1)
    ensures r.NotFound? ==> r.state == st
    ensures r.Found? ==> (Consistent(b0, stock, r.state) && Complete(r.state)
      && st.placements <= r.state.placements)
    decreases Unused(stock, st.used), 0, 0, 0
  {
    var cells := Translate(stock[i].orientations[o], origin.0, origin.1);
    var p := Placement(stock[i].name, origin, o, cells);
    PushKeepsConsistent(b0, stock, st, t, i, o, origin);
    UnusedShrinks(stock, st.used, i);
    match Backtrack(stock, b0, Push(st, p))
    case Found(s) =>
      assert st.placements <= Push(st, p).placements;
      Found(s)
    case NotFound(s) =>
      assert forall c :: c in cells ==> Free(st.board, c);
      PopUndoesPush(st, p);
      NotFound(Pop(s, p))
  }

  /** What `solve_one` returns: a legal set of placements that, with the
      cells already covered, reaches the occupancy target. */
  predicate Solution(b: Board, stock: seq<Stock>, ps: seq<Placement>) {
    Legal(b, stock, ps) && |b.occupied| + |Covered(ps)| == FreeCellsTarget(b)
  }

  /** `solve_one` on a fresh solver: run the search from an empty stack and
      return the placements it completes with, or nothing. */
  function SolveOne(b: Board, pieces: seq<Piece>): (r: Option<seq<Placement>>)
    ensures r.Some? ==> Solution(b, StockOf(pieces), r.value)
    ensures r.Some? ==> Anchored(b, r.value)
  {
    var stock := StockOf(pieces);
    var start := Search(b, [], {});
    StartConsistent(b, stock);
    match Backtrack(stock, b, start)
    case NotFound(_) => None
    case Found(s) =>
      CoveredWasFree(b, s.placements);
      assert Covered(s.placements) !! b.occupied;
      Some(s.placements)
  }

  /** The search starts consistent: nothing placed, nothing used. */
  lemma {:induction false} StartConsistent(b: Board, stock: seq<Stock>)
    ensures Consistent(b, stock, Search(b, [], {}))
  {
    assert Covered([]) == {};
    assert b.occupied + {} == b.occupied;
    assert Elems(PlacedNames([])) == {};
    assert Anchored(b, []);
  }

  /** On a bare board with every peg on it, a solution covers exactly the
      cells that are not pegs: no gap and (by disjointness) no overlap. */
  lemma {:induction false} ExactCover(b: Board, stock: seq<Stock>, ps: seq<Placement>)
    requires Solution(b, stock, ps)
    requires b.size >= 0 && b.occupied == {}
    requires forall c :: c in b.pegs ==> InBounds(b, c)
    ensures Covered(ps) == FreeCells(b)
    ensures Covered(ps) == Grid(b.size) - b.pegs
  {
    FreeCellsTargetCounts(b);
    CoveredWasFree(b, ps);
    assert Covered(ps) <= FreeCells(b);
    SubsetSameSize(Covered(ps), FreeCells(b));
    GridCard(b.size);
  }

  lemma SubsetSameSize<T>(a: set<T>, b: set<T>)
    requires a <= b && |a| == |b|
    ensures a == b
  {
    assert |b - a| == |b| - |a|;
  }

  /** Each piece name is placed at most once, so a solution has at most as
      many placements as there are names. */
  lemma {:induction false} SolutionSize(b: Board, stock: seq<Stock>, ps: seq<Placement>)
    requires Solution(b, stock, ps)
    ensures |ps| <= |StockNameSet(stock)|
  {
    var names := PlacedNames(ps);
    DistinctCard(names);
    assert Elems(names) <= StockNameSet(stock) by {
      forall x | x in Elems(names) ensures x in StockNameSet(stock) {
        var k :| 0 <= k < |names| && names[k] == x;
        assert FitsPiece(stock, ps[k]);
        var j :| 0 <= j < |stock| && stock[j].name == x;
      }
    }
    SubsetCardinality(Elems(names), StockNameSet(stock));
  }

  lemma SubsetCardinality<T>(a: set<T>, b: set<T>)
    requires a <= b
    ensures |a| <= |b|
  {
    assert b == a + (b - a);
  }
}
