/** A polyomino and its orientations (`PieceSolver::Piece`): normalisation of a
    cell list, the eight symmetries of the square, and the deduplicated list of
    orientations in first-occurrence order. */
module PieceShape {
  import opened Geometry

  /** Which coordinate of a cell: `first` (x) or `last` (y). */
  datatype Axis = X | Y

  function Coord(c: Cell, a: Axis): int {
    if a == X then c.0 else c.1
  }

  /** Position of a cell whose coordinate on axis `a` is least. */
  function LeastIndex(s: seq<Cell>, a: Axis): (k: nat)
    requires |s| > 0
    ensures k < |s|
    ensures forall i :: 0 <= i < |s| ==> Coord(s[k], a) <= Coord(s[i], a)
  {
    if |s| == 1 then 0
    else
      var k := LeastIndex(s[1..], a);
      assert forall i :: 1 <= i < |s| ==> s[i] == s[1..][i - 1];
      if Coord(s[0], a) <= Coord(s[k + 1], a) then 0 else k + 1
  }

  /** `cells.map(&:first).min` (axis X) and `cells.map(&:last).min` (axis Y). */
  function MinCoord(s: seq<Cell>, a: Axis): int
    requires |s| > 0
  {
    Coord(s[LeastIndex(s, a)], a)
  }

  /** The least coordinate is the one attained by a cell below all others. */
  lemma {:induction false} MinCoordIs(s: seq<Cell>, a: Axis, k: nat)
    requires k < |s|
    requires forall i :: 0 <= i < |s| ==> Coord(s[k], a) <= Coord(s[i], a)
    ensures MinCoord(s, a) == Coord(s[k], a)
  {
  }

  /** Inserts `c` into a strictly sorted list unless it is already there. */
  function Insert(c: Cell, s: seq<Cell>): (r: seq<Cell>)
    requires StrictlySorted(s)
    ensures StrictlySorted(r)
    ensures Elems(r) == Elems(s) + {c}
  {
    if |s| == 0 then [c]
    else if c == s[0] then s
    else if CellLess(c, s[0]) then [c] + s
    else
      var t := Insert(c, s[1..]);
      InsertBehindHead(c, s, t);
      [s[0]] + t
  }

  /** Inserting past the head keeps the head in front. */
  lemma {:induction false} InsertBehindHead(c: Cell, s: seq<Cell>, t: seq<Cell>)
    requires StrictlySorted(s) && |s| > 0 && CellLess(s[0], c)
    requires StrictlySorted(t) && Elems(t) == Elems(s[1..]) + {c}
    ensures StrictlySorted([s[0]] + t)
    ensures Elems([s[0]] + t) == Elems(s) + {c}
  {
    assert Elems(s) == {s[0]} + Elems(s[1..]) by {
      assert s == [s[0]] + s[1..];
    }
    forall k | 0 <= k < |t| ensures CellLess(s[0], t[k]) {
      assert t[k] in Elems(t);
    }
    assert Elems([s[0]] + t) == {s[0]} + Elems(t);
  }

  /** `uniq.sort`: the distinct elements of `s` in lexicographic order. */
  function SortUnique(s: seq<Cell>): (r: seq<Cell>)
    ensures StrictlySorted(r)
    ensures Elems(r) == Elems(s)
  {
    if |s| == 0 then []
    else
      var init := s[..|s| - 1];
      assert s == init + [s[|s| - 1]];
      assert Elems(s) == Elems(init) + {s[|s| - 1]};
      Insert(s[|s| - 1], SortUnique(init))
  }

  /** The shape of a normalised cell list: sorted without repeats, and
      (when nonempty) touching both axes. */
  predicate IsNormalized(s: seq<Cell>) {
    StrictlySorted(s) && (|s| > 0 ==> MinCoord(s, X) == 0 && MinCoord(s, Y) == 0)
  }

  /** If `f` is injective and `r` is `s` mapped through `f`, the two lists
      have equally many distinct elements. */
  lemma {:induction false} ImageCard(s: seq<Cell>, r: seq<Cell>, f: Cell -> Cell)
    requires |r| == |s|
    requires forall i :: 0 <= i < |s| ==> r[i] == f(s[i])
    requires forall a, b :: f(a) == f(b) ==> a == b
    ensures |Elems(r)| == |Elems(s)|
  {
    if |s| > 0 {
      var n := |s| - 1;
      ImageCard(s[..n], r[..n], f);
      ElemsSnoc(s);
      ElemsSnoc(r);
      ImageLastNew(s, r, f);
    }
  }

  /** Under an injective map, the last entry is new exactly when its image is. */
  lemma {:induction false} ImageLastNew(s: seq<Cell>, r: seq<Cell>, f: Cell -> Cell)
    requires |r| == |s| > 0
    requires forall i :: 0 <= i < |s| ==> r[i] == f(s[i])
    requires forall a, b :: f(a) == f(b) ==> a == b
    ensures s[|s| - 1] in Elems(s[..|s| - 1]) <==> r[|s| - 1] in Elems(r[..|s| - 1])
  {
    var n := |s| - 1;
    if s[n] in Elems(s[..n]) {
      var k :| 0 <= k < n && s[k] == s[n];
      assert r[..n][k] == r[n];
    }
    if r[n] in Elems(r[..n]) {
      var k :| 0 <= k < n && r[k] == r[n];
      assert f(s[k]) == f(s[n]);
      assert s[..n][k] == s[n];
    }
  }

  lemma {:induction false} TranslateCard(s: seq<Cell>, dx: int, dy: int)
    ensures |Elems(Translate(s, dx, dy))| == |Elems(s)|
  {
    ImageCard(s, Translate(s, dx, dy), (c: Cell) => (c.0 + dx, c.1 + dy));
  }

  function Offset(a: Axis, dx: int, dy: int): int {
    if a == X then dx else dy
  }

  /** The least x and least y of `s` move with a translation. */
  lemma {:induction false} MinTranslate(s: seq<Cell>, dx: int, dy: int, a: Axis)
    requires |s| > 0
    ensures MinCoord(Translate(s, dx, dy), a) == MinCoord(s, a) + Offset(a, dx, dy)
  {
    var t := Translate(s, dx, dy);
    var k := LeastIndex(s, a);
    assert forall i :: 0 <= i < |t| ==> Coord(t[i], a) == Coord(s[i], a) + Offset(a, dx, dy);
    MinCoordIs(t, a, k);
  }

  /** Two lists with the same elements have the same least coordinates. */
  lemma {:induction false} SameElemsMin(t: seq<Cell>, r: seq<Cell>, a: Axis)
    requires |t| > 0 && Elems(r) == Elems(t)
    ensures |r| > 0 && MinCoord(r, a) == MinCoord(t, a)
  {
    assert t[0] in Elems(r);
    var k := LeastIndex(t, a);
    assert t[k] in Elems(r);
    var j :| 0 <= j < |r| && r[j] == t[k];
    forall i | 0 <= i < |r| ensures Coord(r[j], a) <= Coord(r[i], a) {
      assert r[i] in Elems(t);
      var m :| 0 <= m < |t| && t[m] == r[i];
    }
    MinCoordIs(r, a, j);
  }

  lemma {:induction false} TranslateZero(s: seq<Cell>)
    ensures Translate(s, 0, 0) == s
  {
  }

  lemma {:induction false} TranslateCompose(s: seq<Cell>, a: int, b: int, c: int, d: int, e: int, f: int)
    requires a + c == e && b + d == f
    ensures Translate(Translate(s, a, b), c, d) == Translate(s, e, f)
  {
  }

  /** `cells` moved so that its least x and least y become 0. */
  function ToOrigin(cells: seq<Cell>): seq<Cell>
    requires |cells| > 0
  {
    Translate(cells, -MinCoord(cells, X), -MinCoord(cells, Y))
  }

  lemma {:induction false} ToOriginMin(cells: seq<Cell>)
    requires |cells| > 0
    ensures |ToOrigin(cells)| > 0 && MinCoord(ToOrigin(cells), X) == 0 && MinCoord(ToOrigin(cells), Y) == 0
  {
    MinTranslate(cells, -MinCoord(cells, X), -MinCoord(cells, Y), X);
    MinTranslate(cells, -MinCoord(cells, X), -MinCoord(cells, Y), Y);
  }

  /** `normalize`: translate so the least x and least y are 0, drop repeats,
      sort. An empty list stays empty. */
  function Normalize(cells: seq<Cell>): (r: seq<Cell>)
    ensures IsNormalized(r)
    ensures |r| == |Elems(cells)|
    ensures |cells| > 0 ==> Elems(r) == Elems(ToOrigin(cells))
  {
    if |cells| == 0 then []
    else
      var t := ToOrigin(cells);
      NormalizeFacts(cells, t);
      SortUnique(t)
  }

  lemma {:induction false} NormalizeFacts(cells: seq<Cell>, t: seq<Cell>)
    requires |cells| > 0 && t == ToOrigin(cells)
    ensures IsNormalized(SortUnique(t)) && |SortUnique(t)| == |Elems(cells)|
  {
    var r := SortUnique(t);
    ToOriginMin(cells);
    SameElemsMin(t, r, X);
    SameElemsMin(t, r, Y);
    TranslateCard(cells, -MinCoord(cells, X), -MinCoord(cells, Y));
    StrictlySortedDistinct(r);
    DistinctCard(r);
  }

  /** A list is left unchanged by `normalize` exactly when it is already
      normalised; in particular `normalize` is idempotent. */
  lemma {:induction false} NormalizeFixpoint(s: seq<Cell>)
    ensures Normalize(s) == s <==> IsNormalized(s)
    ensures Normalize(Normalize(s)) == Normalize(s)
  {
    if IsNormalized(s) {
      NormalizedIsFixed(s);
    }
    NormalizedIsFixed(Normalize(s));
  }

  lemma {:induction false} NormalizedIsFixed(s: seq<Cell>)
    requires IsNormalized(s)
    ensures Normalize(s) == s
  {
    if |s| > 0 {
      TranslateZero(s);
      assert ToOrigin(s) == s;
      var r := SortUnique(s);
      assert Normalize(s) == r;
      StrictlySortedUnique(r, s);
    }
  }

  /** `normalize` forgets where the shape was: every translate of a list
      normalises to the same result. */
  lemma {:induction false} NormalizeTranslate(s: seq<Cell>, dx: int, dy: int)
    ensures Normalize(Translate(s, dx, dy)) == Normalize(s)
  {
    if |s| > 0 {
      ToOriginTranslate(s, dx, dy);
    }
  }

  lemma {:induction false} ToOriginTranslate(s: seq<Cell>, dx: int, dy: int)
    requires |s| > 0
    ensures ToOrigin(Translate(s, dx, dy)) == ToOrigin(s)
  {
    var t := Translate(s, dx, dy);
    MinTranslate(s, dx, dy, X);
    MinTranslate(s, dx, dy, Y);
    TranslateCompose(s, dx, dy, -MinCoord(t, X), -MinCoord(t, Y), -MinCoord(s, X), -MinCoord(s, Y));
  }

  lemma {:induction false} TranslateElems(a: seq<Cell>, b: seq<Cell>, dx: int, dy: int)
    requires Elems(a) == Elems(b)
    ensures Elems(Translate(a, dx, dy)) == Elems(Translate(b, dx, dy))
  {
    TranslateElemsSub(a, b, dx, dy);
    TranslateElemsSub(b, a, dx, dy);
  }

  lemma {:induction false} TranslateElemsSub(a: seq<Cell>, b: seq<Cell>, dx: int, dy: int)
    requires Elems(a) <= Elems(b)
    ensures Elems(Translate(a, dx, dy)) <= Elems(Translate(b, dx, dy))
  {
    forall x | x in Elems(Translate(a, dx, dy)) ensures x in Elems(Translate(b, dx, dy)) {
      var i :| 0 <= i < |a| && Translate(a, dx, dy)[i] == x;
      assert a[i] in Elems(b);
      var j :| 0 <= j < |b| && b[j] == a[i];
      assert Translate(b, dx, dy)[j] == x;
    }
  }

  /** `normalize` depends only on the set of cells it is given. */
  lemma {:induction false} NormalizeOfElems(a: seq<Cell>, b: seq<Cell>)
    requires Elems(a) == Elems(b)
    ensures Normalize(a) == Normalize(b)
  {
    EmptyElems(a);
    EmptyElems(b);
    if |a| > 0 {
      ToOriginElems(a, b);
      SortUniqueOfElems(ToOrigin(a), ToOrigin(b));
    }
  }

  lemma {:induction false} ToOriginElems(a: seq<Cell>, b: seq<Cell>)
    requires |a| > 0 && |b| > 0 && Elems(a) == Elems(b)
    ensures Elems(ToOrigin(a)) == Elems(ToOrigin(b))
  {
    SameElemsMin(a, b, X);
    SameElemsMin(a, b, Y);
    TranslateElems(a, b, -MinCoord(a, X), -MinCoord(a, Y));
  }

  lemma {:induction false} SortUniqueOfElems(a: seq<Cell>, b: seq<Cell>)
    requires Elems(a) == Elems(b)
    ensures SortUnique(a) == SortUnique(b)
  {
    StrictlySortedUnique(SortUnique(a), SortUnique(b));
  }

  /** To show that `cells` normalises to `e`, exhibit `e` as normalised and
      `cells` as a translate of it, up to order and repeats. */
  lemma {:induction false} NormalizeAs(cells: seq<Cell>, e: seq<Cell>, dx: int, dy: int)
    requires IsNormalized(e)
    requires Elems(cells) == Elems(Translate(e, dx, dy))
    ensures Normalize(cells) == e
  {
    NormalizeOfElems(cells, Translate(e, dx, dy));
    NormalizeTranslate(e, dx, dy);
    NormalizedIsFixed(e);
  }

  /** A sorted list touching both axes inside the positive quadrant is normalised. */
  lemma {:induction false} NormalizedWitness(e: seq<Cell>, kx: nat, ky: nat)
    requires StrictlySorted(e)
    requires kx < |e| && ky < |e| && e[kx].0 == 0 && e[ky].1 == 0
    requires forall i :: 0 <= i < |e| ==> e[i].0 >= 0 && e[i].1 >= 0
    ensures IsNormalized(e)
  {
    MinCoordIs(e, X, kx);
    MinCoordIs(e, Y, ky);
  }

  /** The four rotations of `all_transforms`, counter-clockwise in 90 degree steps. */
  datatype Rotation = Rot0 | Rot90 | Rot180 | Rot270

  /** One of the eight maps: a rotation, then optionally a horizontal flip. */
  datatype Transform = Transform(rotation: Rotation, flip: bool)

  function Degrees(r: Rotation): int {
    match r
    case Rot0 => 0
    case Rot90 => 90
    case Rot180 => 180
    case Rot270 => 270
  }

  function RotateCell(r: Rotation, c: Cell): Cell {
    match r
    case Rot0 => (c.0, c.1)
    case Rot90 => (-c.1, c.0)
    case Rot180 => (-c.0, -c.1)
    case Rot270 => (c.1, -c.0)
  }

  function FlipCell(flip: bool, c: Cell): Cell {
    if flip then (-c.0, c.1) else c
  }

  /** The flip is applied to the already rotated cell. */
  function ApplyCell(t: Transform, c: Cell): Cell {
    FlipCell(t.flip, RotateCell(t.rotation, c))
  }

  /** `all_transforms`: every rotation, each without and then with the flip. */
  function AllTransforms(): (ts: seq<Transform>)
    ensures |ts| == 8 && Distinct(ts)
    ensures forall t: Transform :: t in ts
    ensures forall i :: 0 <= i < |ts| ==> Degrees(ts[i].rotation) == 90 * (i / 2) && ts[i].flip == (i % 2 == 1)
    ensures forall c :: ApplyCell(ts[0], c) == c
  {
    var ts := [Transform(Rot0, false), Transform(Rot0, true),
               Transform(Rot90, false), Transform(Rot90, true),
               Transform(Rot180, false), Transform(Rot180, true),
               Transform(Rot270, false), Transform(Rot270, true)];
    EveryTransformListed(ts);
    ts
  }

  lemma {:induction false} EveryTransformListed(ts: seq<Transform>)
    requires ts == [Transform(Rot0, false), Transform(Rot0, true),
                    Transform(Rot90, false), Transform(Rot90, true),
                    Transform(Rot180, false), Transform(Rot180, true),
                    Transform(Rot270, false), Transform(Rot270, true)]
    ensures forall t: Transform :: t in ts
  {
    forall t: Transform ensures t in ts {
      match t.rotation
      case Rot0 => assert ts[0] == t || ts[1] == t;
      case Rot90 => assert ts[2] == t || ts[3] == t;
      case Rot180 => assert ts[4] == t || ts[5] == t;
      case Rot270 => assert ts[6] == t || ts[7] == t;
    }
  }

  /** Every transform is a bijection of the integer plane whose inverse is
      again one of the eight. */
  function Inverse(t: Transform): (u: Transform)
    ensures u in AllTransforms()
    ensures forall c :: ApplyCell(u, ApplyCell(t, c)) == c
    ensures forall c :: ApplyCell(t, ApplyCell(u, c)) == c
  {
    if t.flip then t
    else
      match t.rotation
      case Rot0 => t
      case Rot90 => Transform(Rot270, false)
      case Rot180 => t
      case Rot270 => Transform(Rot90, false)
  }

  /** `apply_transform`: the transform applied to every cell, in order. */
  function ApplyTransform(cells: seq<Cell>, t: Transform): (r: seq<Cell>)
    ensures |r| == |cells|
  {
    seq(|cells|, i requires 0 <= i < |cells| => ApplyCell(t, cells[i]))
  }

  lemma {:induction false} ApplyTransformCard(cells: seq<Cell>, t: Transform)
    ensures |Elems(ApplyTransform(cells, t))| == |Elems(cells)|
  {
    var u := Inverse(t);
    forall a, b | ApplyCell(t, a) == ApplyCell(t, b) ensures a == b {
      assert ApplyCell(u, ApplyCell(t, a)) == a;
      assert ApplyCell(u, ApplyCell(t, b)) == b;
    }
    ImageCard(cells, ApplyTransform(cells, t), (c: Cell) => ApplyCell(t, c));
  }

  /** Position of the first occurrence of `x` in `s`. */
  function FirstIndex<T(==)>(s: seq<T>, x: T): (k: nat)
    requires x in s
    ensures k < |s| && s[k] == x && x !in s[..k]
  {
    if s[0] == x then 0 else 1 + FirstIndex(s[1..], x)
  }

  /** `r` lists elements of `s` in the order of their first occurrence in `s`. */
  predicate FirstOccurrenceOrder<T(==)>(s: seq<T>, r: seq<T>) {
    forall i, j :: 0 <= i < j < |r| ==> r[i] in s && r[j] in s && FirstIndex(s, r[i]) < FirstIndex(s, r[j])
  }

  /** A position holding `x` with no `x` before it is the first index. */
  lemma {:induction false} FirstIndexIs<T>(s: seq<T>, x: T, k: nat)
    requires k < |s| && s[k] == x && x !in s[..k]
    ensures FirstIndex(s, x) == k
  {
    if k > 0 {
      assert s[0] in s[..k];
      assert s[1..][..k - 1] == s[1..k];
      assert s[..k] == [s[0]] + s[1..k];
      FirstIndexIs(s[1..], x, k - 1);
    }
  }

  lemma {:induction false} FirstIndexPrefix<T>(s: seq<T>, n: nat, x: T)
    requires n <= |s| && x in s[..n]
    ensures FirstIndex(s, x) == FirstIndex(s[..n], x)
  {
    var k := FirstIndex(s[..n], x);
    assert s[..n][..k] == s[..k];
    FirstIndexIs(s, x, k);
  }

  /** The `seen`-hash loop of `compute_unique_orientations`: keeps each
      shape the first time it appears. */
  function Dedup(s: seq<seq<Cell>>): (r: seq<seq<Cell>>)
    ensures Distinct(r)
    ensures Elems(r) == Elems(s)
    ensures |r| <= |s|
    ensures |s| > 0 ==> |r| > 0 && r[0] == s[0]
    ensures FirstOccurrenceOrder(s, r)
  {
    if |s| == 0 then []
    else
      var n := |s| - 1;
      var d := Dedup(s[..n]);
      assert s == s[..n] + [s[n]];
      assert Elems(s) == Elems(s[..n]) + {s[n]};
      DedupStep(s, d);
      if s[n] in d then d else d + [s[n]]
  }

  lemma {:induction false} DedupStep(s: seq<seq<Cell>>, d: seq<seq<Cell>>)
    requires |s| > 0
    requires Elems(d) == Elems(s[..|s| - 1])
    requires FirstOccurrenceOrder(s[..|s| - 1], d)
    ensures FirstOccurrenceOrder(s, d)
    ensures s[|s| - 1] !in d ==> FirstOccurrenceOrder(s, d + [s[|s| - 1]])
  {
    var n := |s| - 1;
    forall i | 0 <= i < |d|
      ensures d[i] in s[..n] && d[i] in s && FirstIndex(s, d[i]) == FirstIndex(s[..n], d[i]) < n
    {
      assert d[i] in Elems(s[..n]);
      FirstIndexPrefix(s, n, d[i]);
    }
    if s[n] !in d {
      var e := d + [s[n]];
      assert s[n] !in Elems(s[..n]);
      assert s[n] !in s[..n];
      FirstIndexIs(s, s[n], n);
      forall i, j | 0 <= i < j < |e|
        ensures e[i] in s && e[j] in s && FirstIndex(s, e[i]) < FirstIndex(s, e[j])
      {
        if j < |d| {
          assert e[i] == d[i] && e[j] == d[j];
        } else {
          assert e[i] == d[i];
        }
      }
    }
  }

  /** The eight candidate shapes: each transform applied, then normalised. */
  function Candidates(base: seq<Cell>): (r: seq<seq<Cell>>)
    ensures |r| == 8
  {
    var ts := AllTransforms();
    seq(|ts|, i requires 0 <= i < |ts| => Normalize(ApplyTransform(base, ts[i])))
  }

  /** `compute_unique_orientations`. */
  function Orientations(base: seq<Cell>): seq<seq<Cell>> {
    Dedup(Candidates(base))
  }

  /** A named piece, as `Piece.new` receives it: a name and its cell list.
      The normalised base and the orientation list the constructor stores
      are `BaseCells` and `OrientationsOf`, computed from these two fields. */
  datatype Piece = Piece(name: string, cells: seq<Cell>)

  /** `@base_cells = normalize(base_cells)`. */
  function BaseCells(p: Piece): seq<Cell> {
    Normalize(p.cells)
  }

  /** `@orientations = compute_unique_orientations(@base_cells)`. */
  function OrientationsOf(p: Piece): seq<seq<Cell>> {
    Orientations(BaseCells(p))
  }

  /** What the constructor promises about a piece's base and orientations. */
  lemma {:induction false} PieceOrientations(p: Piece)
    ensures IsNormalized(BaseCells(p)) && |BaseCells(p)| == |Elems(p.cells)|
    ensures Distinct(OrientationsOf(p)) && |OrientationsOf(p)| <= 8
    ensures |p.cells| > 0 ==> |OrientationsOf(p)| >= 1 && OrientationsOf(p)[0] == BaseCells(p)
    ensures forall t: Transform :: Normalize(ApplyTransform(BaseCells(p), t)) in OrientationsOf(p)
    ensures forall o :: o in OrientationsOf(p) ==>
      IsNormalized(o) && |o| == |BaseCells(p)|
      && exists t: Transform :: o == Normalize(ApplyTransform(BaseCells(p), t))
  {
    var base := BaseCells(p);
    EmptyElems(p.cells);
    OrientationsStartWithBase(base);
    OrientationsAreImages(base);
  }

  /** The identity comes first, so a nonempty normalised base is its own
      first orientation. */
  lemma {:induction false} OrientationsStartWithBase(base: seq<Cell>)
    requires IsNormalized(base)
    ensures |base| > 0 ==> |Orientations(base)| >= 1 && Orientations(base)[0] == base
  {
    if |base| > 0 {
      var cs := Candidates(base);
      assert ApplyTransform(base, AllTransforms()[0]) == base;
      NormalizeFixpoint(base);
      assert cs[0] == base;
    }
  }

  /** The orientations are exactly the normalised images of the base under
      the eight transforms, and each has as many cells as the base. */
  lemma {:induction false} OrientationsAreImages(base: seq<Cell>)
    requires IsNormalized(base)
    ensures forall t: Transform :: Normalize(ApplyTransform(base, t)) in Orientations(base)
    ensures forall o :: o in Orientations(base) ==>
      IsNormalized(o) && |o| == |base| && exists t: Transform :: o == Normalize(ApplyTransform(base, t))
  {
    EveryImageIsOrientation(base);
    EveryOrientationIsImage(base);
  }

  lemma {:induction false} EveryImageIsOrientation(base: seq<Cell>)
    ensures forall t: Transform :: Normalize(ApplyTransform(base, t)) in Orientations(base)
  {
    var cs := Candidates(base);
    var os := Orientations(base);
    assert Elems(os) == Elems(cs);
    forall t: Transform ensures Normalize(ApplyTransform(base, t)) in os {
      var i := FirstIndex(AllTransforms(), t);
      assert cs[i] in Elems(cs);
    }
  }

  lemma {:induction false} EveryOrientationIsImage(base: seq<Cell>)
    requires IsNormalized(base)
    ensures forall o :: o in Orientations(base) ==>
      IsNormalized(o) && |o| == |base| && exists t: Transform :: o == Normalize(ApplyTransform(base, t))
  {
    var cs := Candidates(base);
    var os := Orientations(base);
    assert Elems(os) == Elems(cs);
    forall o | o in os
      ensures IsNormalized(o) && |o| == |base|
      ensures exists t: Transform :: o == Normalize(ApplyTransform(base, t))
    {
      assert o in Elems(cs);
      var i :| 0 <= i < 8 && cs[i] == o;
      CandidateSize(base, i);
    }
  }

  /** Every candidate is normalised and as large as a normalised base. */
  lemma {:induction false} CandidateSize(base: seq<Cell>, i: nat)
    requires IsNormalized(base) && i < 8
    ensures IsNormalized(Candidates(base)[i]) && |Candidates(base)[i]| == |base|
  {
    StrictlySortedDistinct(base);
    DistinctCard(base);
    ApplyTransformCard(base, AllTransforms()[i]);
  }

  /** The orientation count is the number of distinct candidate shapes. */
  lemma {:induction false} OrientationCount(base: seq<Cell>)
    ensures |Orientations(base)| == |Elems(Candidates(base))|
  {
    DistinctCard(Orientations(base));
  }

  /** A list whose entries all come from a repeat-free list `reps`, and which
      contains every entry of `reps`, has exactly `|reps|` distinct entries;
      `idx` names, for each entry, its representative. */
  lemma {:induction false} CountByRepresentatives(s: seq<seq<Cell>>, reps: seq<seq<Cell>>, idx: seq<nat>)
    requires Distinct(reps)
    requires |idx| == |s|
    requires forall i :: 0 <= i < |s| ==> idx[i] < |reps| && s[i] == reps[idx[i]]
    requires forall j :: 0 <= j < |reps| ==> reps[j] in s
    ensures |Elems(s)| == |reps|
  {
    forall x | x in Elems(s) ensures x in Elems(reps) {
      var i :| 0 <= i < |s| && s[i] == x;
      assert reps[idx[i]] == x;
    }
    DistinctCard(reps);
    assert Elems(s) == Elems(reps);
  }
}
