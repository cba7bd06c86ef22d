/** The fixed piece catalog (`PieceSolver::Pieces`): six named polyominoes
    whose registration order is the solver's search order. */
module PieceCatalog {
  import opened Geometry
  import opened PieceShape

  /** The literal `(name, cells)` pairs of `Pieces.all`, in order. */
  const Shapes: seq<(string, seq<Cell>)> := [
    ("short_l", [(0, 0), (1, 0), (0, 1)]),
    ("long_l", [(0, 0), (1, 0), (2, 0), (0, 1)]),
    ("square", [(0, 0), (1, 0), (0, 1), (1, 1)]),
    ("zig", [(1, 0), (2, 0), (0, 1), (1, 1)]),
    ("bar", [(0, 0), (0, 1), (0, 2)]),
    ("triangle", [(0, 0), (0, 1), (1, 1), (0, 2)])
  ]

  /** `Pieces.all`: one piece per literal shape, in registration order. */
  function All(): (ps: seq<Piece>)
    ensures |ps| == |Shapes|
    ensures forall i :: 0 <= i < |Shapes| ==> ps[i] == Piece(Shapes[i].0, Shapes[i].1)
  {
    seq(|Shapes|, i requires 0 <= i < |Shapes| => Piece(Shapes[i].0, Shapes[i].1))
  }

  /** Candidate `i` of `base` is `e`, shown by evaluating the transform
      (`tb`) and exhibiting it as the translate `tr` of `e`.

      The per-piece lemmas below call this once per candidate, one lemma
      per (piece, transform) pair: each call is a single concrete
      normalisation, and keeping them apart keeps every proof obligation
      small. A table-driven lemma over all 48 pairs would put all of those
      evaluations into one obligation. */
  lemma CandidateIs(base: seq<Cell>, i: nat, tb: seq<Cell>, e: seq<Cell>, tr: seq<Cell>, dx: int, dy: int, ky: nat)
    requires i < 8 && tb == ApplyTransform(base, AllTransforms()[i])
    requires StrictlySorted(e) && |e| > 0 && e[0].0 == 0 && ky < |e| && e[ky].1 == 0
    requires forall k :: 0 <= k < |e| ==> e[k].0 >= 0 && e[k].1 >= 0
    requires tr == Translate(e, dx, dy) && Elems(tb) == Elems(tr)
    ensures Candidates(base)[i] == e
  {
    NormalizedWitness(e, 0, ky);
    NormalizeAs(tb, e, dx, dy);
  }

  /** The base of catalog piece `i` is `base`: its literal cells are a
      reordering of `base`, which is normalised. */
  lemma BaseIs(i: nat, base: seq<Cell>, ky: nat)
    requires i < |Shapes| && Elems(Shapes[i].1) == Elems(base)
    requires StrictlySorted(base) && |base| > 0 && base[0].0 == 0 && ky < |base| && base[ky].1 == 0
    requires forall k :: 0 <= k < |base| ==> base[k].0 >= 0 && base[k].1 >= 0
    ensures BaseCells(All()[i]) == base
  {
    NormalizedWitness(base, 0, ky);
    TranslateZero(base);
    NormalizeAs(All()[i].cells, base, 0, 0);
  }

  /** Eight known entries determine a list of length eight. */
  lemma EightEntries(cs: seq<seq<Cell>>, a0: seq<Cell>, a1: seq<Cell>, a2: seq<Cell>, a3: seq<Cell>,
                     a4: seq<Cell>, a5: seq<Cell>, a6: seq<Cell>, a7: seq<Cell>)
    requires |cs| == 8
    requires cs[0] == a0 && cs[1] == a1 && cs[2] == a2 && cs[3] == a3
    requires cs[4] == a4 && cs[5] == a5 && cs[6] == a6 && cs[7] == a7
    ensures cs == [a0, a1, a2, a3, a4, a5, a6, a7]
  {
  }

  /** `short_l`: base [(0, 0), (0, 1), (1, 0)], 4 distinct orientations among the eight candidates. */
  lemma ShortLOrientations()
    ensures BaseCells(All()[0]) == [(0, 0), (0, 1), (1, 0)]
    ensures Candidates(BaseCells(All()[0])) == [
      [(0, 0), (0, 1), (1, 0)],
      [(0, 0), (1, 0), (1, 1)],
      [(0, 0), (1, 0), (1, 1)],
      [(0, 0), (0, 1), (1, 0)],
      [(0, 1), (1, 0), (1, 1)],
      [(0, 0), (0, 1), (1, 1)],
      [(0, 0), (0, 1), (1, 1)],
      [(0, 1), (1, 0), (1, 1)]]
    ensures |OrientationsOf(All()[0])| == 4
  {
    var base: seq<Cell> := [(0, 0), (0, 1), (1, 0)];
    ShortLBase();
    ShortLCandidates(base);
    ShortLCount(base);
  }

  lemma ShortLBase()
    ensures BaseCells(All()[0]) == [(0, 0), (0, 1), (1, 0)]
  {
    BaseIs(0, [(0, 0), (0, 1), (1, 0)], 0);
  }

  lemma ShortLCandidates(base: seq<Cell>)
    requires base == [(0, 0), (0, 1), (1, 0)]
    ensures Candidates(base) == [
      [(0, 0), (0, 1), (1, 0)],
      [(0, 0), (1, 0), (1, 1)],
      [(0, 0), (1, 0), (1, 1)],
      [(0, 0), (0, 1), (1, 0)],
      [(0, 1), (1, 0), (1, 1)],
      [(0, 0), (0, 1), (1, 1)],
      [(0, 0), (0, 1), (1, 1)],
      [(0, 1), (1, 0), (1, 1)]]
  {
    ShortLCandidate0(base);
    ShortLCandidate1(base);
    ShortLCandidate2(base);
    ShortLCandidate3(base);
    ShortLCandidate4(base);
    ShortLCandidate5(base);
    ShortLCandidate6(base);
    ShortLCandidate7(base);
    EightEntries(Candidates(base), [(0, 0), (0, 1), (1, 0)], [(0, 0), (1, 0), (1, 1)], [(0, 0), (1, 0), (1, 1)], [(0, 0), (0, 1), (1, 0)], [(0, 1), (1, 0), (1, 1)], [(0, 0), (0, 1), (1, 1)], [(0, 0), (0, 1), (1, 1)], [(0, 1), (1, 0), (1, 1)]);
  }

  lemma ShortLCandidate0(base: seq<Cell>)
    requires base == [(0, 0), (0, 1), (1, 0)]
    ensures Candidates(base)[0] == [(0, 0), (0, 1), (1, 0)]
  {
    CandidateIs(base, 0, [(0, 0), (0, 1), (1, 0)], [(0, 0), (0, 1), (1, 0)], [(0, 0), (0, 1), (1, 0)], 0, 0, 0);
  }

  lemma ShortLCandidate1(base: seq<Cell>)
    requires base == [(0, 0), (0, 1), (1, 0)]
    ensures Candidates(base)[1] == [(0, 0), (1, 0), (1, 1)]
  {
    CandidateIs(base, 1, [(0, 0), (0, 1), (-1, 0)], [(0, 0), (1, 0), (1, 1)], [(-1, 0), (0, 0), (0, 1)], -1, 0, 0);
  }

  lemma ShortLCandidate2(base: seq<Cell>)
    requires base == [(0, 0), (0, 1), (1, 0)]
    ensures Candidates(base)[2] == [(0, 0), (1, 0), (1, 1)]
  {
    CandidateIs(base, 2, [(0, 0), (-1, 0), (0, 1)], [(0, 0), (1, 0), (1, 1)], [(-1, 0), (0, 0), (0, 1)], -1, 0, 0);
  }

  lemma ShortLCandidate3(base: seq<Cell>)
    requires base == [(0, 0), (0, 1), (1, 0)]
    ensures Candidates(base)[3] == [(0, 0), (0, 1), (1, 0)]
  {
    CandidateIs(base, 3, [(0, 0), (1, 0), (0, 1)], [(0, 0), (0, 1), (1, 0)], [(0, 0), (0, 1), (1, 0)], 0, 0, 0);
  }

  lemma ShortLCandidate4(base: seq<Cell>)
    requires base == [(0, 0), (0, 1), (1, 0)]
    ensures Candidates(base)[4] == [(0, 1), (1, 0), (1, 1)]
  {
    CandidateIs(base, 4, [(0, 0), (0, -1), (-1, 0)], [(0, 1), (1, 0), (1, 1)], [(-1, 0), (0, -1), (0, 0)], -1, -1, 1);
  }

  lemma ShortLCandidate5(base: seq<Cell>)
    requires base == [(0, 0), (0, 1), (1, 0)]
    ensures Candidates(base)[5] == [(0, 0), (0, 1), (1, 1)]
  {
    CandidateIs(base, 5, [(0, 0), (0, -1), (1, 0)], [(0, 0), (0, 1), (1, 1)], [(0, -1), (0, 0), (1, 0)], 0, -1, 0);
  }

  lemma ShortLCandidate6(base: seq<Cell>)
    requires base == [(0, 0), (0, 1), (1, 0)]
    ensures Candidates(base)[6] == [(0, 0), (0, 1), (1, 1)]
  {
    CandidateIs(base, 6, [(0, 0), (1, 0), (0, -1)], [(0, 0), (0, 1), (1, 1)], [(0, -1), (0, 0), (1, 0)], 0, -1, 0);
  }

  lemma ShortLCandidate7(base: seq<Cell>)
    requires base == [(0, 0), (0, 1), (1, 0)]
    ensures Candidates(base)[7] == [(0, 1), (1, 0), (1, 1)]
  {
    CandidateIs(base, 7, [(0, 0), (-1, 0), (0, -1)], [(0, 1), (1, 0), (1, 1)], [(-1, 0), (0, -1), (0, 0)], -1, -1, 1);
  }

  lemma ShortLCount(base: seq<Cell>)
    requires Candidates(base) == [
        [(0, 0), (0, 1), (1, 0)],
        [(0, 0), (1, 0), (1, 1)],
        [(0, 0), (1, 0), (1, 1)],
        [(0, 0), (0, 1), (1, 0)],
        [(0, 1), (1, 0), (1, 1)],
        [(0, 0), (0, 1), (1, 1)],
        [(0, 0), (0, 1), (1, 1)],
        [(0, 1), (1, 0), (1, 1)]]
    ensures |Orientations(base)| == 4
  {
    OrientationCount(base);
    ShortLShapes(Candidates(base));
  }

  lemma ShortLShapes(cs: seq<seq<Cell>>)
    requires cs == [
        [(0, 0), (0, 1), (1, 0)],
        [(0, 0), (1, 0), (1, 1)],
        [(0, 0), (1, 0), (1, 1)],
        [(0, 0), (0, 1), (1, 0)],
        [(0, 1), (1, 0), (1, 1)],
        [(0, 0), (0, 1), (1, 1)],
        [(0, 0), (0, 1), (1, 1)],
        [(0, 1), (1, 0), (1, 1)]]
    ensures |Elems(cs)| == 4
  {
    CountByRepresentatives(cs, [
      [(0, 0), (0, 1), (1, 0)],
      [(0, 0), (1, 0), (1, 1)],
      [(0, 1), (1, 0), (1, 1)],
      [(0, 0), (0, 1), (1, 1)]], [0, 1, 1, 0, 2, 3, 3, 2]);
  }

  /** `long_l`: base [(0, 0), (0, 1), (1, 0), (2, 0)], 8 distinct orientations among the eight candidates. */
  lemma LongLOrientations()
    ensures BaseCells(All()[1]) == [(0, 0), (0, 1), (1, 0), (2, 0)]
    ensures Candidates(BaseCells(All()[1])) == [
      [(0, 0), (0, 1), (1, 0), (2, 0)],
      [(0, 0), (1, 0), (2, 0), (2, 1)],
      [(0, 0), (1, 0), (1, 1), (1, 2)],
      [(0, 0), (0, 1), (0, 2), (1, 0)],
      [(0, 1), (1, 1), (2, 0), (2, 1)],
      [(0, 0), (0, 1), (1, 1), (2, 1)],
      [(0, 0), (0, 1), (0, 2), (1, 2)],
      [(0, 2), (1, 0), (1, 1), (1, 2)]]
    ensures |OrientationsOf(All()[1])| == 8
  {
    var base: seq<Cell> := [(0, 0), (0, 1), (1, 0), (2, 0)];
    LongLBase();
    LongLCandidates(base);
    LongLCount(base);
  }

  lemma LongLBase()
    ensures BaseCells(All()[1]) == [(0, 0), (0, 1), (1, 0), (2, 0)]
  {
    BaseIs(1, [(0, 0), (0, 1), (1, 0), (2, 0)], 0);
  }

  lemma LongLCandidates(base: seq<Cell>)
    requires base == [(0, 0), (0, 1), (1, 0), (2, 0)]
    ensures Candidates(base) == [
      [(0, 0), (0, 1), (1, 0), (2, 0)],
      [(0, 0), (1, 0), (2, 0), (2, 1)],
      [(0, 0), (1, 0), (1, 1), (1, 2)],
      [(0, 0), (0, 1), (0, 2), (1, 0)],
      [(0, 1), (1, 1), (2, 0), (2, 1)],
      [(0, 0), (0, 1), (1, 1), (2, 1)],
      [(0, 0), (0, 1), (0, 2), (1, 2)],
      [(0, 2), (1, 0), (1, 1), (1, 2)]]
  {
    LongLCandidate0(base);
    LongLCandidate1(base);
    LongLCandidate2(base);
    LongLCandidate3(base);
    LongLCandidate4(base);
    LongLCandidate5(base);
    LongLCandidate6(base);
    LongLCandidate7(base);
    EightEntries(Candidates(base), [(0, 0), (0, 1), (1, 0), (2, 0)], [(0, 0), (1, 0), (2, 0), (2, 1)], [(0, 0), (1, 0), (1, 1), (1, 2)], [(0, 0), (0, 1), (0, 2), (1, 0)], [(0, 1), (1, 1), (2, 0), (2, 1)], [(0, 0), (0, 1), (1, 1), (2, 1)], [(0, 0), (0, 1), (0, 2), (1, 2)], [(0, 2), (1, 0), (1, 1), (1, 2)]);
  }

  lemma LongLCandidate0(base: seq<Cell>)
    requires base == [(0, 0), (0, 1), (1, 0), (2, 0)]
    ensures Candidates(base)[0] == [(0, 0), (0, 1), (1, 0), (2, 0)]
  {
    CandidateIs(base, 0, [(0, 0), (0, 1), (1, 0), (2, 0)], [(0, 0), (0, 1), (1, 0), (2, 0)], [(0, 0), (0, 1), (1, 0), (2, 0)], 0, 0, 0);
  }

  lemma LongLCandidate1(base: seq<Cell>)
    requires base == [(0, 0), (0, 1), (1, 0), (2, 0)]
    ensures Candidates(base)[1] == [(0, 0), (1, 0), (2, 0), (2, 1)]
  {
    CandidateIs(base, 1, [(0, 0), (0, 1), (-1, 0), (-2, 0)], [(0, 0), (1, 0), (2, 0), (2, 1)], [(-2, 0), (-1, 0), (0, 0), (0, 1)], -2, 0, 0);
  }

  lemma LongLCandidate2(base: seq<Cell>)
    requires base == [(0, 0), (0, 1), (1, 0), (2, 0)]
    ensures Candidates(base)[2] == [(0, 0), (1, 0), (1, 1), (1, 2)]
  {
    CandidateIs(base, 2, [(0, 0), (-1, 0), (0, 1), (0, 2)], [(0, 0), (1, 0), (1, 1), (1, 2)], [(-1, 0), (0, 0), (0, 1), (0, 2)], -1, 0, 0);
  }

  lemma LongLCandidate3(base: seq<Cell>)
    requires base == [(0, 0), (0, 1), (1, 0), (2, 0)]
    ensures Candidates(base)[3] == [(0, 0), (0, 1), (0, 2), (1, 0)]
  {
    CandidateIs(base, 3, [(0, 0), (1, 0), (0, 1), (0, 2)], [(0, 0), (0, 1), (0, 2), (1, 0)], [(0, 0), (0, 1), (0, 2), (1, 0)], 0, 0, 0);
  }

  lemma LongLCandidate4(base: seq<Cell>)
    requires base == [(0, 0), (0, 1), (1, 0), (2, 0)]
    ensures Candidates(base)[4] == [(0, 1), (1, 1), (2, 0), (2, 1)]
  {
    CandidateIs(base, 4, [(0, 0), (0, -1), (-1, 0), (-2, 0)], [(0, 1), (1, 1), (2, 0), (2, 1)], [(-2, 0), (-1, 0), (0, -1), (0, 0)], -2, -1, 2);
  }

  lemma LongLCandidate5(base: seq<Cell>)
    requires base == [(0, 0), (0, 1), (1, 0), (2, 0)]
    ensures Candidates(base)[5] == [(0, 0), (0, 1), (1, 1), (2, 1)]
  {
    CandidateIs(base, 5, [(0, 0), (0, -1), (1, 0), (2, 0)], [(0, 0), (0, 1), (1, 1), (2, 1)], [(0, -1), (0, 0), (1, 0), (2, 0)], 0, -1, 0);
  }

  lemma LongLCandidate6(base: seq<Cell>)
    requires base == [(0, 0), (0, 1), (1, 0), (2, 0)]
    ensures Candidates(base)[6] == [(0, 0), (0, 1), (0, 2), (1, 2)]
  {
    CandidateIs(base, 6, [(0, 0), (1, 0), (0, -1), (0, -2)], [(0, 0), (0, 1), (0, 2), (1, 2)], [(0, -2), (0, -1), (0, 0), (1, 0)], 0, -2, 0);
  }

  lemma LongLCandidate7(base: seq<Cell>)
    requires base == [(0, 0), (0, 1), (1, 0), (2, 0)]
    ensures Candidates(base)[7] == [(0, 2), (1, 0), (1, 1), (1, 2)]
  {
    CandidateIs(base, 7, [(0, 0), (-1, 0), (0, -1), (0, -2)], [(0, 2), (1, 0), (1, 1), (1, 2)], [(-1, 0), (0, -2), (0, -1), (0, 0)], -1, -2, 1);
  }

  lemma LongLCount(base: seq<Cell>)
    requires Candidates(base) == [
        [(0, 0), (0, 1), (1, 0), (2, 0)],
        [(0, 0), (1, 0), (2, 0), (2, 1)],
        [(0, 0), (1, 0), (1, 1), (1, 2)],
        [(0, 0), (0, 1), (0, 2), (1, 0)],
        [(0, 1), (1, 1), (2, 0), (2, 1)],
        [(0, 0), (0, 1), (1, 1), (2, 1)],
        [(0, 0), (0, 1), (0, 2), (1, 2)],
        [(0, 2), (1, 0), (1, 1), (1, 2)]]
    ensures |Orientations(base)| == 8
  {
    OrientationCount(base);
    LongLShapes(Candidates(base));
  }

  lemma LongLShapes(cs: seq<seq<Cell>>)
    requires cs == [
        [(0, 0), (0, 1), (1, 0), (2, 0)],
        [(0, 0), (1, 0), (2, 0), (2, 1)],
        [(0, 0), (1, 0), (1, 1), (1, 2)],
        [(0, 0), (0, 1), (0, 2), (1, 0)],
        [(0, 1), (1, 1), (2, 0), (2, 1)],
        [(0, 0), (0, 1), (1, 1), (2, 1)],
        [(0, 0), (0, 1), (0, 2), (1, 2)],
        [(0, 2), (1, 0), (1, 1), (1, 2)]]
    ensures |Elems(cs)| == 8
  {
    CountByRepresentatives(cs, [
      [(0, 0), (0, 1), (1, 0), (2, 0)],
      [(0, 0), (1, 0), (2, 0), (2, 1)],
      [(0, 0), (1, 0), (1, 1), (1, 2)],
      [(0, 0), (0, 1), (0, 2), (1, 0)],
      [(0, 1), (1, 1), (2, 0), (2, 1)],
      [(0, 0), (0, 1), (1, 1), (2, 1)],
      [(0, 0), (0, 1), (0, 2), (1, 2)],
      [(0, 2), (1, 0), (1, 1), (1, 2)]], [0, 1, 2, 3, 4, 5, 6, 7]);
  }

  /** `square`: base [(0, 0), (0, 1), (1, 0), (1, 1)], 1 distinct orientations among the eight candidates. */
  lemma SquareOrientations()
    ensures BaseCells(All()[2]) == [(0, 0), (0, 1), (1, 0), (1, 1)]
    ensures Candidates(BaseCells(All()[2])) == [
      [(0, 0), (0, 1), (1, 0), (1, 1)],
      [(0, 0), (0, 1), (1, 0), (1, 1)],
      [(0, 0), (0, 1), (1, 0), (1, 1)],
      [(0, 0), (0, 1), (1, 0), (1, 1)],
      [(0, 0), (0, 1), (1, 0), (1, 1)],
      [(0, 0), (0, 1), (1, 0), (1, 1)],
      [(0, 0), (0, 1), (1, 0), (1, 1)],
      [(0, 0), (0, 1), (1, 0), (1, 1)]]
    ensures |OrientationsOf(All()[2])| == 1
  {
    var base: seq<Cell> := [(0, 0), (0, 1), (1, 0), (1, 1)];
    SquareBase();
    SquareCandidates(base);
    SquareCount(base);
  }

  lemma SquareBase()
    ensures BaseCells(All()[2]) == [(0, 0), (0, 1), (1, 0), (1, 1)]
  {
    BaseIs(2, [(0, 0), (0, 1), (1, 0), (1, 1)], 0);
  }

  lemma SquareCandidates(base: seq<Cell>)
    requires base == [(0, 0), (0, 1), (1, 0), (1, 1)]
    ensures Candidates(base) == [
      [(0, 0), (0, 1), (1, 0), (1, 1)],
      [(0, 0), (0, 1), (1, 0), (1, 1)],
      [(0, 0), (0, 1), (1, 0), (1, 1)],
      [(0, 0), (0, 1), (1, 0), (1, 1)],
      [(0, 0), (0, 1), (1, 0), (1, 1)],
      [(0, 0), (0, 1), (1, 0), (1, 1)],
      [(0, 0), (0, 1), (1, 0), (1, 1)],
      [(0, 0), (0, 1), (1, 0), (1, 1)]]
  {
    SquareCandidate0(base);
    SquareCandidate1(base);
    SquareCandidate2(base);
    SquareCandidate3(base);
    SquareCandidate4(base);
    SquareCandidate5(base);
    SquareCandidate6(base);
    SquareCandidate7(base);
    EightEntries(Candidates(base), [(0, 0), (0, 1), (1, 0), (1, 1)], [(0, 0), (0, 1), (1, 0), (1, 1)], [(0, 0), (0, 1), (1, 0), (1, 1)], [(0, 0), (0, 1), (1, 0), (1, 1)], [(0, 0), (0, 1), (1, 0), (1, 1)], [(0, 0), (0, 1), (1, 0), (1, 1)], [(0, 0), (0, 1), (1, 0), (1, 1)], [(0, 0), (0, 1), (1, 0), (1, 1)]);
  }

  lemma SquareCandidate0(base: seq<Cell>)
    requires base == [(0, 0), (0, 1), (1, 0), (1, 1)]
    ensures Candidates(base)[0] == [(0, 0), (0, 1), (1, 0), (1, 1)]
  {
    CandidateIs(base, 0, [(0, 0), (0, 1), (1, 0), (1, 1)], [(0, 0), (0, 1), (1, 0), (1, 1)], [(0, 0), (0, 1), (1, 0), (1, 1)], 0, 0, 0);
  }

  lemma SquareCandidate1(base: seq<Cell>)
    requires base == [(0, 0), (0, 1), (1, 0), (1, 1)]
    ensures Candidates(base)[1] == [(0, 0), (0, 1), (1, 0), (1, 1)]
  {
    CandidateIs(base, 1, [(0, 0), (0, 1), (-1, 0), (-1, 1)], [(0, 0), (0, 1), (1, 0), (1, 1)], [(-1, 0), (-1, 1), (0, 0), (0, 1)], -1, 0, 0);
  }

  lemma SquareCandidate2(base: seq<Cell>)
    requires base == [(0, 0), (0, 1), (1, 0), (1, 1)]
    ensures Candidates(base)[2] == [(0, 0), (0, 1), (1, 0), (1, 1)]
  {
    CandidateIs(base, 2, [(0, 0), (-1, 0), (0, 1), (-1, 1)], [(0, 0), (0, 1), (1, 0), (1, 1)], [(-1, 0), (-1, 1), (0, 0), (0, 1)], -1, 0, 0);
  }

  lemma SquareCandidate3(base: seq<Cell>)
    requires base == [(0, 0), (0, 1), (1, 0), (1, 1)]
    ensures Candidates(base)[3] == [(0, 0), (0, 1), (1, 0), (1, 1)]
  {
    CandidateIs(base, 3, [(0, 0), (1, 0), (0, 1), (1, 1)], [(0, 0), (0, 1), (1, 0), (1, 1)], [(0, 0), (0, 1), (1, 0), (1, 1)], 0, 0, 0);
  }

  lemma SquareCandidate4(base: seq<Cell>)
    requires base == [(0, 0), (0, 1), (1, 0), (1, 1)]
    ensures Candidates(base)[4] == [(0, 0), (0, 1), (1, 0), (1, 1)]
  {
    CandidateIs(base, 4, [(0, 0), (0, -1), (-1, 0), (-1, -1)], [(0, 0), (0, 1), (1, 0), (1, 1)], [(-1, -1), (-1, 0), (0, -1), (0, 0)], -1, -1, 0);
  }

  lemma SquareCandidate5(base: seq<Cell>)
    requires base == [(0, 0), (0, 1), (1, 0), (1, 1)]
    ensures Candidates(base)[5] == [(0, 0), (0, 1), (1, 0), (1, 1)]
  {
    CandidateIs(base, 5, [(0, 0), (0, -1), (1, 0), (1, -1)], [(0, 0), (0, 1), (1, 0), (1, 1)], [(0, -1), (0, 0), (1, -1), (1, 0)], 0, -1, 0);
  }

  lemma SquareCandidate6(base: seq<Cell>)
    requires base == [(0, 0), (0, 1), (1, 0), (1, 1)]
    ensures Candidates(base)[6] == [(0, 0), (0, 1), (1, 0), (1, 1)]
  {
    CandidateIs(base, 6, [(0, 0), (1, 0), (0, -1), (1, -1)], [(0, 0), (0, 1), (1, 0), (1, 1)], [(0, -1), (0, 0), (1, -1), (1, 0)], 0, -1, 0);
  }

  lemma SquareCandidate7(base: seq<Cell>)
    requires base == [(0, 0), (0, 1), (1, 0), (1, 1)]
    ensures Candidates(base)[7] == [(0, 0), (0, 1), (1, 0), (1, 1)]
  {
    CandidateIs(base, 7, [(0, 0), (-1, 0), (0, -1), (-1, -1)], [(0, 0), (0, 1), (1, 0), (1, 1)], [(-1, -1), (-1, 0), (0, -1), (0, 0)], -1, -1, 0);
  }

  lemma SquareCount(base: seq<Cell>)
    requires Candidates(base) == [
        [(0, 0), (0, 1), (1, 0), (1, 1)],
        [(0, 0), (0, 1), (1, 0), (1, 1)],
        [(0, 0), (0, 1), (1, 0), (1, 1)],
        [(0, 0), (0, 1), (1, 0), (1, 1)],
        [(0, 0), (0, 1), (1, 0), (1, 1)],
        [(0, 0), (0, 1), (1, 0), (1, 1)],
        [(0, 0), (0, 1), (1, 0), (1, 1)],
        [(0, 0), (0, 1), (1, 0), (1, 1)]]
    ensures |Orientations(base)| == 1
  {
    OrientationCount(base);
    SquareShapes(Candidates(base));
  }

  lemma SquareShapes(cs: seq<seq<Cell>>)
    requires cs == [
        [(0, 0), (0, 1), (1, 0), (1, 1)],
        [(0, 0), (0, 1), (1, 0), (1, 1)],
        [(0, 0), (0, 1), (1, 0), (1, 1)],
        [(0, 0), (0, 1), (1, 0), (1, 1)],
        [(0, 0), (0, 1), (1, 0), (1, 1)],
        [(0, 0), (0, 1), (1, 0), (1, 1)],
        [(0, 0), (0, 1), (1, 0), (1, 1)],
        [(0, 0), (0, 1), (1, 0), (1, 1)]]
    ensures |Elems(cs)| == 1
  {
    CountByRepresentatives(cs, [
      [(0, 0), (0, 1), (1, 0), (1, 1)]], [0, 0, 0, 0, 0, 0, 0, 0]);
  }

  /** `zig`: base [(0, 1), (1, 0), (1, 1), (2, 0)], 4 distinct orientations among the eight candidates. */
  lemma ZigOrientations()
    ensures BaseCells(All()[3]) == [(0, 1), (1, 0), (1, 1), (2, 0)]
    ensures Candidates(BaseCells(All()[3])) == [
      [(0, 1), (1, 0), (1, 1), (2, 0)],
      [(0, 0), (1, 0), (1, 1), (2, 1)],
      [(0, 0), (0, 1), (1, 1), (1, 2)],
      [(0, 1), (0, 2), (1, 0), (1, 1)],
      [(0, 1), (1, 0), (1, 1), (2, 0)],
      [(0, 0), (1, 0), (1, 1), (2, 1)],
      [(0, 0), (0, 1), (1, 1), (1, 2)],
      [(0, 1), (0, 2), (1, 0), (1, 1)]]
    ensures |OrientationsOf(All()[3])| == 4
  {
    var base: seq<Cell> := [(0, 1), (1, 0), (1, 1), (2, 0)];
    ZigBase();
    ZigCandidates(base);
    ZigCount(base);
  }

  lemma ZigBase()
    ensures BaseCells(All()[3]) == [(0, 1), (1, 0), (1, 1), (2, 0)]
  {
    BaseIs(3, [(0, 1), (1, 0), (1, 1), (2, 0)], 1);
  }

  lemma ZigCandidates(base: seq<Cell>)
    requires base == [(0, 1), (1, 0), (1, 1), (2, 0)]
    ensures Candidates(base) == [
      [(0, 1), (1, 0), (1, 1), (2, 0)],
      [(0, 0), (1, 0), (1, 1), (2, 1)],
      [(0, 0), (0, 1), (1, 1), (1, 2)],
      [(0, 1), (0, 2), (1, 0), (1, 1)],
      [(0, 1), (1, 0), (1, 1), (2, 0)],
      [(0, 0), (1, 0), (1, 1), (2, 1)],
      [(0, 0), (0, 1), (1, 1), (1, 2)],
      [(0, 1), (0, 2), (1, 0), (1, 1)]]
  {
    ZigCandidate0(base);
    ZigCandidate1(base);
    ZigCandidate2(base);
    ZigCandidate3(base);
    ZigCandidate4(base);
    ZigCandidate5(base);
    ZigCandidate6(base);
    ZigCandidate7(base);
    EightEntries(Candidates(base), [(0, 1), (1, 0), (1, 1), (2, 0)], [(0, 0), (1, 0), (1, 1), (2, 1)], [(0, 0), (0, 1), (1, 1), (1, 2)], [(0, 1), (0, 2), (1, 0), (1, 1)], [(0, 1), (1, 0), (1, 1), (2, 0)], [(0, 0), (1, 0), (1, 1), (2, 1)], [(0, 0), (0, 1), (1, 1), (1, 2)], [(0, 1), (0, 2), (1, 0), (1, 1)]);
  }

  lemma ZigCandidate0(base: seq<Cell>)
    requires base == [(0, 1), (1, 0), (1, 1), (2, 0)]
    ensures Candidates(base)[0] == [(0, 1), (1, 0), (1, 1), (2, 0)]
  {
    CandidateIs(base, 0, [(0, 1), (1, 0), (1, 1), (2, 0)], [(0, 1), (1, 0), (1, 1), (2, 0)], [(0, 1), (1, 0), (1, 1), (2, 0)], 0, 0, 1);
  }

  lemma ZigCandidate1(base: seq<Cell>)
    requires base == [(0, 1), (1, 0), (1, 1), (2, 0)]
    ensures Candidates(base)[1] == [(0, 0), (1, 0), (1, 1), (2, 1)]
  {
    CandidateIs(base, 1, [(0, 1), (-1, 0), (-1, 1), (-2, 0)], [(0, 0), (1, 0), (1, 1), (2, 1)], [(-2, 0), (-1, 0), (-1, 1), (0, 1)], -2, 0, 0);
  }

  lemma ZigCandidate2(base: seq<Cell>)
    requires base == [(0, 1), (1, 0), (1, 1), (2, 0)]
    ensures Candidates(base)[2] == [(0, 0), (0, 1), (1, 1), (1, 2)]
  {
    CandidateIs(base, 2, [(-1, 0), (0, 1), (-1, 1), (0, 2)], [(0, 0), (0, 1), (1, 1), (1, 2)], [(-1, 0), (-1, 1), (0, 1), (0, 2)], -1, 0, 0);
  }

  lemma ZigCandidate3(base: seq<Cell>)
    requires base == [(0, 1), (1, 0), (1, 1), (2, 0)]
    ensures Candidates(base)[3] == [(0, 1), (0, 2), (1, 0), (1, 1)]
  {
    CandidateIs(base, 3, [(1, 0), (0, 1), (1, 1), (0, 2)], [(0, 1), (0, 2), (1, 0), (1, 1)], [(0, 1), (0, 2), (1, 0), (1, 1)], 0, 0, 2);
  }

  lemma ZigCandidate4(base: seq<Cell>)
    requires base == [(0, 1), (1, 0), (1, 1), (2, 0)]
    ensures Candidates(base)[4] == [(0, 1), (1, 0), (1, 1), (2, 0)]
  {
    CandidateIs(base, 4, [(0, -1), (-1, 0), (-1, -1), (-2, 0)], [(0, 1), (1, 0), (1, 1), (2, 0)], [(-2, 0), (-1, -1), (-1, 0), (0, -1)], -2, -1, 1);
  }

  lemma ZigCandidate5(base: seq<Cell>)
    requires base == [(0, 1), (1, 0), (1, 1), (2, 0)]
    ensures Candidates(base)[5] == [(0, 0), (1, 0), (1, 1), (2, 1)]
  {
    CandidateIs(base, 5, [(0, -1), (1, 0), (1, -1), (2, 0)], [(0, 0), (1, 0), (1, 1), (2, 1)], [(0, -1), (1, -1), (1, 0), (2, 0)], 0, -1, 0);
  }

  lemma ZigCandidate6(base: seq<Cell>)
    requires base == [(0, 1), (1, 0), (1, 1), (2, 0)]
    ensures Candidates(base)[6] == [(0, 0), (0, 1), (1, 1), (1, 2)]
  {
    CandidateIs(base, 6, [(1, 0), (0, -1), (1, -1), (0, -2)], [(0, 0), (0, 1), (1, 1), (1, 2)], [(0, -2), (0, -1), (1, -1), (1, 0)], 0, -2, 0);
  }

  lemma ZigCandidate7(base: seq<Cell>)
    requires base == [(0, 1), (1, 0), (1, 1), (2, 0)]
    ensures Candidates(base)[7] == [(0, 1), (0, 2), (1, 0), (1, 1)]
  {
    CandidateIs(base, 7, [(-1, 0), (0, -1), (-1, -1), (0, -2)], [(0, 1), (0, 2), (1, 0), (1, 1)], [(-1, -1), (-1, 0), (0, -2), (0, -1)], -1, -2, 2);
  }

  lemma ZigCount(base: seq<Cell>)
    requires Candidates(base) == [
        [(0, 1), (1, 0), (1, 1), (2, 0)],
        [(0, 0), (1, 0), (1, 1), (2, 1)],
        [(0, 0), (0, 1), (1, 1), (1, 2)],
        [(0, 1), (0, 2), (1, 0), (1, 1)],
        [(0, 1), (1, 0), (1, 1), (2, 0)],
        [(0, 0), (1, 0), (1, 1), (2, 1)],
        [(0, 0), (0, 1), (1, 1), (1, 2)],
        [(0, 1), (0, 2), (1, 0), (1, 1)]]
    ensures |Orientations(base)| == 4
  {
    OrientationCount(base);
    ZigShapes(Candidates(base));
  }

  lemma ZigShapes(cs: seq<seq<Cell>>)
    requires cs == [
        [(0, 1), (1, 0), (1, 1), (2, 0)],
        [(0, 0), (1, 0), (1, 1), (2, 1)],
        [(0, 0), (0, 1), (1, 1), (1, 2)],
        [(0, 1), (0, 2), (1, 0), (1, 1)],
        [(0, 1), (1, 0), (1, 1), (2, 0)],
        [(0, 0), (1, 0), (1, 1), (2, 1)],
        [(0, 0), (0, 1), (1, 1), (1, 2)],
        [(0, 1), (0, 2), (1, 0), (1, 1)]]
    ensures |Elems(cs)| == 4
  {
    CountByRepresentatives(cs, [
      [(0, 1), (1, 0), (1, 1), (2, 0)],
      [(0, 0), (1, 0), (1, 1), (2, 1)],
      [(0, 0), (0, 1), (1, 1), (1, 2)],
      [(0, 1), (0, 2), (1, 0), (1, 1)]], [0, 1, 2, 3, 0, 1, 2, 3]);
  }

  /** `bar`: base [(0, 0), (0, 1), (0, 2)], 2 distinct orientations among the eight candidates. */
  lemma BarOrientations()
    ensures BaseCells(All()[4]) == [(0, 0), (0, 1), (0, 2)]
    ensures Candidates(BaseCells(All()[4])) == [
      [(0, 0), (0, 1), (0, 2)],
      [(0, 0), (0, 1), (0, 2)],
      [(0, 0), (1, 0), (2, 0)],
      [(0, 0), (1, 0), (2, 0)],
      [(0, 0), (0, 1), (0, 2)],
      [(0, 0), (0, 1), (0, 2)],
      [(0, 0), (1, 0), (2, 0)],
      [(0, 0), (1, 0), (2, 0)]]
    ensures |OrientationsOf(All()[4])| == 2
  {
    var base: seq<Cell> := [(0, 0), (0, 1), (0, 2)];
    BarBase();
    BarCandidates(base);
    BarCount(base);
  }

  lemma BarBase()
    ensures BaseCells(All()[4]) == [(0, 0), (0, 1), (0, 2)]
  {
    BaseIs(4, [(0, 0), (0, 1), (0, 2)], 0);
  }

  lemma BarCandidates(base: seq<Cell>)
    requires base == [(0, 0), (0, 1), (0, 2)]
    ensures Candidates(base) == [
      [(0, 0), (0, 1), (0, 2)],
      [(0, 0), (0, 1), (0, 2)],
      [(0, 0), (1, 0), (2, 0)],
      [(0, 0), (1, 0), (2, 0)],
      [(0, 0), (0, 1), (0, 2)],
      [(0, 0), (0, 1), (0, 2)],
      [(0, 0), (1, 0), (2, 0)],
      [(0, 0), (1, 0), (2, 0)]]
  {
    BarCandidate0(base);
    BarCandidate1(base);
    BarCandidate2(base);
    BarCandidate3(base);
    BarCandidate4(base);
    BarCandidate5(base);
    BarCandidate6(base);
    BarCandidate7(base);
    EightEntries(Candidates(base), [(0, 0), (0, 1), (0, 2)], [(0, 0), (0, 1), (0, 2)], [(0, 0), (1, 0), (2, 0)], [(0, 0), (1, 0), (2, 0)], [(0, 0), (0, 1), (0, 2)], [(0, 0), (0, 1), (0, 2)], [(0, 0), (1, 0), (2, 0)], [(0, 0), (1, 0), (2, 0)]);
  }

  lemma BarCandidate0(base: seq<Cell>)
    requires base == [(0, 0), (0, 1), (0, 2)]
    ensures Candidates(base)[0] == [(0, 0), (0, 1), (0, 2)]
  {
    CandidateIs(base, 0, [(0, 0), (0, 1), (0, 2)], [(0, 0), (0, 1), (0, 2)], [(0, 0), (0, 1), (0, 2)], 0, 0, 0);
  }

  lemma BarCandidate1(base: seq<Cell>)
    requires base == [(0, 0), (0, 1), (0, 2)]
    ensures Candidates(base)[1] == [(0, 0), (0, 1), (0, 2)]
  {
    CandidateIs(base, 1, [(0, 0), (0, 1), (0, 2)], [(0, 0), (0, 1), (0, 2)], [(0, 0), (0, 1), (0, 2)], 0, 0, 0);
  }

  lemma BarCandidate2(base: seq<Cell>)
    requires base == [(0, 0), (0, 1), (0, 2)]
    ensures Candidates(base)[2] == [(0, 0), (1, 0), (2, 0)]
  {
    CandidateIs(base, 2, [(0, 0), (-1, 0), (-2, 0)], [(0, 0), (1, 0), (2, 0)], [(-2, 0), (-1, 0), (0, 0)], -2, 0, 0);
  }

  lemma BarCandidate3(base: seq<Cell>)
    requires base == [(0, 0), (0, 1), (0, 2)]
    ensures Candidates(base)[3] == [(0, 0), (1, 0), (2, 0)]
  {
    CandidateIs(base, 3, [(0, 0), (1, 0), (2, 0)], [(0, 0), (1, 0), (2, 0)], [(0, 0), (1, 0), (2, 0)], 0, 0, 0);
  }

  lemma BarCandidate4(base: seq<Cell>)
    requires base == [(0, 0), (0, 1), (0, 2)]
    ensures Candidates(base)[4] == [(0, 0), (0, 1), (0, 2)]
  {
    CandidateIs(base, 4, [(0, 0), (0, -1), (0, -2)], [(0, 0), (0, 1), (0, 2)], [(0, -2), (0, -1), (0, 0)], 0, -2, 0);
  }

  lemma BarCandidate5(base: seq<Cell>)
    requires base == [(0, 0), (0, 1), (0, 2)]
    ensures Candidates(base)[5] == [(0, 0), (0, 1), (0, 2)]
  {
    CandidateIs(base, 5, [(0, 0), (0, -1), (0, -2)], [(0, 0), (0, 1), (0, 2)], [(0, -2), (0, -1), (0, 0)], 0, -2, 0);
  }

  lemma BarCandidate6(base: seq<Cell>)
    requires base == [(0, 0), (0, 1), (0, 2)]
    ensures Candidates(base)[6] == [(0, 0), (1, 0), (2, 0)]
  {
    CandidateIs(base, 6, [(0, 0), (1, 0), (2, 0)], [(0, 0), (1, 0), (2, 0)], [(0, 0), (1, 0), (2, 0)], 0, 0, 0);
  }

  lemma BarCandidate7(base: seq<Cell>)
    requires base == [(0, 0), (0, 1), (0, 2)]
    ensures Candidates(base)[7] == [(0, 0), (1, 0), (2, 0)]
  {
    CandidateIs(base, 7, [(0, 0), (-1, 0), (-2, 0)], [(0, 0), (1, 0), (2, 0)], [(-2, 0), (-1, 0), (0, 0)], -2, 0, 0);
  }

  lemma BarCount(base: seq<Cell>)
    requires Candidates(base) == [
        [(0, 0), (0, 1), (0, 2)],
        [(0, 0), (0, 1), (0, 2)],
        [(0, 0), (1, 0), (2, 0)],
        [(0, 0), (1, 0), (2, 0)],
        [(0, 0), (0, 1), (0, 2)],
        [(0, 0), (0, 1), (0, 2)],
        [(0, 0), (1, 0), (2, 0)],
        [(0, 0), (1, 0), (2, 0)]]
    ensures |Orientations(base)| == 2
  {
    OrientationCount(base);
    BarShapes(Candidates(base));
  }

  lemma BarShapes(cs: seq<seq<Cell>>)
    requires cs == [
        [(0, 0), (0, 1), (0, 2)],
        [(0, 0), (0, 1), (0, 2)],
        [(0, 0), (1, 0), (2, 0)],
        [(0, 0), (1, 0), (2, 0)],
        [(0, 0), (0, 1), (0, 2)],
        [(0, 0), (0, 1), (0, 2)],
        [(0, 0), (1, 0), (2, 0)],
        [(0, 0), (1, 0), (2, 0)]]
    ensures |Elems(cs)| == 2
  {
    CountByRepresentatives(cs, [
      [(0, 0), (0, 1), (0, 2)],
      [(0, 0), (1, 0), (2, 0)]], [0, 0, 1, 1, 0, 0, 1, 1]);
  }

  /** `triangle`: base [(0, 0), (0, 1), (0, 2), (1, 1)], 4 distinct orientations among the eight candidates. */
  lemma TriangleOrientations()
    ensures BaseCells(All()[5]) == [(0, 0), (0, 1), (0, 2), (1, 1)]
    ensures Candidates(BaseCells(All()[5])) == [
      [(0, 0), (0, 1), (0, 2), (1, 1)],
      [(0, 1), (1, 0), (1, 1), (1, 2)],
      [(0, 0), (1, 0), (1, 1), (2, 0)],
      [(0, 0), (1, 0), (1, 1), (2, 0)],
      [(0, 1), (1, 0), (1, 1), (1, 2)],
      [(0, 0), (0, 1), (0, 2), (1, 1)],
      [(0, 1), (1, 0), (1, 1), (2, 1)],
      [(0, 1), (1, 0), (1, 1), (2, 1)]]
    ensures |OrientationsOf(All()[5])| == 4
  {
    var base: seq<Cell> := [(0, 0), (0, 1), (0, 2), (1, 1)];
    TriangleBase();
    TriangleCandidates(base);
    TriangleCount(base);
  }

  lemma TriangleBase()
    ensures BaseCells(All()[5]) == [(0, 0), (0, 1), (0, 2), (1, 1)]
  {
    BaseIs(5, [(0, 0), (0, 1), (0, 2), (1, 1)], 0);
  }

  lemma TriangleCandidates(base: seq<Cell>)
    requires base == [(0, 0), (0, 1), (0, 2), (1, 1)]
    ensures Candidates(base) == [
      [(0, 0), (0, 1), (0, 2), (1, 1)],
      [(0, 1), (1, 0), (1, 1), (1, 2)],
      [(0, 0), (1, 0), (1, 1), (2, 0)],
      [(0, 0), (1, 0), (1, 1), (2, 0)],
      [(0, 1), (1, 0), (1, 1), (1, 2)],
      [(0, 0), (0, 1), (0, 2), (1, 1)],
      [(0, 1), (1, 0), (1, 1), (2, 1)],
      [(0, 1), (1, 0), (1, 1), (2, 1)]]
  {
    TriangleCandidate0(base);
    TriangleCandidate1(base);
    TriangleCandidate2(base);
    TriangleCandidate3(base);
    TriangleCandidate4(base);
    TriangleCandidate5(base);
    TriangleCandidate6(base);
    TriangleCandidate7(base);
    EightEntries(Candidates(base), [(0, 0), (0, 1), (0, 2), (1, 1)], [(0, 1), (1, 0), (1, 1), (1, 2)], [(0, 0), (1, 0), (1, 1), (2, 0)], [(0, 0), (1, 0), (1, 1), (2, 0)], [(0, 1), (1, 0), (1, 1), (1, 2)], [(0, 0), (0, 1), (0, 2), (1, 1)], [(0, 1), (1, 0), (1, 1), (2, 1)], [(0, 1), (1, 0), (1, 1), (2, 1)]);
  }

  lemma TriangleCandidate0(base: seq<Cell>)
    requires base == [(0, 0), (0, 1), (0, 2), (1, 1)]
    ensures Candidates(base)[0] == [(0, 0), (0, 1), (0, 2), (1, 1)]
  {
    CandidateIs(base, 0, [(0, 0), (0, 1), (0, 2), (1, 1)], [(0, 0), (0, 1), (0, 2), (1, 1)], [(0, 0), (0, 1), (0, 2), (1, 1)], 0, 0, 0);
  }

  lemma TriangleCandidate1(base: seq<Cell>)
    requires base == [(0, 0), (0, 1), (0, 2), (1, 1)]
    ensures Candidates(base)[1] == [(0, 1), (1, 0), (1, 1), (1, 2)]
  {
    CandidateIs(base, 1, [(0, 0), (0, 1), (0, 2), (-1, 1)], [(0, 1), (1, 0), (1, 1), (1, 2)], [(-1, 1), (0, 0), (0, 1), (0, 2)], -1, 0, 1);
  }

  lemma TriangleCandidate2(base: seq<Cell>)
    requires base == [(0, 0), (0, 1), (0, 2), (1, 1)]
    ensures Candidates(base)[2] == [(0, 0), (1, 0), (1, 1), (2, 0)]
  {
    CandidateIs(base, 2, [(0, 0), (-1, 0), (-2, 0), (-1, 1)], [(0, 0), (1, 0), (1, 1), (2, 0)], [(-2, 0), (-1, 0), (-1, 1), (0, 0)], -2, 0, 0);
  }

  lemma TriangleCandidate3(base: seq<Cell>)
    requires base == [(0, 0), (0, 1), (0, 2), (1, 1)]
    ensures Candidates(base)[3] == [(0, 0), (1, 0), (1, 1), (2, 0)]
  {
    CandidateIs(base, 3, [(0, 0), (1, 0), (2, 0), (1, 1)], [(0, 0), (1, 0), (1, 1), (2, 0)], [(0, 0), (1, 0), (1, 1), (2, 0)], 0, 0, 0);
  }

  lemma TriangleCandidate4(base: seq<Cell>)
    requires base == [(0, 0), (0, 1), (0, 2), (1, 1)]
    ensures Candidates(base)[4] == [(0, 1), (1, 0), (1, 1), (1, 2)]
  {
    CandidateIs(base, 4, [(0, 0), (0, -1), (0, -2), (-1, -1)], [(0, 1), (1, 0), (1, 1), (1, 2)], [(-1, -1), (0, -2), (0, -1), (0, 0)], -1, -2, 1);
  }

  lemma TriangleCandidate5(base: seq<Cell>)
    requires base == [(0, 0), (0, 1), (0, 2), (1, 1)]
    ensures Candidates(base)[5] == [(0, 0), (0, 1), (0, 2), (1, 1)]
  {
    CandidateIs(base, 5, [(0, 0), (0, -1), (0, -2), (1, -1)], [(0, 0), (0, 1), (0, 2), (1, 1)], [(0, -2), (0, -1), (0, 0), (1, -1)], 0, -2, 0);
  }

  lemma TriangleCandidate6(base: seq<Cell>)
    requires base == [(0, 0), (0, 1), (0, 2), (1, 1)]
    ensures Candidates(base)[6] == [(0, 1), (1, 0), (1, 1), (2, 1)]
  {
    CandidateIs(base, 6, [(0, 0), (1, 0), (2, 0), (1, -1)], [(0, 1), (1, 0), (1, 1), (2, 1)], [(0, 0), (1, -1), (1, 0), (2, 0)], 0, -1, 1);
  }

  lemma TriangleCandidate7(base: seq<Cell>)
    requires base == [(0, 0), (0, 1), (0, 2), (1, 1)]
    ensures Candidates(base)[7] == [(0, 1), (1, 0), (1, 1), (2, 1)]
  {
    CandidateIs(base, 7, [(0, 0), (-1, 0), (-2, 0), (-1, -1)], [(0, 1), (1, 0), (1, 1), (2, 1)], [(-2, 0), (-1, -1), (-1, 0), (0, 0)], -2, -1, 1);
  }

  lemma TriangleCount(base: seq<Cell>)
    requires Candidates(base) == [
        [(0, 0), (0, 1), (0, 2), (1, 1)],
        [(0, 1), (1, 0), (1, 1), (1, 2)],
        [(0, 0), (1, 0), (1, 1), (2, 0)],
        [(0, 0), (1, 0), (1, 1), (2, 0)],
        [(0, 1), (1, 0), (1, 1), (1, 2)],
        [(0, 0), (0, 1), (0, 2), (1, 1)],
        [(0, 1), (1, 0), (1, 1), (2, 1)],
        [(0, 1), (1, 0), (1, 1), (2, 1)]]
    ensures |Orientations(base)| == 4
  {
    OrientationCount(base);
    TriangleShapes(Candidates(base));
  }

  lemma TriangleShapes(cs: seq<seq<Cell>>)
    requires cs == [
        [(0, 0), (0, 1), (0, 2), (1, 1)],
        [(0, 1), (1, 0), (1, 1), (1, 2)],
        [(0, 0), (1, 0), (1, 1), (2, 0)],
        [(0, 0), (1, 0), (1, 1), (2, 0)],
        [(0, 1), (1, 0), (1, 1), (1, 2)],
        [(0, 0), (0, 1), (0, 2), (1, 1)],
        [(0, 1), (1, 0), (1, 1), (2, 1)],
        [(0, 1), (1, 0), (1, 1), (2, 1)]]
    ensures |Elems(cs)| == 4
  {
    CountByRepresentatives(cs, [
      [(0, 0), (0, 1), (0, 2), (1, 1)],
      [(0, 1), (1, 0), (1, 1), (1, 2)],
      [(0, 0), (1, 0), (1, 1), (2, 0)],
      [(0, 1), (1, 0), (1, 1), (2, 1)]], [0, 1, 2, 2, 1, 0, 3, 3]);
  }

  /** The names of a list of pieces, in order. */
  function Names(ps: seq<Piece>): (r: seq<string>)
    ensures |r| == |ps| && forall i :: 0 <= i < |ps| ==> r[i] == ps[i].name
  {
    seq(|ps|, i requires 0 <= i < |ps| => ps[i].name)
  }

  /** The number of literal cells of each piece. */
  function CellCounts(ps: seq<Piece>): (r: seq<nat>)
    ensures |r| == |ps| && forall i :: 0 <= i < |ps| ==> r[i] == |ps[i].cells|
  {
    seq(|ps|, i requires 0 <= i < |ps| => |ps[i].cells|)
  }

  function Sum(s: seq<nat>): nat {
    if |s| == 0 then 0 else Sum(s[..|s| - 1]) + s[|s| - 1]
  }

  /** `Pieces.all` holds six pieces with distinct names, in registration order. */
  lemma CatalogNames()
    ensures |All()| == 6
    ensures Names(All()) == ["short_l", "long_l", "square", "zig", "bar", "triangle"]
    ensures Distinct(Names(All()))
  {
  }

  /** The six pieces have 3, 4, 4, 4, 3 and 4 cells, none repeated, so each
      base keeps every literal cell. */
  lemma CatalogCounts()
    ensures CellCounts(All()) == [3, 4, 4, 4, 3, 4]
    ensures forall i :: 0 <= i < |All()| ==> Distinct(All()[i].cells)
  {
  }

  /** The six pieces cover 22 cells, the free area of a 5 x 5 board with three pegs. */
  lemma CatalogArea()
    ensures Sum(CellCounts(All())) == 22 == 5 * 5 - 3
  {
    CatalogCounts();
    SixSizes(CellCounts(All()));
  }

  lemma SixSizes(s: seq<nat>)
    requires s == [3, 4, 4, 4, 3, 4]
    ensures Sum(s) == 22
  {
    assert Sum(s[..1]) == 3 by { assert s[..1][..0] == []; }
    assert Sum(s[..2]) == 7 by { assert s[..2][..1] == s[..1]; }
    assert Sum(s[..3]) == 11 by { assert s[..3][..2] == s[..2]; }
    assert Sum(s[..4]) == 15 by { assert s[..4][..3] == s[..3]; }
    assert Sum(s[..5]) == 18 by { assert s[..5][..4] == s[..4]; }
    assert s[..6] == s && s[..6][..5] == s[..5];
  }

  /** `Pieces.by_name` (`to_h`): each name maps to a piece of that name; a
      later piece with a repeated name replaces an earlier one. */
  function ByName(ps: seq<Piece>): (m: map<string, Piece>)
    ensures m.Keys == Elems(Names(ps))
    ensures forall k :: k in m ==> m[k].name == k
    ensures |ps| > 0 ==> m[ps[|ps| - 1].name] == ps[|ps| - 1]
  {
    if |ps| == 0 then map[]
    else
      var n := |ps| - 1;
      var m := ByName(ps[..n]);
      assert Elems(Names(ps)) == Elems(Names(ps[..n])) + {ps[n].name} by {
        assert Names(ps) == Names(ps[..n]) + [ps[n].name];
      }
      m[ps[n].name := ps[n]]
  }

  /** On a repeated name the last piece wins: every piece that no later
      piece shares a name with is what `by_name` returns for its name. */
  lemma {:induction false} ByNameLastWins(ps: seq<Piece>, i: nat)
    requires i < |ps| && LastOfName(ps, i)
    ensures ByName(ps)[ps[i].name] == ps[i]
  {
    var n := |ps| - 1;
    if i < n {
      var pre := ps[..n];
      assert pre[i] == ps[i];
      assert ps[i].name != ps[n].name;
      assert LastOfName(pre, i);
      ByNameLastWins(pre, i);
      ByNameSnoc(ps);
    }
  }

  /** `to_h` adds the final pair on top of the table of the earlier ones. */
  lemma ByNameSnoc(ps: seq<Piece>)
    requires |ps| > 0
    ensures ByName(ps) == ByName(ps[..|ps| - 1])[ps[|ps| - 1].name := ps[|ps| - 1]]
  {
  }

  /** No later piece of `ps` shares the name of piece `i`. */
  predicate LastOfName(ps: seq<Piece>, i: nat)
    requires i < |ps|
  {
    forall j :: i < j < |ps| ==> ps[j].name != ps[i].name
  }

  /** With distinct names, `by_name` finds every piece under its own name. */
  lemma {:induction false} ByNameFindsEach(ps: seq<Piece>, i: nat)
    requires Distinct(Names(ps)) && i < |ps|
    ensures ps[i].name in ByName(ps) && ByName(ps)[ps[i].name] == ps[i]
  {
    assert Names(ps)[i] == ps[i].name;
    assert LastOfName(ps, i) by {
      forall j | i < j < |ps| ensures ps[j].name != ps[i].name {
        assert Names(ps)[j] == ps[j].name;
      }
    }
    ByNameLastWins(ps, i);
  }

  /** With distinct names, the table has one key per piece. */
  lemma {:induction false} ByNameOfDistinct(ps: seq<Piece>)
    requires Distinct(Names(ps))
    ensures ByName(ps).Keys == Elems(Names(ps)) && |ByName(ps)| == |ps|
    ensures forall i :: 0 <= i < |ps| ==> ByName(ps)[ps[i].name] == ps[i]
  {
    DistinctCard(Names(ps));
    forall i | 0 <= i < |ps| ensures ps[i].name in ByName(ps) && ByName(ps)[ps[i].name] == ps[i] {
      ByNameFindsEach(ps, i);
    }
  }

  /** The catalog's name table has exactly the six names, each to its piece. */
  lemma CatalogByName()
    ensures ByName(All()).Keys == {"short_l", "long_l", "square", "zig", "bar", "triangle"}
    ensures |ByName(All())| == 6
    ensures forall i :: 0 <= i < |All()| ==> ByName(All())[All()[i].name] == All()[i]
  {
    CatalogNames();
    ByNameOfDistinct(All());
    NameSet(Names(All()));
  }

  lemma NameSet(s: seq<string>)
    requires s == ["short_l", "long_l", "square", "zig", "bar", "triangle"]
    ensures Elems(s) == {"short_l", "long_l", "square", "zig", "bar", "triangle"}
  {
    assert s[0] == "short_l" && s[1] == "long_l" && s[2] == "square";
    assert s[3] == "zig" && s[4] == "bar" && s[5] == "triangle";
  }
}
