/** `validate!` ties peg `i` to domain `i`, while `partial_feasible?` only
    asks for some one-to-one matching of pegs to domains. This module
    relates the two: the first implies the second, not the converse. */
module PegMatching {
  import opened Geometry
  import opened PegRules
  import opened InteractivePegs

  /** The pegs of a well-shaped triplet as cells. */
  function PegCells(pegs: seq<seq<int>>): (r: seq<Cell>)
    requires AllPairs(pegs)
    ensures |r| == |pegs| && forall i :: 0 <= i < |pegs| ==> r[i] == AsCell(pegs[i])
  {
    seq(|pegs|, i requires 0 <= i < |pegs| => AsCell(pegs[i]))
  }

  /** Distinct pairs are distinct cells. */
  lemma {:induction false} PegCellsDistinct(pegs: seq<seq<int>>)
    requires AllPairs(pegs) && Distinct(pegs)
    ensures Distinct(PegCells(pegs))
  {
    var r := PegCells(pegs);
    forall i, j | 0 <= i < j < |r| ensures r[i] != r[j] {
      assert pegs[i] == [pegs[i][0], pegs[i][1]];
      assert pegs[j] == [pegs[j][0], pegs[j][1]];
    }
  }

  /** Every triplet `validate!` accepts is feasible for the interactive
      picker on the same board: peg `i` takes domain `i`. */
  lemma {:induction false} ValidatedPegsAreFeasible(pegs: seq<seq<int>>, n: int)
    requires Validate(pegs, n) == Accepted
    ensures AllPairs(pegs) && PartialFeasible(PegCells(pegs), n, AllowedPositions(n))
  {
    var cells := PegCells(pegs);
    PegCellsDistinct(pegs);
    forall i | 0 <= i < 3 ensures InSquare(n, cells[i]) && cells[i] in AllowedPositions(n)[i] {
      assert PegFits(pegs, AllowedPositions(n), n, i);
    }
    InOrderFeasible(cells, n);
  }

  /** Three distinct on-board cells, cell `i` in domain `i`, are feasible. */
  lemma {:induction false} InOrderFeasible(cells: seq<Cell>, n: int)
    requires |cells| == 3 && Distinct(cells)
    requires forall i :: 0 <= i < 3 ==> InSquare(n, cells[i]) && cells[i] in AllowedPositions(n)[i]
    ensures PartialFeasible(cells, n, AllowedPositions(n))
  {
    var a: seq<nat> := [0, 1, 2];
    DistinctThree(a);
    assert Assigns(cells, AllowedPositions(n), a);
    PartialFeasibleIff(cells, n, AllowedPositions(n));
  }

  /** `[[2, 2], [1, 0], [3, 1]]` puts one peg in each domain, only not in
      domain order: the picker accepts it and `validate!` rejects peg 1. */
  lemma {:induction false} FeasibleButRejected(pegs: seq<seq<int>>, n: int)
    requires |pegs| == 3 && pegs[0] == [2, 2] && pegs[1] == [1, 0] && pegs[2] == [3, 1]
    requires n >= 4
    ensures Validate(pegs, n) == Rejected(NotInDomain(1))
    ensures AllPairs(pegs) && PartialFeasible(PegCells(pegs), n, AllowedPositions(n))
  {
    assert AllPairs(pegs);
    DistinctThree(pegs);
    assert (2, 2) !in RawDomains[0];
    ValidateNamesFirstMisfit(pegs, n, 1);
    ReorderedMatches(pegs, n);
  }

  /** The matching half: pegs 1, 2, 3 take domains 1, 0, 2. */
  lemma {:induction false} ReorderedMatches(pegs: seq<seq<int>>, n: int)
    requires |pegs| == 3 && pegs[0] == [2, 2] && pegs[1] == [1, 0] && pegs[2] == [3, 1]
    requires n >= 4
    ensures AllPairs(pegs) && PartialFeasible(PegCells(pegs), n, AllowedPositions(n))
  {
    assert AllPairs(pegs);
    DistinctThree(pegs);
    PegCellsDistinct(pegs);
    var cells := PegCells(pegs);
    assert cells == [(2, 2), (1, 0), (3, 1)];
    ReorderedAssigns(cells, n);
    PartialFeasibleIff(cells, n, AllowedPositions(n));
  }

  /** Cells (2,2), (1,0), (3,1) lie in domains 1, 0, 2 on any board of side 4 or more. */
  lemma {:induction false} ReorderedAssigns(cells: seq<Cell>, n: int)
    requires cells == [(2, 2), (1, 0), (3, 1)] && n >= 4
    ensures Assigns(cells, AllowedPositions(n), [1, 0, 2])
  {
    DistinctThree([1, 0, 2]);
    ReorderedDomains(n);
  }

  lemma ReorderedDomains(n: int)
    requires n >= 4
    ensures (2, 2) in AllowedPositions(n)[1] && (1, 0) in AllowedPositions(n)[0] && (3, 1) in AllowedPositions(n)[2]
  {
    InDomain((2, 2), n, 1, 1);
    InDomain((1, 0), n, 0, 0);
    InDomain((3, 1), n, 2, 2);
  }

  /** Entry `k` of raw domain `d`, when on the board, is in domain `d`. */
  lemma {:induction false} InDomain(c: Cell, n: int, d: nat, k: nat)
    requires d < 3 && k < |RawDomains[d]| && c == RawDomains[d][k] && InSquare(n, c)
    ensures c in AllowedPositions(n)[d]
  {
  }
}
