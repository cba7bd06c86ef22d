/** The peg placement rules (`PieceSolver::PegRules`): three fixed lists of
    allowed peg cells, cut down to the board, and the validator of a peg
    triplet, which binds peg `i` to list `i`. */
module PegRules {
  import opened Geometry

  /** The three hard-coded domains, before the bounds filter. */
  const RawDomains: seq<seq<Cell>> := [
    [(1, 0), (0, 0), (0, 1), (0, 2), (0, 3), (0, 4), (0, 5)],
    [(1, 2), (2, 2), (2, 3), (2, 4), (3, 4), (4, 4), (4, 3)],
    [(1, 1), (2, 1), (3, 1), (3, 2), (3, 3), (4, 1), (4, 0), (3, 0)]
  ]

  /** `list.select { ... between?(0, n - 1) }`: the cells of `list` on an
      `n` x `n` board, in their original order. */
  function OnBoard(list: seq<Cell>, n: int): (r: seq<Cell>)
    ensures |r| <= |list|
    ensures forall c :: c in r <==> c in list && InSquare(n, c)
  {
    if |list| == 0 then []
    else if InSquare(n, list[0]) then [list[0]] + OnBoard(list[1..], n)
    else OnBoard(list[1..], n)
  }

  /** The filter keeps order: filtering a concatenation filters each part. */
  lemma {:induction false} OnBoardAppend(a: seq<Cell>, b: seq<Cell>, n: int)
    ensures OnBoard(a + b, n) == OnBoard(a, n) + OnBoard(b, n)
  {
    if |a| > 0 {
      OnBoardAppend(a[1..], b, n);
      assert (a + b)[1..] == a[1..] + b;
    } else {
      assert a + b == b;
    }
  }

  /** A list already inside the board passes the filter unchanged. */
  lemma {:induction false} OnBoardInside(list: seq<Cell>, n: int)
    requires forall i :: 0 <= i < |list| ==> InSquare(n, list[i])
    ensures OnBoard(list, n) == list
  {
    if |list| > 0 {
      OnBoardInside(list[1..], n);
      assert list == [list[0]] + list[1..];
    }
  }

  /** `allowed_positions(n)`: each raw domain filtered to the board. */
  function AllowedPositions(n: int): (r: seq<seq<Cell>>)
    ensures |r| == |RawDomains| == 3
    ensures forall i :: 0 <= i < 3 ==> r[i] == OnBoard(RawDomains[i], n)
    ensures forall i, c :: 0 <= i < 3 ==> (c in r[i] <==> c in RawDomains[i] && InSquare(n, c))
  {
    seq(|RawDomains|, i requires 0 <= i < |RawDomains| => OnBoard(RawDomains[i], n))
  }

  /** On the default 5 x 5 board only `(0, 5)` is cut, from domain 0. */
  lemma {:induction false} AllowedOnFive(n: int)
    requires n == 5
    ensures AllowedPositions(n)[0] == [(1, 0), (0, 0), (0, 1), (0, 2), (0, 3), (0, 4)]
    ensures AllowedPositions(n)[1] == RawDomains[1]
    ensures AllowedPositions(n)[2] == RawDomains[2]
    ensures (0, 5) !in AllowedPositions(n)[0]
  {
    FirstDomainOnFive(RawDomains[0], n);
    InsideDomainOnFive(RawDomains[1], n);
    InsideDomainOnFive(RawDomains[2], n);
  }

  lemma {:induction false} FirstDomainOnFive(d: seq<Cell>, n: int)
    requires d == RawDomains[0] && n == 5
    ensures OnBoard(d, n) == [(1, 0), (0, 0), (0, 1), (0, 2), (0, 3), (0, 4)]
  {
    DropLastOutside(d, [(1, 0), (0, 0), (0, 1), (0, 2), (0, 3), (0, 4)], (0, 5), n);
  }

  lemma {:induction false} DropLastOutside(d: seq<Cell>, a: seq<Cell>, x: Cell, n: int)
    requires d == a + [x] && !InSquare(n, x)
    requires forall i :: 0 <= i < |a| ==> InSquare(n, a[i])
    ensures OnBoard(d, n) == a
  {
    OnBoardAppend(a, [x], n);
    OnBoardInside(a, n);
    assert OnBoard([x], n) == [];
  }

  lemma {:induction false} InsideDomainOnFive(d: seq<Cell>, n: int)
    requires d == RawDomains[1] || d == RawDomains[2]
    requires n == 5
    ensures OnBoard(d, n) == d
  {
    OnBoardInside(d, n);
  }

  /** No cell belongs to two raw domains. */
  lemma RawDomainsDisjoint()
    ensures forall i, j :: 0 <= i < j < 3 ==> Elems(RawDomains[i]) !! Elems(RawDomains[j])
  {
    forall i, j | 0 <= i < j < 3 ensures Elems(RawDomains[i]) !! Elems(RawDomains[j]) {
      forall c | c in RawDomains[i] ensures c !in RawDomains[j] {
        DomainOf(c);
      }
    }
  }

  /** Which raw domain a cell belongs to, read off from its coordinates. */
  lemma DomainOf(c: Cell)
    ensures c in RawDomains[0] ==> c.0 == 0 || c == (1, 0)
    ensures c in RawDomains[1] ==> c.1 >= 2 && c.0 >= 1 && c != (1, 0)
    ensures c in RawDomains[2] ==> c.1 <= 3 && c.0 >= 1 && c != (1, 0) && (c.1 >= 2 ==> c.0 == 3)
    ensures c in RawDomains[1] ==> c !in RawDomains[2]
  {
  }

  /** No cell lies in two domains. */
  predicate DisjointDomains(domains: seq<seq<Cell>>) {
    forall i, j, c :: 0 <= i < j < |domains| && c in domains[i] ==> c !in domains[j]
  }

  /** The allowed positions on any board have disjoint domains. */
  lemma {:induction false} AllowedDisjoint(n: int)
    ensures DisjointDomains(AllowedPositions(n))
  {
    RawDomainsDisjoint();
    var a := AllowedPositions(n);
    forall i, j, c | 0 <= i < j < |a| && c in a[i]
      ensures c !in a[j]
    {
      assert c in Elems(RawDomains[i]);
      assert c !in Elems(RawDomains[j]);
    }
  }

  /** Why `validate!` rejects a triplet; `peg` is the 1-based peg number the
      message reports. */
  datatype PegError =
    | WrongCount
    | NotIntegerPairs
    | NotDistinct
    | OutOfBounds(peg: nat)
    | NotInDomain(peg: nat)

  datatype Verdict = Accepted | Rejected(error: PegError)

  /** A peg as given: an array that should hold exactly two integers. */
  predicate IsPair(p: seq<int>) {
    |p| == 2
  }

  function AsCell(p: seq<int>): Cell
    requires IsPair(p)
  {
    (p[0], p[1])
  }

  predicate AllPairs(pegs: seq<seq<int>>) {
    forall i :: 0 <= i < |pegs| ==> IsPair(pegs[i])
  }

  /** Peg `i` passes both per-peg checks against its own domain. */
  predicate PegFits(pegs: seq<seq<int>>, allowed: seq<seq<Cell>>, n: int, i: int)
    requires AllPairs(pegs) && 0 <= i < |pegs| && i < |allowed|
  {
    InSquare(n, AsCell(pegs[i])) && AsCell(pegs[i]) in allowed[i]
  }

  /** The `each_with_index` loop from index `i` on: the first peg to fail,
      checked for bounds before its domain. */
  function FirstMisfit(pegs: seq<seq<int>>, allowed: seq<seq<Cell>>, n: int, i: nat): (r: Option<PegError>)
    requires AllPairs(pegs) && |pegs| <= |allowed| && i <= |pegs|
    ensures r.None? <==> forall j :: i <= j < |pegs| ==> PegFits(pegs, allowed, n, j)
    ensures r.Some? ==> match r.value
      case OutOfBounds(k) =>
        i < k <= |pegs| && !InSquare(n, AsCell(pegs[k - 1]))
        && forall j :: i <= j < k - 1 ==> PegFits(pegs, allowed, n, j)
      case NotInDomain(k) =>
        i < k <= |pegs| && InSquare(n, AsCell(pegs[k - 1])) && AsCell(pegs[k - 1]) !in allowed[k - 1]
        && forall j :: i <= j < k - 1 ==> PegFits(pegs, allowed, n, j)
      case _ => false
    decreases |pegs| - i
  {
    if i == |pegs| then None
    else if !InSquare(n, AsCell(pegs[i])) then
      assert !PegFits(pegs, allowed, n, i);
      Some(OutOfBounds(i + 1))
    else if AsCell(pegs[i]) !in allowed[i] then
      assert !PegFits(pegs, allowed, n, i);
      Some(NotInDomain(i + 1))
    else FirstMisfit(pegs, allowed, n, i + 1)
  }

  /** `validate!(pegs, board_size: n)`: count, shape and distinctness are
      checked first, in that order, then each peg against its own domain. */
  function Validate(pegs: seq<seq<int>>, n: int): (r: Verdict)
    ensures r == Rejected(WrongCount) <==> |pegs| != 3
    ensures r == Rejected(NotIntegerPairs) <==> |pegs| == 3 && !AllPairs(pegs)
    ensures r == Rejected(NotDistinct) <==> |pegs| == 3 && AllPairs(pegs) && !Distinct(pegs)
    ensures r == Accepted <==>
      |pegs| == 3 && AllPairs(pegs) && Distinct(pegs)
      && forall i :: 0 <= i < 3 ==> PegFits(pegs, AllowedPositions(n), n, i)
    ensures r.Rejected? && r.error.OutOfBounds? ==>
      |pegs| == 3 && AllPairs(pegs) && Distinct(pegs) && 1 <= r.error.peg <= 3
      && !InSquare(n, AsCell(pegs[r.error.peg - 1]))
      && forall j :: 0 <= j < r.error.peg - 1 ==> PegFits(pegs, AllowedPositions(n), n, j)
    ensures r.Rejected? && r.error.NotInDomain? ==>
      |pegs| == 3 && AllPairs(pegs) && Distinct(pegs) && 1 <= r.error.peg <= 3
      && InSquare(n, AsCell(pegs[r.error.peg - 1]))
      && AsCell(pegs[r.error.peg - 1]) !in AllowedPositions(n)[r.error.peg - 1]
      && forall j :: 0 <= j < r.error.peg - 1 ==> PegFits(pegs, AllowedPositions(n), n, j)
  {
    if |pegs| != 3 then Rejected(WrongCount)
    else if !AllPairs(pegs) then Rejected(NotIntegerPairs)
    else if !Distinct(pegs) then Rejected(NotDistinct)
    else
      match FirstMisfit(pegs, AllowedPositions(n), n, 0)
      case None => Accepted
      case Some(e) => Rejected(e)
  }

  /** The rejection names the first peg that fails, and says whether it is
      off the board or only outside its domain. */
  lemma {:induction false} ValidateNamesFirstMisfit(pegs: seq<seq<int>>, n: int, k: nat)
    requires |pegs| == 3 && AllPairs(pegs) && Distinct(pegs) && 1 <= k <= 3
    requires forall j :: 0 <= j < k - 1 ==> PegFits(pegs, AllowedPositions(n), n, j)
    requires !PegFits(pegs, AllowedPositions(n), n, k - 1)
    ensures !InSquare(n, AsCell(pegs[k - 1])) ==> Validate(pegs, n) == Rejected(OutOfBounds(k))
    ensures InSquare(n, AsCell(pegs[k - 1])) ==> Validate(pegs, n) == Rejected(NotInDomain(k))
  {
    FirstMisfitIs(pegs, AllowedPositions(n), n, 0, k);
  }

  lemma {:induction false} FirstMisfitIs(pegs: seq<seq<int>>, allowed: seq<seq<Cell>>, n: int, i: nat, k: nat)
    requires AllPairs(pegs) && |pegs| <= |allowed| && i < k <= |pegs|
    requires forall j :: i <= j < k - 1 ==> PegFits(pegs, allowed, n, j)
    requires !PegFits(pegs, allowed, n, k - 1)
    ensures FirstMisfit(pegs, allowed, n, i) ==
      if !InSquare(n, AsCell(pegs[k - 1])) then Some(OutOfBounds(k)) else Some(NotInDomain(k))
    decreases k - i
  {
    if i < k - 1 {
      assert PegFits(pegs, allowed, n, i);
      FirstMisfitIs(pegs, allowed, n, i + 1, k);
    }
  }

  /** Peg `i` is cell `k` of raw domain `i` and on the board. */
  lemma {:induction false} FitsAt(pegs: seq<seq<int>>, n: int, i: nat, k: nat)
    requires AllPairs(pegs) && i < |pegs| && i < 3 && k < |RawDomains[i]|
    requires AsCell(pegs[i]) == RawDomains[i][k] && InSquare(n, RawDomains[i][k])
    ensures PegFits(pegs, AllowedPositions(n), n, i)
  {
  }

  lemma {:induction false} DistinctThree<T>(s: seq<T>)
    requires |s| == 3 && s[0] != s[1] && s[0] != s[2] && s[1] != s[2]
    ensures Distinct(s)
  {
  }

  /** `[[1, 0], [2, 2], [3, 1]]` is accepted on the 5 x 5 board, and on
      every larger one. */
  lemma {:induction false} ValidateAcceptsExample(pegs: seq<seq<int>>, n: int)
    requires |pegs| == 3 && pegs[0] == [1, 0] && pegs[1] == [2, 2] && pegs[2] == [3, 1]
    requires n >= 4
    ensures Validate(pegs, n) == Accepted
  {
    assert AllPairs(pegs);
    DistinctThree(pegs);
    FitsAt(pegs, n, 0, 0);
    FitsAt(pegs, n, 1, 1);
    FitsAt(pegs, n, 2, 2);
  }

  /** In `[[0, 0], [4, 4], [10, 10]]` the first two pegs fit and the third
      is off the board, for every board size from 5 to 10. */
  lemma {:induction false} ValidateOutOfBoundsExample(pegs: seq<seq<int>>, n: int)
    requires |pegs| == 3 && pegs[0] == [0, 0] && pegs[1] == [4, 4] && pegs[2] == [10, 10]
    requires 5 <= n <= 10
    ensures Validate(pegs, n) == Rejected(OutOfBounds(3))
  {
    assert AllPairs(pegs);
    DistinctThree(pegs);
    FitsAt(pegs, n, 0, 1);
    FitsAt(pegs, n, 1, 5);
    ValidateNamesFirstMisfit(pegs, n, 3);
  }

  /** `(2, 0)` is on the board but outside domain 0, so peg 1 fails. */
  lemma {:induction false} ValidateNotInDomainExample(pegs: seq<seq<int>>, n: int)
    requires |pegs| == 3 && pegs[0] == [2, 0] && pegs[1] == [2, 2] && pegs[2] == [3, 1]
    requires n >= 3
    ensures Validate(pegs, n) == Rejected(NotInDomain(1))
  {
    assert AllPairs(pegs);
    DistinctThree(pegs);
    assert (2, 0) !in RawDomains[0];
    ValidateNamesFirstMisfit(pegs, n, 1);
  }
}
