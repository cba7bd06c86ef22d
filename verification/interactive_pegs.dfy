/** The pure part of interactive peg entry (`PieceSolver::InteractivePegs`):
    a cursor clamped to the board, a peg list edited by toggle and undo, the
    "one peg per domain" feasibility test that guards every new peg, and the
    domain lookups behind the highlighting. */
module InteractivePegs {
  import opened Geometry
  import opened PegRules

  /** The session: board side, the peg domains, the pegs placed so far (in
      placement order) and the cursor. */
  datatype State = State(boardSize: int, domains: seq<seq<Cell>>, pegs: seq<Cell>, cursor: Cell)

  /** `InteractivePegs.new(board_size:, domains:)`: no pegs, cursor at the corner. */
  function Start(boardSize: int, domains: seq<seq<Cell>>): (s: State)
    ensures s.pegs == [] && s.cursor == (0, 0)
    ensures s.boardSize == boardSize && s.domains == domains
  {
    State(boardSize, domains, [], (0, 0))
  }

  /** The default domains are those of the 5 x 5 board, whatever the size. */
  function StartWithDefaultDomains(boardSize: int): (s: State)
    ensures s == Start(boardSize, AllowedPositions(5))
  {
    Start(boardSize, AllowedPositions(5))
  }

  /** `[[v, 0].max, n - 1].min`. */
  function Clamp(v: int, n: int): (r: int)
    ensures n >= 1 ==> 0 <= r <= n - 1
    ensures n >= 1 ==> Nearest(r, v, n)
  {
    var lo := if v > 0 then v else 0;
    if lo < n - 1 then lo else n - 1
  }

  /** No coordinate of an `n`-cell axis is closer to `v` than `r`. */
  predicate Nearest(r: int, v: int, n: int) {
    forall w :: 0 <= w <= n - 1 ==> Dist(r, v) <= Dist(w, v)
  }

  /** The nearest coordinate is unique, so `Clamp` and `Move` are pinned
      down by their contracts. */
  lemma NearestUnique(r1: int, r2: int, v: int, n: int)
    requires 0 <= r1 <= n - 1 && 0 <= r2 <= n - 1
    requires Nearest(r1, v, n) && Nearest(r2, v, n)
    ensures r1 == r2
  {
    if 0 <= v <= n - 1 {
      assert Dist(r1, v) <= Dist(v, v);
    }
    assert Dist(r1, v) <= Dist(r2, v) && Dist(r2, v) <= Dist(r1, v);
  }

  function Dist(a: int, b: int): nat {
    if a >= b then a - b else b - a
  }

  /** `move(dx, dy)`: each coordinate moves and is clamped to the board. */
  function Move(s: State, dx: int, dy: int): (r: State)
    ensures r.pegs == s.pegs && r.boardSize == s.boardSize && r.domains == s.domains
    ensures s.boardSize >= 1 ==> InSquare(s.boardSize, r.cursor)
    ensures InSquare(s.boardSize, (s.cursor.0 + dx, s.cursor.1 + dy)) ==> r.cursor == (s.cursor.0 + dx, s.cursor.1 + dy)
    ensures s.boardSize >= 1 ==>
      Nearest(r.cursor.0, s.cursor.0 + dx, s.boardSize) && Nearest(r.cursor.1, s.cursor.1 + dy, s.boardSize)
  {
    s.(cursor := (Clamp(s.cursor.0 + dx, s.boardSize), Clamp(s.cursor.1 + dy, s.boardSize)))
  }

  /** `Array#delete`: every occurrence of `x` removed, order kept. */
  function RemoveAll(s: seq<Cell>, x: Cell): (r: seq<Cell>)
    ensures Elems(r) == Elems(s) - {x}
    ensures multiset(r) == multiset(s)[x := 0]
    ensures |r| <= |s|
  {
    if |s| == 0 then []
    else
      var t := RemoveAll(s[1..], x);
      assert s == [s[0]] + s[1..];
      ElemsCons(s[0], s[1..]);
      ElemsCons(s[0], t);
      if s[0] == x then t else [s[0]] + t
  }

  /** Removal works entry by entry, so the survivors keep their order. */
  lemma {:induction false} RemoveAllAppend(a: seq<Cell>, b: seq<Cell>, x: Cell)
    ensures RemoveAll(a + b, x) == RemoveAll(a, x) + RemoveAll(b, x)
  {
    if |a| > 0 {
      assert (a + b)[1..] == a[1..] + b;
      RemoveAllAppend(a[1..], b, x);
    } else {
      assert a + b == b;
    }
  }

  /** In a list without repeats, removing `x` removes the one entry holding it. */
  lemma {:induction false} RemoveAllOnce(s: seq<Cell>, j: nat)
    requires Distinct(s) && j < |s|
    ensures RemoveAll(s, s[j]) == s[..j] + s[j + 1..]
  {
    var x, pre, post := s[j], s[..j], s[j + 1..];
    assert s == pre + ([x] + post);
    RemoveAllAppend(pre, [x] + post, x);
    assert x !in pre;
    NotInRemoveAll(pre, x);
    assert x !in post;
    NotInRemoveAll(post, x);
    assert ([x] + post)[1..] == post;
  }

  /** Removing a peg that is present from a list without repeats deletes
      the entry holding it and keeps the others in order. */
  lemma RemoveFound(s: seq<Cell>, x: Cell)
    requires x in s
    ensures Distinct(s) ==>
      exists j :: 0 <= j < |s| && s[j] == x && RemoveAll(s, x) == s[..j] + s[j + 1..]
  {
    if Distinct(s) {
      var j :| 0 <= j < |s| && s[j] == x;
      RemoveAllOnce(s, j);
    }
  }

  lemma {:induction false} NotInRemoveAll(s: seq<Cell>, x: Cell)
    requires x !in s
    ensures RemoveAll(s, x) == s
  {
    if |s| > 0 {
      NotInRemoveAll(s[1..], x);
      assert s == [s[0]] + s[1..];
    }
  }

  /** `allowed.each_index.select { |i| allowed[i].include?(c) }`, from index `i` on. */
  function OptionsFrom(domains: seq<seq<Cell>>, c: Cell, i: nat): (r: seq<nat>)
    requires i <= |domains|
    ensures forall d :: d in r <==> i <= d < |domains| && c in domains[d]
    decreases |domains| - i
  {
    if i == |domains| then []
    else if c in domains[i] then [i] + OptionsFrom(domains, c, i + 1)
    else OptionsFrom(domains, c, i + 1)
  }

  /** The indices of the domains holding `c`, in increasing order. */
  function Options(domains: seq<seq<Cell>>, c: Cell): seq<nat> {
    OptionsFrom(domains, c, 0)
  }

  /** `[0, 1, 2].permutation(k)`, as a set: every way to pick `k` distinct
      values from `avail` in order. */
  function Arrangements(avail: set<nat>, k: nat): set<seq<nat>>
    decreases k
  {
    if k == 0 then {[]}
    else set d, q | d in avail && q in Arrangements(avail - {d}, k - 1) :: [d] + q
  }

  /** The arrangements are exactly the repeat-free lists of length `k` drawn
      from `avail`. */
  lemma {:induction false} ArrangementsAre(avail: set<nat>, k: nat, p: seq<nat>)
    ensures p in Arrangements(avail, k) <==> |p| == k && Distinct(p) && Elems(p) <= avail
  {
    if p in Arrangements(avail, k) {
      ArrangementIsDistinct(avail, k, p);
    }
    if |p| == k && Distinct(p) && Elems(p) <= avail {
      DistinctIsArrangement(avail, k, p);
    }
  }

  lemma {:induction false} ArrangementIsDistinct(avail: set<nat>, k: nat, p: seq<nat>)
    requires p in Arrangements(avail, k)
    ensures |p| == k && Distinct(p) && Elems(p) <= avail
    decreases k
  {
    if k > 0 {
      var d, q :| d in avail && q in Arrangements(avail - {d}, k - 1) && p == [d] + q;
      ArrangementIsDistinct(avail - {d}, k - 1, q);
      ElemsCons(d, q);
      DistinctCons(d, q);
    }
  }

  lemma {:induction false} DistinctIsArrangement(avail: set<nat>, k: nat, p: seq<nat>)
    requires |p| == k && Distinct(p) && Elems(p) <= avail
    ensures p in Arrangements(avail, k)
    decreases k
  {
    if k > 0 {
      var q := p[1..];
      assert p == [p[0]] + q;
      ElemsCons(p[0], q);
      DistinctCons(p[0], q);
      DistinctIsArrangement(avail - {p[0]}, k - 1, q);
    } else {
      assert p == [];
    }
  }

  /** Peg `i` may take domain `perm[i]` for every `i`. */
  predicate FitsDomains(pegs: seq<Cell>, domains: seq<seq<Cell>>, perm: seq<nat>) {
    |perm| == |pegs| && forall i :: 0 <= i < |pegs| ==> perm[i] in Options(domains, pegs[i])
  }

  /** `partial_feasible?(pegs)`: no repeats, all on the board, each peg in
      some domain, and some arrangement of the domain indices 0, 1, 2 puts
      every peg in its own domain. */
  predicate PartialFeasible(pegs: seq<Cell>, n: int, domains: seq<seq<Cell>>) {
    Distinct(pegs)
    && (forall i :: 0 <= i < |pegs| ==> InSquare(n, pegs[i]))
    && (forall i :: 0 <= i < |pegs| ==> |Options(domains, pegs[i])| > 0)
    && exists perm | perm in Arrangements({0, 1, 2}, |pegs|) :: FitsDomains(pegs, domains, perm)
  }

  /** `a` gives each peg its own domain among the first three. */
  predicate Assigns(pegs: seq<Cell>, domains: seq<seq<Cell>>, a: seq<nat>) {
    |a| == |pegs| && Distinct(a)
    && forall i :: 0 <= i < |a| ==> a[i] < 3 && a[i] < |domains| && pegs[i] in domains[a[i]]
  }

  /** Feasibility is exactly: no repeats, all on the board, and a matching of
      pegs to distinct domains. The separate "some domain" test is implied. */
  lemma {:induction false} PartialFeasibleIff(pegs: seq<Cell>, n: int, domains: seq<seq<Cell>>)
    ensures PartialFeasible(pegs, n, domains) <==>
      Distinct(pegs) && (forall i :: 0 <= i < |pegs| ==> InSquare(n, pegs[i]))
      && exists a: seq<nat> :: Assigns(pegs, domains, a)
  {
    if PartialFeasible(pegs, n, domains) {
      var perm :| perm in Arrangements({0, 1, 2}, |pegs|) && FitsDomains(pegs, domains, perm);
      ArrangementsAre({0, 1, 2}, |pegs|, perm);
      forall i | 0 <= i < |perm|
        ensures perm[i] < 3 && perm[i] < |domains| && pegs[i] in domains[perm[i]]
      {
        assert perm[i] in Elems(perm);
      }
      assert Assigns(pegs, domains, perm);
    }
    if Distinct(pegs) && (forall i :: 0 <= i < |pegs| ==> InSquare(n, pegs[i]))
       && exists a: seq<nat> :: Assigns(pegs, domains, a) {
      var a: seq<nat> :| Assigns(pegs, domains, a);
      forall x | x in Elems(a) ensures x in {0, 1, 2} {
        var i :| 0 <= i < |a| && a[i] == x;
      }
      ArrangementsAre({0, 1, 2}, |pegs|, a);
      forall i | 0 <= i < |pegs| ensures |Options(domains, pegs[i])| > 0 {
        assert a[i] in Options(domains, pegs[i]);
      }
      assert FitsDomains(pegs, domains, a);
    }
  }

  /** No pegs is always feasible; more than three never is. */
  lemma {:induction false} FeasibleSizes(pegs: seq<Cell>, n: int, domains: seq<seq<Cell>>)
    ensures PartialFeasible([], n, domains)
    ensures PartialFeasible(pegs, n, domains) ==> |pegs| <= 3
  {
    assert Assigns([], domains, []);
    PartialFeasibleIff([], n, domains);
    if PartialFeasible(pegs, n, domains) {
      PartialFeasibleIff(pegs, n, domains);
      var a: seq<nat> :| Assigns(pegs, domains, a);
      DistinctCard(a);
      assert Elems(a) <= {0, 1, 2} by {
        forall x | x in Elems(a) ensures x in {0, 1, 2} {
          var i :| 0 <= i < |a| && a[i] == x;
        }
      }
      SubsetCard(Elems(a), {0, 1, 2});
    }
  }

  lemma SubsetCard(a: set<nat>, b: set<nat>)
    requires a <= b
    ensures |a| <= |b|
  {
    if a != {} {
      var x :| x in a;
      SubsetCard(a - {x}, b - {x});
    }
  }

  /** Dropping one peg keeps a feasible list feasible. */
  lemma {:induction false} FeasibleDrop(pegs: seq<Cell>, n: int, domains: seq<seq<Cell>>, j: nat)
    requires PartialFeasible(pegs, n, domains) && j < |pegs|
    ensures PartialFeasible(pegs[..j] + pegs[j + 1..], n, domains)
  {
    PartialFeasibleIff(pegs, n, domains);
    var a: seq<nat> :| Assigns(pegs, domains, a);
    var q := pegs[..j] + pegs[j + 1..];
    var b := a[..j] + a[j + 1..];
    forall i | 0 <= i < |q| ensures q[i] == pegs[Skip(i, j)] && b[i] == a[Skip(i, j)] {
    }
    assert Distinct(q) by {
      forall i, k | 0 <= i < k < |q| ensures q[i] != q[k] {
        assert Skip(i, j) < Skip(k, j);
      }
    }
    assert Distinct(b) by {
      forall i, k | 0 <= i < k < |b| ensures b[i] != b[k] {
        assert Skip(i, j) < Skip(k, j);
      }
    }
    assert Assigns(q, domains, b);
    PartialFeasibleIff(q, n, domains);
  }

  /** Position `i` of a list with entry `j` removed comes from position `Skip(i, j)`. */
  function Skip(i: nat, j: nat): nat {
    if i < j then i else i + 1
  }

  /** Keyboard events after `read_key`; `Other` is a key `handle_key` ignores. */
  datatype Event = Up | Down | Left | Right | Place | Undo | Quit | Other

  /** `toggle_place`: a peg under the cursor is removed; otherwise the cursor
      is added when the enlarged list stays feasible. */
  function Toggle(s: State): (r: State)
    ensures r.cursor == s.cursor && r.boardSize == s.boardSize && r.domains == s.domains
    ensures s.cursor in s.pegs ==> Elems(r.pegs) == Elems(s.pegs) - {s.cursor}
    ensures s.cursor in s.pegs ==> multiset(r.pegs) == multiset(s.pegs)[s.cursor := 0]
    ensures s.cursor in s.pegs && Distinct(s.pegs) ==>
      exists j :: 0 <= j < |s.pegs| && s.pegs[j] == s.cursor && r.pegs == s.pegs[..j] + s.pegs[j + 1..]
    ensures s.cursor !in s.pegs && PartialFeasible(s.pegs + [s.cursor], s.boardSize, s.domains) ==>
      r.pegs == s.pegs + [s.cursor]
    ensures s.cursor !in s.pegs && !PartialFeasible(s.pegs + [s.cursor], s.boardSize, s.domains) ==>
      r.pegs == s.pegs
  {
    if s.cursor in s.pegs then
      RemoveFound(s.pegs, s.cursor);
      s.(pegs := RemoveAll(s.pegs, s.cursor))
    else if PartialFeasible(s.pegs + [s.cursor], s.boardSize, s.domains) then s.(pegs := s.pegs + [s.cursor])
    else s
  }

  /** `undo`: `pop` drops the last peg; on an empty list it does nothing. */
  function UndoLast(s: State): (r: State)
    ensures r.cursor == s.cursor && r.boardSize == s.boardSize && r.domains == s.domains
    ensures |s.pegs| > 0 ==> r.pegs + [s.pegs[|s.pegs| - 1]] == s.pegs
    ensures |s.pegs| == 0 ==> r == s
  {
    if |s.pegs| == 0 then s else s.(pegs := s.pegs[..|s.pegs| - 1])
  }

  /** `handle_key` for every event but `Quit`, which aborts the program. */
  function Step(s: State, e: Event): State
    requires e != Quit
  {
    match e
    case Up => Move(s, 0, -1)
    case Down => Move(s, 0, 1)
    case Left => Move(s, -1, 0)
    case Right => Move(s, 1, 0)
    case Place => Toggle(s)
    case Undo => UndoLast(s)
    case Other => s
  }

  /** The invariant of the session: the pegs placed so far are feasible. */
  predicate Feasible(s: State) {
    PartialFeasible(s.pegs, s.boardSize, s.domains)
  }

  /** Every handled event keeps the pegs feasible. */
  lemma {:induction false} StepKeepsFeasible(s: State, e: Event)
    requires e != Quit && Feasible(s)
    ensures Feasible(Step(s, e))
  {
    match e
    case Place =>
      if s.cursor in s.pegs {
        var j :| 0 <= j < |s.pegs| && s.pegs[j] == s.cursor;
        RemoveAllOnce(s.pegs, j);
        FeasibleDrop(s.pegs, s.boardSize, s.domains, j);
      }
    case Undo =>
      if |s.pegs| > 0 {
        var j := |s.pegs| - 1;
        assert s.pegs[..j] + s.pegs[j + 1..] == s.pegs[..j];
        FeasibleDrop(s.pegs, s.boardSize, s.domains, j);
      }
    case _ =>
  }

  /** How the `run` loop ends: with the placed pegs, aborted by `Quit`, or
      still waiting for keys when the input runs out. */
  datatype Outcome = Finished(pegs: seq<Cell>) | Aborted | Waiting(state: State)

  /** `run` without the terminal: handle events while fewer than three pegs
      are placed. */
  function Run(s: State, events: seq<Event>): Outcome
    decreases |events|
  {
    if |s.pegs| >= 3 then Finished(s.pegs)
    else if |events| == 0 then Waiting(s)
    else if events[0] == Quit then Aborted
    else Run(Step(s, events[0]), events[1..])
  }

  /** From a feasible start (for instance no pegs), a finished session
      returns exactly three feasible pegs, and a waiting one is still
      feasible. */
  lemma {:induction false} RunKeepsFeasible(s: State, events: seq<Event>)
    requires Feasible(s)
    ensures Run(s, events).Finished? ==>
      |Run(s, events).pegs| == 3 && PartialFeasible(Run(s, events).pegs, s.boardSize, s.domains)
    ensures Run(s, events).Waiting? ==>
      Feasible(Run(s, events).state) && |Run(s, events).state.pegs| < 3
      && Run(s, events).state.boardSize == s.boardSize && Run(s, events).state.domains == s.domains
    decreases |events|
  {
    if |s.pegs| >= 3 {
      FeasibleSizes(s.pegs, s.boardSize, s.domains);
    } else if |events| > 0 && events[0] != Quit {
      StepKeepsFeasible(s, events[0]);
      RunKeepsFeasible(Step(s, events[0]), events[1..]);
    }
  }

  /** `allowed.each_index.find { |i| allowed[i].include?(c) }`, from index `i` on. */
  function FirstDomainFrom(domains: seq<seq<Cell>>, c: Cell, i: nat): (r: Option<nat>)
    requires i <= |domains|
    ensures r.Some? ==> (i <= r.value < |domains| && c in domains[r.value]
      && forall j :: i <= j < r.value ==> c !in domains[j])
    ensures r.None? <==> forall j :: i <= j < |domains| ==> c !in domains[j]
    decreases |domains| - i
  {
    if i == |domains| then None
    else if c in domains[i] then Some(i)
    else FirstDomainFrom(domains, c, i + 1)
  }

  /** The least index of a domain holding `c`, if any. */
  function FirstDomain(domains: seq<seq<Cell>>, c: Cell): (r: Option<nat>)
    ensures r.Some? ==> (r.value < |domains| && c in domains[r.value]
      && forall j :: 0 <= j < r.value ==> c !in domains[j])
    ensures r.None? <==> forall j :: 0 <= j < |domains| ==> c !in domains[j]
  {
    FirstDomainFrom(domains, c, 0)
  }

  /** `used_domain_indices(pegs)`: the first domain of each peg that has one,
      in peg order. */
  function UsedDomainIndices(pegs: seq<Cell>, domains: seq<seq<Cell>>): (r: seq<nat>)
    ensures |r| <= |pegs|
    ensures forall k :: 0 <= k < |r| ==> r[k] < |domains|
    decreases |pegs|
  {
    if |pegs| == 0 then []
    else
      var rest := UsedDomainIndices(pegs[..|pegs| - 1], domains);
      match FirstDomain(domains, pegs[|pegs| - 1])
      case Some(i) => rest + [i]
      case None => rest
  }

  /** When every peg lies in some domain, the result has one entry per peg:
      the first domain holding it. */
  lemma {:induction false} UsedIndicesAreFirst(pegs: seq<Cell>, domains: seq<seq<Cell>>)
    requires forall j :: 0 <= j < |pegs| ==> FirstDomain(domains, pegs[j]).Some?
    ensures |UsedDomainIndices(pegs, domains)| == |pegs|
    ensures forall j :: 0 <= j < |pegs| ==> UsedDomainIndices(pegs, domains)[j] == FirstDomain(domains, pegs[j]).value
    decreases |pegs|
  {
    if |pegs| > 0 {
      var n := |pegs| - 1;
      var pre := pegs[..n];
      assert forall j :: 0 <= j < n ==> pre[j] == pegs[j];
      UsedIndicesAreFirst(pre, domains);
    }
  }

  /** With disjoint domains, the greedy lookup of a feasible peg list is the
      matching itself: one distinct domain per peg, each holding its peg. */
  lemma {:induction false} UsedDomainsMatch(pegs: seq<Cell>, n: int, domains: seq<seq<Cell>>)
    requires DisjointDomains(domains) && PartialFeasible(pegs, n, domains)
    ensures Assigns(pegs, domains, UsedDomainIndices(pegs, domains))
  {
    PartialFeasibleIff(pegs, n, domains);
    var a: seq<nat> :| Assigns(pegs, domains, a);
    UsedIsAssignment(pegs, domains, a);
  }

  lemma {:induction false} UsedIsAssignment(pegs: seq<Cell>, domains: seq<seq<Cell>>, a: seq<nat>)
    requires DisjointDomains(domains) && Assigns(pegs, domains, a)
    ensures UsedDomainIndices(pegs, domains) == a
    decreases |pegs|
  {
    if |pegs| > 0 {
      var n := |pegs| - 1;
      assert Assigns(pegs[..n], domains, a[..n]);
      UsedIsAssignment(pegs[..n], domains, a[..n]);
      var f := FirstDomain(domains, pegs[n]);
      assert f.Some? by {
        assert pegs[n] in domains[a[n]];
      }
      assert pegs[n] in domains[f.value] && pegs[n] in domains[a[n]];
      assert f.value == a[n];
      assert a == a[..n] + [a[n]];
    }
  }

  /** The cells of `list` on the board and not yet pegged, each tagged `d`
      on top of the tags in `acc`. */
  function TagCells(list: seq<Cell>, d: nat, s: State, acc: map<Cell, nat>): (r: map<Cell, nat>)
    ensures forall c :: c in r <==> c in acc || (c in list && InSquare(s.boardSize, c) && c !in s.pegs)
    ensures forall c :: c in r ==>
      r[c] == if c in list && InSquare(s.boardSize, c) && c !in s.pegs then d else acc[c]
    decreases |list|
  {
    if |list| == 0 then acc
    else
      var c := list[0];
      assert list == [c] + list[1..];
      var acc' := if InSquare(s.boardSize, c) && c !in s.pegs then acc[c := d] else acc;
      TagCells(list[1..], d, s, acc')
  }

  /** Cell `c` is a candidate of domain `d`: the domain is not used, holds
      `c`, and `c` is on the board and not pegged. */
  predicate OpenFor(s: State, used: seq<nat>, c: Cell, d: nat)
    requires d < |s.domains|
  {
    d !in used && c in s.domains[d] && InSquare(s.boardSize, c) && c !in s.pegs
  }

  /** One round of `remaining_domains.each`: domain `d`, unless used. */
  function TagIfOpen(s: State, used: seq<nat>, d: nat, acc: map<Cell, nat>): (r: map<Cell, nat>)
    requires d < |s.domains|
    ensures forall c :: c in r <==> c in acc || OpenFor(s, used, c, d)
    ensures forall c :: c in r ==> r[c] == if OpenFor(s, used, c, d) then d else acc[c]
  {
    if d in used then acc else TagCells(s.domains[d], d, s, acc)
  }

  /** `d` is the domain cell `c` is drawn in: the last open domain holding it. */
  predicate DrawnIn(s: State, used: seq<nat>, c: Cell, d: nat)
    requires |s.domains| >= 3
  {
    d < 3 && d !in used && c in s.domains[d]
    && forall e :: d < e < 3 && e !in used ==> c !in s.domains[e]
  }

  /** What the highlighting shows: the candidate cells, and the domain each
      is drawn in. */
  datatype Highlight = Highlight(cells: set<Cell>, domainOf: map<Cell, nat>)

  /** `highlight_candidates_with_domains`: nothing when all three domains
      are taken; otherwise the on-board, unpegged cells of the others, each
      drawn in the last open domain that holds it. */
  function Highlights(s: State): (r: Option<Highlight>)
    requires |s.domains| >= 3
    ensures r.None? <==> forall d :: 0 <= d < 3 ==> d in UsedDomainIndices(s.pegs, s.domains)
    ensures r.Some? ==> r.value.cells == r.value.domainOf.Keys
    ensures r.Some? ==> forall c :: c in r.value.cells <==>
      exists d :: 0 <= d < 3 && OpenFor(s, UsedDomainIndices(s.pegs, s.domains), c, d)
    ensures r.Some? ==> forall c :: c in r.value.domainOf ==>
      DrawnIn(s, UsedDomainIndices(s.pegs, s.domains), c, r.value.domainOf[c])
  {
    var used := UsedDomainIndices(s.pegs, s.domains);
    if 0 in used && 1 in used && 2 in used then None
    else
      var m := TagIfOpen(s, used, 2, TagIfOpen(s, used, 1, TagIfOpen(s, used, 0, map[])));
      HighlightFacts(s, used);
      Some(Highlight(m.Keys, m))
  }

  lemma {:induction false} HighlightFacts(s: State, used: seq<nat>)
    requires |s.domains| >= 3
    ensures var m := TagIfOpen(s, used, 2, TagIfOpen(s, used, 1, TagIfOpen(s, used, 0, map[])));
      (forall c :: c in m <==> exists d :: 0 <= d < 3 && OpenFor(s, used, c, d))
      && forall c :: c in m ==> DrawnIn(s, used, c, m[c])
  {
    var m0 := TagIfOpen(s, used, 0, map[]);
    var m1 := TagIfOpen(s, used, 1, m0);
    var m := TagIfOpen(s, used, 2, m1);
    forall c ensures c in m <==> exists d :: 0 <= d < 3 && OpenFor(s, used, c, d) {
      if c in m {
        if OpenFor(s, used, c, 2) {
        } else if OpenFor(s, used, c, 1) {
        } else {
          assert OpenFor(s, used, c, 0);
        }
      }
    }
    forall c | c in m ensures DrawnIn(s, used, c, m[c]) {
      if OpenFor(s, used, c, 2) {
        assert m[c] == 2;
      } else if OpenFor(s, used, c, 1) {
        assert m[c] == 1;
      } else {
        assert m[c] == m0[c] == 0;
      }
    }
  }
}
