/** Integer board coordinates and the sequence/set vocabulary shared by every
    other module: element sets, distinctness, the lexicographic cell order
    Ruby's `Array#sort` uses on `[x, y]` pairs, and square-grid membership. */
module Geometry {

  /** A board coordinate `(x, y)`: `x` is the column, `y` the row. */
  type Cell = (int, int)

  datatype Option<+T> = None | Some(value: T)

  /** The set of elements of a sequence. */
  function Elems<T>(s: seq<T>): set<T> {
    set x | x in s
  }

  /** No element occurs twice. */
  predicate Distinct<T(==)>(s: seq<T>) {
    forall i, j :: 0 <= i < j < |s| ==> s[i] != s[j]
  }

  /** Ruby's `<=>` on two-element integer arrays: by x, then by y. */
  predicate CellLess(a: Cell, b: Cell) {
    a.0 < b.0 || (a.0 == b.0 && a.1 < b.1)
  }

  predicate StrictlySorted(s: seq<Cell>) {
    forall i, j :: 0 <= i < j < |s| ==> CellLess(s[i], s[j])
  }

  /** `0 <= x <= n - 1 && 0 <= y <= n - 1`, Ruby's `between?(0, n - 1)` on both axes. */
  predicate InSquare(n: int, c: Cell) {
    0 <= c.0 <= n - 1 && 0 <= c.1 <= n - 1
  }

  /** Every cell of an `n` x `n` board. */
  function Grid(n: nat): set<Cell> {
    set x: int, y: int | 0 <= x < n && 0 <= y < n :: (x, y)
  }

  /** Each cell shifted by `(dx, dy)`. */
  function Translate(s: seq<Cell>, dx: int, dy: int): (r: seq<Cell>)
    ensures |r| == |s|
  {
    seq(|s|, i requires 0 <= i < |s| => (s[i].0 + dx, s[i].1 + dy))
  }

  /** A sequence without repeats has as many distinct elements as entries. */
  lemma {:induction false} DistinctCard<T>(s: seq<T>)
    requires Distinct(s)
    ensures |Elems(s)| == |s|
  {
    if |s| > 0 {
      var t := s[1..];
      assert Distinct(t);
      DistinctCard(t);
      assert Elems(s) == {s[0]} + Elems(t);
      assert s[0] !in Elems(t);
    }
  }

  /** The elements of a nonempty list: those of its front plus its last. */
  lemma ElemsSnoc<T>(s: seq<T>)
    requires |s| > 0
    ensures Elems(s) == Elems(s[..|s| - 1]) + {s[|s| - 1]}
  {
    assert s == s[..|s| - 1] + [s[|s| - 1]];
  }

  /** The elements of `[x] + s`: `x` and those of `s`. */
  lemma ElemsCons<T>(x: T, s: seq<T>)
    ensures Elems([x] + s) == {x} + Elems(s)
  {
    assert forall i :: 0 <= i < |s| ==> ([x] + s)[i + 1] == s[i];
  }

  /** Putting a new element in front keeps a list free of repeats, and
      the front of a repeat-free list is new to its tail. */
  lemma DistinctCons<T>(x: T, s: seq<T>)
    ensures Distinct([x] + s) <==> x !in s && Distinct(s)
  {
    var p := [x] + s;
    assert forall i :: 0 <= i < |s| ==> p[i + 1] == s[i];
    if Distinct(p) {
      assert Distinct(s) by {
        forall i, j | 0 <= i < j < |s| ensures s[i] != s[j] {
          assert p[i + 1] != p[j + 1];
        }
      }
      assert x !in s by {
        forall i | 0 <= i < |s| ensures s[i] != x {
          assert p[0] != p[i + 1];
        }
      }
    }
    if x !in s && Distinct(s) {
      forall i, j | 0 <= i < j < |p| ensures p[i] != p[j] {
        assert p[j] == s[j - 1];
      }
    }
  }

  lemma EmptyElems<T>(s: seq<T>)
    ensures Elems(s) == {} <==> |s| == 0
  {
    if |s| > 0 {
      assert s[0] in Elems(s);
    }
  }

  lemma StrictlySortedDistinct(s: seq<Cell>)
    requires StrictlySorted(s)
    ensures Distinct(s)
  {
  }

  /** The head of a strictly sorted sequence precedes every other element. */
  lemma SortedHeadLeast(s: seq<Cell>, x: Cell)
    requires StrictlySorted(s) && |s| > 0 && x in s
    ensures x == s[0] || CellLess(s[0], x)
  {
  }

  /** A strictly sorted sequence is determined by its set of elements. */
  lemma {:induction false} StrictlySortedUnique(a: seq<Cell>, b: seq<Cell>)
    requires StrictlySorted(a) && StrictlySorted(b)
    requires Elems(a) == Elems(b)
    ensures a == b
  {
    if |a| == 0 || |b| == 0 {
      EmptyElems(a);
      EmptyElems(b);
    } else {
      assert a[0] in Elems(b);
      assert b[0] in Elems(a);
      SortedHeadLeast(a, b[0]);
      SortedHeadLeast(b, a[0]);
      assert Elems(a[1..]) == Elems(a) - {a[0]} by {
        forall x | x in Elems(a[1..]) ensures x != a[0] {
          var k :| 0 <= k < |a[1..]| && a[1..][k] == x;
          assert CellLess(a[0], a[k + 1]);
        }
        assert a == [a[0]] + a[1..];
      }
      assert Elems(b[1..]) == Elems(b) - {b[0]} by {
        forall x | x in Elems(b[1..]) ensures x != b[0] {
          var k :| 0 <= k < |b[1..]| && b[1..][k] == x;
          assert CellLess(b[0], b[k + 1]);
        }
        assert b == [b[0]] + b[1..];
      }
      StrictlySortedUnique(a[1..], b[1..]);
      assert a == [a[0]] + a[1..];
      assert b == [b[0]] + b[1..];
    }
  }

  /** One row of the grid: the cells `(x, y)` with `0 <= x < n`. */
  function Row(n: nat, y: int): set<Cell> {
    set x: int | 0 <= x < n :: (x, y)
  }

  /** The first `k` rows of an `n`-column grid. */
  function Rows(n: nat, k: nat): set<Cell> {
    set x: int, y: int | 0 <= x < n && 0 <= y < k :: (x, y)
  }

  lemma {:induction false} RowCard(n: nat, y: int)
    ensures |Row(n, y)| == n
  {
    if n > 0 {
      RowCard(n - 1, y);
      assert Row(n, y) == Row(n - 1, y) + {(n - 1, y)};
    } else {
      assert Row(n, y) == {};
    }
  }

  /** The first `k` rows are the first `k - 1` rows plus row `k - 1`. */
  lemma RowsSplit(n: nat, k: nat)
    requires k > 0
    ensures Rows(n, k) == Rows(n, k - 1) + Row(n, k - 1)
    ensures Rows(n, k - 1) !! Row(n, k - 1)
  {
    forall c | c in Rows(n, k)
      ensures c in Rows(n, k - 1) + Row(n, k - 1)
    {
      if c.1 < k - 1 {
        assert c in Rows(n, k - 1);
      } else {
        assert c in Row(n, k - 1);
      }
    }
    forall c | c in Rows(n, k - 1) + Row(n, k - 1)
      ensures c in Rows(n, k)
    {
    }
  }

  lemma {:induction false} RowsCard(n: nat, k: nat)
    ensures |Rows(n, k)| == n * k
  {
    if k > 0 {
      RowsCard(n, k - 1);
      RowCard(n, k - 1);
      RowsSplit(n, k);
      assert n * k == n * (k - 1) + n;
    } else {
      assert Rows(n, k) == {};
    }
  }

  /** An `n` x `n` board has `n * n` cells. */
  lemma GridCard(n: nat)
    ensures |Grid(n)| == n * n
    ensures forall c :: c in Grid(n) <==> InSquare(n, c)
  {
    RowsCard(n, n);
    assert Grid(n) == Rows(n, n);
  }
}
