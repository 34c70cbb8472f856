/** Cell numbering of an n-by-n board and the table of row and column
    neighbours that the puzzle builds for every cell. */
module Grid {

  /** The cells of a board of side n are 0 .. n*n-1, numbered row by row. */
  predicate IsCell(n: nat, v: int)
  {
    0 <= v < n * n
  }

  function Cells(n: nat): set<int>
  {
    set v | 0 <= v < n * n && IsCell(n, v)
  }

  predicate NoDup(s: seq<int>)
  {
    forall a, b :: 0 <= a < b < |s| ==> s[a] != s[b]
  }

  lemma RowMajorBound(n: nat, i: int, j: int)
    requires 0 <= i < n && 0 <= j < n
    ensures 0 <= i * n + j < n * n
  {
    assert i * n <= (n - 1) * n;
  }

  lemma MulAtLeast(a: int, n: int)
    requires a >= 1 && n >= 0
    ensures a * n >= n
  {
    assert a * n == (a - 1) * n + n;
  }

  lemma MulMonotone(a: int, b: int, n: int)
    requires n >= 0
    ensures a >= b ==> a * n >= b * n
  {
    if a >= b {
      assert a * n - b * n == (a - b) * n;
    }
  }

  /** Division by n undoes the row-major numbering. */
  lemma DivModUnique(n: nat, i: int, j: int)
    requires n > 0 && 0 <= j < n
    ensures (i * n + j) / n == i && (i * n + j) % n == j
  {
    var v := i * n + j;
    var q, r := v / n, v % n;
    assert v == q * n + r && 0 <= r < n;
    assert (q - i) * n == j - r;
    if q > i {
      MulAtLeast(q - i, n);
    } else if q < i {
      MulAtLeast(i - q, n);
    }
  }

  /** `xy_to_variable(i, j)`. */
  function XyToVariable(n: nat, i: int, j: int): (v: int)
    ensures 0 <= i < n && 0 <= j < n ==> IsCell(n, v)
  {
    if 0 <= i < n && 0 <= j < n then RowMajorBound(n, i, j); i * n + j
    else i * n + j
  }

  /** `variable_to_xy(v)`: row `v // n` and column `v % n`. For a positive
      divisor Dafny's division and remainder agree with Python's. */
  function VariableToXY(n: nat, v: int): (ij: (int, int))
    requires n > 0
    ensures 0 <= ij.1 < n
    ensures XyToVariable(n, ij.0, ij.1) == v
    ensures IsCell(n, v) <==> 0 <= ij.0 < n
  {
    var i, j := v / n, v % n;
    assert v == i * n + j && 0 <= j < n;
    if 0 <= v < n * n then
      assert 0 <= i < n by {
        MulMonotone(i, n, n);
        MulMonotone(-1, i, n);
      }
      (i, j)
    else
      assert !(0 <= i < n) by {
        if 0 <= i < n { RowMajorBound(n, i, j); }
      }
      (i, j)
  }

  /** Row and column back to the cell number and back again. */
  lemma XyRoundTrip(n: nat, i: int, j: int)
    requires 0 <= i < n && 0 <= j < n
    ensures VariableToXY(n, XyToVariable(n, i, j)) == (i, j)
  {
    DivModUnique(n, i, j);
  }

  /** The cell number to row and column and back again. */
  lemma VariableRoundTrip(n: nat, v: int)
    requires IsCell(n, v)
    ensures 0 <= VariableToXY(n, v).0 < n && 0 <= VariableToXY(n, v).1 < n
    ensures XyToVariable(n, VariableToXY(n, v).0, VariableToXY(n, v).1) == v
  {
  }

  predicate SameRow(n: nat, v: int, w: int)
    requires n > 0
  {
    VariableToXY(n, v).0 == VariableToXY(n, w).0
  }

  predicate SameColumn(n: nat, v: int, w: int)
    requires n > 0
  {
    VariableToXY(n, v).1 == VariableToXY(n, w).1
  }

  /** The neighbour list of cell (row, col) after the first k rounds of the
      inner neighbour loop `for _ in range(self.N)`: round k adds (k, col) unless k is the cell's row,
      then (row, k) unless k is its column. */
  function NeighborsUpTo(n: nat, row: int, col: int, k: nat): seq<int>
  {
    if k == 0 then []
    else
      NeighborsUpTo(n, row, col, k - 1)
      + (if k - 1 != row then [XyToVariable(n, k - 1, col)] else [])
      + (if k - 1 != col then [XyToVariable(n, row, k - 1)] else [])
  }

  /** `neighbors[v]` as the construction leaves it. */
  function NeighborList(n: nat, v: int): seq<int>
    requires n > 0
  {
    var (row, col) := VariableToXY(n, v);
    NeighborsUpTo(n, row, col, n)
  }

  /** The whole neighbour table: every cell's list. */
  function NeighborTable(n: nat): map<int, seq<int>>
  {
    map v | v in Cells(n) :: NeighborList(n, v)
  }

  lemma {:induction false} NeighborsUpToMembers(n: nat, row: int, col: int, k: nat, w: int)
    requires 0 <= row < n && 0 <= col < n && k <= n
    ensures w in NeighborsUpTo(n, row, col, k) <==>
      IsCell(n, w) &&
      ((w % n == col && w / n != row && w / n < k) ||
       (w / n == row && w % n != col && w % n < k))
  {
    if k > 0 {
      NeighborsUpToMembers(n, row, col, k - 1, w);
      DivModUnique(n, k - 1, col);
      DivModUnique(n, row, k - 1);
      var _ := VariableToXY(n, w);
    }
  }

  lemma {:induction false} NeighborsUpToLength(n: nat, row: int, col: int, k: nat)
    requires 0 <= row < n && 0 <= col < n && k <= n
    ensures |NeighborsUpTo(n, row, col, k)| ==
      2 * k - (if row < k then 1 else 0) - (if col < k then 1 else 0)
  {
    if k > 0 {
      NeighborsUpToLength(n, row, col, k - 1);
    }
  }

  lemma NoDupSnoc(s: seq<int>, x: int)
    requires NoDup(s) && x !in s
    ensures NoDup(s + [x])
  {
    forall a, b | 0 <= a < b < |s| + 1
      ensures (s + [x])[a] != (s + [x])[b]
    {
      if b == |s| {
        assert s[a] in s;
      }
    }
  }

  /** The cells round k adds are new to the list, and differ from each other. */
  lemma NeighborsRoundFresh(n: nat, row: int, col: int, k: nat)
    requires 0 <= row < n && 0 <= col < n && k < n
    ensures k != row ==> XyToVariable(n, k, col) !in NeighborsUpTo(n, row, col, k)
    ensures k != col ==> XyToVariable(n, row, k) !in NeighborsUpTo(n, row, col, k)
    ensures k != row ==> XyToVariable(n, k, col) != XyToVariable(n, row, k)
  {
    DivModUnique(n, k, col);
    DivModUnique(n, row, k);
    NeighborsUpToMembers(n, row, col, k, XyToVariable(n, k, col));
    NeighborsUpToMembers(n, row, col, k, XyToVariable(n, row, k));
  }

  lemma {:induction false} NeighborsUpToDistinct(n: nat, row: int, col: int, k: nat)
    requires 0 <= row < n && 0 <= col < n && k <= n
    ensures NoDup(NeighborsUpTo(n, row, col, k))
  {
    if k > 0 {
      var prev := NeighborsUpTo(n, row, col, k - 1);
      NeighborsUpToDistinct(n, row, col, k - 1);
      var colCell := XyToVariable(n, k - 1, col);
      var rowCell := XyToVariable(n, row, k - 1);
      NeighborsRoundFresh(n, row, col, k - 1);
      var mid := prev + (if k - 1 != row then [colCell] else []);
      if k - 1 != row {
        NoDupSnoc(prev, colCell);
      } else {
        assert mid == prev;
      }
      if k - 1 != col {
        assert rowCell !in mid;
        NoDupSnoc(mid, rowCell);
      } else {
        assert mid + [] == mid;
      }
    }
  }

  /** The neighbour list of a cell: exactly 2*(n-1) distinct cells, and a cell
      is in it exactly when it is another cell of the same row or column. */
  lemma NeighborListShape(n: nat, v: int)
    requires IsCell(n, v)
    ensures |NeighborList(n, v)| == 2 * (n - 1)
    ensures NoDup(NeighborList(n, v))
    ensures v !in NeighborList(n, v)
    ensures forall w :: w in NeighborList(n, v) <==>
      IsCell(n, w) && w != v && (SameRow(n, v, w) || SameColumn(n, v, w))
  {
    var (row, col) := VariableToXY(n, v);
    NeighborsUpToLength(n, row, col, n);
    NeighborsUpToDistinct(n, row, col, n);
    forall w
      ensures w in NeighborList(n, v) <==>
        IsCell(n, w) && w != v && (SameRow(n, v, w) || SameColumn(n, v, w))
    {
      NeighborsUpToMembers(n, row, col, n, w);
      var _ := VariableToXY(n, w);
    }
  }

  /** The neighbour relation is symmetric. */
  lemma NeighborsSymmetric(n: nat, v: int, w: int)
    requires IsCell(n, v) && IsCell(n, w)
    ensures w in NeighborList(n, v) <==> v in NeighborList(n, w)
  {
    NeighborListShape(n, v);
    NeighborListShape(n, w);
  }

  /** The neighbour loop of `Kenken.__init__`: for every cell, the list of the other cells
      of its column and of its row, interleaved as the loop appends them. */
  method BuildNeighbors(n: nat) returns (neighbors: map<int, seq<int>>)
    ensures neighbors == NeighborTable(n)
  {
    neighbors := map[];
    var v := 0;
    while v < n * n
      invariant 0 <= v <= n * n
      invariant forall w :: w in neighbors <==> 0 <= w < v
      invariant forall w :: 0 <= w < v ==> neighbors[w] == NeighborList(n, w)
    {
      var (row, col) := VariableToXY(n, v);
      var list: seq<int> := [];
      var k := 0;
      while k < n
        invariant 0 <= k <= n
        invariant list == NeighborsUpTo(n, row, col, k)
      {
        if k != row {
          list := list + [XyToVariable(n, k, col)];
        }
        if k != col {
          list := list + [XyToVariable(n, row, k)];
        }
        k := k + 1;
      }
      neighbors := neighbors[v := list];
      v := v + 1;
    }
    assert neighbors.Keys == NeighborTable(n).Keys;
  }
}
