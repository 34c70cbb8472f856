/** The puzzle object the constructor builds from an input file: its size,
    the solver's variables and their domains, the neighbour table, the cage
    board and the cage table. Nothing changes the object once it is built,
    so here it is a value, and the file is the sequence of its lines. */
module Kenken {
  import opened Wrappers
  import opened Text
  import opened Grid
  import opened CageTable

  datatype Puzzle = Puzzle(
    n: nat,
    variables: seq<int>,
    domains: map<int, seq<int>>,
    neighbors: map<int, seq<int>>,
    cageBoard: Board,
    cages: map<char, Cage>)

  /** The values 1 .. n a cell may take. */
  function Values(n: nat): seq<int>
  {
    seq(n, k => k + 1)
  }

  lemma ValuesRange(n: nat)
    ensures |Values(n)| == n
    ensures forall x :: x in Values(n) <==> 1 <= x <= n
  {
    forall x | 1 <= x <= n
      ensures x in Values(n)
    {
      assert Values(n)[x - 1] == x;
    }
  }

  /** `self.domains`: the values 1 .. N for every variable. */
  function Domains(n: nat): map<int, seq<int>>
  {
    map v | v in Cells(n) :: Values(n)
  }

  /** Every cell, and nothing else, has a domain, and the domain holds
      exactly the n values 1 .. n. */
  lemma DomainsShape(n: nat)
    ensures forall v :: v in Domains(n) <==> IsCell(n, v)
    ensures forall v :: v in Domains(n) ==> |Domains(n)[v]| == n
    ensures forall v, x :: v in Domains(n) ==> (x in Domains(n)[v] <==> 1 <= x <= n)
  {
    ValuesRange(n);
  }

  /** What the constructor guarantees about the object it builds. */
  ghost predicate Valid(p: Puzzle)
  {
    && p.variables == seq(p.n * p.n, v => v)
    && p.domains == Domains(p.n)
    && p.neighbors == NeighborTable(p.n)
    && BoardShape(p.cageBoard, p.n)
    && CagesOk(p)
  }

  /** The part of validity the cage lookup relies on: the cage table
      partitions the board, and every operator fits its cage's cell count. */
  ghost predicate CagesOk(p: Puzzle)
  {
    ArityOk(p.cages) && Partitioned(p.cages, p.cageBoard, p.n)
  }

  /** The first line of the file, stripped: the board size. */
  function SizeOf(file: seq<string>): (r: Option<int>)
    ensures r.Some? <==> |file| > 0 && Strip(file[0]) != [] && AllDigits(Strip(file[0]))
    ensures r.Some? ==> r.value >= 0
  {
    ParseInt(Strip(if |file| > 0 then file[0] else ""))
  }

  /** The lines after the first: the layout rows. */
  function Rows(file: seq<string>): seq<string>
  {
    if |file| > 0 then file[1..] else []
  }

  /** The lines after the n layout rows: the goal lines. */
  function Goals(file: seq<string>, n: nat): seq<string>
  {
    if |file| > n + 1 then file[n + 1..] else []
  }

  /** The cage table once every goal line has been read. */
  function GoalsResult(file: seq<string>, n: nat): Result<map<char, Cage>, BuildError>
  {
    var cages := InitialCages(BoardSpec(n, Rows(file)), n);
    ApplyGoals(cages, Goals(file, n), 0, |cages|)
  }

  /** `Kenken(filename)` (`Kenken.__init__`) on the lines of the file. It fails
      exactly when the size line is no number, a layout row is too long, or
      a goal line fails; otherwise the object is valid and holds the board
      and the cage table that the layout and the goal lines describe. */
  method Build(file: seq<string>) returns (r: Result<Puzzle, BuildError>)
    ensures SizeOf(file).None? ==> r == Err(BadSize)
    ensures SizeOf(file).Some? && !RowsFit(SizeOf(file).value, Rows(file)) ==> r == Err(RowTooLong)
    ensures SizeOf(file).Some? && RowsFit(SizeOf(file).value, Rows(file)) ==>
      (r.Ok? <==> GoalsResult(file, SizeOf(file).value).Ok?) &&
      (r.Err? ==> r.error == GoalsResult(file, SizeOf(file).value).error)
    ensures r.Ok? ==>
      && Valid(r.value)
      && SizeOf(file) == Some(r.value.n)
      && r.value.cageBoard == BoardSpec(r.value.n, Rows(file))
      && r.value.cages == GoalsResult(file, r.value.n).value
  {
    var size := ParseInt(Strip(if |file| > 0 then file[0] else ""));
    if size.None? {
      return Err(BadSize);
    }
    var n: nat := size.value;
    var variables := seq(n * n, v => v);
    var domains := Domains(n);
    var filled := FillBoard(n, Rows(file));
    if filled.Err? {
      return Err(filled.error);
    }
    var board := filled.value.0;
    var cages0 := filled.value.1;
    var goals := ReadGoals(cages0, Goals(file, n));
    if goals.Err? {
      return Err(goals.error);
    }
    var neighbors := BuildNeighbors(n);
    r := Ok(Puzzle(n, variables, domains, neighbors, board, goals.value));
    BuiltValid(r.value, Rows(file), Goals(file, n));
  }

  /** The parts the constructor assembles make a valid object. */
  lemma BuiltValid(p: Puzzle, rows: seq<string>, goals: seq<string>)
    requires p.variables == seq(p.n * p.n, v => v)
    requires p.domains == Domains(p.n)
    requires p.neighbors == NeighborTable(p.n)
    requires p.cageBoard == BoardSpec(p.n, rows)
    requires var cages := InitialCages(p.cageBoard, p.n);
      ApplyGoals(cages, goals, 0, |cages|) == Ok(p.cages)
    ensures Valid(p)
  {
    var cages0 := InitialCages(p.cageBoard, p.n);
    InitialCagesPartition(p.cageBoard, p.n);
    GoalsKeepPartition(cages0, goals, p.cageBoard, p.n);
    assert ArityOk(p.cages) && Partitioned(p.cages, p.cageBoard, p.n);
  }

  /** `get_cage(X)`: the cage whose letter the board shows at
      X's row and column, or None where the board still holds its
      placeholder, on which the table lookup fails. */
  function GetCage(p: Puzzle, X: int): (r: Option<Cage>)
    requires CagesOk(p) && IsCell(p.n, X)
    ensures r.Some? <==> CageAt(p.cageBoard, p.n, X).Some?
    ensures r.Some? ==>
      && r.value.id == CageAt(p.cageBoard, p.n, X).value
      && r.value.id in p.cages && p.cages[r.value.id] == r.value
      && X in r.value.vars
  {
    var (i, j) := VariableToXY(p.n, X);
    match p.cageBoard[i][j]
    case None => None
    case Some(c) => if c in p.cages then Some(p.cages[c]) else None
  }

  /** A cell lies in exactly one cage: the one `get_cage` returns. */
  lemma GetCageOwner(p: Puzzle, X: int, c: char)
    requires Valid(p) && IsCell(p.n, X) && c in p.cages
    ensures X in p.cages[c].vars <==> GetCage(p, X) == Some(p.cages[c])
  {
    if X in p.cages[c].vars {
      assert CageAt(p.cageBoard, p.n, X) == Some(c);
    }
  }

  /** `Cage.__eq__` compares ids; on the cages `get_cage`
      returns that is the same as comparing the cages themselves. */
  lemma CageIdentity(p: Puzzle, A: int, B: int)
    requires Valid(p) && IsCell(p.n, A) && IsCell(p.n, B)
    requires GetCage(p, A).Some? && GetCage(p, B).Some?
    ensures GetCage(p, A).value.id == GetCage(p, B).value.id <==> GetCage(p, A) == GetCage(p, B)
    ensures GetCage(p, A) == GetCage(p, B) <==> CageAt(p.cageBoard, p.n, A) == CageAt(p.cageBoard, p.n, B)
  {
  }

  /** When every layout row has N letters, every cell has a cage. */
  lemma FullRowsCageEveryCell(p: Puzzle, rows: seq<string>, X: int)
    requires Valid(p) && p.cageBoard == BoardSpec(p.n, rows)
    requires forall i :: 0 <= i < p.n ==> |RowText(rows, i)| == p.n
    requires IsCell(p.n, X)
    ensures GetCage(p, X).Some?
  {
    FullRowsMarkEveryCell(p.n, rows, X);
  }

  /** Row and column clash: in a valid object, `neighbors[A]` holds B
      exactly when B is another cell of A's row or column, and the other way
      round. */
  lemma NeighborsOfValid(p: Puzzle, A: int, B: int)
    requires Valid(p) && IsCell(p.n, A) && IsCell(p.n, B)
    ensures B in p.neighbors[A] <==> A != B && (SameRow(p.n, A, B) || SameColumn(p.n, A, B))
    ensures B in p.neighbors[A] <==> A in p.neighbors[B]
  {
    NeighborListShape(p.n, A);
    NeighborsSymmetric(p.n, A, B);
  }
}
