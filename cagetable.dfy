/** The cage table the puzzle constructor builds from the layout rows and
    the goal lines of its input (the part of `Kenken.__init__` that fills
    `cage_board` and `cage_dict`), with the
    file replaced by two sequences of lines. */
module CageTable {
  import opened Wrappers
  import opened Text
  import opened Grid

  /** A cage: the letter that marks its cells on the board, its cells in the
      order they were found, its operator and its goal. A new cage has goal
      -1 and the empty operator. Cages live in a table keyed by their id, so
      two cages are the same cage exactly when their ids are equal, which is
      what `Cage.__eq__` decides. */
  datatype Cage = Cage(id: char, vars: seq<int>, opr: string, goal: int)

  /** `Cage(name)` (`Cage.__init__`): no cells, no operator, goal -1. */
  function NewCage(id: char): Cage
  {
    Cage(id, [], "", -1)
  }

  /** `cage_board`: each cell holds the id of its cage, or None where the row
      text was too short and the cell kept the placeholder 0. */
  type Board = seq<seq<Option<char>>>

  /** The exceptions the constructor can raise. */
  datatype BuildError =
    | BadSize           // ValueError: int() of the first line
    | RowTooLong        // IndexError: a layout row has more than N letters
    | MissingGoalToken  // IndexError: a goal line has no ':'
    | BadGoalNumber     // ValueError: int() of what is left of the goal token
    | UnknownCage       // KeyError: the goal line names no cage of the board
    | WrongArity        // AssertionError: '-', '/' or '=' with the wrong cell count

  predicate BoardShape(board: Board, n: nat)
  {
    |board| == n && forall i :: 0 <= i < n ==> |board[i]| == n
  }

  /** Layout row i as `file.readline().strip()` reads it; past the last line
      `readline` gives the empty string. */
  function RowText(rows: seq<string>, i: nat): string
  {
    Strip(if i < |rows| then rows[i] else "")
  }

  /** Goal line i, read the same way. */
  function GoalText(lines: seq<string>, i: nat): string
  {
    Strip(if i < |lines| then lines[i] else "")
  }

  /** No layout row before row k is longer than the board. */
  predicate RowsFitBefore(n: nat, rows: seq<string>, k: nat)
  {
    forall i :: 0 <= i < k ==> |RowText(rows, i)| <= n
  }

  /** No layout row is longer than the board. */
  predicate RowsFit(n: nat, rows: seq<string>)
  {
    RowsFitBefore(n, rows, n)
  }

  /** The board the layout rows describe: letter j of row i, or None past the
      end of a short row. */
  function BoardSpec(n: nat, rows: seq<string>): (board: Board)
    ensures BoardShape(board, n)
  {
    seq(n, i requires 0 <= i < n =>
      seq(n, j requires 0 <= j < n =>
        if j < |RowText(rows, i)| then Some(RowText(rows, i)[j]) else None))
  }

  /** `cage_board[i][j]` for the cell v = (i, j). */
  function CageAt(board: Board, n: nat, v: int): Option<char>
    requires BoardShape(board, n) && IsCell(n, v)
  {
    var (i, j) := VariableToXY(n, v);
    board[i][j]
  }

  /** The cells among 0 .. k-1 that the board assigns to cage c, in the
      row-major order the construction visits them. */
  function CellsOf(board: Board, n: nat, c: char, k: nat): seq<int>
    requires BoardShape(board, n) && k <= n * n
  {
    if k == 0 then []
    else CellsOf(board, n, c, k - 1) + (if CageAt(board, n, k - 1) == Some(c) then [k - 1] else [])
  }

  /** The ids the board uses among cells 0 .. k-1. */
  function IdsBefore(board: Board, n: nat, k: nat): set<char>
    requires BoardShape(board, n) && k <= n * n
  {
    if k == 0 then {}
    else
      IdsBefore(board, n, k - 1)
      + (if CageAt(board, n, k - 1).Some? then {CageAt(board, n, k - 1).value} else {})
  }

  /** The cage table after the layout loop `for i in range(self.N)`: one cage per id on
      the board, holding its cells, with no operator and goal -1 yet. */
  function InitialCages(board: Board, n: nat): map<char, Cage>
    requires BoardShape(board, n)
  {
    map c | c in IdsBefore(board, n, n * n) :: Cage(c, CellsOf(board, n, c, n * n), "", -1)
  }

  predicate Increasing(s: seq<int>)
  {
    forall a, b :: 0 <= a < b < |s| ==> s[a] < s[b]
  }

  lemma {:induction false} CellsOfMembers(board: Board, n: nat, c: char, k: nat, v: int)
    requires BoardShape(board, n) && k <= n * n
    ensures v in CellsOf(board, n, c, k) <==> 0 <= v < k && CageAt(board, n, v) == Some(c)
  {
    if k > 0 {
      CellsOfMembers(board, n, c, k - 1, v);
    }
  }

  lemma {:induction false} CellsOfIncreasing(board: Board, n: nat, c: char, k: nat)
    requires BoardShape(board, n) && k <= n * n
    ensures Increasing(CellsOf(board, n, c, k))
  {
    if k > 0 {
      var prev := CellsOf(board, n, c, k - 1);
      CellsOfIncreasing(board, n, c, k - 1);
      forall a | 0 <= a < |prev|
        ensures prev[a] < k - 1
      {
        CellsOfMembers(board, n, c, k - 1, prev[a]);
      }
    }
  }

  lemma {:induction false} IdsBeforeMembers(board: Board, n: nat, k: nat, c: char)
    requires BoardShape(board, n) && k <= n * n
    ensures c in IdsBefore(board, n, k) <==> CellsOf(board, n, c, k) != []
  {
    if k > 0 {
      IdsBeforeMembers(board, n, k - 1, c);
    }
  }

  /** The cells of the board are partitioned among the cages: every cage
      lists, in increasing order, exactly the cells marked with its id, and
      every marked cell belongs to the cage of its mark. */
  ghost predicate Partitioned(cages: map<char, Cage>, board: Board, n: nat)
  {
    && BoardShape(board, n)
    && (forall c :: c in cages ==> cages[c].id == c && Increasing(cages[c].vars))
    && (forall c, v :: c in cages && v in cages[c].vars ==>
          IsCell(n, v) && CageAt(board, n, v) == Some(c))
    && (forall v :: IsCell(n, v) && CageAt(board, n, v).Some? ==>
          CageAt(board, n, v).value in cages && v in cages[CageAt(board, n, v).value].vars)
  }

  /** The cells the board marks with c, in increasing order. */
  lemma CellsOfShape(board: Board, n: nat, c: char)
    requires BoardShape(board, n)
    ensures Increasing(CellsOf(board, n, c, n * n))
    ensures forall v :: v in CellsOf(board, n, c, n * n) ==> IsCell(n, v) && CageAt(board, n, v) == Some(c)
  {
    CellsOfIncreasing(board, n, c, n * n);
    forall v | v in CellsOf(board, n, c, n * n)
      ensures IsCell(n, v) && CageAt(board, n, v) == Some(c)
    {
      CellsOfMembers(board, n, c, n * n, v);
    }
  }

  /** A marked cell is among the cells of its mark, and the mark is an id. */
  lemma MarkedCellListed(board: Board, n: nat, v: int)
    requires BoardShape(board, n) && IsCell(n, v) && CageAt(board, n, v).Some?
    ensures CageAt(board, n, v).value in IdsBefore(board, n, n * n)
    ensures v in CellsOf(board, n, CageAt(board, n, v).value, n * n)
  {
    var c := CageAt(board, n, v).value;
    CellsOfMembers(board, n, c, n * n, v);
    IdsBeforeMembers(board, n, n * n, c);
  }

  /** The table the layout rows build partitions the marked cells. */
  lemma InitialCagesPartition(board: Board, n: nat)
    requires BoardShape(board, n)
    ensures Partitioned(InitialCages(board, n), board, n)
    ensures ArityOk(InitialCages(board, n))
  {
    var cages := InitialCages(board, n);
    forall c | c in cages
      ensures Increasing(cages[c].vars)
      ensures forall v :: v in cages[c].vars ==> IsCell(n, v) && CageAt(board, n, v) == Some(c)
    {
      CellsOfShape(board, n, c);
    }
    forall v | IsCell(n, v) && CageAt(board, n, v).Some?
      ensures CageAt(board, n, v).value in cages && v in cages[CageAt(board, n, v).value].vars
    {
      MarkedCellListed(board, n, v);
    }
  }

  /** A table with the same ids and the same cells partitions the board the
      same way. */
  lemma PartitionKept(cages: map<char, Cage>, next: map<char, Cage>, board: Board, n: nat)
    requires Partitioned(cages, board, n)
    requires next.Keys == cages.Keys
    requires forall c :: c in cages ==> next[c].id == cages[c].id && next[c].vars == cages[c].vars
    ensures Partitioned(next, board, n)
  {
    forall v | IsCell(n, v) && CageAt(board, n, v).Some?
      ensures CageAt(board, n, v).value in next && v in next[CageAt(board, n, v).value].vars
    {
      assert CageAt(board, n, v).value in cages;
    }
  }

  /** When every layout row has exactly n letters, every cell has a cage. */
  lemma FullRowsMarkEveryCell(n: nat, rows: seq<string>, v: int)
    requires forall i :: 0 <= i < n ==> |RowText(rows, i)| == n
    requires IsCell(n, v)
    ensures CageAt(BoardSpec(n, rows), n, v).Some?
  {
    VariableRoundTrip(n, v);
  }

  /** The table of cages as the loop has it after visiting cells 0 .. k-1. */
  ghost predicate CagesUpTo(cages: map<char, Cage>, board: Board, n: nat, k: nat)
  {
    && BoardShape(board, n)
    && k <= n * n
    && cages.Keys == IdsBefore(board, n, k)
    && forall c :: c in cages ==> cages[c] == Cage(c, CellsOf(board, n, c, k), "", -1)
  }

  /** `cages[c].vars.append(v)`, creating the cage first if c is new. */
  function AddCell(cages: map<char, Cage>, c: char, v: int): (r: map<char, Cage>)
    ensures r.Keys == cages.Keys + {c}
    ensures c in cages ==> r[c] == cages[c].(vars := cages[c].vars + [v])
    ensures c !in cages ==> r[c] == Cage(c, [v], "", -1)
    ensures forall d :: d in cages && d != c ==> r[d] == cages[d]
  {
    var base := if c in cages then cages else cages[c := NewCage(c)];
    base[c := base[c].(vars := base[c].vars + [v])]
  }

  lemma CagesStep(cages: map<char, Cage>, board: Board, n: nat, k: nat, c: char)
    requires CagesUpTo(cages, board, n, k) && k < n * n
    requires CageAt(board, n, k) == Some(c)
    ensures CagesUpTo(AddCell(cages, c, k), board, n, k + 1)
  {
    var next := AddCell(cages, c, k);
    assert IdsBefore(board, n, k + 1) == IdsBefore(board, n, k) + {c};
    if c !in cages {
      IdsBeforeMembers(board, n, k, c);
    }
    forall d | d in next
      ensures next[d] == Cage(d, CellsOf(board, n, d, k + 1), "", -1)
    {
      if d != c {
        assert CellsOf(board, n, d, k + 1) == CellsOf(board, n, d, k);
      }
    }
  }

  /** Cells without a mark add nothing to the table. */
  lemma {:induction false} SkipUnmarked(board: Board, n: nat, k1: nat, k2: nat)
    requires BoardShape(board, n) && k1 <= k2 <= n * n
    requires forall k :: k1 <= k < k2 ==> CageAt(board, n, k) == None
    ensures IdsBefore(board, n, k2) == IdsBefore(board, n, k1)
    ensures forall c :: CellsOf(board, n, c, k2) == CellsOf(board, n, c, k1)
  {
    if k2 > k1 {
      SkipUnmarked(board, n, k1, k2 - 1);
    }
  }

  lemma CagesDone(cages: map<char, Cage>, board: Board, n: nat)
    requires CagesUpTo(cages, board, n, n * n)
    ensures cages == InitialCages(board, n)
  {
  }

  /** The board as the loop has it before cell (i, j): the cells already
      visited hold their marks, the others still the placeholder. */
  ghost predicate BoardUpTo(board: Board, spec: Board, n: nat, i: nat, j: nat)
  {
    && BoardShape(board, n)
    && BoardShape(spec, n)
    && forall a, b :: 0 <= a < n && 0 <= b < n ==>
      board[a][b] == if a < i || (a == i && b < j) then spec[a][b] else None
  }

  lemma BoardStep(board: Board, spec: Board, n: nat, i: nat, j: nat, c: char)
    requires BoardUpTo(board, spec, n, i, j) && i < n && j < n && spec[i][j] == Some(c)
    ensures BoardUpTo(board[i := board[i][j := Some(c)]], spec, n, i, j + 1)
  {
  }

  lemma BoardRowDone(board: Board, spec: Board, n: nat, i: nat, j: nat)
    requires BoardUpTo(board, spec, n, i, j) && i < n && j <= n
    requires forall b :: j <= b < n ==> spec[i][b] == None
    ensures BoardUpTo(board, spec, n, i + 1, 0)
  {
  }

  lemma BoardDone(board: Board, spec: Board, n: nat)
    requires BoardUpTo(board, spec, n, n, 0)
    ensures board == spec
  {
    forall a | 0 <= a < n
      ensures board[a] == spec[a]
    {
    }
  }

  /** Row i of the board the layout describes: the letters of the row text,
      then placeholders. */
  lemma BoardSpecRow(n: nat, rows: seq<string>, i: nat)
    requires i < n
    ensures forall b :: 0 <= b < n && b < |RowText(rows, i)| ==>
      BoardSpec(n, rows)[i][b] == Some(RowText(rows, i)[b])
    ensures forall b :: |RowText(rows, i)| <= b < n ==> BoardSpec(n, rows)[i][b] == None
  {
    var t := RowText(rows, i);
    var row := BoardSpec(n, rows)[i];
    assert row == seq(n, j requires 0 <= j < n => if j < |t| then Some(t[j]) else None);
    forall b | 0 <= b < n
      ensures row[b] == if b < |t| then Some(t[b]) else None
    {
    }
  }

  /** One letter of row i: the board and the table after it. */
  lemma FillStep(board: Board, cages: map<char, Cage>, spec: Board, n: nat, i: nat, j: nat, c: char)
    requires i < n && j < n
    requires BoardUpTo(board, spec, n, i, j) && CagesUpTo(cages, spec, n, i * n + j)
    requires spec[i][j] == Some(c)
    ensures BoardUpTo(board[i := board[i][j := Some(c)]], spec, n, i, j + 1)
    ensures CagesUpTo(AddCell(cages, c, XyToVariable(n, i, j)), spec, n, i * n + j + 1)
  {
    BoardStep(board, spec, n, i, j, c);
    XyRoundTrip(n, i, j);
    RowMajorBound(n, i, j);
    CagesStep(cages, spec, n, i * n + j, c);
  }

  /** The cells of row i from column len on carry no mark. */
  lemma RowTailUnmarked(spec: Board, n: nat, i: nat, len: nat)
    requires BoardShape(spec, n) && i < n && len <= n
    requires forall b :: len <= b < n ==> spec[i][b] == None
    ensures i * n + n <= n * n
    ensures forall k :: i * n + len <= k < i * n + n && IsCell(n, k) ==> CageAt(spec, n, k) == None
  {
    MulMonotone(n, i + 1, n);
    forall k | i * n + len <= k < i * n + n && IsCell(n, k)
      ensures CageAt(spec, n, k) == None
    {
      var b := k - i * n;
      assert XyToVariable(n, i, b) == k;
      XyRoundTrip(n, i, b);
    }
  }

  /** The rest of row i is blank: the row is done. */
  lemma FillRowDone(board: Board, cages: map<char, Cage>, spec: Board, n: nat, i: nat, len: nat)
    requires i < n && len <= n
    requires BoardUpTo(board, spec, n, i, len) && CagesUpTo(cages, spec, n, i * n + len)
    requires forall b :: len <= b < n ==> spec[i][b] == None
    ensures BoardUpTo(board, spec, n, i + 1, 0) && CagesUpTo(cages, spec, n, (i + 1) * n)
  {
    BoardRowDone(board, spec, n, i, len);
    var k1, k2 := i * n + len, (i + 1) * n;
    assert k2 == i * n + n;
    RowTailUnmarked(spec, n, i, len);
    SkipUnmarked(spec, n, k1, k2);
  }

  /** `if not cage_id in self.cage_dict: ...` and `.vars.append(...)`: create
      the cage of letter c if it is new, then append
      cell v to its cells. */
  method AppendCell(cages0: map<char, Cage>, c: char, v: int) returns (cages: map<char, Cage>)
    ensures cages == AddCell(cages0, c, v)
  {
    cages := cages0;
    if c !in cages {
      cages := cages[c := NewCage(c)];
    }
    cages := cages[c := cages[c].(vars := cages[c].vars + [v])];
  }

  /** The inner loop `for j in range(len(line))`, over the letters of layout
      row i. */
  method FillRow(n: nat, i: nat, line: string, board0: Board, cages0: map<char, Cage>, ghost spec: Board)
    returns (ok: bool, board: Board, cages: map<char, Cage>)
    requires i < n
    requires BoardUpTo(board0, spec, n, i, 0) && CagesUpTo(cages0, spec, n, i * n)
    requires forall b :: 0 <= b < n && b < |line| ==> spec[i][b] == Some(line[b])
    requires forall b :: |line| <= b < n ==> spec[i][b] == None
    ensures ok <==> |line| <= n
    ensures ok ==> BoardUpTo(board, spec, n, i + 1, 0) && CagesUpTo(cages, spec, n, (i + 1) * n)
  {
    board, cages := board0, cages0;
    for j := 0 to |line|
      invariant j <= n
      invariant BoardUpTo(board, spec, n, i, j)
      invariant CagesUpTo(cages, spec, n, i * n + j)
    {
      if j >= n {
        return false, board, cages;
      }
      var cageId := line[j];
      FillStep(board, cages, spec, n, i, j, cageId);
      board := board[i := board[i][j := Some(cageId)]];
      cages := AppendCell(cages, cageId, XyToVariable(n, i, j));
    }
    FillRowDone(board, cages, spec, n, i, |line|);
    ok := true;
  }

  /** The layout loop `for i in range(self.N)`: records each letter of each layout row on the
      board and appends the cell to the cage of that letter, creating the
      cage the first time its letter is seen. */
  method FillBoard(n: nat, rows: seq<string>) returns (r: Result<(Board, map<char, Cage>), BuildError>)
    ensures r.Ok? <==> RowsFit(n, rows)
    ensures r.Err? ==> r.error == RowTooLong
    ensures r.Ok? ==> r.value.0 == BoardSpec(n, rows) && r.value.1 == InitialCages(BoardSpec(n, rows), n)
  {
    ghost var spec := BoardSpec(n, rows);
    var board: Board := seq(n, _ => seq(n, _ => None));
    var cages: map<char, Cage> := map[];
    for i := 0 to n
      invariant BoardUpTo(board, spec, n, i, 0)
      invariant RowsFitBefore(n, rows, i)
      invariant CagesUpTo(cages, spec, n, i * n)
    {
      var line := RowText(rows, i);
      BoardSpecRow(n, rows, i);
      var ok;
      ok, board, cages := FillRow(n, i, line, board, cages, spec);
      if !ok {
        return Err(RowTooLong);
      }
      assert RowsFitBefore(n, rows, i + 1);
    }
    BoardDone(board, spec, n);
    CagesDone(cages, spec, n);
    return Ok((board, cages));
  }

  /** What one goal line yields: the cage id, the operator and the goal. */
  datatype GoalLine = GoalLine(cageId: string, opr: string, goal: int)

  /** The body of the goal loop on one goal line as `GoalText` reads it: split at ':', the
      id is the first token stripped, the operator is the second token
      without its digits, and the goal is `int()` of that token with the
      operator removed. Without a ':' there is no second token; the goal
      number fails when what is left is no digit string. */
  function ParseGoalLine(line: string): (r: Result<GoalLine, BuildError>)
    ensures r == Err(MissingGoalToken) <==> ':' !in line
    ensures r.Err? ==> r.error == MissingGoalToken || r.error == BadGoalNumber
    ensures r.Ok? ==> NoDigits(r.value.opr) && r.value.goal >= 0 && Strip(r.value.cageId) == r.value.cageId
  {
    var toks := Split(line, ':');
    SplitCount(line, ':');
    if |toks| < 2 then Err(MissingGoalToken)
    else
      var opr := RemoveDigits(toks[1]);
      match ParseInt(RemoveAll(toks[1], opr))
      case None => Err(BadGoalNumber)
      case Some(goal) =>
        StripIdempotent(toks[0]);
        Ok(GoalLine(Strip(toks[0]), opr, goal))
  }

  lemma StripGoalLine(id: string, rest: string)
    requires Strip(id) == id && rest != [] && !IsWhitespace(rest[|rest| - 1])
    ensures Strip(id + [':'] + rest) == id + [':'] + rest
  {
    var line := id + [':'] + rest;
    assert line[0] == if id == [] then ':' else id[0];
    assert line[|line| - 1] == rest[|rest| - 1];
  }

  lemma SplitGoalLine(id: string, d: string, opr: string)
    requires ':' !in id && AllDigits(d) && ':' !in opr
    ensures Split(id + [':'] + (d + opr), ':') == [id, d + opr]
  {
    forall k | 0 <= k < |d + opr|
      ensures (d + opr)[k] != ':'
    {
      if k < |d| {
        assert IsDigit(d[k]);
      } else {
        assert opr[k - |d|] in opr;
      }
    }
    SplitAtFirst(id, ':', d + opr);
    SplitWithout(d + opr, ':');
  }

  /** The second token of such a line: the substitution leaves the operator
      and deleting the operator leaves the digits. */
  lemma GoalTokenParts(d: string, opr: string)
    requires AllDigits(d) && opr != [] && NoDigits(opr)
    ensures RemoveDigits(d + opr) == opr
    ensures RemoveAll(d + opr, opr) == d
  {
    RemoveDigitsAppend(d, opr);
    RemoveTrailingPattern(d, opr);
  }

  /** A goal line made of an id, ':', a digit string and an operator reads
      back as that id, that operator and the number the digits denote. */
  lemma ParseGoalLineParts(id: string, d: string, opr: string)
    requires ':' !in id && Strip(id) == id
    requires d != [] && AllDigits(d)
    requires opr != [] && NoDigits(opr) && ':' !in opr
    ensures ParseGoalLine(id + [':'] + (d + opr)) == Ok(GoalLine(id, opr, DigitsValue(d)))
  {
    SplitGoalLine(id, d, opr);
    GoalTokenParts(d, opr);
  }

  lemma GoalLineConcat(id: string, d: string, opr: string)
    ensures id + ":" + d + opr == id + [':'] + (d + opr)
  {
  }

  /** A goal line written as id, ':', the goal in decimal and an operator
      reads back, once stripped, as that id, operator and goal. */
  lemma GoalLineRoundTrip(id: string, goal: nat, opr: string)
    requires ':' !in id && Strip(id) == id
    requires opr != [] && NoDigits(opr) && ':' !in opr && !IsWhitespace(opr[|opr| - 1])
    ensures ParseGoalLine(Strip(id + ":" + DecimalString(goal) + opr)) == Ok(GoalLine(id, opr, goal))
  {
    var d := DecimalString(goal);
    GoalLineConcat(id, d, opr);
    StripGoalLine(id, d + opr);
    ParseGoalLineParts(id, d, opr);
    DecimalRoundTrip(goal);
  }

  /** The arity rule the goal loop asserts: '-' and '/' cages have two cells, '='
      cages one. */
  predicate ArityFits(cage: Cage)
  {
    && (cage.opr == "-" || cage.opr == "/" ==> |cage.vars| == 2)
    && (cage.opr == "=" ==> |cage.vars| == 1)
  }

  predicate ArityOk(cages: map<char, Cage>)
  {
    forall c :: c in cages ==> ArityFits(cages[c])
  }

  /** One round of the goal loop `for i in range(len(self.cage_dict))`: the named cage takes the line's
      operator and goal, and the arity rule is checked. */
  function ApplyGoal(cages: map<char, Cage>, line: string): Result<map<char, Cage>, BuildError>
  {
    match ParseGoalLine(line)
    case Err(e) => Err(e)
    case Ok(g) => SetGoal(cages, g)
  }

  /** Setting `opr` and `goal` of `cage_dict[cage_id]` and the arity asserts,
      on a parsed goal line; a missing cage is the `KeyError`. */
  function SetGoal(cages: map<char, Cage>, g: GoalLine): Result<map<char, Cage>, BuildError>
  {
    if |g.cageId| != 1 || g.cageId[0] !in cages then Err(UnknownCage)
    else
      var cage := cages[g.cageId[0]].(opr := g.opr, goal := g.goal);
      if ArityFits(cage) then Ok(cages[g.cageId[0] := cage]) else Err(WrongArity)
  }

  lemma SetGoalEffect(cages: map<char, Cage>, g: GoalLine)
    ensures SetGoal(cages, g).Ok? <==>
      |g.cageId| == 1 && g.cageId[0] in cages &&
      ArityFits(cages[g.cageId[0]].(opr := g.opr, goal := g.goal))
    ensures SetGoal(cages, g).Ok? ==>
      var m := SetGoal(cages, g).value;
      && m.Keys == cages.Keys
      && m[g.cageId[0]].opr == g.opr && m[g.cageId[0]].goal == g.goal
      && m[g.cageId[0]].id == cages[g.cageId[0]].id
      && m[g.cageId[0]].vars == cages[g.cageId[0]].vars
      && forall c :: c in cages && c != g.cageId[0] ==> m[c] == cages[c]
    ensures SetGoal(cages, g) == Err(UnknownCage) <==> |g.cageId| != 1 || g.cageId[0] !in cages
    ensures SetGoal(cages, g) == Err(WrongArity) <==>
      |g.cageId| == 1 && g.cageId[0] in cages &&
      !ArityFits(cages[g.cageId[0]].(opr := g.opr, goal := g.goal))
  {
  }

  /** One goal line succeeds exactly when it parses, names a cage of the
      table and gives it an operator its cell count allows; then only that
      cage changes, and only in its operator and goal. */
  lemma ApplyGoalEffect(cages: map<char, Cage>, line: string)
    ensures ApplyGoal(cages, line).Ok? <==>
      ParseGoalLine(line).Ok? &&
      var g := ParseGoalLine(line).value;
      |g.cageId| == 1 && g.cageId[0] in cages &&
      ArityFits(cages[g.cageId[0]].(opr := g.opr, goal := g.goal))
    ensures ApplyGoal(cages, line).Ok? ==>
      var g := ParseGoalLine(line).value;
      var m := ApplyGoal(cages, line).value;
      && m.Keys == cages.Keys
      && m[g.cageId[0]].opr == g.opr && m[g.cageId[0]].goal == g.goal
      && m[g.cageId[0]].id == cages[g.cageId[0]].id
      && m[g.cageId[0]].vars == cages[g.cageId[0]].vars
      && forall c :: c in cages && c != g.cageId[0] ==> m[c] == cages[c]
    ensures ApplyGoal(cages, line) == Err(MissingGoalToken) <==> ':' !in line
    ensures ApplyGoal(cages, line) == Err(BadGoalNumber) <==> ParseGoalLine(line) == Err(BadGoalNumber)
    ensures ApplyGoal(cages, line) == Err(UnknownCage) <==>
      ParseGoalLine(line).Ok? &&
      var g := ParseGoalLine(line).value;
      |g.cageId| != 1 || g.cageId[0] !in cages
    ensures ApplyGoal(cages, line) == Err(WrongArity) <==>
      ParseGoalLine(line).Ok? &&
      var g := ParseGoalLine(line).value;
      |g.cageId| == 1 && g.cageId[0] in cages &&
      !ArityFits(cages[g.cageId[0]].(opr := g.opr, goal := g.goal))
  {
    var r := ParseGoalLine(line);
    if r.Ok? {
      SetGoalEffect(cages, r.value);
      assert ApplyGoal(cages, line) == SetGoal(cages, r.value);
    }
  }

  /** Goal lines i .. count-1 applied in turn; the first failure ends it. */
  function ApplyGoals(cages: map<char, Cage>, lines: seq<string>, i: nat, count: nat): Result<map<char, Cage>, BuildError>
    decreases count - i
  {
    if i >= count then Ok(cages)
    else
      match ApplyGoal(cages, GoalText(lines, i))
      case Err(e) => Err(e)
      case Ok(next) => ApplyGoals(next, lines, i + 1, count)
  }

  lemma SetGoalPreserves(cages: map<char, Cage>, g: GoalLine)
    requires ArityOk(cages) && SetGoal(cages, g).Ok?
    ensures SetGoal(cages, g).value.Keys == cages.Keys
    ensures forall c :: c in cages ==>
      SetGoal(cages, g).value[c].id == cages[c].id &&
      SetGoal(cages, g).value[c].vars == cages[c].vars
    ensures ArityOk(SetGoal(cages, g).value)
  {
    SetGoalEffect(cages, g);
    var m := SetGoal(cages, g).value;
    forall c | c in m
      ensures ArityFits(m[c])
    {
      if c != g.cageId[0] {
        assert m[c] == cages[c];
      }
    }
  }

  lemma ApplyGoalPreserves(cages: map<char, Cage>, line: string)
    requires ArityOk(cages) && ApplyGoal(cages, line).Ok?
    ensures ApplyGoal(cages, line).value.Keys == cages.Keys
    ensures forall c :: c in cages ==>
      ApplyGoal(cages, line).value[c].id == cages[c].id &&
      ApplyGoal(cages, line).value[c].vars == cages[c].vars
    ensures ArityOk(ApplyGoal(cages, line).value)
  {
    var g := ParseGoalLine(line).value;
    assert ApplyGoal(cages, line) == SetGoal(cages, g);
    SetGoalPreserves(cages, g);
  }

  /** Reading the goals keeps every cage's id and cells, and leaves every cage
      with an operator its cell count allows. */
  lemma {:induction false} ApplyGoalsPreserves(cages: map<char, Cage>, lines: seq<string>, i: nat, count: nat)
    requires ArityOk(cages)
    requires ApplyGoals(cages, lines, i, count).Ok?
    ensures ApplyGoals(cages, lines, i, count).value.Keys == cages.Keys
    ensures forall c :: c in cages ==>
      ApplyGoals(cages, lines, i, count).value[c].id == cages[c].id &&
      ApplyGoals(cages, lines, i, count).value[c].vars == cages[c].vars
    ensures ArityOk(ApplyGoals(cages, lines, i, count).value)
    decreases count - i
  {
    if i < count {
      var next := ApplyGoal(cages, GoalText(lines, i)).value;
      ApplyGoalPreserves(cages, GoalText(lines, i));
      ApplyGoalsPreserves(next, lines, i + 1, count);
    }
  }

  /** The table the goal lines leave still partitions the board, and every
      cage's operator fits its cell count. */
  lemma GoalsKeepPartition(cages: map<char, Cage>, lines: seq<string>, board: Board, n: nat)
    requires Partitioned(cages, board, n) && ArityOk(cages)
    requires ApplyGoals(cages, lines, 0, |cages|).Ok?
    ensures Partitioned(ApplyGoals(cages, lines, 0, |cages|).value, board, n)
    ensures ArityOk(ApplyGoals(cages, lines, 0, |cages|).value)
  {
    ApplyGoalsPreserves(cages, lines, 0, |cages|);
    PartitionKept(cages, ApplyGoals(cages, lines, 0, |cages|).value, board, n);
  }

  /** One round of ApplyGoals: a failing line ends it with that line's error. */
  lemma ApplyGoalsStep(cages: map<char, Cage>, lines: seq<string>, i: nat, count: nat)
    requires i < count
    ensures ApplyGoal(cages, GoalText(lines, i)).Err? ==>
      ApplyGoals(cages, lines, i, count) == Err(ApplyGoal(cages, GoalText(lines, i)).error)
    ensures ApplyGoal(cages, GoalText(lines, i)).Ok? ==>
      ApplyGoals(cages, lines, i, count) == ApplyGoals(ApplyGoal(cages, GoalText(lines, i)).value, lines, i + 1, count)
  {
  }

  /** The goal loop `for i in range(len(self.cage_dict))`: one goal line per cage. */
  method ReadGoals(cages0: map<char, Cage>, lines: seq<string>) returns (r: Result<map<char, Cage>, BuildError>)
    ensures r == ApplyGoals(cages0, lines, 0, |cages0|)
  {
    var cages := cages0;
    var count := |cages0|;
    for i := 0 to count
      invariant ApplyGoals(cages, lines, i, count) == ApplyGoals(cages0, lines, 0, count)
    {
      var line := GoalText(lines, i);
      var step := ApplyGoal(cages, line);
      ApplyGoalsStep(cages, lines, i, count);
      if step.Err? {
        return Err(step.error);
      }
      cages := step.value;
    }
    return Ok(cages);
  }
}
