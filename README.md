# KenKen puzzle model

A Dafny model of the core of a KenKen solver adapter (`src/kenken.py`).
The adapter reads a puzzle file and builds the data a constraint solver works on:

- the board size N;
- one variable per cell, numbered row by row;
- the values 1 .. N each cell may take;
- for every cell, its row and column neighbours;
- the cage board, which holds the cage letter of each cell;
- the cage table, mapping each letter to a cage with its cells, its operator and its goal.

It also supplies the binary constraint predicate `constraints(A, a, B, b)`. The solver calls it to ask whether A = a and B = b are consistent with each other and with the current partial assignment. The predicate uses three helpers:

- `check_add_or_mul_cage` for sum and product cages;
- `check_sub_or_div_cage` for difference and quotient cages;
- `check_cage_constraint`, which dispatches on the operator.

The model is split into modules that follow the program's structure:

- `Text` (text.dfy): the string operations the reader applies to its lines.
  - `str.strip()`, `str.split(':')`, the digit-deleting substitution, `str.replace(opr, '')` and `int()` on digit strings.
  - Laws about them: split/join, removal of a trailing operator, and decimal round trip.
- `Grid` (grid.dfy):
  - row-major numbering (`xy_to_variable`, `variable_to_xy`) and its round trips;
  - the neighbour loop as a method proved equal to a neighbour-table function;
  - the shape and symmetry of that table.
- `CageTable` (cagetable.dfy):
  - the layout loop, as a method proved to build the board the layout describes and the cage table it induces;
  - the goal-line loop, as a method proved equal to a fold of one goal line at a time;
  - goal-line parsing and its round trip;
  - the arity rule;
  - preservation of the cell partition.
- `Kenken` (kenken.dfy):
  - the constructor on the lines of the file, together with every way it fails;
  - the validity it guarantees;
  - `get_cage`, and cage identity by id.
- `Constraint` (constraint.dfy):
  - the cage checks (the two loops are methods proved against predicates), the dispatch and the predicate;
  - exactness of the checks on fully assigned cages;
  - soundness: a solution is never rejected while its values remain among the choices and every open product-cage cell gets 2 or more;
  - symmetry of the predicate, and rejection of row and column clashes.

The solver's current assignment (`infer_assignment()`, line 128) is a `map<int, int>` parameter. The partner's remaining values (`choices(Y)`, line 192) are a parameter of type `int -> seq<int>`.

The file is a sequence of lines. A line past the end of the file reads as the empty string, as `readline` returns `''` at end of file. Each exception the constructor can raise is an error value:

| Error | Raised by | Cause |
|---|---|---|
| `BadSize` | `int()` | the first line is not a number |
| `RowTooLong` | `IndexError` | a layout row is longer than N |
| `MissingGoalToken` | `IndexError` on `toks[1]` | a goal line has no `:` |
| `BadGoalNumber` | `int()` | a goal is not a number |
| `UnknownCage` | `KeyError` | a goal line names no cage of the table |
| `WrongArity` | failed `assert` | an operator does not fit its cage's cell count |

A cell that a short layout row leaves unlettered keeps the board's placeholder `0`, here `None`. `get_cage` on such a cell fails with `KeyError`, here `None`.

## Model

| member | source | states |
|---|---|---|
| Grid.XyToVariable | src/kenken.py:105-106 | a row and column inside the board give a cell of the board |
| Grid.VariableToXY | src/kenken.py:99-102 | the column is in 0 .. N-1, converting back gives the cell, and the row is in range exactly when the number is a cell |
| Grid.XyRoundTrip | src/kenken.py:99-106 | `variable_to_xy(xy_to_variable(i, j)) == (i, j)` for every in-range row and column |
| Grid.VariableRoundTrip | src/kenken.py:99-106 | every cell has an in-range row and column, and converting back gives the cell |
| Grid.NeighborsUpTo | src/kenken.py:86-93 | the neighbour list after k rounds of the inner loop; Grid.NeighborsUpToMembers, Grid.NeighborsUpToLength and Grid.NeighborsUpToDistinct state its contents |
| Grid.NeighborsUpToMembers | src/kenken.py:86-93 | after k rounds of the inner loop the list holds exactly the other cells of the column with row below k and the other cells of the row with column below k |
| Grid.NeighborsUpToLength | src/kenken.py:86-93 | each round adds two cells, except one fewer in the cell's own row and one fewer in its own column |
| Grid.NeighborsUpToDistinct | src/kenken.py:86-93 | the inner loop never appends a cell twice |
| Grid.NeighborTable | src/kenken.py:82-93 | the whole `neighbors` table; Grid.BuildNeighbors is proved equal to it and Grid.NeighborListShape and Grid.NeighborsSymmetric state its shape |
| Grid.NeighborListShape | src/kenken.py:82-93 | a cell's neighbour list has exactly 2*(N-1) distinct entries and never the cell itself; a cell is in it exactly when it is another cell of the same row or column |
| Grid.NeighborsSymmetric | src/kenken.py:82-93 | w is in v's neighbour list exactly when v is in w's |
| Grid.BuildNeighbors | src/kenken.py:82-93 | the nested loops build, for every cell and no other key, the neighbour list the table function defines |
| CageTable.NewCage | src/kenken.py:9-13 | a fresh cage has the given id, no cells, no operator and goal -1; CageTable.AddCell and CageTable.CagesStep carry what the loop does with it |
| CageTable.AddCell | src/kenken.py:54-56 | the letter's cage is created if missing and the cell appended to its cells; the keys gain the letter and every other cage is unchanged |
| CageTable.AppendCell | src/kenken.py:54-56 | creating the cage when its letter is new and then appending the cell gives exactly the table CageTable.AddCell describes |
| CageTable.RowText | src/kenken.py:49 | layout row i is `file.readline().strip()`, the empty string past the end of the file; CageTable.FillRow and CageTable.FillBoard use it |
| CageTable.CageAt | src/kenken.py:110-111 | the letter `cage_board[i][j]` shows at the cell's row and column; Kenken.GetCage states what the lookup returns |
| CageTable.BoardSpec | src/kenken.py:43-52 | the board has N rows of N entries, the letters of each layout row followed by placeholders |
| CageTable.CellsOfMembers | src/kenken.py:50-56 | the cells the loop collects for a letter are exactly the visited cells that carry that letter |
| CageTable.CellsOfIncreasing | src/kenken.py:50-56 | the cells of a cage are listed in increasing (row-major discovery) order |
| CageTable.IdsBeforeMembers | src/kenken.py:54-55 | a letter gets a cage exactly when some visited cell carries it |
| CageTable.InitialCages | src/kenken.py:46-56 | the cage table the layout loop leaves: one cage per letter, holding its cells, with no operator and goal -1; its properties are stated by CageTable.InitialCagesPartition and CageTable.FillBoard |
| CageTable.InitialCagesPartition | src/kenken.py:46-56 | after the layout rows each cage lists, in increasing order, exactly the cells marked with its id, and each marked cell belongs to the cage of its mark |
| CageTable.PartitionKept | src/kenken.py:67-68 | changing only operators and goals keeps the partition |
| CageTable.FullRowsMarkEveryCell | src/kenken.py:46-56 | when every layout row has N letters, every cell carries a letter |
| CageTable.CagesStep | src/kenken.py:54-56 | creating the cage if needed and appending the cell keeps the table equal to the one the visited cells induce |
| CageTable.FillRow | src/kenken.py:49-56 | the inner loop fails exactly when the row is longer than N; otherwise the board and table afterwards are those the layout induces through the end of the row |
| CageTable.FillBoard | src/kenken.py:46-56 | the outer loop fails exactly when some row is too long; otherwise it returns the board the layout describes and the cage table that board induces |
| CageTable.GoalText | src/kenken.py:60 | goal line i is `file.readline().strip()`, the empty string past the end of the file; CageTable.ReadGoals uses it |
| CageTable.ParseGoalLine | src/kenken.py:61-65 | on the stripped line: `MissingGoalToken` exactly when there is no `:`; otherwise `BadGoalNumber` or an id already stripped, a digit-free operator and a natural goal; CageTable.ParseGoalLineParts and CageTable.GoalLineRoundTrip give its results on well-formed lines |
| CageTable.GoalTokenParts | src/kenken.py:64-65 | on a digit string followed by an operator, the substitution leaves the operator and the replacement leaves the digits |
| CageTable.ParseGoalLineParts | src/kenken.py:60-65 | a line made of an id, `:`, digits and an operator parses as that id, that operator and the number the digits denote |
| CageTable.GoalLineRoundTrip | src/kenken.py:60-65 | a line written as id, `:`, the goal in decimal and an operator reads back as that id, operator and goal (`A:240*` gives `A`, `*`, 240) |
| CageTable.ArityFits | src/kenken.py:70-75 | the arity the goal loop asserts: two cells for `-` and `/`, one for `=`; CageTable.SetGoalEffect and CageTable.ApplyGoalsPreserves use it |
| CageTable.ApplyGoal | src/kenken.py:60-75 | one round of the goal loop on the table; its effect is stated by CageTable.ApplyGoalEffect and CageTable.ApplyGoalPreserves |
| CageTable.ApplyGoals | src/kenken.py:59-75 | the goal loop as a fold over `len(cage_dict)` lines stopping at the first error; CageTable.ApplyGoalsPreserves, CageTable.GoalsKeepPartition and CageTable.ReadGoals carry its properties |
| CageTable.SetGoal | src/kenken.py:67-75 | setting the named cage's operator and goal, with `UnknownCage` for the `KeyError` and `WrongArity` for a failed arity assert; its outcomes are stated by CageTable.SetGoalEffect |
| CageTable.SetGoalEffect | src/kenken.py:67-75 | `UnknownCage` exactly when the id is not one letter of the table; `WrongArity` exactly when it is but the new operator does not fit the cage's cell count; success otherwise, and then only that cage's operator and goal change |
| CageTable.ApplyGoalEffect | src/kenken.py:59-75 | one goal line fails with `MissingGoalToken` exactly when it has no `:`, with `BadGoalNumber` exactly when its goal is no number, with `UnknownCage` exactly when it parses but names no cage, and with `WrongArity` exactly when the operator does not fit the named cage; otherwise only that cage changes, and only in operator and goal |
| CageTable.ApplyGoalPreserves | src/kenken.py:59-75 | one goal line keeps the keys, ids and cells, and the arity rule for every cage |
| CageTable.ApplyGoalsPreserves | src/kenken.py:59-75 | the whole goal loop keeps every cage's id and cells and leaves every cage with an operator its cell count allows |
| CageTable.GoalsKeepPartition | src/kenken.py:59-75 | the table after the goal lines still partitions the board and meets the arity rule |
| CageTable.ApplyGoalsStep | src/kenken.py:59-68 | a failing goal line ends the loop with its error; a good one hands the updated table to the next round |
| CageTable.ReadGoals | src/kenken.py:59-75 | the loop over `len(cage_dict)` goal lines returns what applying the lines in order gives, stopping at the first error |
| Text.StripLeft | src/kenken.py:49 | the result is a suffix that does not start with whitespace, and only whitespace was removed |
| Text.StripRight | src/kenken.py:49 | the result is a prefix that does not end with whitespace, and only whitespace was removed |
| Text.Strip | src/kenken.py:38 | the result is the input with whitespace-only runs cut from both ends (a contiguous slice with only whitespace before and after it), with no whitespace at either end; a string without any there is unchanged |
| Text.StripParts | src/kenken.py:38 | stripping the left end and then the right cuts exactly the leading and trailing whitespace |
| Text.StripIdempotent | src/kenken.py:62 | stripping twice is stripping once, so the id CageTable.ParseGoalLine returns, `toks[0].strip()`, is stripped, and stripping it again changes nothing |
| Text.Split | src/kenken.py:61 | at least one piece, and no piece holds the separator |
| Text.SplitJoin | src/kenken.py:61 | joining the pieces with the separator gives back the line |
| Text.SplitWithout | src/kenken.py:61 | a string without the separator is one piece |
| Text.SplitAtFirst | src/kenken.py:61 | the first piece ends at the first separator |
| Text.SplitCount | src/kenken.py:61 | there are two or more pieces exactly when the line holds the separator, so `toks[1]` exists exactly then |
| Text.RemoveDigits | src/kenken.py:64 | no digit is left, a digit-free string is unchanged, and a digit string becomes empty |
| Text.RemoveDigitsAppend | src/kenken.py:64 | the substitution works piecewise over concatenation |
| Text.RemoveAll | src/kenken.py:65 | the result is no longer than the input; an empty pattern, or one that occurs nowhere, changes nothing |
| Text.RemoveAllLeftmost | src/kenken.py:65 | occurrences are removed left to right: with no occurrence starting inside x, `(x + pat + y).replace(pat, '')` is x followed by `y.replace(pat, '')` |
| Text.RemoveTrailingPattern | src/kenken.py:65 | removing an operator from a digit string followed by that operator leaves the digits |
| Text.ParseInt | src/kenken.py:38 | a number exactly for a non-empty digit string, and never negative |
| Text.DecimalRoundTrip | src/kenken.py:65 | `int(str(g)) == g` for every natural g |
| Kenken.SizeOf | src/kenken.py:38 | a size exactly when the stripped first line is a non-empty digit string, and then a natural number |
| Kenken.Domains | src/kenken.py:39-40 | the domain table; its shape is stated by Kenken.DomainsShape |
| Kenken.DomainsShape | src/kenken.py:39-40 | every cell and nothing else has a domain, and each domain holds exactly the N values 1 .. N |
| Kenken.Build | src/kenken.py:28-93 | size line not a number gives `BadSize`; a too-long row gives `RowTooLong`; otherwise it succeeds exactly when every goal line does, with that line's error if not; a built object is valid, with the size, the board the layout describes and the table the goal lines give |
| Kenken.BuiltValid | src/kenken.py:39-93 | the parts the constructor assembles make a valid object, with a partitioned table meeting the arity rule |
| Kenken.GetCage | src/kenken.py:109-112 | the lookup succeeds exactly when the board has a letter at the cell; the cage it returns has that letter as id, is the table's entry for it and lists the cell |
| Kenken.GetCageOwner | src/kenken.py:109-112 | a cell is in cage c's cells exactly when `get_cage` returns cage c |
| Kenken.CageIdentity | src/kenken.py:18-21 | comparing the ids of the looked-up cages is comparing the cages, and is comparing the board's letters at the two cells |
| Kenken.FullRowsCageEveryCell | src/kenken.py:46-56 | when every layout row has N letters, every cell has a cage |
| Kenken.NeighborsOfValid | src/kenken.py:82-93 | in a built object, B is in A's neighbours exactly when it is another cell of A's row or column, and exactly when A is in B's |
| Constraint.AssignedValues | src/kenken.py:155-164 | no more values are collected than the cage has cells; Constraint.AssignedValuesMembers and Constraint.AssignedAll say which |
| Constraint.AssignedAll | src/kenken.py:162-172 | all cells are counted exactly when all are assigned, and then the collected values are the cells' values in order |
| Constraint.AssignedValuesMembers | src/kenken.py:155-164 | a value is collected exactly when some cell of the cage is assigned it |
| Constraint.AssignedValuesCount | src/kenken.py:162-164 | `allocated` is the number of positions of the cage whose cell is assigned: one value is collected for each |
| Constraint.FoldIsSum | src/kenken.py:153-163 | the running total starting at 0 with `+` is the sum |
| Constraint.FoldIsProduct | src/kenken.py:153-163 | the running total starting at 1 with `*` is the product |
| Constraint.AddOrMulOk | src/kenken.py:166-173 | the decision of `check_add_or_mul_cage`; stated by Constraint.AddOrMulComplete, Constraint.AddOrMulPartial and Constraint.CheckAddOrMulCage |
| Constraint.CheckAddOrMulCage | src/kenken.py:150-173 | true exactly when (total < goal and count < cells) or (total == goal and count == cells), where the total folds the operator over the assigned cells of A's cage and the count counts them; a and b play no part |
| Constraint.AddOrMulComplete | src/kenken.py:166-172 | with every cell assigned, the check accepts exactly when the values sum (multiply) to the goal |
| Constraint.AddOrMulPartial | src/kenken.py:166-169 | with a cell unassigned, the check accepts exactly when the total so far is below the goal |
| Constraint.SumGap | src/kenken.py:162-166 | completing an assignment with positive values adds at least one to the sum per cell filled |
| Constraint.ProductGap | src/kenken.py:162-166 | completing with positive values never lowers the product, and at least doubles it when the cells filled get 2 or more |
| Constraint.SumCheckSound | src/kenken.py:150-173 | the sum check never rejects a partial assignment that a positive solution of the cage extends |
| Constraint.ProductCheckSound | src/kenken.py:150-173 | the product check never rejects such an assignment when every open cell gets 2 or more in the solution |
| Constraint.ProductCheckRejectsPendingOne | src/kenken.py:166-173 | a product cage with goal 2 whose first cell holds 2 and whose second is open is rejected, although 1 completes it |
| Constraint.MulOkAllowingOnes | src/kenken.py:166-173 | the product check with `total <= goal` while a cell is open; stated by the two lemmas below |
| Constraint.ProductGrows | src/kenken.py:162-166 | completing with positive values never lowers the product, and the partial product is at least 1 |
| Constraint.ProductAllowingOnesSound | src/kenken.py:166-173 | the corrected product check never rejects a partial assignment that a positive solution of the cage extends, with no condition on the open cells |
| Constraint.ProductAllowingOnesDiffers | src/kenken.py:166-173 | the corrected check accepts exactly what the check as written accepts plus a total equal to the goal with a cell open, and it accepts the assignment the check as written rejects |
| Constraint.FitsSub | src/kenken.py:134-135 | `max(x, y) == min(x, y) + goal` is `abs(x - y) == goal`, and is symmetric |
| Constraint.FitsDiv | src/kenken.py:138-139 | the quotient equation is `max == min * goal`, and is symmetric |
| Constraint.AnyFits | src/kenken.py:192-195 | whether some choice of the partner fits, as the loop over `choices(Y)` reads them; Constraint.AnyFitsExists and Constraint.MoreChoices state it |
| Constraint.AnyFitsExists | src/kenken.py:192-195 | the loop over the choices accepts exactly when some choice fits |
| Constraint.MoreChoices | src/kenken.py:192-195 | adding choices can only turn a rejection into an acceptance |
| Constraint.Partner | src/kenken.py:180-181 | in a two-cell cage holding X, Y is the other cell |
| Constraint.SubOrDivOk | src/kenken.py:176-195 | the decision of `check_sub_or_div_cage`; stated by Constraint.SubOrDivUnassigned and Constraint.CheckSubOrDivCage |
| Constraint.SubOrDivUnassigned | src/kenken.py:189-195 | with the partner unassigned, the check accepts exactly when some choice of the partner fits |
| Constraint.CheckSubOrDivCage | src/kenken.py:176-195 | with the partner assigned, the equation on x and its value; otherwise whether some partner choice fits, stopping at the first |
| Constraint.CheckCageConstraint | src/kenken.py:198-209 | the dispatch on the cage's operator, with `=` comparing the value with the goal; Constraint.CheckCageComplete and Constraint.CheckCageSound carry its properties |
| Constraint.CheckCageComplete | src/kenken.py:198-209 | on a fully assigned cage, the check on a cell's value accepts exactly when the cage meets its goal under its operator |
| Constraint.SubOrDivCheckSound | src/kenken.py:176-195 | the difference or quotient check never rejects a solution's value while the partner's solution value is assigned or still a choice |
| Constraint.CheckCageSound | src/kenken.py:198-209 | every known operator is dispatched, and the cage check never rejects a solution's value under the conditions above |
| Constraint.SameCageNotIdentity | src/kenken.py:140-142 | two different cells of one cage never share an `=` cage, so that branch is unreachable |
| Constraint.Constraints | src/kenken.py:116-147 | an accepted pair never clashes in a row or column; Constraint.ClashRejects, Constraint.ConstraintsSymmetric, Constraint.SameCageIgnoresValues, Constraint.SameCageSub and Constraint.ConstraintsSound carry the rest |
| Constraint.Clash | src/kenken.py:121-124 | the two `neighbors` tests with equal values; Constraint.ClashRejects and Constraint.Constraints state its role |
| Constraint.ClashRejects | src/kenken.py:117-123 | two different cells of one row or column with the same value are rejected, whatever their cages |
| Constraint.ConstraintsSymmetric | src/kenken.py:116-147 | `constraints(A, a, B, b) == constraints(B, b, A, a)` when both call orders are `Defined` |
| Constraint.SameCageIgnoresValues | src/kenken.py:130-137 | for two cells of one sum or product cage, the values matter only through the clash test |
| Constraint.SameCageSub | src/kenken.py:134-135 | two cells of one difference cage are accepted exactly when they do not clash and the larger value is the smaller plus the goal |
| Constraint.SameCagePairSound | src/kenken.py:134-139 | the two cells of a satisfied difference or quotient cage meet its test in either order |
| Constraint.ConstraintsSound | src/kenken.py:116-147 | the predicate is defined on, and accepts, the values a solution gives any two different cells, when the solution extends the assignment and keeps its values among the choices, and every open product-cage cell gets 2 or more (`NoPendingOne`) |

## Findings

| source | as written | input that shows it | evidently intended | confidence | as-written member | corrected member |
|---|---|---|---|---|---|---|
| src/kenken.py:166-173 | a product cage with a cell open is accepted only while the product so far is below the goal | a two-cell `2*` cage with the first cell assigned 2 and the second open is rejected, although 1 completes the cage | with a cell open, accept while the product so far is at most the goal, as the open cells may still take 1; this rests on the check's purpose, never rejecting an assignment that can still be completed, not on its comment, which describes the `<` test as written | not executed; whether the search then misses a solution depends on its variable order, which is not part of this model | Constraint.ProductCheckRejectsPendingOne | Constraint.ProductAllowingOnesSound |

## Left out

- The `csp` module is not part of this model: the search, AC-3, min-conflicts, `infer_assignment` and `choices`. The assignment and the partner's choices are parameters of the cage checks and of the predicate.
- Opening and reading the file: the input is the sequence of its lines.
- `int()` is modelled on non-empty runs of ASCII digits, so signs, surrounding whitespace, underscores and non-ASCII digits are not modelled, nor is the limit of 4300 digits that Python 3.11 (and the 3.10.7 and 3.9.14 updates) puts on `int()` of a digit string, beyond which it raises `ValueError`; `Text.ParseInt` accepts digit strings of any length. A size written with a sign, such as `-3`, is `BadSize` here, although Python's `int()` accepts it.
- `str.strip()` is modelled on ASCII whitespace only.
- `print_result`, the `__main__` driver, `random`, `time` and `Cage.__repr__`: output, argument handling and unused imports.
- The unknown-operator branches (lines 143-145, 210-212) print and then fail an `assert`. Here they are excluded by the precondition `Defined`, which requires a known operator for every cage the call reaches.
- `get_cage` on a cell without a letter raises `KeyError` in the checks. `Defined` excludes this in the same way.
- The objects are values. The board, the cage table and the `Cage` records are built by local updates and returned; aliasing of the `Cage` objects is not modelled, since nothing changes them after construction.
- Constraint.ConstraintsSound: additionally assumes that, in product cages, every cell the assignment leaves open gets 2 or more in the solution. Without this the product check can reject a solution, as Constraint.ProductCheckRejectsPendingOne shows.
- Constraint.Constraints: the `assert A != B` at line 117 is the precondition `A != B`.
- Constraint.ConstraintsSymmetric: assumes `Defined` in both call orders. At line 147 the short-circuit `and` skips the second cage check when the first rejects, so one order can reach an undefined check that the other never calls.
- CageTable.ParseGoalLine takes the line already stripped, as line 60 strips it before splitting; CageTable.GoalLineRoundTrip composes the two.
- The model keeps the product check as written (Constraint.AddOrMulOk); the corrected Constraint.MulOkAllowingOnes is proved sound beside it but is not what Constraint.Constraints calls.
