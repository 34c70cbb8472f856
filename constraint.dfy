/** The constraint predicate the solver calls on two cells and two values,
    with the cage checks behind it. The solver's current assignment and the
    values it still allows for a cell, which the code fetches from the
    solver object, are parameters: `inf` and `choices`. */
module Constraint {
  import opened Wrappers
  import opened Grid
  import opened CageTable
  import opened Kenken

  /** The two operators a running total folds with: `operator.add` and
      `operator.mul`. */
  datatype Op = Add | Mul

  function Apply(op: Op, x: int, y: int): int
  {
    match op
    case Add => x + y
    case Mul => x * y
  }

  /** The starting total: 1 for a product, 0 for a sum. */
  function Unit(op: Op): int
  {
    match op
    case Add => 0
    case Mul => 1
  }

  function Max(x: int, y: int): int
  {
    if x >= y then x else y
  }

  function Min(x: int, y: int): int
  {
    if x <= y then x else y
  }

  function Abs(x: int): int
  {
    if x >= 0 then x else -x
  }

  /** The values the assignment gives to those cells of `vars` it assigns,
      in the order of `vars`. */
  function AssignedValues(inf: map<int, int>, vars: seq<int>): (vals: seq<int>)
    ensures |vals| <= |vars|
  {
    if vars == [] then []
    else
      AssignedValues(inf, vars[..|vars| - 1])
      + (if vars[|vars| - 1] in inf then [inf[vars[|vars| - 1]]] else [])
  }

  /** A value is collected exactly when some cell of `vars` is assigned it. */
  lemma {:induction false} AssignedValuesMembers(inf: map<int, int>, vars: seq<int>)
    ensures forall x :: x in AssignedValues(inf, vars) <==> exists v :: v in vars && v in inf && inf[v] == x
  {
    if vars != [] {
      var init, last := vars[..|vars| - 1], vars[|vars| - 1];
      AssignedValuesMembers(inf, init);
      assert vars == init + [last];
      forall x | x in AssignedValues(inf, vars)
        ensures exists v :: v in vars && v in inf && inf[v] == x
      {
        if x in AssignedValues(inf, init) {
          var v :| v in init && v in inf && inf[v] == x;
          assert v in vars;
        } else {
          assert last in vars;
        }
      }
      forall x, v | v in vars && v in inf && inf[v] == x
        ensures x in AssignedValues(inf, vars)
      {
        if v != last {
          assert v in init;
        }
      }
    }
  }

  /** The positions of `vars` whose cell the assignment assigns. */
  function AssignedPositions(inf: map<int, int>, vars: seq<int>): set<int>
  {
    set k | 0 <= k < |vars| && vars[k] in inf
  }

  /** One value is collected per assigned position: `allocated` counts them. */
  lemma {:induction false} AssignedValuesCount(inf: map<int, int>, vars: seq<int>)
    ensures |AssignedValues(inf, vars)| == |AssignedPositions(inf, vars)|
  {
    if vars != [] {
      var k := |vars| - 1;
      var init := vars[..k];
      AssignedValuesCount(inf, init);
      var before := AssignedPositions(inf, init);
      assert k !in before;
      if vars[k] in inf {
        assert AssignedPositions(inf, vars) == before + {k};
      } else {
        assert AssignedPositions(inf, vars) == before;
      }
    } else {
      assert AssignedPositions(inf, vars) == {};
    }
  }

  /** `total = fn(total, v)` over the values, left to right, from Unit. */
  function Fold(op: Op, vals: seq<int>): int
  {
    if vals == [] then Unit(op) else Apply(op, Fold(op, vals[..|vals| - 1]), vals[|vals| - 1])
  }

  /** Sum and product, defined from the front. */
  function Sum(vals: seq<int>): int
  {
    if vals == [] then 0 else vals[0] + Sum(vals[1..])
  }

  function Product(vals: seq<int>): int
  {
    if vals == [] then 1 else vals[0] * Product(vals[1..])
  }

  /** Every cell of `vars` has a value in `m`. */
  predicate Covers(m: map<int, int>, vars: seq<int>)
  {
    forall k :: 0 <= k < |vars| ==> vars[k] in m
  }

  /** The values of all the cells, in order. */
  function CellValues(m: map<int, int>, vars: seq<int>): (vals: seq<int>)
    requires Covers(m, vars)
    ensures |vals| == |vars| && forall k :: 0 <= k < |vars| ==> vals[k] == m[vars[k]]
  {
    seq(|vars|, k requires 0 <= k < |vars| && vars[k] in m => m[vars[k]])
  }

  /** `sol` agrees with every assignment `inf` makes. */
  predicate Extends(sol: map<int, int>, inf: map<int, int>)
  {
    forall v :: v in inf ==> v in sol && sol[v] == inf[v]
  }

  lemma {:induction false} SumSnoc(s: seq<int>, x: int)
    ensures Sum(s + [x]) == Sum(s) + x
  {
    if s != [] {
      assert (s + [x])[1..] == s[1..] + [x];
      SumSnoc(s[1..], x);
    }
  }

  lemma {:induction false} ProductSnoc(s: seq<int>, x: int)
    ensures Product(s + [x]) == Product(s) * x
  {
    if s != [] {
      assert (s + [x])[1..] == s[1..] + [x];
      ProductSnoc(s[1..], x);
      assert s[0] * (Product(s[1..]) * x) == (s[0] * Product(s[1..])) * x;
    }
  }

  /** The running total of a sum agrees with the sum. */
  lemma {:induction false} FoldIsSum(vals: seq<int>)
    ensures Fold(Add, vals) == Sum(vals)
  {
    if vals != [] {
      var init, last := vals[..|vals| - 1], vals[|vals| - 1];
      FoldIsSum(init);
      SumSnoc(init, last);
      assert init + [last] == vals;
    }
  }

  /** The running total of a product agrees with the product. */
  lemma {:induction false} FoldIsProduct(vals: seq<int>)
    ensures Fold(Mul, vals) == Product(vals)
  {
    if vals != [] {
      var init, last := vals[..|vals| - 1], vals[|vals| - 1];
      FoldIsProduct(init);
      ProductSnoc(init, last);
      assert init + [last] == vals;
    }
  }

  /** Every cell is assigned exactly when every cell's value is collected,
      and then the collected values are the cells' values in order. */
  lemma {:induction false} AssignedAll(m: map<int, int>, vars: seq<int>)
    ensures |AssignedValues(m, vars)| == |vars| <==> Covers(m, vars)
    ensures Covers(m, vars) ==> AssignedValues(m, vars) == CellValues(m, vars)
  {
    if vars != [] {
      var k := |vars| - 1;
      var init := vars[..k];
      AssignedAll(m, init);
      AssignedStep(Add, m, vars, k);
      assert vars[..k + 1] == vars;
      assert Covers(m, vars) <==> Covers(m, init) && vars[k] in m by {
        if Covers(m, init) && vars[k] in m {
          forall j | 0 <= j < |vars|
            ensures vars[j] in m
          {
            if j < k {
              assert vars[j] == init[j];
            }
          }
        }
        if Covers(m, vars) {
          forall j | 0 <= j < |init|
            ensures init[j] in m
          {
            assert init[j] == vars[j];
          }
        }
      }
      if Covers(m, vars) {
        assert CellValues(m, vars) == CellValues(m, init) + [m[vars[k]]];
      }
    }
  }

  /** One more cell of `vars` adds its value, if assigned, to the total. */
  lemma AssignedStep(op: Op, inf: map<int, int>, vars: seq<int>, k: nat)
    requires k < |vars|
    ensures var before := AssignedValues(inf, vars[..k]);
      var after := AssignedValues(inf, vars[..k + 1]);
      && (vars[k] in inf ==> after == before + [inf[vars[k]]])
      && (vars[k] in inf ==> Fold(op, after) == Apply(op, Fold(op, before), inf[vars[k]]))
      && (vars[k] !in inf ==> after == before)
  {
    assert vars[..k + 1][..k] == vars[..k];
    var after := AssignedValues(inf, vars[..k + 1]);
    if vars[k] in inf {
      assert after[..|after| - 1] == AssignedValues(inf, vars[..k]);
    }
  }

  /** What `check_add_or_mul_cage` decides: the total of the
      assigned cells is below the goal with a cell still unassigned, or it is
      the goal with every cell assigned. */
  predicate AddOrMulOk(op: Op, inf: map<int, int>, cage: Cage)
  {
    var vals := AssignedValues(inf, cage.vars);
    var total := Fold(op, vals);
    (total < cage.goal && |vals| < |cage.vars|) || (total == cage.goal && |vals| == |cage.vars|)
  }

  /** `check_add_or_mul_cage(inferences, fn, A, a, B, b)`: folds the values
      the assignment already holds for the cells of A's cage. The values a
      and b take no part, as the lines that would use them are commented out
      in the source. */
  method CheckAddOrMulCage(p: Puzzle, inf: map<int, int>, op: Op, A: int, a: int, B: Option<int>, b: Option<int>)
    returns (ok: bool)
    requires CagesOk(p) && IsCell(p.n, A) && GetCage(p, A).Some?
    ensures ok <==> AddOrMulOk(op, inf, GetCage(p, A).value)
  {
    var count := 0;
    var cage := GetCage(p, A).value;
    var total := Unit(op);
    for k := 0 to |cage.vars|
      invariant total == Fold(op, AssignedValues(inf, cage.vars[..k]))
      invariant count == |AssignedValues(inf, cage.vars[..k])|
    {
      AssignedStep(op, inf, cage.vars, k);
      var V := cage.vars[k];
      if V in inf {
        total := Apply(op, total, inf[V]);
        count := count + 1;
      }
    }
    assert cage.vars[..|cage.vars|] == cage.vars;
    ok := (total < cage.goal && count < |cage.vars|) || (total == cage.goal && count == |cage.vars|);
  }

  /** Once every cell of the cage is assigned, the check accepts exactly when
      the cells' values sum (or multiply) to the goal. */
  lemma AddOrMulComplete(op: Op, inf: map<int, int>, cage: Cage)
    requires Covers(inf, cage.vars)
    ensures op == Add ==> (AddOrMulOk(op, inf, cage) <==> Sum(CellValues(inf, cage.vars)) == cage.goal)
    ensures op == Mul ==> (AddOrMulOk(op, inf, cage) <==> Product(CellValues(inf, cage.vars)) == cage.goal)
  {
    AssignedAll(inf, cage.vars);
    FoldIsSum(CellValues(inf, cage.vars));
    FoldIsProduct(CellValues(inf, cage.vars));
  }

  /** While a cell is unassigned, the check accepts exactly when the total so
      far is below the goal. */
  lemma AddOrMulPartial(op: Op, inf: map<int, int>, cage: Cage)
    requires !Covers(inf, cage.vars)
    ensures AddOrMulOk(op, inf, cage) <==> Fold(op, AssignedValues(inf, cage.vars)) < cage.goal
  {
    AssignedAll(inf, cage.vars);
  }

  /** Completing a partial assignment with positive values raises the sum by
      at least one per cell it fills. */
  lemma {:induction false} SumGap(inf: map<int, int>, sol: map<int, int>, vars: seq<int>)
    requires Extends(sol, inf)
    requires forall v :: v in vars ==> v in sol && sol[v] >= 1
    ensures Fold(Add, AssignedValues(sol, vars)) >=
      Fold(Add, AssignedValues(inf, vars)) + (|vars| - |AssignedValues(inf, vars)|)
  {
    if vars != [] {
      var init, x := vars[..|vars| - 1], vars[|vars| - 1];
      assert forall v :: v in init ==> v in vars;
      var k := |vars| - 1;
      assert x in vars;
      SumGap(inf, sol, init);
      AssignedStep(Add, sol, vars, k);
      AssignedStep(Add, inf, vars, k);
      assert vars[..k + 1] == vars;
      var si, ii := AssignedValues(sol, init), AssignedValues(inf, init);
      if x in inf {
        assert inf[x] == sol[x];
        assert |AssignedValues(inf, vars)| == |ii| + 1;
        assert Fold(Add, AssignedValues(sol, vars)) == Fold(Add, si) + sol[x];
        assert Fold(Add, AssignedValues(inf, vars)) == Fold(Add, ii) + sol[x];
      } else {
        assert AssignedValues(inf, vars) == ii;
        assert Fold(Add, AssignedValues(sol, vars)) == Fold(Add, si) + sol[x];
      }
    }
  }

  /** Completing a partial assignment with positive values never lowers the
      product, and doubles it at least when a cell it fills gets 2 or more. */
  lemma {:induction false} ProductGap(inf: map<int, int>, sol: map<int, int>, vars: seq<int>)
    requires Extends(sol, inf)
    requires forall v :: v in vars ==> v in sol && sol[v] >= 1
    requires forall v :: v in vars && v !in inf ==> sol[v] >= 2
    ensures Fold(Mul, AssignedValues(inf, vars)) >= 1
    ensures Fold(Mul, AssignedValues(sol, vars)) >= Fold(Mul, AssignedValues(inf, vars))
    ensures |AssignedValues(inf, vars)| < |vars| ==>
      Fold(Mul, AssignedValues(sol, vars)) >= 2 * Fold(Mul, AssignedValues(inf, vars))
  {
    if vars != [] {
      var k := |vars| - 1;
      var init, x := vars[..k], vars[k];
      assert forall v :: v in init ==> v in vars;
      assert x in vars;
      ProductGap(inf, sol, init);
      AssignedStep(Mul, sol, vars, k);
      AssignedStep(Mul, inf, vars, k);
      assert vars[..k + 1] == vars;
      var ps, pi := Fold(Mul, AssignedValues(sol, init)), Fold(Mul, AssignedValues(inf, init));
      var s := sol[x];
      assert Fold(Mul, AssignedValues(sol, vars)) == ps * s;
      if x in inf {
        assert Fold(Mul, AssignedValues(inf, vars)) == pi * s;
        ProductStepAssigned(ps, pi, s, |AssignedValues(inf, init)| < |init|);
      } else {
        assert AssignedValues(inf, vars) == AssignedValues(inf, init);
        ProductStepUnassigned(ps, pi, s);
      }
    }
  }

  lemma ProductStepAssigned(ps: int, pi: int, s: int, gap: bool)
    requires pi >= 1 && s >= 1 && ps >= pi && (gap ==> ps >= 2 * pi)
    ensures pi * s >= 1 && ps * s >= pi * s && (gap ==> ps * s >= 2 * (pi * s))
  {
    MulAtLeast(s, pi);
    MulMonotone(ps, pi, s);
    if gap {
      MulMonotone(ps, 2 * pi, s);
      assert (2 * pi) * s == 2 * (pi * s);
    }
  }

  lemma ProductStepUnassigned(ps: int, pi: int, s: int)
    requires pi >= 1 && s >= 2 && ps >= pi
    ensures ps * s >= pi && ps * s >= 2 * pi
  {
    MulMonotone(s, 2, ps);
    assert s * ps >= 2 * ps;
  }

  /** A product cage whose goal is met with two cells, the first assigned 2
      and the second still unassigned, is rejected although the value 1 for
      the second cell completes it: the check prunes a pending 1. */
  lemma ProductCheckRejectsPendingOne(cage: Cage, inf: map<int, int>, sol: map<int, int>)
    requires cage.vars == [0, 1] && cage.goal == 2
    requires inf == map[0 := 2] && sol == map[0 := 2, 1 := 1]
    ensures Extends(sol, inf) && Covers(sol, cage.vars)
    ensures Product(CellValues(sol, cage.vars)) == cage.goal
    ensures !AddOrMulOk(Mul, inf, cage)
  {
    PendingOneTotal(inf);
    PendingOneProduct(sol);
  }

  /** With only cell 0 assigned 2, the cells 0 and 1 fold to 2 with one
      value counted. */
  lemma PendingOneTotal(inf: map<int, int>)
    requires inf == map[0 := 2]
    ensures AssignedValues(inf, [0, 1]) == [2] && Fold(Mul, [2]) == 2
  {
    assert [0, 1][..1] == [0] && [0][..0] == [];
    assert AssignedValues(inf, [0]) == [2];
    assert [2][..0] == [];
  }

  /** Cells 0 and 1 holding 2 and 1 multiply to 2. */
  lemma PendingOneProduct(sol: map<int, int>)
    requires sol == map[0 := 2, 1 := 1]
    ensures Covers(sol, [0, 1]) && CellValues(sol, [0, 1]) == [2, 1] && Product([2, 1]) == 2
  {
    assert [2, 1][1..] == [1];
    assert [1][1..] == [];
  }

  /** `max(x, y) == fn(min(x, y), goal)`. */
  predicate Fits(op: Op, x: int, y: int, goal: int)
  {
    Max(x, y) == Apply(op, Min(x, y), goal)
  }

  /** The same-cage subtraction test `abs(a - b) == goal` of `constraints` is the
      equation `max(a, b) == min(a, b) + goal`, and the equation is symmetric. */
  lemma FitsSub(x: int, y: int, goal: int)
    ensures Fits(Add, x, y, goal) <==> Abs(x - y) == goal
    ensures Fits(Add, x, y, goal) <==> Fits(Add, y, x, goal)
  {
  }

  /** The same-cage division test `max(a, b) == min(a, b) * goal` is the equation with `*`; it is
      symmetric too. */
  lemma FitsDiv(x: int, y: int, goal: int)
    ensures Fits(Mul, x, y, goal) <==> Max(x, y) == Min(x, y) * goal
    ensures Fits(Mul, x, y, goal) <==> Fits(Mul, y, x, goal)
  {
  }

  /** Some value among `ys` fits with x. */
  predicate AnyFits(op: Op, x: int, ys: seq<int>, goal: int)
  {
    ys != [] && (Fits(op, x, ys[0], goal) || AnyFits(op, x, ys[1..], goal))
  }

  lemma {:induction false} AnyFitsExists(op: Op, x: int, ys: seq<int>, goal: int)
    ensures AnyFits(op, x, ys, goal) <==> exists k :: 0 <= k < |ys| && Fits(op, x, ys[k], goal)
  {
    if ys != [] {
      AnyFitsExists(op, x, ys[1..], goal);
      if exists k :: 0 <= k < |ys| && Fits(op, x, ys[k], goal) {
        var k :| 0 <= k < |ys| && Fits(op, x, ys[k], goal);
        if k > 0 {
          assert ys[1..][k - 1] == ys[k];
        }
      }
      if AnyFits(op, x, ys[1..], goal) && !Fits(op, x, ys[0], goal) {
        var k :| 0 <= k < |ys[1..]| && Fits(op, x, ys[1..][k], goal);
        assert ys[k + 1] == ys[1..][k];
      }
    }
  }

  /** More choices for the partner can only turn a rejection into an
      acceptance. */
  lemma MoreChoices(op: Op, x: int, ys: seq<int>, zs: seq<int>, goal: int)
    requires forall y :: y in ys ==> y in zs
    requires AnyFits(op, x, ys, goal)
    ensures AnyFits(op, x, zs, goal)
  {
    AnyFitsExists(op, x, ys, goal);
    AnyFitsExists(op, x, zs, goal);
    var k :| 0 <= k < |ys| && Fits(op, x, ys[k], goal);
    assert ys[k] in zs;
    var j :| 0 <= j < |zs| && zs[j] == ys[k];
  }

  /** Y, the other cell of a two-cell cage (`Y = (B if X != B else A)`). */
  function Partner(cage: Cage, X: int): (Y: int)
    requires |cage.vars| >= 2
    ensures |cage.vars| == 2 && cage.vars[0] != cage.vars[1] && X in cage.vars ==>
      Y in cage.vars && Y != X
  {
    if X != cage.vars[1] then cage.vars[1] else cage.vars[0]
  }

  /** What `check_sub_or_div_cage` decides for X = x: with
      the partner assigned, whether its value fits; otherwise whether one of
      its remaining choices does. */
  predicate SubOrDivOk(op: Op, inf: map<int, int>, choices: int -> seq<int>, cage: Cage, X: int, x: int)
    requires |cage.vars| >= 2
  {
    var Y := Partner(cage, X);
    if Y in inf then Fits(op, x, inf[Y], cage.goal) else AnyFits(op, x, choices(Y), cage.goal)
  }

  /** With the partner unassigned, the check accepts exactly when some
      choice left for the partner fits. */
  lemma SubOrDivUnassigned(op: Op, inf: map<int, int>, choices: int -> seq<int>, cage: Cage, X: int, x: int)
    requires |cage.vars| >= 2 && Partner(cage, X) !in inf
    ensures SubOrDivOk(op, inf, choices, cage, X, x) <==>
      exists k :: 0 <= k < |choices(Partner(cage, X))| && Fits(op, x, choices(Partner(cage, X))[k], cage.goal)
  {
    AnyFitsExists(op, x, choices(Partner(cage, X)), cage.goal);
  }

  /** `check_sub_or_div_cage(inferences, fn, X, x)`: the loop over the
      partner's choices stops at the first that fits. */
  method CheckSubOrDivCage(p: Puzzle, inf: map<int, int>, choices: int -> seq<int>, op: Op, X: int, x: int)
    returns (ok: bool)
    requires CagesOk(p) && IsCell(p.n, X) && GetCage(p, X).Some? && |GetCage(p, X).value.vars| >= 2
    ensures ok <==> SubOrDivOk(op, inf, choices, GetCage(p, X).value, X, x)
  {
    var cage := GetCage(p, X).value;
    var A, B := cage.vars[0], cage.vars[1];
    var Y := if X != B then B else A;
    if Y in inf {
      var y := inf[Y];
      return Max(x, y) == Apply(op, Min(x, y), cage.goal);
    }
    var ys := choices(Y);
    AnyFitsExists(op, x, ys, cage.goal);
    for k := 0 to |ys|
      invariant forall j :: 0 <= j < k ==> !Fits(op, x, ys[j], cage.goal)
    {
      var y := ys[k];
      if Max(x, y) == Apply(op, Min(x, y), cage.goal) {
        return true;
      }
    }
    return false;
  }

  /** The operators the dispatch knows; any other ends in `assert False`. */
  predicate KnownOp(opr: string)
  {
    opr == "+" || opr == "-" || opr == "*" || opr == "/" || opr == "="
  }

  /** `check_cage_constraint(inferences, X, x)`: whether
      X = x keeps X's cage consistent, by the cage's operator. */
  function CheckCageConstraint(p: Puzzle, inf: map<int, int>, choices: int -> seq<int>, X: int, x: int): bool
    requires Valid(p) && IsCell(p.n, X) && GetCage(p, X).Some? && KnownOp(GetCage(p, X).value.opr)
  {
    var cage := GetCage(p, X).value;
    if cage.opr == "+" then AddOrMulOk(Add, inf, cage)
    else if cage.opr == "-" then SubOrDivOk(Add, inf, choices, cage, X, x)
    else if cage.opr == "*" then AddOrMulOk(Mul, inf, cage)
    else if cage.opr == "/" then SubOrDivOk(Mul, inf, choices, cage, X, x)
    else x == cage.goal
  }

  /** Whether the cells' values meet the cage's goal under the KenKen rules. */
  predicate CageSatisfied(cage: Cage, sol: map<int, int>)
    requires Covers(sol, cage.vars)
  {
    var vals := CellValues(sol, cage.vars);
    if cage.opr == "+" then Sum(vals) == cage.goal
    else if cage.opr == "*" then Product(vals) == cage.goal
    else if cage.opr == "-" then |vals| == 2 && Abs(vals[0] - vals[1]) == cage.goal
    else if cage.opr == "/" then |vals| == 2 && Max(vals[0], vals[1]) == Min(vals[0], vals[1]) * cage.goal
    else if cage.opr == "=" then |vals| == 1 && vals[0] == cage.goal
    else false
  }

  /** Once every cell of X's cage is assigned, the cage check on X's value
      accepts exactly when the cage meets its goal. */
  lemma CheckCageComplete(p: Puzzle, inf: map<int, int>, choices: int -> seq<int>, X: int)
    requires Valid(p) && IsCell(p.n, X) && GetCage(p, X).Some?
    requires KnownOp(GetCage(p, X).value.opr)
    requires Covers(inf, GetCage(p, X).value.vars)
    ensures CheckCageConstraint(p, inf, choices, X, inf[X]) <==> CageSatisfied(GetCage(p, X).value, inf)
  {
    var cage := GetCage(p, X).value;
    assert ArityFits(p.cages[cage.id]);
    if cage.opr == "+" {
      AddOrMulComplete(Add, inf, cage);
    } else if cage.opr == "*" {
      AddOrMulComplete(Mul, inf, cage);
    } else if cage.opr == "-" || cage.opr == "/" {
      assert cage.vars[0] < cage.vars[1];
      FitsSub(inf[X], inf[Partner(cage, X)], cage.goal);
      FitsDiv(inf[X], inf[Partner(cage, X)], cage.goal);
    } else {
      assert cage.vars[0] == X;
    }
  }

  /** Every cell of `vars` has a positive value in `sol`. */
  predicate Positive(sol: map<int, int>, vars: seq<int>)
  {
    forall v :: v in vars ==> v in sol && sol[v] >= 1
  }

  lemma PositiveCovers(sol: map<int, int>, vars: seq<int>)
    requires Positive(sol, vars)
    ensures Covers(sol, vars)
  {
    forall k | 0 <= k < |vars|
      ensures vars[k] in sol
    {
      var v := vars[k];
      assert v in vars;
      assert v in sol && sol[v] >= 1;
    }
  }

  /** Where `inf` and `sol` agree on every cell, they give the same values. */
  lemma SameCellValues(inf: map<int, int>, sol: map<int, int>, vars: seq<int>)
    requires Extends(sol, inf) && Covers(inf, vars) && Covers(sol, vars)
    ensures CellValues(inf, vars) == CellValues(sol, vars)
  {
    forall k | 0 <= k < |vars|
      ensures CellValues(inf, vars)[k] == CellValues(sol, vars)[k]
    {
      var v := vars[k];
      assert v in inf;
      assert sol[v] == inf[v];
      assert CellValues(inf, vars)[k] == inf[v];
      assert CellValues(sol, vars)[k] == sol[v];
    }
  }

  /** The sum check never rejects a partial assignment that a solution with
      positive values extends. */
  lemma SumCheckSound(inf: map<int, int>, sol: map<int, int>, cage: Cage)
    requires Extends(sol, inf) && Positive(sol, cage.vars)
    requires Covers(sol, cage.vars) && Sum(CellValues(sol, cage.vars)) == cage.goal
    ensures AddOrMulOk(Add, inf, cage)
  {
    AssignedAll(inf, cage.vars);
    AssignedAll(sol, cage.vars);
    SumGap(inf, sol, cage.vars);
    FoldIsSum(CellValues(sol, cage.vars));
    if Covers(inf, cage.vars) {
      SameCellValues(inf, sol, cage.vars);
    }
  }

  /** The product check never rejects a partial assignment that a solution
      with positive values extends, when every unassigned cell gets 2 or
      more. */
  lemma ProductCheckSound(inf: map<int, int>, sol: map<int, int>, cage: Cage)
    requires Extends(sol, inf) && Positive(sol, cage.vars)
    requires forall v :: v in cage.vars && v !in inf ==> sol[v] >= 2
    requires Covers(sol, cage.vars) && Product(CellValues(sol, cage.vars)) == cage.goal
    ensures AddOrMulOk(Mul, inf, cage)
  {
    AssignedAll(inf, cage.vars);
    AssignedAll(sol, cage.vars);
    ProductGap(inf, sol, cage.vars);
    FoldIsProduct(CellValues(sol, cage.vars));
    if Covers(inf, cage.vars) {
      SameCellValues(inf, sol, cage.vars);
    }
  }

  /** The product check as evidently intended: with a cell still open the
      total may already equal the goal, as the open cells can still take 1. */
  predicate MulOkAllowingOnes(inf: map<int, int>, cage: Cage)
  {
    var vals := AssignedValues(inf, cage.vars);
    var total := Fold(Mul, vals);
    (total <= cage.goal && |vals| < |cage.vars|) || (total == cage.goal && |vals| == |cage.vars|)
  }

  /** Completing a partial assignment with positive values never lowers the
      product. */
  lemma {:induction false} ProductGrows(inf: map<int, int>, sol: map<int, int>, vars: seq<int>)
    requires Extends(sol, inf)
    requires forall v :: v in vars ==> v in sol && sol[v] >= 1
    ensures Fold(Mul, AssignedValues(inf, vars)) >= 1
    ensures Fold(Mul, AssignedValues(sol, vars)) >= Fold(Mul, AssignedValues(inf, vars))
  {
    if vars != [] {
      var k := |vars| - 1;
      var init, x := vars[..k], vars[k];
      assert forall v :: v in init ==> v in vars;
      assert x in vars;
      ProductGrows(inf, sol, init);
      AssignedStep(Mul, sol, vars, k);
      AssignedStep(Mul, inf, vars, k);
      assert vars[..k + 1] == vars;
      var ps, pi := Fold(Mul, AssignedValues(sol, init)), Fold(Mul, AssignedValues(inf, init));
      var s := sol[x];
      assert Fold(Mul, AssignedValues(sol, vars)) == ps * s;
      if x in inf {
        assert Fold(Mul, AssignedValues(inf, vars)) == pi * s;
        ProductStepAssigned(ps, pi, s, false);
      } else {
        assert AssignedValues(inf, vars) == AssignedValues(inf, init);
        MulAtLeast(s, ps);
        assert s * ps == ps * s;
      }
    }
  }

  /** The corrected product check never rejects a partial assignment that a
      solution with positive values extends, whatever the open cells get. */
  lemma ProductAllowingOnesSound(inf: map<int, int>, sol: map<int, int>, cage: Cage)
    requires Extends(sol, inf) && Positive(sol, cage.vars)
    requires Covers(sol, cage.vars) && Product(CellValues(sol, cage.vars)) == cage.goal
    ensures MulOkAllowingOnes(inf, cage)
  {
    AssignedAll(inf, cage.vars);
    AssignedAll(sol, cage.vars);
    ProductGrows(inf, sol, cage.vars);
    FoldIsProduct(CellValues(sol, cage.vars));
    if Covers(inf, cage.vars) {
      SameCellValues(inf, sol, cage.vars);
    }
  }

  /** The corrected check differs from the one as written only when the
      total already equals the goal while a cell is open, and accepts the
      assignment ProductCheckRejectsPendingOne shows rejected. */
  lemma ProductAllowingOnesDiffers(inf: map<int, int>, cage: Cage)
    ensures MulOkAllowingOnes(inf, cage) <==>
      AddOrMulOk(Mul, inf, cage) ||
      (Fold(Mul, AssignedValues(inf, cage.vars)) == cage.goal && |AssignedValues(inf, cage.vars)| < |cage.vars|)
    ensures cage.vars == [0, 1] && cage.goal == 2 && inf == map[0 := 2] ==> MulOkAllowingOnes(inf, cage)
  {
    if cage.vars == [0, 1] && cage.goal == 2 && inf == map[0 := 2] {
      PendingOneTotal(inf);
    }
  }

  /** The difference or quotient check never rejects X's value in a
      solution whose partner value is assigned or still among the partner's
      choices. */
  lemma SubOrDivCheckSound(op: Op, inf: map<int, int>, choices: int -> seq<int>, sol: map<int, int>, cage: Cage, X: int)
    requires |cage.vars| == 2 && cage.vars[0] != cage.vars[1] && X in cage.vars
    requires Extends(sol, inf) && Covers(sol, cage.vars)
    requires forall k :: 0 <= k < 2 ==> sol[cage.vars[k]] in choices(cage.vars[k])
    requires Fits(op, sol[cage.vars[0]], sol[cage.vars[1]], cage.goal)
    ensures SubOrDivOk(op, inf, choices, cage, X, sol[X])
  {
    var Y := Partner(cage, X);
    assert Fits(op, sol[X], sol[Y], cage.goal);
    if Y !in inf {
      AnyFitsExists(op, sol[X], choices(Y), cage.goal);
      assert sol[Y] in choices(Y);
      var k :| 0 <= k < |choices(Y)| && choices(Y)[k] == sol[Y];
    }
  }

  /** A cage check never rejects the value a solution gives X, when the
      solution agrees with the assignment, gives positive values, leaves the
      partner's value among its choices, and, in a product cage, gives every
      cell still unassigned at least 2. */
  lemma CheckCageSound(p: Puzzle, inf: map<int, int>, choices: int -> seq<int>, sol: map<int, int>, X: int)
    requires Valid(p) && IsCell(p.n, X) && GetCage(p, X).Some?
    requires Extends(sol, inf) && Positive(sol, GetCage(p, X).value.vars)
    requires forall v :: v in GetCage(p, X).value.vars ==> sol[v] in choices(v)
    requires Covers(sol, GetCage(p, X).value.vars) && CageSatisfied(GetCage(p, X).value, sol)
    requires GetCage(p, X).value.opr == "*" ==>
      forall v :: v in GetCage(p, X).value.vars && v !in inf ==> sol[v] >= 2
    ensures KnownOp(GetCage(p, X).value.opr)
    ensures CheckCageConstraint(p, inf, choices, X, sol[X])
  {
    var cage := GetCage(p, X).value;
    assert ArityFits(p.cages[cage.id]);
    if cage.opr == "+" {
      SumCheckSound(inf, sol, cage);
    } else if cage.opr == "*" {
      ProductCheckSound(inf, sol, cage);
    } else if cage.opr == "-" || cage.opr == "/" {
      assert cage.vars[0] < cage.vars[1];
      assert cage.vars[0] in cage.vars && cage.vars[1] in cage.vars;
      var x0, x1 := sol[cage.vars[0]], sol[cage.vars[1]];
      if cage.opr == "-" {
        FitsSub(x0, x1, cage.goal);
        SubOrDivCheckSound(Add, inf, choices, sol, cage, X);
      } else {
        SubOrDivCheckSound(Mul, inf, choices, sol, cage, X);
      }
    } else {
      assert cage.vars[0] == X;
    }
  }

  /** Whether A = a and B = b share a row or column and clash (the two
      `neighbors` tests at the head of `constraints`). */
  predicate Clash(p: Puzzle, A: int, a: int, B: int, b: int)
    requires Valid(p) && IsCell(p.n, A) && IsCell(p.n, B)
  {
    (B in p.neighbors[A] && a == b) || (A in p.neighbors[B] && a == b)
  }

  /** The calls on which `constraints` returns rather than failing: a clash
      returns before any cage is looked up; otherwise both cells need a cage
      and A's cage a known operator, and of two different cages B's is only
      consulted when A's check accepts. */
  ghost predicate Defined(p: Puzzle, inf: map<int, int>, choices: int -> seq<int>, A: int, a: int, B: int, b: int)
    requires Valid(p) && IsCell(p.n, A) && IsCell(p.n, B)
  {
    || Clash(p, A, a, B, b)
    || (&& GetCage(p, A).Some? && GetCage(p, B).Some?
        && KnownOp(GetCage(p, A).value.opr)
        && (GetCage(p, A).value.id != GetCage(p, B).value.id && CheckCageConstraint(p, inf, choices, A, a)
            ==> KnownOp(GetCage(p, B).value.opr)))
  }

  /** `constraints(A, a, B, b)`: false on a row or column
      clash; for two cells of one cage, that cage's test on the pair; for
      two cages, both cage checks. */
  function Constraints(p: Puzzle, inf: map<int, int>, choices: int -> seq<int>, A: int, a: int, B: int, b: int): (r: bool)
    requires Valid(p) && IsCell(p.n, A) && IsCell(p.n, B) && A != B
    requires Defined(p, inf, choices, A, a, B, b)
    ensures r ==> !Clash(p, A, a, B, b)
  {
    if B in p.neighbors[A] && a == b then false
    else if A in p.neighbors[B] && a == b then false
    else
      var cageA := GetCage(p, A).value;
      var cageB := GetCage(p, B).value;
      if cageA.id == cageB.id then
        if cageA.opr == "+" then AddOrMulOk(Add, inf, cageA)
        else if cageA.opr == "-" then Abs(a - b) == cageA.goal
        else if cageA.opr == "*" then AddOrMulOk(Mul, inf, cageA)
        else Max(a, b) == Min(a, b) * cageA.goal  // '/', as SameCageNotIdentity rules out '='
      else CheckCageConstraint(p, inf, choices, A, a) && CheckCageConstraint(p, inf, choices, B, b)
  }

  /** An '=' cage has one cell, so it never holds two different cells: the
      same-cage `=` branch of `constraints` (`assert False`) is never reached. */
  lemma SameCageNotIdentity(p: Puzzle, A: int, B: int)
    requires Valid(p) && IsCell(p.n, A) && IsCell(p.n, B) && A != B
    requires GetCage(p, A).Some? && GetCage(p, B).Some?
    requires GetCage(p, A).value.id == GetCage(p, B).value.id
    ensures GetCage(p, A).value.opr != "="
  {
    var c := GetCage(p, A).value.id;
    assert ArityFits(p.cages[c]);
  }

  /** Two different cells of one row or one column never take the same
      value, whatever their cages. */
  lemma ClashRejects(p: Puzzle, inf: map<int, int>, choices: int -> seq<int>, A: int, B: int, a: int)
    requires Valid(p) && IsCell(p.n, A) && IsCell(p.n, B) && A != B
    requires SameRow(p.n, A, B) || SameColumn(p.n, A, B)
    ensures Defined(p, inf, choices, A, a, B, a)
    ensures !Constraints(p, inf, choices, A, a, B, a)
  {
    NeighborsOfValid(p, A, B);
  }

  /** The predicate does not depend on the order of its two cells. */
  lemma ConstraintsSymmetric(p: Puzzle, inf: map<int, int>, choices: int -> seq<int>, A: int, a: int, B: int, b: int)
    requires Valid(p) && IsCell(p.n, A) && IsCell(p.n, B) && A != B
    requires Defined(p, inf, choices, A, a, B, b) && Defined(p, inf, choices, B, b, A, a)
    ensures Constraints(p, inf, choices, A, a, B, b) == Constraints(p, inf, choices, B, b, A, a)
  {
    if !Clash(p, A, a, B, b) && GetCage(p, A).value.id == GetCage(p, B).value.id {
      assert GetCage(p, A) == GetCage(p, B);
    }
  }

  /** Two cells of one sum or product cage are judged by the cage's running
      total alone: their values a and b matter only through the clash test. */
  lemma SameCageIgnoresValues(p: Puzzle, inf: map<int, int>, choices: int -> seq<int>, A: int, a: int, B: int, b: int)
    requires Valid(p) && IsCell(p.n, A) && IsCell(p.n, B) && A != B
    requires GetCage(p, A).Some? && GetCage(p, A) == GetCage(p, B)
    requires GetCage(p, A).value.opr == "+" || GetCage(p, A).value.opr == "*"
    ensures Defined(p, inf, choices, A, a, B, b)
    ensures Constraints(p, inf, choices, A, a, B, b) <==>
      !Clash(p, A, a, B, b) &&
      AddOrMulOk(if GetCage(p, A).value.opr == "+" then Add else Mul, inf, GetCage(p, A).value)
  {
  }

  /** Two cells of one subtraction cage are accepted exactly when they do not
      clash and the larger value is the smaller plus the goal. */
  lemma SameCageSub(p: Puzzle, inf: map<int, int>, choices: int -> seq<int>, A: int, a: int, B: int, b: int)
    requires Valid(p) && IsCell(p.n, A) && IsCell(p.n, B) && A != B
    requires GetCage(p, A).Some? && GetCage(p, A) == GetCage(p, B)
    requires GetCage(p, A).value.opr == "-"
    ensures Defined(p, inf, choices, A, a, B, b)
    ensures Constraints(p, inf, choices, A, a, B, b) <==>
      !Clash(p, A, a, B, b) && Max(a, b) == Min(a, b) + GetCage(p, A).value.goal
  {
    FitsSub(a, b, GetCage(p, A).value.goal);
  }

  /** A solution of the puzzle: every cell has a cage and a positive value,
      every cage meets its goal, and no row or column repeats a value. */
  ghost predicate Solves(p: Puzzle, sol: map<int, int>)
    requires Valid(p)
  {
    && (forall v :: IsCell(p.n, v) ==> v in sol && sol[v] >= 1 && GetCage(p, v).Some?)
    && (forall c :: c in p.cages ==> Covers(sol, p.cages[c].vars) && CageSatisfied(p.cages[c], sol))
    && (forall v, w :: IsCell(p.n, v) && IsCell(p.n, w) && v != w && (SameRow(p.n, v, w) || SameColumn(p.n, v, w)) ==>
          sol[v] != sol[w])
  }

  /** In product cages, every cell the assignment leaves open gets 2 or
      more in the solution. */
  ghost predicate NoPendingOne(p: Puzzle, inf: map<int, int>, sol: map<int, int>)
    requires Valid(p) && Solves(p, sol)
  {
    forall v :: IsCell(p.n, v) && v !in inf && GetCage(p, v).value.opr == "*" ==> sol[v] >= 2
  }

  /** What a solution gives the cage of one cell. */
  lemma SolvesCage(p: Puzzle, inf: map<int, int>, choices: int -> seq<int>, sol: map<int, int>, X: int)
    requires Valid(p) && IsCell(p.n, X) && Solves(p, sol)
    requires forall v :: IsCell(p.n, v) ==> sol[v] in choices(v)
    requires NoPendingOne(p, inf, sol)
    ensures GetCage(p, X).Some?
    ensures Positive(sol, GetCage(p, X).value.vars) && Covers(sol, GetCage(p, X).value.vars)
    ensures CageSatisfied(GetCage(p, X).value, sol)
    ensures forall v :: v in GetCage(p, X).value.vars ==> sol[v] in choices(v)
    ensures GetCage(p, X).value.opr == "*" ==>
      forall v :: v in GetCage(p, X).value.vars && v !in inf ==> sol[v] >= 2
  {
    var cage := GetCage(p, X).value;
    assert Covers(sol, cage.vars) && CageSatisfied(p.cages[cage.id], sol);
    forall v | v in cage.vars
      ensures IsCell(p.n, v) && GetCage(p, v) == Some(cage)
    {
      GetCageOwner(p, v, cage.id);
    }
  }

  /** Two different cells of one two-cell cage are its two cells, so the
      cage's test holds of their values in either order. */
  lemma SameCagePairSound(cage: Cage, sol: map<int, int>, A: int, B: int)
    requires |cage.vars| == 2 && A in cage.vars && B in cage.vars && A != B
    requires Covers(sol, cage.vars) && CageSatisfied(cage, sol)
    requires cage.opr == "-" || cage.opr == "/"
    ensures cage.opr == "-" ==> Abs(sol[A] - sol[B]) == cage.goal
    ensures cage.opr == "/" ==> Max(sol[A], sol[B]) == Min(sol[A], sol[B]) * cage.goal
  {
    assert cage.vars[0] in cage.vars && cage.vars[1] in cage.vars;
  }

  /** The predicate never rejects the values a solution gives two cells,
      when the solution agrees with the assignment, every value of the
      solution is still among its cell's choices, and every cell of a
      product cage that is still unassigned gets 2 or more (a pending 1 is
      pruned; see ProductCheckRejectsPendingOne). */
  lemma ConstraintsSound(p: Puzzle, inf: map<int, int>, choices: int -> seq<int>, sol: map<int, int>, A: int, B: int)
    requires Valid(p) && IsCell(p.n, A) && IsCell(p.n, B) && A != B
    requires Solves(p, sol) && Extends(sol, inf)
    requires forall v :: IsCell(p.n, v) ==> sol[v] in choices(v)
    requires NoPendingOne(p, inf, sol)
    ensures Defined(p, inf, choices, A, sol[A], B, sol[B])
    ensures Constraints(p, inf, choices, A, sol[A], B, sol[B])
  {
    NeighborsOfValid(p, A, B);
    assert !Clash(p, A, sol[A], B, sol[B]);
    SolvesCage(p, inf, choices, sol, A);
    SolvesCage(p, inf, choices, sol, B);
    CheckCageSound(p, inf, choices, sol, A);
    CheckCageSound(p, inf, choices, sol, B);
    var cageA, cageB := GetCage(p, A).value, GetCage(p, B).value;
    if cageA.id == cageB.id && (cageA.opr == "-" || cageA.opr == "/") {
      assert ArityFits(p.cages[cageA.id]);
      SameCagePairSound(cageA, sol, A, B);
    }
  }
}
