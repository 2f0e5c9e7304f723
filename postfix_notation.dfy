/** The solver object: the grid is a field that `solve` rewrites cell by
    cell, and the helpers work on token lists step by step as the original
    methods do. Each method's contract gives its results and the new grid
    in terms of the functions of the modules Resolver, Evaluator and Grid. */
module Solver {
  import opened PythonSemantics
  import opened CellReference
  import opened Operations
  import opened Evaluator
  import opened Resolver
  import opened Grid

  class PostfixNotation {
    /** The numeric library and `float()`/`str()`, fixed for the object. */
    const num: Numerics
    /** `self.data`: the rows of the sheet, each a list of cell texts. */
    var data: seq<seq<string>>

    constructor(num: Numerics)
      ensures this.num == num && data == []
    {
      this.num := num;
      data := [];
    }

    /** `convert_cell_references`: walks the tokens in order, overwriting
        each reference by the text of its cell; stops with False at a
        reference whose cell text holds a reference, and with `['#ERR']` at
        one outside the grid. */
    method ConvertCellReferences(expression: seq<string>) returns (r: Conversion)
      ensures r == Convert(data, expression)
    {
      var expr := expression;
      for i := 0 to |expr|
        invariant |expr| == |expression|
        invariant forall k :: 0 <= k < i ==>
                    !Blocks(data, expression[k]) && expr[k] == Replacement(data, expression[k])
        invariant forall k :: i <= k < |expr| ==> expr[k] == expression[k]
      {
        var resolution := ResolveReference(expr[i]);
        match resolution {
          case Missing =>
            FirstBlockingDecides(data, expression, i);
            return Tokens([ERROR_MESSAGE]);
          case Pending =>
            FirstBlockingDecides(data, expression, i);
            return NotYet;
          case Substitute(text) =>
            expr := expr[i := text];
          case Keep =>
        }
      }
      ResolveWithoutBlocking(data, expression);
      assert Resolve(data, expression).tokens == expr;
      return Tokens(expr);
    }

    /** The body of the loop of `convert_cell_references` for one token: a
        reference is decoded and looked up; IndexError, a referenced text
        with a reference among its words, and a referenced text other than
        `'#ERR'` each decide what happens to the token. */
    method ResolveReference(token: string) returns (r: TokenResolution)
      ensures r == ResolveToken(data, token)
    {
      if !IsCellReference(token) {
        return Keep;
      }
      ReferenceIndexes(token);
      var (column, row) := CellIndexes(token);
      var cell := CellAt(data, column, row);
      if cell.None? {
        return Missing;
      }
      var referenced := cell.value;
      var words := Split(referenced);
      for k := 0 to |words|
        invariant forall m :: 0 <= m < k ==> !IsCellReference(words[m])
      {
        if IsCellReference(words[k]) {
          assert HoldsReference(referenced);
          return Pending;
        }
      }
      assert !HoldsReference(referenced);
      if referenced != ERROR_MESSAGE {
        return Substitute(referenced);
      }
      return Keep;
    }

    /** `perform_operation`: finds the leftmost key of the operation table,
        pops it and its operands and inserts the result; the fall-through
        None when no element is a key. The list is rewritten in a local
        variable, pop by pop, as the original rewrites its argument. */
    method PerformOperation(expression: seq<Item>) returns (r: StepResult)
      ensures r == Step(num, expression)
    {
      var expr := expression;
      for i := 0 to |expr|
        invariant expr == expression
        invariant forall k :: 0 <= k < i ==> !IsOperator(expression[k])
      {
        if IsOperator(expr[i]) {
          assert FirstOperator(expression) == Some(i) by {
            FirstOperatorIs(expression, i);
          }
          var op := OperatorOf(expr[i].s).value;
          expr := expr[..i] + expr[i + 1..];                   // expression.pop(i)
          ghost var rest := expr;
          var popped := Pop(expr, i - 1);
          if popped.None? { return StepCrash; }
          var operand := popped.value.0;
          expr := popped.value.1;
          var input := ToFloat(num, operand);
          if input.None? { return StepCrash; }
          if Arity(op) == 1 {
            match num.apply(op, [input.value]) {
              case Value(v) =>
                expr := Insert(expr, i - 1, Num(v));
                r := Reduced(expr);
              case TypeError => r := OperationTypeError;
              case Raised => r := StepCrash;
            }
            assert r == ApplyUnary(num, op, rest, i);
          } else {
            var input2 := input.value;
            popped := Pop(expr, i - 2);
            if popped.None? { return StepCrash; }
            operand := popped.value.0;
            expr := popped.value.1;
            input := ToFloat(num, operand);
            if input.None? { return StepCrash; }
            match num.apply(op, [input.value, input2]) {
              case Value(v) =>
                expr := Insert(expr, i - 2, Text(num.show(v)));
                r := Reduced(expr);
              case TypeError => r := OperationTypeError;
              case Raised => r := StepCrash;
            }
            assert r == ApplyBinary(num, op, rest, i);
          }
          return;
        }
      }
      return NoOperator;
    }

    /** `solve_expression`: performs operations while more than one element
        is left, then returns the last element if it is a number. */
    method SolveExpression(expression: seq<Item>) returns (r: Evaluation)
      ensures r == Reduce(num, expression)
    {
      var expr := expression;
      while |expr| > 1
        invariant Reduce(num, expr) == Reduce(num, expression)
        decreases |expr|
      {
        var step := PerformOperation(expr);
        match step
        case Reduced(t) => expr := t;
        case NoOperator => return Solution(Text(ERROR_MESSAGE));
        case OperationTypeError => return Solution(Text(ERROR_MESSAGE));
        case StepCrash => return Crash;
      }
      if expr == [] {
        return Crash;
      }
      var solution := expr[0];
      if IsNumber(num, solution) {
        return Solution(solution);
      } else {
        return Solution(Text(ERROR_MESSAGE));
      }
    }

    /** `solve(final_lap)`: sweeps the grid until a sweep changes nothing,
        or once on the final lap. */
    method Solve(finalLap: bool) returns (crashed: bool)
      requires ValidNumerics(num)
      modifies this
      ensures var o := SolveLoop(num, old(data), finalLap); data == o.grid && crashed == o.crashed
      ensures !crashed && !finalLap ==> IsFixpoint(num, data)
      ensures !crashed && finalLap ==> AllFinished(num, data)
    {
      SolveReachesFixpoint(num, data);
      FinalLapFinishes(num, data);
      while true
        invariant SolveLoop(num, data, finalLap).grid == SolveLoop(num, old(data), finalLap).grid
        invariant SolveLoop(num, data, finalLap).crashed == SolveLoop(num, old(data), finalLap).crashed
        decreases TotalRank(num, data)
      {
        ghost var start := data;
        var counter;
        counter, crashed := SolveSweep(finalLap);
        if crashed {
          return;
        }
        if counter == 0 || finalLap {
          break;
        }
        SweepLowersRank(num, start, 0, 0, 0);
      }
      crashed := false;
    }

    /** One pass of the `while True` loop of `solve`: the rows in order;
        returns `solution_counter`. */
    method SolveSweep(finalLap: bool) returns (counter: nat, crashed: bool)
      modifies this
      ensures var o := Sweep(num, old(data), finalLap);
        data == o.grid && counter == o.changes && crashed == o.crashed
    {
      ghost var start := data;
      ghost var goal := Sweep(num, data, finalLap);
      counter := 0;
      var i := 0;
      while i < |data|
        invariant 0 <= i <= |data| && SameShape(data, start)
        invariant SweepRows(num, data, i, counter, finalLap) == goal
      {
        counter, crashed := SolveRow(i, counter, finalLap);
        if crashed {
          return;
        }
        i := i + 1;
      }
      SweepEnd(num, data, counter, finalLap);
      crashed := false;
    }

    /** The inner loop of a pass over row `i`: each cell with a solution is
        rewritten with it, and counted when its text changes; on the final
        lap a cell that still waits becomes `'#ERR'`. */
    method SolveRow(i: nat, counter0: nat, finalLap: bool) returns (counter: nat, crashed: bool)
      requires i < |data|
      modifies this
      ensures var o := RowPass(num, old(data), i, 0, counter0, finalLap);
        data == o.grid && counter == o.changes && crashed == o.crashed
      ensures forall r :: 0 <= r < |data| && r != i ==> data[r] == old(data)[r]
      ensures SameShape(data, old(data))
      ensures crashed ==>
        SweepRows(num, old(data), i, counter0, finalLap) == SweepOutcome(data, counter, true)
      ensures !crashed ==>
        SweepRows(num, old(data), i, counter0, finalLap) == SweepRows(num, data, i + 1, counter, finalLap)
    {
      ghost var start := data;
      ghost var goal := RowPass(num, data, i, 0, counter0, finalLap);
      RowPassSweeps(num, data, i, 0, counter0, finalLap);
      counter := counter0;
      var j := 0;
      while j < |data[i]|
        invariant SameShape(data, start) && i < |data|
        invariant 0 <= j <= |data[i]|
        invariant RowPass(num, data, i, j, counter, finalLap) == goal
      {
        RowPassCell(num, data, i, j, counter, finalLap);
        counter, crashed := SolveAt(i, j, counter, finalLap);
        if crashed {
          return;
        }
        j := j + 1;
      }
      crashed := false;
    }

    /** The body of the nested loops of `solve` at row `i`, column `j`. */
    method SolveAt(i: nat, j: nat, counter0: nat, finalLap: bool) returns (counter: nat, crashed: bool)
      requires i < |data| && j < |data[i]|
      modifies this
      ensures var o := CellStep(num, old(data), i, j, counter0, finalLap);
        data == o.grid && counter == o.changes && crashed == o.crashed
      ensures match EvaluateCell(num, old(data), old(data)[i][j])
        case Crashed => crashed && data == old(data) && counter == counter0
        case Waiting => (!crashed && counter == counter0 &&
          data == if finalLap then SetCell(old(data), i, j, ERROR_MESSAGE) else old(data))
        case Evaluated(x) => (!crashed && data == SetCell(old(data), i, j, ItemText(num, x)) &&
          counter == counter0 + (if Differs(old(data)[i][j], x) then 1 else 0))
      ensures SameShape(data, old(data))
      ensures crashed ==>
        SweepFrom(num, old(data), i, j, counter0, finalLap) == SweepOutcome(data, counter, true)
      ensures !crashed ==>
        SweepFrom(num, old(data), i, j, counter0, finalLap) == SweepFrom(num, data, i, j + 1, counter, finalLap)
    {
      counter := counter0;
      crashed := false;
      var outcome := SolveCell(data[i][j]);
      match outcome {
        case Crashed =>
          SweepCellCrash(num, data, i, j, counter, finalLap);
          crashed := true;
        case Evaluated(x) =>
          SweepCellSolved(num, data, i, j, counter, finalLap, x);
          counter := counter + (if Differs(data[i][j], x) then 1 else 0);
          data := SetCell(data, i, j, ItemText(num, x));
        case Waiting =>
          SweepCellWaiting(num, data, i, j, counter, finalLap);
          if finalLap {
            data := SetCell(data, i, j, ERROR_MESSAGE);
          }
      }
    }

    /** The first lines of the body of the nested loops of `solve`: split
        the cell's text, substitute references, solve what is left. */
    method SolveCell(text: string) returns (outcome: CellOutcome)
      ensures outcome == EvaluateCell(num, data, text)
    {
      var expression := Split(text);
      var converted := ConvertCellReferences(expression);
      match converted {
        case Tokens(t) =>
          var solution := SolveExpression(Texts(t));
          match solution {
            case Crash => outcome := Crashed;
            case Solution(x) => outcome := Evaluated(x);
          }
        case NotYet =>
          outcome := Waiting;
      }
    }

    /** `run`: the grid read from the file, `solve()`, then
        `solve(final_lap=True)`. Unless an exception escapes, every cell ends
        as `'#ERR'` or a number. */
    method Run(grid: seq<seq<string>>) returns (crashed: bool)
      requires ValidNumerics(num)
      modifies this
      ensures var o := RunSolver(num, grid); data == o.grid && crashed == o.crashed
      ensures SameShape(data, grid)
      ensures !crashed ==> AllFinished(num, data)
    {
      data := grid;
      crashed := Solve(false);
      if !crashed {
        crashed := Solve(true);
      }
      RunFinishesEveryCell(num, grid);
    }
  }
}
