/** The fixpoint sweep of `solve` and `run` as functions on the grid.
    A sweep visits the cells row by row and column by column, evaluating each
    cell against the grid as the earlier cells of the same sweep left it.
    The sweeps that are not final repeat until one changes nothing; the final
    sweep turns every cell that still waits for a reference into `'#ERR'`. */
module Grid {
  import opened PythonSemantics
  import opened CellReference
  import opened Operations
  import opened Evaluator
  import opened Resolver

  /** What evaluating one cell does: it waits (convert returned False), it
      has a solution, or an exception escapes the solver. */
  datatype CellOutcome = Waiting | Evaluated(item: Item) | Crashed

  /** Split the text, substitute the references, reduce what is left. */
  function EvaluateCell(num: Numerics, data: seq<seq<string>>, text: string): (r: CellOutcome)
    ensures r.Evaluated? ==> r.item == Text(ERROR_MESSAGE) || IsNumber(num, r.item)
  {
    match Convert(data, Split(text))
    case NotYet => Waiting
    case Tokens(t) =>
      match Reduce(num, Texts(t))
      case Crash => Crashed
      case Solution(x) => Evaluated(x)
  }

  /** `self.data[i][j] != solution`: a string never equals a float. */
  predicate Differs(text: string, x: Item)
    ensures Differs(text, x) <==> x != Text(text)
  {
    match x
    case Text(s) => s != text
    case Num(_) => true
  }

  /** A cell's text is final: `'#ERR'` or something `float()` accepts. */
  predicate Finished(num: Numerics, text: string) {
    text == ERROR_MESSAGE || num.parse(text).Some?
  }

  predicate SameShape(a: seq<seq<string>>, b: seq<seq<string>>) {
    |a| == |b| && forall i :: 0 <= i < |a| ==> |a[i]| == |b[i]|
  }

  /** `self.data[i][j] = text`. */
  function SetCell(data: seq<seq<string>>, i: nat, j: nat, text: string): (r: seq<seq<string>>)
    requires i < |data| && j < |data[i]|
    ensures SameShape(r, data) && r[i][j] == text
    ensures forall p, q :: 0 <= p < |r| && 0 <= q < |r[p]| && (p, q) != (i, j) ==> r[p][q] == data[p][q]
  {
    data[i := data[i][j := text]]
  }

  datatype SweepOutcome = SweepOutcome(grid: seq<seq<string>>, changes: nat, crashed: bool)

  /** The rest of one pass of the nested loops of `solve`, from row `i`,
      column `j`, with `changes` counted so far. */
  function SweepFrom(num: Numerics, data: seq<seq<string>>, i: nat, j: nat, changes: nat, finalLap: bool)
    : (r: SweepOutcome)
    requires i <= |data| && (i < |data| ==> j <= |data[i]|)
    ensures SameShape(r.grid, data) && r.changes >= changes
    decreases |data| - i, if i < |data| then |data[i]| - j else 0, 1
  {
    if i == |data| then SweepOutcome(data, changes, false)
    else if j == |data[i]| then SweepRows(num, data, i + 1, changes, finalLap)
    else SweepCell(num, data, i, j, changes, finalLap)
  }

  /** The rest of one pass from the start of row `i`: the outer loop of
      `solve`. */
  function SweepRows(num: Numerics, data: seq<seq<string>>, i: nat, changes: nat, finalLap: bool)
    : (r: SweepOutcome)
    requires i <= |data|
    ensures SameShape(r.grid, data) && r.changes >= changes
    decreases |data| - i, if i < |data| then |data[i]| + 1 else 1, 0
  {
    SweepFrom(num, data, i, 0, changes, finalLap)
  }

  /** The body of the nested loops of `solve` at row `i`, column `j`: the
      grid after it, the count, and whether an exception escaped. Only cell
      `(i, j)` is written, and a crash writes nothing. */
  function CellStep(num: Numerics, data: seq<seq<string>>, i: nat, j: nat, changes: nat, finalLap: bool)
    : (r: SweepOutcome)
    requires i < |data| && j < |data[i]|
    ensures SameShape(r.grid, data) && changes <= r.changes <= changes + 1
    ensures forall p :: 0 <= p < |data| && p != i ==> r.grid[p] == data[p]
    ensures forall q :: 0 <= q < |data[i]| && q != j ==> r.grid[i][q] == data[i][q]
    ensures r.crashed ==> r.grid == data && r.changes == changes
  {
    var text := data[i][j];
    match EvaluateCell(num, data, text)
    case Crashed => SweepOutcome(data, changes, true)
    case Waiting =>
      SweepOutcome(if finalLap then SetCell(data, i, j, ERROR_MESSAGE) else data, changes, false)
    case Evaluated(x) =>
      SweepOutcome(SetCell(data, i, j, ItemText(num, x)), changes + (if Differs(text, x) then 1 else 0), false)
  }

  /** The cell at row `i`, column `j`, then the rest of the pass. A crash
      stops the pass with the grid as it is. */
  function SweepCell(num: Numerics, data: seq<seq<string>>, i: nat, j: nat, changes: nat, finalLap: bool)
    : (r: SweepOutcome)
    requires i < |data| && j < |data[i]|
    ensures SameShape(r.grid, data) && r.changes >= changes
    decreases |data| - i, |data[i]| - j, 0
  {
    var o := CellStep(num, data, i, j, changes, finalLap);
    if o.crashed then o else SweepFrom(num, o.grid, i, j + 1, o.changes, finalLap)
  }

  /** One cell of a pass, by what its evaluation gave. */
  lemma SweepCellWaiting(num: Numerics, data: seq<seq<string>>, i: nat, j: nat, changes: nat, finalLap: bool)
    requires i < |data| && j < |data[i]| && EvaluateCell(num, data, data[i][j]) == Waiting
    ensures SweepFrom(num, data, i, j, changes, finalLap) ==
      SweepFrom(num, if finalLap then SetCell(data, i, j, ERROR_MESSAGE) else data, i, j + 1, changes, finalLap)
  {
  }

  lemma SweepCellSolved(num: Numerics, data: seq<seq<string>>, i: nat, j: nat, changes: nat, finalLap: bool, x: Item)
    requires i < |data| && j < |data[i]| && EvaluateCell(num, data, data[i][j]) == Evaluated(x)
    ensures SweepFrom(num, data, i, j, changes, finalLap) ==
      SweepFrom(num, SetCell(data, i, j, ItemText(num, x)), i, j + 1,
                changes + (if Differs(data[i][j], x) then 1 else 0), finalLap)
  {
  }

  lemma SweepCellCrash(num: Numerics, data: seq<seq<string>>, i: nat, j: nat, changes: nat, finalLap: bool)
    requires i < |data| && j < |data[i]| && EvaluateCell(num, data, data[i][j]) == Crashed
    ensures SweepFrom(num, data, i, j, changes, finalLap) == SweepOutcome(data, changes, true)
  {
  }

  lemma SweepRowEnd(num: Numerics, data: seq<seq<string>>, i: nat, changes: nat, finalLap: bool)
    requires i < |data|
    ensures SweepFrom(num, data, i, |data[i]|, changes, finalLap) == SweepRows(num, data, i + 1, changes, finalLap)
    ensures SweepFrom(num, data, i, |data[i]|, changes, finalLap) == SweepFrom(num, data, i + 1, 0, changes, finalLap)
  {
  }

  lemma SweepEnd(num: Numerics, data: seq<seq<string>>, changes: nat, finalLap: bool)
    ensures SweepRows(num, data, |data|, changes, finalLap) == SweepOutcome(data, changes, false)
  {
  }

  /** The inner loop of a pass over row `i`, from column `j` on: the grid
      after the row, the count, and whether an exception escaped. Only row
      `i` is written, and only from column `j` on. */
  function RowPass(num: Numerics, data: seq<seq<string>>, i: nat, j: nat, changes: nat, finalLap: bool)
    : (r: SweepOutcome)
    requires i < |data| && j <= |data[i]|
    ensures SameShape(r.grid, data) && changes <= r.changes <= changes + (|data[i]| - j)
    ensures forall p :: 0 <= p < |data| && p != i ==> r.grid[p] == data[p]
    ensures forall q :: 0 <= q < j ==> r.grid[i][q] == data[i][q]
    decreases |data[i]| - j
  {
    if j == |data[i]| then SweepOutcome(data, changes, false)
    else
      var o := CellStep(num, data, i, j, changes, finalLap);
      if o.crashed then o else RowPass(num, o.grid, i, j + 1, o.changes, finalLap)
  }

  /** The row pass is the part of a pass that stays in row `i`: the pass
      goes on from the next row with the grid and count it leaves, unless an
      exception escaped in the row. */
  lemma {:induction false} RowPassSweeps(num: Numerics, data: seq<seq<string>>, i: nat, j: nat, changes: nat, finalLap: bool)
    requires i < |data| && j <= |data[i]|
    ensures var o := RowPass(num, data, i, j, changes, finalLap);
      SweepFrom(num, data, i, j, changes, finalLap) ==
        if o.crashed then o else SweepRows(num, o.grid, i + 1, o.changes, finalLap)
    decreases |data[i]| - j
  {
    if j == |data[i]| {
      SweepRowEnd(num, data, i, changes, finalLap);
    } else {
      var o := CellStep(num, data, i, j, changes, finalLap);
      SweepFromCell(num, data, i, j, changes, finalLap);
      RowPassCell(num, data, i, j, changes, finalLap);
      if !o.crashed {
        RowPassSweeps(num, o.grid, i, j + 1, o.changes, finalLap);
      }
    }
  }

  lemma SweepFromCell(num: Numerics, data: seq<seq<string>>, i: nat, j: nat, changes: nat, finalLap: bool)
    requires i < |data| && j < |data[i]|
    ensures var o := CellStep(num, data, i, j, changes, finalLap);
      SweepFrom(num, data, i, j, changes, finalLap) ==
        if o.crashed then o else SweepFrom(num, o.grid, i, j + 1, o.changes, finalLap)
  {
  }

  lemma RowPassCell(num: Numerics, data: seq<seq<string>>, i: nat, j: nat, changes: nat, finalLap: bool)
    requires i < |data| && j < |data[i]|
    ensures var o := CellStep(num, data, i, j, changes, finalLap);
      RowPass(num, data, i, j, changes, finalLap) ==
        if o.crashed then o else RowPass(num, o.grid, i, j + 1, o.changes, finalLap)
  {
  }

  /** One whole pass over the grid. */
  function Sweep(num: Numerics, data: seq<seq<string>>, finalLap: bool): (r: SweepOutcome)
    ensures SameShape(r.grid, data)
  {
    SweepRows(num, data, 0, 0, finalLap)
  }

  // ---- Termination of the sweeps ----

  /** How far a cell's text is from its final form: 0 when evaluating it
      again gives it back, 1 for a number written with white space around it,
      2 for anything else. */
  function Rank(num: Numerics, text: string): (n: nat)
    ensures n <= 2
  {
    if text == ERROR_MESSAGE || (num.parse(text).Some? && NoSpace(text)) then 0
    else if num.parse(text).Some? then 1
    else 2
  }

  function RowRank(num: Numerics, row: seq<string>): nat {
    if row == [] then 0 else RowRank(num, row[..|row| - 1]) + Rank(num, row[|row| - 1])
  }

  function TotalRank(num: Numerics, data: seq<seq<string>>): nat {
    if data == [] then 0 else TotalRank(num, data[..|data| - 1]) + RowRank(num, data[|data| - 1])
  }

  function CellCount(data: seq<seq<string>>): nat {
    if data == [] then 0 else CellCount(data[..|data| - 1]) + |data[|data| - 1]|
  }

  lemma {:induction false} RowRankUpdate(num: Numerics, row: seq<string>, j: nat, text: string)
    requires j < |row|
    ensures RowRank(num, row[j := text]) + Rank(num, row[j]) == RowRank(num, row) + Rank(num, text)
    decreases |row|
  {
    var row' := row[j := text];
    var n := |row| - 1;
    if j < n {
      assert row'[..n] == row[..n][j := text];
      RowRankUpdate(num, row[..n], j, text);
    } else {
      assert row'[..n] == row[..n];
    }
  }

  lemma {:induction false} TotalRankUpdate(num: Numerics, data: seq<seq<string>>, i: nat, j: nat, text: string)
    requires i < |data| && j < |data[i]|
    ensures TotalRank(num, SetCell(data, i, j, text)) + Rank(num, data[i][j]) ==
            TotalRank(num, data) + Rank(num, text)
    decreases |data|
  {
    var data' := SetCell(data, i, j, text);
    var n := |data| - 1;
    if i < n {
      assert data'[..n] == SetCell(data[..n], i, j, text);
      TotalRankUpdate(num, data[..n], i, j, text);
    } else {
      assert data'[..n] == data[..n];
      RowRankUpdate(num, data[i], j, text);
    }
  }

  /** The measure is at most twice the number of cells, which bounds the
      number of sweeps that change something. */
  lemma {:induction false} TotalRankBound(num: Numerics, data: seq<seq<string>>)
    ensures TotalRank(num, data) <= 2 * CellCount(data)
    decreases |data|
  {
    if data != [] {
      TotalRankBound(num, data[..|data| - 1]);
      RowRankBound(num, data[|data| - 1]);
    }
  }

  lemma {:induction false} RowRankBound(num: Numerics, row: seq<string>)
    ensures RowRank(num, row) <= 2 * |row|
    decreases |row|
  {
    if row != [] {
      RowRankBound(num, row[..|row| - 1]);
    }
  }

  /** A single word that is not a reference goes through substitution
      unchanged. */
  lemma ConvertWord(data: seq<seq<string>>, w: string)
    requires !IsCellReference(w)
    ensures Convert(data, [w]) == Tokens([w])
  {
    assert [w][1..] == [];
    assert ResolveToken(data, w) == Keep;
    assert Resolve(data, []) == Resolved([]);
    assert [w] + [] == [w];
  }

  /** A word that `float()` accepts evaluates to itself. */
  lemma EvaluateNumeral(num: Numerics, data: seq<seq<string>>, text: string, w: string)
    requires Split(text) == [w] && num.parse(w).Some? && !IsCellReference(w)
    ensures EvaluateCell(num, data, text) == Evaluated(Text(w))
  {
    ConvertWord(data, w);
    assert Texts([w]) == [Text(w)];
    assert Reduce(num, [Text(w)]) == Solution(Text(w));
  }

  /** A cell of rank 0 is a fixpoint of evaluation. */
  lemma SettledCellStable(num: Numerics, data: seq<seq<string>>, text: string)
    requires ValidNumerics(num) && Rank(num, text) == 0
    ensures EvaluateCell(num, data, text) == Evaluated(Text(text))
  {
    if text == ERROR_MESSAGE {
      ErrorCellStable(num, data);
    } else {
      assert num.parse(text).Some? && NoSpace(text);
      SplitSingleWord(text);
      assert !IsCellReference(text);
      EvaluateNumeral(num, data, text, text);
    }
  }

  /** A cell holding the marker evaluates to the marker. */
  lemma ErrorCellStable(num: Numerics, data: seq<seq<string>>)
    requires num.parse(ERROR_MESSAGE).None?
    ensures EvaluateCell(num, data, ERROR_MESSAGE) == Evaluated(Text(ERROR_MESSAGE))
  {
    var text := ERROR_MESSAGE;
    assert NoSpace(text);
    SplitSingleWord(text);
    WordReference(text);
    ConvertWord(data, text);
    assert Texts([text]) == [Text(text)];
    assert Reduce(num, [Text(text)]) == Solution(Text(text));
  }

  /** Every change `solve` counts lowers the rank of the cell it rewrites. */
  lemma ChangeLowersRank(num: Numerics, data: seq<seq<string>>, text: string, x: Item)
    requires ValidNumerics(num)
    requires EvaluateCell(num, data, text) == Evaluated(x) && Differs(text, x)
    ensures Rank(num, ItemText(num, x)) < Rank(num, text)
  {
    if Rank(num, text) == 0 {
      SettledCellStable(num, data, text);
      assert false;
    } else if Rank(num, text) == 1 {
      var w := Split(text)[0];
      assert Split(text) == [w] && num.parse(w).Some?;
      assert !IsCellReference(w);
      EvaluateNumeral(num, data, text, w);
    } else {
      match x
      case Num(v) =>
      case Text(s) =>
    }
  }

  /** A sweep that is not the final one lowers the measure by at least the
      number of changes it counts; a cell that waits is left untouched. */
  lemma {:induction false} SweepLowersRank(num: Numerics, data: seq<seq<string>>, i: nat, j: nat, changes: nat)
    requires ValidNumerics(num)
    requires i <= |data| && (i < |data| ==> j <= |data[i]|)
    ensures var r := SweepFrom(num, data, i, j, changes, false);
      !r.crashed ==> TotalRank(num, r.grid) + r.changes <= TotalRank(num, data) + changes
    decreases |data| - i, if i < |data| then |data[i]| - j else 0
  {
    if i == |data| {
    } else if j == |data[i]| {
      SweepLowersRank(num, data, i + 1, 0, changes);
    } else if EvaluateCell(num, data, data[i][j]).Crashed? {
      assert SweepFrom(num, data, i, j, changes, false) == SweepCell(num, data, i, j, changes, false);
    } else {
      var data', c := CellLowersRank(num, data, i, j, changes);
      SweepLowersRank(num, data', i, j + 1, c);
    }
  }

  /** What a pass that is not final does at a cell that does not crash:
      the rank it takes away pays for the change it counts. */
  lemma CellLowersRank(num: Numerics, data: seq<seq<string>>, i: nat, j: nat, changes: nat)
    returns (data': seq<seq<string>>, c: nat)
    requires ValidNumerics(num)
    requires i < |data| && j < |data[i]| && !EvaluateCell(num, data, data[i][j]).Crashed?
    ensures SameShape(data', data)
    ensures SweepFrom(num, data, i, j, changes, false) == SweepFrom(num, data', i, j + 1, c, false)
    ensures TotalRank(num, data') + c <= TotalRank(num, data) + changes
  {
    var text := data[i][j];
    match EvaluateCell(num, data, text)
    case Waiting =>
      data', c := data, changes;
    case Evaluated(x) =>
      data' := SetCell(data, i, j, ItemText(num, x));
      c := changes + (if Differs(text, x) then 1 else 0);
      TotalRankUpdate(num, data, i, j, ItemText(num, x));
      if Differs(text, x) {
        ChangeLowersRank(num, data, text, x);
      }
  }

  /** How `solve` ends: the grid, whether an exception escaped, and how many
      passes of its `while True` loop ran. */
  datatype SolveOutcome = SolveOutcome(grid: seq<seq<string>>, crashed: bool, sweeps: nat)

  /** `solve(final_lap)`: sweep until a sweep counts no change, or once when
      `finalLap` holds. Every pass but the last lowers the total rank, so
      there is at most one pass more than the rank of the starting grid. */
  function SolveLoop(num: Numerics, data: seq<seq<string>>, finalLap: bool): (r: SolveOutcome)
    requires ValidNumerics(num)
    ensures SameShape(r.grid, data)
    ensures 1 <= r.sweeps <= TotalRank(num, data) + 1
    ensures finalLap ==> r.sweeps == 1
    decreases TotalRank(num, data)
  {
    var o := Sweep(num, data, finalLap);
    if o.crashed || o.changes == 0 || finalLap then SolveOutcome(o.grid, o.crashed, 1)
    else
      SweepLowersRank(num, data, 0, 0, 0);
      var r := SolveLoop(num, o.grid, finalLap);
      SolveOutcome(r.grid, r.crashed, r.sweeps + 1)
  }

  /** The number of passes of `solve()` is at most twice the number of
      cells, plus one. */
  lemma SolveSweepsBound(num: Numerics, data: seq<seq<string>>, finalLap: bool)
    requires ValidNumerics(num)
    ensures SolveLoop(num, data, finalLap).sweeps <= 2 * CellCount(data) + 1
  {
    TotalRankBound(num, data);
  }

  /** `solve()` followed by `solve(final_lap=True)`; an exception in the
      first leaves the grid as it stood. */
  function RunSolver(num: Numerics, grid: seq<seq<string>>): (r: SolveOutcome)
    requires ValidNumerics(num)
    ensures SameShape(r.grid, grid)
  {
    var first := SolveLoop(num, grid, false);
    if first.crashed then first else SolveLoop(num, first.grid, true)
  }

  // ---- What the sweeps deliver ----

  /** Evaluating the cell again would give it back, or it waits. */
  ghost predicate Stable(num: Numerics, data: seq<seq<string>>, p: nat, q: nat)
    requires p < |data| && q < |data[p]|
  {
    var e := EvaluateCell(num, data, data[p][q]);
    e.Waiting? || e == Evaluated(Text(data[p][q]))
  }

  ghost predicate StableFrom(num: Numerics, data: seq<seq<string>>, i: nat, j: nat) {
    forall p, q :: 0 <= p < |data| && 0 <= q < |data[p]| && (p > i || (p == i && q >= j)) ==>
      Stable(num, data, p, q)
  }

  /** No cell would change in another sweep that is not final. */
  ghost predicate IsFixpoint(num: Numerics, data: seq<seq<string>>) {
    StableFrom(num, data, 0, 0)
  }

  predicate AllFinished(num: Numerics, data: seq<seq<string>>) {
    forall p, q :: 0 <= p < |data| && 0 <= q < |data[p]| ==> Finished(num, data[p][q])
  }

  predicate FinishedBefore(num: Numerics, data: seq<seq<string>>, i: nat, j: nat) {
    forall p, q :: 0 <= p < |data| && 0 <= q < |data[p]| && (p < i || (p == i && q < j)) ==>
      Finished(num, data[p][q])
  }

  /** A pass that counts no change leaves the grid as it found it, and then
      every cell it visited was stable. */
  lemma {:induction false} QuietSweepIsFixpoint(num: Numerics, data: seq<seq<string>>, i: nat, j: nat, changes: nat)
    requires i <= |data| && (i < |data| ==> j <= |data[i]|)
    ensures var r := SweepFrom(num, data, i, j, changes, false);
      !r.crashed && r.changes == changes ==> r.grid == data && StableFrom(num, data, i, j)
    decreases |data| - i, if i < |data| then |data[i]| - j else 0, 1
  {
    if i == |data| {
    } else if j == |data[i]| {
      QuietRowEnd(num, data, i, changes);
    } else {
      QuietCell(num, data, i, j, changes);
    }
  }

  /** The step of `QuietSweepIsFixpoint` at the end of a row. */
  lemma {:induction false} QuietRowEnd(num: Numerics, data: seq<seq<string>>, i: nat, changes: nat)
    requires i < |data|
    ensures var r := SweepFrom(num, data, i, |data[i]|, changes, false);
      !r.crashed && r.changes == changes ==> r.grid == data && StableFrom(num, data, i, |data[i]|)
    decreases |data| - i, 0, 0
  {
    var r := SweepFrom(num, data, i, |data[i]|, changes, false);
    SweepRowEnd(num, data, i, changes, false);
    QuietSweepIsFixpoint(num, data, i + 1, 0, changes);
    if !r.crashed && r.changes == changes {
      StableFromNextRow(num, data, i);
    }
  }

  /** The step of `QuietSweepIsFixpoint` at one cell. */
  lemma {:induction false} QuietCell(num: Numerics, data: seq<seq<string>>, i: nat, j: nat, changes: nat)
    requires i < |data| && j < |data[i]|
    ensures var r := SweepFrom(num, data, i, j, changes, false);
      !r.crashed && r.changes == changes ==> r.grid == data && StableFrom(num, data, i, j)
    decreases |data| - i, |data[i]| - j, 0
  {
    var r := SweepFrom(num, data, i, j, changes, false);
    var o := CellStep(num, data, i, j, changes, false);
    SweepFromCell(num, data, i, j, changes, false);
    if !o.crashed && o.changes == changes {
      var e := EvaluateCell(num, data, data[i][j]);
      if e.Evaluated? {
        UnchangedCell(num, data, i, j, e.item);
      }
      assert o.grid == data;
      QuietSweepIsFixpoint(num, data, i, j + 1, changes);
      if !r.crashed && r.changes == changes {
        assert Stable(num, data, i, j);
        StableFromStep(num, data, i, j);
      }
    }
  }


  lemma UnchangedCell(num: Numerics, data: seq<seq<string>>, i: nat, j: nat, x: Item)
    requires i < |data| && j < |data[i]| && !Differs(data[i][j], x)
    ensures SetCell(data, i, j, ItemText(num, x)) == data
  {
    var row := data[i];
    assert row[j := row[j]] == row;
    assert data[i := row] == data;
  }

  lemma StableFromStep(num: Numerics, data: seq<seq<string>>, i: nat, j: nat)
    requires i < |data| && j < |data[i]|
    requires Stable(num, data, i, j) && StableFrom(num, data, i, j + 1)
    ensures StableFrom(num, data, i, j)
  {
  }

  lemma StableFromNextRow(num: Numerics, data: seq<seq<string>>, i: nat)
    requires i < |data| && StableFrom(num, data, i + 1, 0)
    ensures StableFrom(num, data, i, |data[i]|)
  {
  }

  lemma FinishedAfterSet(num: Numerics, data: seq<seq<string>>, i: nat, j: nat, t: string)
    requires i < |data| && j < |data[i]|
    requires FinishedBefore(num, data, i, j) && Finished(num, t)
    ensures FinishedBefore(num, SetCell(data, i, j, t), i, j + 1)
  {
    var data' := SetCell(data, i, j, t);
    forall p, q | 0 <= p < |data'| && 0 <= q < |data'[p]| && (p < i || (p == i && q < j + 1))
      ensures Finished(num, data'[p][q])
    {
      if (p, q) != (i, j) {
        assert data'[p][q] == data[p][q];
      }
    }
  }

  /** The final pass leaves every cell `'#ERR'` or a number. */
  lemma {:induction false} FinalSweepFinishes(num: Numerics, data: seq<seq<string>>, i: nat, j: nat, changes: nat)
    requires ShowsNumerals(num)
    requires i <= |data| && (i < |data| ==> j <= |data[i]|)
    requires FinishedBefore(num, data, i, j)
    ensures var r := SweepFrom(num, data, i, j, changes, true);
      !r.crashed ==> AllFinished(num, r.grid)
    decreases |data| - i, if i < |data| then |data[i]| - j else 0, 1
  {
    if i == |data| {
    } else if j == |data[i]| {
      SweepRowEnd(num, data, i, changes, true);
      FinishedRowShift(num, data, i);
      FinalSweepFinishes(num, data, i + 1, 0, changes);
    } else {
      assert SweepFrom(num, data, i, j, changes, true) == SweepCell(num, data, i, j, changes, true);
      FinalCell(num, data, i, j, changes);
    }
  }

  /** The step of `FinalSweepFinishes` at one cell. */
  lemma {:induction false} FinalCell(num: Numerics, data: seq<seq<string>>, i: nat, j: nat, changes: nat)
    requires ShowsNumerals(num)
    requires i < |data| && j < |data[i]|
    requires FinishedBefore(num, data, i, j)
    ensures var r := SweepCell(num, data, i, j, changes, true);
      !r.crashed ==> AllFinished(num, r.grid)
    decreases |data| - i, |data[i]| - j, 0
  {
    if !EvaluateCell(num, data, data[i][j]).Crashed? {
      var t, changes' := FinalCellWrite(num, data, i, j, changes);
      FinishedAfterSet(num, data, i, j, t);
      FinalSweepFinishes(num, SetCell(data, i, j, t), i, j + 1, changes');
    }
  }

  /** What the final pass writes into a cell that does not crash: `'#ERR'`
      for a cell that waits, its solution otherwise; either is finished. */
  lemma FinalCellWrite(num: Numerics, data: seq<seq<string>>, i: nat, j: nat, changes: nat)
    returns (t: string, changes': nat)
    requires ShowsNumerals(num)
    requires i < |data| && j < |data[i]| && !EvaluateCell(num, data, data[i][j]).Crashed?
    ensures Finished(num, t)
    ensures SweepCell(num, data, i, j, changes, true) == SweepFrom(num, SetCell(data, i, j, t), i, j + 1, changes', true)
  {
    var text := data[i][j];
    match EvaluateCell(num, data, text)
    case Waiting =>
      t, changes' := ERROR_MESSAGE, changes;
    case Evaluated(x) =>
      t, changes' := ItemText(num, x), changes + (if Differs(text, x) then 1 else 0);
      SolutionFinished(num, x);
  }

  /** What `solve_expression` returns is written back as `'#ERR'` or a
      number. */
  lemma SolutionFinished(num: Numerics, x: Item)
    requires ShowsNumerals(num)
    requires x == Text(ERROR_MESSAGE) || IsNumber(num, x)
    ensures Finished(num, ItemText(num, x))
  {
    match x
    case Num(v) =>
    case Text(s) =>
  }

  /** Having finished all of row `i` is having finished everything before
      row `i + 1`. */
  lemma FinishedRowShift(num: Numerics, data: seq<seq<string>>, i: nat)
    requires i < |data| && FinishedBefore(num, data, i, |data[i]|)
    ensures FinishedBefore(num, data, i + 1, 0)
  {
  }

  /** A `solve()` that returns leaves a grid on which one more sweep would
      change nothing: every cell is stable or still waits. */
  lemma {:induction false} SolveReachesFixpoint(num: Numerics, data: seq<seq<string>>)
    requires ValidNumerics(num)
    ensures var r := SolveLoop(num, data, false); !r.crashed ==> IsFixpoint(num, r.grid)
    decreases TotalRank(num, data)
  {
    var o := Sweep(num, data, false);
    if !o.crashed {
      if o.changes == 0 {
        QuietSweepIsFixpoint(num, data, 0, 0, 0);
      } else {
        SweepLowersRank(num, data, 0, 0, 0);
        SolveReachesFixpoint(num, o.grid);
      }
    }
  }

  /** `solve(final_lap=True)` makes one pass and leaves every cell `'#ERR'`
      or a number. */
  lemma FinalLapFinishes(num: Numerics, data: seq<seq<string>>)
    requires ValidNumerics(num)
    ensures var r := SolveLoop(num, data, true);
      r.grid == Sweep(num, data, true).grid && (!r.crashed ==> AllFinished(num, r.grid))
  {
    FinalSweepFinishes(num, data, 0, 0, 0);
  }

  /** What `run` promises: unless an exception escapes, the grid keeps its
      shape and every cell ends as `'#ERR'` or a number. */
  lemma RunFinishesEveryCell(num: Numerics, grid: seq<seq<string>>)
    requires ValidNumerics(num)
    ensures var r := RunSolver(num, grid); !r.crashed ==> AllFinished(num, r.grid)
  {
    var first := SolveLoop(num, grid, false);
    if !first.crashed {
      FinalLapFinishes(num, first.grid);
    }
  }
}
