# Postfix spreadsheet solver, modelled in Dafny

The solver reads a grid of cells. Each cell holds an expression in postfix
notation: numbers, cell references such as `B2`, and operators (`+ - * / ^`
and `! ABS ACOS ASIN ATAN COS COSH LOG SIN SINH SQRT TAN TANH`). The solver
rewrites every cell to its value or to `#ERR`. It does so in sweeps over the
grid:

- A sweep visits the cells row by row.
- In each cell it splits the text into tokens and substitutes each reference
  by the text of the cell it names.
- It then reduces the token list at its leftmost operator until one element
  is left.
- `solve()` repeats sweeps until one changes nothing.
- `run` then makes one final sweep. That sweep writes `#ERR` into every cell
  that still waits for a reference.

The model follows `postfix_notation.py` module by module:

- `python_semantics.dfy` (`PythonSemantics`): the Python built-ins the
  solver relies on. These are `str.split()`, list subscripts, `pop` and
  `insert`, all with negative positions and IndexError.
- `cell_reference.dfy` (`CellReference`): `is_cell_reference` and
  `get_cell_reference_indexes`, as pure functions. The regular expression
  is a left-to-right scan, proved equal to the decomposition the pattern
  describes. Decoding is proved to invert the writing of an address.
- `operations.dfy` (`Operations`): the operation table, the marker `#ERR`,
  and the numeric behaviour. Numbers, `float()`, `str()` and the library
  functions are uninterpreted; they come bundled in a `Numerics` value.
- `evaluator.dfy` (`Evaluator`): `perform_operation` as one rewriting step
  (`Step`) and `solve_expression` as the loop over it (`Reduce`). A textbook
  stack evaluator of postfix notation (`PostfixRun`) is defined beside them.
  Leftmost-operator rewriting is proved to compute the same result on every
  expression the stack evaluator can run.
- `resolver.dfy` (`Resolver`): `convert_cell_references` as a function on
  the token list.
- `grid.dfy` (`Grid`): one sweep of `solve` as a function on the grid
  (`Sweep`), the repeated sweeps (`SolveLoop`), and `run` (`RunSolver`).
  The proofs establish three things:
  - `solve()` terminates, through a measure on the cells that every counted
    change lowers;
  - when it returns, the grid is a fixpoint;
  - after the final lap every cell holds `#ERR` or a number.
- `postfix_notation.dfy` (`Solver.PostfixNotation`): the solver object. It
  is a class whose field `data` the methods rewrite cell by cell. The helper
  methods work on token lists step by step, as the original methods do.
  Each method's contract gives its results and the new grid through the functions that specify it.
  - The bodies of the loops of `solve` are separate methods: `SolveSweep`
    (one pass), `SolveRow`, `SolveAt` and `SolveCell`.
  - The per-token body of `convert_cell_references` is `ResolveReference`.

Where the code and its documentation differ, the model follows the code:

- An exception other than TypeError escapes `solve_expression` and ends the
  whole run. This is the `Crash`/`Crashed`/`crashed` outcome, kept apart
  from `#ERR`. Such exceptions include:
  - IndexError from `pop` or from `expression[0]` on an empty cell;
  - ValueError from `float()`;
  - ZeroDivisionError or a math domain error from the library.
- A reference to a cell holding `#ERR` is left in place, so `float()` of it
  raises ValueError.
- A reference whose address is outside the grid makes the expression
  `['#ERR']`. A row index of -1 (digit `0`) picks the last row, as Python
  subscripts do; the column index is never negative.
- A unary operator in first position takes the last element as its operand
  (`pop(-1)`). Its result is inserted before the element then last.
- A binary operator in second position takes the first element as its
  RIGHT operand and the last element as its LEFT one. So the infix cell
  `1 - 2` evaluates to 2 - 1 instead of raising. A binary operator in first
  position takes the last element and the one three places from the end,
  and raises IndexError when only two other elements are left (`+ 1 2`).
- A unary result stays a number in the list. A binary result is converted
  with `str()`.

## Model

| member | source | states |
|---|---|---|
| PythonSemantics.SplitJoin | postfix_notation.py:185 | splitting the space-joined list of non-empty, space-free words gives back exactly those words |
| PythonSemantics.SplitSingleWord | postfix_notation.py:185 | `s.split()` is `[s]` if and only if `s` is non-empty and has no white space |
| PythonSemantics.Split | postfix_notation.py:185 | every word `split()` returns is non-empty and free of white space |
| PythonSemantics.PyIndex | postfix_notation.py:57 | a subscript is valid exactly when `-n <= k < n`; it then denotes `k` or `k + n` |
| PythonSemantics.Pop | postfix_notation.py:121-136 | `pop(k)` succeeds exactly when `-len <= k < len` and leaves one element fewer |
| PythonSemantics.Insert | postfix_notation.py:132-138 | `insert` adds one element: the result is the list with `x` placed at one position and the other elements in their order |
| PythonSemantics.InsertBeforeLast | postfix_notation.py:132 | `insert(-1, x)` puts `x` before the last element, and into an empty list as its only element |
| PythonSemantics.PopLast | postfix_notation.py:130 | `pop(-1)` fails exactly on the empty list, and otherwise removes the last element |
| PythonSemantics.PopSecondLast | postfix_notation.py:136 | `pop(-2)` raises on a one-element list, and otherwise removes the element before the last |
| CellReference.IsCellReference | postfix_notation.py:101-109 | `is_cell_reference`, read left to right; a match has at least two characters. `IsCellReferenceMatchesPattern` proves it equal to the pattern |
| CellReference.IsCellReferenceMatchesPattern | postfix_notation.py:101-109 | the scan accepts a string if and only if it is spaces, one ASCII letter, spaces, one ASCII digit, spaces |
| CellReference.WordReference | postfix_notation.py:106 | a token without white space is a reference exactly when it is a letter followed by a digit |
| CellReference.LongAddressesAreNotReferences | postfix_notation.py:106 | multi-letter columns (`AA1`) and multi-digit rows (`A10`) are not references |
| CellReference.SpacedAddressesAreReferences | postfix_notation.py:106 | `B2` and ` c 7` followed by a newline are references |
| CellReference.SkipSpaces | postfix_notation.py:106 | the scan `\s*` stops at the first non-space character, having passed only white space |
| CellReference.LettersConcat | postfix_notation.py:87-88 | filtering letters and filtering digits both distribute over concatenation |
| CellReference.LettersOfLetters | postfix_notation.py:87-88 | a string of letters filters to itself and has no digits |
| CellReference.DigitsOfDigits | postfix_notation.py:87-88 | a string of digits filters to itself and has no letters |
| CellReference.DecomposedParts | postfix_notation.py:86-88 | the only letter and the only digit of a reference are its letter and its digit, and it is decodable text |
| CellReference.IndexesOfSingles | postfix_notation.py:90-99 | text with one letter and one digit decodes to (letter value - 1, digit value - 1) |
| CellReference.DecodeLettersDigits | postfix_notation.py:81-99 | letters followed by digits decode to the base-26 column value minus one and the decimal row value minus one |
| CellReference.ColumnValueOfName | postfix_notation.py:91-93 | the column fold inverts bijective base-26 naming for every column number |
| CellReference.DecimalValueOfString | postfix_notation.py:96 | `int()` inverts writing a natural number in decimal |
| CellReference.LetterValue | postfix_notation.py:91-93 | `ord(c.upper()) - ord('A') + 1` is in 1..26 for every ASCII letter |
| CellReference.ColumnValue | postfix_notation.py:90-93 | the column fold is 0 exactly on the empty string of letters; `ColumnValueOfName` proves it inverts column naming |
| CellReference.DecimalValue | postfix_notation.py:96 | `int()` of one digit is that digit's value; `DecimalValueOfString` proves it inverts decimal writing |
| CellReference.Letters | postfix_notation.py:87 | the letter filter keeps only ASCII letters; `LettersConcat` and `LettersOfLetters` state what it keeps |
| CellReference.Digits | postfix_notation.py:88 | the digit filter keeps only ASCII digits; `LettersConcat` and `DigitsOfDigits` state what it keeps |
| CellReference.CellIndexes | postfix_notation.py:81-99 | `get_cell_reference_indexes`: both indexes are at least -1; `AddressRoundTrip` proves it inverts address writing |
| CellReference.AddressRoundTrip | postfix_notation.py:81-99 | writing any (column, row) as letters and digits and decoding it gives back (column, row) |
| CellReference.ReferenceIndexes | postfix_notation.py:50-53 | a reference decodes without error to its letter's value minus one (0..25 in either case) and its digit minus one (-1..8) |
| CellReference.ReferenceRoundTrip | postfix_notation.py:81-109 | an upper-case letter with a non-zero digit is a reference, and its indexes write back to the same two characters |
| CellReference.TwoCharIndexes | postfix_notation.py:81-99 | a two-character letter-digit token decodes to its letter and digit values minus one |
| CellReference.ColumnValueIgnoresCase | postfix_notation.py:93 | letters with equal upper-case values give equal columns |
| CellReference.DecodeExamples | postfix_notation.py:81-99 | `A1` is (0, 0) and `C0` is (2, -1) |
| CellReference.DecodeCaseExamples | postfix_notation.py:81-99 | `B2` and `b2` are both (1, 1) |
| Operations.Symbol | postfix_notation.py:22-41 | every key of the table has one to four characters |
| Operations.OperatorOf | postfix_notation.py:22-41 | a lookup succeeds only on a token of one to four characters; `OperatorTable` proves it the inverse of `Symbol` |
| Operations.OperatorTable | postfix_notation.py:22-41 | every operation is found under its own key and under no other, and has one or two inputs |
| Operations.SymbolFound | postfix_notation.py:22-41 | looking up an operation's key finds that operation |
| Operations.SymbolUnique | postfix_notation.py:22-41 | a token that selects an operation is that operation's key |
| Operations.KeyOfEntry | postfix_notation.py:22-41 | a token found in the table is the key of the entry found |
| Operations.KeyShape | postfix_notation.py:22-41 | every key has no white space and is not two characters long |
| Operations.OperatorsAreNotReferences | postfix_notation.py:22-41 | no key of the table is a cell reference, so the table and substitution never compete for a token |
| Operations.ToFloat | postfix_notation.py:130-136 | `float()` fails only on a string that `float()` rejects; a number always converts |
| Operations.IsNumber | utils.py:58-63 | `is_number` is true of every number item |
| Operations.ItemText | postfix_notation.py:198 | under `ShowsNumerals`, `str()` of a number is a non-empty numeral without white space |
| Operations.Texts | postfix_notation.py:185-188 | the list handed to the evaluator has one string item per token, in order |
| Evaluator.FirstOperator | postfix_notation.py:115-118 | the position found holds an operator and no earlier position does; None means no element is an operator |
| Evaluator.FirstOperatorIs | postfix_notation.py:115-118 | an operator with no operator before it is the one the loop stops at |
| Evaluator.Step | postfix_notation.py:111-140 | None is returned exactly when no element is an operator; a successful step shortens the list by the operator's arity |
| Evaluator.ApplyUnary | postfix_notation.py:129-132 | a unary step keeps the length of the list left after popping the operator |
| Evaluator.ApplyBinary | postfix_notation.py:134-138 | a binary step leaves one element fewer than the list left after popping the operator |
| Evaluator.UnaryStep | postfix_notation.py:129-132 | the operand of a unary operator is the element just before it; the numeric result takes its place and nothing else moves |
| Evaluator.UnaryAt | postfix_notation.py:129-132 | the unary branch pops the element before the operator and inserts the result there |
| Evaluator.BinaryStep | postfix_notation.py:134-138 | the left operand is two places before the operator and the right one just before it; the result, as a string, replaces all three |
| Evaluator.BinaryAt | postfix_notation.py:134-138 | the binary branch pops the right then the left operand and inserts the string result where the left one was |
| Evaluator.LeadingUnaryStep | postfix_notation.py:121-132 | a unary operator at position 0 takes the last element as operand and inserts its result before the element then last |
| Evaluator.UnaryAtFront | postfix_notation.py:130-132 | after popping position 0, `pop(-1)` takes the last element |
| Evaluator.SecondBinaryStep | postfix_notation.py:121-138 | a binary operator at position 1 takes the first element as right operand and the last as left operand, and inserts the string result before the element then last |
| Evaluator.BinaryAtSecond | postfix_notation.py:134-138 | after popping position 1, `pop(0)` takes the first element and `pop(-1)` the last |
| Evaluator.FirstBinaryStep | postfix_notation.py:121-138 | a binary operator at position 0 takes the last element as right operand and the one three from the end as left operand, inserting at -2; with two other elements it raises |
| Evaluator.BinaryAtFront | postfix_notation.py:134-138 | after popping position 0, `pop(-1)` then `pop(-2)` take the last element and the one three from the end |
| Evaluator.InfixOperandsSwap | postfix_notation.py:111-140 | an infix cell `a op b` of two numerals evaluates to `op` applied to (b, a), with the operands swapped: its string, `#ERR` on TypeError, and a crash only if the operation itself raises |
| Evaluator.PrefixBinaryCrash | postfix_notation.py:134-136 | a binary operator written before two operands raises IndexError at its second `pop` |
| Evaluator.TooFewOperandsCrash | postfix_notation.py:130-136 | an operator with no more elements than its arity makes `pop` raise, which escapes the solver |
| Evaluator.Reduce | postfix_notation.py:210-228 | a solution is `#ERR` or something `float()` accepts |
| Evaluator.ReduceEdgeCases | postfix_notation.py:213-228 | an empty list crashes; a list of several elements without an operator gives `#ERR`; the marker alone gives `#ERR` |
| Evaluator.Operands | postfix_notation.py:130-136 | when every operand converts, there is one number per operand |
| Evaluator.OperandsOfOne | postfix_notation.py:130 | one operand converts exactly when `float()` accepts it |
| Evaluator.OperandsOfTwo | postfix_notation.py:135-136 | two operands convert exactly when `float()` accepts both, in order |
| Evaluator.FirstOperatorAfterStack | postfix_notation.py:115-121 | after an operator-free prefix, the leftmost operator is the first element after it |
| Evaluator.StepAfterStack | postfix_notation.py:111-140 | an operator after an operator-free stack consumes the top arity elements as operands and pushes the result |
| Evaluator.UnaryAfterStack | postfix_notation.py:129-132 | the unary branch after a stack uses the top element and pushes the numeric result |
| Evaluator.BinaryAfterStack | postfix_notation.py:134-138 | the binary branch after a stack uses the two top elements, the deeper one on the left, and pushes the string result |
| Evaluator.ReduceAtOperator | postfix_notation.py:213-228 | one reduction either continues with the operands replaced by the result or ends the evaluation as the stack evaluator ends it |
| Evaluator.ReduceFollowsStack | postfix_notation.py:210-228 | repeatedly rewriting `stack + rest` at the leftmost operator gives what the stack evaluator gives on `rest` from `stack` |
| Evaluator.ReduceFollowsOperator | postfix_notation.py:210-228 | the same when `rest` starts with an operator |
| Evaluator.PostfixRunAtOperator | postfix_notation.py:121-138 | the stack evaluator at an operator that does not underflow has enough operands, and goes on with the result in their place |
| Evaluator.ReduceIsPostfixEvaluation | postfix_notation.py:210-228 | `solve_expression` equals textbook postfix evaluation on every expression that does not run out of operands |
| Resolver.Target | postfix_notation.py:50-57 | a reference that resolves names the text of some cell of the grid |
| Resolver.HoldsReference | postfix_notation.py:62-66 | a text with a reference among its words is not empty |
| Resolver.CellAt | postfix_notation.py:57 | the lookup succeeds exactly when both Python subscripts are valid, and then yields that cell |
| Resolver.ResolveToken | postfix_notation.py:50-72 | only references change anything; a substitute is never `#ERR` and holds no reference; False comes from a referenced text holding a reference; `['#ERR']` comes exactly from an address outside the grid |
| Resolver.Resolve | postfix_notation.py:47-79 | a loop that runs to the end keeps the number of tokens |
| Resolver.Convert | postfix_notation.py:43-79 | a returned list has the original length or is `['#ERR']` |
| Resolver.ResolveWithoutBlocking | postfix_notation.py:47-79 | the loop runs to the end if and only if no token blocks, and then replaces every token independently |
| Resolver.FirstBlockingDecides | postfix_notation.py:65-77 | the first blocking token decides the outcome, whatever follows: False for a pending reference, `['#ERR']` for one outside the grid |
| Resolver.ConvertedTokens | postfix_notation.py:47-79 | on success, non-references are unchanged, a reference to `#ERR` stays, and any other reference becomes the whole text of its cell |
| Grid.Differs | postfix_notation.py:195 | `self.data[i][j] != solution` holds exactly when the solution is not the string already in the cell |
| Grid.EvaluateCell | postfix_notation.py:185-192 | a cell that evaluates gives `#ERR` or a number |
| Grid.SetCell | postfix_notation.py:198-203 | writing a cell keeps the shape, sets that cell and no other |
| Grid.SweepFrom | postfix_notation.py:181-203 | the rest of a pass keeps the shape of the grid and never lowers the change count |
| Grid.SweepRows | postfix_notation.py:181-203 | the rest of a pass from a row keeps the shape and never lowers the change count |
| Grid.CellStep | postfix_notation.py:185-203 | the body of the nested loops writes only cell `(i, j)`, nothing on a crash, and counts at most one change |
| Grid.SweepCell | postfix_notation.py:185-203 | a cell and the rest of the pass keep the shape and never lower the change count |
| Grid.RowPass | postfix_notation.py:182-203 | the inner loop over row `i` writes only row `i`, only from column `j` on, and counts at most one change per cell |
| Grid.RowPassSweeps | postfix_notation.py:181-203 | a pass is the row pass followed by the rest of the pass from the next row, unless the row crashed |
| Grid.SweepCellWaiting | postfix_notation.py:190-203 | a cell that waits is left untouched, or set to `#ERR` on the final lap, and is not counted |
| Grid.SweepCellSolved | postfix_notation.py:192-198 | a cell with a solution is rewritten with `str(solution)` and counted when the old text differs |
| Grid.SweepCellCrash | postfix_notation.py:192 | an exception stops the pass with the grid as it stands |
| Grid.SweepRowEnd | postfix_notation.py:181-182 | the end of a row continues at the start of the next one |
| Grid.SweepEnd | postfix_notation.py:181 | after the last row the pass ends with what it counted |
| Grid.Sweep | postfix_notation.py:178-203 | a pass keeps the shape of the grid |
| Grid.Rank | postfix_notation.py:174-208 | every cell has rank 0, 1 or 2 |
| Grid.RowRankUpdate | postfix_notation.py:198 | rewriting one cell changes the rank of its row by the difference of the two cell ranks |
| Grid.TotalRankUpdate | postfix_notation.py:198 | rewriting one cell changes the total rank by the difference of the two cell ranks |
| Grid.TotalRankBound | postfix_notation.py:174-208 | the total rank is at most twice the number of cells |
| Grid.RowRankBound | postfix_notation.py:181-182 | a row's rank is at most twice its length |
| Grid.ConvertWord | postfix_notation.py:47-79 | a single word that is not a reference is left as it is |
| Grid.EvaluateNumeral | postfix_notation.py:185-225 | a cell whose only word `float()` accepts evaluates to that word |
| Grid.SettledCellStable | postfix_notation.py:185-225 | a cell of rank 0 (`#ERR` or a numeral without spaces) evaluates to its own text |
| Grid.ErrorCellStable | postfix_notation.py:185-225 | a cell holding `#ERR` evaluates to `#ERR` |
| Grid.ChangeLowersRank | postfix_notation.py:195-198 | every change the counter counts lowers the rank of the rewritten cell |
| Grid.CellLowersRank | postfix_notation.py:185-203 | at a cell that does not crash, the rank removed pays for the change counted |
| Grid.SweepLowersRank | postfix_notation.py:178-203 | a pass that is not final lowers the total rank by at least the number of changes it counts |
| Grid.SolveLoop | postfix_notation.py:171-208 | the repeated passes end, keeping the shape of the grid; there is at most one pass more than the rank of the starting grid, and exactly one on the final lap |
| Grid.SolveSweepsBound | postfix_notation.py:174-208 | the number of passes of `solve` is at most twice the number of cells, plus one |
| Grid.RunSolver | postfix_notation.py:157-167 | `solve()` then `solve(final_lap=True)` keeps the shape of the grid |
| Grid.QuietSweepIsFixpoint | postfix_notation.py:195-208 | a pass that counts no change leaves the grid unchanged, and every cell it visited would evaluate to its own text or wait |
| Grid.QuietCell | postfix_notation.py:185-203 | the step of the fixpoint proof at one cell |
| Grid.QuietRowEnd | postfix_notation.py:181-203 | the step of the fixpoint proof at the end of a row |
| Grid.UnchangedCell | postfix_notation.py:195-198 | writing back a solution equal to the cell's text leaves the grid unchanged |
| Grid.StableFromStep | postfix_notation.py:182 | stability of one cell and of the cells after it is stability from that cell |
| Grid.StableFromNextRow | postfix_notation.py:181 | stability from the next row is stability from the end of this one |
| Grid.FinishedAfterSet | postfix_notation.py:198-203 | writing a finished text keeps every cell before the next position finished |
| Grid.FinishedRowShift | postfix_notation.py:181-182 | having finished a whole row is having finished everything before the next row |
| Grid.FinalSweepFinishes | postfix_notation.py:200-203 | the final pass, unless it crashes, leaves every cell `#ERR` or a number |
| Grid.FinalCell | postfix_notation.py:185-203 | the step of the final-pass proof at one cell |
| Grid.FinalCellWrite | postfix_notation.py:190-203 | the final pass writes `#ERR` into a cell that waits and the solution into any other, and either is finished |
| Grid.SolutionFinished | postfix_notation.py:198 | `str` of a solution is `#ERR` or a numeral |
| Grid.SolveReachesFixpoint | postfix_notation.py:174-208 | unless it crashes, `solve()` returns a grid on which another pass would change nothing |
| Grid.FinalLapFinishes | postfix_notation.py:167-208 | `solve(final_lap=True)` makes exactly one pass and, unless it crashes, leaves every cell `#ERR` or a number |
| Grid.RunFinishesEveryCell | postfix_notation.py:157-167 | unless an exception escapes, `run` leaves every cell `#ERR` or a number |
| Solver.PostfixNotation.constructor | postfix_notation.py:14-18 | a new solver has an empty grid |
| Solver.PostfixNotation.ConvertCellReferences | postfix_notation.py:43-79 | the in-place loop returns what `Convert` specifies: False, `['#ERR']`, or the substituted list |
| Solver.PostfixNotation.ResolveReference | postfix_notation.py:50-72 | the loop body for one token decides as `ResolveToken` specifies |
| Solver.PostfixNotation.PerformOperation | postfix_notation.py:111-140 | the scan for the leftmost operator and the successive pops and inserts on the list compute `Step`, whose results the step lemmas give in closed form |
| Solver.PostfixNotation.SolveExpression | postfix_notation.py:210-228 | the while loop computes `Reduce`: a solution that is `#ERR` or a number, or a crash |
| Solver.PostfixNotation.Solve | postfix_notation.py:171-208 | the grid after the loop is the one `SolveLoop` gives; it is a fixpoint after `solve()`, and every cell is finished after the final lap |
| Solver.PostfixNotation.SolveSweep | postfix_notation.py:178-203 | one pass of the nested loops rewrites the grid and counts changes as `Sweep` specifies |
| Solver.PostfixNotation.SolveRow | postfix_notation.py:182-203 | the new grid, count and crash flag are those of `RowPass` on row `i`; every other row is unchanged; the pass then goes on at row `i + 1` |
| Solver.PostfixNotation.SolveAt | postfix_notation.py:185-203 | by what the cell evaluates to: a crash leaves the grid and count; a waiting cell is left alone, or written `#ERR` on the final lap; a solution is written with `str()` and counted when it differs from the old text; only cell `(i, j)` is written |
| Solver.PostfixNotation.SolveCell | postfix_notation.py:185-192 | splitting, substituting and solving a cell's text computes `EvaluateCell` |
| Solver.PostfixNotation.Run | postfix_notation.py:157-167 | the grid ends as `RunSolver` gives, keeps its shape, and every cell is `#ERR` or a number unless an exception escapes |

## Left out

- Reading the CSV file (`Reader`, `read_csv_file`): the grid is a parameter of `Run`. reader.py is not part of this model.
- `print_output`: console output.
- The numeric library (utils.py) is left out: rounding to two places, floating point, `math`. Each operation is an uninterpreted function that returns a number, raises TypeError, or raises any other exception.
- Operations.ToFloat: `float()` of a number item always succeeds. On Python versions where `math.factorial` returns an int, `float()` of an int above about 1.8e308 raises OverflowError. `is_number` does not catch it, so it would end the run; the model does not capture that exception.
- `float()` and `str()` are uninterpreted too. `ValidNumerics` and `ShowsNumerals` state the facts about CPython's `float()` and `str()` that the grid proofs assume:
  - a numeral has no white space inside;
  - a numeral is not a cell reference;
  - `#ERR` is not a numeral;
  - `str` of a number is a numeral that is not an operator key.
- `str.isalpha` and `str.isdigit` are modelled on ASCII letters and digits only. Decoding is modelled only on text made of ASCII letters, ASCII digits and white space, which covers every token the pattern accepts.
- The regular-expression engine is replaced by a scan over the string. `IsCellReferenceMatchesPattern` ties the scan to the pattern.
- Crash outcome: an exception ends the run. The model records only that it happened and the grid at that moment; no error output is modelled.
- Evaluator.ReduceIsPostfixEvaluation: says nothing about expressions on which the stack evaluator runs out of operands. There, Python's negative positions make the rewriting wrap around. The single steps of those cases are stated by `LeadingUnaryStep`, `FirstBinaryStep`, `SecondBinaryStep` and `TooFewOperandsCrash`, with `InfixOperandsSwap` and `PrefixBinaryCrash` as whole evaluations. No lemma states the whole evaluation of a longer underflowing expression.
- Evaluator.Reduce: states only that a solution is `#ERR` or a number. Its relation to postfix evaluation is `ReduceIsPostfixEvaluation`.
