/** The postfix evaluator: one reduction step at the leftmost operator
    (`perform_operation`) and the loop that repeats it until one element is
    left (`solve_expression`), as functions on the token list. The methods of
    `Solver.PostfixNotation` that run these steps in place are proved equal to
    them. A standard stack evaluator of postfix notation is defined beside
    them, and the two are proved to agree on every expression that does not
    run out of operands. */
module Evaluator {
  import opened PythonSemantics
  import opened Operations

  /** The position of the leftmost key of the operation table, if any. */
  function FirstOperator(s: seq<Item>): (r: Option<nat>)
    ensures r.Some? ==> r.value < |s| && IsOperator(s[r.value]) &&
                        forall k :: 0 <= k < r.value ==> !IsOperator(s[k])
    ensures r.None? ==> forall k :: 0 <= k < |s| ==> !IsOperator(s[k])
  {
    if s == [] then None
    else if IsOperator(s[0]) then Some(0)
    else match FirstOperator(s[1..])
      case None => None
      case Some(i) => Some(i + 1)
  }

  /** The leftmost operator is the one with no operator before it. */
  lemma {:induction false} FirstOperatorIs(s: seq<Item>, i: nat)
    requires i < |s| && IsOperator(s[i])
    requires forall k :: 0 <= k < i ==> !IsOperator(s[k])
    ensures FirstOperator(s) == Some(i)
    decreases i
  {
    if i > 0 {
      assert forall k :: 0 <= k < i - 1 ==> s[1..][k] == s[k + 1];
      FirstOperatorIs(s[1..], i - 1);
    }
  }

  /** The operation found at a position that holds a key of the table. */
  function OperatorAt(s: seq<Item>, i: nat): Op
    requires i < |s| && IsOperator(s[i])
  {
    OperatorOf(s[i].s).value
  }

  /** How one call of `perform_operation` ends: with the rewritten list, with
      None because no element is an operator, with TypeError from the
      library, or with any other exception (IndexError from `pop`, ValueError
      from `float`, or an exception of the library). */
  datatype StepResult = Reduced(items: seq<Item>) | NoOperator | OperationTypeError | StepCrash

  /** `perform_operation(expression)`, with Python's negative positions: at
      position 0 a unary operator takes the LAST element as its operand. */
  function Step(num: Numerics, s: seq<Item>): (r: StepResult)
    ensures r.NoOperator? <==> FirstOperator(s).None?
    ensures r.Reduced? ==>
              |r.items| == |s| - Arity(OperatorAt(s, FirstOperator(s).value)) &&
              |r.items| < |s|
  {
    match FirstOperator(s)
    case None => NoOperator
    case Some(i) =>
      var op := OperatorAt(s, i);
      var rest := s[..i] + s[i + 1..];                    // expression.pop(i)
      if Arity(op) == 1 then ApplyUnary(num, op, rest, i) else ApplyBinary(num, op, rest, i)
  }

  /** The rest of a step at a unary operator found at position `i`, once
      the operator is popped from the list, leaving `rest`. */
  function ApplyUnary(num: Numerics, op: Op, rest: seq<Item>, i: int): (r: StepResult)
    ensures r.Reduced? ==> |r.items| == |rest|
  {
    match Pop(rest, i - 1)
    case None => StepCrash
    case Some((x, rest1)) =>
      match ToFloat(num, x)
      case None => StepCrash
      case Some(a) =>
        match num.apply(op, [a])
        case Value(v) => Reduced(Insert(rest1, i - 1, Num(v)))
        case TypeError => OperationTypeError
        case Raised => StepCrash
  }

  /** The rest of a step at a binary operator: the right operand is popped
      first, then the left one. */
  function ApplyBinary(num: Numerics, op: Op, rest: seq<Item>, i: int): (r: StepResult)
    ensures r.Reduced? ==> |r.items| == |rest| - 1
  {
    match Pop(rest, i - 1)
    case None => StepCrash
    case Some((y, rest1)) =>
      match ToFloat(num, y)
      case None => StepCrash
      case Some(b) =>
        match Pop(rest1, i - 2)
        case None => StepCrash
        case Some((x, rest2)) =>
          match ToFloat(num, x)
          case None => StepCrash
          case Some(a) =>
            match num.apply(op, [a, b])
            case Value(v) => Reduced(Insert(rest2, i - 2, Text(num.show(v))))
            case TypeError => OperationTypeError
            case Raised => StepCrash
  }

  /** How `solve_expression` ends: with a solution (`'#ERR'` included), or
      with an exception it does not catch. */
  datatype Evaluation = Solution(item: Item) | Crash

  /** `solve_expression(expression)`: reduce while more than one element is
      left; None from a step (`len(None)`) and TypeError give `'#ERR'`; the
      remaining element is the solution when it is a number, else `'#ERR'`;
      an empty list raises IndexError at `expression[0]`. */
  function Reduce(num: Numerics, s: seq<Item>): (r: Evaluation)
    ensures r.Solution? ==> r.item == Text(ERROR_MESSAGE) || IsNumber(num, r.item)
    decreases |s|
  {
    if |s| > 1 then
      match Step(num, s)
      case Reduced(t) => Reduce(num, t)
      case NoOperator => Solution(Text(ERROR_MESSAGE))
      case OperationTypeError => Solution(Text(ERROR_MESSAGE))
      case StepCrash => Crash
    else if s == [] then Crash
    else if IsNumber(num, s[0]) then Solution(s[0])
    else Solution(Text(ERROR_MESSAGE))
  }

  // ---- What one step does ----

  /** A binary operator with two elements before it: the element two places
      before it is the left operand, the one just before it the right operand;
      the result, as a string, takes their place and every other element stays
      where it was. */
  lemma BinaryStep(num: Numerics, s: seq<Item>, i: nat)
    requires FirstOperator(s) == Some(i) && Arity(OperatorAt(s, i)) == 2 && i >= 2
    ensures var left, right := ToFloat(num, s[i - 2]), ToFloat(num, s[i - 1]);
      Step(num, s) ==
        if right.None? || left.None? then StepCrash
        else match num.apply(OperatorAt(s, i), [left.value, right.value])
          case Value(v) => Reduced(s[..i - 2] + [Text(num.show(v))] + s[i + 1..])
          case TypeError => OperationTypeError
          case Raised => StepCrash
  {
    var op := OperatorAt(s, i);
    assert Step(num, s) == ApplyBinary(num, op, s[..i] + s[i + 1..], i);
    BinaryAt(num, op, s, i);
  }

  /** The binary branch for the operator at `i`, once it is popped. */
  lemma BinaryAt(num: Numerics, op: Op, s: seq<Item>, i: nat)
    requires 2 <= i < |s|
    ensures var left, right := ToFloat(num, s[i - 2]), ToFloat(num, s[i - 1]);
      ApplyBinary(num, op, s[..i] + s[i + 1..], i) ==
        if right.None? || left.None? then StepCrash
        else match num.apply(op, [left.value, right.value])
          case Value(v) => Reduced(s[..i - 2] + [Text(num.show(v))] + s[i + 1..])
          case TypeError => OperationTypeError
          case Raised => StepCrash
  {
    var rest := s[..i] + s[i + 1..];
    assert rest[i - 1] == s[i - 1];
    var rest1 := rest[..i - 1] + rest[i..];
    assert rest1 == s[..i - 1] + s[i + 1..];
    assert rest1[i - 2] == s[i - 2];
    var rest2 := rest1[..i - 2] + rest1[i - 1..];
    assert rest2 == s[..i - 2] + s[i + 1..];
    assert rest2[..i - 2] == s[..i - 2] && rest2[i - 2..] == s[i + 1..];
  }

  /** A unary operator with an element before it: that element is the
      operand, and the result, left a number, takes its place. */
  lemma UnaryStep(num: Numerics, s: seq<Item>, i: nat)
    requires FirstOperator(s) == Some(i) && Arity(OperatorAt(s, i)) == 1 && i >= 1
    ensures var operand := ToFloat(num, s[i - 1]);
      Step(num, s) ==
        if operand.None? then StepCrash
        else match num.apply(OperatorAt(s, i), [operand.value])
          case Value(v) => Reduced(s[..i - 1] + [Num(v)] + s[i + 1..])
          case TypeError => OperationTypeError
          case Raised => StepCrash
  {
    var op := OperatorAt(s, i);
    assert Step(num, s) == ApplyUnary(num, op, s[..i] + s[i + 1..], i);
    UnaryAt(num, op, s, i);
  }

  /** The unary branch for the operator at `i`, once it is popped. */
  lemma UnaryAt(num: Numerics, op: Op, s: seq<Item>, i: nat)
    requires 1 <= i < |s|
    ensures var operand := ToFloat(num, s[i - 1]);
      ApplyUnary(num, op, s[..i] + s[i + 1..], i) ==
        if operand.None? then StepCrash
        else match num.apply(op, [operand.value])
          case Value(v) => Reduced(s[..i - 1] + [Num(v)] + s[i + 1..])
          case TypeError => OperationTypeError
          case Raised => StepCrash
  {
    var rest := s[..i] + s[i + 1..];
    assert rest[i - 1] == s[i - 1];
    var rest1 := rest[..i - 1] + rest[i..];
    assert rest1 == s[..i - 1] + s[i + 1..];
    assert rest1[..i - 1] == s[..i - 1] && rest1[i - 1..] == s[i + 1..];
  }

  /** A unary operator in first position wraps around: `pop(-1)` takes the
      last element as operand, and the result is inserted at position -1,
      which `InsertBeforeLast` shows is before the element then last. */
  lemma LeadingUnaryStep(num: Numerics, s: seq<Item>)
    requires FirstOperator(s) == Some(0) && Arity(OperatorAt(s, 0)) == 1 && |s| >= 2
    ensures Step(num, s) ==
      match ToFloat(num, s[|s| - 1])
      case None => StepCrash
      case Some(a) =>
        match num.apply(OperatorAt(s, 0), [a])
        case Value(v) => Reduced(Insert(s[1..|s| - 1], -1, Num(v)))
        case TypeError => OperationTypeError
        case Raised => StepCrash
  {
    UnaryAtFront(num, OperatorAt(s, 0), s);
  }

  /** The unary branch at position 0, after the operator is popped, pops
      the last element. */
  lemma UnaryAtFront(num: Numerics, op: Op, s: seq<Item>)
    requires |s| >= 2
    ensures ApplyUnary(num, op, s[..0] + s[1..], 0) ==
      match ToFloat(num, s[|s| - 1])
      case None => StepCrash
      case Some(a) =>
        match num.apply(op, [a])
        case Value(v) => Reduced(Insert(s[1..|s| - 1], -1, Num(v)))
        case TypeError => OperationTypeError
        case Raised => StepCrash
  {
    var rest := s[..0] + s[1..];
    assert rest == s[1..];
    assert rest[..|rest| - 1] == s[1..|s| - 1];
    PopLast(rest);
  }

  /** A binary operator in second position wraps around: `pop(0)` takes
      the first element as the RIGHT operand, `pop(-1)` the last element as
      the LEFT one, and the result goes before the element then last. So an
      infix `a - b` computes `b - a`. */
  lemma SecondBinaryStep(num: Numerics, s: seq<Item>)
    requires FirstOperator(s) == Some(1) && Arity(OperatorAt(s, 1)) == 2 && |s| >= 3
    ensures Step(num, s) ==
      match ToFloat(num, s[0])
      case None => StepCrash
      case Some(b) =>
        match ToFloat(num, s[|s| - 1])
        case None => StepCrash
        case Some(a) =>
          match num.apply(OperatorAt(s, 1), [a, b])
          case Value(v) => Reduced(Insert(s[2..|s| - 1], -1, Text(num.show(v))))
          case TypeError => OperationTypeError
          case Raised => StepCrash
  {
    var op := OperatorAt(s, 1);
    assert Step(num, s) == ApplyBinary(num, op, s[..1] + s[2..], 1);
    BinaryAtSecond(num, op, s);
  }

  lemma BinaryAtSecond(num: Numerics, op: Op, s: seq<Item>)
    requires |s| >= 3
    ensures ApplyBinary(num, op, s[..1] + s[2..], 1) ==
      match ToFloat(num, s[0])
      case None => StepCrash
      case Some(b) =>
        match ToFloat(num, s[|s| - 1])
        case None => StepCrash
        case Some(a) =>
          match num.apply(op, [a, b])
          case Value(v) => Reduced(Insert(s[2..|s| - 1], -1, Text(num.show(v))))
          case TypeError => OperationTypeError
          case Raised => StepCrash
  {
    var rest := s[..1] + s[2..];
    assert rest[0] == s[0];
    var rest1 := rest[..0] + rest[1..];
    assert rest1 == s[2..];
    assert Pop(rest, 0) == Some((s[0], rest1));
    PopLast(rest1);
    assert rest1[|rest1| - 1] == s[|s| - 1];
    assert rest1[..|rest1| - 1] == s[2..|s| - 1];
  }

  /** A binary operator in first position: `pop(-1)` takes the last element
      as the right operand and `pop(-2)` the one three places from the end as
      the left one. With only two other elements the second `pop` raises. */
  lemma FirstBinaryStep(num: Numerics, s: seq<Item>)
    requires FirstOperator(s) == Some(0) && Arity(OperatorAt(s, 0)) == 2 && |s| >= 3
    ensures Step(num, s) ==
      match ToFloat(num, s[|s| - 1])
      case None => StepCrash
      case Some(b) =>
        if |s| == 3 then StepCrash
        else match ToFloat(num, s[|s| - 3])
          case None => StepCrash
          case Some(a) =>
            match num.apply(OperatorAt(s, 0), [a, b])
            case Value(v) => Reduced(Insert(s[1..|s| - 3] + [s[|s| - 2]], -2, Text(num.show(v))))
            case TypeError => OperationTypeError
            case Raised => StepCrash
  {
    var op := OperatorAt(s, 0);
    assert Step(num, s) == ApplyBinary(num, op, s[..0] + s[1..], 0);
    BinaryAtFront(num, op, s);
  }

  lemma BinaryAtFront(num: Numerics, op: Op, s: seq<Item>)
    requires |s| >= 3
    ensures ApplyBinary(num, op, s[..0] + s[1..], 0) ==
      match ToFloat(num, s[|s| - 1])
      case None => StepCrash
      case Some(b) =>
        if |s| == 3 then StepCrash
        else match ToFloat(num, s[|s| - 3])
          case None => StepCrash
          case Some(a) =>
            match num.apply(op, [a, b])
            case Value(v) => Reduced(Insert(s[1..|s| - 3] + [s[|s| - 2]], -2, Text(num.show(v))))
            case TypeError => OperationTypeError
            case Raised => StepCrash
  {
    var rest := s[..0] + s[1..];
    assert rest == s[1..];
    PopLast(rest);
    var rest1 := s[1..|s| - 1];
    assert rest[..|rest| - 1] == rest1;
    PopSecondLast(rest1);
    if |s| > 3 {
      assert rest1[|rest1| - 2] == s[|s| - 3] && rest1[|rest1| - 1] == s[|s| - 2];
      assert rest1[..|rest1| - 2] == s[1..|s| - 3];
    }
  }

  /** An infix expression `a op b` of two numerals evaluates to `b op a`:
      the operands are swapped, and nothing raises. */
  lemma InfixOperandsSwap(num: Numerics, a: string, op: Op, b: string)
    requires ShowsNumerals(num) && Arity(op) == 2
    requires num.parse(a).Some? && num.parse(b).Some?
    requires OperatorOf(a).None? && OperatorOf(b).None?
    ensures Reduce(num, [Text(a), Text(Symbol(op)), Text(b)]) ==
      match num.apply(op, [num.parse(b).value, num.parse(a).value])
      case Value(v) => Solution(Text(num.show(v)))
      case TypeError => Solution(Text(ERROR_MESSAGE))
      case Raised => Crash
  {
    var s := [Text(a), Text(Symbol(op)), Text(b)];
    SymbolFound(op);
    assert FirstOperator(s) == Some(1) by {
      FirstOperatorIs(s, 1);
    }
    assert OperatorAt(s, 1) == op;
    SecondBinaryStep(num, s);
    assert s[2..|s| - 1] == [];
  }

  /** A binary operator written first, before two numerals, raises
      IndexError at its second `pop`. */
  lemma PrefixBinaryCrash(num: Numerics, op: Op, a: string, b: string)
    requires Arity(op) == 2
    requires OperatorOf(a).None? && OperatorOf(b).None?
    ensures Reduce(num, [Text(Symbol(op)), Text(a), Text(b)]) == Crash
  {
    var s := [Text(Symbol(op)), Text(a), Text(b)];
    SymbolFound(op);
    assert FirstOperator(s) == Some(0);
    FirstBinaryStep(num, s);
  }

  /** An operator with no more elements than its arity makes `pop` raise
      IndexError, which the solver does not catch. */
  lemma TooFewOperandsCrash(num: Numerics, s: seq<Item>, i: nat)
    requires FirstOperator(s) == Some(i) && |s| <= Arity(OperatorAt(s, i))
    ensures Step(num, s) == StepCrash
  {
    var rest := s[..i] + s[i + 1..];
    assert |rest| == |s| - 1;
  }

  // ---- What the loop delivers ----

  /** Lists without a key of the table and the marker itself. */
  lemma ReduceEdgeCases(num: Numerics, s: seq<Item>)
    ensures Reduce(num, []) == Crash
    ensures |s| > 1 && (forall k :: 0 <= k < |s| ==> !IsOperator(s[k])) ==>
              Reduce(num, s) == Solution(Text(ERROR_MESSAGE))
    ensures num.parse(ERROR_MESSAGE).None? ==>
              Reduce(num, [Text(ERROR_MESSAGE)]) == Solution(Text(ERROR_MESSAGE))
  {
    if |s| > 1 && (forall k :: 0 <= k < |s| ==> !IsOperator(s[k])) {
      assert FirstOperator(s).None?;
    }
  }

  // ---- A reference evaluator: postfix notation on a stack ----

  /** The state of a stack evaluation: still running with its stack, out of
      operands, or stopped with an outcome. */
  datatype StackRun = Running(stack: seq<Item>) | Underflow | Stopped(outcome: Evaluation)

  /** The numbers of the operands, if every one of them parses. */
  function Operands(num: Numerics, xs: seq<Item>): Option<seq<Number>>
    ensures var r := Operands(num, xs); r.Some? ==> |r.value| == |xs|
  {
    if xs == [] then Some([])
    else match ToFloat(num, xs[0])
      case None => None
      case Some(a) =>
        match Operands(num, xs[1..])
        case None => None
        case Some(rest) => Some([a] + rest)
  }

  /** Textbook postfix evaluation: operands are pushed; an operator replaces
      the top `arity` elements (the deepest being the left operand) by its
      result, kept as a number after a unary operator and as a string after a
      binary one, as the solver keeps them. */
  function PostfixRun(num: Numerics, stack: seq<Item>, rest: seq<Item>): StackRun
    decreases |rest|
  {
    if rest == [] then Running(stack)
    else if !IsOperator(rest[0]) then PostfixRun(num, stack + [rest[0]], rest[1..])
    else
      var op := OperatorAt(rest, 0);
      var n := Arity(op);
      if |stack| < n then Underflow
      else
        match Operands(num, stack[|stack| - n..])
        case None => Stopped(Crash)
        case Some(xs) =>
          match num.apply(op, xs)
          case TypeError => Stopped(Solution(Text(ERROR_MESSAGE)))
          case Raised => Stopped(Crash)
          case Value(v) =>
            var result := if n == 1 then Num(v) else Text(num.show(v));
            PostfixRun(num, stack[..|stack| - n] + [result], rest[1..])
  }

  /** The outcome of a stack evaluation, read as the solver reads its list:
      one number left is the solution, anything else `'#ERR'`, nothing left
      (empty input) an IndexError. */
  function Finish(num: Numerics, run: StackRun): Evaluation {
    match run
    case Stopped(e) => e
    case Underflow => Crash
    case Running(stack) =>
      if stack == [] then Crash
      else if |stack| > 1 then Solution(Text(ERROR_MESSAGE))
      else if IsNumber(num, stack[0]) then Solution(stack[0])
      else Solution(Text(ERROR_MESSAGE))
  }

  lemma OperandsOfOne(num: Numerics, x: Item)
    ensures Operands(num, [x]) ==
      match ToFloat(num, x) case None => None case Some(a) => Some([a])
  {
    assert [x][1..] == [];
    assert Operands(num, []) == Some([]);
    match ToFloat(num, x)
    case None =>
    case Some(a) => assert [a] + [] == [a];
  }

  lemma OperandsOfTwo(num: Numerics, x: Item, y: Item)
    ensures Operands(num, [x, y]) ==
      match ToFloat(num, x)
      case None => None
      case Some(a) => match ToFloat(num, y) case None => None case Some(b) => Some([a, b])
  {
    assert [x, y][1..] == [y];
    OperandsOfOne(num, y);
    match ToFloat(num, x)
    case None =>
    case Some(a) =>
      match ToFloat(num, y)
      case None =>
      case Some(b) => assert [a] + [b] == [a, b];
  }

  /** The leftmost operator of `stack + rest` is the first element of `rest`
      when `stack` holds no operator. */
  lemma FirstOperatorAfterStack(stack: seq<Item>, rest: seq<Item>)
    requires rest != [] && IsOperator(rest[0])
    requires forall k :: 0 <= k < |stack| ==> !IsOperator(stack[k])
    ensures FirstOperator(stack + rest) == Some(|stack|)
    ensures OperatorAt(stack + rest, |stack|) == OperatorAt(rest, 0)
    ensures (stack + rest)[|stack| + 1..] == rest[1..]
  {
    var s := stack + rest;
    assert s[|stack|] == rest[0];
    assert forall k :: 0 <= k < |stack| ==> s[k] == stack[k];
  }

  /** One step at an operator that follows `stack`, an operator-free list
      holding at least as many elements as the operator takes. */
  lemma StepAfterStack(num: Numerics, stack: seq<Item>, rest: seq<Item>)
    requires rest != [] && IsOperator(rest[0])
    requires forall k :: 0 <= k < |stack| ==> !IsOperator(stack[k])
    requires |stack| >= Arity(OperatorAt(rest, 0))
    ensures var op := OperatorAt(rest, 0);
      var n := Arity(op);
      Step(num, stack + rest) ==
        match Operands(num, stack[|stack| - n..])
        case None => StepCrash
        case Some(xs) =>
          match num.apply(op, xs)
          case TypeError => OperationTypeError
          case Raised => StepCrash
          case Value(v) =>
            Reduced(stack[..|stack| - n] + [if n == 1 then Num(v) else Text(num.show(v))] + rest[1..])
  {
    var s := stack + rest;
    var i := |stack|;
    FirstOperatorAfterStack(stack, rest);
    var op := OperatorAt(rest, 0);
    assert s[i] == rest[0];
    StepAtOperator(num, s, i);
    assert s[..i] + s[i + 1..] == stack + rest[1..];
    if Arity(op) == 1 {
      UnaryAfterStack(num, op, stack, rest[1..]);
    } else {
      BinaryAfterStack(num, op, stack, rest[1..]);
    }
  }

  /** A step at a known leftmost operator pops it and applies it. */
  lemma StepAtOperator(num: Numerics, s: seq<Item>, i: nat)
    requires FirstOperator(s) == Some(i)
    ensures i < |s| && IsOperator(s[i])
    ensures var op := OperatorAt(s, i);
      Step(num, s) ==
        if Arity(op) == 1 then ApplyUnary(num, op, s[..i] + s[i + 1..], i)
        else ApplyBinary(num, op, s[..i] + s[i + 1..], i)
  {
  }

  /** The unary branch when the operator followed `stack`: its operand is
      the top of the stack. */
  lemma UnaryAfterStack(num: Numerics, op: Op, stack: seq<Item>, tail: seq<Item>)
    requires |stack| >= 1
    ensures ApplyUnary(num, op, stack + tail, |stack|) ==
      match Operands(num, stack[|stack| - 1..])
      case None => StepCrash
      case Some(xs) =>
        match num.apply(op, xs)
        case TypeError => OperationTypeError
        case Raised => StepCrash
        case Value(v) => Reduced(stack[..|stack| - 1] + [Num(v)] + tail)
  {
    var s := stack + tail;
    var i := |stack|;
    var rest1 := stack[..i - 1] + tail;
    assert s[i - 1] == stack[i - 1];
    assert s[..i - 1] + s[i..] == rest1;
    assert Pop(s, i - 1) == Some((stack[i - 1], rest1));
    assert rest1[..i - 1] == stack[..i - 1] && rest1[i - 1..] == tail;
    assert stack[i - 1..] == [stack[i - 1]];
    OperandsOfOne(num, stack[i - 1]);
  }

  /** The binary branch when the operator followed `stack`: its operands are
      the two top elements, the deeper one on the left. */
  lemma BinaryAfterStack(num: Numerics, op: Op, stack: seq<Item>, tail: seq<Item>)
    requires |stack| >= 2
    ensures ApplyBinary(num, op, stack + tail, |stack|) ==
      match Operands(num, stack[|stack| - 2..])
      case None => StepCrash
      case Some(xs) =>
        match num.apply(op, xs)
        case TypeError => OperationTypeError
        case Raised => StepCrash
        case Value(v) => Reduced(stack[..|stack| - 2] + [Text(num.show(v))] + tail)
  {
    var s := stack + tail;
    var i := |stack|;
    var rest1 := stack[..i - 1] + tail;
    var rest2 := stack[..i - 2] + tail;
    assert s[i - 1] == stack[i - 1];
    assert s[..i - 1] + s[i..] == rest1;
    assert Pop(s, i - 1) == Some((stack[i - 1], rest1));
    assert rest1[i - 2] == stack[i - 2];
    assert rest1[..i - 2] + rest1[i - 1..] == rest2;
    assert Pop(rest1, i - 2) == Some((stack[i - 2], rest2));
    assert rest2[..i - 2] == stack[..i - 2] && rest2[i - 2..] == tail;
    assert stack[i - 2..] == [stack[i - 2], stack[i - 1]];
    OperandsOfTwo(num, stack[i - 2], stack[i - 1]);
  }

  /** The generalised statement: reducing `stack + rest` at the leftmost
      operator, over and over, is running the stack evaluator on `rest`. */
  lemma {:induction false} ReduceFollowsStack(num: Numerics, stack: seq<Item>, rest: seq<Item>)
    requires forall x :: OperatorOf(num.show(x)).None?
    requires forall k :: 0 <= k < |stack| ==> !IsOperator(stack[k])
    requires !PostfixRun(num, stack, rest).Underflow?
    ensures Reduce(num, stack + rest) == Finish(num, PostfixRun(num, stack, rest))
    decreases |rest|, 1
  {
    var s := stack + rest;
    if rest == [] {
      assert s == stack;
      if |s| > 1 {
        assert FirstOperator(s).None?;
      }
    } else if !IsOperator(rest[0]) {
      assert s == (stack + [rest[0]]) + rest[1..];
      ReduceFollowsStack(num, stack + [rest[0]], rest[1..]);
    } else {
      ReduceFollowsOperator(num, stack, rest);
    }
  }

  /** The operator case of `ReduceFollowsStack`. */
  lemma {:induction false} ReduceFollowsOperator(num: Numerics, stack: seq<Item>, rest: seq<Item>)
    requires forall x :: OperatorOf(num.show(x)).None?
    requires forall k :: 0 <= k < |stack| ==> !IsOperator(stack[k])
    requires rest != [] && IsOperator(rest[0])
    requires !PostfixRun(num, stack, rest).Underflow?
    ensures Reduce(num, stack + rest) == Finish(num, PostfixRun(num, stack, rest))
    decreases |rest|, 0
  {
    var op := OperatorAt(rest, 0);
    var n := Arity(op);
    PostfixRunAtOperator(num, stack, rest);
    ReduceAtOperator(num, stack, rest);
    var operands := Operands(num, stack[|stack| - n..]);
    if operands.Some? && num.apply(op, operands.value).Value? {
      var v := num.apply(op, operands.value).v;
      var result := if n == 1 then Num(v) else Text(num.show(v));
      var stack' := stack[..|stack| - n] + [result];
      PushAfterPop(stack, n, result, stack');
      ReduceFollowsStack(num, stack', rest[1..]);
    }
  }

  /** The stack evaluator at an operator that does not underflow: it has
      enough operands, and when they convert and the operation returns a
      value it goes on with the result in their place. */
  lemma PostfixRunAtOperator(num: Numerics, stack: seq<Item>, rest: seq<Item>)
    requires rest != [] && IsOperator(rest[0])
    requires !PostfixRun(num, stack, rest).Underflow?
    ensures |stack| >= Arity(OperatorAt(rest, 0))
    ensures var op := OperatorAt(rest, 0);
      var n := Arity(op);
      var operands := Operands(num, stack[|stack| - n..]);
      operands.Some? && num.apply(op, operands.value).Value? ==>
        var v := num.apply(op, operands.value).v;
        PostfixRun(num, stack, rest) ==
          PostfixRun(num, stack[..|stack| - n] + [if n == 1 then Num(v) else Text(num.show(v))], rest[1..])
  {
  }

  /** Replacing the top `n` elements of an operator-free stack by a
      non-operator leaves it free of operators. */
  lemma PushAfterPop(stack: seq<Item>, n: nat, x: Item, stack': seq<Item>)
    requires n <= |stack| && stack' == stack[..|stack| - n] + [x]
    requires forall k :: 0 <= k < |stack| ==> !IsOperator(stack[k])
    requires !IsOperator(x)
    ensures forall k :: 0 <= k < |stack'| ==> !IsOperator(stack'[k])
  {
  }

  /** One reduction at an operator that follows an operator-free stack: it
      either continues with the operands replaced by the result, or ends the
      evaluation as the stack evaluator ends it. */
  lemma ReduceAtOperator(num: Numerics, stack: seq<Item>, rest: seq<Item>)
    requires rest != [] && IsOperator(rest[0])
    requires forall k :: 0 <= k < |stack| ==> !IsOperator(stack[k])
    requires |stack| >= Arity(OperatorAt(rest, 0))
    ensures var op := OperatorAt(rest, 0);
      var n := Arity(op);
      var operands := Operands(num, stack[|stack| - n..]);
      if operands.Some? && num.apply(op, operands.value).Value? then
        var v := num.apply(op, operands.value).v;
        Reduce(num, stack + rest) ==
          Reduce(num, stack[..|stack| - n] + [if n == 1 then Num(v) else Text(num.show(v))] + rest[1..])
      else
        Reduce(num, stack + rest) == Finish(num, PostfixRun(num, stack, rest))
  {
    var s := stack + rest;
    StepAfterStack(num, stack, rest);
    var step := Step(num, s);
    assert Reduce(num, s) ==
      match step
      case Reduced(t) => Reduce(num, t)
      case NoOperator => Solution(Text(ERROR_MESSAGE))
      case OperationTypeError => Solution(Text(ERROR_MESSAGE))
      case StepCrash => Crash;
  }

  /** On every expression the stack evaluator can run without running out of
      operands, `solve_expression` computes what textbook postfix evaluation
      computes: leftmost-operator rewriting is postfix evaluation. */
  lemma ReduceIsPostfixEvaluation(num: Numerics, s: seq<Item>)
    requires ValidNumerics(num)
    requires !PostfixRun(num, [], s).Underflow?
    ensures Reduce(num, s) == Finish(num, PostfixRun(num, [], s))
  {
    assert [] + s == s;
    ReduceFollowsStack(num, [], s);
  }
}
