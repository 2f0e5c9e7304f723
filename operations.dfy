/** The operation table of the solver and the numeric behaviour it relies on.
    The numeric library itself (rounded floating-point arithmetic and the
    `math` module) is not modelled: each operation is an uninterpreted
    function of its operands, and parsing and printing numbers are
    uninterpreted too, bundled in a `Numerics` value. */
module Operations {
  import opened PythonSemantics
  import opened CellReference

  /** The marker written into a cell that cannot be evaluated. */
  const ERROR_MESSAGE: string := "#ERR"

  /** The eighteen keys of the operation table. */
  datatype Op =
    | Add | Subtract | Multiply | Divide | Power
    | Factorial | AbsoluteValue | Acos | Asin | Atan | Cos | Cosh
    | Log | Sin | Sinh | SquareRoot | Tan | Tanh

  /** The key under which `op` is stored in the table. */
  function Symbol(op: Op): (s: string)
    ensures 1 <= |s| <= 4
  {
    match op
    case Add => "+"
    case Subtract => "-"
    case Multiply => "*"
    case Divide => "/"
    case Power => "^"
    case Factorial => "!"
    case AbsoluteValue => "ABS"
    case Acos => "ACOS"
    case Asin => "ASIN"
    case Atan => "ATAN"
    case Cos => "COS"
    case Cosh => "COSH"
    case Log => "LOG"
    case Sin => "SIN"
    case Sinh => "SINH"
    case SquareRoot => "SQRT"
    case Tan => "TAN"
    case Tanh => "TANH"
  }

  /** `token in self.operations`, and which entry it selects: an exact,
      case-sensitive match of the whole token. */
  function OperatorOf(token: string): (r: Option<Op>)
    ensures r.Some? ==> 1 <= |token| <= 4
  {
    if token == "+" then Some(Add)
    else if token == "-" then Some(Subtract)
    else if token == "*" then Some(Multiply)
    else if token == "/" then Some(Divide)
    else if token == "^" then Some(Power)
    else if token == "!" then Some(Factorial)
    else if token == "ABS" then Some(AbsoluteValue)
    else if token == "ACOS" then Some(Acos)
    else if token == "ASIN" then Some(Asin)
    else if token == "ATAN" then Some(Atan)
    else if token == "COS" then Some(Cos)
    else if token == "COSH" then Some(Cosh)
    else if token == "LOG" then Some(Log)
    else if token == "SIN" then Some(Sin)
    else if token == "SINH" then Some(Sinh)
    else if token == "SQRT" then Some(SquareRoot)
    else if token == "TAN" then Some(Tan)
    else if token == "TANH" then Some(Tanh)
    else None
  }

  /** The number of inputs stored beside each function in the table. */
  function Arity(op: Op): (n: nat) {
    match op
    case Add | Subtract | Multiply | Divide | Power => 2
    case _ => 1
  }

  /** The table is a bijection between its keys and the operations: every
      operation is found under its own key and under no other. */
  lemma OperatorTable(op: Op, token: string)
    ensures OperatorOf(Symbol(op)) == Some(op)
    ensures OperatorOf(token) == Some(op) ==> token == Symbol(op)
    ensures Arity(op) == 1 || Arity(op) == 2
  {
    SymbolFound(op);
    SymbolUnique(op, token);
  }

  lemma SymbolFound(op: Op)
    ensures OperatorOf(Symbol(op)) == Some(op)
  {
    match op
    case Add => case Subtract => case Multiply => case Divide => case Power =>
    case Factorial => case AbsoluteValue => case Acos => case Asin => case Atan =>
    case Cos => case Cosh => case Log => case Sin => case Sinh =>
    case SquareRoot => case Tan => case Tanh =>
  }

  lemma SymbolUnique(op: Op, token: string)
    ensures OperatorOf(token) == Some(op) ==> token == Symbol(op)
  {
    if OperatorOf(token) == Some(op) {
      KeyOfEntry(token);
    }
  }

  lemma KeyOfEntry(token: string)
    requires OperatorOf(token).Some?
    ensures Symbol(OperatorOf(token).value) == token
  {
  }

  /** No key of the table is a cell reference, so substitution and reduction
      never compete for a token. */
  lemma OperatorsAreNotReferences(token: string)
    requires OperatorOf(token).Some?
    ensures NoSpace(token) && !IsCellReference(token)
  {
    KeyOfEntry(token);
    KeyShape(OperatorOf(token).value);
    WordReference(token);
  }

  /** Every key is one, three or four characters long, none of them white
      space. */
  lemma KeyShape(op: Op)
    ensures NoSpace(Symbol(op)) && |Symbol(op)| != 2
  {
    match op
    case Add => case Subtract => case Multiply => case Divide => case Power =>
    case Factorial => case AbsoluteValue => case Acos => case Asin => case Atan =>
    case Cos => case Cosh => case Log => case Sin => case Sinh =>
    case SquareRoot => case Tan => case Tanh =>
  }

  /** A Python number: a float, or the int `math.factorial` returns on some
      Python versions. Only equality of numbers is observed. */
  type Number(==, !new)

  /** What calling one of the library functions does: return a number, raise
      TypeError (caught by the solver), or raise anything else (not caught). */
  datatype OpResult = Value(v: Number) | TypeError | Raised

  /** The numeric behaviour the solver depends on:
      `parse(s)` is `float(s)` on a string (None when it raises ValueError),
      `show(x)` is `str(x)`, and `apply(op, xs)` calls the library function
      of `op` on the operands `xs`, rounded as the library rounds. */
  datatype Numerics = Numerics(
    parse: string -> Option<Number>,
    show: Number -> string,
    apply: (Op, seq<Number>) -> OpResult)

  /** Facts about CPython's `float()` and `str()` the fixpoint sweep relies
      on: a numeral may carry white space around it but none inside, so it
      splits into one token that is itself a numeral; a numeral is never a
      cell reference; "#ERR" is not a numeral; and `str` of a number is a
      numeral without white space, never a key of the operation table. */
  ghost predicate ValidNumerics(num: Numerics) {
    (forall s :: num.parse(s).Some? ==> |Split(s)| == 1 && num.parse(Split(s)[0]).Some?) &&
    (forall s :: num.parse(s).Some? ==> !IsCellReference(s)) &&
    num.parse(ERROR_MESSAGE).None? &&
    ShowsNumerals(num)
  }

  /** `str` of a number is a numeral without white space that is not a key
      of the operation table. */
  ghost predicate ShowsNumerals(num: Numerics) {
    forall x :: num.show(x) != [] && NoSpace(num.show(x)) && num.parse(num.show(x)).Some? &&
                OperatorOf(num.show(x)).None?
  }

  /** An element of the token list: the text of a token, or the number a
      unary operation inserted without converting it to a string. */
  datatype Item = Text(s: string) | Num(n: Number)

  /** The token list handed to the evaluator: every element a string. */
  function Texts(tokens: seq<string>): (r: seq<Item>)
    ensures |r| == |tokens| && forall k :: 0 <= k < |r| ==> r[k] == Text(tokens[k])
  {
    seq(|tokens|, k requires 0 <= k < |tokens| => Text(tokens[k]))
  }

  /** `x in self.operations`: only a string can be a key. */
  predicate IsOperator(x: Item) {
    x.Text? && OperatorOf(x.s).Some?
  }

  /** `float(x)`; None when Python raises ValueError. */
  function ToFloat(num: Numerics, x: Item): (r: Option<Number>)
    ensures r.None? ==> x.Text? && num.parse(x.s).None?
  {
    match x
    case Text(s) => num.parse(s)
    case Num(n) => Some(n)
  }

  /** `is_number(x)`: whether `float(x)` succeeds. */
  predicate IsNumber(num: Numerics, x: Item)
    ensures x.Num? ==> IsNumber(num, x)
  {
    ToFloat(num, x).Some?
  }

  /** `str(x)`. */
  function ItemText(num: Numerics, x: Item): (r: string)
    ensures ShowsNumerals(num) && x.Num? ==> r != [] && NoSpace(r) && num.parse(r).Some?
  {
    match x
    case Text(s) => s
    case Num(n) => num.show(n)
  }
}
