/** Reference substitution (`convert_cell_references`): every token of an
    expression that is a cell reference is replaced by the whole text of the
    cell it names, unless that text still holds a reference (the expression
    must wait) or the address lies outside the grid (the expression is an
    error). */
module Resolver {
  import opened PythonSemantics
  import opened CellReference
  import opened Operations

  /** `data[row][column]` with Python subscripts: negative positions count
      from the end, and None stands for IndexError. */
  function CellAt(data: seq<seq<string>>, column: int, row: int): (r: Option<string>)
    ensures r.Some? <==>
      PyIndex(|data|, row).Some? && PyIndex(|data[PyIndex(|data|, row).value]|, column).Some?
    ensures r.Some? ==>
      var i := PyIndex(|data|, row).value; r.value == data[i][PyIndex(|data[i]|, column).value]
  {
    match PyIndex(|data|, row)
    case None => None
    case Some(i) =>
      match PyIndex(|data[i]|, column)
      case None => None
      case Some(j) => Some(data[i][j])
  }

  /** What the loop of `convert_cell_references` does with one token:
      leave it (not a reference, or a reference to a cell holding `'#ERR'`),
      replace it by the text of the named cell, stop with False because that
      text holds a reference, or stop with `['#ERR']` on IndexError. */
  datatype TokenResolution = Keep | Substitute(text: string) | Pending | Missing

  /** The text of the cell a reference names, when the address is inside the
      grid. */
  function Target(data: seq<seq<string>>, reference: string): (r: Option<string>)
    requires IsCellReference(reference)
    ensures r.Some? ==> exists p, q :: 0 <= p < |data| && 0 <= q < |data[p]| && data[p][q] == r.value
  {
    ReferenceIndexes(reference);
    var (column, row) := CellIndexes(reference);
    CellAt(data, column, row)
  }

  /** Whether some whitespace-separated word of `text` is a cell reference. */
  predicate HoldsReference(text: string)
    ensures HoldsReference(text) ==> text != []
  {
    exists w :: w in Split(text) && IsCellReference(w)
  }

  function ResolveToken(data: seq<seq<string>>, token: string): (r: TokenResolution)
    ensures r != Keep ==> IsCellReference(token)
    ensures r.Substitute? ==> r.text != ERROR_MESSAGE && !HoldsReference(r.text)
    ensures r.Pending? ==> Target(data, token).Some? && HoldsReference(Target(data, token).value)
    ensures r.Missing? <==> IsCellReference(token) && Target(data, token).None?
  {
    if !IsCellReference(token) then Keep
    else match Target(data, token)
      case None => Missing
      case Some(text) =>
        if HoldsReference(text) then Pending
        else if text != ERROR_MESSAGE then Substitute(text)
        else Keep
  }

  /** Whether a token stops the loop early. */
  predicate Blocks(data: seq<seq<string>>, token: string) {
    ResolveToken(data, token).Pending? || ResolveToken(data, token).Missing?
  }

  /** The token that takes the place of `token` when the loop runs past it. */
  function Replacement(data: seq<seq<string>>, token: string): string {
    match ResolveToken(data, token)
    case Substitute(text) => text
    case _ => token
  }

  /** How the loop over an expression ends. */
  datatype Resolution = Resolved(tokens: seq<string>) | Deferred | OutOfRange

  /** The loop of `convert_cell_references`, token after token. */
  function Resolve(data: seq<seq<string>>, tokens: seq<string>): (r: Resolution)
    ensures r.Resolved? ==> |r.tokens| == |tokens|
  {
    if tokens == [] then Resolved([])
    else
      match ResolveToken(data, tokens[0])
      case Pending => Deferred
      case Missing => OutOfRange
      case Keep =>
        (match Resolve(data, tokens[1..])
         case Resolved(rest) => Resolved([tokens[0]] + rest)
         case other => other)
      case Substitute(text) =>
        (match Resolve(data, tokens[1..])
         case Resolved(rest) => Resolved([text] + rest)
         case other => other)
  }

  /** What `convert_cell_references` returns: False, or a token list. */
  datatype Conversion = NotYet | Tokens(tokens: seq<string>)

  function Convert(data: seq<seq<string>>, tokens: seq<string>): (r: Conversion)
    ensures r.Tokens? ==> |r.tokens| == |tokens| || r.tokens == [ERROR_MESSAGE]
  {
    match Resolve(data, tokens)
    case Resolved(t) => Tokens(t)
    case Deferred => NotYet
    case OutOfRange => Tokens([ERROR_MESSAGE])
  }

  /** When no token blocks, the loop runs to the end and the result replaces
      each token independently; and it runs to the end only then. */
  lemma {:induction false} ResolveWithoutBlocking(data: seq<seq<string>>, tokens: seq<string>)
    ensures Resolve(data, tokens).Resolved? <==>
              forall k :: 0 <= k < |tokens| ==> !Blocks(data, tokens[k])
    ensures Resolve(data, tokens).Resolved? ==>
              forall k :: 0 <= k < |tokens| ==>
                Resolve(data, tokens).tokens[k] == Replacement(data, tokens[k])
    decreases |tokens|
  {
    if tokens != [] {
      ResolveWithoutBlocking(data, tokens[1..]);
      assert forall k :: 1 <= k < |tokens| ==> tokens[k] == tokens[1..][k - 1];
      if !Blocks(data, tokens[0]) && Resolve(data, tokens[1..]).Resolved? {
        var rest := Resolve(data, tokens[1..]).tokens;
        var r := Resolve(data, tokens);
        assert r.tokens == [Replacement(data, tokens[0])] + rest;
        forall k | 0 <= k < |tokens|
          ensures r.tokens[k] == Replacement(data, tokens[k])
        {
          if k > 0 {
            assert r.tokens[k] == rest[k - 1];
          }
        }
      }
    }
  }

  /** The first token that blocks decides the outcome, whatever follows it:
      a reference to text holding a reference gives Deferred, one outside
      the grid gives OutOfRange. */
  lemma {:induction false} FirstBlockingDecides(data: seq<seq<string>>, tokens: seq<string>, k: nat)
    requires k < |tokens| && Blocks(data, tokens[k])
    requires forall j :: 0 <= j < k ==> !Blocks(data, tokens[j])
    ensures Resolve(data, tokens) == if ResolveToken(data, tokens[k]).Pending? then Deferred else OutOfRange
    decreases k
  {
    if k > 0 {
      assert forall j :: 0 <= j < k - 1 ==> tokens[1..][j] == tokens[j + 1];
      FirstBlockingDecides(data, tokens[1..], k - 1);
    }
  }

  /** On success the list has its original length, every token that is not a
      reference is unchanged, a reference to a cell holding `'#ERR'` is kept
      as it is, and any other reference is replaced by the whole text of its
      cell as a single token. */
  lemma ConvertedTokens(data: seq<seq<string>>, tokens: seq<string>)
    requires Resolve(data, tokens).Resolved?
    ensures var r := Convert(data, tokens).tokens;
      |r| == |tokens| &&
      forall k :: 0 <= k < |tokens| ==>
        (!IsCellReference(tokens[k]) ==> r[k] == tokens[k]) &&
        (IsCellReference(tokens[k]) ==>
           Target(data, tokens[k]).Some? &&
           r[k] == (if Target(data, tokens[k]).value == ERROR_MESSAGE then tokens[k]
                    else Target(data, tokens[k]).value))
  {
    ResolveWithoutBlocking(data, tokens);
  }
}
