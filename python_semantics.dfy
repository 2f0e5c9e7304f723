/** The few Python built-ins the solver relies on, stated exactly: `str.split()`
    with no separator, and list subscripting, `pop` and `insert`, all of which
    accept negative positions counted from the end of the list. */
module PythonSemantics {

  datatype Option<+T> = None | Some(value: T)

  /** `c.isspace()`; the class `\s` of a regular expression over `str` uses the
      same table of Unicode white space. */
  predicate IsSpace(c: char) {
    if c <= ' ' then c == ' ' || ('\t' <= c <= '\r') || ('\U{1C}' <= c <= '\U{1F}')
    else '\U{85}' <= c && IsWideSpace(c)
  }

  /** The white space characters above U+0084. */
  predicate IsWideSpace(c: char) {
    c == '\U{85}' || c == '\U{A0}' || c == '\U{1680}' ||
    ('\U{2000}' <= c <= '\U{200A}') || c == '\U{2028}' || c == '\U{2029}' ||
    c == '\U{202F}' || c == '\U{205F}' || c == '\U{3000}'
  }

  predicate AllSpace(s: string) {
    forall k :: 0 <= k < |s| ==> IsSpace(s[k])
  }

  predicate NoSpace(s: string) {
    forall k :: 0 <= k < |s| ==> !IsSpace(s[k])
  }

  /** The length of the run of non-space characters that starts `s`. */
  function WordLength(s: string): (n: nat)
    ensures n <= |s| && NoSpace(s[..n])
    ensures n < |s| ==> IsSpace(s[n])
  {
    if s == [] || IsSpace(s[0]) then 0 else 1 + WordLength(s[1..])
  }

  /** `s.split()`: the maximal runs of non-space characters of `s`, in order. */
  function Split(s: string): (r: seq<string>)
    ensures forall k :: 0 <= k < |r| ==> r[k] != [] && NoSpace(r[k])
    decreases |s|
  {
    if s == [] then []
    else if IsSpace(s[0]) then Split(s[1..])
    else
      var n := WordLength(s);
      [s[..n]] + Split(s[n..])
  }

  /** `' '.join(tokens)`, the reference against which `Split` is checked. */
  function Join(tokens: seq<string>): string {
    if tokens == [] then ""
    else if |tokens| == 1 then tokens[0]
    else tokens[0] + " " + Join(tokens[1..])
  }

  lemma {:induction false} WordLengthOfWord(w: string, rest: string)
    requires w != [] && NoSpace(w)
    requires rest == [] || IsSpace(rest[0])
    ensures WordLength(w + rest) == |w|
    decreases |w|
  {
    var s := w + rest;
    if |w| > 1 {
      assert s[1..] == w[1..] + rest;
      WordLengthOfWord(w[1..], rest);
    } else {
      assert s[1..] == rest;
    }
  }

  /** Splitting a space-joined list of words gives the words back. */
  lemma {:induction false} SplitJoin(tokens: seq<string>)
    requires forall k :: 0 <= k < |tokens| ==> tokens[k] != [] && NoSpace(tokens[k])
    ensures Split(Join(tokens)) == tokens
    decreases |tokens|
  {
    if tokens == [] {
    } else if |tokens| == 1 {
      var w := tokens[0];
      WordLengthOfWord(w, []);
      assert w + [] == w;
      assert w[|w|..] == [];
      assert w[..|w|] == w;
    } else {
      var w, rest := tokens[0], Join(tokens[1..]);
      var s := w + " " + rest;
      assert Join(tokens) == s;
      WordLengthOfWord(w, " " + rest);
      assert w + (" " + rest) == s;
      assert s[..|w|] == w;
      assert s[|w|..] == " " + rest;
      assert (" " + rest)[1..] == rest;
      SplitJoin(tokens[1..]);
    }
  }

  /** A string splits into itself alone exactly when it is one non-empty word. */
  lemma {:induction false} SplitSingleWord(s: string)
    ensures Split(s) == [s] <==> s != [] && NoSpace(s)
  {
    if s != [] && NoSpace(s) {
      SplitJoin([s]);
      assert Join([s]) == s;
    } else {
      var r := Split(s);
      assert |r| > 0 ==> r[0] != [] && NoSpace(r[0]);
    }
  }

  /** The position a subscript `k` denotes in a list of length `n`: a negative
      `k` counts from the end; None stands for IndexError. */
  function PyIndex(n: nat, k: int): (r: Option<nat>)
    ensures r.Some? <==> 0 <= k + n && k < n
    ensures r.Some? ==> r.value < n && (r.value == k || r.value == k + n)
  {
    var i := if k < 0 then k + n else k;
    if 0 <= i < n then Some(i) else None
  }

  /** `xs.pop(k)`: the removed element and the list left behind, or None when
      Python raises IndexError. */
  function Pop<T>(xs: seq<T>, k: int): (r: Option<(T, seq<T>)>)
    ensures r.Some? <==> 0 <= k + |xs| && k < |xs|
    ensures r.Some? ==> |r.value.1| == |xs| - 1
  {
    match PyIndex(|xs|, k)
    case None => None
    case Some(i) => Some((xs[i], xs[..i] + xs[i + 1..]))
  }

  /** `xs.insert(k, x)`: Python clamps the position into `0..len(xs)` after
      adding `len(xs)` to a negative one. */
  function Insert<T>(xs: seq<T>, k: int, x: T): (r: seq<T>)
    ensures |r| == |xs| + 1
    ensures exists p :: 0 <= p <= |xs| && r == xs[..p] + [x] + xs[p..]
  {
    var i := if k < 0 then (if k + |xs| < 0 then 0 else k + |xs|)
             else (if k > |xs| then |xs| else k);
    xs[..i] + [x] + xs[i..]
  }

  /** `xs.insert(-1, x)` puts `x` before the last element, not after it. */
  lemma InsertBeforeLast<T>(xs: seq<T>, x: T)
    ensures xs == [] ==> Insert(xs, -1, x) == [x]
    ensures xs != [] ==> Insert(xs, -1, x) == xs[..|xs| - 1] + [x, xs[|xs| - 1]]
  {
    if xs != [] {
      assert xs[|xs| - 1..] == [xs[|xs| - 1]];
    }
  }

  /** `xs.pop(-1)` removes the last element; on an empty list it raises. */
  lemma PopLast<T>(xs: seq<T>)
    ensures xs == [] <==> Pop(xs, -1).None?
    ensures xs != [] ==> Pop(xs, -1) == Some((xs[|xs| - 1], xs[..|xs| - 1]))
  {
    if xs != [] {
      assert xs[|xs|..] == [];
      assert xs[..|xs| - 1] + xs[|xs|..] == xs[..|xs| - 1];
    }
  }

  /** `xs.pop(-2)` removes the element before the last one; on a list of
      one element it raises. */
  lemma PopSecondLast<T>(xs: seq<T>)
    requires xs != []
    ensures |xs| == 1 ==> Pop(xs, -2).None?
    ensures |xs| >= 2 ==>
      Pop(xs, -2) == Some((xs[|xs| - 2], xs[..|xs| - 2] + [xs[|xs| - 1]]))
  {
    if |xs| >= 2 {
      assert xs[|xs| - 1..] == [xs[|xs| - 1]];
    }
  }
}
