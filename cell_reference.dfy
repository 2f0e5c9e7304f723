/** Cell addresses: recognising a token as a reference (`is_cell_reference`)
    and decoding it into a 0-based (column, row) pair
    (`get_cell_reference_indexes`). */
module CellReference {
  import opened PythonSemantics

  predicate IsAsciiLetter(c: char) {
    'a' <= c <= 'z' || 'A' <= c <= 'Z'
  }

  predicate IsAsciiDigit(c: char) {
    '0' <= c <= '9'
  }

  /** Where the run of white space that starts at `i` ends: the scan `\s*`
      performs from position `i`. */
  function SkipSpaces(s: string, i: nat): (j: nat)
    requires i <= |s|
    ensures i <= j <= |s| && SpacesBetween(s, i, j)
    ensures j < |s| ==> !IsSpace(s[j])
    decreases |s| - i
  {
    if i < |s| && IsSpace(s[i]) then SkipSpaces(s, i + 1) else i
  }

  ghost predicate SpacesBetween(s: string, i: nat, j: nat)
    requires i <= j <= |s|
  {
    forall k :: i <= k < j ==> IsSpace(s[k])
  }

  /** Whether `re.match(r'^\s*[a-zA-Z]\s*[0-9]\s*$', value)` succeeds, read
      left to right: spaces, one letter, spaces, one digit, spaces to the end.
      (`$` may also match before a final newline, but `\s*` already consumes
      it, so the match is a match of the whole string.) */
  predicate IsCellReference(value: string)
    ensures IsCellReference(value) ==> 2 <= |value|
  {
    var a := SkipSpaces(value, 0);
    a < |value| && IsAsciiLetter(value[a]) &&
    var b := SkipSpaces(value, a + 1);
    b < |value| && IsAsciiDigit(value[b]) && SkipSpaces(value, b + 1) == |value|
  }

  /** The same pattern stated as a decomposition of `value`. */
  ghost predicate MatchesPattern(value: string) {
    exists a: nat, b: nat :: a < b < |value| && Decomposes(value, a, b)
  }

  /** `value` is spaces, the letter at `a`, spaces, the digit at `b`, spaces. */
  ghost predicate Decomposes(value: string, a: nat, b: nat)
    requires a < b < |value|
  {
    SpacesBetween(value, 0, a) && IsAsciiLetter(value[a]) && SpacesBetween(value, a + 1, b) &&
    IsAsciiDigit(value[b]) && SpacesBetween(value, b + 1, |value|)
  }

  /** The scanning predicate and the pattern agree on every string. */
  lemma IsCellReferenceMatchesPattern(value: string)
    ensures IsCellReference(value) <==> MatchesPattern(value)
  {
    if IsCellReference(value) {
      var a := SkipSpaces(value, 0);
      var b := SkipSpaces(value, a + 1);
      assert Decomposes(value, a, b);
    }
    if MatchesPattern(value) {
      var a: nat, b: nat :| a < b < |value| && Decomposes(value, a, b);
      assert SkipSpaces(value, 0) == a;
      assert SkipSpaces(value, a + 1) == b;
    }
  }

  /** A token of `split()` has no white space, so it is a reference exactly
      when it is one letter followed by one digit. */
  lemma WordReference(token: string)
    requires NoSpace(token)
    ensures IsCellReference(token) <==>
              |token| == 2 && IsAsciiLetter(token[0]) && IsAsciiDigit(token[1])
  {
    if token != [] {
      assert SkipSpaces(token, 0) == 0;
      if |token| > 1 {
        assert SkipSpaces(token, 1) == 1;
      }
      if |token| > 2 {
        assert SkipSpaces(token, 2) == 2;
      }
    }
  }

  /** Multi-letter columns and multi-digit rows are never references. */
  lemma LongAddressesAreNotReferences()
    ensures !IsCellReference("AA1") && !IsCellReference("A10")
  {
    WordReference("AA1");
    WordReference("A10");
  }

  /** One letter and one digit make a reference, with white space (a newline
      included) allowed around and between them. */
  lemma SpacedAddressesAreReferences()
    ensures IsCellReference("B2") && IsCellReference(" c 7\n")
  {
    WordReference("B2");
    var s := " c 7\n";
    assert SkipSpaces(s, 4) == 5 && SkipSpaces(s, 2) == 3 && SkipSpaces(s, 0) == 1;
  }

  // ---- Decoding ----

  /** `ord(c.upper()) - ord('A') + 1`: A and a are 1, Z and z are 26. */
  function LetterValue(c: char): (v: int)
    requires IsAsciiLetter(c)
    ensures 1 <= v <= 26
  {
    if 'a' <= c <= 'z' then c as int - 'a' as int + 1 else c as int - 'A' as int + 1
  }

  function DigitValue(c: char): (v: int)
    requires IsAsciiDigit(c)
    ensures 0 <= v <= 9
  {
    c as int - '0' as int
  }

  predicate AllLetters(s: string) {
    forall k :: 0 <= k < |s| ==> IsAsciiLetter(s[k])
  }

  predicate AllDigits(s: string) {
    forall k :: 0 <= k < |s| ==> IsAsciiDigit(s[k])
  }

  /** `column_index = column_index * 26 + LetterValue(char)` over the letters,
      as the left fold it is. */
  function ColumnValue(letters: string): (v: nat)
    requires AllLetters(letters)
    ensures v == 0 <==> letters == []
  {
    if letters == [] then 0
    else ColumnValue(letters[..|letters| - 1]) * 26 + LetterValue(letters[|letters| - 1])
  }

  /** `int(digits)` for a string of ASCII digits. */
  function DecimalValue(digits: string): (v: nat)
    requires AllDigits(digits)
    ensures |digits| == 1 ==> v == DigitValue(digits[0])
  {
    if digits == [] then 0
    else DecimalValue(digits[..|digits| - 1]) * 10 + DigitValue(digits[|digits| - 1])
  }

  /** `''.join(c for c in s if c.isalpha())`, for text made of ASCII letters,
      digits and white space. */
  function Letters(s: string): (r: string)
    ensures AllLetters(r)
  {
    if s == [] then ""
    else (if IsAsciiLetter(s[0]) then [s[0]] else "") + Letters(s[1..])
  }

  /** `''.join(c for c in s if c.isdigit())`, for the same kind of text. */
  function Digits(s: string): (r: string)
    ensures AllDigits(r)
  {
    if s == [] then ""
    else (if IsAsciiDigit(s[0]) then [s[0]] else "") + Digits(s[1..])
  }

  /** Text `get_cell_reference_indexes` can decode without raising: ASCII
      letters, ASCII digits and white space, with at least one digit (else
      `int('')` raises ValueError). */
  predicate IsAddressText(s: string) {
    (forall k :: 0 <= k < |s| ==> IsAsciiLetter(s[k]) || IsAsciiDigit(s[k]) || IsSpace(s[k])) &&
    Digits(s) != []
  }

  /** `get_cell_reference_indexes(reference)`: (column, row), each one less
      than the 1-based value written in the reference. */
  function CellIndexes(reference: string): (r: (int, int))
    requires IsAddressText(reference)
    ensures r.0 >= -1 && r.1 >= -1
  {
    (ColumnValue(Letters(reference)) - 1, DecimalValue(Digits(reference)) - 1)
  }

  // ---- The inverse: writing an address ----

  /** The column letters of 1-based column `n` in bijective base 26
      (A .. Z, AA .. AZ, BA, ...). */
  function ColumnName(n: nat): (s: string)
    requires n >= 1
    ensures s != [] && forall k :: 0 <= k < |s| ==> 'A' <= s[k] <= 'Z'
    decreases n
  {
    if n <= 26 then [('A' as int + n - 1) as char]
    else ColumnName((n - 1) / 26) + [('A' as int + (n - 1) % 26) as char]
  }

  /** The decimal numeral of `n`, as `str(n)` writes it. */
  function DecimalString(n: nat): (s: string)
    ensures s != [] && AllDigits(s)
    decreases n
  {
    if n < 10 then [('0' as int + n) as char]
    else DecimalString(n / 10) + [('0' as int + n % 10) as char]
  }

  lemma {:induction false} ColumnValueOfName(n: nat)
    requires n >= 1
    ensures ColumnValue(ColumnName(n)) == n
    decreases n
  {
    if n > 26 {
      var p := ColumnName((n - 1) / 26);
      var s := ColumnName(n);
      assert s[..|s| - 1] == p;
      ColumnValueOfName((n - 1) / 26);
    }
  }

  lemma {:induction false} DecimalValueOfString(n: nat)
    ensures DecimalValue(DecimalString(n)) == n
    decreases n
  {
    if n >= 10 {
      var s := DecimalString(n);
      assert s[..|s| - 1] == DecimalString(n / 10);
      DecimalValueOfString(n / 10);
    }
  }

  lemma LettersConcat(x: string, y: string)
    ensures Letters(x + y) == Letters(x) + Letters(y)
    ensures Digits(x + y) == Digits(x) + Digits(y)
  {
    OnlyLettersConcat(x, y);
    OnlyDigitsConcat(x, y);
  }

  lemma {:induction false} OnlyLettersConcat(x: string, y: string)
    ensures Letters(x + y) == Letters(x) + Letters(y)
    decreases |x|
  {
    if x == [] {
      assert x + y == y;
    } else {
      var h := if IsAsciiLetter(x[0]) then [x[0]] else "";
      assert (x + y)[0] == x[0];
      assert (x + y)[1..] == x[1..] + y;
      assert Letters(x + y) == h + Letters(x[1..] + y);
      OnlyLettersConcat(x[1..], y);
      assert h + (Letters(x[1..]) + Letters(y)) == (h + Letters(x[1..])) + Letters(y);
    }
  }

  lemma {:induction false} OnlyDigitsConcat(x: string, y: string)
    ensures Digits(x + y) == Digits(x) + Digits(y)
    decreases |x|
  {
    if x == [] {
      assert x + y == y;
    } else {
      var h := if IsAsciiDigit(x[0]) then [x[0]] else "";
      assert (x + y)[0] == x[0];
      assert (x + y)[1..] == x[1..] + y;
      assert Digits(x + y) == h + Digits(x[1..] + y);
      OnlyDigitsConcat(x[1..], y);
      assert h + (Digits(x[1..]) + Digits(y)) == (h + Digits(x[1..])) + Digits(y);
    }
  }

  lemma {:induction false} LettersOfLetters(s: string)
    requires AllLetters(s)
    ensures Letters(s) == s && Digits(s) == []
    decreases |s|
  {
    if s != [] {
      LettersOfLetters(s[1..]);
    }
  }

  lemma {:induction false} DigitsOfDigits(s: string)
    requires AllDigits(s)
    ensures Digits(s) == s && Letters(s) == []
    decreases |s|
  {
    if s != [] {
      DigitsOfDigits(s[1..]);
    }
  }

  lemma AddressTextOfLettersDigits(l: string, d: string)
    requires AllLetters(l) && AllDigits(d) && d != []
    ensures Letters(l + d) == l && Digits(l + d) == d
    ensures IsAddressText(l + d)
  {
    LettersConcat(l, d);
    LettersOfLetters(l);
    DigitsOfDigits(d);
    var s := l + d;
    forall k | 0 <= k < |s|
      ensures IsAsciiLetter(s[k]) || IsAsciiDigit(s[k])
    {
      if k < |l| { assert s[k] == l[k]; } else { assert s[k] == d[k - |l|]; }
    }
  }

  /** Letters followed by digits decode to their column and row values. */
  lemma DecodeLettersDigits(l: string, d: string)
    requires AllLetters(l) && AllDigits(d) && d != []
    ensures IsAddressText(l + d)
    ensures CellIndexes(l + d) == (ColumnValue(l) - 1, DecimalValue(d) - 1)
  {
    var s := l + d;
    AddressTextOfLettersDigits(l, d);
    IndexesParts(s);
    assert CellIndexes(s).0 == ColumnValue(l) - 1;
    assert CellIndexes(s).1 == DecimalValue(d) - 1;
  }

  /** Decoding inverts writing: the address made of the letters of column
      `column + 1` and the numeral of row `row + 1` decodes to (column, row),
      for columns and rows of any size. */
  lemma AddressRoundTrip(column: nat, row: nat)
    ensures IsAddressText(ColumnName(column + 1) + DecimalString(row + 1))
    ensures CellIndexes(ColumnName(column + 1) + DecimalString(row + 1)) == (column, row)
  {
    var c, r := column + 1, row + 1;
    var l, d := ColumnName(c), DecimalString(r);
    DecodeLettersDigits(l, d);
    ColumnValueOfName(c);
    DecimalValueOfString(r);
    assert CellIndexes(l + d) == (c - 1, r - 1);
  }

  /** What a reference decodes to: the column of its letter, 0 .. 25 whatever
      its case, and its digit minus one, so that digit 0 gives row -1. */
  lemma ReferenceIndexes(value: string)
    requires IsCellReference(value)
    ensures IsAddressText(value)
    ensures var a := SkipSpaces(value, 0); var b := SkipSpaces(value, a + 1);
      CellIndexes(value) == (LetterValue(value[a]) - 1, DigitValue(value[b]) - 1)
    ensures 0 <= CellIndexes(value).0 <= 25 && -1 <= CellIndexes(value).1 <= 8
  {
    var a := SkipSpaces(value, 0);
    var b := SkipSpaces(value, a + 1);
    assert Decomposes(value, a, b);
    DecomposedParts(value, a, b);
    IndexesOfSingles(value, value[a], value[b]);
  }

  lemma {:induction false} NoLetters(s: string)
    requires forall k :: 0 <= k < |s| ==> !IsAsciiLetter(s[k])
    ensures Letters(s) == []
    decreases |s|
  {
    if s != [] {
      NoLetters(s[1..]);
    }
  }

  lemma {:induction false} NoDigits(s: string)
    requires forall k :: 0 <= k < |s| ==> !IsAsciiDigit(s[k])
    ensures Digits(s) == []
    decreases |s|
  {
    if s != [] {
      NoDigits(s[1..]);
    }
  }

  lemma {:induction false} OneLetter(s: string, a: nat)
    requires a < |s| && IsAsciiLetter(s[a])
    requires forall k :: 0 <= k < |s| && k != a ==> !IsAsciiLetter(s[k])
    ensures Letters(s) == [s[a]]
    decreases a
  {
    if a == 0 {
      NoLetters(s[1..]);
    } else {
      OneLetter(s[1..], a - 1);
    }
  }

  lemma {:induction false} OneDigit(s: string, b: nat)
    requires b < |s| && IsAsciiDigit(s[b])
    requires forall k :: 0 <= k < |s| && k != b ==> !IsAsciiDigit(s[k])
    ensures Digits(s) == [s[b]]
    decreases b
  {
    if b == 0 {
      NoDigits(s[1..]);
    } else {
      OneDigit(s[1..], b - 1);
    }
  }

  /** Apart from the letter and the digit, a reference is white space: it
      is address text whose only letter and only digit are those two. */
  lemma DecomposedParts(value: string, a: nat, b: nat)
    requires a < b < |value| && Decomposes(value, a, b)
    ensures Letters(value) == [value[a]] && Digits(value) == [value[b]]
    ensures IsAddressText(value)
  {
    forall k | 0 <= k < |value| && k != a && k != b
      ensures IsSpace(value[k]) && !IsAsciiLetter(value[k]) && !IsAsciiDigit(value[k])
    {
      if k < a {
        assert SpacesBetween(value, 0, a);
      } else if k < b {
        assert SpacesBetween(value, a + 1, b);
      } else {
        assert SpacesBetween(value, b + 1, |value|);
      }
    }
    OneLetter(value, a);
    OneDigit(value, b);
  }

  /** An address with one letter and one digit decodes to their values. */
  lemma IndexesOfSingles(value: string, x: char, y: char)
    requires IsAddressText(value) && IsAsciiLetter(x) && IsAsciiDigit(y)
    requires Letters(value) == [x] && Digits(value) == [y]
    ensures CellIndexes(value).0 == LetterValue(x) - 1
    ensures CellIndexes(value).1 == DigitValue(y) - 1
    ensures CellIndexes(value) == (LetterValue(x) - 1, DigitValue(y) - 1)
  {
    IndexesParts(value);
    SingleLetterColumn(x);
    SingleDigitDecimal(y);
    assert CellIndexes(value).0 == LetterValue(x) - 1;
    assert CellIndexes(value).1 == DigitValue(y) - 1;
  }

  lemma IndexesParts(value: string)
    requires IsAddressText(value)
    ensures CellIndexes(value).0 == ColumnValue(Letters(value)) - 1
    ensures CellIndexes(value).1 == DecimalValue(Digits(value)) - 1
  {
  }

  lemma SingleLetterColumn(c: char)
    requires IsAsciiLetter(c)
    ensures AllLetters([c]) && ColumnValue([c]) == LetterValue(c)
  {
    assert [c][..0] == [];
  }

  lemma SingleDigitDecimal(c: char)
    requires IsAsciiDigit(c)
    ensures AllDigits([c]) && DecimalValue([c]) == DigitValue(c)
  {
    assert [c][..0] == [];
  }

  /** Upper and lower case letters name the same column. */
  lemma {:induction false} ColumnValueIgnoresCase(x: string, y: string)
    requires AllLetters(x) && AllLetters(y) && |x| == |y|
    requires forall k :: 0 <= k < |x| ==> LetterValue(x[k]) == LetterValue(y[k])
    ensures ColumnValue(x) == ColumnValue(y)
    decreases |x|
  {
    if x != [] {
      ColumnValueIgnoresCase(x[..|x| - 1], y[..|y| - 1]);
    }
  }

  /** For the references the grammar admits, writing undoes decoding: an
      upper-case letter and a non-zero digit are what the indexes spell. */
  lemma ReferenceRoundTrip(value: string)
    requires |value| == 2 && 'A' <= value[0] <= 'Z' && '1' <= value[1] <= '9'
    ensures IsCellReference(value)
    ensures CellIndexes(value).0 >= 0 && CellIndexes(value).1 >= 0
    ensures ColumnName(CellIndexes(value).0 + 1) + DecimalString(CellIndexes(value).1 + 1) == value
  {
    WordReference(value);
    assert Decomposes(value, 0, 1);
    DecomposedParts(value, 0, 1);
    IndexesOfSingles(value, value[0], value[1]);
  }

  lemma TwoCharIndexes(value: string)
    requires |value| == 2 && IsAsciiLetter(value[0]) && IsAsciiDigit(value[1])
    ensures IsAddressText(value)
    ensures CellIndexes(value) == (LetterValue(value[0]) - 1, DigitValue(value[1]) - 1)
  {
    assert Decomposes(value, 0, 1);
    DecomposedParts(value, 0, 1);
    IndexesOfSingles(value, value[0], value[1]);
  }

  /** The two addresses a spreadsheet user would try first, and a lower-case
      one, and the row-0 case that Python's negative indexing turns into the
      last row. */
  lemma DecodeExamples()
    ensures IsAddressText("A1") && CellIndexes("A1") == (0, 0)
    ensures IsAddressText("C0") && CellIndexes("C0") == (2, -1)
  {
    TwoCharIndexes("A1");
    TwoCharIndexes("C0");
  }

  /** A lower-case letter decodes as its upper case. */
  lemma DecodeCaseExamples()
    ensures IsAddressText("B2") && CellIndexes("B2") == (1, 1)
    ensures IsAddressText("b2") && CellIndexes("b2") == (1, 1)
  {
    TwoCharIndexes("B2");
    TwoCharIndexes("b2");
  }
}
