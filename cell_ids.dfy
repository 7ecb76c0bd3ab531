/** Cell ids of the board table: `fillTable` gives the cell of column x and
    row y the id `${x}-${y}` (jeopardy.js:107), and `handleClick` recovers
    the coordinates with `id.split("-")` and uses the two pieces as property
    keys of the `categories` and `clues` arrays (jeopardy.js:129, 141). */
module CellIds {
  import opened Js

  predicate IsDigit(c: char) {
    '0' <= c <= '9'
  }

  function DigitChar(d: nat): (c: char)
    requires d < 10
    ensures IsDigit(c) && (c == '0' <==> d == 0)
  {
    "0123456789"[d]
  }

  function DigitValue(c: char): (d: nat)
    requires IsDigit(c)
    ensures d < 10 && DigitChar(d) == c
  {
    c as int - '0' as int
  }

  /** `${n}` for a natural number: its decimal digits, without leading zeros. */
  function Decimal(n: nat): (s: string)
    ensures |s| >= 1 && (|s| == 1 <==> n < 10)
    ensures forall i :: 0 <= i < |s| ==> IsDigit(s[i])
    ensures |s| > 1 ==> s[0] != '0'
  {
    if n < 10 then [DigitChar(n)] else Decimal(n / 10) + [DigitChar(n % 10)]
  }

  /** The number a string of decimal digits spells. */
  function DigitsValue(s: string): nat
    requires forall i :: 0 <= i < |s| ==> IsDigit(s[i])
  {
    if |s| == 0 then 0 else DigitsValue(s[..|s| - 1]) * 10 + DigitValue(s[|s| - 1])
  }

  /** A string that is the canonical decimal form of a number. */
  predicate IsCanonical(s: string) {
    |s| >= 1 && (forall i :: 0 <= i < |s| ==> IsDigit(s[i])) && (|s| == 1 || s[0] != '0')
  }

  /** The array element a property key names: `a["3"]` is `a[3]`, while a key
      such as "03", "", "-1" or "x" names no element. */
  function IndexKey(key: string): Option<nat> {
    if IsCanonical(key) then Some(DigitsValue(key)) else None
  }

  /** `s.split(sep)` for a one-character separator: the pieces between the
      separators, in order; "" splits into [""]. */
  function Split(s: string, sep: char): (parts: seq<string>)
    ensures |parts| >= 1
  {
    if s == [] then [[]]
    else
      var rest := Split(s[1..], sep);
      if s[0] == sep then [[]] + rest else [[s[0]] + rest[0]] + rest[1..]
  }

  /** `parts.join(sep)`, the inverse of `Split`. */
  function Join(parts: seq<string>, sep: char): string
    requires |parts| >= 1
  {
    if |parts| == 1 then parts[0] else parts[0] + [sep] + Join(parts[1..], sep)
  }

  /** The id `fillTable` gives the cell of column x, row y; splitting it on
      "-" gives exactly the decimal strings of x and y. */
  function CellId(x: nat, y: nat): (id: string)
    ensures Split(id, '-') == [Decimal(x), Decimal(y)]
  {
    DecimalHasNoDash(x);
    DecimalHasNoDash(y);
    SplitAtSeparator(Decimal(x), '-', Decimal(y));
    SplitNoSeparator(Decimal(y), '-');
    Decimal(x) + "-" + Decimal(y)
  }

  /** The coordinates `handleClick` reads off a cell id: `let [x, y] =
      id.split("-")`, each piece then used as an array index key (pieces after
      the second are ignored; a missing second piece is `undefined`). None
      when either key names no element. */
  function CellOf(id: string): Option<(nat, nat)> {
    var parts := Split(id, '-');
    var x := IndexKey(parts[0]);
    var y := if |parts| > 1 then IndexKey(parts[1]) else None;
    if x.Some? && y.Some? then Some((x.value, y.value)) else None
  }

  // ---------------------------------------------------------------------
  // Decimal strings and index keys

  lemma {:induction false} DigitsOfDecimal(n: nat)
    ensures DigitsValue(Decimal(n)) == n
  {
    if n >= 10 {
      var s := Decimal(n);
      assert s[..|s| - 1] == Decimal(n / 10);
      DigitsOfDecimal(n / 10);
    }
  }

  /** The key `${n}` names element n. */
  lemma IndexKeyOfDecimal(n: nat)
    ensures IndexKey(Decimal(n)) == Some(n)
  {
    DigitsOfDecimal(n);
  }

  lemma {:induction false} LeadingDigitNonzero(s: string)
    requires |s| >= 1 && forall i :: 0 <= i < |s| ==> IsDigit(s[i])
    requires s[0] != '0'
    ensures DigitsValue(s) >= 1
  {
    if |s| > 1 {
      LeadingDigitNonzero(s[..|s| - 1]);
    }
  }

  /** The only key naming element n is `${n}`. */
  lemma {:induction false} IndexKeyIsDecimal(key: string, n: nat)
    requires IndexKey(key) == Some(n)
    ensures key == Decimal(n)
  {
    if |key| > 1 {
      var front := key[..|key| - 1];
      var m := DigitsValue(front);
      assert IsCanonical(front);
      LeadingDigitNonzero(front);
      IndexKeyIsDecimal(front, m);
      assert n == m * 10 + DigitValue(key[|key| - 1]);
      assert n / 10 == m && n % 10 == DigitValue(key[|key| - 1]);
      assert key == front + [key[|key| - 1]];
    }
  }

  // ---------------------------------------------------------------------
  // Split

  /** Splitting and joining again gives back the string. */
  lemma {:induction false} JoinSplit(s: string, sep: char)
    ensures Join(Split(s, sep), sep) == s
    ensures forall k :: 0 <= k < |Split(s, sep)| ==> sep !in Split(s, sep)[k]
  {
    if s != [] {
      JoinSplit(s[1..], sep);
      var rest := Split(s[1..], sep);
      if s[0] != sep {
        if |rest| > 1 {
          assert Split(s, sep)[1..] == rest[1..];
        }
      }
    }
  }

  lemma {:induction false} SplitNoSeparator(a: string, sep: char)
    requires sep !in a
    ensures Split(a, sep) == [a]
  {
    if a != [] {
      SplitNoSeparator(a[1..], sep);
      assert [a[0]] + a[1..] == a;
    }
  }

  lemma {:induction false} SplitAtSeparator(a: string, sep: char, b: string)
    requires sep !in a
    ensures Split(a + [sep] + b, sep) == [a] + Split(b, sep)
  {
    if a == [] {
      assert (a + [sep] + b)[1..] == b;
    } else {
      var s := a + [sep] + b;
      assert s[0] == a[0] != sep;
      assert s[1..] == a[1..] + [sep] + b;
      SplitAtSeparator(a[1..], sep, b);
      assert [a[0]] + a[1..] == a;
    }
  }

  lemma DecimalHasNoDash(n: nat)
    ensures '-' !in Decimal(n)
  {
  }

  /** A click on the cell created for (x, y) addresses (x, y). */
  lemma CellIdRoundTrip(x: nat, y: nat)
    ensures CellOf(CellId(x, y)) == Some((x, y))
  {
    IndexKeyOfDecimal(x);
    IndexKeyOfDecimal(y);
  }

  /** Distinct cells get distinct ids. */
  lemma CellIdInjective(x: nat, y: nat, x': nat, y': nat)
    requires CellId(x, y) == CellId(x', y')
    ensures x == x' && y == y'
  {
    CellIdRoundTrip(x, y);
    CellIdRoundTrip(x', y');
  }

  /** Every id that addresses (x, y) starts with the pieces `${x}` and `${y}`. */
  lemma CellOfPieces(id: string, x: nat, y: nat)
    requires CellOf(id) == Some((x, y))
    ensures var parts := Split(id, '-');
      |parts| >= 2 && parts[0] == Decimal(x) && parts[1] == Decimal(y)
  {
    var parts := Split(id, '-');
    IndexKeyIsDecimal(parts[0], x);
    IndexKeyIsDecimal(parts[1], y);
  }
}
