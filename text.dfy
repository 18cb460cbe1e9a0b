/** Text primitives the scraper relies on: Python's `str.strip()`, `int()` and
    `str.split('/')` as it uses them, and the end-of-line rule of its regular
    expressions (`.+$`). Digits are the ASCII digits. */
module Text {

  datatype Option<+T> = None | Some(value: T) {
    predicate IsFailure() { None? }
    function PropagateFailure<U>(): Option<U> requires None? { None }
    function Extract(): T requires Some? { value }
  }

  /** The ways one course page can fail to parse. In the scraper each of these
      is an uncaught Python exception (AttributeError on a failed match,
      KeyError, ValueError, IndexError, NameError). */
  datatype ParseError =
    | UnexpectedLineShape(line: string)
    | UnknownMonthAbbreviation(abbreviation: string)
    | NotAnInteger(text: string)
    | NotAPair(text: string)
    | MissingColumn(width: nat)
    | SlotBeforeSection
    | BadIdLength(id: string)
    | UnknownFaculty(code: string)

  datatype Result<+T> = Ok(value: T) | Err(error: ParseError) {
    predicate IsFailure() { Err? }
    function PropagateFailure<U>(): Result<U> requires Err? { Err(error) }
    function Extract(): T requires Ok? { value }
  }

  predicate IsDigit(c: char) { '0' <= c <= '9' }

  predicate AllDigits(s: string) { forall k :: 0 <= k < |s| ==> IsDigit(s[k]) }

  /** Python's `str.isspace()`: the characters `str.strip()` discards. */
  predicate IsSpace(c: char) {
    '\t' <= c <= '\r' || '\U{1C}' <= c <= ' ' || c == '\U{85}' || c == '\U{A0}'
    || c == '\U{1680}' || '\U{2000}' <= c <= '\U{200A}' || c == '\U{2028}'
    || c == '\U{2029}' || c == '\U{202F}' || c == '\U{205F}' || c == '\U{3000}'
  }

  /** The two whitespace sets of the scraper: `str.strip()` discards every
      `isspace()` character; `int()` keeps the ASCII separators U+001C to U+001F
      (it turns only non-ASCII whitespace into spaces and then skips the C
      whitespace tab, line feed, vertical tab, form feed, carriage return and space). */
  datatype Blanks = StrBlanks | IntBlanks

  predicate IsBlank(c: char, b: Blanks) {
    IsSpace(c) && (b == IntBlanks ==> !('\U{1C}' <= c <= '\U{1F}'))
  }

  function StripStart(s: string, b: Blanks): string {
    if s != [] && IsBlank(s[0], b) then StripStart(s[1..], b) else s
  }

  function StripEnd(s: string, b: Blanks): string {
    if s != [] && IsBlank(s[|s| - 1], b) then StripEnd(s[..|s| - 1], b) else s
  }

  /** The text left after the whitespace of set `b` is removed at both ends. */
  function StripBy(s: string, b: Blanks): string {
    StripEnd(StripStart(s, b), b)
  }

  /** `str.strip()`. */
  function Strip(s: string): string {
    StripBy(s, StrBlanks)
  }

  predicate AllBlank(s: string, b: Blanks) { forall k :: 0 <= k < |s| ==> IsBlank(s[k], b) }

  /** StripStart keeps a suffix, drops only whitespace and stops at a non-space. */
  lemma {:induction false} StripStartShape(s: string, b: Blanks)
    ensures |StripStart(s, b)| <= |s| && StripStart(s, b) == s[|s| - |StripStart(s, b)|..]
    ensures AllBlank(s[..|s| - |StripStart(s, b)|], b)
    ensures StripStart(s, b) == [] || !IsBlank(StripStart(s, b)[0], b)
  {
    if s != [] && IsBlank(s[0], b) {
      StripStartShape(s[1..], b);
      assert s[..|s| - |StripStart(s, b)|] == [s[0]] + s[1..][..|s| - 1 - |StripStart(s, b)|];
    }
  }

  /** StripEnd keeps a prefix, drops only whitespace and stops at a non-space. */
  lemma {:induction false} StripEndShape(s: string, b: Blanks)
    ensures |StripEnd(s, b)| <= |s| && StripEnd(s, b) == s[..|StripEnd(s, b)|]
    ensures AllBlank(s[|StripEnd(s, b)|..], b)
    ensures StripEnd(s, b) == [] || !IsBlank(StripEnd(s, b)[|StripEnd(s, b)| - 1], b)
  {
    if s != [] && IsBlank(s[|s| - 1], b) {
      var t := s[..|s| - 1];
      StripEndShape(t, b);
      assert s[|StripEnd(s, b)|..] == t[|StripEnd(t, b)|..] + [s[|s| - 1]];
    }
  }

  /** Stripping cuts `s` into leading whitespace, the stripped text and trailing
      whitespace, and the stripped text neither starts nor ends with whitespace. */
  lemma StripShape(s: string, b: Blanks)
    ensures |StripStart(s, b)| <= |s|
    ensures var k := |s| - |StripStart(s, b)|;
      k + |StripBy(s, b)| <= |s| && s[k..k + |StripBy(s, b)|] == StripBy(s, b)
      && AllBlank(s[..k], b) && AllBlank(s[k + |StripBy(s, b)|..], b)
    ensures StripBy(s, b) == [] || (!IsBlank(StripBy(s, b)[0], b) && !IsBlank(StripBy(s, b)[|StripBy(s, b)| - 1], b))
  {
    var t := StripStart(s, b);
    StripStartShape(s, b);
    StripEndShape(t, b);
    var k := |s| - |t|;
    assert s[k + |StripBy(s, b)|..] == t[|StripBy(s, b)|..];
    if StripBy(s, b) != [] {
      assert StripBy(s, b)[0] == t[0];
    }
  }

  lemma {:induction false} StripStartPadded(a: string, t: string, b: Blanks)
    requires AllBlank(a, b) && (t == [] || !IsBlank(t[0], b))
    ensures StripStart(a + t, b) == t
    decreases |a|
  {
    if a != [] {
      assert (a + t)[1..] == a[1..] + t;
      StripStartPadded(a[1..], t, b);
    } else {
      assert a + t == t;
    }
  }

  lemma {:induction false} StripEndPadded(t: string, z: string, b: Blanks)
    requires AllBlank(z, b) && (t == [] || !IsBlank(t[|t| - 1], b))
    ensures StripEnd(t + z, b) == t
    decreases |z|
  {
    if z != [] {
      assert (t + z)[..|t + z| - 1] == t + z[..|z| - 1];
      StripEndPadded(t, z[..|z| - 1], b);
    } else {
      assert t + z == t;
    }
  }

  /** Stripping removes exactly the whitespace padding around a text that has none at its ends. */
  lemma StripPadded(a: string, t: string, z: string, b: Blanks)
    requires AllBlank(a, b) && AllBlank(z, b)
    requires t == [] || (!IsBlank(t[0], b) && !IsBlank(t[|t| - 1], b))
    ensures StripBy(a + t + z, b) == t
  {
    assert a + t + z == a + (t + z);
    if t == [] {
      var e: string := [];
      assert AllBlank(a + z, b) && a + t + z == (a + z) + e;
      StripStartPadded(a + z, e, b);
    } else {
      StripStartPadded(a, t + z, b);
      StripEndPadded(t, z, b);
    }
  }

  function DigitValue(c: char): (n: nat)
    requires IsDigit(c)
    ensures n < 10
  {
    c as int - '0' as int
  }

  function DigitChar(n: nat): (c: char)
    requires n < 10
    ensures IsDigit(c) && DigitValue(c) == n
  {
    ('0' as int + n) as char
  }

  /** The value of a string of decimal digits, most significant first. */
  function DigitsValue(d: string): nat
    requires AllDigits(d)
  {
    if d == [] then 0 else 10 * DigitsValue(d[..|d| - 1]) + DigitValue(d[|d| - 1])
  }

  /** The shortest decimal spelling of `n`. */
  function Decimal(n: nat): (s: string)
    ensures s != [] && AllDigits(s)
  {
    if n < 10 then [DigitChar(n)] else Decimal(n / 10) + [DigitChar(n % 10)]
  }

  lemma {:induction false} DecimalValue(n: nat)
    ensures DigitsValue(Decimal(n)) == n
  {
    if n >= 10 {
      var s := Decimal(n);
      assert s[..|s| - 1] == Decimal(n / 10);
      DecimalValue(n / 10);
    }
  }

  /** The shape `int()` accepts once stripped: an optional sign, then one or more digits. */
  predicate IsIntLiteral(t: string) {
    if t != [] && (t[0] == '+' || t[0] == '-') then t[1..] != [] && AllDigits(t[1..])
    else t != [] && AllDigits(t)
  }

  /** The value of an integer literal: its sign applied to its digits. */
  function LiteralValue(t: string): int
    requires IsIntLiteral(t)
  {
    if t[0] == '+' || t[0] == '-' then
      var v: int := DigitsValue(t[1..]);
      if t[0] == '-' then -v else v
    else DigitsValue(t)
  }

  /** Python's `int(s)` for a text: None where it raises ValueError. */
  function ParseInt(s: string): Option<int>
  {
    var t := StripBy(s, IntBlanks);
    if IsIntLiteral(t) then Some(LiteralValue(t)) else None
  }

  /** `int()` reads back every integer's decimal spelling, whatever whitespace surrounds it. */
  lemma ParseIntDecimal(n: nat, a: string, z: string)
    requires AllBlank(a, IntBlanks) && AllBlank(z, IntBlanks)
    ensures ParseInt(a + Decimal(n) + z) == Some(n)
  {
    var d := Decimal(n);
    StripPadded(a, d, z, IntBlanks);
    DecimalValue(n);
    assert d[0] != '+' && d[0] != '-';
  }

  lemma ParseIntOfDecimal(n: nat)
    ensures ParseInt(Decimal(n)) == Some(n)
  {
    var e: string := [];
    ParseIntDecimal(n, e, e);
    assert e + Decimal(n) + e == Decimal(n);
  }

  lemma ParseIntNegativeDecimal(n: nat, a: string, z: string)
    requires AllBlank(a, IntBlanks) && AllBlank(z, IntBlanks)
    ensures ParseInt(a + "-" + Decimal(n) + z) == Some(-(n as int))
  {
    var d := Decimal(n);
    var t := "-" + d;
    assert t[0] == '-' && t[|t| - 1] == d[|d| - 1];
    StripPadded(a, t, z, IntBlanks);
    AppendAssoc(a, "-", d, []);
    NegativeLiteral(a + t + z, d);
    DecimalValue(n);
  }

  lemma NegativeLiteral(s: string, d: string)
    requires d != [] && AllDigits(d) && StripBy(s, IntBlanks) == "-" + d
    ensures ParseInt(s) == Some(-(DigitsValue(d) as int))
  {
    assert StripBy(s, IntBlanks)[1..] == d;
  }

  /** `int()` does not discard the ASCII separators U+001C to U+001F that
      `str.strip()` removes: `int("\x1c5")` raises where `"\x1c5".strip()` is `"5"`. */
  lemma IntKeepsSeparators()
    ensures Strip("\U{1C}5") == "5"
    ensures ParseInt("\U{1C}5") == None
  {
    assert "\U{1C}5"[1..] == "5" && "5"[..0] == [];
  }

  /** The index of the first `c` in `s`, or `|s|` when there is none. */
  function IndexOf(s: string, c: char): (i: nat)
    ensures i <= |s| && c !in s[..i]
    ensures i < |s| ==> s[i] == c
  {
    if s == [] then 0
    else if s[0] == c then 0
    else
      var j := IndexOf(s[1..], c);
      assert s[..j + 1] == [s[0]] + s[1..][..j];
      j + 1
  }

  /** `a, b = s.split(sep)`: succeeds exactly when `s` holds `sep` once. */
  function SplitOnce(s: string, sep: char): (r: Option<(string, string)>)
    ensures r.Some? <==> multiset(s)[sep] == 1
    ensures r.Some? ==> s == r.value.0 + [sep] + r.value.1
    ensures r.Some? ==> sep !in r.value.0 && sep !in r.value.1
  {
    var i := IndexOf(s, sep);
    if i == |s| then
      assert s[..i] == s;
      None
    else
      assert s == s[..i] + [s[i]] + s[i + 1..];
      assert multiset(s) == multiset(s[..i]) + multiset{sep} + multiset(s[i + 1..]);
      if sep in s[i + 1..] then None else Some((s[..i], s[i + 1..]))
  }

  /** Appending one element keeps the sequence as the prefix. */
  lemma SnocPrefix<T>(s: seq<T>, x: T)
    ensures (s + [x])[..|s|] == s && (s + [x])[|s|] == x
  {
  }

  /** A non-empty sequence is its last element appended to the rest. */
  lemma SnocParts<T>(s: seq<T>)
    requires s != []
    ensures s == s[..|s| - 1] + [s[|s| - 1]] && s[..|s|] == s
  {
  }

  /** A sequence is the concatenation of its three slices around `i` and `j`. */
  lemma SplitThree<T>(s: seq<T>, i: nat, j: nat)
    requires i <= j <= |s|
    ensures s == s[..i] + s[i..j] + s[j..]
  {
  }

  lemma AppendAssoc<T>(a: seq<T>, b: seq<T>, c: seq<T>, d: seq<T>)
    ensures a + b + (c + d) == a + b + c + d
    ensures a + (b + c) == a + b + c
  {
  }

  /** The three slices of a concatenation of three sequences are those sequences. */
  lemma SlicesOfThree<T>(a: seq<T>, b: seq<T>, c: seq<T>)
    ensures var s := a + b + c;
      s[..|a|] == a && s[|a|..|a| + |b|] == b && s[|a| + |b|..] == c
  {
  }

  /** What the regular-expression tail `(.+)$` captures from `t`: `$` also matches
      just before one final newline, and `.` matches anything but a newline. */
  function RestOfLine(t: string): (r: Option<string>)
    ensures r.Some? ==> r.value != [] && '\n' !in r.value
    ensures r.Some? ==> t == r.value || t == r.value + "\n"
  {
    var body := if t != [] && t[|t| - 1] == '\n' then t[..|t| - 1] else t;
    if body != [] && '\n' !in body then Some(body) else None
  }

  /** Every newline-free non-empty text is captured whole, with or without a final newline. */
  lemma RestOfLineCaptures(b: string)
    requires b != [] && '\n' !in b
    ensures RestOfLine(b) == Some(b)
    ensures RestOfLine(b + "\n") == Some(b)
  {
    assert b[|b| - 1] in b;
    assert (b + "\n")[..|b|] == b;
  }
}
