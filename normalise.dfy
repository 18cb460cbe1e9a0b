/** The line normalisers of regchula_scraper.py: the course id line, the credit
    header, the detailed-credit line and the prerequisite placeholder. Each regular
    expression of the scraper is replaced by a recogniser for its one shape; a line
    the expression does not match is `UnexpectedLineShape` (in the scraper, the
    AttributeError of calling `.group` on a failed match). */
module Normalise {
  import opened Text

  // ---------------------------------------------------------------------------
  // The id line `^(\d{7})  (.+)$`

  datatype IdLine = IdLine(courseId: string, shortName: string)

  /** The course id and short name read from the first name row. */
  function ParseIdLine(line: string): (r: Result<IdLine>)
    ensures r.Ok? ==> |r.value.courseId| == 7 && AllDigits(r.value.courseId)
    ensures r.Ok? ==> r.value.shortName != [] && '\n' !in r.value.shortName
    ensures r.Ok? ==> var t := r.value.courseId + "  " + r.value.shortName; line == t || line == t + "\n"
    ensures r.Err? ==> r.error == UnexpectedLineShape(line)
  {
    if |line| >= 9 && AllDigits(line[..7]) && line[7..9] == "  " then
      match RestOfLine(line[9..])
      case Some(name) =>
        assert line == line[..7] + "  " + line[9..];
        Ok(IdLine(line[..7], name))
      case None => Err(UnexpectedLineShape(line))
    else Err(UnexpectedLineShape(line))
  }

  /** Every seven-digit id followed by two spaces and a one-line name is read back. */
  lemma IdLineRoundTrip(id: string, name: string)
    requires |id| == 7 && AllDigits(id) && name != [] && '\n' !in name
    ensures ParseIdLine(id + "  " + name) == Ok(IdLine(id, name))
    ensures ParseIdLine(id + "  " + name + "\n") == Ok(IdLine(id, name))
  {
    RestOfLineCaptures(name);
    var s := id + "  " + name;
    assert s[..7] == id && s[7..9] == "  " && s[9..] == name;
    var s' := s + "\n";
    assert s'[..7] == id && s'[7..9] == "  " && s'[9..] == name + "\n";
  }

  // ---------------------------------------------------------------------------
  // The credit header `^(\d+\.[05]|\-) CREDIT HOURS =  (.+)$`

  const CreditMarker: string := " CREDIT HOURS =  "

  /** The amount group: the placeholder `-`, or digits, a point and `0` or `5`. */
  predicate IsAmount(a: string) {
    a == "-"
    || (|a| >= 3 && AllDigits(a[..|a| - 2]) && a[|a| - 2] == '.' && (a[|a| - 1] == '0' || a[|a| - 1] == '5'))
  }

  /** The regular expression's two groups. */
  datatype CreditMatch = CreditMatch(amount: string, typeText: string)

  function LeadingDigits(s: string): (n: nat)
    ensures n <= |s| && AllDigits(s[..n])
    ensures n < |s| ==> !IsDigit(s[n])
  {
    if s != [] && IsDigit(s[0]) then
      var m := LeadingDigits(s[1..]);
      assert s[..m + 1] == [s[0]] + s[1..][..m];
      m + 1
    else 0
  }

  lemma LeadingDigitsOf(d: string, rest: string)
    requires AllDigits(d) && rest != [] && !IsDigit(rest[0])
    ensures LeadingDigits(d + rest) == |d|
  {
    var s := d + rest;
    var n := LeadingDigits(s);
    assert forall k :: 0 <= k < n ==> IsDigit(s[k]) by {
      forall k | 0 <= k < n ensures IsDigit(s[k]) { assert s[..n][k] == s[k]; }
    }
    assert !IsDigit(s[|d|]);
    assert forall k :: 0 <= k < |d| ==> IsDigit(s[k]);
  }

  /** The length of the amount at the start of `line`, if it has one. */
  function AmountLength(line: string): (r: Option<nat>)
    ensures r.Some? ==> r.value <= |line| && IsAmount(line[..r.value])
  {
    if line != [] && line[0] == '-' then
      assert line[..1] == "-";
      Some(1)
    else
      var n := LeadingDigits(line);
      if 1 <= n && n + 2 <= |line| && line[n] == '.' && (line[n + 1] == '0' || line[n + 1] == '5') then
        assert line[..n + 2][..n] == line[..n];
        Some(n + 2)
      else None
  }

  function MatchCredit(line: string): (r: Option<CreditMatch>)
    ensures r.Some? ==> IsAmount(r.value.amount) && r.value.typeText != [] && '\n' !in r.value.typeText
    ensures r.Some? ==> var t := r.value.amount + CreditMarker + r.value.typeText; line == t || line == t + "\n"
  {
    match AmountLength(line)
    case None => None
    case Some(n) =>
      if n + |CreditMarker| <= |line| && line[n..n + |CreditMarker|] == CreditMarker then
        match RestOfLine(line[n + |CreditMarker|..])
        case Some(t) =>
          SplitThree(line, n, n + |CreditMarker|);
          AppendAssoc(line[..n], CreditMarker, t, "\n");
          Some(CreditMatch(line[..n], t))
        case None => None
      else None
  }

  lemma AmountLengthOf(amount: string, rest: string)
    requires IsAmount(amount) && |rest| >= 1 && rest[0] == ' '
    ensures AmountLength(amount + rest) == Some(|amount|)
  {
    var s := amount + rest;
    if amount != "-" {
      var d := amount[..|amount| - 2];
      assert s == d + (amount[|amount| - 2..] + rest);
      LeadingDigitsOf(d, amount[|amount| - 2..] + rest);
      assert s[0] == d[0];
    }
  }

  lemma MatchCreditOf(amount: string, rest: string)
    requires IsAmount(amount) && RestOfLine(rest).Some?
    ensures MatchCredit(amount + CreditMarker + rest) == Some(CreditMatch(amount, RestOfLine(rest).value))
  {
    AppendAssoc(amount, CreditMarker, rest, []);
    AmountLengthOf(amount, CreditMarker + rest);
    SlicesOfThree(amount, CreditMarker, rest);
  }

  /** The recogniser finds the two groups of every line of the credit-header shape. */
  lemma MatchCreditComplete(amount: string, t: string)
    requires IsAmount(amount) && t != [] && '\n' !in t
    ensures MatchCredit(amount + CreditMarker + t) == Some(CreditMatch(amount, t))
    ensures MatchCredit(amount + CreditMarker + t + "\n") == Some(CreditMatch(amount, t))
  {
    RestOfLineCaptures(t);
    MatchCreditOf(amount, t);
    MatchCreditOf(amount, t + "\n");
    AppendAssoc(amount, CreditMarker, t, "\n");
  }

  /** The credit as a whole number of half credits: `N.0` is 2N, `N.5` is 2N + 1,
      and the placeholder `-` is no credit. */
  function HalfCredits(amount: string): (r: Option<nat>)
    requires IsAmount(amount)
    ensures r.None? <==> amount == "-"
  {
    if amount == "-" then None
    else
      var whole := DigitsValue(amount[..|amount| - 2]);
      Some(if amount[|amount| - 1] == '5' then 2 * whole + 1 else 2 * whole)
  }

  /** The canonical spelling of an amount of half credits. */
  function AmountText(credit: Option<nat>): (a: string)
    ensures IsAmount(a)
  {
    match credit
    case None => "-"
    case Some(h) =>
      var d := Decimal(h / 2);
      var a := d + (if h % 2 == 0 then ".0" else ".5");
      assert a[..|a| - 2] == d;
      a
  }

  lemma HalfCreditsRoundTrip(credit: Option<nat>)
    ensures HalfCredits(AmountText(credit)) == credit
  {
    if credit.Some? {
      var h := credit.value;
      var a := AmountText(credit);
      assert a[..|a| - 2] == Decimal(h / 2);
      DecimalValue(h / 2);
    }
  }

  /** `(S/U)` is the only credit type the scraper rewrites. */
  function CreditType(stripped: string): (r: string)
    ensures r != stripped <==> stripped == "(S/U)"
    ensures stripped == "(S/U)" ==> r == "S/U"
  {
    if stripped == "(S/U)" then "S/U" else stripped
  }

  datatype CreditHeader = CreditHeader(halfCredits: Option<nat>, creditType: string)

  function ParseCreditHeader(line: string): (r: Result<CreditHeader>)
    ensures r.Err? <==> MatchCredit(line).None?
    ensures r.Err? ==> r.error == UnexpectedLineShape(line)
  {
    match MatchCredit(line)
    case None => Err(UnexpectedLineShape(line))
    case Some(m) => Ok(CreditHeader(HalfCredits(m.amount), CreditType(Strip(m.typeText))))
  }

  /** A header built from any credit (or none) and any one-line type is read back:
      the amount exactly, the type stripped and with `(S/U)` collapsed. */
  lemma CreditHeaderRoundTrip(credit: Option<nat>, t: string)
    requires t != [] && '\n' !in t
    ensures ParseCreditHeader(AmountText(credit) + CreditMarker + t)
         == Ok(CreditHeader(credit, CreditType(Strip(t))))
  {
    MatchCreditComplete(AmountText(credit), t);
    HalfCreditsRoundTrip(credit);
  }

  /** The pass/fail header: no credit, and the type `S/U` however it is padded. */
  lemma SatisfactoryUnsatisfactoryHeader(t: string)
    requires '\n' !in t && Strip(t) == "(S/U)"
    ensures ParseCreditHeader("-" + CreditMarker + t) == Ok(CreditHeader(None, "S/U"))
  {
    assert AmountText(None) == "-";
    CreditHeaderRoundTrip(None, t);
  }

  // ---------------------------------------------------------------------------
  // The detailed-credit line: `^\(.+\)$`, else `^\((.+)\)  (.+)$`

  /** The line matches `^\(.+\)$`. */
  predicate IsParenthesised(line: string) {
    match RestOfLine(line)
    case Some(b) => |b| >= 3 && b[0] == '(' && b[|b| - 1] == ')'
    case None => false
  }

  /** `^\((.+)\)  (.+)$` matches with its first group ending just before index `i`. */
  predicate SplitsAt(line: string, i: int) {
    2 <= i && i + 3 <= |line| && line[0] == '(' && '\n' !in line[1..i]
    && line[i..i + 3] == ")  " && RestOfLine(line[i + 3..]).Some?
  }

  /** The greedy first group: the last split point at or below `hi`. */
  function LastSplit(line: string, hi: int): (r: Option<nat>)
    ensures r.Some? ==> r.value <= hi && SplitsAt(line, r.value)
    ensures forall j :: (if r.Some? then r.value else 1) < j <= hi ==> !SplitsAt(line, j)
    decreases hi
  {
    if hi < 2 then None
    else if SplitsAt(line, hi) then Some(hi)
    else LastSplit(line, hi - 1)
  }

  /** The detailed credit type: absent for an empty line, the inside of a
      parenthesised line, `X (Y)` for a line `(X)  Y`, and an error otherwise. */
  function DetailedCredit(line: string): (r: Result<Option<string>>)
    ensures r == Ok(None) <==> line == []
    ensures r.Err? <==> line != [] && !IsParenthesised(line) && forall j :: !SplitsAt(line, j)
    ensures r.Err? ==> r.error == UnexpectedLineShape(line)
  {
    if line == [] then Ok(None)
    else if IsParenthesised(line) then Ok(Some(line[1..|line| - 1]))
    else
      match LastSplit(line, |line|)
      case Some(i) => Ok(Some(line[1..i] + " (" + RestOfLine(line[i + 3..]).value + ")"))
      case None => Err(UnexpectedLineShape(line))
  }

  /** `(X)` gives `X`. */
  lemma DetailedCreditPlain(x: string)
    requires x != [] && '\n' !in x
    ensures DetailedCredit("(" + x + ")") == Ok(Some(x))
  {
    var s := "(" + x + ")";
    assert '\n' !in s by {
      forall k | 0 <= k < |s| ensures s[k] != '\n' {
        if 1 <= k <= |x| { assert s[k] == x[k - 1]; }
      }
    }
    RestOfLineCaptures(s);
    assert s[1..|s| - 1] == x;
  }

  /** `(X)  Y` gives `X (Y)` when `Y` holds no closing parenthesis; `X` may hold anything. */
  lemma DetailedCreditSpecial(x: string, y: string)
    requires x != [] && '\n' !in x && y != [] && '\n' !in y && ')' !in y
    ensures DetailedCredit("(" + x + ")  " + y) == Ok(Some(x + " (" + y + ")"))
  {
    var s := "(" + x + ")  " + y;
    var i := |x| + 1;
    SplitsAfterFirstGroup(x, y);
    NoSplitInSecondGroup(x, y);
    assert !IsParenthesised(s) by {
      assert s[|s| - 1] == y[|y| - 1];
      assert y[|y| - 1] in y;
    }
    var r := LastSplit(s, |s|);
    assert r == Some(i);
    assert s[1..i] == x && s[i + 3..] == y;
  }

  lemma SplitsAfterFirstGroup(x: string, y: string)
    requires x != [] && '\n' !in x && y != [] && '\n' !in y
    ensures SplitsAt("(" + x + ")  " + y, |x| + 1)
    ensures RestOfLine(y) == Some(y)
  {
    var s := "(" + x + ")  " + y;
    var i := |x| + 1;
    assert s[1..i] == x && s[i..i + 3] == ")  " && s[i + 3..] == y;
    RestOfLineCaptures(y);
  }

  lemma NoSplitInSecondGroup(x: string, y: string)
    requires ')' !in y
    ensures forall j :: |x| + 1 < j ==> !SplitsAt("(" + x + ")  " + y, j)
  {
    var s := "(" + x + ")  " + y;
    var i := |x| + 1;
    forall j | i < j ensures !SplitsAt(s, j) {
      if j + 3 <= |s| {
        if j >= i + 3 {
          assert s[j] == y[j - i - 3];
        } else {
          assert s[j] == ' ';
        }
        assert s[j..j + 3][0] == s[j];
      }
    }
  }

  /** A line `(X)  Y` whose `Y` ends in a closing parenthesis already matches the
      plain shape, so the scraper drops only the outer characters: `(Lab)  Dept (E)`
      gives `Lab)  Dept (E`, not `Lab (Dept (E))`. */
  lemma DetailedCreditSpecialEndingInParenthesis(x: string, y: string)
    requires x != [] && '\n' !in x && |y| >= 1 && '\n' !in y && y[|y| - 1] == ')'
    ensures DetailedCredit("(" + x + ")  " + y) == Ok(Some(x + ")  " + y[..|y| - 1]))
  {
    var s := "(" + x + ")  " + y;
    assert '\n' !in s by {
      forall k | 0 <= k < |s| ensures s[k] != '\n' {
        if 1 <= k <= |x| { assert s[k] == x[k - 1]; }
        else if k >= |x| + 4 { assert s[k] == y[k - |x| - 4]; }
      }
    }
    RestOfLineCaptures(s);
    assert s[1..|s| - 1] == x + ")  " + y[..|y| - 1];
  }

  // ---------------------------------------------------------------------------
  // The prerequisite placeholder

  /** The prerequisite text, absent exactly when it is the placeholder `-`. */
  function Prerequisite(text: string): (r: Option<string>)
    ensures r.None? <==> text == "-"
    ensures r.Some? ==> r.value == text
  {
    if text == "-" then None else Some(text)
  }
}
