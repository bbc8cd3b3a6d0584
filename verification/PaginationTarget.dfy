/** The next page of a list: `pagination(..)` expressions and the next-page link
    (crawler/tender_crawler/spiders/anhui_ggzy_zfcg_spider.py). */
module PaginationTarget {
  import opened Options
  import opened Text

  predicate IsDigit(c: char) { '0' <= c <= '9' }

  predicate IsSign(c: char) { c == '+' || c == '-' }

  predicate Digits(s: string) { forall c | c in s :: IsDigit(c) }

  /** The decimal value of a digit string. */
  function Decimal(s: string): int {
    if s == [] then 0 else Decimal(s[..|s| - 1]) * 10 + (s[|s| - 1] as int - '0' as int)
  }

  /** The decimal numeral of a number. */
  function Numeral(n: nat): string {
    var digit := ('0' as int + n % 10) as char;
    if n < 10 then [digit] else Numeral(n / 10) + [digit]
  }

  /** Reading a numeral gives its number. */
  lemma {:induction false} DecimalReadsNumerals(n: nat)
    ensures Number(Numeral(n)) && Decimal(Numeral(n)) == n
  {
    var s := Numeral(n);
    if n < 10 {
      assert s[..|s| - 1] == [];
    } else {
      DecimalReadsNumerals(n / 10);
      assert s[..|s| - 1] == Numeral(n / 10);
    }
  }

  // ---------------------------------------------------------------- the grammar

  datatype Term = Term(plus: bool, digits: string)

  /** An unsigned first number and any number of signed ones. */
  datatype Expression = Expression(first: string, rest: seq<Term>)

  predicate Number(s: string) { s != "" && Digits(s) }

  predicate WellFormed(rest: seq<Term>) { forall t | t in rest :: Number(t.digits) }

  function PrintTerms(rest: seq<Term>): string {
    if rest == [] then "" else [if rest[0].plus then '+' else '-'] + (rest[0].digits + PrintTerms(rest[1..]))
  }

  function Signed(plus: bool, n: int): int { if plus then n else -n }

  function SumOf(rest: seq<Term>): int {
    if rest == [] then 0
    else Signed(rest[0].plus, Decimal(rest[0].digits)) + SumOf(rest[1..])
  }

  predicate Prints(e: Expression, s: string) {
    Number(e.first) && WellFormed(e.rest) && s == e.first + PrintTerms(e.rest)
  }

  /** A lone number counts as it is; a sum counts only if it is positive. */
  function Meaning(e: Expression): Option<int> {
    var sum := Decimal(e.first) + SumOf(e.rest);
    if e.rest == [] || sum > 0 then Some(sum) else None
  }

  // ---------------------------------------------------------------- the scanner

  predicate Alphabet(s: string) { forall c | c in s :: IsDigit(c) || IsSign(c) }

  /** What the scanning loop returns from here on. */
  function Scan(total: int, current: string, plus: bool, rest: string): Option<int>
    decreases |rest|
  {
    if rest == "" then
      if current == "" then None else Some(total + Signed(plus, Decimal(current)))
    else if IsSign(rest[0]) then
      if current == "" then None
      else Scan(total + Signed(plus, Decimal(current)), "", rest[0] == '+', rest[1..])
    else Scan(total, current + [rest[0]], plus, rest[1..])
  }

  /** The value of an expression without white space. */
  function Evaluate(expr: string): Option<int> {
    if expr == "" then None
    else if Digits(expr) then Some(Decimal(expr))
    else if !Alphabet(expr) then None
    else
      var total := Scan(0, "", true, expr);
      if total.Some? && total.value > 0 then total else None
  }

  method EvaluateSum(expr: string) returns (r: Option<int>)
    requires expr != "" && !Digits(expr) && Alphabet(expr)
    ensures r == Evaluate(expr)
  {
    var total: int, current, sign: int := 0, "", 1;
    var i := 0;
    while i < |expr|
      invariant 0 <= i <= |expr| && (sign == 1 || sign == -1)
      invariant Scan(total, current, sign == 1, expr[i..]) == Scan(0, "", true, expr)
    {
      var ch := expr[i];
      assert expr[i..][0] == ch && expr[i..][1..] == expr[i + 1..];
      if IsSign(ch) {
        if current == "" {
          return None;
        }
        total := total + sign * Decimal(current);
        current := "";
        sign := if ch == '+' then 1 else -1;
      } else {
        current := current + [ch];
      }
      i := i + 1;
    }
    if current == "" {
      return None;
    }
    total := total + sign * Decimal(current);
    return if total > 0 then Some(total) else None;
  }

  // ---------------------------------------------------------------- scanning is parsing

  lemma {:induction false} ScanDigits(total: int, current: string, plus: bool, digits: string, rest: string)
    requires Digits(digits)
    ensures Scan(total, current, plus, digits + rest) == Scan(total, current + digits, plus, rest)
    decreases |digits|
  {
    if digits == "" {
      assert digits + rest == rest && current + digits == current;
    } else {
      assert digits[0] in digits && forall c | c in digits[1..] :: c in digits;
      assert (digits + rest)[0] == digits[0] && (digits + rest)[1..] == digits[1..] + rest;
      ScanDigits(total, current + [digits[0]], plus, digits[1..], rest);
      assert current + [digits[0]] + digits[1..] == current + digits;
    }
  }

  lemma ScanSign(total: int, current: string, plus: bool, sign: char, rest: string)
    requires current != "" && IsSign(sign)
    ensures Scan(total, current, plus, [sign] + rest) == Scan(total + Signed(plus, Decimal(current)), "", sign == '+', rest)
  {
    assert ([sign] + rest)[1..] == rest;
  }

  lemma ScanTerm(total: int, current: string, plus: bool, t: Term, tail: string)
    requires current != "" && Digits(t.digits)
    ensures Scan(total, current, plus, [if t.plus then '+' else '-'] + (t.digits + tail)) ==
            Scan(total + Signed(plus, Decimal(current)), t.digits, t.plus, tail)
  {
    hide Scan, Signed, Decimal;
    ScanSign(total, current, plus, if t.plus then '+' else '-', t.digits + tail);
    ScanDigits(total + Signed(plus, Decimal(current)), "", t.plus, t.digits, tail);
    assert "" + t.digits == t.digits;
  }

  lemma {:induction false} ScanTerms(total: int, current: string, plus: bool, rest: seq<Term>)
    requires current != "" && WellFormed(rest)
    ensures Scan(total, current, plus, PrintTerms(rest)) == Some(total + Signed(plus, Decimal(current)) + SumOf(rest))
    decreases |rest|
  {
    if rest != [] {
      var t := rest[0];
      assert t in rest && forall u | u in rest[1..] :: u in rest;
      assert Number(t.digits) && WellFormed(rest[1..]);
      hide Scan, Signed, Decimal, WellFormed, Digits;
      ScanTerm(total, current, plus, t, PrintTerms(rest[1..]));
      ScanTerms(total + Signed(plus, Decimal(current)), t.digits, t.plus, rest[1..]);
    }
  }

  lemma {:induction false} PrintedAlphabet(rest: seq<Term>)
    requires WellFormed(rest)
    ensures Alphabet(PrintTerms(rest))
  {
    if rest != [] {
      assert rest[0] in rest && forall t | t in rest[1..] :: t in rest;
      PrintedAlphabet(rest[1..]);
    }
  }

  /** If the scan succeeds, what it read was an expression. */
  lemma {:induction false} ScannedTerms(total: int, current: string, plus: bool, rest: string) returns (digits: string, terms: seq<Term>)
    requires Digits(current) && Alphabet(rest) && Scan(total, current, plus, rest).Some?
    ensures rest == digits + PrintTerms(terms) && Digits(digits) && current + digits != "" && WellFormed(terms)
    decreases |rest|
  {
    if rest == "" {
      digits, terms := "", [];
    } else {
      assert rest == [rest[0]] + rest[1..];
      assert rest[0] in rest && forall c | c in rest[1..] :: c in rest;
      hide Decimal, Signed;
      if IsSign(rest[0]) {
        var first, others := ScannedTerms(total + Signed(plus, Decimal(current)), "", rest[0] == '+', rest[1..]);
        digits, terms := "", [Term(rest[0] == '+', first)] + others;
        hide Scan;
        assert terms[1..] == others;
      } else {
        var more;
        more, terms := ScannedTerms(total, current + [rest[0]], plus, rest[1..]);
        hide Scan;
        digits := [rest[0]] + more;
      }
    }
  }

  lemma DigitsHaveNoTerms(e: Expression, s: string)
    requires Prints(e, s)
    ensures Digits(s) <==> e.rest == []
  {
    if e.rest == [] {
      assert s == e.first;
    } else {
      assert s[|e.first|] in s && IsSign(s[|e.first|]);
    }
  }

  lemma PrintedEvaluates(e: Expression, s: string)
    requires Prints(e, s)
    ensures Evaluate(s) == Meaning(e)
  {
    DigitsHaveNoTerms(e, s);
    if e.rest == [] {
      assert s == e.first;
    } else {
      ScanTerms(0, e.first, true, e.rest);
      PrintedAlphabet(e.rest);
      ScanDigits(0, "", true, e.first, PrintTerms(e.rest));
      assert "" + e.first == e.first;
    }
  }

  lemma EvaluatedIsPrinted(s: string) returns (e: Expression)
    requires Evaluate(s).Some?
    ensures Prints(e, s)
  {
    if Digits(s) {
      e := Expression(s, []);
    } else {
      var first, rest := ScannedTerms(0, "", true, s);
      assert "" + first == first;
      e := Expression(first, rest);
    }
  }

  /** The parser is the grammar: a printed expression evaluates to its meaning, and a string that no
      expression prints evaluates to nothing. */
  lemma {:induction false} EvaluatesExactlyExpressions(s: string)
    ensures forall e: Expression :: Prints(e, s) ==> Evaluate(s) == Meaning(e)
    ensures (forall e: Expression :: !Prints(e, s)) ==> Evaluate(s) == None
  {
    forall e: Expression | Prints(e, s) ensures Evaluate(s) == Meaning(e) {
      PrintedEvaluates(e, s);
    }
    if Evaluate(s).Some? {
      var e := EvaluatedIsPrinted(s);
    }
  }

  // ---------------------------------------------------------------- targets and links

  const CALL := "pagination("

  /** The text up to the next closing parenthesis. */
  function UpToParenthesis(s: string): Option<string> {
    if s == "" then None
    else if s[0] == ')' then Some("")
    else
      var rest := UpToParenthesis(s[1..]);
      if rest.None? then None else Some([s[0]] + rest.value)
  }

  /** The argument of the first `pagination(..)` call with a non-empty argument. */
  function Argument(raw: string): Option<string> {
    if raw == "" then None
    else
      var argument := if StartsWith(Lower(raw), CALL) then UpToParenthesis(raw[|CALL|..]) else None;
      if argument.Some? && argument.value != "" then argument else Argument(raw[1..])
  }

  function WithoutSpaces(s: string): string {
    if s == "" then "" else (if IsSpace(s[0]) then "" else [s[0]]) + WithoutSpaces(s[1..])
  }

  function TargetOf(raw: string): Option<int> {
    var argument := Argument(raw);
    if argument.None? then None else Evaluate(WithoutSpaces(argument.value))
  }

  method ParsePaginationTarget(raw: string) returns (r: Option<int>)
    ensures r == TargetOf(raw)
  {
    if raw == "" {
      return None;
    }
    var argument := Argument(raw);
    if argument.None? {
      return None;
    }
    var expr := WithoutSpaces(argument.value);
    if expr == "" {
      return None;
    }
    if Digits(expr) {
      return Some(Decimal(expr));
    }
    if !Alphabet(expr) {
      return None;
    }
    r := EvaluateSum(expr);
  }

  datatype Anchor = Anchor(text: string, className: string, href: string, onclick: string)

  const NEXT_PAGE := "下一页"

  predicate IsNextLink(a: Anchor) { Contains(a.text, NEXT_PAGE) }

  predicate Inert(a: Anchor) {
    || Contains(Lower(a.className), "disabled")
    || (Lower(Strip(a.href)) in ["", "#", "javascript:void(0)", "javascript:;"] && Lower(Strip(a.onclick)) == "")
  }

  /** The page a live next-page link leads to; a target that is missing or not above the current page is ignored. */
  function Destination(a: Anchor, current: int): (r: int)
    ensures r > current
  {
    var clicked := TargetOf(Lower(Strip(a.onclick)));
    var target := if clicked.Some? && clicked.value != 0 then clicked else TargetOf(Lower(Strip(a.href)));
    if target.Some? && target.value > current then target.value else current + 1
  }

  function NextPage(anchors: seq<Anchor>, current: int): (r: Option<int>)
    ensures r.Some? ==> r.value > current
  {
    if anchors == [] then None
    else if !IsNextLink(anchors[0]) then NextPage(anchors[1..], current)
    else if Inert(anchors[0]) then None
    else Some(Destination(anchors[0], current))
  }

  predicate FirstLink(anchors: seq<Anchor>, i: int) {
    0 <= i < |anchors| && IsNextLink(anchors[i]) && forall j | 0 <= j < i :: !IsNextLink(anchors[j])
  }

  /** Only the first next-page link of a page counts: there is a next page exactly if that link is
      live, and it is the page that link leads to. */
  lemma {:induction false} FirstLinkDecides(anchors: seq<Anchor>, current: int)
    ensures NextPage(anchors, current).Some? <==> exists i :: FirstLink(anchors, i) && !Inert(anchors[i])
    ensures forall i | FirstLink(anchors, i) && !Inert(anchors[i]) :: NextPage(anchors, current) == Some(Destination(anchors[i], current))
  {
    hide IsNextLink, Inert;
    if anchors == [] {
    } else if IsNextLink(anchors[0]) {
      assert FirstLink(anchors, 0) && forall i :: FirstLink(anchors, i) ==> i == 0;
    } else {
      FirstLinkDecides(anchors[1..], current);
      assert forall i | 0 < i < |anchors| :: FirstLink(anchors[1..], i - 1) <==> FirstLink(anchors, i);
      assert forall i | 0 <= i < |anchors| - 1 :: FirstLink(anchors[1..], i) <==> FirstLink(anchors, i + 1);
    }
  }

  method NextPageNo(anchors: seq<Anchor>, current: int) returns (r: Option<int>)
    ensures r == NextPage(anchors, current)
    ensures r.Some? ==> r.value > current
  {
    var i := 0;
    while i < |anchors|
      invariant 0 <= i <= |anchors|
      invariant NextPage(anchors[i..], current) == NextPage(anchors, current)
    {
      var anchor := anchors[i];
      assert anchors[i..][0] == anchor && anchors[i..][1..] == anchors[i + 1..];
      if !IsNextLink(anchor) {
        i := i + 1;
        continue;
      }
      if Inert(anchor) {
        return None;
      }
      var target := ParsePaginationTarget(Lower(Strip(anchor.onclick)));
      if target.None? || target.value == 0 {
        target := ParsePaginationTarget(Lower(Strip(anchor.href)));
      }
      if target.Some? && target.value > current {
        return target;
      }
      return Some(current + 1);
    }
    return None;
  }
}
