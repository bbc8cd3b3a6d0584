/** Where a next-page link leads, in terms of the texts of the link. */
module PaginationLinks {
  import opened Options
  import opened Text
  import opened PaginationTarget

  /** `argument` is the expression, with white space anywhere in it. */
  predicate Spells(argument: string, e: Expression) { Prints(e, WithoutSpaces(argument)) }

  /** "pagination(" in any case. */
  predicate IsCall(call: string) { Lower(call) == "pagination(" }

  // ---------------------------------------------------------------- finding the call

  lemma {:induction false} UpToClosing(argument: string, right: string)
    requires ')' !in argument
    ensures UpToParenthesis(argument + (")" + right)) == Some(argument)
  {
    var s := argument + (")" + right);
    if argument == "" {
      assert s[0] == ')';
    } else {
      assert s[0] == argument[0] && s[1..] == argument[1..] + (")" + right);
      UpToClosing(argument[1..], right);
      assert argument == [argument[0]] + argument[1..];
    }
  }

  lemma CallEndsInParenthesis(call: string)
    requires (IsCall(call) || call == CALL)
    ensures |call| == |CALL| == 11 && call[10] == '(' && forall i | 0 <= i < 10 :: call[i] != '('
  {
  }

  lemma FoundHere(raw: string, call: string, rest: string, argument: string)
    requires raw == call + rest && IsCall(call) && UpToParenthesis(rest) == Some(argument) && argument != ""
    ensures Argument(raw) == Some(argument)
  {
    hide UpToParenthesis;
    CallEndsInParenthesis(call);
    LowerOfJoined(call, rest);
    hide Lower;
    assert raw[|CALL|..] == rest;
  }

  lemma NotHere(raw: string)
    requires |raw| <= 10 || raw[10] != '('
    ensures !StartsWith(Lower(raw), CALL)
  {
    hide Lower;
    CallEndsInParenthesis(CALL);
  }

  lemma FoundLater(raw: string)
    requires raw != "" && (|raw| <= 10 || raw[10] != '(')
    ensures Argument(raw) == Argument(raw[1..])
  {
    hide UpToParenthesis, Lower, StartsWith;
    NotHere(raw);
  }

  /** The call is found behind any text without an opening parenthesis. */
  lemma {:induction false} FirstCall(left: string, call: string, argument: string, right: string)
    requires '(' !in left && IsCall(call) && ')' !in argument && argument != ""
    ensures Argument(left + (call + (argument + (")" + right)))) == Some(argument)
    decreases |left|
  {
    hide Argument, UpToParenthesis;
    CallEndsInParenthesis(call);
    var rest := argument + (")" + right);
    var raw := left + (call + rest);
    if left == "" {
      assert raw == call + rest;
      UpToClosing(argument, right);
      FoundHere(raw, call, rest, argument);
    } else {
      hide IsCall;
      assert raw[10] != '(' by {
        assert if 10 < |left| then raw[10] == left[10] else raw[10] == call[10 - |left|];
      }
      FoundLater(raw);
      assert raw[1..] == left[1..] + (call + rest);
      FirstCall(left[1..], call, argument, right);
    }
  }

  lemma {:induction false} NoCall(raw: string)
    requires '(' !in raw
    ensures Argument(raw) == None
  {
    hide UpToParenthesis, Lower;
    if raw != "" {
      hide Argument;
      FoundLater(raw);
      NoCall(raw[1..]);
    }
  }

  lemma {:induction false} OnlySpacesAreLost(s: string)
    ensures forall c | c in s :: IsSpace(c) || c in WithoutSpaces(s)
  {
    if s != "" {
      OnlySpacesAreLost(s[1..]);
      assert s == [s[0]] + s[1..];
    }
  }

  lemma SpelledAlphabet(argument: string, e: Expression)
    requires Spells(argument, e)
    ensures argument != "" && ')' !in argument && Lower(argument) == argument
  {
    OnlySpacesAreLost(argument);
    PrintedAlphabet(e.rest);
    var s := WithoutSpaces(argument);
    assert |s| > 0;
    forall c | c in argument ensures IsSpace(c) || IsDigit(c) || IsSign(c) {
      assert IsSpace(c) || c in e.first || c in PrintTerms(e.rest);
    }
    forall i | 0 <= i < |argument| ensures LowerChar(argument[i]) == argument[i] {
      assert argument[i] in argument;
      assert IsSpace(argument[i]) || IsDigit(argument[i]) || IsSign(argument[i]);
    }
  }

  lemma LoweredCall(left: string, call: string, argument: string, right: string)
    requires Lower(argument) == argument
    ensures Lower(left + (call + (argument + (")" + right)))) == Lower(left) + (Lower(call) + (argument + (")" + Lower(right))))
  {
    assert Lower(")") == ")";
    hide Lower;
    LowerOfJoined(left, call + (argument + (")" + right)));
    LowerOfJoined(call, argument + (")" + right));
    LowerOfJoined(argument, ")" + right);
    LowerOfJoined(")", right);
  }

  lemma LowerKeeps(text: string, c: char)
    requires c !in text && !('a' <= c <= 'z')
    ensures c !in Lower(text)
  {
    assert forall i | 0 <= i < |text| :: text[i] in text && Lower(text)[i] == LowerChar(text[i]);
  }

  lemma LowerOfCall(call: string)
    requires IsCall(call)
    ensures IsCall(Lower(call))
  {
    LowerTwice(call);
  }

  /** The text calls for the page `e`: a call with that argument, and no parenthesis opened before it. */
  ghost predicate CallsFor(text: string, e: Expression) {
    exists left, call, argument, right ::
      && text == left + (call + (argument + (")" + right))) && Trimmed(text)
      && '(' !in left && IsCall(call) && Spells(argument, e)
  }

  /** A link text with a call in it has the value of the call's expression as its target. */
  lemma {:induction false} CallIsEvaluated(text: string, e: Expression)
    requires CallsFor(text, e)
    ensures TargetOf(Lower(Strip(text))) == Meaning(e) && Number(e.first)
  {
    var left, call, argument, right :| && text == left + (call + (argument + (")" + right))) && Trimmed(text)
                                       && '(' !in left && IsCall(call) && Spells(argument, e);
    SpelledAlphabet(argument, e);
    StripOfTrimmed(text);
    PrintedEvaluates(e, WithoutSpaces(argument));
    hide Strip, Trimmed, Meaning, Evaluate, Prints, WithoutSpaces;
    LoweredCall(left, call, argument, right);
    LowerKeeps(left, '(');
    LowerOfCall(call);
    hide Lower, IsCall;
    FirstCall(Lower(left), Lower(call), argument, Lower(right));
    hide Argument;
  }

  lemma NoCallNoTarget(text: string)
    requires '(' !in text
    ensures TargetOf(Lower(Strip(text))) == None
  {
    var left, right := StripSplits(text);
    hide Strip;
    assert '(' !in Strip(text);
    LowerKeeps(Strip(text), '(');
    hide Lower;
    NoCall(Lower(Strip(text)));
  }

  function PageOf(e: Expression): int { Decimal(e.first) + SumOf(e.rest) }

  /** The handler calls for no page: no call in it, or one for no positive number. */
  ghost predicate Silent(text: string) {
    '(' !in text || exists e :: CallsFor(text, e) && PageOf(e) <= 0
  }

  lemma {:induction false} DecimalIsNatural(digits: string)
    requires Digits(digits)
    ensures Decimal(digits) >= 0
  {
    if digits != "" {
      assert digits[|digits| - 1] in digits && forall c | c in digits[..|digits| - 1] :: c in digits;
      DecimalIsNatural(digits[..|digits| - 1]);
    }
  }

  lemma SilentTarget(text: string)
    requires Silent(text)
    ensures var target := TargetOf(Lower(Strip(text))); target.None? || target.value == 0
  {
    hide TargetOf, Lower, Strip, CallsFor, Decimal;
    if '(' !in text {
      NoCallNoTarget(text);
    } else {
      var e :| CallsFor(text, e) && PageOf(e) <= 0;
      CallIsEvaluated(text, e);
      DecimalIsNatural(e.first);
    }
  }

  /** Where a live link leads.  A positive number called for in its click handler decides: it is the page
      if it is above the current one, and else the following page is.  Only if the handler calls for
      nothing does the address decide in the same way, and without any call it is the following page. */
  lemma {:induction false} DestinationExactly(a: Anchor, current: nat, e: Expression)
    ensures CallsFor(a.onclick, e) && PageOf(e) > 0 ==>
              Destination(a, current) == if PageOf(e) > current then PageOf(e) else current + 1
    ensures Silent(a.onclick) && CallsFor(a.href, e) ==>
              Destination(a, current) == if PageOf(e) > current then PageOf(e) else current + 1
    ensures Silent(a.onclick) && '(' !in a.href ==> Destination(a, current) == current + 1
  {
    hide TargetOf, Lower, Strip, Decimal, SumOf, CallsFor, Silent;
    if CallsFor(a.onclick, e) { CallIsEvaluated(a.onclick, e); }
    if Silent(a.onclick) { SilentTarget(a.onclick); }
    if CallsFor(a.href, e) { CallIsEvaluated(a.href, e); }
    if '(' !in a.href { NoCallNoTarget(a.href); }
  }

  // ---------------------------------------------------------------- dead links

  /** A link is dead exactly if its class says "disabled" or it has no click handler and an address that
      leads nowhere. */
  lemma {:induction false} DeadExactly(a: Anchor)
    ensures Inert(a) <==>
              || (exists i :: 0 <= i <= |a.className| && "disabled" <= Lower(a.className)[i..])
              || (AllSpaces(a.onclick)
                  && (AllSpaces(a.href) || Padded(a.href, "#") || Padded(a.href, "javascript:;") || Padded(a.href, "javascript:void(0)")))
  {
    ContainsExactly(Lower(a.className), "disabled");
    StripOfBlank(a.onclick);
    StripOfBlank(a.href);
    StrippedIs(a.href, "#");
    StrippedIs(a.href, "javascript:;");
    StrippedIs(a.href, "javascript:void(0)");
    hide Contains, Strip, Padded, AllSpaces;
  }
}
