/** The few string operations the modelled code applies, on ASCII white space and letters. */
module Text {

  predicate IsSpace(c: char) { c == ' ' || c == '\t' || c == '\n' || c == '\r' }

  /** `str.strip()`. */
  function Strip(s: string): string {
    if s == [] then []
    else if IsSpace(s[0]) then Strip(s[1..])
    else if IsSpace(s[|s| - 1]) then Strip(s[..|s| - 1])
    else s
  }

  lemma {:induction false} StrippedEnds(s: string)
    ensures Strip(s) != [] ==> !IsSpace(Strip(s)[0]) && !IsSpace(Strip(s)[|Strip(s)| - 1])
    decreases |s|
  {
    if s != [] && IsSpace(s[0]) {
      StrippedEnds(s[1..]);
    } else if s != [] && IsSpace(s[|s| - 1]) {
      StrippedEnds(s[..|s| - 1]);
    }
  }

  predicate IsBlank(c: char) { c == ' ' }

  /** SQL `TRIM(s)`: spaces only. */
  function Trim(s: string): string {
    if s == [] then []
    else if IsBlank(s[0]) then Trim(s[1..])
    else if IsBlank(s[|s| - 1]) then Trim(s[..|s| - 1])
    else s
  }

  /** `s.startswith(prefix)`. */
  predicate StartsWith(s: string, prefix: string) { prefix <= s }

  /** `needle in s`. */
  predicate Contains(s: string, needle: string) {
    StartsWith(s, needle) || (s != [] && Contains(s[1..], needle))
  }

  function LowerChar(c: char): char {
    if 'A' <= c <= 'Z' then (c as int + 32) as char else c
  }

  /** `str.lower()`. */
  function Lower(s: string): (r: string)
    ensures |r| == |s| && forall i | 0 <= i < |s| :: r[i] == LowerChar(s[i])
  {
    if s == [] then [] else [LowerChar(s[0])] + Lower(s[1..])
  }

  lemma LowerTwice(s: string)
    ensures Lower(Lower(s)) == Lower(s)
  {
  }

  predicate AllSpaces(s: string) { forall c | c in s :: IsSpace(c) }

  predicate AllBlanks(s: string) { forall c | c in s :: IsBlank(c) }

  /** White space around a text that does not begin or end with any is what strip removes. */
  lemma {:induction false} StripOfPadded(left: string, core: string, right: string)
    requires AllSpaces(left) && AllSpaces(right) && core != "" && !IsSpace(core[0]) && !IsSpace(core[|core| - 1])
    ensures Strip(left + core + right) == core
    decreases |left| + |right|
  {
    var s := left + core + right;
    if left != "" {
      assert s[0] == left[0] && left[0] in left && s[1..] == left[1..] + core + right;
      assert forall c | c in left[1..] :: c in left;
      StripOfPadded(left[1..], core, right);
    } else if right != "" {
      assert s[0] == core[0] && s[|s| - 1] == right[|right| - 1] && right[|right| - 1] in right;
      assert s[..|s| - 1] == left + core + right[..|right| - 1];
      assert forall c | c in right[..|right| - 1] :: c in right;
      StripOfPadded(left, core, right[..|right| - 1]);
    } else {
      assert s == core;
    }
  }

  /** Nothing is left of a text exactly if it is all white space. */
  lemma {:induction false} StripOfBlank(s: string)
    ensures Strip(s) == "" <==> AllSpaces(s)
    decreases |s|
  {
    if s != "" {
      assert s[0] in s && s[|s| - 1] in s;
      if IsSpace(s[0]) {
        StripOfBlank(s[1..]);
        assert s == [s[0]] + s[1..];
      } else if IsSpace(s[|s| - 1]) {
        StripOfBlank(s[..|s| - 1]);
        assert s[0] in s[..|s| - 1];
      }
    }
  }

  lemma {:induction false} TrimOfPadded(left: string, core: string, right: string)
    requires AllBlanks(left) && AllBlanks(right) && core != "" && !IsBlank(core[0]) && !IsBlank(core[|core| - 1])
    ensures Trim(left + core + right) == core
    decreases |left| + |right|
  {
    var s := left + core + right;
    if left != "" {
      assert s[0] == left[0] && left[0] in left && s[1..] == left[1..] + core + right;
      assert forall c | c in left[1..] :: c in left;
      TrimOfPadded(left[1..], core, right);
    } else if right != "" {
      assert s[0] == core[0] && s[|s| - 1] == right[|right| - 1] && right[|right| - 1] in right;
      assert s[..|s| - 1] == left + core + right[..|right| - 1];
      assert forall c | c in right[..|right| - 1] :: c in right;
      TrimOfPadded(left, core, right[..|right| - 1]);
    } else {
      assert s == core;
    }
  }

  lemma {:induction false} TrimOfBlank(s: string)
    ensures Trim(s) == "" <==> AllBlanks(s)
    decreases |s|
  {
    if s != "" {
      assert s[0] in s && s[|s| - 1] in s;
      if IsBlank(s[0]) {
        TrimOfBlank(s[1..]);
        assert s == [s[0]] + s[1..];
      } else if IsBlank(s[|s| - 1]) {
        TrimOfBlank(s[..|s| - 1]);
        assert s[0] in s[..|s| - 1];
      }
    }
  }

  /** `needle in s` looks at every position. */
  lemma {:induction false} ContainsExactly(s: string, needle: string)
    ensures Contains(s, needle) <==> exists i :: 0 <= i <= |s| && needle <= s[i..]
  {
    assert s[0..] == s;
    if s != "" && !(needle <= s) {
      ContainsExactly(s[1..], needle);
      if i :| 0 <= i <= |s| && needle <= s[i..] {
        assert s[1..][i - 1..] == s[i..];
      }
      if i :| 0 <= i <= |s[1..]| && needle <= s[1..][i..] {
        assert s[1..][i..] == s[i + 1..];
      }
    }
  }

  /** What strip removes is white space. */
  lemma {:induction false} StripSplits(s: string) returns (left: string, right: string)
    ensures s == left + Strip(s) + right && AllSpaces(left) && AllSpaces(right)
    decreases |s|
  {
    if s == "" {
      left, right := "", "";
    } else if IsSpace(s[0]) {
      left, right := StripSplits(s[1..]);
      left := [s[0]] + left;
    } else if IsSpace(s[|s| - 1]) {
      left, right := StripSplits(s[..|s| - 1]);
      right := right + [s[|s| - 1]];
    } else {
      left, right := "", "";
    }
  }

  lemma LowerOfJoined(a: string, b: string)
    ensures Lower(a + b) == Lower(a) + Lower(b)
  {
  }

  /** A text without white space around it. */
  predicate Trimmed(text: string) { text != "" ==> !IsSpace(text[0]) && !IsSpace(text[|text| - 1]) }

  lemma StripOfTrimmed(text: string)
    requires Trimmed(text)
    ensures Strip(text) == text
  {
  }

  /** The text, up to case, with white space around it. */
  ghost predicate Padded(text: string, lowered: string) {
    exists left, core, right :: text == left + core + right && AllSpaces(left) && AllSpaces(right) && Lower(core) == lowered
  }

  lemma StrippedIs(text: string, lowered: string)
    requires lowered != "" && !IsSpace(lowered[0]) && !IsSpace(lowered[|lowered| - 1])
    ensures Lower(Strip(text)) == lowered <==> Padded(text, lowered)
  {
    hide Strip;
    if Lower(Strip(text)) == lowered {
      var left, right := StripSplits(text);
    }
    if left, core, right :| text == left + core + right && AllSpaces(left) && AllSpaces(right) && Lower(core) == lowered {
      assert lowered[0] == LowerChar(core[0]) && lowered[|lowered| - 1] == LowerChar(core[|core| - 1]);
      StripOfPadded(left, core, right);
    }
  }
}
