/**
 `escape_ilike` (sthrip/utils.py) against the pattern language it escapes for: LIKE with
 the default backslash escape, section 9.7.1 of the PostgreSQL documentation.
 */
module LikeEscape {

  // ---------------------------------------------------------------- the source

  /** str.replace of one character. */
  function Replace(s: string, target: char, replacement: string): string {
    if s == "" then "" else (if s[0] == target then replacement else [s[0]]) + Replace(s[1..], target, replacement)
  }

  function EscapeIlike(value: string): string {
    Replace(Replace(Replace(value, '\\', "\\\\"), '%', "\\%"), '_', "\\_")
  }

  // ---------------------------------------------------------------- LIKE

  /** A backslash at the very end is an error in PostgreSQL; here such a pattern matches nothing. */
  predicate Like(pattern: string, text: string)
    decreases |pattern| + |text|
  {
    if pattern == "" then text == ""
    else if pattern[0] == '%' then
      Like(pattern[1..], text) || (text != "" && Like(pattern, text[1..]))
    else if pattern[0] == '_' then
      text != "" && Like(pattern[1..], text[1..])
    else if pattern[0] == '\\' then
      |pattern| > 1 && text != "" && text[0] == pattern[1] && Like(pattern[2..], text[1..])
    else
      text != "" && text[0] == pattern[0] && Like(pattern[1..], text[1..])
  }

  predicate Special(c: char) {
    c == '\\' || c == '%' || c == '_'
  }

  function Fold(fold: char -> char, s: string): (r: string)
    ensures |r| == |s|
  {
    seq(|s|, i requires 0 <= i < |s| => fold(s[i]))
  }

  /** A case folding neither touches nor produces a special character. */
  ghost predicate IsCaseFolding(fold: char -> char) {
    forall c :: Special(c) || Special(fold(c)) ==> fold(c) == c
  }

  /** ILIKE folds the case of pattern and text, then matches. */
  predicate ILike(fold: char -> char, pattern: string, text: string) {
    Like(Fold(fold, pattern), Fold(fold, text))
  }

  // ---------------------------------------------------------------- one pass

  function EscapeChar(c: char): string {
    if Special(c) then ['\\', c] else [c]
  }

  function SinglePass(value: string): string {
    if value == "" then "" else EscapeChar(value[0]) + SinglePass(value[1..])
  }

  lemma {:induction false} ReplaceConcat(a: string, b: string, target: char, replacement: string)
    ensures Replace(a + b, target, replacement) == Replace(a, target, replacement) + Replace(b, target, replacement)
  {
    if a == "" {
      assert a + b == b;
    } else {
      assert (a + b)[1..] == a[1..] + b;
      ReplaceConcat(a[1..], b, target, replacement);
    }
  }

  /** Replacing in at most two characters. */
  lemma ReplaceShort(s: string, target: char, replacement: string)
    ensures |s| == 1 ==> Replace(s, target, replacement) == if s[0] == target then replacement else s
    ensures |s| == 2 ==>
      Replace(s, target, replacement) == Replace(s[..1], target, replacement) + Replace(s[1..], target, replacement)
  {
    if |s| == 2 {
      assert s == s[..1] + s[1..];
      ReplaceConcat(s[..1], s[1..], target, replacement);
    }
  }

  lemma EscapeOneCharacter(c: char)
    ensures EscapeIlike([c]) == EscapeChar(c)
  {
    var first := Replace([c], '\\', "\\\\");
    ReplaceShort([c], '\\', "\\\\");
    var second := Replace(first, '%', "\\%");
    ReplaceShort(first, '%', "\\%");
    ReplaceShort(first[..1], '%', "\\%");
    ReplaceShort(first[1..], '%', "\\%");
    ReplaceShort(second, '_', "\\_");
    ReplaceShort(second[..1], '_', "\\_");
    ReplaceShort(second[1..], '_', "\\_");
  }

  lemma EscapeConcat(a: string, b: string)
    ensures EscapeIlike(a + b) == EscapeIlike(a) + EscapeIlike(b)
  {
    ReplaceConcat(a, b, '\\', "\\\\");
    var a1, b1 := Replace(a, '\\', "\\\\"), Replace(b, '\\', "\\\\");
    ReplaceConcat(a1, b1, '%', "\\%");
    ReplaceConcat(Replace(a1, '%', "\\%"), Replace(b1, '%', "\\%"), '_', "\\_");
  }

  /** The three chained replaces escape every character exactly once. */
  lemma {:induction false} ChainIsSinglePass(value: string)
    ensures EscapeIlike(value) == SinglePass(value)
  {
    if value != "" {
      assert value == [value[0]] + value[1..];
      EscapeConcat([value[0]], value[1..]);
      EscapeOneCharacter(value[0]);
      ChainIsSinglePass(value[1..]);
    }
  }

  function Unescape(pattern: string): string {
    if |pattern| > 1 && pattern[0] == '\\' then [pattern[1]] + Unescape(pattern[2..])
    else if pattern == "" then ""
    else [pattern[0]] + Unescape(pattern[1..])
  }

  lemma {:induction false} UnescapeSinglePass(value: string)
    ensures Unescape(SinglePass(value)) == value
  {
    if value != "" {
      UnescapeSinglePass(value[1..]);
      var p := SinglePass(value);
      assert p[|EscapeChar(value[0])|..] == SinglePass(value[1..]);
    }
  }

  lemma EscapeHasLeftInverse(value: string)
    ensures Unescape(EscapeIlike(value)) == value
  {
    ChainIsSinglePass(value);
    UnescapeSinglePass(value);
  }

  lemma EscapeInjective(a: string, b: string)
    requires EscapeIlike(a) == EscapeIlike(b)
    ensures a == b
  {
    EscapeHasLeftInverse(a);
    EscapeHasLeftInverse(b);
  }

  // ---------------------------------------------------------------- matching

  predicate HasPrefix(text: string, v: string) {
    |v| <= |text| && text[..|v|] == v
  }

  lemma LikeEscapedChar(c: char, tail: string, text: string)
    ensures Like(EscapeChar(c) + tail, text) <==> text != "" && text[0] == c && Like(tail, text[1..])
  {
    assert (EscapeChar(c) + tail)[|EscapeChar(c)|..] == tail;
  }

  lemma PrefixStep(text: string, v: string)
    requires text != "" && v != ""
    ensures HasPrefix(text, v) <==> text[0] == v[0] && HasPrefix(text[1..], v[1..])
    ensures |v| <= |text| ==> text[|v|..] == text[1..][|v| - 1..]
  {
    if |v| <= |text| {
      assert text[..|v|] == [text[0]] + text[1..][..|v| - 1] && v == [v[0]] + v[1..];
    }
  }

  /** An escaped value consumes itself and nothing else, whatever pattern follows. */
  lemma {:induction false} LikeSinglePassThen(value: string, rest: string, text: string)
    ensures Like(SinglePass(value) + rest, text)
        <==> HasPrefix(text, value) && Like(rest, text[|value|..])
  {
    if value == "" {
      assert SinglePass(value) + rest == rest;
    } else {
      var tail := SinglePass(value[1..]) + rest;
      assert SinglePass(value) + rest == EscapeChar(value[0]) + tail;
      LikeEscapedChar(value[0], tail, text);
      if text != "" {
        LikeSinglePassThen(value[1..], rest, text[1..]);
        PrefixStep(text, value);
      }
    }
  }

  lemma {:induction false} PercentMatchesAnything(text: string)
    ensures Like("%", text)
    decreases |text|
  {
    if text != "" { PercentMatchesAnything(text[1..]); }
  }

  /** An underscore takes any one character, a percent sign any number of them. */
  lemma UnderscoreExactly(rest: string, text: string)
    ensures Like("_" + rest, text) <==> text != "" && Like(rest, text[1..])
  {
    assert ("_" + rest)[1..] == rest;
  }

  ghost predicate LikeFrom(pattern: string, text: string, i: int) {
    0 <= i <= |text| && Like(pattern, text[i..])
  }

  lemma {:induction false} PercentExactly(rest: string, text: string)
    ensures Like("%" + rest, text) <==> exists i :: LikeFrom(rest, text, i)
    decreases |text|
  {
    assert ("%" + rest)[1..] == rest;
    assert text[0..] == text;
    if text != "" {
      PercentExactly(rest, text[1..]);
      forall i | 0 <= i <= |text[1..]| ensures text[1..][i..] == text[i + 1..] {}
      if i :| LikeFrom(rest, text[1..], i) { assert LikeFrom(rest, text, i + 1); }
      if i :| LikeFrom(rest, text, i) {
        if i == 0 { assert LikeFrom(rest, text, 0); } else { assert LikeFrom(rest, text[1..], i - 1); }
      }
    }
    if Like(rest, text) { assert LikeFrom(rest, text, 0); }
  }

  ghost predicate Contains(text: string, v: string) {
    exists i :: 0 <= i <= |text| && HasPrefix(text[i..], v)
  }

  lemma ContainsStep(text: string, v: string)
    ensures Contains(text, v) <==> HasPrefix(text, v) || (text != "" && Contains(text[1..], v))
  {
    assert text[0..] == text;
    if text != "" {
      forall i | 0 <= i <= |text[1..]| ensures text[1..][i..] == text[i + 1..] {}
      if Contains(text[1..], v) {
        var i :| 0 <= i <= |text[1..]| && HasPrefix(text[1..][i..], v);
        assert HasPrefix(text[i + 1..], v);
      }
      if Contains(text, v) && !HasPrefix(text, v) {
        var i :| 0 <= i <= |text| && HasPrefix(text[i..], v);
        assert text[1..][i - 1..] == text[i..];
      }
    }
  }

  lemma {:induction false} LikeWithin(value: string, text: string)
    ensures Like("%" + SinglePass(value) + "%", text) <==> Contains(text, value)
    decreases |text|
  {
    var pattern := "%" + SinglePass(value) + "%";
    assert pattern[1..] == SinglePass(value) + "%";
    LikeSinglePassThen(value, "%", text);
    if |value| <= |text| { PercentMatchesAnything(text[|value|..]); }
    if text != "" { LikeWithin(value, text[1..]); }
    ContainsStep(text, value);
  }

  /** An escaped value, as a pattern, matches the value and nothing else. */
  lemma EscapedMatchesOnlyItself(value: string, text: string)
    ensures Like(EscapeIlike(value), text) <==> text == value
  {
    ChainIsSinglePass(value);
    LikeSinglePassThen(value, "", text);
    assert SinglePass(value) + "" == SinglePass(value);
    if |value| <= |text| { assert text == text[..|value|] + text[|value|..]; }
  }

  /** The search pattern of the views finds exactly the texts that contain the value. */
  lemma SearchFindsSubstrings(value: string, text: string)
    ensures Like("%" + EscapeIlike(value) + "%", text) <==> Contains(text, value)
  {
    ChainIsSinglePass(value);
    LikeWithin(value, text);
  }

  lemma FoldConcat(fold: char -> char, a: string, b: string)
    ensures Fold(fold, a + b) == Fold(fold, a) + Fold(fold, b)
  {
  }

  lemma FoldEscapeChar(fold: char -> char, c: char)
    requires IsCaseFolding(fold)
    ensures Fold(fold, EscapeChar(c)) == EscapeChar(fold(c))
  {
    assert fold('\\') == '\\' && (Special(c) || Special(fold(c)) ==> fold(c) == c);
  }

  lemma {:induction false} FoldSinglePass(fold: char -> char, value: string)
    requires IsCaseFolding(fold)
    ensures Fold(fold, SinglePass(value)) == SinglePass(Fold(fold, value))
  {
    if value != "" {
      FoldSinglePass(fold, value[1..]);
      FoldEscapeChar(fold, value[0]);
      assert Fold(fold, value)[1..] == Fold(fold, value[1..]);
      FoldConcat(fold, EscapeChar(value[0]), SinglePass(value[1..]));
    }
  }

  /** With ILIKE: the texts that contain the value up to case. */
  lemma SearchIgnoresOnlyCase(fold: char -> char, value: string, text: string)
    requires IsCaseFolding(fold)
    ensures ILike(fold, "%" + EscapeIlike(value) + "%", text)
        <==> Contains(Fold(fold, text), Fold(fold, value))
  {
    ChainIsSinglePass(value);
    FoldSinglePass(fold, value);
    assert fold('%') == '%';
    assert Fold(fold, "%" + SinglePass(value) + "%") == "%" + Fold(fold, SinglePass(value)) + "%";
    LikeWithin(Fold(fold, value), Fold(fold, text));
  }

  // ---------------------------------------------------------------- why backslash comes first

  /** The same replaces with the backslash last. */
  function EscapeBackslashLast(value: string): string {
    Replace(Replace(Replace(value, '%', "\\%"), '_', "\\_"), '\\', "\\\\")
  }

  function LastChar(c: char): string {
    if c == '\\' then "\\\\" else if Special(c) then ['\\', '\\', c] else [c]
  }

  lemma BackslashLastOneCharacter(c: char)
    ensures EscapeBackslashLast([c]) == LastChar(c)
  {
    var first := Replace([c], '%', "\\%");
    ReplaceShort([c], '%', "\\%");
    var second := Replace(first, '_', "\\_");
    ReplaceShort(first, '_', "\\_");
    ReplaceShort(first[..1], '_', "\\_");
    ReplaceShort(first[1..], '_', "\\_");
    ReplaceShort(second, '\\', "\\\\");
    ReplaceShort(second[..1], '\\', "\\\\");
    ReplaceShort(second[1..], '\\', "\\\\");
  }

  lemma BackslashLastStep(value: string)
    requires value != ""
    ensures EscapeBackslashLast(value) == LastChar(value[0]) + EscapeBackslashLast(value[1..])
  {
    var a, b := [value[0]], value[1..];
    assert value == a + b;
    ReplaceConcat(a, b, '%', "\\%");
    var a1, b1 := Replace(a, '%', "\\%"), Replace(b, '%', "\\%");
    ReplaceConcat(a1, b1, '_', "\\_");
    ReplaceConcat(Replace(a1, '_', "\\_"), Replace(b1, '_', "\\_"), '\\', "\\\\");
    BackslashLastOneCharacter(value[0]);
  }

  /** With the backslash last, a value still matches itself exactly when it holds no wildcard. */
  lemma {:induction false} BackslashLastMatchesItselfExactly(value: string)
    ensures Like(EscapeBackslashLast(value), value) <==> '%' !in value && '_' !in value
  {
    if value != "" {
      BackslashLastStep(value);
      BackslashLastMatchesItselfExactly(value[1..]);
      var c, pattern := value[0], EscapeBackslashLast(value);
      assert pattern[|LastChar(c)|..] == EscapeBackslashLast(value[1..]);
      assert value == [c] + value[1..];
    }
  }
}
