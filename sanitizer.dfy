/**
 * `escapeText` of `src/api/lib/sanitizer.ts`: five global replacements, `&`
 * first, that turn the characters significant in HTML into entities.
 * `Escape`, which maps every character to its own entity independently, is
 * the reference the chain is proved equal to; `Unescape` decodes the five
 * entities again.
 */
module Sanitizer {
  import opened Text

  /** `s.replace(/c/g, rep)` for a one-character pattern. */
  function ReplaceAll(s: string, c: char, rep: string): (r: string)
    ensures |rep| >= 1 ==> |r| >= |s|
  {
    if s == [] then ""
    else (if s[0] == c then rep else [s[0]]) + ReplaceAll(s[1..], c, rep)
  }

  /** A pattern that does not occur leaves the text as it is. */
  lemma {:induction false} ReplaceAllAbsent(s: string, c: char, rep: string)
    requires c !in s
    ensures ReplaceAll(s, c, rep) == s
  {
    if s != [] {
      assert c !in s[1..];
      ReplaceAllAbsent(s[1..], c, rep);
      assert [s[0]] + s[1..] == s;
    }
  }

  /** Replacing in a concatenation is replacing in each part. */
  lemma {:induction false} ReplaceAllAppend(a: string, b: string, c: char, rep: string)
    ensures ReplaceAll(a + b, c, rep) == ReplaceAll(a, c, rep) + ReplaceAll(b, c, rep)
  {
    if a != [] {
      ReplaceAllAppend(a[1..], b, c, rep);
      assert (a + b)[0] == a[0] && (a + b)[1..] == a[1..] + b;
      var head := if a[0] == c then rep else [a[0]];
      assert ReplaceAll(a + b, c, rep) == head + ReplaceAll(a[1..] + b, c, rep);
      assert ReplaceAll(a, c, rep) == head + ReplaceAll(a[1..], c, rep);
    } else {
      assert a + b == b;
    }
  }

  function EscapeText(unsafe: string): string {
    ReplaceAll(ReplaceAll(ReplaceAll(ReplaceAll(ReplaceAll(unsafe,
      '&', "&amp;"), '<', "&lt;"), '>', "&gt;"), '"', "&quot;"), '\'', "&#039;")
  }

  /** The entity each character is written as; every other character stands for itself. */
  function EscapeChar(c: char): string {
    match c
    case '&' => "&amp;"
    case '<' => "&lt;"
    case '>' => "&gt;"
    case '"' => "&quot;"
    case '\'' => "&#039;"
    case _ => [c]
  }

  function Escape(s: string): string {
    if s == [] then "" else EscapeChar(s[0]) + Escape(s[1..])
  }

  lemma {:induction false} EscapeTextAppend(a: string, b: string)
    ensures EscapeText(a + b) == EscapeText(a) + EscapeText(b)
  {
    var a1, b1 := ReplaceAll(a, '&', "&amp;"), ReplaceAll(b, '&', "&amp;");
    ReplaceAllAppend(a, b, '&', "&amp;");
    var a2, b2 := ReplaceAll(a1, '<', "&lt;"), ReplaceAll(b1, '<', "&lt;");
    ReplaceAllAppend(a1, b1, '<', "&lt;");
    var a3, b3 := ReplaceAll(a2, '>', "&gt;"), ReplaceAll(b2, '>', "&gt;");
    ReplaceAllAppend(a2, b2, '>', "&gt;");
    var a4, b4 := ReplaceAll(a3, '"', "&quot;"), ReplaceAll(b3, '"', "&quot;");
    ReplaceAllAppend(a3, b3, '"', "&quot;");
    ReplaceAllAppend(a4, b4, '\'', "&#039;");
  }

  lemma ReplaceAllOne(x: char, c: char, rep: string)
    ensures ReplaceAll([x], c, rep) == if x == c then rep else [x]
  {
    assert [x][1..] == [];
  }

  /** On one character the chain produces that character's entity: no entity is escaped again. */
  lemma EscapeTextOneChar(c: char)
    ensures EscapeText([c]) == EscapeChar(c)
  {
    match c
    case '&' => EscapeAmpersand(c);
    case '<' => EscapeLessThan(c);
    case '>' => EscapeGreaterThan(c);
    case '"' => EscapeDoubleQuote(c);
    case '\'' => EscapeSingleQuote(c);
    case _ =>
      ReplaceAllOne(c, '&', "&amp;");
      ReplaceAllOne(c, '<', "&lt;");
      ReplaceAllOne(c, '>', "&gt;");
      ReplaceAllOne(c, '"', "&quot;");
      ReplaceAllOne(c, '\'', "&#039;");
  }

  /**
   * The chain on one `&`. This and the four lemmas below take the character
   * as a parameter pinned by `requires` rather than a literal, so that the
   * solver sees the chain's steps one at a time instead of unfolding all five
   * replacements on a constant at once.
   */
  lemma EscapeAmpersand(c: char)
    requires c == '&'
    ensures EscapeText([c]) == "&amp;"
  {
    var s1 := ReplaceAll([c], '&', "&amp;");
    ReplaceAllOne(c, '&', "&amp;");
    assert s1 == "&amp;";
    EntityLetters();
    var s2 := ReplaceAll(s1, '<', "&lt;");
    ReplaceAllAbsent(s1, '<', "&lt;");
    var s3 := ReplaceAll(s2, '>', "&gt;");
    ReplaceAllAbsent(s2, '>', "&gt;");
    var s4 := ReplaceAll(s3, '"', "&quot;");
    ReplaceAllAbsent(s3, '"', "&quot;");
    var s5 := ReplaceAll(s4, '\'', "&#039;");
    ReplaceAllAbsent(s4, '\'', "&#039;");
    assert EscapeText([c]) == s5;
  }

  /** No entity holds a character that a later replacement in the chain looks for. */
  lemma EntityLetters()
    ensures '<' !in "&amp;" && '>' !in "&amp;" && '"' !in "&amp;" && '\'' !in "&amp;"
    ensures '>' !in "&lt;" && '"' !in "&lt;" && '\'' !in "&lt;"
    ensures '"' !in "&gt;" && '\'' !in "&gt;"
    ensures '\'' !in "&quot;"
  {
    assert "&amp;" == ['&', 'a', 'm', 'p', ';'];
    assert "&lt;" == ['&', 'l', 't', ';'];
    assert "&gt;" == ['&', 'g', 't', ';'];
    assert "&quot;" == ['&', 'q', 'u', 'o', 't', ';'];
  }

  /** The chain on one `<` (parameter pinned as in `EscapeAmpersand`). */
  lemma EscapeLessThan(c: char)
    requires c == '<'
    ensures EscapeText([c]) == "&lt;"
  {
    var s1 := ReplaceAll([c], '&', "&amp;");
    ReplaceAllOne(c, '&', "&amp;");
    assert s1 == [c];
    var s2 := ReplaceAll(s1, '<', "&lt;");
    ReplaceAllOne(c, '<', "&lt;");
    assert s2 == "&lt;";
    EntityLetters();
    var s3 := ReplaceAll(s2, '>', "&gt;");
    ReplaceAllAbsent(s2, '>', "&gt;");
    var s4 := ReplaceAll(s3, '"', "&quot;");
    ReplaceAllAbsent(s3, '"', "&quot;");
    var s5 := ReplaceAll(s4, '\'', "&#039;");
    ReplaceAllAbsent(s4, '\'', "&#039;");
    assert EscapeText([c]) == s5;
  }

  /** The chain on one `>` (parameter pinned as in `EscapeAmpersand`). */
  lemma EscapeGreaterThan(c: char)
    requires c == '>'
    ensures EscapeText([c]) == "&gt;"
  {
    var s1 := ReplaceAll([c], '&', "&amp;");
    ReplaceAllOne(c, '&', "&amp;");
    assert s1 == [c];
    var s2 := ReplaceAll(s1, '<', "&lt;");
    ReplaceAllOne(c, '<', "&lt;");
    assert s2 == [c];
    var s3 := ReplaceAll(s2, '>', "&gt;");
    ReplaceAllOne(c, '>', "&gt;");
    assert s3 == "&gt;";
    EntityLetters();
    var s4 := ReplaceAll(s3, '"', "&quot;");
    ReplaceAllAbsent(s3, '"', "&quot;");
    var s5 := ReplaceAll(s4, '\'', "&#039;");
    ReplaceAllAbsent(s4, '\'', "&#039;");
    assert EscapeText([c]) == s5;
  }

  /** The chain on one `"` (parameter pinned as in `EscapeAmpersand`). */
  lemma EscapeDoubleQuote(c: char)
    requires c == '"'
    ensures EscapeText([c]) == "&quot;"
  {
    var s1 := ReplaceAll([c], '&', "&amp;");
    ReplaceAllOne(c, '&', "&amp;");
    assert s1 == [c];
    var s2 := ReplaceAll(s1, '<', "&lt;");
    ReplaceAllOne(c, '<', "&lt;");
    assert s2 == [c];
    var s3 := ReplaceAll(s2, '>', "&gt;");
    ReplaceAllOne(c, '>', "&gt;");
    assert s3 == [c];
    var s4 := ReplaceAll(s3, '"', "&quot;");
    ReplaceAllOne(c, '"', "&quot;");
    assert s4 == "&quot;";
    EntityLetters();
    var s5 := ReplaceAll(s4, '\'', "&#039;");
    ReplaceAllAbsent(s4, '\'', "&#039;");
    assert EscapeText([c]) == s5;
  }

  /** The chain on one `'` (parameter pinned as in `EscapeAmpersand`). */
  lemma EscapeSingleQuote(c: char)
    requires c == '\''
    ensures EscapeText([c]) == "&#039;"
  {
    var s1 := ReplaceAll([c], '&', "&amp;");
    ReplaceAllOne(c, '&', "&amp;");
    assert s1 == [c];
    var s2 := ReplaceAll(s1, '<', "&lt;");
    ReplaceAllOne(c, '<', "&lt;");
    assert s2 == [c];
    var s3 := ReplaceAll(s2, '>', "&gt;");
    ReplaceAllOne(c, '>', "&gt;");
    assert s3 == [c];
    var s4 := ReplaceAll(s3, '"', "&quot;");
    ReplaceAllOne(c, '"', "&quot;");
    assert s4 == [c];
    var s5 := ReplaceAll(s4, '\'', "&#039;");
    ReplaceAllOne(c, '\'', "&#039;");
    assert s5 == "&#039;";
    assert EscapeText([c]) == s5;
  }

  /** The replacement chain is the character-by-character escape. */
  lemma {:induction false} EscapeTextIsEscape(s: string)
    ensures EscapeText(s) == Escape(s)
  {
    if s != [] {
      EscapeTextIsEscape(s[1..]);
      EscapeTextAppend([s[0]], s[1..]);
      EscapeTextOneChar(s[0]);
      assert [s[0]] + s[1..] == s;
    }
  }

  /** None of `<`, `>`, `"` and `'` survives escaping. */
  lemma {:induction false} NoMarkupSurvives(s: string)
    ensures forall i :: 0 <= i < |EscapeText(s)| ==> EscapeText(s)[i] !in "<>\"'"
  {
    EscapeTextIsEscape(s);
    NoMarkupInEscape(s);
  }

  lemma {:induction false} NoMarkupInEscape(s: string)
    ensures forall i :: 0 <= i < |Escape(s)| ==> Escape(s)[i] !in "<>\"'"
  {
    if s != [] {
      NoMarkupInEscape(s[1..]);
      var e := EscapeChar(s[0]);
      assert forall i :: 0 <= i < |e| ==> e[i] !in "<>\"'";
      assert Escape(s) == e + Escape(s[1..]);
    }
  }

  /** Escaping never shortens the text. */
  lemma EscapeNeverShortens(s: string)
    ensures |EscapeText(s)| >= |s|
  {
  }

  /** Text holding none of the five characters is returned as it is. */
  lemma PlainTextUnchanged(s: string)
    requires forall i :: 0 <= i < |s| ==> s[i] !in "&<>\"'"
    ensures EscapeText(s) == s
  {
    assert '&' !in s && '<' !in s && '>' !in s && '"' !in s && '\'' !in s;
    ReplaceAllAbsent(s, '&', "&amp;");
    ReplaceAllAbsent(s, '<', "&lt;");
    ReplaceAllAbsent(s, '>', "&gt;");
    ReplaceAllAbsent(s, '"', "&quot;");
    ReplaceAllAbsent(s, '\'', "&#039;");
  }

  /** Decoding the five entities, left to right; anything else is kept. */
  function Unescape(s: string): string
    decreases |s|
  {
    if s == [] then ""
    else if StartsWith(s, "&amp;") then "&" + Unescape(s[5..])
    else if StartsWith(s, "&lt;") then "<" + Unescape(s[4..])
    else if StartsWith(s, "&gt;") then ">" + Unescape(s[4..])
    else if StartsWith(s, "&quot;") then "\"" + Unescape(s[6..])
    else if StartsWith(s, "&#039;") then "'" + Unescape(s[6..])
    else [s[0]] + Unescape(s[1..])
  }

  lemma UnescapeFront(c: char, t: string)
    ensures Unescape(EscapeChar(c) + t) == [c] + Unescape(t)
  {
    match c
    case '&' => UnescapeEntity("&amp;", '&', t);
    case '<' => UnescapeEntity("&lt;", '<', t);
    case '>' => UnescapeEntity("&gt;", '>', t);
    case '"' => UnescapeEntity("&quot;", '"', t);
    case '\'' => UnescapeEntity("&#039;", '\'', t);
    case _ =>
      var s := [c] + t;
      assert s[0] == c && s[1..] == t;
      UnescapePlain(s);
  }

  /** Text that does not begin with `&` keeps its first character as it is. */
  lemma UnescapePlain(s: string)
    requires s != [] && s[0] != '&'
    ensures Unescape(s) == [s[0]] + Unescape(s[1..])
  {
    MismatchAt(s, "&amp;", 0);
    MismatchAt(s, "&lt;", 0);
    MismatchAt(s, "&gt;", 0);
    MismatchAt(s, "&quot;", 0);
    MismatchAt(s, "&#039;", 0);
  }

  /** One of the five entities in front decodes to its character; none is a prefix of an earlier-tested one. */
  lemma UnescapeEntity(e: string, c: char, t: string)
    requires (e, c) in [("&amp;", '&'), ("&lt;", '<'), ("&gt;", '>'), ("&quot;", '"'), ("&#039;", '\'')]
    ensures Unescape(e + t) == [c] + Unescape(t)
  {
    var s := e + t;
    assert s[..|e|] == e && s[|e|..] == t;
    assert s[1] == e[1];
    if c == '<' {
      MismatchAt(s, "&amp;", 1);
    } else if c == '>' {
      MismatchAt(s, "&amp;", 1);
      MismatchAt(s, "&lt;", 1);
    } else if c == '"' {
      MismatchAt(s, "&amp;", 1);
      MismatchAt(s, "&lt;", 1);
      MismatchAt(s, "&gt;", 1);
    } else if c == '\'' {
      MismatchAt(s, "&amp;", 1);
      MismatchAt(s, "&lt;", 1);
      MismatchAt(s, "&gt;", 1);
      MismatchAt(s, "&quot;", 1);
    }
  }

  /** A text that differs from a pattern at one of the pattern's positions does not start with it. */
  lemma MismatchAt(s: string, p: string, k: int)
    requires 0 <= k < |p| && (k < |s| ==> s[k] != p[k])
    ensures !StartsWith(s, p)
  {
    if |p| <= |s| {
      assert s[..|p|][k] == s[k];
    }
  }

  /** Decoding the five entities restores the escaped text. */
  lemma {:induction false} UnescapeEscape(s: string)
    ensures Unescape(EscapeText(s)) == s
  {
    EscapeTextIsEscape(s);
    UnescapeEscapeEach(s);
  }

  lemma {:induction false} UnescapeEscapeEach(s: string)
    ensures Unescape(Escape(s)) == s
  {
    if s != [] {
      UnescapeEscapeEach(s[1..]);
      UnescapeFront(s[0], Escape(s[1..]));
      assert [s[0]] + s[1..] == s;
    }
  }

  /** Escaping is not idempotent: an ampersand escaped twice is `&amp;amp;`. */
  lemma NotIdempotent(c: char)
    requires c == '&'
    ensures EscapeText(EscapeText([c])) == "&amp;amp;"
  {
    var rest := "amp;";
    var once := EscapeText([c]);
    EscapeAmpersand(c);
    assert once == [c] + rest;
    var twice := EscapeText(once);
    EscapeTextAppend([c], rest);
    assert twice == EscapeText([c]) + EscapeText(rest);
    PlainTail(rest);
    assert twice == [c] + rest + rest;
    DoubleAmpersand(c, rest);
  }

  lemma DoubleAmpersand(c: char, rest: string)
    requires c == '&' && rest == "amp;"
    ensures [c] + rest + rest == "&amp;amp;"
  {
    var r := [c] + rest + rest;
    assert |r| == 9;
    forall i | 0 <= i < 9
      ensures r[i] == "&amp;amp;"[i]
    {
      if i == 0 {
      } else if i < 5 {
        assert r[i] == rest[i - 1];
      } else {
        assert r[i] == rest[i - 5];
      }
    }
  }

  lemma PlainTail(rest: string)
    requires rest == "amp;"
    ensures EscapeText(rest) == rest
  {
    assert forall i :: 0 <= i < |rest| ==> rest[i] !in "&<>\"'";
    PlainTextUnchanged(rest);
  }
}
