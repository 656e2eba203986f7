/**
 * The JavaScript string operations the core relies on: `split` on a single
 * character, `trim`, `indexOf`/`replace` of the first occurrence of a literal
 * pattern, `startsWith`, and `toLowerCase` restricted to ASCII letters.
 */
module Text {
  import opened Wrappers

  /** The characters `String.prototype.trim` removes: ECMAScript WhiteSpace and LineTerminator. */
  predicate IsWhitespace(c: char) {
    || c == ' ' || c == '\t' || c == '\n' || c == '\r'
    || c == '\U{B}' || c == '\U{C}' || c == '\U{A0}' || c == '\U{FEFF}'
    || c == '\U{1680}' || ('\U{2000}' <= c <= '\U{200A}') || c == '\U{2028}' || c == '\U{2029}'
    || c == '\U{202F}' || c == '\U{205F}' || c == '\U{3000}'
  }

  /** Neither end of `s` is whitespace. */
  predicate Trimmed(s: string) {
    s == [] || (!IsWhitespace(s[0]) && !IsWhitespace(s[|s| - 1]))
  }

  /** How many whitespace characters `s` begins with. */
  function LeadingWhitespace(s: string): (n: nat)
    ensures n <= |s|
    ensures forall i :: 0 <= i < n ==> IsWhitespace(s[i])
    ensures n < |s| ==> !IsWhitespace(s[n])
    decreases |s|
  {
    if s != [] && IsWhitespace(s[0]) then 1 + LeadingWhitespace(s[1..]) else 0
  }

  /** How many whitespace characters `s` ends with. */
  function TrailingWhitespace(s: string): (n: nat)
    ensures n <= |s|
    ensures forall i :: |s| - n <= i < |s| ==> IsWhitespace(s[i])
    ensures n < |s| ==> !IsWhitespace(s[|s| - n - 1])
    decreases |s|
  {
    if s != [] && IsWhitespace(s[|s| - 1]) then 1 + TrailingWhitespace(s[..|s| - 1]) else 0
  }

  /** The first half of `trim`: drops the leading whitespace. */
  function TrimStart(s: string): (r: string)
    ensures |r| <= |s| && r == s[|s| - |r|..]
    ensures r == [] || !IsWhitespace(r[0])
    ensures forall i :: 0 <= i < |s| - |r| ==> IsWhitespace(s[i])
  {
    s[LeadingWhitespace(s)..]
  }

  /** The second half of `trim`: drops the trailing whitespace. */
  function TrimEnd(s: string): (r: string)
    ensures |r| <= |s| && r == s[..|r|]
    ensures r == [] || !IsWhitespace(r[|r| - 1])
    ensures forall i :: |r| <= i < |s| ==> IsWhitespace(s[i])
  {
    s[..|s| - TrailingWhitespace(s)]
  }

  /** `s.trim()`: drops whitespace at both ends, and only there. */
  function Trim(s: string): (r: string)
    ensures Trimmed(r)
    ensures |r| <= |s|
    ensures Trimmed(s) ==> r == s
  {
    var t := TrimStart(s);
    var r := TrimEnd(t);
    assert r != [] ==> r[0] == t[0];
    r
  }

  /**
   * `trim` removes whitespace at the two ends and nothing else: the result
   * sits inside `s` with only whitespace before and after it.
   */
  lemma {:induction false} TrimMeaning(s: string)
    ensures var r, a := Trim(s), |s| - |TrimStart(s)|;
      && 0 <= a && a + |r| <= |s| && r == s[a..a + |r|]
      && (forall i :: 0 <= i < a ==> IsWhitespace(s[i]))
      && (forall i :: a + |r| <= i < |s| ==> IsWhitespace(s[i]))
  {
    var t := TrimStart(s);
    TrimIsBothEnds(s);
    TrimmedSlice(s, t, TrimEnd(t));
  }

  /** `trim` is the two halves one after the other. */
  lemma TrimIsBothEnds(s: string)
    ensures Trim(s) == TrimEnd(TrimStart(s))
  {
  }

  /** A prefix `r` of a suffix `t` of `s`, cut off only at whitespace, is a slice of `s` with whitespace around it. */
  lemma TrimmedSlice(s: string, t: string, r: string)
    requires |t| <= |s| && t == s[|s| - |t|..]
    requires forall i :: 0 <= i < |s| - |t| ==> IsWhitespace(s[i])
    requires |r| <= |t| && r == t[..|r|]
    requires forall i :: |r| <= i < |t| ==> IsWhitespace(t[i])
    ensures var a := |s| - |t|;
      && 0 <= a && a + |r| <= |s| && r == s[a..a + |r|]
      && (forall i :: a + |r| <= i < |s| ==> IsWhitespace(s[i]))
  {
    SliceOfSuffix(s, t, r);
    WhitespaceShift(s, t, |r|);
  }

  /** A prefix of a suffix of `s` is a slice of `s`. */
  lemma SliceOfSuffix(s: string, t: string, r: string)
    requires |t| <= |s| && t == s[|s| - |t|..]
    requires |r| <= |t| && r == t[..|r|]
    ensures r == s[|s| - |t|..|s| - |t| + |r|]
  {
  }

  /** Whitespace at the end of a suffix of `s` is whitespace at the end of `s`. */
  lemma WhitespaceShift(s: string, t: string, lo: int)
    requires |t| <= |s| && t == s[|s| - |t|..] && 0 <= lo
    requires forall i :: lo <= i < |t| ==> IsWhitespace(t[i])
    ensures forall i :: |s| - |t| + lo <= i < |s| ==> IsWhitespace(s[i])
  {
    forall i | |s| - |t| + lo <= i < |s|
      ensures IsWhitespace(s[i])
    {
      assert s[i] == t[i - (|s| - |t|)];
    }
  }

  /** The pieces of `s` joined back with `sep` between them. */
  function Join(parts: seq<string>, sep: char): string {
    if |parts| == 0 then ""
    else if |parts| == 1 then parts[0]
    else parts[0] + [sep] + Join(parts[1..], sep)
  }

  /**
   * `s.split(sep)` for a one-character separator: never empty (the empty
   * string splits to `[""]`), and no piece holds the separator.
   */
  function Split(s: string, sep: char): (parts: seq<string>)
    ensures |parts| >= 1
    decreases |s|
  {
    if s == [] then [""]
    else
      var rest := Split(s[1..], sep);
      if s[0] == sep then [""] + rest
      else [[s[0]] + rest[0]] + rest[1..]
  }

  /** No piece of a split holds the separator. */
  lemma {:induction false} SplitPiecesLackSeparator(s: string, sep: char)
    ensures forall i :: 0 <= i < |Split(s, sep)| ==> sep !in Split(s, sep)[i]
    decreases |s|
  {
    if s != [] {
      SplitPiecesLackSeparator(s[1..], sep);
      var rest := Split(s[1..], sep);
      if s[0] != sep {
        assert forall c :: c in [s[0]] + rest[0] ==> c == s[0] || c in rest[0];
      }
    }
  }

  /** Joining the pieces of a split with the separator gives the string back. */
  lemma {:induction false} SplitJoin(s: string, sep: char)
    ensures Join(Split(s, sep), sep) == s
    decreases |s|
  {
    if s != [] {
      SplitJoin(s[1..], sep);
      var rest := Split(s[1..], sep);
      if s[0] == sep {
        assert ([""] + rest)[1..] == rest;
      } else {
        var parts := [[s[0]] + rest[0]] + rest[1..];
        assert parts[1..] == rest[1..];
        assert |rest| > 1 ==> Join(rest, sep) == rest[0] + [sep] + Join(rest[1..], sep);
        assert [s[0]] + s[1..] == s;
      }
    }
  }

  /** A string with no separator splits into itself alone. */
  lemma {:induction false} SplitWithoutSeparator(s: string, sep: char)
    requires sep !in s
    ensures Split(s, sep) == [s]
    decreases |s|
  {
    if s != [] {
      assert sep !in s[1..];
      SplitWithoutSeparator(s[1..], sep);
      assert [s[0]] + s[1..] == s;
    }
  }

  /**
   * The last piece of a split is a suffix of `s`, preceded by the separator
   * unless it is all of `s`; it is all of `s` exactly when there is one piece.
   */
  lemma {:induction false} LastPieceIsSuffix(s: string, sep: char)
    ensures var parts := Split(s, sep); var last := parts[|parts| - 1];
      && |last| <= |s| && s[|s| - |last|..] == last
      && (|last| < |s| ==> s[|s| - |last| - 1] == sep)
      && (|parts| == 1 <==> last == s)
    decreases |s|
  {
    if s != [] {
      LastPieceIsSuffix(s[1..], sep);
      var rest := Split(s[1..], sep);
      var parts := Split(s, sep);
      var last := parts[|parts| - 1];
      if s[0] == sep {
        assert last == rest[|rest| - 1];
        assert s[|s| - |last|..] == s[1..][|s| - 1 - |last|..];
      } else if |rest| == 1 {
        assert last == [s[0]] + s[1..] == s;
      } else {
        assert last == rest[|rest| - 1];
        assert s[|s| - |last|..] == s[1..][|s| - 1 - |last|..];
      }
    }
  }

  predicate OccursAt(s: string, pat: string, i: int) {
    0 <= i && i + |pat| <= |s| && s[i..i + |pat|] == pat
  }

  function IndexFrom(s: string, pat: string, from: nat): (r: Option<nat>)
    ensures r.Some? ==> from <= r.value && OccursAt(s, pat, r.value)
    ensures r.Some? ==> forall j :: from <= j < r.value ==> !OccursAt(s, pat, j)
    ensures r.None? ==> forall j :: from <= j ==> !OccursAt(s, pat, j)
    decreases |s| - from
  {
    if from + |pat| > |s| then None
    else if s[from..from + |pat|] == pat then Some(from)
    else IndexFrom(s, pat, from + 1)
  }

  /** `s.indexOf(pat)`: the first position where `pat` occurs, if any. */
  function IndexOf(s: string, pat: string): (r: Option<nat>)
    ensures r.Some? ==> OccursAt(s, pat, r.value) && forall j :: 0 <= j < r.value ==> !OccursAt(s, pat, j)
    ensures r.None? ==> forall j :: !OccursAt(s, pat, j)
  {
    IndexFrom(s, pat, 0)
  }

  /** `s.replace(pat, rep)` with a string pattern: only the first occurrence is replaced. */
  function ReplaceFirst(s: string, pat: string, rep: string): (r: string)
    ensures IndexOf(s, pat).None? ==> r == s
    ensures IndexOf(s, pat).Some? ==> |r| == |s| - |pat| + |rep|
    ensures IndexOf(s, pat).Some? ==>
      var i := IndexOf(s, pat).value; r == s[..i] + rep + s[i + |pat|..]
  {
    match IndexOf(s, pat)
    case None => s
    case Some(i) => s[..i] + rep + s[i + |pat|..]
  }

  predicate StartsWith(s: string, prefix: string) {
    |prefix| <= |s| && s[..|prefix|] == prefix
  }

  function LowerChar(c: char): char {
    if 'A' <= c <= 'Z' then (c as int + 32) as char else c
  }

  /** `s.toLowerCase()` on ASCII letters; every other character is kept. */
  function LowerAscii(s: string): (r: string)
    ensures |r| == |s|
  {
    if s == [] then [] else [LowerChar(s[0])] + LowerAscii(s[1..])
  }

  /** Each character of the lower-cased string is the lower-cased character at the same place. */
  lemma {:induction false} LowerAsciiAt(s: string)
    ensures forall i :: 0 <= i < |s| ==> LowerAscii(s)[i] == LowerChar(s[i])
  {
    if s != [] {
      LowerAsciiAt(s[1..]);
      LowerAsciiCons(s);
    }
  }

  /** Lower-casing a non-empty string lower-cases its first character and then the rest. */
  lemma LowerAsciiCons(s: string)
    requires s != []
    ensures LowerAscii(s)[0] == LowerChar(s[0]) && LowerAscii(s)[1..] == LowerAscii(s[1..])
  {
    assert ([LowerChar(s[0])] + LowerAscii(s[1..]))[1..] == LowerAscii(s[1..]);
  }

  /** Lower-casing twice is lower-casing once. */
  lemma LowerAsciiIdempotent(s: string)
    ensures LowerAscii(LowerAscii(s)) == LowerAscii(s)
  {
    var l := LowerAscii(s);
    LowerAsciiAt(s);
    LowerAsciiAt(l);
    assert forall i :: 0 <= i < |l| ==> LowerAscii(l)[i] == l[i];
  }

  /** Past a leading separator the pieces are an empty one and those of the tail. */
  lemma SplitAtSeparator(s: string, sep: char)
    requires s != [] && s[0] == sep
    ensures Split(s, sep) == [""] + Split(s[1..], sep)
  {
  }

  /** A first character that is not the separator joins the first piece of the tail. */
  lemma SplitAtOther(s: string, sep: char)
    requires s != [] && s[0] != sep
    ensures var r := Split(s[1..], sep);
      Split(s, sep) == [[s[0]] + r[0]] + r[1..]
  {
  }

  /** A character lower-cases to a non-letter exactly when it is that non-letter. */
  lemma LowerCharKeepsNonLetter(c: char, sep: char)
    requires !('A' <= sep <= 'Z') && !('a' <= sep <= 'z')
    ensures LowerChar(c) == sep <==> c == sep
  {
  }

  /**
   * Lower-casing does not touch a separator that is not a letter, so the
   * lower-cased string splits into as many pieces, the first of them the
   * lower-cased first piece.
   */
  lemma {:induction false} LowerAsciiSplitFirst(s: string, sep: char)
    requires !('A' <= sep <= 'Z') && !('a' <= sep <= 'z')
    ensures var a, b := Split(s, sep), Split(LowerAscii(s), sep);
      |b| == |a| && b[0] == LowerAscii(a[0])
    decreases |s|
  {
    if s != [] {
      LowerAsciiSplitFirst(s[1..], sep);
      var l := LowerAscii(s);
      LowerAsciiCons(s);
      LowerCharKeepsNonLetter(s[0], sep);
      var ra, rb := Split(s[1..], sep), Split(l[1..], sep);
      if s[0] == sep {
        SplitAtSeparator(s, sep);
        SplitAtSeparator(l, sep);
      } else {
        SplitAtOther(s, sep);
        SplitAtOther(l, sep);
        LowerAsciiCons([s[0]] + ra[0]);
        assert ([s[0]] + ra[0])[1..] == ra[0];
      }
    }
  }

  /** The last pieces of `s` and of its lower-cased form correspond. */
  predicate LastPiecesAgree(s: string, sep: char) {
    var a, b := Split(s, sep), Split(LowerAscii(s), sep);
    |b| == |a| && b[|b| - 1] == LowerAscii(a[|a| - 1])
  }

  /** ... and its last piece is the lower-cased last piece. */
  lemma {:induction false} LowerAsciiSplitLast(s: string, sep: char)
    requires !('A' <= sep <= 'Z') && !('a' <= sep <= 'z')
    ensures LastPiecesAgree(s, sep)
    decreases |s|
  {
    if s != [] {
      if s[0] == sep || |Split(s[1..], sep)| > 1 {
        LowerAsciiSplitLast(s[1..], sep);
        LastPiecesAgreeStep(s, sep);
      } else {
        LowerAsciiSplitFirst(s, sep);
        SplitAtOther(s, sep);
      }
    }
  }

  /** When the last piece lies past the first character, agreement on the tail gives agreement on `s`. */
  lemma LastPiecesAgreeStep(s: string, sep: char)
    requires !('A' <= sep <= 'Z') && !('a' <= sep <= 'z')
    requires s != [] && (s[0] == sep || |Split(s[1..], sep)| > 1)
    requires LastPiecesAgree(s[1..], sep)
    ensures LastPiecesAgree(s, sep)
  {
    var l := LowerAscii(s);
    LowerAsciiCons(s);
    LowerCharKeepsNonLetter(s[0], sep);
    if s[0] == sep {
      SplitAtSeparator(s, sep);
      SplitAtSeparator(l, sep);
    } else {
      SplitAtOther(s, sep);
      SplitAtOther(l, sep);
    }
  }
}
