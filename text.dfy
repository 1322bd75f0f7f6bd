/**
 * The parts of Python's `str` and `os.path` that the scripts rely on:
 * `strip`, `startswith`, `in` on strings, `split`, `replace` and
 * `os.path.splitext` (POSIX flavour).
 */
module Text {

  /** The characters for which Python's `str.isspace()` holds (what `strip()` removes). */
  predicate IsSpace(c: char) {
    ('\t' <= c <= '\r') || ('\U{001C}' <= c <= ' ') || c == '\U{0085}' || c == '\U{00A0}'
    || c == '\U{1680}' || ('\U{2000}' <= c <= '\U{200A}') || c == '\U{2028}' || c == '\U{2029}'
    || c == '\U{202F}' || c == '\U{205F}' || c == '\U{3000}'
  }

  function TrimStart(s: string): (r: string)
    ensures |r| <= |s| && r == s[|s| - |r|..]
    ensures forall i :: 0 <= i < |s| - |r| ==> IsSpace(s[i])
    ensures r == [] || !IsSpace(r[0])
  {
    if s != [] && IsSpace(s[0]) then TrimStart(s[1..]) else s
  }

  function TrimEnd(s: string): (r: string)
    ensures |r| <= |s| && r == s[..|r|]
    ensures forall i :: |r| <= i < |s| ==> IsSpace(s[i])
    ensures r == [] || !IsSpace(r[|r| - 1])
  {
    if s != [] && IsSpace(s[|s| - 1]) then TrimEnd(s[..|s| - 1]) else s
  }

  /** Python `s.strip()`. */
  function Strip(s: string): string {
    TrimEnd(TrimStart(s))
  }

  /** A string whose first and last characters are not white space is left alone by `strip()`. */
  lemma StripUnchanged(s: string)
    requires s == [] || (!IsSpace(s[0]) && !IsSpace(s[|s| - 1]))
    ensures Strip(s) == s
  {
  }

  /** `r` is `s[a..b]`, every character outside it satisfies `p`, and `r` neither starts nor ends with one that does. */
  predicate TrimmedBy(s: string, r: string, a: int, b: int, p: char -> bool) {
    0 <= a <= b <= |s| && r == s[a..b]
    && (forall i :: 0 <= i < a ==> p(s[i]))
    && (forall i :: b <= i < |s| ==> p(s[i]))
    && (r == [] || (!p(r[0]) && !p(r[|r| - 1])))
  }

  /** `strip()` removes exactly the leading and trailing white space. */
  lemma StripShape(s: string)
    ensures exists a, b :: TrimmedBy(s, Strip(s), a, b, IsSpace)
  {
    var t := TrimStart(s);
    var r := TrimEnd(t);
    var a := |s| - |t|;
    TrimmedOfTrims(s, t, r, a, IsSpace);
    assert TrimmedBy(s, Strip(s), a, a + |r|, IsSpace);
  }

  /** Trimming `p`-characters from the front (giving `t`) and then from the back (giving `r`) leaves `s[a..a + |r|]`. */
  lemma TrimmedOfTrims(s: string, t: string, r: string, a: int, p: char -> bool)
    requires 0 <= a <= |s| && t == s[a..] && |r| <= |t| && r == t[..|r|]
    requires forall i :: 0 <= i < a ==> p(s[i])
    requires t == [] || !p(t[0])
    requires forall j :: |r| <= j < |t| ==> p(t[j])
    requires r == [] || !p(r[|r| - 1])
    ensures TrimmedBy(s, r, a, a + |r|, p)
  {
    forall i | a + |r| <= i < |s|
      ensures p(s[i])
    {
      assert s[i] == t[i - a];
    }
    if r != [] {
      assert r[0] == t[0];
    }
  }

  /** Python `s.startswith(p)`. */
  predicate StartsWith(s: string, p: string) {
    |p| <= |s| && s[..|p|] == p
  }

  /** Python `pat in s` for strings. */
  predicate HasInfix(s: string, pat: string)
    decreases |s|
  {
    StartsWith(s, pat) || (s != [] && HasInfix(s[1..], pat))
  }

  /** Index of the first occurrence of `c`, or -1 (Python `s.find(c)`). */
  function IndexOf(s: string, c: char): (i: int)
    ensures -1 <= i < |s|
    ensures i == -1 <==> c !in s
    ensures 0 <= i ==> s[i] == c && c !in s[..i]
  {
    if s == [] then -1
    else if s[0] == c then 0
    else var j := IndexOf(s[1..], c); if j < 0 then -1 else assert s[..j + 1] == [s[0]] + s[1..][..j]; j + 1
  }
  /** The first occurrence of `c` in `a + [c] + b` when `a` has none. */
  lemma IndexOfFirst(a: string, c: char, b: string)
    requires c !in a
    ensures IndexOf(a + [c] + b, c) == |a|
  {
    var s := a + [c] + b;
    assert s[|a|] == c;
    var i := IndexOf(s, c);
    assert forall j :: 0 <= j < |a| ==> s[j] == a[j];
    assert forall j :: 0 <= j < i ==> s[j] != c by {
      forall j | 0 <= j < i
        ensures s[j] != c
      {
        assert s[j] == s[..i][j];
      }
    }
  }


  /** Index of the last occurrence of `c`, or -1 (Python `s.rfind(c)`). */
  function LastIndexOf(s: string, c: char): (i: int)
    ensures -1 <= i < |s|
    ensures i == -1 <==> c !in s
    ensures 0 <= i ==> s[i] == c && c !in s[i + 1..]
  {
    if s == [] then -1
    else if s[|s| - 1] == c then |s| - 1
    else assert s[..|s| - 1] + [s[|s| - 1]] == s; LastIndexOf(s[..|s| - 1], c)
  }

  /**
   * Python `s.split(sep)` for a one-character separator: the pieces between
   * consecutive separators, including empty ones.
   */
  function Split(s: string, sep: char): (parts: seq<string>)
    ensures |parts| >= 1
    ensures forall k :: 0 <= k < |parts| ==> sep !in parts[k]
    decreases |s|
  {
    if s == [] then [[]]
    else
      var rest := Split(s[1..], sep);
      if s[0] == sep then [[]] + rest else [[s[0]] + rest[0]] + rest[1..]
  }

  /** Python `sep.join(parts)`. */
  function Join(parts: seq<string>, sep: char): string
    requires |parts| >= 1
  {
    if |parts| == 1 then parts[0] else parts[0] + [sep] + Join(parts[1..], sep)
  }

  /** Splitting and joining again gives back the string. */
  lemma {:induction false} JoinSplit(s: string, sep: char)
    ensures Join(Split(s, sep), sep) == s
    decreases |s|
  {
    if s != [] {
      JoinSplit(s[1..], sep);
      var rest := Split(s[1..], sep);
      if s[0] == sep {
        assert Split(s, sep)[1..] == rest;
      } else if |rest| > 1 {
        assert Split(s, sep)[1..] == rest[1..];
      }
    }
  }

  /** A separator splits the string into the pieces of its two sides. */
  lemma {:induction false} SplitAround(a: string, sep: char, b: string)
    ensures Split(a + [sep] + b, sep) == Split(a, sep) + Split(b, sep)
    decreases |a|
  {
    if a == [] {
      assert a + [sep] + b == [sep] + b;
      assert ([sep] + b)[1..] == b;
    } else {
      assert (a + [sep] + b)[1..] == a[1..] + [sep] + b;
      SplitAround(a[1..], sep, b);
    }
  }

  /** A string without the separator is one piece. */
  lemma {:induction false} SplitNoSep(s: string, sep: char)
    requires sep !in s
    ensures Split(s, sep) == [s]
    decreases |s|
  {
    if s != [] {
      SplitNoSep(s[1..], sep);
      assert [s[0]] + s[1..] == s;
    }
  }

  /** Python `s.replace(pat, rep)`: every non-overlapping occurrence, left to right. */
  function ReplaceAll(s: string, pat: string, rep: string): string
    requires pat != []
    decreases |s|
  {
    if |s| < |pat| then s
    else if s[..|pat|] == pat then rep + ReplaceAll(s[|pat|..], pat, rep)
    else [s[0]] + ReplaceAll(s[1..], pat, rep)
  }

  /** A string that does not contain the pattern is left alone by `replace`. */
  lemma {:induction false} ReplaceAbsent(s: string, pat: string, rep: string)
    requires pat != [] && !HasInfix(s, pat)
    ensures ReplaceAll(s, pat, rep) == s
    decreases |s|
  {
    if |s| >= |pat| {
      assert s[..|pat|] != pat;
      ReplaceAbsent(s[1..], pat, rep);
      assert [s[0]] + s[1..] == s;
    }
  }

  /** A pattern found at some index is in the string. */
  lemma {:induction false} HasInfixAt(s: string, pat: string, i: nat)
    requires i + |pat| <= |s| && s[i..i + |pat|] == pat
    ensures HasInfix(s, pat)
    decreases i
  {
    if i > 0 {
      assert s[1..][i - 1..i - 1 + |pat|] == s[i..i + |pat|];
      HasInfixAt(s[1..], pat, i - 1);
    }
  }

  /** Every character of a pattern found in a string occurs in that string. */
  lemma {:induction false} InfixChars(s: string, pat: string, c: char)
    requires HasInfix(s, pat) && c in pat
    ensures c in s
    decreases |s|
  {
    if StartsWith(s, pat) {
      assert forall x :: x in s[..|pat|] ==> x in s;
    } else {
      InfixChars(s[1..], pat, c);
    }
  }

  /** A replacement no longer than the pattern never lengthens the string, and shortens it when the pattern occurs. */
  lemma {:induction false} ReplaceShrinks(s: string, pat: string, rep: string)
    requires pat != [] && |rep| <= |pat|
    ensures |ReplaceAll(s, pat, rep)| <= |s|
    ensures HasInfix(s, pat) ==> |ReplaceAll(s, pat, rep)| <= |s| - |pat| + |rep|
    decreases |s|
  {
    if |s| >= |pat| {
      if s[..|pat|] == pat {
        ReplaceShrinks(s[|pat|..], pat, rep);
      } else {
        ReplaceShrinks(s[1..], pat, rep);
      }
    } else if HasInfix(s, pat) {
      InfixFits(s, pat);
    }
  }

  /** A pattern found in a string is no longer than the string. */
  lemma {:induction false} InfixFits(s: string, pat: string)
    requires HasInfix(s, pat)
    ensures |pat| <= |s|
    decreases |s|
  {
    if !StartsWith(s, pat) {
      InfixFits(s[1..], pat);
    }
  }

  /**
   * Python `os.path.splitext(p)` on POSIX: the extension starts at the last
   * dot of the last path component, unless every character before that dot
   * in the component is a dot; otherwise the extension is empty.
   */
  function SplitExt(p: string): (r: (string, string))
    ensures r.0 + r.1 == p
    ensures r.1 == [] || (r.1[0] == '.' && '.' !in r.1[1..] && '/' !in r.1)
  {
    var sepIndex := LastIndexOf(p, '/');
    var dotIndex := LastIndexOf(p, '.');
    if dotIndex > sepIndex && exists k :: sepIndex + 1 <= k < dotIndex && p[k] != '.' then
      assert p[dotIndex..][1..] == p[dotIndex + 1..];
      (p[..dotIndex], p[dotIndex..])
    else
      (p, [])
  }

  /** `p` has a character other than a dot. */
  predicate NotAllDots(p: string) {
    exists k :: 0 <= k < |p| && p[k] != '.'
  }

  /**
   * `os.path.splitext` of a file name made of a stem that is not all dots
   * and a one-dot extension splits off exactly that extension; a stem may
   * start with a dot (`.hidden.slcio` has stem `.hidden`).
   */
  lemma SplitExtOfName(stem: string, ext: string)
    requires NotAllDots(stem) && '/' !in stem
    requires ext != [] && ext[0] == '.' && '.' !in ext[1..] && '/' !in ext
    ensures SplitExt(stem + ext) == (stem, ext)
  {
    var p := stem + ext;
    assert p[|stem|] == '.';
    assert p[|stem| + 1..] == ext[1..];
    assert LastIndexOf(p, '.') == |stem|;
    assert '/' !in p by {
      forall i | 0 <= i < |p| ensures p[i] != '/' {
        if i < |stem| { assert p[i] == stem[i]; } else { assert p[i] == ext[i - |stem|]; }
      }
    }
    var k :| 0 <= k < |stem| && stem[k] != '.';
    assert p[k] == stem[k];
    assert (stem + ext)[..|stem|] == stem;
  }

  /** No dot of `p` follows a character other than a dot. */
  predicate DotsOnlyLeading(p: string) {
    forall i, j :: 0 <= i < j < |p| && p[j] == '.' ==> p[i] == '.'
  }

  /**
   * A file name whose only dots are leading ones (`.hidden`, `..x`, `name`)
   * has no extension: `os.path.splitext` keeps it whole.
   */
  lemma SplitExtLeadingDots(p: string)
    requires '/' !in p && DotsOnlyLeading(p)
    ensures SplitExt(p) == (p, [])
  {
    var dotIndex := LastIndexOf(p, '.');
    if dotIndex >= 0 {
      assert !exists k :: 0 <= k < dotIndex && p[k] != '.';
    }
  }

  // ---------------------------------------------------------------------
  // repr of a str
  // ---------------------------------------------------------------------

  /** A character `repr` writes as itself, unless it is the quote: printable ASCII other than the backslash. */
  predicate PlainChar(c: char) {
    ' ' <= c <= '~' && c != '\\'
  }

  /** The characters up to U+00FF that `repr` writes as `\xNN`. */
  predicate HexEscaped(c: char) {
    c < ' ' || ('\U{007F}' <= c <= '\U{00A0}') || c == '\U{00AD}'
  }

  function HexDigit(d: nat): (c: char)
    requires d < 16
  {
    "0123456789abcdef"[d]
  }

  /** How `repr` writes one character inside the quote `q`. */
  function EscapeChar(c: char, q: char): (r: string)
    ensures r != []
    ensures PlainChar(c) && c != q ==> r == [c]
  {
    if c == '\\' then "\\\\"
    else if c == q then ['\\', q]
    else if c == '\t' then "\\t"
    else if c == '\n' then "\\n"
    else if c == '\r' then "\\r"
    else if HexEscaped(c) then "\\x" + [HexDigit(c as int / 16), HexDigit(c as int % 16)]
    else [c]
  }

  /** The body of `repr(s)` inside the quote `q`. */
  function Escaped(s: string, q: char): (r: string)
    ensures |r| >= |s|
    decreases |s|
  {
    if s == [] then [] else EscapeChar(s[0], q) + Escaped(s[1..], q)
  }

  /**
   * Python `repr` of a str: single quotes, or double quotes when the text
   * holds a single quote and no double quote; backslashes, the quote and
   * unprintable characters up to U+00FF are escaped.
   */
  function StrRepr(s: string): (r: string)
    ensures |r| >= |s| + 2 && r[0] == r[|r| - 1] && r[0] in "'\""
  {
    var q := if '\'' in s && '"' !in s then '"' else '\'';
    [q] + Escaped(s, q) + [q]
  }

  /** A text of plain characters other than the quote is written as it is. */
  lemma {:induction false} EscapedPlain(s: string, q: char)
    requires forall i :: 0 <= i < |s| ==> PlainChar(s[i]) && s[i] != q
    ensures Escaped(s, q) == s
    decreases |s|
  {
    if s != [] {
      EscapedPlain(s[1..], q);
      assert s == [s[0]] + s[1..];
    }
  }

  /**
   * `repr` of a text of plain characters that does not hold both kinds of
   * quote is the text itself between quotes: double quotes when it holds a
   * single quote, single quotes otherwise.
   */
  lemma ReprOfPlain(s: string)
    requires forall i :: 0 <= i < |s| ==> PlainChar(s[i])
    requires !('\'' in s && '"' in s)
    ensures StrRepr(s) == if '\'' in s then "\"" + s + "\"" else "'" + s + "'"
  {
    var q := if '\'' in s && '"' !in s then '"' else '\'';
    EscapedPlain(s, q);
  }
}
