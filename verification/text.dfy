/** The two string operations the tracker applies to user input:
    `String.prototype.trim` before validation and storage, and `escapeHtml`
    before text is placed inside markup. */
module Text {

  /** The characters ECMAScript's `trim` removes: the WhiteSpace production
      (tab, vertical tab, form feed, space, no-break space, byte order mark
      and the Unicode space separators) and the LineTerminator production. */
  predicate IsWhiteSpace(c: char) {
    || c == '\t' || c == '\U{000B}' || c == '\U{000C}' || c == ' '
    || c == '\U{00A0}' || c == '\U{FEFF}' || c == '\U{1680}'
    || ('\U{2000}' <= c <= '\U{200A}')
    || c == '\U{202F}' || c == '\U{205F}' || c == '\U{3000}'
    || c == '\n' || c == '\r' || c == '\U{2028}' || c == '\U{2029}'
  }

  /** Every character of `s` at positions `lo` up to `hi` is white space. */
  ghost predicate WhiteSpaceBetween(s: string, lo: int, hi: int) {
    forall k :: lo <= k < hi && 0 <= k < |s| ==> IsWhiteSpace(s[k])
  }

  ghost predicate AllWhiteSpace(s: string) {
    WhiteSpaceBetween(s, 0, |s|)
  }

  /** Where the text of `s` starts once leading white space is skipped. */
  function ContentStart(s: string): (n: nat)
    ensures n <= |s| && WhiteSpaceBetween(s, 0, n)
    ensures n < |s| ==> !IsWhiteSpace(s[n])
    decreases |s|
  {
    if s != [] && IsWhiteSpace(s[0]) then
      var m := ContentStart(s[1..]);
      assert forall k :: 1 <= k < 1 + m ==> s[k] == s[1..][k - 1];
      1 + m
    else 0
  }

  /** Where the trailing white space of `s` begins. */
  function ContentEnd(s: string): (n: nat)
    ensures n <= |s| && WhiteSpaceBetween(s, n, |s|)
    ensures n > 0 ==> !IsWhiteSpace(s[n - 1])
    decreases |s|
  {
    if s != [] && IsWhiteSpace(s[|s| - 1]) then
      var init := s[..|s| - 1];
      var m := ContentEnd(init);
      assert forall k :: m <= k < |init| ==> s[k] == init[k];
      m
    else |s|
  }

  /** `String.prototype.trim`: the slice of `s` left once white space is
      removed from both ends. */
  function Trim(s: string): (r: string)
    ensures exists i, j :: 0 <= i <= j <= |s| && r == s[i..j]
                          && WhiteSpaceBetween(s, 0, i) && WhiteSpaceBetween(s, j, |s|)
    ensures r != [] ==> !IsWhiteSpace(r[0]) && !IsWhiteSpace(r[|r| - 1])
  {
    var i, j := ContentStart(s), ContentEnd(s);
    if i < j then
      assert WhiteSpaceBetween(s, 0, i) && WhiteSpaceBetween(s, j, |s|);
      s[i..j]
    else
      assert s[i..i] == [];
      []
  }

  /** A trimmed string is empty exactly when the input is white space only,
      which is when the forms' non-empty checks refuse it. */
  lemma TrimEmpty(s: string)
    ensures Trim(s) == [] <==> AllWhiteSpace(s)
  {
  }

  /** Trimming an already trimmed string changes nothing. */
  lemma TrimIdempotent(s: string)
    ensures Trim(Trim(s)) == Trim(s)
  {
  }

  /** The entity that stands for one character in `escapeHtml`'s output. */
  function EscapeChar(c: char): string {
    if c == '&' then "&amp;"
    else if c == '<' then "&lt;"
    else if c == '>' then "&gt;"
    else [c]
  }

  /** `escapeHtml`: every `&`, `<` and `>` of `s` replaced by its entity,
      every other character kept. */
  function EscapeHtml(s: string): (r: string)
    ensures '<' !in r && '>' !in r
    ensures '&' !in s && '<' !in s && '>' !in s ==> r == s
    ensures |r| >= |s|
    decreases |s|
  {
    if s == [] then [] else EscapeChar(s[0]) + EscapeHtml(s[1..])
  }

  /** One global `String.prototype.replace` of the single character `c` by `rep`. */
  function ReplaceAll(s: string, c: char, rep: string): (r: string)
    ensures c !in s ==> r == s
    decreases |s|
  {
    if s == [] then []
    else (if s[0] == c then rep else [s[0]]) + ReplaceAll(s[1..], c, rep)
  }

  lemma {:induction false} ReplaceAllConcat(a: string, b: string, c: char, rep: string)
    ensures ReplaceAll(a + b, c, rep) == ReplaceAll(a, c, rep) + ReplaceAll(b, c, rep)
    decreases |a|
  {
    if a == [] {
      assert a + b == b;
    } else {
      assert (a + b)[0] == a[0] && (a + b)[1..] == a[1..] + b;
      ReplaceAllConcat(a[1..], b, c, rep);
    }
  }

  /** The escaper as the source writes it: three global replacements in a row,
      `&` first so that the `&` of the later entities is not escaped again. */
  function ChainedReplace(s: string): string {
    ReplaceAll(ReplaceAll(ReplaceAll(s, '&', "&amp;"), '<', "&lt;"), '>', "&gt;")
  }

  lemma ChainedReplaceConcat(a: string, b: string)
    ensures ChainedReplace(a + b) == ChainedReplace(a) + ChainedReplace(b)
  {
    ReplaceAllConcat(a, b, '&', "&amp;");
    var a1, b1 := ReplaceAll(a, '&', "&amp;"), ReplaceAll(b, '&', "&amp;");
    ReplaceAllConcat(a1, b1, '<', "&lt;");
    var a2, b2 := ReplaceAll(a1, '<', "&lt;"), ReplaceAll(b1, '<', "&lt;");
    ReplaceAllConcat(a2, b2, '>', "&gt;");
  }

  lemma ChainedReplaceChar(c: char)
    ensures ChainedReplace([c]) == EscapeChar(c)
  {
  }

  /** The chain of replacements is the per-character escape. */
  lemma {:induction false} ChainedReplaceIsEscape(s: string)
    ensures ChainedReplace(s) == EscapeHtml(s)
    decreases |s|
  {
    if s != [] {
      ChainedReplaceIsEscape(s[1..]);
      assert s == [s[0]] + s[1..];
      ChainedReplaceConcat([s[0]], s[1..]);
      ChainedReplaceChar(s[0]);
    }
  }

  /** Decodes the three entities `EscapeHtml` emits (`&amp;`, `&lt;`,
      `&gt;`), keeping every other character. */
  function Unescape(s: string): string
    decreases |s|
  {
    if s == [] then []
    else if |s| >= 5 && s[..5] == "&amp;" then "&" + Unescape(s[5..])
    else if |s| >= 4 && s[..4] == "&lt;" then "<" + Unescape(s[4..])
    else if |s| >= 4 && s[..4] == "&gt;" then ">" + Unescape(s[4..])
    else [s[0]] + Unescape(s[1..])
  }

  lemma UnescapeEntity(c: char, rest: string)
    ensures Unescape(EscapeChar(c) + rest) == [c] + Unescape(rest)
  {
    var t := EscapeChar(c) + rest;
    if c == '&' {
      assert t[..5] == "&amp;" && t[5..] == rest;
    } else if c == '<' {
      assert |t| >= 5 ==> t[..5] != "&amp;" by { assert t[1] == 'l'; }
      assert t[..4] == "&lt;" && t[4..] == rest;
    } else if c == '>' {
      assert |t| >= 5 ==> t[..5] != "&amp;" by { assert t[1] == 'g'; }
      assert t[..4] != "&lt;" by { assert t[1] == 'g'; }
      assert t[..4] == "&gt;" && t[4..] == rest;
    } else {
      assert t[0] == c && t[1..] == rest;
      assert |t| >= 5 ==> t[..5] != "&amp;";
      assert |t| >= 4 ==> t[..4] != "&lt;" && t[..4] != "&gt;";
    }
  }

  /** Escaping loses nothing: decoding the escaped text gives back the input. */
  lemma {:induction false} UnescapeEscape(s: string)
    ensures Unescape(EscapeHtml(s)) == s
    decreases |s|
  {
    if s != [] {
      UnescapeEscape(s[1..]);
      UnescapeEntity(s[0], EscapeHtml(s[1..]));
      assert s == [s[0]] + s[1..];
    }
  }

  /** Distinct inputs escape to distinct outputs. */
  lemma EscapeInjective(a: string, b: string)
    requires EscapeHtml(a) == EscapeHtml(b)
    ensures a == b
  {
    UnescapeEscape(a);
    UnescapeEscape(b);
  }
}
