/**
 * `escapeHtml` of src/extension.js: every `&`, `<`, `>`, `"` and `'` is
 * replaced by its character reference and every other character is copied.
 * `Unescape` decodes exactly those five references and is the inverse.
 */
module Escape {

  /** The five characters `escapeHtml` rewrites. */
  predicate IsSpecial(c: char) {
    c == '&' || c == '<' || c == '>' || c == '"' || c == '\''
  }

  predicate NoSpecial(s: string) {
    forall i :: 0 <= i < |s| ==> !IsSpecial(s[i])
  }

  /** The lookup map of `escapeHtml`, with the identity for every other character. */
  function EscapeChar(c: char): string {
    if c == '&' then "&amp;"
    else if c == '<' then "&lt;"
    else if c == '>' then "&gt;"
    else if c == '"' then "&quot;"
    else if c == '\'' then "&#039;"
    else [c]
  }

  /**
   * `escapeHtml(s)`. The result never holds a raw `<`, `>`, `"` or `'`, so it
   * can neither open a tag nor close an attribute value; it is never shorter
   * than `s`, and as long as `s` only when nothing was rewritten.
   */
  function EscapeHtml(s: string): (r: string)
    ensures forall i :: 0 <= i < |r| ==> r[i] != '<' && r[i] != '>' && r[i] != '"' && r[i] != '\''
    ensures |r| >= |s|
    ensures |r| == |s| <==> NoSpecial(s)
    ensures NoSpecial(s) ==> r == s
    ensures !NoSpecial(s) ==> '&' in r
  {
    if s == [] then [] else
      var rest := EscapeHtml(s[1..]);
      assert NoSpecial(s) <==> !IsSpecial(s[0]) && NoSpecial(s[1..]) by {
        assert forall i :: 1 <= i < |s| ==> s[i] == s[1..][i - 1];
      }
      EscapeChar(s[0]) + rest
  }

  /** Escaping distributes over concatenation. */
  lemma {:induction false} EscapeAppend(a: string, b: string)
    ensures EscapeHtml(a + b) == EscapeHtml(a) + EscapeHtml(b)
  {
    if a == [] {
      assert a + b == b;
    } else {
      assert (a + b)[0] == a[0];
      assert (a + b)[1..] == a[1..] + b;
      EscapeAppend(a[1..], b);
    }
  }

  /** Decodes `&amp;`, `&lt;`, `&gt;`, `&quot;` and `&#039;`; every other character is copied. */
  function Unescape(t: string): string
    decreases |t|
  {
    if t == [] then []
    else if |t| >= 5 && t[..5] == "&amp;" then "&" + Unescape(t[5..])
    else if |t| >= 4 && t[..4] == "&lt;" then "<" + Unescape(t[4..])
    else if |t| >= 4 && t[..4] == "&gt;" then ">" + Unescape(t[4..])
    else if |t| >= 6 && t[..6] == "&quot;" then "\"" + Unescape(t[6..])
    else if |t| >= 6 && t[..6] == "&#039;" then "'" + Unescape(t[6..])
    else [t[0]] + Unescape(t[1..])
  }

  /** Decoding the escaped form of one character gives that character back, whatever follows. */
  lemma {:induction false} UnescapeChar(c: char, rest: string)
    ensures Unescape(EscapeChar(c) + rest) == [c] + Unescape(rest)
  {
    if IsSpecial(c) { UnescapeEntity(c, rest); }
    else {
      assert EscapeChar(c) == [c];
      UnescapeOther(c, rest);
    }
  }

  /** A character other than `&` is decoded as itself. */
  lemma {:induction false} UnescapeOther(c: char, rest: string)
    requires c != '&'
    ensures Unescape([c] + rest) == [c] + Unescape(rest)
  {
    var t := [c] + rest;
    assert t[0] == c && t[1..] == rest;
    assert |t| >= 4 ==> t[..4][0] == c;
    assert |t| >= 5 ==> t[..5][0] == c;
    assert |t| >= 6 ==> t[..6][0] == c;
  }

  /** A character reference is decoded as the character it stands for, whatever follows. */
  lemma UnescapeEntity(c: char, rest: string)
    requires IsSpecial(c)
    ensures Unescape(EscapeChar(c) + rest) == [c] + Unescape(rest)
  {
    var e := EscapeChar(c);
    var t := e + rest;
    assert t[..|e|] == e && t[|e|..] == rest;
    assert t[1] == e[1];
  }

  /** Round trip: decoding the five references undoes `escapeHtml`. */
  lemma {:induction false} UnescapeEscape(s: string)
    ensures Unescape(EscapeHtml(s)) == s
  {
    if s != [] {
      UnescapeChar(s[0], EscapeHtml(s[1..]));
      UnescapeEscape(s[1..]);
      assert [s[0]] + s[1..] == s;
    }
  }

  /** Different texts never escape to the same markup. */
  lemma EscapeInjective(a: string, b: string)
    requires EscapeHtml(a) == EscapeHtml(b)
    ensures a == b
  {
    UnescapeEscape(a);
    UnescapeEscape(b);
  }

  /**
   * `escapeHtml` is not idempotent: escaping already-escaped text changes it
   * again exactly when the original held one of the five characters, because
   * the `&` that starts every reference is escaped once more.
   */
  lemma EscapeTwiceIff(s: string)
    ensures EscapeHtml(EscapeHtml(s)) == EscapeHtml(s) <==> NoSpecial(s)
  {
    var e := EscapeHtml(s);
    if !NoSpecial(s) {
      assert '&' in e;
      var i :| 0 <= i < |e| && e[i] == '&';
      assert !NoSpecial(e) by { assert IsSpecial(e[i]); }
    }
  }

  /** An existing reference is escaped again: `&amp;` becomes `&amp;amp;`. */
  lemma EscapeReescapesEntity()
    ensures EscapeHtml("&amp;") == "&amp;amp;"
  {
    EscapeAppend("&", "amp;");
    assert "&amp;" == "&" + "amp;";
    assert EscapeHtml("&") == "&amp;";
    assert NoSpecial("amp;");
  }
}
