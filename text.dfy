/**
 * The JavaScript and Python string primitives the review pipeline relies on,
 * written out as Dafny functions over `seq<char>`: substring search
 * (`indexOf`, `includes`), first-occurrence `replace` with a string pattern,
 * `trim`, `split('\n')`, `join('\n')` and an ASCII `lower()`.
 */
module Text {

  datatype Option<T> = None | Some(value: T)

  /** `pat` occurs in `s` starting at index `k`. */
  predicate IsAt(s: string, pat: string, k: nat) {
    k + |pat| <= |s| && s[k..k + |pat|] == pat
  }

  /** A slice of a slice is a slice of the original. */
  lemma SliceOfSlice(s: string, lo: nat, hi: nat, i: nat, j: nat)
    requires lo <= hi <= |s| && i <= j <= hi - lo
    ensures s[lo..hi][i..j] == s[lo + i..lo + j]
  {
    var u, v := s[lo..hi][i..j], s[lo + i..lo + j];
    assert |u| == |v|;
    assert forall k :: 0 <= k < |u| ==> u[k] == s[lo + i + k] == v[k];
  }

  /** A suffix of a sequence is its first element followed by the rest. */
  lemma SuffixCons<T>(s: seq<T>, i: nat)
    requires i < |s|
    ensures s[i..] == [s[i]] + s[i + 1..]
  {
  }

  /** The prefix of full length is the whole sequence. */
  lemma WholePrefix<T>(s: seq<T>)
    ensures s[..|s|] == s
  {
  }

  /** A suffix of a suffix is a suffix. */
  lemma DropDrop<T>(s: seq<T>, a: nat, n: nat)
    requires a + n <= |s|
    ensures s[a..][n..] == s[a + n..]
  {
  }

  /** A prefix of a suffix is a slice. */
  lemma TakeDrop<T>(s: seq<T>, a: nat, n: nat)
    requires a + n <= |s|
    ensures s[a..][..n] == s[a..a + n]
  {
  }

  /** A sequence is its prefix followed by the suffix from the same point. */
  lemma TakeThenDrop<T>(s: seq<T>, i: nat)
    requires i <= |s|
    ensures s == s[..i] + s[i..]
  {
  }

  /** Regrouping a concatenation of three sequences. */
  lemma Regroup3<T>(a: seq<T>, b: seq<T>, c: seq<T>)
    ensures a + (b + c) == (a + b) + c
  {
  }

  /** Regrouping a concatenation of four strings. */
  lemma Regroup(a: string, b: string, c: string, d: string)
    ensures a + b + c + d == a + (b + c + d)
  {
  }

  /** A slice of a prefix followed by a suffix of `s`, taken inside the suffix, is a slice of `s`. */
  lemma SliceOfAppendDrop(a: string, s: string, lo: nat, i: nat, j: nat)
    requires lo <= |s| && i <= j <= |s| - lo
    ensures (a + s[lo..])[|a| + i..|a| + j] == s[lo + i..lo + j]
  {
    var u, v := (a + s[lo..])[|a| + i..|a| + j], s[lo + i..lo + j];
    assert |u| == |v|;
    assert forall k :: 0 <= k < |u| ==> u[k] == s[lo + i + k] == v[k];
  }

  /** `s.indexOf(pat, from)`: the first index at or after `from` where `pat` occurs. */
  function IndexOf(s: string, pat: string, from: nat): (r: Option<nat>)
    ensures r.Some? ==> from <= r.value && IsAt(s, pat, r.value)
    ensures forall j: nat :: from <= j && (r.None? || j < r.value) ==> !IsAt(s, pat, j)
    decreases |s| - from
  {
    if from + |pat| > |s| then None
    else if IsAt(s, pat, from) then Some(from)
    else IndexOf(s, pat, from + 1)
  }

  /** `s.includes(pat)` (Python: `pat in s`). */
  predicate Contains(s: string, pat: string)
    ensures Contains(s, pat) <==> exists k: nat :: IsAt(s, pat, k)
  {
    IndexOf(s, pat, 0).Some?
  }

  /** An occurrence of `pat` whose position is known pins down `IndexOf`. */
  lemma IndexOfIs(s: string, pat: string, from: nat, k: nat)
    requires from <= k && IsAt(s, pat, k)
    requires forall j: nat :: from <= j < k ==> !IsAt(s, pat, j)
    ensures IndexOf(s, pat, from) == Some(k)
  {
  }

  /**
   * `s.replace(pat, rep)` with a string pattern: only the first occurrence
   * is replaced; without an occurrence `s` is returned unchanged. The
   * replacement is taken literally (JavaScript's `$&`-style patterns in
   * `rep` are not interpreted).
   */
  function ReplaceFirst(s: string, pat: string, rep: string): (r: string)
    ensures !Contains(s, pat) ==> r == s
    ensures Contains(s, pat) ==>
      exists k: nat :: IsAt(s, pat, k) && (forall j: nat :: j < k ==> !IsAt(s, pat, j))
                       && r == s[..k] + rep + s[k + |pat|..]
  {
    match IndexOf(s, pat, 0)
    case None => s
    case Some(k) => s[..k] + rep + s[k + |pat|..]
  }

  /**
   * GetSubstitution of ECMAScript (section 22.1.3.19.1 of ECMA-262) for a
   * string pattern, which has no capture groups: `$$` gives `$`, `$&` the
   * matched text, `` $` `` the text before the match, `$'` the text after
   * it, and every other `$` is kept.
   */
  function Substitute(rep: string, matched: string, before: string, after: string): (r: string)
    ensures '$' !in rep ==> r == rep
  {
    if rep == [] then []
    else if rep[0] == '$' && |rep| >= 2 && rep[1] == '$' then "$" + Substitute(rep[2..], matched, before, after)
    else if rep[0] == '$' && |rep| >= 2 && rep[1] == '&' then matched + Substitute(rep[2..], matched, before, after)
    else if rep[0] == '$' && |rep| >= 2 && rep[1] == '`' then before + Substitute(rep[2..], matched, before, after)
    else if rep[0] == '$' && |rep| >= 2 && rep[1] == '\'' then after + Substitute(rep[2..], matched, before, after)
    else
      assert '$' !in rep ==> '$' !in rep[1..];
      [rep[0]] + Substitute(rep[1..], matched, before, after)
  }

  /**
   * `s.replace(pat, rep)` exactly as JavaScript evaluates it: the first
   * occurrence is replaced by `rep` with its `$` patterns substituted.
   */
  function ReplaceFirstJs(s: string, pat: string, rep: string): (r: string)
    ensures '$' !in rep ==> r == ReplaceFirst(s, pat, rep)
  {
    match IndexOf(s, pat, 0)
    case None => s
    case Some(k) =>
      assert ReplaceFirst(s, pat, rep) == s[..k] + rep + s[k + |pat|..];
      s[..k] + Substitute(rep, pat, s[..k], s[k + |pat|..]) + s[k + |pat|..]
  }

  /**
   * The characters `String.prototype.trim` strips: ECMAScript WhiteSpace
   * (tab, vertical tab, form feed, space, no-break space, byte order mark
   * and the Unicode space separators) and LineTerminator (line feed,
   * carriage return, line and paragraph separator).
   */
  predicate IsWhitespace(c: char) {
    || c == ' ' || '\t' <= c <= '\r' || c == '\U{00A0}' || c == '\U{1680}'
    || '\U{2000}' <= c <= '\U{200A}' || c == '\U{2028}' || c == '\U{2029}'
    || c == '\U{202F}' || c == '\U{205F}' || c == '\U{3000}' || c == '\U{FEFF}'
  }

  predicate AllWhitespace(s: string) {
    forall i :: 0 <= i < |s| ==> IsWhitespace(s[i])
  }

  /** The index of the first non-whitespace character of `s` at or after `i` (or `|s|`). */
  function SkipLeading(s: string, i: nat): (j: nat)
    requires i <= |s|
    ensures i <= j <= |s|
    ensures forall k :: i <= k < j ==> IsWhitespace(s[k])
    ensures j == |s| || !IsWhitespace(s[j])
    decreases |s| - i
  {
    if i < |s| && IsWhitespace(s[i]) then SkipLeading(s, i + 1) else i
  }

  /** The index just after the last non-whitespace character of `s[lo..hi]` (or `lo`). */
  function SkipTrailing(s: string, lo: nat, hi: nat): (j: nat)
    requires lo <= hi <= |s|
    ensures lo <= j <= hi
    ensures forall k :: j <= k < hi ==> IsWhitespace(s[k])
    ensures j == lo || !IsWhitespace(s[j - 1])
  {
    if lo < hi && IsWhitespace(s[hi - 1]) then SkipTrailing(s, lo, hi - 1) else hi
  }

  /**
   * `s.trim()`: the part of `s` between a whitespace prefix and a whitespace
   * suffix, beginning and ending with a non-whitespace character.
   */
  function Trim(s: string): (r: string)
    ensures exists a: nat, b: nat :: a <= b <= |s| && r == s[a..b]
                                     && AllWhitespace(s[..a]) && AllWhitespace(s[b..])
    ensures r == [] || (!IsWhitespace(r[0]) && !IsWhitespace(r[|r| - 1]))
  {
    var a := SkipLeading(s, 0);
    var b := SkipTrailing(s, a, |s|);
    assert AllWhitespace(s[..a]) && AllWhitespace(s[b..]);
    s[a..b]
  }

  /** Trimming a non-blank text padded in front with whitespace gives the text back. */
  lemma TrimPadded(pad: string, x: string)
    requires AllWhitespace(pad) && x != [] && !IsWhitespace(x[0]) && !IsWhitespace(x[|x| - 1])
    ensures Trim(pad + x) == x
  {
    var s := pad + x;
    var a := SkipLeading(s, 0);
    assert s[|pad|] == x[0];
    assert a == |pad|;
    var b := SkipTrailing(s, a, |s|);
    assert s[|s| - 1] == x[|x| - 1];
    assert b == |s|;
    assert s[a..b] == x;
  }

  /** Replacing a pattern that starts the string. */
  lemma {:induction false} ReplaceFirstLeading(s: string, pat: string, rep: string)
    requires IsAt(s, pat, 0)
    ensures ReplaceFirst(s, pat, rep) == rep + s[|pat|..]
  {
    IndexOfIs(s, pat, 0, 0);
    var r := ReplaceFirst(s, pat, rep);
    assert r == s[..0] + rep + s[|pat|..];
    assert s[..0] + rep == rep;
  }

  /** `lines.join('\n')`. */
  function Join(lines: seq<string>): string {
    if |lines| == 0 then ""
    else if |lines| == 1 then lines[0]
    else lines[0] + "\n" + Join(lines[1..])
  }

  /** Joining two non-empty line sequences puts one newline between the two joins. */
  lemma {:induction false} JoinAppend(a: seq<string>, b: seq<string>)
    requires |a| >= 1 && |b| >= 1
    ensures Join(a + b) == Join(a) + "\n" + Join(b)
  {
    if |a| == 1 {
      assert (a + b)[1..] == b;
    } else {
      assert (a + b)[1..] == a[1..] + b;
      JoinAppend(a[1..], b);
    }
  }

  predicate NoNewline(s: string) {
    '\n' !in s
  }

  /** `s.split('\n')`: the maximal newline-free pieces of `s`, in order. */
  function Split(s: string): (lines: seq<string>)
    ensures |lines| >= 1
    ensures forall i :: 0 <= i < |lines| ==> NoNewline(lines[i])
    ensures Join(lines) == s
    decreases |s|
  {
    match IndexOf(s, "\n", 0)
    case None =>
      NewlineFree(s, |s|);
      [s]
    case Some(k) =>
      NewlineFree(s, k);
      var rest := Split(s[k + 1..]);
      SplitStep(s, k, rest);
      [s[..k]] + rest
  }

  /** With no newline occurrence before `k`, the text before `k` is newline-free. */
  lemma NewlineFree(s: string, k: nat)
    requires k <= |s|
    requires forall j: nat :: j < k ==> !IsAt(s, "\n", j)
    ensures NoNewline(s[..k])
  {
    forall j | 0 <= j < k ensures s[..k][j] != '\n' {
      assert s[j..j + 1] == [s[j]];
      assert !IsAt(s, "\n", j);
    }
  }

  /** Joining the line before a newline with the lines after it gives the text back. */
  lemma {:induction false} SplitStep(s: string, k: nat, rest: seq<string>)
    requires IsAt(s, "\n", k) && |rest| >= 1 && Join(rest) == s[k + 1..]
    ensures Join([s[..k]] + rest) == s
  {
    var ls := [s[..k]] + rest;
    assert ls[0] == s[..k] && ls[1..] == rest;
    assert s[k..k + 1] == "\n";
    assert s == s[..k] + "\n" + s[k + 1..] by {
      assert s == s[..k] + s[k..k + 1] + s[k + 1..];
    }
  }

  /** Splitting undoes joining newline-free lines: the two are inverse. */
  lemma {:induction false} SplitJoin(lines: seq<string>)
    requires |lines| >= 1
    requires forall i :: 0 <= i < |lines| ==> NoNewline(lines[i])
    ensures Split(Join(lines)) == lines
  {
    var s := Join(lines);
    if |lines| == 1 {
      forall j: nat ensures !IsAt(s, "\n", j) {
        if j < |s| { assert s[j..j + 1][0] == s[j]; }
      }
    } else {
      var l := lines[0];
      assert s == l + "\n" + Join(lines[1..]);
      assert IsAt(s, "\n", |l|) by { assert s[|l|..|l| + 1] == "\n"; }
      forall j: nat | j < |l| ensures !IsAt(s, "\n", j) {
        assert s[j..j + 1][0] == s[j] == l[j];
      }
      IndexOfIs(s, "\n", 0, |l|);
      assert s[..|l|] == l;
      assert s[|l| + 1..] == Join(lines[1..]);
      SplitJoin(lines[1..]);
    }
  }

  /** `split` distributes over a newline: the lines of `a + "\n" + b` are those of `a` then those of `b`. */
  lemma SplitAround(a: string, b: string)
    ensures Split(a + "\n" + b) == Split(a) + Split(b)
  {
    var la, lb := Split(a), Split(b);
    JoinAppend(la, lb);
    SplitJoin(la + lb);
  }

  /** An occurrence in `a + b` lies in `a`, lies in `b`, or straddles the seam, covering the last of `a` and the first of `b`. */
  lemma IsAtSplit(a: string, b: string, pat: string, k: nat)
    requires IsAt(a + b, pat, k)
    ensures || (k + |pat| <= |a| && IsAt(a, pat, k))
            || (k >= |a| && IsAt(b, pat, k - |a|))
            || (k < |a| < k + |pat| && pat[|a| - 1 - k] == a[|a| - 1] && pat[|a| - k] == b[0])
  {
    var s := a + b;
    if k + |pat| <= |a| {
      assert s[k..k + |pat|] == a[k..k + |pat|];
    } else if k >= |a| {
      assert s[k..k + |pat|] == b[k - |a|..k - |a| + |pat|];
    } else {
      assert s[k..k + |pat|][|a| - 1 - k] == s[|a| - 1];
      assert s[k..k + |pat|][|a| - k] == s[|a|];
    }
  }

  /** An occurrence in `a` is one in `a + b`. */
  lemma IsAtLeft(a: string, b: string, pat: string, k: nat)
    requires IsAt(a, pat, k)
    ensures IsAt(a + b, pat, k)
  {
    assert (a + b)[k..k + |pat|] == a[k..k + |pat|];
  }

  /** An occurrence in `b` is one in `a + b`, shifted by `|a|`. */
  lemma IsAtRight(a: string, b: string, pat: string, k: nat)
    requires IsAt(b, pat, k)
    ensures IsAt(a + b, pat, |a| + k)
  {
    assert (a + b)[|a| + k..|a| + k + |pat|] == b[k..k + |pat|];
  }

  /** Whatever occurs in a part occurs in the concatenation. */
  lemma ContainsPart(a: string, b: string, pat: string)
    ensures Contains(a, pat) || Contains(b, pat) ==> Contains(a + b, pat)
  {
    if Contains(a, pat) {
      var k: nat :| IsAt(a, pat, k);
      IsAtLeft(a, b, pat, k);
    } else if Contains(b, pat) {
      var k: nat :| IsAt(b, pat, k);
      IsAtRight(a, b, pat, k);
    }
  }

  /**
   * When a character at the seam of `a + b` is not in `pat`, `pat` occurs in
   * the concatenation exactly when it occurs in one of the parts.
   */
  lemma ContainsConcat(a: string, b: string, pat: string)
    requires a == [] || b == [] || a[|a| - 1] !in pat || b[0] !in pat
    ensures Contains(a + b, pat) <==> Contains(a, pat) || Contains(b, pat)
  {
    ContainsPart(a, b, pat);
    if Contains(a + b, pat) {
      var k: nat :| IsAt(a + b, pat, k);
      IsAtSplit(a, b, pat, k);
    }
  }

  /**
   * A newline-free pattern occurs in `a + "\n" + b` exactly when it occurs
   * in `a` or in `b`: no occurrence can straddle the newline.
   */
  lemma ContainsAround(a: string, b: string, pat: string)
    requires NoNewline(pat)
    ensures Contains(a + "\n" + b, pat) <==> Contains(a, pat) || Contains(b, pat)
  {
    ContainsConcat(a + "\n", b, pat);
    ContainsConcat(a, "\n", pat);
    if pat == [] {
      assert IsAt(a, pat, 0);
    }
  }

  /** A newline-free pattern occurs in the joined text exactly when it occurs in one of the lines. */
  lemma {:induction false} ContainsJoin(lines: seq<string>, pat: string)
    requires |lines| >= 1
    requires NoNewline(pat)
    ensures Contains(Join(lines), pat) <==> exists i :: 0 <= i < |lines| && Contains(lines[i], pat)
  {
    if |lines| >= 2 {
      ContainsAround(lines[0], Join(lines[1..]), pat);
      ContainsJoin(lines[1..], pat);
      assert forall i :: 1 <= i < |lines| ==> lines[i] == lines[1..][i - 1];
    }
  }

  /** A pattern occurs in the text exactly when it occurs in one of the text's lines. */
  lemma ContainsSplit(s: string, pat: string)
    requires NoNewline(pat)
    ensures Contains(s, pat) <==> exists i :: 0 <= i < |Split(s)| && Contains(Split(s)[i], pat)
  {
    var lines := Split(s);
    ContainsJoin(lines, pat);
    if exists i :: 0 <= i < |lines| && Contains(lines[i], pat) {
      var i :| 0 <= i < |lines| && Contains(lines[i], pat);
      assert 0 <= i < |Split(s)| && Contains(Split(s)[i], pat);
    }
  }

  /** Python's `str.lower()` restricted to ASCII letters. */
  function Lower(s: string): (r: string)
    ensures |r| == |s|
    ensures forall i :: 0 <= i < |s| ==>
      r[i] == (if 'A' <= s[i] <= 'Z' then (s[i] as int + 32) as char else s[i])
  {
    if s == [] then [] else
      [if 'A' <= s[0] <= 'Z' then (s[0] as int + 32) as char else s[0]] + Lower(s[1..])
  }

  /** A lower-case letter occurs lower-cased only where it, or its capital, occurred. */
  lemma LowerAvoids(s: string, c: char, capital: char)
    requires 'A' <= capital <= 'Z' && c == (capital as int + 32) as char && NoneOf(s, [c, capital])
    ensures NoneOf(Lower(s), [c])
  {
  }

  /** Lower-casing twice is lower-casing once. */
  lemma LowerTwice(s: string)
    ensures Lower(Lower(s)) == Lower(s)
  {
    var l := Lower(s);
    assert forall i :: 0 <= i < |l| ==> Lower(l)[i] == l[i];
  }

  /** No ASCII letter in `s`. */
  predicate NoLetter(s: string) {
    forall i :: 0 <= i < |s| ==> !('A' <= s[i] <= 'Z') && !('a' <= s[i] <= 'z')
  }

  /** No ASCII capital in `s`. */
  predicate NoCapital(s: string) {
    forall i :: 0 <= i < |s| ==> !('A' <= s[i] <= 'Z')
  }

  /** A pattern without letters occurs in the lower-cased text exactly where it occurs in the text. */
  lemma LowerKeepsLetterless(s: string, pat: string)
    requires NoLetter(pat)
    ensures Contains(Lower(s), pat) <==> Contains(s, pat)
  {
    forall k: nat ensures IsAt(Lower(s), pat, k) <==> IsAt(s, pat, k) {
      LowerIsAt(s, pat, k);
    }
  }

  /** `LowerKeepsLetterless` at one position. */
  lemma LowerIsAt(s: string, pat: string, k: nat)
    requires NoLetter(pat)
    ensures IsAt(Lower(s), pat, k) <==> IsAt(s, pat, k)
  {
    var l := Lower(s);
    if k + |pat| <= |s| {
      if IsAt(s, pat, k) {
        forall j | 0 <= j < |pat| ensures l[k..k + |pat|][j] == pat[j] {
          assert s[k..k + |pat|][j] == s[k + j];
        }
      }
      if IsAt(l, pat, k) {
        forall j | 0 <= j < |pat| ensures s[k..k + |pat|][j] == pat[j] {
          assert l[k..k + |pat|][j] == l[k + j];
        }
      }
    }
  }

  /** A pattern without capitals that occurs in the text occurs in the lower-cased text, at the same place. */
  lemma LowerKeepsUncapitalized(s: string, pat: string)
    requires NoCapital(pat) && Contains(s, pat)
    ensures Contains(Lower(s), pat)
  {
    var l := Lower(s);
    var k: nat :| IsAt(s, pat, k);
    assert l[k..k + |pat|] == pat by {
      forall j | 0 <= j < |pat| ensures l[k..k + |pat|][j] == pat[j] {
        assert l[k..k + |pat|][j] == l[k + j];
      }
    }
    assert IsAt(l, pat, k);
  }

  /**
   * In `pre + e + tail`, where `e` has no `<` and the first `<` of `tail` is
   * at `k`, the first `<` from where `e` starts is that of `tail`.
   */
  lemma {:induction false} FirstLtAfter(pre: string, e: string, tail: string, k: nat)
    requires '<' !in e
    requires k < |tail| && tail[k] == '<' && '<' !in tail[..k]
    ensures var t := pre + e + tail;
      && t[|pre|..|pre| + |e|] == e
      && IndexOf(t, "<", |pre|) == Some(|pre| + |e| + k)
  {
    var t, start := pre + e + tail, |pre|;
    var at := start + |e| + k;
    forall j: nat | start <= j < at ensures !IsAt(t, "<", j) {
      if j < start + |e| {
        assert t[j] == e[j - start];
      } else {
        assert t[j] == tail[..k][j - start - |e|];
      }
    }
    assert t[at..at + 1] == "<" by { assert t[at] == tail[k]; }
    IndexOfIs(t, "<", start, at);
  }

  /** None of the characters of `s` is one of `cs`. */
  predicate NoneOf(s: string, cs: string) {
    forall i :: 0 <= i < |s| ==> s[i] !in cs
  }

  /** A pattern with a character `s` lacks cannot occur in `s`. */
  lemma NoneOfExcludes(s: string, cs: string, pat: string, i: nat)
    requires NoneOf(s, cs) && i < |pat| && pat[i] in cs
    ensures !Contains(s, pat)
  {
    forall k: nat ensures !IsAt(s, pat, k) {
      if k + |pat| <= |s| { assert s[k..k + |pat|][i] == s[k + i]; }
    }
  }
}
