/**
 * The code-fence handling of `createIssueHtml` (src/extension.js:647-660):
 * the regular expression /```(?:python)?([\s\S]*?)```/g replaced by an
 * explicit scanner, the stripping of the fences from a match, and the
 * left-to-right rewriting of every match into a `code-block` element.
 */
module Fences {
  import opened Text

  const Fence: string := "```"
  const Python: string := "python"

  /** No triple backtick anywhere in `s`. */
  ghost predicate NoFence(s: string) {
    forall j: nat :: !IsAt(s, Fence, j)
  }

  /**
   * One match of the fence expression: the opening fence at `start`, the
   * body from `body` (after the optional `python` tag) up to `close`, where
   * the closing fence begins.
   */
  datatype Region = Region(start: nat, body: nat, close: nat) {
    function End(): nat { close + 3 }
  }

  /** `r` is a match of the fence expression in `s`, its body as short as possible. */
  predicate IsRegion(s: string, r: Region) {
    && IsAt(s, Fence, r.start)
    && r.body == r.start + (if IsAt(s, Python, r.start + 3) then 9 else 3)
    && r.body <= r.close
    && IsAt(s, Fence, r.close)
    && forall j: nat :: r.body <= j < r.close ==> !IsAt(s, Fence, j)
  }

  /** No fence can begin where one of its three characters would be a letter of a `python` tag. */
  lemma NoFenceInsideTag(s: string, t: nat, j: nat)
    requires IsAt(s, Python, t) && t <= j + 2 && j < t + 6
    ensures !IsAt(s, Fence, j)
  {
    var i: nat := if j < t then t - j else 0;
    CharOfOccurrence(s, Python, t, j + i - t);
    if j + 3 <= |s| {
      assert s[j..j + 3][i] == s[j + i];
    }
  }

  /**
   * The attempt of the regular-expression engine that starts at `p`: the
   * optional `python` is tried first and dropped only if no closing fence
   * follows it, and the body is the shortest one that a fence closes.
   */
  function MatchAt(s: string, p: nat): (r: Option<Region>)
    ensures r.Some? <==> IsAt(s, Fence, p) && IndexOf(s, Fence, p + 3).Some?
    ensures r.Some? ==> r.value.start == p && r.value.End() <= |s| && IsRegion(s, r.value)
  {
    if !IsAt(s, Fence, p) then None
    else
      TagFacts(s, p);
      if IsAt(s, Python, p + 3) && IndexOf(s, Fence, p + 9).Some? then
      Some(Region(p, p + 9, IndexOf(s, Fence, p + 9).value))
    else
      match IndexOf(s, Fence, p + 3)
      case None => None
      case Some(q) => Some(Region(p, p + 3, q))
  }

  /**
   * The scanner: the first fence at or after `from` opens a region, a
   * following `python` tag is skipped, and the next fence closes it; with no
   * closing fence there is no region.
   */
  function NextRegion(s: string, from: nat): (r: Option<Region>)
    ensures r.Some? ==> from <= r.value.start && r.value.End() <= |s| && IsRegion(s, r.value)
  {
    match IndexOf(s, Fence, from)
    case None => None
    case Some(p) =>
      var b := if IsAt(s, Python, p + 3) then p + 9 else p + 3;
      match IndexOf(s, Fence, b)
      case None => None
      case Some(q) => Some(Region(p, b, q))
  }

  /**
   * The scanner finds what the global regular expression finds next: the
   * engine's attempt at the region's start succeeds with the same region,
   * and every attempt before it fails; when the scanner finds nothing, every
   * attempt from `from` on fails, so an unpaired fence stays as plain text.
   */
  lemma NextRegionIsLeftmostMatch(s: string, from: nat)
    ensures NextRegion(s, from).Some? ==>
      MatchAt(s, NextRegion(s, from).value.start) == NextRegion(s, from)
    ensures forall p: nat ::
      from <= p && (NextRegion(s, from).None? || p < NextRegion(s, from).value.start) ==> MatchAt(s, p).None?
  {
    NoMatchBeforeFence(s, from);
    match IndexOf(s, Fence, from)
    case None =>
    case Some(p0) =>
      var b := if IsAt(s, Python, p0 + 3) then p0 + 9 else p0 + 3;
      match IndexOf(s, Fence, b)
      case Some(q) =>
        ClosedFenceMatches(s, p0, q);
      case None =>
        UnclosedFenceNeverMatches(s, p0);
  }

  /** No attempt succeeds before the first fence from `from` on, nor anywhere when there is none. */
  lemma NoMatchBeforeFence(s: string, from: nat)
    ensures forall p: nat :: from <= p && (IndexOf(s, Fence, from).None? || p < IndexOf(s, Fence, from).value)
                             ==> MatchAt(s, p).None?
  {
    forall p: nat | from <= p && (IndexOf(s, Fence, from).None? || p < IndexOf(s, Fence, from).value)
      ensures MatchAt(s, p).None?
    {
      assert !IsAt(s, Fence, p);
    }
  }

  /** Searching for a closing fence from a fence's end finds the one after its tag, if it has one. */
  lemma TagFacts(s: string, p: nat)
    ensures IsAt(s, Python, p + 3) ==> IndexOf(s, Fence, p + 3) == IndexOf(s, Fence, p + 9)
  {
    if IsAt(s, Python, p + 3) { TagSkipsNoFence(s, p); }
  }

  /** Inside a tag there is no fence, so searching from the fence's end or from the tag's end agree. */
  lemma TagSkipsNoFence(s: string, p: nat)
    requires IsAt(s, Python, p + 3)
    ensures IndexOf(s, Fence, p + 3) == IndexOf(s, Fence, p + 9)
  {
    forall j: nat | p + 3 <= j < p + 9 ensures !IsAt(s, Fence, j) {
      NoFenceInsideTag(s, p + 3, j);
    }
    match IndexOf(s, Fence, p + 9)
    case None =>
    case Some(q) => IndexOfIs(s, Fence, p + 3, q);
  }

  /** A fence with a closing fence after its (optional) tag is where the engine matches. */
  lemma ClosedFenceMatches(s: string, p: nat, q: nat)
    requires IsAt(s, Fence, p)
    requires IndexOf(s, Fence, if IsAt(s, Python, p + 3) then p + 9 else p + 3) == Some(q)
    ensures MatchAt(s, p) == Some(Region(p, if IsAt(s, Python, p + 3) then p + 9 else p + 3, q))
  {
  }

  /** A fence with no closing fence after its tag leaves no engine match at or after it. */
  lemma UnclosedFenceNeverMatches(s: string, p0: nat)
    requires IsAt(s, Fence, p0)
    requires IndexOf(s, Fence, if IsAt(s, Python, p0 + 3) then p0 + 9 else p0 + 3).None?
    ensures forall p: nat :: p0 <= p ==> MatchAt(s, p).None?
  {
    var tagged := IsAt(s, Python, p0 + 3);
    if tagged { TagSkipsNoFence(s, p0); }
    assert IndexOf(s, Fence, p0 + 3).None?;
    forall p: nat | p0 <= p ensures MatchAt(s, p).None? {
      if tagged && p < p0 + 9 {
        if p0 + 3 <= p + 2 {
          NoFenceInsideTag(s, p0 + 3, p);
        }
      }
      if IsAt(s, Fence, p) {
        assert IndexOf(s, Fence, p + 3).None?;
        assert IndexOf(s, Fence, p + 9).None?;
      }
    }
  }

  /** The regions the global regular expression matches from `from` on, left to right. */
  function Regions(s: string, from: nat): (rs: seq<Region>)
    ensures forall i :: 0 <= i < |rs| ==> from <= rs[i].start && rs[i].End() <= |s| && IsRegion(s, rs[i])
    decreases |s| - from
  {
    match NextRegion(s, from)
    case None => []
    case Some(r) => [r] + Regions(s, r.End())
  }

  /** No attempt of the engine succeeds at a position in `[lo, hi)`. */
  predicate NoMatchIn(s: string, lo: nat, hi: nat) {
    forall p: nat :: lo <= p < hi ==> MatchAt(s, p).None?
  }

  /** No attempt of the engine succeeds at `lo` or after it. */
  ghost predicate NoMatchFrom(s: string, lo: nat) {
    forall p: nat :: lo <= p ==> MatchAt(s, p).None?
  }

  /**
   * `rs` is exactly what the global regular expression matches from `from`
   * on: each region is the engine's match at its start, each starts at or
   * after the end of the one before (they do not overlap), and no attempt
   * succeeds before the first, between two of them, or after the last.
   */
  ghost predicate MatchList(s: string, from: nat, rs: seq<Region>) {
    && (forall i :: 0 <= i < |rs| ==> MatchAt(s, rs[i].start) == Some(rs[i]))
    && (forall i :: 0 < i < |rs| ==> rs[i - 1].End() <= rs[i].start && NoMatchIn(s, rs[i - 1].End(), rs[i].start))
    && (rs == [] ==> NoMatchFrom(s, from))
    && (rs != [] ==> NoMatchIn(s, from, rs[0].start) && NoMatchFrom(s, rs[|rs| - 1].End()))
  }

  /** The regions are exactly the global matches. */
  lemma {:induction false} RegionsAreMatches(s: string, from: nat)
    ensures MatchList(s, from, Regions(s, from))
    decreases |s| - from
  {
    NextRegionIsLeftmostMatch(s, from);
    match NextRegion(s, from)
    case None =>
      assert Regions(s, from) == [];
    case Some(r) =>
      var tl := Regions(s, r.End());
      assert Regions(s, from) == [r] + tl;
      RegionsAreMatches(s, r.End());
      RegionsTail(s, from, r, tl);
  }

  /** A match in front of the matches after it, with none in between, extends the list. */
  lemma {:induction false} RegionsTail(s: string, from: nat, r: Region, tl: seq<Region>)
    requires MatchAt(s, r.start) == Some(r) && NoMatchIn(s, from, r.start)
    requires forall i :: 0 <= i < |tl| ==> r.End() <= tl[i].start
    requires MatchList(s, r.End(), tl)
    ensures MatchList(s, from, [r] + tl)
  {
    var rs := [r] + tl;
    TailStarts(s, r, tl);
    TailGaps(s, r, tl);
    assert NoMatchFrom(s, rs[|rs| - 1].End()) by {
      if tl != [] { assert rs[|rs| - 1] == tl[|tl| - 1]; }
    }
  }

  lemma {:induction false} TailStarts(s: string, r: Region, tl: seq<Region>)
    requires MatchAt(s, r.start) == Some(r)
    requires forall i :: 0 <= i < |tl| ==> MatchAt(s, tl[i].start) == Some(tl[i])
    ensures var rs := [r] + tl; forall i :: 0 <= i < |rs| ==> MatchAt(s, rs[i].start) == Some(rs[i])
  {
    var rs := [r] + tl;
    forall i | 0 < i < |rs| ensures MatchAt(s, rs[i].start) == Some(rs[i]) {
      assert rs[i] == tl[i - 1];
    }
  }

  lemma {:induction false} TailGaps(s: string, r: Region, tl: seq<Region>)
    requires forall i :: 0 <= i < |tl| ==> r.End() <= tl[i].start
    requires forall i :: 0 < i < |tl| ==> tl[i - 1].End() <= tl[i].start && NoMatchIn(s, tl[i - 1].End(), tl[i].start)
    requires tl != [] ==> NoMatchIn(s, r.End(), tl[0].start)
    ensures var rs := [r] + tl;
      forall i :: 0 < i < |rs| ==> rs[i - 1].End() <= rs[i].start && NoMatchIn(s, rs[i - 1].End(), rs[i].start)
  {
    var rs := [r] + tl;
    forall i | 0 < i < |rs| ensures rs[i - 1].End() <= rs[i].start && NoMatchIn(s, rs[i - 1].End(), rs[i].start) {
      assert rs[i] == tl[i - 1];
      if i > 1 { assert rs[i - 1] == tl[i - 2]; }
    }
  }

  /** The first region is the scanner's next one, and the others are those after it. */
  lemma RegionsCons(s: string, from: nat)
    requires Regions(s, from) != []
    ensures NextRegion(s, from) == Some(Regions(s, from)[0])
    ensures Regions(s, Regions(s, from)[0].End()) == Regions(s, from)[1..]
  {
  }

  /** `description.match(/```(?:python)?([\s\S]*?)```/g)`: the matched texts, in order. */
  function Matches(s: string): (ms: seq<string>)
    ensures |ms| == |Regions(s, 0)|
    ensures forall i :: 0 <= i < |ms| ==>
      ms[i] == s[Regions(s, 0)[i].start..Regions(s, 0)[i].End()]
  {
    var rs := Regions(s, 0);
    seq(|rs|, i requires 0 <= i < |rs| => s[rs[i].start..rs[i].End()])
  }

  /** `t.replace(/```(?:python)?|```/g, '')` from index `i` on: every fence, with a following tag, removed. */
  function StripFences(t: string, i: nat): (r: string)
    requires i <= |t|
    ensures |r| <= |t| - i
    decreases |t| - i
  {
    if i == |t| then []
    else if IsAt(t, Fence, i) then StripFences(t, if IsAt(t, Python, i + 3) then i + 9 else i + 3)
    else [t[i]] + StripFences(t, i + 1)
  }

  /** Between `i` and the next fence at `q`, stripping copies the text unchanged. */
  lemma {:induction false} StripFencesCopies(t: string, i: nat, q: nat)
    requires i <= q <= |t|
    requires forall j: nat :: i <= j < q ==> !IsAt(t, Fence, j)
    ensures StripFences(t, i) == t[i..q] + StripFences(t, q)
    decreases q - i
  {
    if i < q {
      var head, mid, rest := [t[i]], t[i + 1..q], StripFences(t, q);
      assert StripFences(t, i) == head + StripFences(t, i + 1) by { StripFencesChar(t, i); }
      assert StripFences(t, i + 1) == mid + rest by { StripFencesCopies(t, i + 1, q); }
      assert head + mid == t[i..q];
      Regroup3(head, mid, rest);
    }
  }

  /** Where no fence starts, stripping copies one character. */
  lemma {:induction false} StripFencesChar(t: string, i: nat)
    requires i < |t| && !IsAt(t, Fence, i)
    ensures StripFences(t, i) == [t[i]] + StripFences(t, i + 1)
  {
  }

  /** Stripping the fences from a match leaves exactly its body. */
  lemma {:induction false} StripRegion(s: string, r: Region)
    requires IsRegion(s, r) && r.End() <= |s|
    ensures StripFences(s[r.start..r.End()], 0) == s[r.body..r.close]
  {
    var t := s[r.start..r.End()];
    var b, q := r.body - r.start, r.close - r.start;
    RegionSlice(s, r);
    StripFencesLead(t, b);
    StripFencesCopies(t, b, q);
    StripFencesTail(t, q);
    assert t[b..q] + [] == t[b..q];
  }

  /** A match cut out of its string, in positions relative to its start. */
  lemma {:induction false} RegionSlice(s: string, r: Region)
    requires IsRegion(s, r) && r.End() <= |s|
    ensures var t, b, q := s[r.start..r.End()], r.body - r.start, r.close - r.start;
      && |t| == q + 3 && b <= q
      && IsAt(t, Fence, 0) && IsAt(t, Fence, q)
      && b == (if IsAt(t, Python, 3) then 9 else 3)
      && (forall j: nat :: b <= j < q ==> !IsAt(t, Fence, j))
      && t[b..q] == s[r.body..r.close]
  {
    var t := s[r.start..r.End()];
    var b, q := r.body - r.start, r.close - r.start;
    IsAtSlice(s, r.start, r.End(), Fence, 0);
    IsAtSlice(s, r.start, r.End(), Fence, q);
    if 9 <= |t| { IsAtSlice(s, r.start, r.End(), Python, 3); }
    assert IsAt(t, Python, 3) <==> b == 9;
    forall j: nat | b <= j < q ensures !IsAt(t, Fence, j) {
      IsAtSlice(s, r.start, r.End(), Fence, j);
    }
    SliceOfSlice(s, r.start, r.End(), b, q);
  }

  /** An opening fence, with its tag if any, is dropped. */
  lemma {:induction false} StripFencesLead(t: string, b: nat)
    requires IsAt(t, Fence, 0) && b == (if IsAt(t, Python, 3) then 9 else 3) && b <= |t|
    ensures StripFences(t, 0) == StripFences(t, b)
  {
  }

  /** A closing fence that ends the string is dropped. */
  lemma {:induction false} StripFencesTail(t: string, q: nat)
    requires |t| == q + 3 && IsAt(t, Fence, q)
    ensures StripFences(t, q) == []
  {
    assert !IsAt(t, Python, q + 3);
  }

  const CodeBlockOpen: string := "<div class=\"code-block\">"
  const CodeBlockClose: string := "</div>"

  /** The element a fenced region is replaced by. */
  function CodeBlock(code: string): string {
    CodeBlockOpen + code + CodeBlockClose
  }

  /** The rewritten description and the copy-button payload. */
  datatype Rewrite = Rewrite(text: string, snippet: string)

  /**
   * Rewriting from `from` on, with `snippet` the payload so far: each region
   * is replaced in place by a code block holding its trimmed body, which
   * also becomes the payload; text outside the regions is kept.
   */
  function RewriteFrom(s: string, from: nat, snippet: string): Rewrite
    requires from <= |s|
    decreases |s| - from
  {
    match NextRegion(s, from)
    case None => Rewrite(s[from..], snippet)
    case Some(r) =>
      var code := Trim(s[r.body..r.close]);
      var rest := RewriteFrom(s, r.End(), code);
      Rewrite(s[from..r.start] + CodeBlock(code) + rest.text, rest.snippet)
  }

  /** The fence rewriting of a whole description, starting with no payload. */
  function RewriteFences(s: string): (r: Rewrite)
    ensures var rs := Regions(s, 0);
      r.snippet == if rs == [] then "" else Trim(s[rs[|rs| - 1].body..rs[|rs| - 1].close])
    ensures Regions(s, 0) == [] ==> r.text == s
  {
    SnippetIsLastMatch(s, 0, "");
    assert s[0..] == s;
    RewriteFrom(s, 0, "")
  }

  /** A description without a triple backtick is left alone and yields no payload. */
  lemma RewriteWithoutFence(s: string)
    requires !Contains(s, Fence)
    ensures RewriteFences(s) == Rewrite(s, "")
  {
    assert s[0..] == s;
  }

  /** The payload is the trimmed body of the last match, or empty when nothing matched. */
  lemma {:induction false} SnippetIsLastMatch(s: string, from: nat, snippet: string)
    requires from <= |s|
    ensures var rs := Regions(s, from);
      RewriteFrom(s, from, snippet).snippet
        == if rs == [] then snippet else Trim(s[rs[|rs| - 1].body..rs[|rs| - 1].close])
    decreases |s| - from
  {
    match NextRegion(s, from)
    case None =>
    case Some(r) =>
      SnippetIsLastMatch(s, r.End(), Trim(s[r.body..r.close]));
  }

  /** Splitting a fence-free string leaves fence-free pieces. */
  lemma NoFenceSlice(s: string, lo: nat, hi: nat)
    requires NoFence(s) && lo <= hi <= |s|
    ensures NoFence(s[lo..hi])
  {
    forall j: nat ensures !IsAt(s[lo..hi], Fence, j) {
      if j + 3 <= hi - lo {
        IsAtSlice(s, lo, hi, Fence, j);
      }
    }
  }

  /** Two fence-free strings joined where they do not both have a backtick stay fence-free. */
  lemma NoFenceAppend(x: string, y: string)
    requires NoFence(x) && NoFence(y)
    requires x == [] || y == [] || x[|x| - 1] != '`' || y[0] != '`'
    ensures NoFence(x + y)
  {
    var s := x + y;
    forall j: nat ensures !IsAt(s, Fence, j) {
      if j + 3 <= |s| {
        if j + 3 <= |x| {
          assert s[j..j + 3] == x[j..j + 3];
          assert !IsAt(x, Fence, j);
        } else if j >= |x| {
          assert s[j..j + 3] == y[j - |x|..j - |x| + 3];
          assert !IsAt(y, Fence, j - |x|);
        } else {
          assert s[j..j + 3][|x| - 1 - j] == x[|x| - 1];
          assert s[j..j + 3][|x| - j] == y[0];
        }
      }
    }
  }

  /** The text before a region, from `from` on, holds no fence. */
  lemma GapHasNoFence(s: string, from: nat, r: Region)
    requires NextRegion(s, from) == Some(r)
    ensures NoFence(s[from..r.start])
  {
    assert IndexOf(s, Fence, from) == Some(r.start);
    forall j: nat ensures !IsAt(s[from..r.start], Fence, j) {
      if j + 3 <= r.start - from {
        IsAtSlice(s, from, r.start, Fence, j);
      }
    }
  }

  /** A string without a backtick has no fence. */
  lemma NoBacktickNoFence(s: string)
    requires '`' !in s
    ensures NoFence(s)
  {
    forall j: nat ensures !IsAt(s, Fence, j) {
      if j + 3 <= |s| {
        assert s[j..j + 3][0] == s[j];
      }
    }
  }

  /** A code block built from a region's trimmed body holds no fence and ends in `>`. */
  lemma CodeBlockHasNoFence(s: string, r: Region)
    requires IsRegion(s, r) && r.End() <= |s|
    ensures NoFence(CodeBlock(Trim(s[r.body..r.close])))
    ensures CodeBlock(Trim(s[r.body..r.close]))[|CodeBlock(Trim(s[r.body..r.close]))| - 1] == '>'
  {
    var body := s[r.body..r.close];
    forall j: nat ensures !IsAt(body, Fence, j) {
      if j + 3 <= |body| {
        IsAtSlice(s, r.body, r.close, Fence, j);
      }
    }
    var code := Trim(body);
    var a: nat, b: nat :| a <= b <= |body| && code == body[a..b];
    NoFenceSlice(body, a, b);
    NoBacktickNoFence(CodeBlockOpen);
    NoBacktickNoFence(CodeBlockClose);
    NoFenceAppend(CodeBlockOpen, code);
    NoFenceAppend(CodeBlockOpen + code, CodeBlockClose);
  }

  /**
   * With `done` fence-free and not ending in a backtick, and no fence in `s`
   * between `from` and `start`, no fence begins in `done + s[from..]` before
   * the position that `start` has moved to.
   */
  lemma NoFenceBefore(done: string, s: string, from: nat, start: nat)
    requires NoFence(done) && (done == [] || done[|done| - 1] != '`')
    requires from <= start <= |s|
    requires forall j: nat :: from <= j < start ==> !IsAt(s, Fence, j)
    ensures forall j: nat :: j < |done| + start - from ==> !IsAt(done + s[from..], Fence, j)
  {
    var d := done + s[from..];
    forall j: nat | j < |done| + start - from ensures !IsAt(d, Fence, j) {
      if j + 3 <= |d| {
        if j + 3 <= |done| {
          assert d[j..j + 3] == done[j..j + 3];
          assert !IsAt(done, Fence, j);
        } else if j < |done| {
          assert d[j..j + 3][|done| - 1 - j] == done[|done| - 1];
        } else {
          var j' := j - |done| + from;
          assert d[j..j + 3] == s[j'..j' + 3];
          assert !IsAt(s, Fence, j');
        }
      }
    }
  }

  /**
   * With `done` the already rewritten prefix (fence-free, not ending in a
   * backtick) and the rest of the description still original, the first
   * occurrence of the next match text is the region itself.
   */
  lemma {:induction false} MatchTextFirstAt(s: string, from: nat, done: string, start: nat, end: nat)
    requires from <= start && start + 3 <= end <= |s|
    requires IsAt(s, Fence, start)
    requires forall j: nat :: from <= j < start ==> !IsAt(s, Fence, j)
    requires NoFence(done) && (done == [] || done[|done| - 1] != '`')
    ensures IndexOf(done + s[from..], s[start..end], 0) == Some(|done| + start - from)
  {
    var d, m := done + s[from..], s[start..end];
    var i: nat, j: nat := start - from, end - from;
    assert IsAt(d, m, |done| + i) by {
      SliceOfAppendDrop(done, s, from, i, j);
    }
    assert m[0] == '`' && m[1] == '`' && m[2] == '`' by {
      CharOfOccurrence(s, Fence, start, 0);
      CharOfOccurrence(s, Fence, start, 1);
      CharOfOccurrence(s, Fence, start, 2);
    }
    NoFenceBefore(done, s, from, start);
    FenceLedFirstAt(d, m, |done| + i);
  }

  /**
   * A pattern that starts with a fence first occurs at `idx` when it occurs
   * there and no fence begins before.
   */
  lemma {:induction false} FenceLedFirstAt(d: string, m: string, idx: nat)
    requires |m| >= 3 && m[0] == '`' && m[1] == '`' && m[2] == '`'
    requires IsAt(d, m, idx)
    requires forall j: nat :: j < idx ==> !IsAt(d, Fence, j)
    ensures IndexOf(d, m, 0) == Some(idx)
  {
    forall j: nat | j < idx ensures !IsAt(d, m, j) {
      if j + |m| <= |d| {
        assert !IsAt(d, Fence, j);
        assert d[j..j + |m|][..3] == d[j..j + 3];
        assert m[..3] == Fence;
      }
    }
    IndexOfIs(d, m, 0, idx);
  }

  /**
   * One step of the source's loop: replacing the first occurrence of the
   * next match text rewrites exactly that region.
   */
  lemma ReplaceStep(s: string, from: nat, done: string, r: Region, rep: string)
    requires from <= |s| && NextRegion(s, from) == Some(r)
    requires NoFence(done) && (done == [] || done[|done| - 1] != '`')
    ensures ReplaceFirst(done + s[from..], s[r.start..r.End()], rep)
            == done + s[from..r.start] + rep + s[r.End()..]
  {
    var d := done + s[from..];
    var idx := |done| + r.start - from;
    assert IndexOf(s, Fence, from) == Some(r.start);
    MatchTextFirstAt(s, from, done, r.start, r.End());
    var m := s[r.start..r.End()];
    ReplaceFirstAt(d, m, rep, idx);
    AppendDropParts(done, s, from, r.start, r.End());
    assert idx + |m| == |done| + r.start - from + (r.End() - r.start);
    assert d[..idx] == done + s[from..r.start];
    assert d[idx + |m|..] == s[r.End()..];
  }

  /** After a step the rewritten prefix is still fence-free and ends in `>`. */
  lemma StepKeepsPrefix(s: string, from: nat, done: string, r: Region)
    requires from <= |s| && NextRegion(s, from) == Some(r)
    requires NoFence(done) && (done == [] || done[|done| - 1] != '`')
    ensures var done' := done + s[from..r.start] + CodeBlock(Trim(s[r.body..r.close]));
      NoFence(done') && done'[|done'| - 1] == '>'
  {
    var gap := s[from..r.start];
    var block := CodeBlock(Trim(s[r.body..r.close]));
    GapHasNoFence(s, from, r);
    CodeBlockHasNoFence(s, r);
    NoFenceAppend(done, gap);
    assert block[0] == '<';
    NoFenceAppend(done + gap, block);
  }

  // Slicing steps the proofs above share.

  /** An occurrence inside a slice is an occurrence in the whole string, shifted. */
  lemma IsAtSlice(s: string, lo: nat, hi: nat, pat: string, j: nat)
    requires lo <= hi <= |s| && j + |pat| <= hi - lo
    ensures IsAt(s[lo..hi], pat, j) <==> IsAt(s, pat, lo + j)
  {
    SliceOfSlice(s, lo, hi, j, j + |pat|);
  }

  /** The characters of an occurrence are those of the pattern. */
  lemma CharOfOccurrence(s: string, pat: string, k: nat, i: nat)
    requires IsAt(s, pat, k) && i < |pat|
    ensures s[k + i] == pat[i]
  {
    assert s[k..k + |pat|][i] == s[k + i];
  }

  /** Replacing a pattern whose first occurrence is at `k`. */
  lemma ReplaceFirstAt(d: string, pat: string, rep: string, k: nat)
    requires IndexOf(d, pat, 0) == Some(k)
    ensures ReplaceFirst(d, pat, rep) == d[..k] + rep + d[k + |pat|..]
  {
  }

  /** Cutting `done + s[from..]` at positions of `s` gives pieces of `done` and `s`. */
  lemma AppendDropParts(done: string, s: string, from: nat, start: nat, end: nat)
    requires from <= start <= end <= |s|
    ensures (done + s[from..])[..|done| + start - from] == done + s[from..start]
    ensures (done + s[from..])[|done| + start - from + (end - start)..] == s[end..]
  {
  }
}
