/**
 * `createIssueHtml` of src/extension.js (lines 645-683): one issue of the
 * structured view rendered as an HTML fragment. Fenced code in the
 * description becomes `code-block` elements, the last block's code becomes
 * the payload of a copy button, newlines become `<br>`, and the title (but
 * not the description) is escaped.
 */
module IssueHtml {
  import opened Text
  import opened Escape
  import opened Fences

  /** The three issue types of the view; the source passes them as the strings `ClassName` returns. */
  datatype Kind = Error | Warning | Success {
    /** The `type` string, also the second class of the issue's container. */
    function ClassName(): string {
      match this
      case Error => "error"
      case Warning => "warning"
      case Success => "success"
    }

    /** The word the tag shows: the success kind is labelled as a suggestion. */
    function Label(): string {
      match this
      case Error => "Error"
      case Warning => "Warning"
      case Success => "Suggestion"
    }

    /** The tag shown after the title: `<span class="tag error-tag">Error</span>` and its two siblings. */
    function Tag(): string {
      "<span class=\"tag " + ClassName() + "-tag\">" + Label() + "</span>"
    }
  }

  /** `s.replace(/\n/g, '<br>')`. */
  function NewlinesToBr(s: string): (r: string)
    ensures NoNewline(r)
    ensures NoNewline(s) ==> r == s
    ensures |r| >= |s|
  {
    if s == [] then []
    else
      assert NoNewline(s) ==> NoNewline(s[1..]);
      BrOf(s[0]) + NewlinesToBr(s[1..])
  }

  /** What one character is displayed as. */
  function BrOf(c: char): string {
    if c == '\n' then "<br>" else [c]
  }

  /** The conversion acts on each part of a concatenation separately. */
  lemma {:induction false} NewlinesToBrAppend(a: string, b: string)
    ensures NewlinesToBr(a + b) == NewlinesToBr(a) + NewlinesToBr(b)
  {
    if a == [] {
      assert a + b == b;
    } else {
      var ab := a + b;
      assert ab[0] == a[0] && ab[1..] == a[1..] + b;
      assert NewlinesToBr(ab) == BrOf(a[0]) + NewlinesToBr(a[1..] + b);
      NewlinesToBrAppend(a[1..], b);
      Regroup3(BrOf(a[0]), NewlinesToBr(a[1..]), NewlinesToBr(b));
    }
  }

  /** `lines.join('<br>')`. */
  function JoinBr(lines: seq<string>): string {
    if |lines| == 0 then ""
    else if |lines| == 1 then lines[0]
    else lines[0] + "<br>" + JoinBr(lines[1..])
  }

  /**
   * A description assembled as `lines.join('\n')` from newline-free lines is
   * displayed as those lines separated by `<br>`.
   */
  lemma {:induction false} NewlinesToBrJoin(lines: seq<string>)
    requires forall i :: 0 <= i < |lines| ==> NoNewline(lines[i])
    ensures NewlinesToBr(Join(lines)) == JoinBr(lines)
  {
    if |lines| >= 2 {
      NewlinesToBrAppend(lines[0] + "\n", Join(lines[1..]));
      NewlinesToBrAppend(lines[0], "\n");
      NewlinesToBrJoin(lines[1..]);
      assert NewlinesToBr("\n") == "<br>";
    }
  }

  /** The copy button, its `data-text` the escaped payload. */
  function CopyButton(snippet: string): string {
    "<button class=\"copy-button\" data-text=\"" + EscapeHtml(snippet) + "\">Copy Code</button>"
  }

  /** The actions element: present only for a non-empty payload. */
  function Actions(snippet: string): (r: string)
    ensures r == "" <==> snippet == ""
  {
    if snippet == "" then ""
    else
      var r := "<div class=\"issue-actions\">" + CopyButton(snippet) + "</div>";
      assert r[0] == '<';
      r
  }

  /** The copy button's payload decodes back to the snippet, so the copied code is exact. */
  lemma CopyPayloadDecodes(snippet: string)
    ensures Unescape(EscapeHtml(snippet)) == snippet
    ensures '"' !in EscapeHtml(snippet)
  {
    UnescapeEscape(snippet);
  }

  /** The literal pieces of the fragment's template, between its five slots. */
  const FragmentOpen: string := "\n    <div class=\"issue "
  const HeaderOpen: string := "\">\n        <div class=\"issue-header\">\n            <h3 class=\"issue-title\">"
  const HeaderClose: string :=
    "</h3>\n            <span class=\"expand-icon\">\U{25BC}</span>\n        </div>\n"
    + "        <div class=\"issue-description\">\n            "
  const BetweenSlots: string := "\n            "
  const FragmentClose: string := "\n        </div>\n    </div>\n    "

  /** The fragment's template filled with the escaped title, the displayed description and the actions. */
  function Markup(title: string, kind: Kind, displayed: string, actions: string): string {
    TitleOpen(kind) + EscapeHtml(title) + AfterTitle(kind, displayed, actions)
  }

  /** The template up to the title: the issue's container and the heading's opening tag. */
  function TitleOpen(kind: Kind): string {
    FragmentOpen + kind.ClassName() + HeaderOpen
  }

  /** The template after the title: the tag, the description and the actions. */
  function AfterTitle(kind: Kind, displayed: string, actions: string): string {
    " " + kind.Tag() + HeaderClose + displayed + BetweenSlots + actions + FragmentClose
  }

  /**
   * The fragment `createIssueHtml(title, type, description)` returns: the
   * description with every match rewritten positionally, its newlines
   * turned into `<br>`, and the copy button holding the last match's code.
   */
  function IssueFragment(title: string, kind: Kind, description: string): string {
    var rw := RewriteFences(description);
    Markup(title, kind, NewlinesToBr(rw.text), Actions(rw.snippet))
  }

  /** Each kind's tag names the kind's class, and different kinds get different tags and classes. */
  lemma TagOfKind(k: Kind, other: Kind)
    ensures IsAt(k.Tag(), "<span class=\"tag " + k.ClassName() + "-tag\">", 0)
    ensures k.Tag() == other.Tag() <==> k == other
    ensures k.ClassName() == other.ClassName() <==> k == other
  {
    var lead := "<span class=\"tag " + k.ClassName() + "-tag\">";
    LeadOf(k.Tag(), lead, k.Label() + "</span>");
    if k != other {
      assert |k.Tag()| != |other.Tag()|;
      assert k.ClassName()[0] != other.ClassName()[0];
    }
  }

  /** Every tag is an element, so it starts with `<`. */
  lemma TagLeads(k: Kind)
    ensures |k.Tag()| > 0 && k.Tag()[0] == '<'
  {
  }

  /**
   * The title cannot open an element of its own: it sits escaped right
   * after the heading's opening tag, decodes back to itself, and the first
   * `<` from there on is the one of the kind's tag.
   */
  lemma TitleSealed(title: string, kind: Kind, description: string)
    ensures EscapedBefore(IssueFragment(title, kind, description), |TitleOpen(kind)|, EscapeHtml(title), kind.Tag())
    ensures Unescape(EscapeHtml(title)) == title
  {
    var rw := RewriteFences(description);
    var displayed, actions := NewlinesToBr(rw.text), Actions(rw.snippet);
    var rest := HeaderClose + displayed + BetweenSlots + actions + FragmentClose;
    var f := IssueFragment(title, kind, description);
    assert f == TitleOpen(kind) + EscapeHtml(title) + (" " + kind.Tag() + rest) by {
      assert f == Markup(title, kind, displayed, actions);
      Regroup7(" ", kind.Tag(), HeaderClose, displayed, BetweenSlots, actions, FragmentClose);
    }
    TagLeads(kind);
    SealedBefore(f, TitleOpen(kind), EscapeHtml(title), kind.Tag(), rest);
    UnescapeEscape(title);
  }

  /**
   * In `f`, the text `e` starts at `start` and is followed by one space and
   * the element `tag`, whose `<` is the first one from `start` on.
   */
  predicate EscapedBefore(f: string, start: nat, e: string, tag: string) {
    && start + |e| <= |f|
    && f[start..start + |e|] == e
    && IndexOf(f, "<", start) == Some(start + |e| + 1)
    && IsAt(f, tag, start + |e| + 1)
  }

  /** In `pre + e + " " + tag + rest`, with no `<` in `e`, the first `<` from `e` on opens `tag`. */
  lemma SealedBefore(f: string, pre: string, e: string, tag: string, rest: string)
    requires f == pre + e + (" " + tag + rest)
    requires '<' !in e && |tag| > 0 && tag[0] == '<'
    ensures EscapedBefore(f, |pre|, e, tag)
  {
    var tail := " " + tag + rest;
    SpacedTag(tag, rest);
    FirstLtAfter(pre, e, tail, 1);
    IsAtRight(pre + e, tail, tag, 1);
  }

  /**
   * A description without a triple backtick gets no code block and no copy
   * button: it is displayed as it is, with its newlines as `<br>`, so a
   * one-line description appears in the fragment verbatim.
   */
  lemma DescriptionVerbatim(title: string, kind: Kind, d: string)
    ensures !Contains(d, Fence) ==> IssueFragment(title, kind, d) == Markup(title, kind, NewlinesToBr(d), "")
    ensures !Contains(d, Fence) && NoNewline(d) ==> Contains(IssueFragment(title, kind, d), d)
  {
    if !Contains(d, Fence) {
      assert IssueFragment(title, kind, d) == Markup(title, kind, NewlinesToBr(d), "") by {
        RewriteWithoutFence(d);
      }
      if NoNewline(d) {
        MarkupShowsText(title, kind, d);
      }
    }
  }

  /** Text placed in the description slot is in the fragment. */
  lemma MarkupShowsText(title: string, kind: Kind, d: string)
    ensures Contains(Markup(title, kind, d, ""), d)
  {
    var pre := TitleOpen(kind) + EscapeHtml(title) + (" " + kind.Tag() + HeaderClose);
    var post := BetweenSlots + "" + FragmentClose;
    assert Markup(title, kind, d, "") == pre + d + post by {
      RegroupAround(TitleOpen(kind), EscapeHtml(title), " ", kind.Tag(), HeaderClose, d, BetweenSlots, "", FragmentClose);
    }
    ContainsMiddle(Markup(title, kind, d, ""), pre, d, post);
  }

  /**
   * One iteration of the source's loop, from the state after the text up
   * to `pos` has been rewritten into `done`: replacing the first occurrence
   * of the next match text extends the rewritten prefix by the gap and the
   * code block, and what remains to be rewritten is the rest after the match.
   */
  lemma {:induction false} RewriteStep(s: string, pos: nat, done: string, snippet: string, r: Region)
    requires pos <= |s| && NextRegion(s, pos) == Some(r)
    requires NoFence(done) && (done == [] || done[|done| - 1] != '`')
    ensures var code := Trim(StripFences(s[r.start..r.End()], 0));
      var done' := done + s[pos..r.start] + CodeBlock(code);
      && ReplaceFirst(done + s[pos..], s[r.start..r.End()], CodeBlock(code)) == done' + s[r.End()..]
      && NoFence(done') && done'[|done'| - 1] != '`'
      && done' + RewriteFrom(s, r.End(), code).text == done + RewriteFrom(s, pos, snippet).text
      && RewriteFrom(s, r.End(), code).snippet == RewriteFrom(s, pos, snippet).snippet
  {
    var code := Trim(StripFences(s[r.start..r.End()], 0));
    StripRegion(s, r);
    assert code == Trim(s[r.body..r.close]);
    ReplaceStep(s, pos, done, r, CodeBlock(code));
    StepKeepsPrefix(s, pos, done, r);
    var gap, block, rest := s[pos..r.start], CodeBlock(code), RewriteFrom(s, r.End(), code);
    assert RewriteFrom(s, pos, snippet) == Rewrite(gap + block + rest.text, rest.snippet);
    Regroup(done, gap, block, rest.text);
  }

  /**
   * `createIssueHtml` as the source runs it: rewrite the fenced code, then
   * fill the template. The result is `IssueFragment`.
   */
  method CreateIssueHtml(title: string, kind: Kind, description: string) returns (html: string)
    ensures html == IssueFragment(title, kind, description)
  {
    var desc, codeSnippet := RewriteCode(description);
    html := Markup(title, kind, NewlinesToBr(desc), Actions(codeSnippet));
  }

  /**
   * The first part of `createIssueHtml`: find the matches, then for each
   * one strip its fences, trim, remember it as the snippet and replace the
   * first occurrence of the match text in the description so far. The
   * outcome is the positional rewriting `RewriteFences`.
   */
  method RewriteCode(description: string) returns (desc: string, codeSnippet: string)
    ensures Rewrite(desc, codeSnippet) == RewriteFences(description)
  {
    codeSnippet := "";
    desc := description;
    if Contains(description, "```python") || Contains(description, Fence) {
      var matches := Matches(description);
      if |matches| > 0 {
        desc, codeSnippet := ReplaceMatches(description, matches);
      } else {
        assert NextRegion(description, 0).None?;
        assert description[0..] == description;
      }
    } else {
      RewriteWithoutFence(description);
    }
  }

  /** The source's `for (const match of matches)` loop over the match texts, in order. */
  method ReplaceMatches(description: string, matches: seq<string>) returns (desc: string, codeSnippet: string)
    requires matches == Matches(description)
    ensures Rewrite(desc, codeSnippet) == RewriteFences(description)
  {
    codeSnippet := "";
    desc := description;
    ghost var rs := Regions(description, 0);
    ghost var done: string := "";
    ghost var pos: nat := 0;
    assert description[0..] == description;
    for i := 0 to |matches|
      invariant Progress(description, rs, i, pos, done, desc, codeSnippet)
    {
      var m := matches[i];
      var code := Trim(StripFences(m, 0));
      ghost var r := rs[i];
      ProgressStep(description, rs, i, pos, done, desc, codeSnippet);
      codeSnippet := code;
      desc := ReplaceFirst(desc, m, CodeBlock(code));
      done := done + description[pos..r.start] + CodeBlock(code);
      pos := r.End();
    }
    ProgressDone(description, rs, pos, done, desc, codeSnippet);
  }

  /**
   * The loop's state after `i` matches: the text up to `pos` is rewritten
   * into `done`, the rest of the description is untouched, and the
   * positional rewriting of what remains completes the whole rewriting.
   */
  ghost predicate Progress(s: string, rs: seq<Region>, i: nat, pos: nat, done: string, desc: string, snippet: string) {
    && rs == Regions(s, 0) && i <= |rs| && pos <= |s|
    && Regions(s, pos) == rs[i..]
    && desc == done + s[pos..]
    && NoFence(done) && (done == [] || done[|done| - 1] != '`')
    && done + RewriteFrom(s, pos, snippet).text == RewriteFences(s).text
    && RewriteFrom(s, pos, snippet).snippet == RewriteFences(s).snippet
  }

  /** One iteration of the loop keeps `Progress`. */
  lemma ProgressStep(s: string, rs: seq<Region>, i: nat, pos: nat, done: string, desc: string, snippet: string)
    requires Progress(s, rs, i, pos, done, desc, snippet) && i < |rs|
    ensures var r := rs[i];
      var m := s[r.start..r.End()];
      var code := Trim(StripFences(m, 0));
      && Matches(s)[i] == m
      && Progress(s, rs, i + 1, r.End(), done + s[pos..r.start] + CodeBlock(code), ReplaceFirst(desc, m, CodeBlock(code)), code)
  {
    var r := rs[i];
    SuffixCons(rs, i);
    RegionsCons(s, pos);
    RewriteStep(s, pos, done, snippet, r);
  }

  /** When no match is left, the loop's description and snippet are the rewriting's. */
  lemma ProgressDone(s: string, rs: seq<Region>, pos: nat, done: string, desc: string, snippet: string)
    requires Progress(s, rs, |rs|, pos, done, desc, snippet)
    ensures Rewrite(desc, snippet) == RewriteFences(s)
  {
    assert NextRegion(s, pos).None?;
  }

  // Regrouping and slicing steps the proofs above share.

  /** A string built as a lead and a rest starts with the lead. */
  lemma LeadOf(s: string, lead: string, rest: string)
    requires s == lead + rest
    ensures s[..|lead|] == lead
  {
  }

  /** A tag after one space: the space holds no `<`, and the tag follows it. */
  lemma SpacedTag(tag: string, rest: string)
    requires |tag| > 0 && tag[0] == '<'
    ensures var tail := " " + tag + rest; tail[1] == '<' && '<' !in tail[..1] && IsAt(tail, tag, 1)
  {
    var tail := " " + tag + rest;
    assert tail[..1] == " ";
    assert tail[1..1 + |tag|] == tag;
  }

  lemma RegroupAround(x: string, y: string, a: string, b: string, c: string, d: string, e: string, f: string, g: string)
    ensures x + y + (a + b + c + d + e + f + g) == (x + y + (a + b + c)) + d + (e + f + g)
  {
  }

  lemma Regroup7(a: string, b: string, c: string, d: string, e: string, f: string, g: string)
    ensures a + b + c + d + e + f + g == a + b + (c + d + e + f + g)
  {
  }

  /** A string contains each of the parts it is built from. */
  lemma ContainsMiddle(f: string, pre: string, d: string, post: string)
    requires f == pre + d + post
    ensures Contains(f, d)
  {
    assert IsAt(d, d, 0) by { assert d[0..|d|] == d; }
    IsAtRight(pre, d, d, 0);
    IsAtLeft(pre + d, post, d, |pre|);
  }
}
