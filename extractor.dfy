/**
 * `processReviewContent` of src/extension.js (lines 567-636): the review
 * text is split into lines; a line holding one of the four markers starts
 * an issue, and the lines after it, up to the next marker line, form its
 * description. Without any marker the whole text is one piece of general
 * feedback.
 *
 * The specification reads the lines in two stages: each line is first
 * classified (`Classify`: a plain line, or a marker line with its type and
 * title), and the issues are then cut from the classified lines (`Issues`).
 */
module Extractor {
  import opened Text
  import opened IssueHtml

  /** `line.includes('Issue:') || line.includes('Warning:') || line.includes('Error:') || line.includes('Suggestion:')`. */
  predicate HasMarker(s: string) {
    Contains(s, "Issue:") || Contains(s, "Warning:") || Contains(s, "Error:") || Contains(s, "Suggestion:")
  }

  /** The type of a marker line: `Error:` wins over `Warning:`, which wins over the other two. */
  function LineKind(line: string): (k: Kind)
    ensures k == Error <==> Contains(line, "Error:")
    ensures k == Warning <==> !Contains(line, "Error:") && Contains(line, "Warning:")
    ensures k == Success <==> !Contains(line, "Error:") && !Contains(line, "Warning:")
  {
    if Contains(line, "Error:") then Error
    else if Contains(line, "Warning:") then Warning
    else Success
  }

  /**
   * The title of a marker line: the first occurrence of the marker that
   * decided its type removed (for a suggestion, first `Issue:` and then
   * `Suggestion:`), then trimmed.
   */
  function Title(line: string): (t: string)
    ensures t == [] || (!IsWhitespace(t[0]) && !IsWhitespace(t[|t| - 1]))
  {
    match LineKind(line)
    case Error => Trim(ReplaceFirst(line, "Error:", ""))
    case Warning => Trim(ReplaceFirst(line, "Warning:", ""))
    case Success => Trim(ReplaceFirst(ReplaceFirst(line, "Issue:", ""), "Suggestion:", ""))
  }

  /** A line as the scan sees it: plain text, or a marker line with its type and title. */
  datatype Line = Plain(text: string) | Marker(kind: Kind, title: string)

  /** How the scan classifies one line. */
  function Classify(line: string): Line {
    if HasMarker(line) then Marker(LineKind(line), Title(line)) else Plain(line)
  }

  /** Every line classified. */
  function ClassifyAll(lines: seq<string>): (ls: seq<Line>)
    ensures |ls| == |lines|
    ensures forall i :: 0 <= i < |lines| ==> ls[i] == Classify(lines[i])
  {
    seq(|lines|, i requires 0 <= i < |lines| => Classify(lines[i]))
  }

  /** One extracted issue, as handed to `createIssueHtml`. */
  datatype Issue = Issue(title: string, kind: Kind, description: string)

  /** The extraction result: the issues and the three counters of the summary bar. */
  datatype Summary = Summary(issues: seq<Issue>, errors: nat, warnings: nat, successes: nat) {
    /** `totalIssues`. */
    function Total(): nat { errors + warnings + successes }
  }

  /** The length of the longest prefix of plain lines. */
  function PlainRun(ls: seq<Line>): (n: nat)
    ensures n <= |ls|
    ensures forall j :: 0 <= j < n ==> ls[j].Plain?
    ensures n < |ls| ==> ls[n].Marker?
  {
    if ls == [] || ls[0].Marker? then 0 else 1 + PlainRun(ls[1..])
  }

  /** The texts of the plain lines, in order. */
  function Texts(ls: seq<Line>): seq<string> {
    if ls == [] then []
    else (if ls[0].Plain? then [ls[0].text] else []) + Texts(ls[1..])
  }

  /** The issue a marker line and the plain lines after it give: none when the title is empty. */
  function Block(kind: Kind, title: string, body: seq<Line>): seq<Issue> {
    if title == "" then [] else [Issue(title, kind, Join(Texts(body)))]
  }

  /**
   * The issues of a structured review, defined block by block: plain lines
   * before the first marker line are dropped, and every marker line with
   * the plain lines after it forms one block.
   */
  function Issues(ls: seq<Line>): seq<Issue>
    decreases |ls|
  {
    if ls == [] then []
    else match ls[0]
      case Plain(_) => Issues(ls[1..])
      case Marker(k, t) =>
        var n := PlainRun(ls[1..]);
        Block(k, t, ls[1..][..n]) + Issues(ls[1..][n..])
  }

  /** The number of marker lines of type `k`. */
  function CountOf(ls: seq<Line>, k: Kind): nat {
    if ls == [] then 0
    else (if ls[0].Marker? && ls[0].kind == k then 1 else 0) + CountOf(ls[1..], k)
  }

  /** The number of marker lines. */
  function MarkerLines(ls: seq<Line>): nat {
    if ls == [] then 0
    else (if ls[0].Marker? then 1 else 0) + MarkerLines(ls[1..])
  }

  /** The number of marker lines whose title is not empty. */
  function TitledLines(ls: seq<Line>): nat {
    if ls == [] then 0
    else (if ls[0].Marker? && ls[0].title != "" then 1 else 0) + TitledLines(ls[1..])
  }

  /** What `processReviewContent` extracts from a review. */
  function Extract(content: string): Summary {
    if HasMarker(content) then
      var ls := ClassifyAll(Split(content));
      Summary(Issues(ls), CountOf(ls, Error), CountOf(ls, Warning), CountOf(ls, Success))
    else
      Summary([Issue("General Feedback", Success, content)], 0, 0, 1)
  }

  /** The structured view's markup: the fragments of the issues, in order. */
  function Render(issues: seq<Issue>): string {
    if issues == [] then ""
    else
      var last := issues[|issues| - 1];
      Render(issues[..|issues| - 1]) + IssueFragment(last.title, last.kind, last.description)
  }

  /** The object `processReviewContent` returns. */
  datatype Processed = Processed(html: string, totalIssues: nat, errorCount: nat, warningCount: nat, successCount: nat)

  /**
   * The issues still to come when `cur` is the current title (empty when
   * there is none), `desc` its description lines so far and `rest` the
   * lines not yet read.
   */
  function Pending(cur: string, kind: Kind, desc: seq<string>, rest: seq<Line>): seq<Issue> {
    if cur == "" then Issues(rest)
    else
      var n := PlainRun(rest);
      [Issue(cur, kind, Join(desc + Texts(rest[..n])))] + Issues(rest[n..])
  }

  /** Plain lines where no issue is open are dropped: the lines before the first marker line, say. */
  lemma {:induction false} IssuesSkipsPlain(ls: seq<Line>, n: nat)
    requires n <= |ls|
    requires forall j :: 0 <= j < n ==> ls[j].Plain?
    ensures Issues(ls) == Issues(ls[n..])
    decreases n
  {
    if n == 0 {
      assert ls[0..] == ls;
    } else {
      IssuesSkipsPlain(ls[1..], n - 1);
      assert ls[1..][n - 1..] == ls[n..];
    }
  }

  /** The issues from a marker line on: its block, then the issues after the block. */
  lemma {:induction false} IssuesCons(x: Line, rest: seq<Line>)
    requires x.Marker?
    ensures Issues([x] + rest) == Block(x.kind, x.title, rest[..PlainRun(rest)]) + Issues(rest[PlainRun(rest)..])
  {
    var ls := [x] + rest;
    assert ls[0] == x && ls[1..] == rest;
  }

  /** The issues from a marker line on are those of the issue it opens, with no description lines yet. */
  lemma {:induction false} PendingOpen(x: Line, rest: seq<Line>)
    requires x.Marker?
    ensures Pending(x.title, x.kind, [], rest) == Issues([x] + rest)
  {
    var n := PlainRun(rest);
    IssuesCons(x, rest);
    if x.title == "" {
      IssuesSkipsPlain(rest, n);
    } else {
      assert [] + Texts(rest[..n]) == Texts(rest[..n]);
    }
  }

  /** Reading a marker line closes the current issue and opens one for the line. */
  lemma {:induction false} PendingMarker(cur: string, kind: Kind, desc: seq<string>, x: Line, rest: seq<Line>)
    requires x.Marker?
    ensures Pending(cur, kind, desc, [x] + rest)
            == (if cur != "" then [Issue(cur, kind, Join(desc))] else [])
               + Pending(x.title, x.kind, [], rest)
  {
    var ls := [x] + rest;
    PendingOpen(x, rest);
    if cur != "" {
      assert ls[0] == x;
      assert PlainRun(ls) == 0;
      assert ls[..0] == [] && ls[0..] == ls;
      assert desc + Texts([]) == desc;
    }
  }

  /** Reading a plain line adds its text to the current description, if there is a current issue. */
  lemma {:induction false} PendingPlain(cur: string, kind: Kind, desc: seq<string>, line: string, rest: seq<Line>)
    ensures Pending(cur, kind, desc, [Plain(line)] + rest)
            == Pending(cur, kind, if cur != "" then desc + [line] else desc, rest)
  {
    var ls := [Plain(line)] + rest;
    assert ls[0] == Plain(line) && ls[1..] == rest;
    if cur != "" {
      var n := PlainRun(rest);
      PlainCons(line, rest, n);
      Regroup3(desc, [line], Texts(rest[..n]));
    }
  }

  /** A plain line in front lengthens the run of plain lines by one, and its text comes first. */
  lemma {:induction false} PlainCons(line: string, rest: seq<Line>, n: nat)
    requires n == PlainRun(rest)
    ensures var ls := [Plain(line)] + rest;
      && PlainRun(ls) == n + 1
      && Texts(ls[..n + 1]) == [line] + Texts(rest[..n])
      && ls[n + 1..] == rest[n..]
  {
    var ls := [Plain(line)] + rest;
    assert ls[0] == Plain(line) && ls[1..] == rest;
    var body := ls[..n + 1];
    assert body[0] == Plain(line) && body[1..] == rest[..n];
  }

  /** Counting one more line adds one to the counter of its type, if it is a marker line. */
  lemma {:induction false} CountSnoc(ls: seq<Line>, x: Line, k: Kind)
    ensures CountOf(ls + [x], k) == CountOf(ls, k) + (if x.Marker? && x.kind == k then 1 else 0)
  {
    if ls == [] {
      assert ls + [x] == [x];
    } else {
      assert (ls + [x])[0] == ls[0] && (ls + [x])[1..] == ls[1..] + [x];
      CountSnoc(ls[1..], x, k);
    }
  }

  /** The counter of a type after the first `i + 1` lines. */
  lemma CountStep(ls: seq<Line>, i: nat, k: Kind)
    requires i < |ls|
    ensures CountOf(ls[..i + 1], k) == CountOf(ls[..i], k) + (if ls[i].Marker? && ls[i].kind == k then 1 else 0)
  {
    assert ls[..i + 1] == ls[..i] + [ls[i]];
    CountSnoc(ls[..i], ls[i], k);
  }

  /** Appending an issue appends its fragment. */
  lemma {:induction false} RenderSnoc(issues: seq<Issue>, x: Issue)
    ensures Render(issues + [x]) == Render(issues) + IssueFragment(x.title, x.kind, x.description)
  {
    assert (issues + [x])[..|issues|] == issues;
  }

  /** The markup of two runs of issues is the markup of each, in order. */
  lemma {:induction false} RenderAppend(a: seq<Issue>, b: seq<Issue>)
    ensures Render(a + b) == Render(a) + Render(b)
    decreases |b|
  {
    if b == [] {
      assert a + b == a;
    } else {
      var init, x := b[..|b| - 1], b[|b| - 1];
      assert b == init + [x];
      assert a + b == (a + init) + [x];
      RenderSnoc(a + init, x);
      RenderSnoc(init, x);
      RenderAppend(a, init);
      Regroup3(Render(a), Render(init), IssueFragment(x.title, x.kind, x.description));
    }
  }

  /** The loop's invariant survives a marker line. */
  lemma {:induction false} MarkerStep(emitted: seq<Issue>, cur: string, kind: Kind, desc: seq<string>,
                                      x: Line, rest: seq<Line>)
    requires x.Marker?
    ensures emitted + Pending(cur, kind, desc, [x] + rest)
            == (if cur != "" then emitted + [Issue(cur, kind, Join(desc))] else emitted)
               + Pending(x.title, x.kind, [], rest)
  {
    PendingMarker(cur, kind, desc, x, rest);
    var closed: seq<Issue> := if cur != "" then [Issue(cur, kind, Join(desc))] else [];
    var p := Pending(x.title, x.kind, [], rest);
    Regroup3(emitted, closed, p);
    if cur == "" {
      assert emitted + closed == emitted;
    }
  }

  /**
   * The title is the line with the first occurrence of its type's marker cut
   * out, then trimmed; every other character of the line, other markers
   * included, stays. A suggestion line loses its first `Issue:`, if any,
   * and then the first `Suggestion:` of what remains, if any.
   */
  lemma {:induction false} TitleByKind(line: string)
    ensures LineKind(line) == Error ==>
      IndexOf(line, "Error:", 0).Some? &&
      var k := IndexOf(line, "Error:", 0).value; Title(line) == Trim(line[..k] + line[k + 6..])
    ensures LineKind(line) == Warning ==>
      IndexOf(line, "Warning:", 0).Some? &&
      var k := IndexOf(line, "Warning:", 0).value; Title(line) == Trim(line[..k] + line[k + 8..])
    ensures LineKind(line) == Success && IndexOf(line, "Issue:", 0).None? ==>
      Title(line) == Trim(Cut(line, IndexOf(line, "Suggestion:", 0), 11))
    ensures LineKind(line) == Success && IndexOf(line, "Issue:", 0).Some? ==>
      var k := IndexOf(line, "Issue:", 0).value;
      var u := line[..k] + line[k + 6..];
      Title(line) == Trim(Cut(u, IndexOf(u, "Suggestion:", 0), 11))
  {
    match LineKind(line) {
      case Error => ReplaceFirstCut(line, "Error:");
      case Warning => ReplaceFirstCut(line, "Warning:");
      case Success =>
        ReplaceFirstCut(line, "Issue:");
        ReplaceFirstCut(ReplaceFirst(line, "Issue:", ""), "Suggestion:");
    }
  }

  /** `s` with the `n` characters at `at` cut out, or `s` when `at` is `None`. */
  function Cut(s: string, at: Option<nat>, n: nat): string
    requires at.Some? ==> at.value + n <= |s|
  {
    match at
    case None => s
    case Some(k) => s[..k] + s[k + n..]
  }

  /** Replacing with nothing cuts out the first occurrence. */
  lemma ReplaceFirstCut(s: string, pat: string)
    ensures ReplaceFirst(s, pat, "") == Cut(s, IndexOf(s, pat, 0), |pat|)
    ensures Contains(s, pat) <==> IndexOf(s, pat, 0).Some?
  {
    match IndexOf(s, pat, 0)
    case None =>
    case Some(k) => assert s[..k] + "" + s[k + |pat|..] == s[..k] + s[k + |pat|..];
  }

  /** The loop's invariant survives the end of the input. */
  lemma {:induction false} FinalStep(emitted: seq<Issue>, cur: string, kind: Kind, desc: seq<string>, rest: seq<Line>)
    requires |rest| == 0
    ensures emitted + Pending(cur, kind, desc, rest)
            == if cur != "" then emitted + [Issue(cur, kind, Join(desc))] else emitted
  {
    assert rest == [];
    var e: seq<Line> := [];
    assert e[..0] == [] && e[0..] == [] && desc + Texts([]) == desc;
    if cur == "" {
      assert emitted + [] == emitted;
    }
  }

  /** A single issue renders as its fragment. */
  lemma {:induction false} RenderSingle(x: Issue)
    ensures Render([x]) == IssueFragment(x.title, x.kind, x.description)
  {
    assert [x][..0] == [];
  }

  /**
   * The structured branch of `processReviewContent` (the loop over the
   * lines): it keeps the current title, type and description, emits the
   * previous issue's fragment at every marker line and counts the marker
   * lines by type.
   */
  method ScanLines(lines: seq<string>) returns (html: string, errorCount: nat, warningCount: nat, successCount: nat)
    ensures html == Render(Issues(ClassifyAll(lines)))
    ensures errorCount == CountOf(ClassifyAll(lines), Error)
    ensures warningCount == CountOf(ClassifyAll(lines), Warning)
    ensures successCount == CountOf(ClassifyAll(lines), Success)
  {
    ghost var ls := ClassifyAll(lines);
    html := "";
    errorCount, warningCount, successCount := 0, 0, 0;
    var currentIssue := "";
    var currentType := Success;
    var currentDescription: seq<string> := [];
    ghost var emitted: seq<Issue> := [];
    for i := 0 to |lines|
      invariant emitted + Pending(currentIssue, currentType, currentDescription, ls[i..]) == Issues(ls)
      invariant html == Render(emitted)
      invariant errorCount == CountOf(ls[..i], Error)
      invariant warningCount == CountOf(ls[..i], Warning)
      invariant successCount == CountOf(ls[..i], Success)
    {
      var line := lines[i];
      SuffixCons(ls, i);
      CountStep(ls, i, Error);
      CountStep(ls, i, Warning);
      CountStep(ls, i, Success);
      if HasMarker(line) {
        MarkerStep(emitted, currentIssue, currentType, currentDescription, ls[i], ls[i + 1..]);
        TitleByKind(line);
        if currentIssue != "" {
          var fragment := CreateIssueHtml(currentIssue, currentType, Join(currentDescription));
          RenderSnoc(emitted, Issue(currentIssue, currentType, Join(currentDescription)));
          html := html + fragment;
          emitted := emitted + [Issue(currentIssue, currentType, Join(currentDescription))];
        }
        if Contains(line, "Error:") {
          currentType := Error;
          errorCount := errorCount + 1;
          currentIssue := Trim(ReplaceFirst(line, "Error:", ""));
        } else if Contains(line, "Warning:") {
          currentType := Warning;
          warningCount := warningCount + 1;
          currentIssue := Trim(ReplaceFirst(line, "Warning:", ""));
        } else {
          currentType := Success;
          successCount := successCount + 1;
          currentIssue := Trim(ReplaceFirst(ReplaceFirst(line, "Issue:", ""), "Suggestion:", ""));
        }
        currentDescription := [];
      } else {
        PendingPlain(currentIssue, currentType, currentDescription, line, ls[i + 1..]);
        if currentIssue != "" {
          currentDescription := currentDescription + [line];
        }
      }
    }
    WholePrefix(ls);
    FinalStep(emitted, currentIssue, currentType, currentDescription, ls[|lines|..]);
    if currentIssue != "" {
      var fragment := CreateIssueHtml(currentIssue, currentType, Join(currentDescription));
      RenderSnoc(emitted, Issue(currentIssue, currentType, Join(currentDescription)));
      html := html + fragment;
      emitted := emitted + [Issue(currentIssue, currentType, Join(currentDescription))];
    }
  }

  /**
   * `processReviewContent`: a review with a marker is scanned line by line,
   * any other review becomes one piece of general feedback; the total is
   * the sum of the three counters. The result is the extraction `Extract`
   * rendered.
   */
  method ProcessReviewContent(content: string) returns (r: Processed)
    ensures var x := Extract(content);
      r == Processed(Render(x.issues), x.Total(), x.errors, x.warnings, x.successes)
  {
    var lines := Split(content);
    var html := "";
    var errorCount, warningCount, successCount := 0, 0, 0;
    if HasMarker(content) {
      html, errorCount, warningCount, successCount := ScanLines(lines);
    } else {
      successCount := 1;
      html := CreateIssueHtml("General Feedback", Success, content);
      RenderSingle(Issue("General Feedback", Success, content));
    }
    r := Processed(html, errorCount + warningCount + successCount, errorCount, warningCount, successCount);
  }

  /** A run of plain lines stops where a marker line begins. */
  lemma {:induction false} PlainRunAppend(a: seq<Line>, b: seq<Line>)
    requires b == [] || b[0].Marker?
    ensures PlainRun(a + b) == PlainRun(a)
  {
    if a == [] {
      assert a + b == b;
    } else if a[0].Plain? {
      assert (a + b)[0] == a[0] && (a + b)[1..] == a[1..] + b;
      PlainRunAppend(a[1..], b);
    } else {
      assert (a + b)[0] == a[0];
    }
  }

  /**
   * Cutting the lines just before a marker line cuts the issues: the issues
   * of the lines before the cut, then those of the lines from it.
   */
  lemma {:induction false} IssuesAppendAtMarker(a: seq<Line>, b: seq<Line>)
    requires b == [] || b[0].Marker?
    ensures Issues(a + b) == Issues(a) + Issues(b)
    decreases |a|
  {
    if a == [] {
      assert a + b == b;
    } else if a[0].Plain? {
      assert (a + b)[0] == a[0] && (a + b)[1..] == a[1..] + b;
      IssuesAppendAtMarker(a[1..], b);
    } else {
      var ab := a + b;
      assert ab[0] == a[0] && ab[1..] == a[1..] + b;
      PlainRunAppend(a[1..], b);
      var n := PlainRun(a[1..]);
      assert ab[1..][..n] == a[1..][..n];
      assert ab[1..][n..] == a[1..][n..] + b;
      IssuesAppendAtMarker(a[1..][n..], b);
      Regroup3(Block(a[0].kind, a[0].title, a[1..][..n]), Issues(a[1..][n..]), Issues(b));
    }
  }

  /** The texts of plain lines are those lines' texts, one for one and in order. */
  lemma {:induction false} TextsOfPlain(ls: seq<Line>)
    requires forall j :: 0 <= j < |ls| ==> ls[j].Plain?
    ensures |Texts(ls)| == |ls|
    ensures forall j :: 0 <= j < |ls| ==> Texts(ls)[j] == ls[j].text
  {
    if ls != [] {
      TextsOfPlain(ls[1..]);
      assert Texts(ls) == [ls[0].text] + Texts(ls[1..]);
    }
  }

  /**
   * The issue of a marker line: the issues of the lines before it come
   * first; then, unless its title is empty, the issue it opens, whose
   * description is the texts of exactly the plain lines up to the next
   * marker line (or the end), in order, joined with newlines; then the
   * issues of the lines after those.
   */
  lemma {:induction false} IssueOfMarkerLine(ls: seq<Line>, i: nat)
    requires i < |ls| && ls[i].Marker?
    ensures var e := i + 1 + PlainRun(ls[i + 1..]);
      && e <= |ls|
      && (forall j :: i < j < e ==> ls[j].Plain?)
      && (e == |ls| || ls[e].Marker?)
      && Issues(ls) == Issues(ls[..i]) + Block(ls[i].kind, ls[i].title, ls[i + 1..e]) + Issues(ls[e..])
  {
    var e := i + 1 + PlainRun(ls[i + 1..]);
    PlainRunBounds(ls, i);
    IssuesAtMarker(ls, i);
  }

  /** The plain lines after line `i` reach up to the next marker line or the end. */
  lemma {:induction false} PlainRunBounds(ls: seq<Line>, i: nat)
    requires i < |ls|
    ensures var e := i + 1 + PlainRun(ls[i + 1..]);
      && e <= |ls|
      && (forall j :: i < j < e ==> ls[j].Plain?)
      && (e == |ls| || ls[e].Marker?)
  {
    var rest := ls[i + 1..];
    var n := PlainRun(rest);
    forall j | i < j < i + 1 + n ensures ls[j].Plain? {
      assert ls[j] == rest[j - i - 1];
    }
    if i + 1 + n < |ls| {
      assert ls[i + 1 + n] == rest[n];
    }
  }

  /** The issues around a marker line, in terms of its block. */
  lemma {:induction false} IssuesAtMarker(ls: seq<Line>, i: nat)
    requires i < |ls| && ls[i].Marker?
    ensures var e := i + 1 + PlainRun(ls[i + 1..]);
      e <= |ls| && Issues(ls) == Issues(ls[..i]) + Block(ls[i].kind, ls[i].title, ls[i + 1..e]) + Issues(ls[e..])
  {
    var e := i + 1 + PlainRun(ls[i + 1..]);
    IssuesSplitAt(ls, i);
    IssuesFromMarker(ls, i);
    Regroup3(Issues(ls[..i]), Block(ls[i].kind, ls[i].title, ls[i + 1..e]), Issues(ls[e..]));
  }

  /** Cutting the lines just before a marker line. */
  lemma {:induction false} IssuesSplitAt(ls: seq<Line>, i: nat)
    requires i < |ls| && ls[i].Marker?
    ensures Issues(ls) == Issues(ls[..i]) + Issues(ls[i..])
  {
    TakeThenDrop(ls, i);
    IssuesAppendAtMarker(ls[..i], ls[i..]);
  }

  /** The issues from a marker line on, in terms of positions in the whole sequence. */
  lemma {:induction false} IssuesFromMarker(ls: seq<Line>, i: nat)
    requires i < |ls| && ls[i].Marker?
    ensures var e := i + 1 + PlainRun(ls[i + 1..]);
      e <= |ls| && Issues(ls[i..]) == Block(ls[i].kind, ls[i].title, ls[i + 1..e]) + Issues(ls[e..])
  {
    var tail, rest := ls[i..], ls[i + 1..];
    var n := PlainRun(rest);
    assert tail[1..] == rest by { DropDrop(ls, i, 1); }
    IssuesAtHead(tail);
    assert rest[..n] == ls[i + 1..i + 1 + n] by { TakeDrop(ls, i + 1, n); }
    assert rest[n..] == ls[i + 1 + n..] by { DropDrop(ls, i + 1, n); }
  }

  /** The definition of `Issues` on lines that start with a marker line. */
  lemma {:induction false} IssuesAtHead(t: seq<Line>)
    requires t != [] && t[0].Marker?
    ensures var n := PlainRun(t[1..]);
      Issues(t) == Block(t[0].kind, t[0].title, t[1..][..n]) + Issues(t[1..][n..])
  {
  }

  /** Every marker line bumps exactly one of the three counters, so their sum is the number of marker lines. */
  lemma {:induction false} CountsSum(ls: seq<Line>)
    ensures CountOf(ls, Error) + CountOf(ls, Warning) + CountOf(ls, Success) == MarkerLines(ls)
  {
    if ls != [] {
      CountsSum(ls[1..]);
    }
  }

  /** Plain lines add no titled marker line. */
  lemma {:induction false} TitledSkipsPlain(ls: seq<Line>, n: nat)
    requires n <= |ls|
    requires forall j :: 0 <= j < n ==> ls[j].Plain?
    ensures TitledLines(ls) == TitledLines(ls[n..])
    decreases n
  {
    if n == 0 {
      assert ls[0..] == ls;
    } else {
      TitledSkipsPlain(ls[1..], n - 1);
      assert ls[1..][n - 1..] == ls[n..];
    }
  }

  /** One issue is emitted per marker line with a non-empty title, and none for the others. */
  lemma {:induction false} IssuesCount(ls: seq<Line>)
    ensures |Issues(ls)| == TitledLines(ls)
    decreases |ls|
  {
    if ls != [] {
      if ls[0].Plain? {
        IssuesCount(ls[1..]);
      } else {
        var n := PlainRun(ls[1..]);
        TitledSkipsPlain(ls[1..], n);
        IssuesCount(ls[1..][n..]);
      }
    }
  }

  /** Titled marker lines are marker lines. */
  lemma {:induction false} TitledAtMost(ls: seq<Line>)
    ensures TitledLines(ls) <= MarkerLines(ls)
  {
    if ls != [] {
      TitledAtMost(ls[1..]);
    }
  }

  /** A marker line is counted. */
  lemma {:induction false} MarkerLineCounted(ls: seq<Line>, i: nat)
    requires i < |ls| && ls[i].Marker?
    ensures MarkerLines(ls) >= 1
  {
    if i > 0 {
      assert ls[1..][i - 1] == ls[i];
      MarkerLineCounted(ls[1..], i - 1);
    }
  }

  /**
   * The test on the whole content agrees with a test line by line: no
   * marker holds a newline, so none can straddle two lines.
   */
  lemma {:induction false} MarkerInSomeLine(content: string)
    ensures HasMarker(content) <==> exists i :: 0 <= i < |Split(content)| && HasMarker(Split(content)[i])
  {
    var lines := Split(content);
    ContainsSplit(content, "Issue:");
    ContainsSplit(content, "Warning:");
    ContainsSplit(content, "Error:");
    ContainsSplit(content, "Suggestion:");
    if exists i :: 0 <= i < |lines| && HasMarker(lines[i]) {
      var i :| 0 <= i < |lines| && HasMarker(lines[i]);
      assert Contains(lines[i], "Issue:") || Contains(lines[i], "Warning:")
          || Contains(lines[i], "Error:") || Contains(lines[i], "Suggestion:");
    }
  }

  /**
   * The summary's invariants: without a marker the review is one piece of
   * general feedback counted as one suggestion; with one, the total is the
   * number of marker lines and the issues are those with a non-empty title.
   * Either way the total is at least one, and there are never more issues
   * than the total.
   */
  lemma {:induction false} ExtractSummary(content: string)
    ensures var x := Extract(content);
      && (!HasMarker(content) ==>
            x.issues == [Issue("General Feedback", Success, content)]
            && x.errors == 0 && x.warnings == 0 && x.successes == 1)
      && (HasMarker(content) ==>
            var ls := ClassifyAll(Split(content));
            x.Total() == MarkerLines(ls) && |x.issues| == TitledLines(ls))
      && x.Total() >= 1
      && |x.issues| <= x.Total()
  {
    if HasMarker(content) {
      var lines := Split(content);
      var ls := ClassifyAll(lines);
      CountsSum(ls);
      IssuesCount(ls);
      TitledAtMost(ls);
      MarkerInSomeLine(content);
      var i :| 0 <= i < |lines| && HasMarker(lines[i]);
      assert ls[i].Marker?;
      MarkerLineCounted(ls, i);
    }
  }

  /** Plain lines count nothing. */
  lemma {:induction false} CountPlain(ls: seq<Line>, k: Kind)
    requires forall j :: 0 <= j < |ls| ==> ls[j].Plain?
    ensures CountOf(ls, k) == 0
  {
    if ls != [] {
      CountPlain(ls[1..], k);
    }
  }

  /** With a single marker line, only its own type is counted, once. */
  lemma {:induction false} CountSingle(ls: seq<Line>, i: nat, k: Kind)
    requires i < |ls| && ls[i].Marker?
    requires forall j :: 0 <= j < |ls| && j != i ==> ls[j].Plain?
    ensures CountOf(ls, k) == if ls[i].kind == k then 1 else 0
  {
    if i == 0 {
      CountPlain(ls[1..], k);
    } else {
      CountSingle(ls[1..], i - 1, k);
    }
  }

  /** Two marker lines make a total of at least two. */
  lemma {:induction false} MarkerLinesTwo(ls: seq<Line>, i: nat, j: nat)
    requires i < j < |ls| && ls[i].Marker? && ls[j].Marker?
    ensures MarkerLines(ls) >= 2
  {
    if i == 0 {
      MarkerLineCounted(ls[1..], j - 1);
    } else {
      MarkerLinesTwo(ls[1..], i - 1, j - 1);
    }
  }

  /** Classifying commutes with dropping lines. */
  lemma ClassifyAllDrop(lines: seq<string>, n: nat)
    requires n <= |lines|
    ensures ClassifyAll(lines)[n..] == ClassifyAll(lines[n..])
  {
  }

  /** Lines without a marker are read back as themselves. */
  lemma {:induction false} TextsOfUnmarked(lines: seq<string>)
    requires forall j :: 0 <= j < |lines| ==> !HasMarker(lines[j])
    ensures Texts(ClassifyAll(lines)) == lines
  {
    var ls := ClassifyAll(lines);
    TextsOfPlain(ls);
  }

  /** With a single marker line, the issues are that line's block, running to the end. */
  lemma {:induction false} IssuesOneMarker(ls: seq<Line>, i: nat)
    requires i < |ls| && ls[i].Marker?
    requires forall j :: 0 <= j < |ls| && j != i ==> ls[j].Plain?
    ensures Issues(ls) == Block(ls[i].kind, ls[i].title, ls[i + 1..])
  {
    IssueOfMarkerLine(ls, i);
    var e := i + 1 + PlainRun(ls[i + 1..]);
    assert e == |ls|;
    var before := ls[..i];
    assert Issues(before) == [] by {
      assert forall j :: 0 <= j < i ==> before[j].Plain?;
      IssuesSkipsPlain(before, i);
      assert before[i..] == [];
    }
    assert Issues(ls[e..]) == [] by { assert ls[e..] == []; }
    assert ls[i + 1..e] == ls[i + 1..];
  }

  /**
   * The summary of a review whose only marker line has type `k` and title
   * `t` and is followed by the lines `after`: counted once under `k`, and
   * one issue (unless the title is empty) whose description is all of `after`.
   */
  function Single(k: Kind, t: string, after: seq<string>): Summary {
    Summary(if t == "" then [] else [Issue(t, k, Join(after))],
            if k == Error then 1 else 0, if k == Warning then 1 else 0, if k == Success then 1 else 0)
  }

  /** A review with exactly one marker line, the `i`-th, is summarized by `Single`. */
  lemma {:induction false} ExtractOneMarker(content: string, i: nat)
    requires i < |Split(content)| && HasMarker(Split(content)[i])
    requires forall j :: 0 <= j < |Split(content)| && j != i ==> !HasMarker(Split(content)[j])
    ensures Extract(content) == Single(LineKind(Split(content)[i]), Title(Split(content)[i]), Split(content)[i + 1..])
  {
    var lines := Split(content);
    var ls := ClassifyAll(lines);
    assert Extract(content) == Summary(Issues(ls), CountOf(ls, Error), CountOf(ls, Warning), CountOf(ls, Success)) by {
      MarkerInSomeLine(content);
      assert HasMarker(lines[i]);
    }
    SingleOfLines(lines, i);
  }

  /** The structured branch of the extraction, on lines with a single marker line. */
  lemma {:induction false} SingleOfLines(lines: seq<string>, i: nat)
    requires i < |lines| && HasMarker(lines[i])
    requires forall j :: 0 <= j < |lines| && j != i ==> !HasMarker(lines[j])
    ensures var ls := ClassifyAll(lines);
      Summary(Issues(ls), CountOf(ls, Error), CountOf(ls, Warning), CountOf(ls, Success))
        == Single(LineKind(lines[i]), Title(lines[i]), lines[i + 1..])
  {
    var ls := ClassifyAll(lines);
    OnlyMarkerLine(lines, i);
    TextsAfter(lines, i);
    SingleOfMarked(ls, i, lines[i + 1..]);
  }

  /** Classifying lines with a single marker line gives a single `Marker`. */
  lemma {:induction false} OnlyMarkerLine(lines: seq<string>, i: nat)
    requires i < |lines| && HasMarker(lines[i])
    requires forall j :: 0 <= j < |lines| && j != i ==> !HasMarker(lines[j])
    ensures var ls := ClassifyAll(lines);
      && ls[i] == Marker(LineKind(lines[i]), Title(lines[i]))
      && forall j :: 0 <= j < |ls| && j != i ==> ls[j].Plain?
  {
    var ls := ClassifyAll(lines);
    forall j | 0 <= j < |ls| && j != i ensures ls[j].Plain? {
      assert ls[j] == Classify(lines[j]);
    }
  }

  /** After the only marker line, the classified lines read back as the lines. */
  lemma {:induction false} TextsAfter(lines: seq<string>, i: nat)
    requires i < |lines|
    requires forall j :: 0 <= j < |lines| && j != i ==> !HasMarker(lines[j])
    ensures Texts(ClassifyAll(lines)[i + 1..]) == lines[i + 1..]
  {
    ClassifyAllDrop(lines, i + 1);
    TextsOfUnmarked(lines[i + 1..]);
  }

  /** `Single` in terms of the classified lines. */
  lemma {:induction false} SingleOfMarked(ls: seq<Line>, i: nat, after: seq<string>)
    requires i < |ls| && ls[i].Marker?
    requires forall j :: 0 <= j < |ls| && j != i ==> ls[j].Plain?
    requires Texts(ls[i + 1..]) == after
    ensures Summary(Issues(ls), CountOf(ls, Error), CountOf(ls, Warning), CountOf(ls, Success))
      == Single(ls[i].kind, ls[i].title, after)
  {
    OneMarkerLines(ls, i);
  }

  /** The issues and the counters of lines with a single marker line. */
  lemma {:induction false} OneMarkerLines(ls: seq<Line>, i: nat)
    requires i < |ls| && ls[i].Marker?
    requires forall j :: 0 <= j < |ls| && j != i ==> ls[j].Plain?
    ensures Issues(ls) == Block(ls[i].kind, ls[i].title, ls[i + 1..])
    ensures CountOf(ls, Error) == (if ls[i].kind == Error then 1 else 0)
    ensures CountOf(ls, Warning) == (if ls[i].kind == Warning then 1 else 0)
    ensures CountOf(ls, Success) == (if ls[i].kind == Success then 1 else 0)
  {
    IssuesOneMarker(ls, i);
    CountSingle(ls, i, Error);
    CountSingle(ls, i, Warning);
    CountSingle(ls, i, Success);
  }

  /** Two marker lines make a total of at least two. */
  lemma {:induction false} ExtractTwoMarkers(content: string, i: nat, j: nat)
    requires i < j < |Split(content)| && HasMarker(Split(content)[i]) && HasMarker(Split(content)[j])
    ensures Extract(content).Total() >= 2
  {
    var ls := ClassifyAll(Split(content));
    MarkerInSomeLine(content);
    ExtractSummary(content);
    MarkerLinesTwo(ls, i, j);
  }

  /** A marker line with nothing after the marker is counted, but emits no issue. */
  lemma EmptyTitleCountedNotShown()
    ensures Extract("Error:") == Summary([], 1, 0, 0)
  {
    var line := "Error:";
    assert IsAt(line, "Error:", 0);
    assert HasMarker(line);
    SplitJoin([line]);
    assert Split(line) == [line];
    assert ReplaceFirst(line, "Error:", "") == "";
    assert Title(line) == "";
    var ls := ClassifyAll([line]);
    assert ls == [Marker(Error, "")];
    IssuesCons(Marker(Error, ""), []);
  }
}
