/**
 * `getWebviewContent` of src/extension.js (lines 160-557): the review is
 * processed, and the page is one template whose data slots receive the
 * four counters, the structured markup and the escaped review
 * (lines 453-491). The document head with its style sheet (lines 167-445)
 * and the script with the closing tags (lines 493-557) hold no data; they
 * are the parameters `head` and `script`.
 */
module Webview {
  import opened Text
  import opened Escape
  import opened Extractor

  /** The digit for `d`. */
  function Digit(d: nat): (c: char)
    requires d < 10
    ensures '0' <= c <= '9'
  {
    ('0' as int + d) as char
  }

  predicate AllDigits(s: string) {
    forall i :: 0 <= i < |s| ==> '0' <= s[i] <= '9'
  }

  /** A number in a template slot: its decimal digits, without leading zeros. */
  function Decimal(n: nat): (s: string)
    ensures |s| >= 1 && AllDigits(s)
    ensures s[0] == '0' ==> s == "0"
  {
    if n < 10 then [Digit(n)] else Decimal(n / 10) + [Digit(n % 10)]
  }

  /** The value of a string of decimal digits. */
  function DecimalValue(s: string): nat
    requires AllDigits(s)
  {
    if s == [] then 0 else DecimalValue(s[..|s| - 1]) * 10 + (s[|s| - 1] as int - '0' as int)
  }

  /** Reading the digits back gives the number: distinct counts are shown distinctly. */
  lemma {:induction false} DecimalRoundTrip(n: nat)
    ensures DecimalValue(Decimal(n)) == n
  {
    if n >= 10 {
      var s := Decimal(n);
      assert s[..|s| - 1] == Decimal(n / 10);
      DecimalRoundTrip(n / 10);
    }
  }

  /** From the end of the style sheet to the total. */
  const Segment0 :=
    "    </head>\n"
    + "    <body>\n"
    + "        <div class=\"header-container\">\n"
    + "            <h1>AI Code Review</h1>\n"
    + "            <button id=\"theme-toggle\" class=\"theme-toggle\">Toggle Dark/Light Mode</button>\n"
    + "        </div>\n"
    + "        \n"
    + "        <div class=\"summary-bar\">\n"
    + "            <div class=\"summary-item\">\n"
    + "                <span>Total Issues: </span>\n"
    + "                <strong id=\"total-issues\">"

  /** Between the total and the error count. */
  const Segment1 :=
    "</strong>\n"
    + "            </div>\n"
    + "            <div class=\"summary-item\">\n"
    + "                <span>Errors: </span>\n"
    + "                <strong class=\"error-tag\">"

  /** Between the error count and the warning count. */
  const Segment2 :=
    "</strong>\n"
    + "            </div>\n"
    + "            <div class=\"summary-item\">\n"
    + "                <span>Warnings: </span>\n"
    + "                <strong class=\"warning-tag\">"

  /** Between the warning count and the suggestion count. */
  const Segment3 :=
    "</strong>\n"
    + "            </div>\n"
    + "            <div class=\"summary-item\">\n"
    + "                <span>Suggestions: </span>\n"
    + "                <strong class=\"success-tag\">"

  /** From the suggestion count into the structured pane. */
  const Segment4 :=
    "</strong>\n"
    + "            </div>\n"
    + "            <button id=\"expand-all\">Expand All</button>\n"
    + "            <button id=\"collapse-all\">Collapse All</button>\n"
    + "        </div>\n"
    + "        \n"
    + "        <!-- Tab Navigation -->\n"
    + "        <div class=\"tabs\">\n"
    + "            <button class=\"tab active\" data-tab=\"structured-view\">Structured View</button>\n"
    + "            <button class=\"tab\" data-tab=\"full-response\">Full Response</button>\n"
    + "        </div>\n"
    + "        \n"
    + "        <!-- Tab Content -->\n"
    + "        <div id=\"structured-view\" class=\"tab-content active\">\n"
    + "            <div class=\"review-container\" id=\"review-content\">\n"
    + "                "

  /** From the structured pane into the full-response pane. */
  const Segment5 :=
    "\n"
    + "            </div>\n"
    + "        </div>\n"
    + "        \n"
    + "        <div id=\"full-response\" class=\"tab-content\">\n"
    + "            <div class=\"full-response\">\n"
    + "                "

  /** The close of the full-response pane, up to the script. */
  const Segment6 :=
    "\n"
    + "            </div>\n"
    + "        </div>\n"
    + "\n"

  /** Everything before the escaped review: the head, the summary bar and the structured pane. */
  function BeforeFullPane(head: string, x: Processed): string {
    head + Segment0 + Decimal(x.totalIssues) + Segment1 + Decimal(x.errorCount) + Segment2
    + Decimal(x.warningCount) + Segment3 + Decimal(x.successCount) + Segment4 + x.html + Segment5
  }

  /** The page for a processed review `x` of `review`. */
  function Page(head: string, script: string, x: Processed, review: string): string {
    BeforeFullPane(head, x) + EscapeHtml(review) + AfterFullPane(script)
  }

  /** Everything after the escaped review: the pane's close and the script. */
  function AfterFullPane(script: string): string {
    Segment6 + script
  }

  /**
   * The full-response pane is sealed: whatever precedes the pane (in a
   * `Page`, that is `BeforeFullPane(head, x)`), the first `<` from the
   * pane's opening is that of the pane's own closing `</div>`, and the text
   * before it is the escaped review, which decodes to the review.
   */
  lemma {:induction false} FullPaneSealed(pre: string, review: string, script: string)
    ensures PaneSealed(pre + EscapeHtml(review) + AfterFullPane(script), |pre|, EscapeHtml(review), review)
  {
    EscapedNoLt(review);
    ClosingShape(script);
    UnescapeEscape(review);
    SealedDecodes(pre, EscapeHtml(review), AfterFullPane(script), review);
  }

  /**
   * In `page`, the text `e` starts at `start`, decodes to `review`, and is
   * followed, with no `<` in between, by the pane's own `</div>`.
   */
  predicate PaneSealed(page: string, start: nat, e: string, review: string) {
    && start + |e| <= |page|
    && IndexOf(page, "<", start) == Some(start + |e| + 13)
    && IsAt(page, "</div>", start + |e| + 13)
    && Unescape(page[start..start + |e|]) == review
  }

  lemma {:induction false} SealedDecodes(pre: string, e: string, tail: string, review: string)
    requires NoLt(e) && Unescape(e) == review
    requires |tail| >= 19 && tail[..19] == PaneClose
    ensures PaneSealed(pre + e + tail, |pre|, e, review)
  {
    Sealed(pre, e, tail);
  }

  /** No `<` in `s`. */
  predicate NoLt(s: string) {
    forall i :: 0 <= i < |s| ==> s[i] != '<'
  }

  lemma {:induction false} EscapedNoLt(review: string)
    ensures NoLt(EscapeHtml(review))
  {
  }

  /** The close of the pane: a newline, the indentation, and `</div>`. */
  const PaneClose := "\n            </div>"

  /** What follows the escaped review starts with the pane's close. */
  lemma {:induction false} ClosingShape(script: string)
    ensures var tail := AfterFullPane(script);
      |tail| >= 19 && tail[..19] == PaneClose
  {
  }

  lemma {:induction false} Sealed(pre: string, e: string, tail: string)
    requires NoLt(e)
    requires |tail| >= 19 && tail[..19] == PaneClose
    ensures var page, start := pre + e + tail, |pre|;
      && page[start..start + |e|] == e
      && IndexOf(page, "<", start) == Some(start + |e| + 13)
      && IsAt(page, "</div>", start + |e| + 13)
  {
    var page, start := pre + e + tail, |pre|;
    var close := start + |e| + 13;
    assert forall i :: 0 <= i < 13 ==> tail[i] != '<' by {
      forall i | 0 <= i < 13 ensures tail[i] != '<' { assert tail[i] == PaneClose[i]; }
    }
    assert tail[13..19] == "</div>" by { assert tail[13..19] == PaneClose[13..19]; }
    forall j: nat | start <= j < close ensures !IsAt(page, "<", j) {
      if j < start + |e| {
        assert page[j] == e[j - start];
      } else {
        assert page[j] == tail[j - start - |e|];
      }
    }
    assert page[close..close + 6] == tail[13..19];
    assert page[close] == tail[13] == '<';
    IndexOfIs(page, "<", start, close);
  }

  /**
   * `getWebviewContent`: the review is processed, and the page shows the
   * counters and the markup of the processing, and the review escaped.
   */
  method GetWebviewContent(head: string, script: string, reviewContent: string) returns (page: string)
    ensures var x := Extract(reviewContent);
      page == Page(head, script, Processed(Render(x.issues), x.Total(), x.errors, x.warnings, x.successes), reviewContent)
  {
    var processedContent := ProcessReviewContent(reviewContent);
    var fullResponse := reviewContent;
    page := BeforeFullPane(head, processedContent) + EscapeHtml(fullResponse) + (Segment6 + script);
  }
}
