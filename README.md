# Python code review for VS Code — a verified model of the review renderer

The extension sends the Python file open in the editor to a chat-completion
model through `src/code_reviewer.py`, and shows the text that comes back in
a webview panel. This project models, in Dafny, the part of that pipeline
that turns text into the panel:

- **Extractor** (`processReviewContent`). It splits the review on `'\n'` and
  finds lines that contain a marker (`Issue:`, `Warning:`, `Error:`,
  `Suggestion:`). It opens one issue per marker line, collects the following
  plain lines as the issue's description, and counts errors, warnings and
  suggestions. When the text has no marker at all, it falls back to one
  "General Feedback" suggestion. `ScanLines` is the source's loop with its
  open-issue state. It is proved equal to `Issues`/`CountOf`, which are
  written as one block per marker line.
- **IssueHtml** (`createIssueHtml`). It renders one issue. The method keeps
  the source's loop: it lists the fenced-code matches and replaces the first
  occurrence of each match text in turn. It is proved equal to a positional
  rewriting of the fence regions (module **Fences**). The last code block
  becomes the copy button's payload, newlines become `<br>`, and only the
  title is escaped.
- **Escape** (`escapeHtml`). The five-character entity map, its inverse
  (`Unescape`), injectivity, and the fact that it is not idempotent.
- **Webview** (the data slots of `getWebviewContent`). The page is the
  stylesheet part, the four counters, the issue HTML, the escaped raw
  review and the script part. The full-response pane is shown to hold
  exactly the escaped review: the pane's first `<` is its closing `</div>`,
  and decoding the pane gives back the review.
- **Classifier** (the `except` branch of `main()` in `src/code_reviewer.py`).
  It sorts the exception message into one of four causes, checked in a fixed
  order, and builds the review text printed instead of a review. It is
  proved how each text is read back by the extractor. The three fixed texts
  give exactly one error. The timeout text gives one error only when the
  message has no marker. The generic text has a marker only when the
  message does.
- **Text**. The JavaScript and Python string operations these use:
  `includes`/`in`, `indexOf`, `replace` with a string pattern, `trim`,
  `split('\n')`/`join('\n')`, and `lower()`.

Four behaviours of the code are worth knowing before reading the model:

- `createIssueHtml` escapes only the title and the copy payload. The
  description (`src/extension.js:678`) is inserted as it is, apart from the
  code blocks and the `<br>` line breaks (`IssueHtml.DescriptionVerbatim`).
- `escapeHtml` escapes the `&` of an existing entity again, so escaping
  twice differs from escaping once (`Escape.EscapeTwiceIff`,
  `Escape.EscapeReescapesEntity`).
- A marker line whose title trims to the empty string is counted but shows
  no issue (`Extractor.EmptyTitleCountedNotShown`), so the counters can
  exceed the number of issues shown.
- `print` at `src/code_reviewer.py:215` ends the review with a newline, and
  the extension reads standard output untrimmed (`src/extension.js:98`,
  `135`). The model feeds the extractor the printed text
  (`Classifier.Printed`), so the last description ends with that newline,
  which the view shows as a trailing `<br>`.

## Model

| member | source | states |
|---|---|---|
| Text.Contains | src/extension.js:576-579 | `includes` holds exactly when the pattern occurs at some position |
| Text.IndexOf | src/extension.js:599 | the result is an occurrence at or after `from`, and no occurrence lies between `from` and it (none at all when the result is absent) |
| Text.ReplaceFirst | src/extension.js:599 | the leftmost occurrence is replaced by `rep`; the text is unchanged when the pattern does not occur |
| Text.ReplaceFirstJs | src/extension.js:654 | `replace` with `$`-patterns in the replacement agrees with literal replacement whenever the replacement has no `$` |
| Text.Trim | src/extension.js:599 | the result is a slice of the input with only whitespace cut off either side, and it neither starts nor ends with whitespace |
| Text.TrimPadded | src/extension.js:599 | trimming leading whitespace off a trimmed word gives the word back |
| Text.Split | src/extension.js:569 | at least one line, no line holds a newline, and joining the lines with `'\n'` gives back the text |
| Text.JoinAppend | src/extension.js:591 | `join('\n')` of two non-empty runs is the join of each with one newline between them |
| Text.SplitJoin | src/extension.js:569 | splitting newline-free lines after joining them gives the lines back |
| Text.ContainsSplit | src/extension.js:576-579 | a newline-free pattern occurs in the text exactly when it occurs in one of the split lines |
| Text.Lower | src/code_reviewer.py:159 | every ASCII capital is lowered and every other character kept, position by position |
| Escape.EscapeHtml | src/extension.js:690-699 | the output has no `<`, `>`, `"` or `'`; it is longer exactly when the input holds one of the five characters; unchanged otherwise |
| Escape.EscapeAppend | src/extension.js:698 | escaping works character by character: it distributes over concatenation |
| Escape.UnescapeEscape | src/extension.js:690-699 | decoding the five entities inverts escaping |
| Escape.EscapeInjective | src/extension.js:690-699 | two texts with the same escaping are equal |
| Escape.EscapeTwiceIff | src/extension.js:690-699 | escaping twice equals escaping once exactly when the text has none of the five characters |
| Escape.EscapeReescapesEntity | src/extension.js:692 | `&amp;` is escaped again to `&amp;amp;` |
| Fences.NextRegion | src/extension.js:649 | a found region lies at or after `from`, begins with a fence, skips an optional `python` tag, and ends at the first fence after its body |
| Fences.MatchAt | src/extension.js:649 | an attempt at `p` succeeds exactly when a fence starts at `p` and another fence follows it (after the optional `python` tag); the match starts at `p` and is a well-formed region |
| Fences.NextRegionIsLeftmostMatch | src/extension.js:649 | the region found is the one the regex finds: there is a match at its start and none at any earlier position |
| Fences.UnclosedFenceNeverMatches | src/extension.js:649 | a fence with no closing fence after it, and everything after it, produces no match, so it stays literal text |
| Fences.Regions | src/extension.js:649 | every region of the global match list is a well-formed region inside the text, at or after `from` |
| Fences.RegionsAreMatches | src/extension.js:649 | the global match list is exactly the engine's: each region is the successful attempt at its start, regions do not overlap, and no attempt succeeds in a gap between them, before the first or after the last |
| Fences.StripRegion | src/extension.js:652 | removing the fences and the `python` tag from a match text leaves exactly the region's body |
| Fences.StripFences | src/extension.js:652 | stripping never lengthens the text |
| Fences.StripFencesCopies | src/extension.js:652 | up to the next fence the text is copied unchanged, so text without a fence is returned as it is |
| Fences.RewriteWithoutFence | src/extension.js:648 | a description without a fence is left unchanged and gives no snippet |
| Fences.SnippetIsLastMatch | src/extension.js:653 | the snippet is the trimmed body of the last region, or the previous snippet when there is none |
| Fences.RewriteFences | src/extension.js:648-657 | the copy payload is the trimmed body of the last match, or empty when nothing matches, and without a match the description is unchanged |
| IssueHtml.NewlinesToBr | src/extension.js:678 | the result has no newline and equals the input when the input has none |
| IssueHtml.NewlinesToBrAppend | src/extension.js:678 | the newline rewrite distributes over concatenation |
| IssueHtml.NewlinesToBrJoin | src/extension.js:678 | rewriting the join of newline-free lines joins them with `<br>` instead |
| IssueHtml.Actions | src/extension.js:659-660 | the actions slot is empty exactly when the snippet is empty |
| IssueHtml.CopyPayloadDecodes | src/extension.js:660 | the copy payload has no `"` (it cannot close the attribute), and it decodes to the snippet |
| IssueHtml.TagOfKind | src/extension.js:662-669 | each type's tag carries the class `<type>-tag`, and distinct types get distinct tags and distinct container classes |
| IssueHtml.TitleSealed | src/extension.js:671-682 | in the fragment the escaped title follows the heading's opening tag, decodes back to the title, and the first `<` after it opens the type's tag, so a title cannot inject markup |
| IssueHtml.DescriptionVerbatim | src/extension.js:648-682 | a description without a fence gets no code block and no copy button and is shown with newlines as `<br>`; a one-line one appears in the fragment unchanged |
| IssueHtml.RewriteStep | src/extension.js:651-655 | one loop iteration, replacing the first occurrence of the match text, rewrites exactly the next region; the rewritten prefix stays fence-free |
| IssueHtml.RewriteCode | src/extension.js:646-657 | the fence handling of `createIssueHtml` yields the positional rewriting of every region, with the last region's code as the copy payload, and leaves a description without matches alone |
| IssueHtml.ReplaceMatches | src/extension.js:650-656 | the match-and-replace loop, replacing the first occurrence of each match text in turn, rewrites exactly the regions in order and keeps the last code as the payload |
| IssueHtml.ProgressStep | src/extension.js:651-655 | one iteration keeps the loop's state: the rewritten prefix is fence-free and, with the rewriting of the rest, makes up the whole rewriting |
| IssueHtml.CreateIssueHtml | src/extension.js:645-683 | the fragment is the template filled with the escaped title, the rewritten description with `<br>` line breaks, and the copy button for that payload |
| Extractor.LineKind | src/extension.js:596-608 | a line is an error exactly when it holds `Error:`, a warning exactly when it holds `Warning:` and not `Error:`, and a suggestion otherwise |
| Extractor.Title | src/extension.js:596-608 | the title neither starts nor ends with whitespace |
| Extractor.TitleByKind | src/extension.js:596-608 | for an error the title is the line with its first `Error:` cut out, trimmed; for a warning likewise with `Warning:`; for a suggestion the first `Issue:` is cut out, then the first `Suggestion:` of what remains, then the result is trimmed |
| Extractor.PlainRun | src/extension.js:611-613 | the description run is the longest prefix of plain lines, and a marker line follows it unless the input ends |
| Extractor.ScanLines | src/extension.js:583-620 | the loop's HTML is the rendering of one issue per titled marker line with the plain lines up to the next marker, and each counter is the number of marker lines of its kind |
| Extractor.RenderAppend | src/extension.js:591-592 | the HTML is built by appending fragments only: the markup of two runs of issues is the markup of the first followed by that of the second |
| Extractor.ProcessReviewContent | src/extension.js:567-636 | the result is the rendering and the counts of `Extract`, with the total the sum of the three counts |
| Extractor.IssuesSkipsPlain | src/extension.js:611 | plain lines before the first marker line are dropped |
| Extractor.IssuesAppendAtMarker | src/extension.js:589-593 | a marker line closes the open issue: the issues of two runs split before a marker line are the issues of each run |
| Extractor.IssueOfMarkerLine | src/extension.js:588-613 | each marker line yields its block, whose description is exactly the plain lines up to the next marker line or the end |
| Extractor.TextsOfPlain | src/extension.js:612 | the description keeps the plain lines unmodified and in order |
| Extractor.CountsSum | src/extension.js:588-627 | every marker line bumps exactly one counter, so the three counts add up to the number of marker lines |
| Extractor.IssuesCount | src/extension.js:590-619 | the number of issues shown is the number of marker lines with a non-empty title |
| Extractor.TitledAtMost | src/extension.js:590-619 | no more issues are shown than marker lines are counted |
| Extractor.MarkerInSomeLine | src/extension.js:576-588 | the text holds a marker exactly when one of its lines does |
| Extractor.ExtractSummary | src/extension.js:576-627 | without a marker the result is one "General Feedback" suggestion holding the whole text; with a marker the total is the number of marker lines and the shown issues are the titled ones; the total is at least 1 and at least the number shown |
| Extractor.IssuesOneMarker | src/extension.js:587-620 | with a single marker line the only block is that line's, with every later line as description |
| Extractor.ExtractOneMarker | src/extension.js:567-636 | a text with one marker line gives that line's single issue (none if its title is empty) and a count of 1 for its kind |
| Extractor.ExtractTwoMarkers | src/extension.js:588-627 | two marker lines make the total at least 2 |
| Extractor.EmptyTitleCountedNotShown | src/extension.js:590-619 | the text `Error:` counts one error and shows no issue |
| Classifier.CauseOf | src/code_reviewer.py:159-212 | the chosen cause's test holds, every earlier test fails, and no test that holds comes later than the chosen one |
| Classifier.Review | src/code_reviewer.py:157-212 | for a timeout or an unrecognised error the printed text carries the exception message; for the three fixed causes it does not depend on the message |
| Classifier.LowerKeepsSignals | src/code_reviewer.py:159-199 | the code and word tests give the same answer on the lowered message; the key test, made on the message as written, can be turned on by lowering but never off |
| Classifier.WordsIgnoreCase | src/code_reviewer.py:159-187 | a message in capitals matches the word `timeout`, and the timeout test wins over a `404` that is also present |
| Classifier.KeyAsWritten | src/code_reviewer.py:174 | `invalid_api_key` as written selects the authentication text |
| Classifier.KeyInCapitals | src/code_reviewer.py:174 | `INVALID_API_KEY` selects nothing: the key is matched case-sensitively |
| Classifier.NoWordIn | src/code_reviewer.py:159-199 | a message whose lower-cased form has no `t` matches none of the four words |
| Classifier.Embedding | src/code_reviewer.py:160-212 | for one branch, two messages give the same text exactly when they are equal or the branch's text is fixed (authentication, not found, rate limit) |
| Classifier.TimeoutInjective | src/code_reviewer.py:172 | the timeout text determines the message |
| Classifier.AdvisedLines | src/code_reviewer.py:160-161 | a text that opens with a newline and `Error: <title>` splits into an empty line, the error line, and the body's lines |
| Classifier.ErrorLed | src/code_reviewer.py:160-161 | such a text gives exactly one error issue holding the whole body when the body has no marker, and a total of 1 exactly when it has none |
| Classifier.ErrorLedAlone | src/code_reviewer.py:160-161 | a text led by an error line over a marker-free body is one error issue with that body |
| Classifier.ErrorLedMore | src/code_reviewer.py:160-161 | a body holding a marker raises the total above 1 |
| Classifier.FixedBodies | src/code_reviewer.py:175-210 | the causes and solutions of the three fixed texts hold no marker |
| Classifier.TimeoutBodyMarker | src/code_reviewer.py:162-172 | the timeout body holds a marker exactly when the message does |
| Classifier.GenericMarker | src/code_reviewer.py:212 | `Error during code review: ` adds no marker: the generic text holds one exactly when the message does |
| Classifier.HeadingShape | src/code_reviewer.py:161-201 | every fixed title is one line and neither starts nor ends with whitespace |
| Classifier.FixedFeed | src/code_reviewer.py:175-215 | each fixed text as printed, read by the extractor, gives exactly one error with its title and its advice, ending in the printed newline, as description |
| Classifier.TimeoutFeed | src/code_reviewer.py:160-173 | the printed timeout text gives a total of 1 exactly when the message has no marker, and then a single error issue whose description is the body and the printed newline |
| Classifier.GenericFeed | src/code_reviewer.py:212-215 | the printed generic text has a marker exactly when the message does; without one it falls back to one "General Feedback" suggestion holding `Error during code review: `, the message and the printed newline |
| Webview.Decimal | src/extension.js:456-468 | a counter prints as a non-empty digit string without leading zero |
| Webview.DecimalRoundTrip | src/extension.js:456-468 | reading the printed digits back gives the counter |
| Webview.FullPaneSealed | src/extension.js:487-491 | in the page, the first `<` after the escaped review begins the pane's `</div>`, and the pane's text decodes to the review |
| Webview.GetWebviewContent | src/extension.js:160-557 | the page is the fixed parts around the counts, the issue HTML and the escaped review, all computed from the same review text |

## Left out

- `activate` (`src/extension.js:10-153`) is left out. It spawns the Python process, chooses an interpreter, writes and deletes a temporary file, reads configuration and opens the panel, which is all host I/O.
- The stylesheet (`src/extension.js:167-445`) and the page script (`src/extension.js:493-557`) are left out. They appear as the parameters `head` and `script` of `Webview.GetWebviewContent`: the theme toggle, expand and collapse, clipboard, timers and tabs run in the browser.
- `Text.ReplaceFirst`: `String.prototype.replace` with a string replacement expands `$&`, `` $` ``, `$'` and `$$`. The model treats the code-block replacement at `src/extension.js:654` as literal. This is an assumption that holds when the trimmed code has no `$`, which `Text.ReplaceFirstJs` shows.
- The regexes at `src/extension.js:649`, `652`, `678` and `698` are written as explicit scanners and character maps, not as a regex engine.
- JavaScript strings are sequences of UTF-16 units. The model uses `seq<char>` and does not model surrogate pairs.
- `Text.Lower` lowers ASCII letters only, while Python's `lower()` is Unicode-aware. No needle (`timeout`, `authentication`, `not found`, `rate limit`) contains a letter that a non-ASCII character lowers to, except `i`, which only U+0130 produces and then followed by a combining dot, so the four tests give the same answers.
- `IssueHtml.Kind`: the `type` argument is one of three values. Every caller in the core passes `error`, `warning` or `success`, so the "anything else" branch of the tag choice is the `Success` case.
- The rest of `main()` in `src/code_reviewer.py` (lines 15-155) is left out. That is argument handling, file reading, client configuration and the completion request. The exception message is a parameter of `Classifier.Review`. Of the final `print` (line 215) only the newline it appends is modelled (`Classifier.Printed`); the write to standard output and the pipe to the extension are not.
- `test_reviewer.py`, `src/install_dependencies.py` and `sample_code.py` are not part of this model. They are subprocess and installer scripts and demo input.
