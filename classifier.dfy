/**
 * The `except` branch of `main()` in src/code_reviewer.py (lines 157-212):
 * the message of the exception raised by the completion request is read as
 * one of four known causes, checked in a fixed order, and mapped to the
 * review text the script prints in place of a review. The extension then
 * reads that text like any other review (module Extractor).
 *
 * Each triple-quoted review text is written here as the same characters,
 * split into its title (the rest of the `Error:` line), its list of causes
 * and its list of possible solutions.
 */
module Classifier {
  import opened Text
  import opened IssueHtml
  import opened Extractor

  /** The causes, in the order the branches test them; `Unknown` is the final `else`. */
  datatype Cause = Timeout | Authentication | NotFound | RateLimit | Unknown

  /** The position of a cause's test in the chain. */
  function Rank(c: Cause): nat {
    match c
    case Timeout => 0
    case Authentication => 1
    case NotFound => 2
    case RateLimit => 3
    case Unknown => 4
  }

  /**
   * The condition of a cause's branch. Status codes and `invalid_api_key`
   * are looked for in the message as it is; the words are looked for in the
   * message lower-cased. The final `else` has no condition of its own.
   */
  predicate Signals(c: Cause, msg: string) {
    match c
    case Timeout => Contains(msg, "504") || Contains(Lower(msg), "timeout")
    case Authentication =>
      Contains(msg, "401") || Contains(msg, "invalid_api_key") || Contains(Lower(msg), "authentication")
    case NotFound => Contains(msg, "404") || Contains(Lower(msg), "not found")
    case RateLimit => Contains(msg, "429") || Contains(Lower(msg), "rate limit")
    case Unknown => false
  }

  /** The if/elif chain: the first cause whose condition holds, or `Unknown`. */
  function CauseOf(msg: string): (c: Cause)
    ensures c != Unknown ==> Signals(c, msg)
    ensures forall d :: Rank(d) < Rank(c) ==> !Signals(d, msg)
    ensures forall d :: Signals(d, msg) ==> Rank(c) <= Rank(d)
  {
    if Signals(Timeout, msg) then Timeout
    else if Signals(Authentication, msg) then Authentication
    else if Signals(NotFound, msg) then NotFound
    else if Signals(RateLimit, msg) then RateLimit
    else Unknown
  }

  /**
   * The words are matched whatever their case: a message in capitals is
   * read as a timeout, even though it also names a status code checked later.
   */
  lemma WordsIgnoreCase(msg: string)
    requires msg == "404 TIMEOUT"
    ensures Signals(NotFound, msg) && CauseOf(msg) == Timeout
  {
    var low := Lower(msg);
    assert IsAt(msg, "404", 0);
    assert low == "404 timeout";
    assert IsAt(low, "timeout", 4);
  }

  /** `invalid_api_key` written as the branch spells it is an authentication failure. */
  lemma KeyAsWritten(msg: string)
    requires msg == "invalid_api_key"
    ensures CauseOf(msg) == Authentication
  {
    assert NoneOf(msg, "5") && NoneOf(msg, "tT");
    LowerAvoids(msg, 't', 'T');
    NoWordIn(msg);
    NoneOfExcludes(msg, "5", "504", 0);
    assert IsAt(msg, "invalid_api_key", 0);
  }

  /** `invalid_api_key` is matched only as written: in capitals it is not recognised. */
  lemma KeyInCapitals(msg: string)
    requires msg == "INVALID_API_KEY"
    ensures CauseOf(msg) == Unknown
  {
    assert NoneOf(msg, "4i") && NoneOf(msg, "tT");
    LowerAvoids(msg, 't', 'T');
    NoWordIn(msg);
    NoneOfExcludes(msg, "4i", "504", 2);
    NoneOfExcludes(msg, "4i", "401", 0);
    NoneOfExcludes(msg, "4i", "invalid_api_key", 0);
    NoneOfExcludes(msg, "4i", "404", 0);
    NoneOfExcludes(msg, "4i", "429", 0);
  }

  /** Without `t` in the lower-cased message, none of the words is found. */
  lemma NoWordIn(msg: string)
    requires NoneOf(Lower(msg), "t")
    ensures !Contains(Lower(msg), "timeout") && !Contains(Lower(msg), "authentication")
    ensures !Contains(Lower(msg), "not found") && !Contains(Lower(msg), "rate limit")
  {
    NoneOfExcludes(Lower(msg), "t", "timeout", 0);
    NoneOfExcludes(Lower(msg), "t", "authentication", 2);
    NoneOfExcludes(Lower(msg), "t", "not found", 2);
    NoneOfExcludes(Lower(msg), "t", "rate limit", 2);
  }

  /** A review text led by an `Error:` line: a newline, `Error: <title>`, a newline and the body. */
  function Advised(title: string, body: string): string {
    "\nError: " + title + "\n" + body
  }

  /** The body of the texts: the causes, a blank line, and the possible solutions. */
  function Advice(causes: string, remedies: string): string {
    causes + "\nPossible solutions:\n" + remedies
  }

  // The canned texts are concatenations of short literals, which keeps the verifier's work on each piece small.
  const TimeoutTitle := "The API gateway timed out. " + "This could be due to:"
  const TimeoutCauses :=
    "1. The API server " + "being temporarily " + "unavailable or " + "overloaded\n"
    + "2. Network issues\n"
    + "3. The request " + "taking too long to " + "process\n"
  const TimeoutRemedies :=
    "- Try again later " + "when the server load " + "might be lower\n"
    + "- Check your network " + "connection\n"
    + "- If using a custom " + "API endpoint, verify " + "it's correctly " + "configured and " + "accessible\n"
    + "- Consider using a " + "different model or " + "the official OpenAI " + "API endpoint\n"

  const AuthTitle := "Authentication failed. " + "This could be due to:"
  const AuthCauses :=
    "1. Invalid API key\n"
    + "2. Expired API key\n"
    + "3. API key not " + "having the necessary " + "permissions\n"
  const AuthRemedies :=
    "- Check that your " + "API key is correctly " + "copied without any " + "extra spaces\n"
    + "- Ensure your API " + "key is active and " + "has not expired\n"
    + "- Verify that your " + "API key has " + "permission to access " + "the requested model\n"
    + "- If using a custom " + "API endpoint, make " + "sure you're using " + "the correct API key " + "for that endpoint\n"

  const NotFoundTitle := "Resource not found. " + "This could be due to:"
  const NotFoundCauses :=
    "1. The specified " + "model does not exist\n"
    + "2. The API endpoint " + "URL is incorrect\n"
    + "3. The requested " + "resource has been " + "moved or deleted\n"
  const NotFoundRemedies :=
    "- Check that the " + "model name is " + "spelled correctly " + "and exists\n"
    + "- Verify the API " + "endpoint URL is " + "correct\n"
    + "- If using a custom " + "API endpoint, ensure " + "it's properly " + "configured\n"

  const RateLimitTitle := "Rate limit exceeded. " + "This could be due to:"
  const RateLimitCauses :=
    "1. Too many requests " + "in a short period of " + "time\n"
    + "2. Exceeding your " + "API quota or tier " + "limits\n"
  const RateLimitRemedies :=
    "- Wait a moment " + "before trying again\n"
    + "- Consider " + "implementing rate " + "limiting in your " + "application\n"
    + "- Check your API " + "usage and limits in " + "your account " + "dashboard\n"
    + "- Upgrade your API " + "tier if necessary\n"

  const DetailsLead := "\nFull error details" + ": "
  const GenericLead := "Error during code review" + ": "

  /** The rest of the `Error:` line of a cause's text. */
  function Heading(c: Cause): string {
    match c
    case Timeout => TimeoutTitle
    case Authentication => AuthTitle
    case NotFound => NotFoundTitle
    case RateLimit => RateLimitTitle
    case Unknown => ""
  }

  /**
   * The lines after the `Error:` line; only the timeout text goes on with a
   * blank line and `Full error details: <message>`.
   */
  function Body(c: Cause, msg: string): string {
    match c
    case Timeout => Advice(TimeoutCauses, TimeoutRemedies) + DetailsLead + msg + "\n"
    case Authentication => Advice(AuthCauses, AuthRemedies)
    case NotFound => Advice(NotFoundCauses, NotFoundRemedies)
    case RateLimit => Advice(RateLimitCauses, RateLimitRemedies)
    case Unknown => ""
  }

  /** The text of a cause's branch. */
  function ReviewFor(c: Cause, msg: string): string {
    if c == Unknown then GenericLead + msg else Advised(Heading(c), Body(c, msg))
  }

  /**
   * The text assigned to `review` for an exception message: the timeout and
   * the generic texts carry the message, the other three are the same
   * whatever the message.
   */
  function Review(msg: string): (r: string)
    ensures CauseOf(msg) in {Timeout, Unknown} ==> Contains(r, msg)
    ensures CauseOf(msg) in {Authentication, NotFound, RateLimit} ==> r == ReviewFor(CauseOf(msg), "")
  {
    if CauseOf(msg) in {Timeout, Unknown} then Carries(CauseOf(msg), msg); ReviewFor(CauseOf(msg), msg)
    else ReviewFor(CauseOf(msg), msg)
  }

  /** The timeout and the generic texts hold the message. */
  lemma Carries(c: Cause, msg: string)
    requires c in {Timeout, Unknown}
    ensures Contains(ReviewFor(c, msg), msg)
  {
    assert IsAt(msg, msg, 0) by { assert msg[0..|msg|] == msg; }
    if c == Timeout {
      var p := "\nError: " + TimeoutTitle + "\n" + (Advice(TimeoutCauses, TimeoutRemedies) + DetailsLead);
      Framed(p, msg);
      IsAtLeft(msg, "\n", msg, 0);
      IsAtRight(p, msg + "\n", msg, 0);
      assert p + msg + "\n" == p + (msg + "\n");
    } else {
      IsAtRight(GenericLead, msg, msg, 0);
    }
  }

  /** `print(review)`: what the script writes, and the extension reads, is the text and a newline. */
  function Printed(review: string): string {
    review + "\n"
  }

  /**
   * Lower-casing the message changes no branch's test except the key's: the
   * status codes have no letters and the words are looked for in the
   * lower-cased message anyway, while `invalid_api_key`, which has no
   * capital, can be revealed by lower-casing but never hidden.
   */
  lemma LowerKeepsSignals(c: Cause, msg: string)
    ensures c != Authentication ==> (Signals(c, Lower(msg)) <==> Signals(c, msg))
    ensures Signals(c, msg) ==> Signals(c, Lower(msg))
  {
    match c {
      case Timeout => LowerKeepsCode(msg, "504", "timeout");
      case Authentication => LowerKeepsKey(msg);
      case NotFound => LowerKeepsCode(msg, "404", "not found");
      case RateLimit => LowerKeepsCode(msg, "429", "rate limit");
      case Unknown =>
    }
  }

  /** A test of a status code in the message or of a word in the lower-cased message. */
  lemma LowerKeepsCode(msg: string, code: string, word: string)
    requires code == "504" || code == "404" || code == "429"
    ensures (Contains(Lower(msg), code) || Contains(Lower(Lower(msg)), word))
            <==> (Contains(msg, code) || Contains(Lower(msg), word))
  {
    LowerTwice(msg);
    LowerKeepsLetterless(msg, code);
  }

  /** The authentication test: the key has no capital. */
  lemma LowerKeepsKey(msg: string)
    ensures Signals(Authentication, msg) ==> Signals(Authentication, Lower(msg))
  {
    LowerKeepsAuth(msg, "401", "invalid_api_key", "authentication");
  }

  /** `invalid_api_key` is written without capitals. */
  lemma KeyUncapitalized(key: string)
    requires key == "invalid_api_key"
    ensures NoCapital(key)
  {
    assert forall i :: 0 <= i < |key| ==> key[i] in "invalid_apkey";
  }

  lemma LowerKeepsAuth(msg: string, code: string, key: string, word: string)
    requires code == "401" && key == "invalid_api_key"
    ensures Contains(msg, code) || Contains(msg, key) || Contains(Lower(msg), word) ==>
      Contains(Lower(msg), code) || Contains(Lower(msg), key) || Contains(Lower(Lower(msg)), word)
  {
    var l := Lower(msg);
    assert Contains(msg, code) ==> Contains(l, code) by { LowerKeepsLetterless(msg, code); }
    assert Contains(msg, key) ==> Contains(l, key) by {
      KeyUncapitalized(key);
      if Contains(msg, key) { LowerKeepsUncapitalized(msg, key); }
    }
    assert Lower(l) == l by { LowerTwice(msg); }
  }

  // ---------------------------------------------------------------------
  // Which texts carry the message
  // ---------------------------------------------------------------------

  /**
   * Only the timeout and the generic texts carry the message: for one
   * branch, two messages give the same text exactly when they are equal, or
   * when the branch is one of the three with a fixed text.
   */
  lemma Embedding(c: Cause, m1: string, m2: string)
    ensures ReviewFor(c, m1) == ReviewFor(c, m2) <==> m1 == m2 || c in {Authentication, NotFound, RateLimit}
  {
    if c == Timeout && ReviewFor(c, m1) == ReviewFor(c, m2) {
      TimeoutInjective(m1, m2);
    } else if c == Unknown && ReviewFor(c, m1) == ReviewFor(c, m2) {
      assert m1 == (GenericLead + m1)[|GenericLead|..];
    }
  }

  lemma TimeoutInjective(m1: string, m2: string)
    requires ReviewFor(Timeout, m1) == ReviewFor(Timeout, m2)
    ensures m1 == m2
  {
    var p := "\nError: " + TimeoutTitle + "\n" + (Advice(TimeoutCauses, TimeoutRemedies) + DetailsLead);
    Framed(p, m1);
    Framed(p, m2);
  }

  /** The timeout text is its fixed part, the message and a newline. */
  lemma Framed(p: string, msg: string)
    requires p == "\nError: " + TimeoutTitle + "\n" + (Advice(TimeoutCauses, TimeoutRemedies) + DetailsLead)
    ensures ReviewFor(Timeout, msg) == p + msg + "\n"
    ensures msg == ReviewFor(Timeout, msg)[|p|..|ReviewFor(Timeout, msg)| - 1]
  {
    var a := Advice(TimeoutCauses, TimeoutRemedies) + DetailsLead;
    assert Body(Timeout, msg) == a + msg + "\n";
    var r := ReviewFor(Timeout, msg);
    assert r == "\nError: " + TimeoutTitle + "\n" + (a + msg + "\n");
    assert r == p + msg + "\n";
  }

  // ---------------------------------------------------------------------
  // How the extension reads the texts
  // ---------------------------------------------------------------------

  predicate NoColon(s: string) {
    forall i :: 0 <= i < |s| ==> s[i] != ':'
  }

  /** No colon of `s` follows a character that a marker puts before its colon. */
  predicate ColonSafe(s: string) {
    forall k :: 1 <= k < |s| && s[k] == ':' ==> s[k - 1] !in "egrn"
  }

  /** A text with no colon after its first character is colon-safe. */
  lemma ColonFree(s: string)
    requires forall k :: 1 <= k < |s| ==> s[k] != ':'
    ensures ColonSafe(s)
  {
  }

  lemma ColonSafeAppend(a: string, b: string)
    requires ColonSafe(a) && ColonSafe(b)
    requires a == [] || b == [] || b[0] != ':' || a[|a| - 1] !in "egrn"
    ensures ColonSafe(a + b)
  {
    forall k | 1 <= k < |a + b| && (a + b)[k] == ':' ensures (a + b)[k - 1] !in "egrn" {
      if k > |a| {
        assert (a + b)[k] == b[k - |a|] && (a + b)[k - 1] == b[k - |a| - 1];
      }
    }
  }

  /** A marker ends in a colon preceded by one of `e`, `g`, `r`, `n`. */
  lemma ColonSafeExcludes(s: string, m: string)
    requires ColonSafe(s) && |m| >= 2 && m[|m| - 1] == ':' && m[|m| - 2] in "egrn"
    ensures !Contains(s, m)
  {
    forall k: nat ensures !IsAt(s, m, k) {
    }
  }

  lemma ColonSafeNoMarker(s: string)
    requires ColonSafe(s)
    ensures !HasMarker(s)
  {
    ColonSafeExcludes(s, "Issue:");
    ColonSafeExcludes(s, "Warning:");
    ColonSafeExcludes(s, "Error:");
    ColonSafeExcludes(s, "Suggestion:");
  }

  /** Advice whose two lists have no colon holds no marker. */
  lemma AdviceColonSafe(causes: string, remedies: string)
    requires NoColon(causes) && NoColon(remedies)
    ensures ColonSafe(Advice(causes, remedies))
  {
    var a := causes + "\nPossible solutions";
    var b := ":\n" + remedies;
    ColonFree(a);
    ColonFree(b);
    ColonSafeAppend(a, b);
    assert causes + "\nPossible solutions:\n" + remedies == a + b;
  }

  /** The `Error:` line of a text: an error marker line whose title is `title`. */
  lemma ErrorLine(title: string)
    requires title != [] && !IsWhitespace(title[0]) && !IsWhitespace(title[|title| - 1])
    ensures var line := "Error: " + title;
      HasMarker(line) && Classify(line) == Marker(Error, title)
  {
    var line := "Error: " + title;
    assert line[..6] == "Error:";
    assert IsAt(line, "Error:", 0);
    assert LineKind(line) == Error;
    ReplaceFirstLeading(line, "Error:", "");
    assert ReplaceFirst(line, "Error:", "") == " " + title by {
      assert line[6..] == " " + title;
    }
    TrimPadded(" ", title);
    TitleByKind(line);
    assert Title(line) == title;
  }

  /** The lines of a text led by an `Error:` line. */
  lemma {:induction false} AdvisedLines(title: string, body: string)
    requires NoNewline(title)
    ensures Split(Advised(title, body)) == ["", "Error: " + title] + Split(body)
  {
    var line := "Error: " + title;
    assert NoNewline(line);
    SplitJoin([line]);
    SplitJoin([""]);
    SplitAround("", line);
    assert "" + "\n" + line == "\nError: " + title;
    SplitAround("\nError: " + title, body);
  }

  /**
   * A text led by an `Error:` line gives exactly one issue, an error titled
   * `title` and described by the body, when the body holds no marker; when
   * it does, the total counts more than one.
   */
  lemma {:induction false} ErrorLed(title: string, body: string)
    requires NoNewline(title) && title != [] && !IsWhitespace(title[0]) && !IsWhitespace(title[|title| - 1])
    ensures var x := Extract(Advised(title, body));
      && (!HasMarker(body) ==> x == Summary([Issue(title, Error, body)], 1, 0, 0))
      && (x.Total() == 1 <==> !HasMarker(body))
  {
    if !HasMarker(body) {
      ErrorLedAlone(title, body);
    } else {
      ErrorLedMore(title, body);
    }
  }

  lemma {:induction false} ErrorLedAlone(title: string, body: string)
    requires NoNewline(title) && title != [] && !IsWhitespace(title[0]) && !IsWhitespace(title[|title| - 1])
    requires !HasMarker(body)
    ensures Extract(Advised(title, body)) == Summary([Issue(title, Error, body)], 1, 0, 0)
  {
    var content := Advised(title, body);
    AdvisedOneMarker(title, body);
    ExtractOneMarker(content, 1);
    SingleError(title, body);
  }

  lemma {:induction false} SingleError(title: string, body: string)
    requires title != ""
    ensures Single(Error, title, Split(body)) == Summary([Issue(title, Error, body)], 1, 0, 0)
  {
  }

  /** The lines of an advised message with no marker in its body: only the heading line has one. */
  lemma {:induction false} AdvisedOneMarker(title: string, body: string)
    requires NoNewline(title) && title != [] && !IsWhitespace(title[0]) && !IsWhitespace(title[|title| - 1])
    requires !HasMarker(body)
    ensures var lines := Split(Advised(title, body));
      && 1 < |lines| && HasMarker(lines[1])
      && LineKind(lines[1]) == Error && Title(lines[1]) == title
      && lines[2..] == Split(body)
      && forall j :: 0 <= j < |lines| && j != 1 ==> !HasMarker(lines[j])
  {
    var lines := Split(Advised(title, body));
    AdvisedLines(title, body);
    ErrorLine(title);
    MarkerInSomeLine(body);
    assert lines[0] == "" && lines[1] == "Error: " + title && lines[2..] == Split(body);
    assert !HasMarker(lines[0]);
    forall j | 2 <= j < |lines| ensures !HasMarker(lines[j]) {
      assert lines[j] == Split(body)[j - 2];
    }
  }

  lemma {:induction false} ErrorLedMore(title: string, body: string)
    requires NoNewline(title) && title != [] && !IsWhitespace(title[0]) && !IsWhitespace(title[|title| - 1])
    requires HasMarker(body)
    ensures Extract(Advised(title, body)).Total() >= 2
  {
    var content := Advised(title, body);
    var lines := Split(content);
    AdvisedLines(title, body);
    ErrorLine(title);
    MarkerInSomeLine(body);
    var j :| 0 <= j < |Split(body)| && HasMarker(Split(body)[j]);
    assert lines[1] == "Error: " + title && lines[2 + j] == Split(body)[j];
    ExtractTwoMarkers(content, 1, 2 + j);
  }

  lemma NoColonAppend(a: string, b: string)
    requires NoColon(a) && NoColon(b)
    ensures NoColon(a + b)
  {
  }

  /** `TimeoutCauses` has no colon, shown piece by piece. */
  lemma TimeoutCausesColonFree()
    ensures NoColon(TimeoutCauses)
  {
    var p0, p1, p2, p3, p4, p5 := "1. The API server ", "being temporarily ", "unavailable or ", "overloaded\n", "2. Network issues\n", "3. The request ";
    var p6, p7 := "taking too long to ", "process\n";
    NoColonAppend(p0, p1);
    NoColonAppend(p0 + p1, p2);
    NoColonAppend(p0 + p1 + p2, p3);
    NoColonAppend(p0 + p1 + p2 + p3, p4);
    NoColonAppend(p0 + p1 + p2 + p3 + p4, p5);
    NoColonAppend(p0 + p1 + p2 + p3 + p4 + p5, p6);
    NoColonAppend(p0 + p1 + p2 + p3 + p4 + p5 + p6, p7);
  }

  /** `TimeoutRemedies` has no colon, shown piece by piece. */
  lemma TimeoutRemediesColonFree()
    ensures NoColon(TimeoutRemedies)
  {
    var p0, p1, p2, p3, p4, p5 := "- Try again later ", "when the server load ", "might be lower\n", "- Check your network ", "connection\n", "- If using a custom ";
    var p6, p7, p8, p9, p10, p11 := "API endpoint, verify ", "it's correctly ", "configured and ", "accessible\n", "- Consider using a ", "different model or ";
    var p12, p13 := "the official OpenAI ", "API endpoint\n";
    NoColonAppend(p0, p1);
    NoColonAppend(p0 + p1, p2);
    NoColonAppend(p0 + p1 + p2, p3);
    NoColonAppend(p0 + p1 + p2 + p3, p4);
    NoColonAppend(p0 + p1 + p2 + p3 + p4, p5);
    NoColonAppend(p0 + p1 + p2 + p3 + p4 + p5, p6);
    NoColonAppend(p0 + p1 + p2 + p3 + p4 + p5 + p6, p7);
    NoColonAppend(p0 + p1 + p2 + p3 + p4 + p5 + p6 + p7, p8);
    NoColonAppend(p0 + p1 + p2 + p3 + p4 + p5 + p6 + p7 + p8, p9);
    NoColonAppend(p0 + p1 + p2 + p3 + p4 + p5 + p6 + p7 + p8 + p9, p10);
    NoColonAppend(p0 + p1 + p2 + p3 + p4 + p5 + p6 + p7 + p8 + p9 + p10, p11);
    NoColonAppend(p0 + p1 + p2 + p3 + p4 + p5 + p6 + p7 + p8 + p9 + p10 + p11, p12);
    NoColonAppend(p0 + p1 + p2 + p3 + p4 + p5 + p6 + p7 + p8 + p9 + p10 + p11 + p12, p13);
  }

  /** `AuthCauses` has no colon, shown piece by piece. */
  lemma AuthCausesColonFree()
    ensures NoColon(AuthCauses)
  {
    var p0, p1, p2, p3, p4 := "1. Invalid API key\n", "2. Expired API key\n", "3. API key not ", "having the necessary ", "permissions\n";
    NoColonAppend(p0, p1);
    NoColonAppend(p0 + p1, p2);
    NoColonAppend(p0 + p1 + p2, p3);
    NoColonAppend(p0 + p1 + p2 + p3, p4);
  }

  /** `AuthRemedies` has no colon, shown piece by piece. */
  lemma AuthRemediesColonFree()
    ensures NoColon(AuthRemedies)
  {
    var p0, p1, p2, p3, p4, p5 := "- Check that your ", "API key is correctly ", "copied without any ", "extra spaces\n", "- Ensure your API ", "key is active and ";
    var p6, p7, p8, p9, p10, p11 := "has not expired\n", "- Verify that your ", "API key has ", "permission to access ", "the requested model\n", "- If using a custom ";
    var p12, p13, p14, p15 := "API endpoint, make ", "sure you're using ", "the correct API key ", "for that endpoint\n";
    NoColonAppend(p0, p1);
    NoColonAppend(p0 + p1, p2);
    NoColonAppend(p0 + p1 + p2, p3);
    NoColonAppend(p0 + p1 + p2 + p3, p4);
    NoColonAppend(p0 + p1 + p2 + p3 + p4, p5);
    NoColonAppend(p0 + p1 + p2 + p3 + p4 + p5, p6);
    NoColonAppend(p0 + p1 + p2 + p3 + p4 + p5 + p6, p7);
    NoColonAppend(p0 + p1 + p2 + p3 + p4 + p5 + p6 + p7, p8);
    NoColonAppend(p0 + p1 + p2 + p3 + p4 + p5 + p6 + p7 + p8, p9);
    NoColonAppend(p0 + p1 + p2 + p3 + p4 + p5 + p6 + p7 + p8 + p9, p10);
    NoColonAppend(p0 + p1 + p2 + p3 + p4 + p5 + p6 + p7 + p8 + p9 + p10, p11);
    NoColonAppend(p0 + p1 + p2 + p3 + p4 + p5 + p6 + p7 + p8 + p9 + p10 + p11, p12);
    NoColonAppend(p0 + p1 + p2 + p3 + p4 + p5 + p6 + p7 + p8 + p9 + p10 + p11 + p12, p13);
    NoColonAppend(p0 + p1 + p2 + p3 + p4 + p5 + p6 + p7 + p8 + p9 + p10 + p11 + p12 + p13, p14);
    NoColonAppend(p0 + p1 + p2 + p3 + p4 + p5 + p6 + p7 + p8 + p9 + p10 + p11 + p12 + p13 + p14, p15);
  }

  /** `NotFoundCauses` has no colon, shown piece by piece. */
  lemma NotFoundCausesColonFree()
    ensures NoColon(NotFoundCauses)
  {
    var p0, p1, p2, p3, p4, p5 := "1. The specified ", "model does not exist\n", "2. The API endpoint ", "URL is incorrect\n", "3. The requested ", "resource has been ";
    var p6 := "moved or deleted\n";
    NoColonAppend(p0, p1);
    NoColonAppend(p0 + p1, p2);
    NoColonAppend(p0 + p1 + p2, p3);
    NoColonAppend(p0 + p1 + p2 + p3, p4);
    NoColonAppend(p0 + p1 + p2 + p3 + p4, p5);
    NoColonAppend(p0 + p1 + p2 + p3 + p4 + p5, p6);
  }

  /** `NotFoundRemedies` has no colon, shown piece by piece. */
  lemma NotFoundRemediesColonFree()
    ensures NoColon(NotFoundRemedies)
  {
    var p0, p1, p2, p3, p4, p5 := "- Check that the ", "model name is ", "spelled correctly ", "and exists\n", "- Verify the API ", "endpoint URL is ";
    var p6, p7, p8, p9, p10 := "correct\n", "- If using a custom ", "API endpoint, ensure ", "it's properly ", "configured\n";
    NoColonAppend(p0, p1);
    NoColonAppend(p0 + p1, p2);
    NoColonAppend(p0 + p1 + p2, p3);
    NoColonAppend(p0 + p1 + p2 + p3, p4);
    NoColonAppend(p0 + p1 + p2 + p3 + p4, p5);
    NoColonAppend(p0 + p1 + p2 + p3 + p4 + p5, p6);
    NoColonAppend(p0 + p1 + p2 + p3 + p4 + p5 + p6, p7);
    NoColonAppend(p0 + p1 + p2 + p3 + p4 + p5 + p6 + p7, p8);
    NoColonAppend(p0 + p1 + p2 + p3 + p4 + p5 + p6 + p7 + p8, p9);
    NoColonAppend(p0 + p1 + p2 + p3 + p4 + p5 + p6 + p7 + p8 + p9, p10);
  }

  /** `RateLimitCauses` has no colon, shown piece by piece. */
  lemma RateLimitCausesColonFree()
    ensures NoColon(RateLimitCauses)
  {
    var p0, p1, p2, p3, p4, p5 := "1. Too many requests ", "in a short period of ", "time\n", "2. Exceeding your ", "API quota or tier ", "limits\n";
    NoColonAppend(p0, p1);
    NoColonAppend(p0 + p1, p2);
    NoColonAppend(p0 + p1 + p2, p3);
    NoColonAppend(p0 + p1 + p2 + p3, p4);
    NoColonAppend(p0 + p1 + p2 + p3 + p4, p5);
  }

  /** `RateLimitRemedies` has no colon, shown piece by piece. */
  lemma RateLimitRemediesColonFree()
    ensures NoColon(RateLimitRemedies)
  {
    var p0, p1, p2, p3, p4, p5 := "- Wait a moment ", "before trying again\n", "- Consider ", "implementing rate ", "limiting in your ", "application\n";
    var p6, p7, p8, p9, p10, p11 := "- Check your API ", "usage and limits in ", "your account ", "dashboard\n", "- Upgrade your API ", "tier if necessary\n";
    NoColonAppend(p0, p1);
    NoColonAppend(p0 + p1, p2);
    NoColonAppend(p0 + p1 + p2, p3);
    NoColonAppend(p0 + p1 + p2 + p3, p4);
    NoColonAppend(p0 + p1 + p2 + p3 + p4, p5);
    NoColonAppend(p0 + p1 + p2 + p3 + p4 + p5, p6);
    NoColonAppend(p0 + p1 + p2 + p3 + p4 + p5 + p6, p7);
    NoColonAppend(p0 + p1 + p2 + p3 + p4 + p5 + p6 + p7, p8);
    NoColonAppend(p0 + p1 + p2 + p3 + p4 + p5 + p6 + p7 + p8, p9);
    NoColonAppend(p0 + p1 + p2 + p3 + p4 + p5 + p6 + p7 + p8 + p9, p10);
    NoColonAppend(p0 + p1 + p2 + p3 + p4 + p5 + p6 + p7 + p8 + p9 + p10, p11);
  }

  /** The body of each fixed text holds no marker. */
  lemma FixedBodies(c: Cause, msg: string)
    requires c in {Authentication, NotFound, RateLimit}
    ensures !HasMarker(Body(c, msg))
  {
    match c {
      case Authentication =>
        AuthCausesColonFree();
        AuthRemediesColonFree();
        AdviceColonSafe(AuthCauses, AuthRemedies);
      case NotFound =>
        NotFoundCausesColonFree();
        NotFoundRemediesColonFree();
        AdviceColonSafe(NotFoundCauses, NotFoundRemedies);
      case RateLimit =>
        RateLimitCausesColonFree();
        RateLimitRemediesColonFree();
        AdviceColonSafe(RateLimitCauses, RateLimitRemedies);
    }
    ColonSafeNoMarker(Body(c, msg));
  }

  /** The timeout text's body holds a marker exactly when the message does. */
  lemma TimeoutBodyMarker(msg: string)
    ensures HasMarker(Body(Timeout, msg)) <==> HasMarker(msg)
  {
    var a := Advice(TimeoutCauses, TimeoutRemedies);
    TimeoutCausesColonFree();
    TimeoutRemediesColonFree();
    AdviceColonSafe(TimeoutCauses, TimeoutRemedies);
    ColonFree("\nFull error details");
    ColonSafeAppend(a, "\nFull error details");
    ColonFree(": ");
    ColonSafeAppend(a + "\nFull error details", ": ");
    assert a + "\nFull error details" + ": " == a + DetailsLead;
    ColonSafeNoMarker(a + DetailsLead);
    assert Body(Timeout, msg) == (a + DetailsLead) + (msg + "\n");
    EmbeddedMarker(a + DetailsLead, msg);
  }

  /** A message placed after a marker-free text ending in a space, and followed by a newline. */
  lemma EmbeddedMarker(lead: string, msg: string)
    requires !HasMarker(lead) && lead != [] && lead[|lead| - 1] == ' '
    ensures HasMarker(lead + (msg + "\n")) <==> HasMarker(msg)
  {
    Embedded(lead, msg, "Issue:");
    Embedded(lead, msg, "Warning:");
    Embedded(lead, msg, "Error:");
    Embedded(lead, msg, "Suggestion:");
  }

  lemma Embedded(lead: string, msg: string, m: string)
    requires !Contains(lead, m) && lead != [] && lead[|lead| - 1] == ' ' && ' ' !in m && '\n' !in m
    ensures Contains(lead + (msg + "\n"), m) <==> Contains(msg, m)
  {
    ContainsConcat(msg, "\n", m);
    ContainsConcat(lead, msg + "\n", m);
    assert !Contains("\n", m) by {
      forall k: nat ensures !IsAt("\n", m, k) {
        if k + |m| <= 1 && |m| >= 1 { assert "\n"[k..k + |m|][0] == '\n'; }
      }
    }
  }

  lemma GenericLeadSafe()
    ensures !HasMarker(GenericLead)
  {
    ColonFree("Error during code review");
    ColonFree(": ");
    ColonSafeAppend("Error during code review", ": ");
    ColonSafeNoMarker(GenericLead);
  }

  /** The generic text holds a marker exactly when the message does. */
  lemma GenericMarker(msg: string)
    ensures HasMarker(GenericLead + msg) <==> HasMarker(msg)
  {
    GenericLeadSafe();
    LeadMarker(GenericLead, msg);
  }

  /** A message placed after a marker-free text ending in a space. */
  lemma LeadMarker(lead: string, msg: string)
    requires !HasMarker(lead) && lead != [] && lead[|lead| - 1] == ' '
    ensures HasMarker(lead + msg) <==> HasMarker(msg)
  {
    Prefixed(lead, msg, "Issue:");
    Prefixed(lead, msg, "Warning:");
    Prefixed(lead, msg, "Error:");
    Prefixed(lead, msg, "Suggestion:");
  }

  lemma Prefixed(lead: string, msg: string, m: string)
    requires !Contains(lead, m) && lead != [] && lead[|lead| - 1] == ' ' && ' ' !in m
    ensures Contains(lead + msg, m) <==> Contains(msg, m)
  {
    ContainsConcat(lead, msg, m);
  }

  /** The rest of each `Error:` line is one line, neither starting nor ending with whitespace. */
  lemma HeadingShape(c: Cause)
    requires c != Unknown
    ensures var t := Heading(c);
      NoNewline(t) && t != [] && !IsWhitespace(t[0]) && !IsWhitespace(t[|t| - 1])
  {
    match c {
      case Timeout => TitleShape("The API gateway timed out. ", "This could be due to:");
      case Authentication => TitleShape("Authentication failed. ", "This could be due to:");
      case NotFound => TitleShape("Resource not found. ", "This could be due to:");
      case RateLimit => TitleShape("Rate limit exceeded. ", "This could be due to:");
    }
  }

  lemma TitleShape(a: string, b: string)
    requires NoNewline(a) && NoNewline(b) && a != [] && b != []
    requires !IsWhitespace(a[0]) && !IsWhitespace(b[|b| - 1])
    ensures var t := a + b;
      NoNewline(t) && t != [] && !IsWhitespace(t[0]) && !IsWhitespace(t[|t| - 1])
  {
  }

  /** The newline `print` adds holds no marker. */
  lemma NewlineAddsNoMarker(s: string)
    ensures HasMarker(s + "\n") <==> HasMarker(s)
  {
    NewlineAdds(s, "Issue:");
    NewlineAdds(s, "Warning:");
    NewlineAdds(s, "Error:");
    NewlineAdds(s, "Suggestion:");
  }

  lemma NewlineAdds(s: string, m: string)
    requires '\n' !in m && |m| >= 2
    ensures Contains(s + "\n", m) <==> Contains(s, m)
  {
    ContainsConcat(s, "\n", m);
    assert !Contains("\n", m);
  }

  /**
   * Each fixed text, as printed, is read as one error issue, titled by the
   * rest of its `Error:` line and described by the lines after it, down to
   * the empty line the printed newline ends it with.
   */
  lemma FixedFeed(c: Cause, msg: string)
    requires c in {Authentication, NotFound, RateLimit}
    ensures Extract(Printed(ReviewFor(c, msg))) == Summary([Issue(Heading(c), Error, Body(c, msg) + "\n")], 1, 0, 0)
  {
    HeadingShape(c);
    FixedBodies(c, msg);
    assert ReviewFor(c, msg) == Advised(Heading(c), Body(c, msg));
    PrintedAlone(Heading(c), Body(c, msg));
  }

  /** An `Error:`-led text with a marker-free body, printed, is one error issue. */
  lemma {:induction false} PrintedAlone(title: string, body: string)
    requires NoNewline(title) && title != [] && !IsWhitespace(title[0]) && !IsWhitespace(title[|title| - 1])
    requires !HasMarker(body)
    ensures Extract(Printed(Advised(title, body))) == Summary([Issue(title, Error, body + "\n")], 1, 0, 0)
  {
    NewlineAddsNoMarker(body);
    assert Printed(Advised(title, body)) == Advised(title, body + "\n");
    ErrorLedAlone(title, body + "\n");
  }

  /**
   * The printed timeout text is read as one error issue exactly when the
   * message holds no marker; a marker in the message adds to the count.
   */
  lemma TimeoutFeed(msg: string)
    ensures var x := Extract(Printed(ReviewFor(Timeout, msg)));
      && (x.Total() == 1 <==> !HasMarker(msg))
      && (!HasMarker(msg) ==> x == Summary([Issue(TimeoutTitle, Error, Body(Timeout, msg) + "\n")], 1, 0, 0))
  {
    HeadingShape(Timeout);
    TimeoutBodyMarker(msg);
    NewlineAddsNoMarker(Body(Timeout, msg));
    assert Printed(ReviewFor(Timeout, msg)) == Advised(TimeoutTitle, Body(Timeout, msg) + "\n");
    ErrorLed(TimeoutTitle, Body(Timeout, msg) + "\n");
  }

  /**
   * The printed generic text holds a marker exactly when the message does;
   * without one the extension shows it whole, as general feedback.
   */
  lemma GenericFeed(msg: string)
    ensures HasMarker(Printed(ReviewFor(Unknown, msg))) <==> HasMarker(msg)
    ensures !HasMarker(msg) ==>
      Extract(Printed(ReviewFor(Unknown, msg)))
        == Summary([Issue("General Feedback", Success, GenericLead + msg + "\n")], 0, 0, 1)
  {
    GenericMarker(msg);
    NewlineAddsNoMarker(GenericLead + msg);
  }
}
