/**
 * The decision logic of the science tutor's content moderator: the query
 * sent to the guideline-backed moderator engine, how its reply is read as a
 * verdict, the correction prompt sent to the corrector engine, how the
 * corrected text is unquoted, and `forward`, which keeps or replaces the
 * tutor's response. Both engines are oracles: total functions from the
 * prompt to the reply text.
 */
module Moderator {
  import opened Text

  /** `"` + `x` + `"`, as the source's f-strings quote their arguments. */
  function Quoted(x: string): string {
    "\"" + x + "\""
  }

  /** `x` stands in `s` at offset `p`, with a double quote on either side. */
  predicate QuotedAt(s: string, x: string, p: int) {
    1 <= p && p + |x| < |s| && s[p - 1] == '"' && s[p..p + |x|] == x && s[p + |x|] == '"'
  }

  lemma QuotedBetween(before: string, x: string, after: string)
    ensures QuotedAt(before + Quoted(x) + after, x, |before| + 1)
  {
  }

  /** The moderation query, around the quoted response. */
  const QueryHead: string :=
    "\nBased on the moderation guidelines, is the following response appropriate? \n"
    + "Begin with \"Yes\" or \"No\" followed by your reasoning.\n\n\n\n**Response:**\n\n"
  const QueryTail: string := "\n        "

  /** The query `moderate_response` sends to the moderator engine: the
      response appears verbatim, in double quotes, and can be read back. */
  function ModerationQuery(aiResponse: string): (q: string)
    ensures QueryHead <= q && EndsWith(q, "\"" + QueryTail)
    ensures QuotedAt(q, aiResponse, |QueryHead| + 1)
    ensures |q| == |QueryHead| + |aiResponse| + 2 + |QueryTail|
  {
    QuotedBetween(QueryHead, aiResponse, QueryTail);
    QueryHead + Quoted(aiResponse) + QueryTail
  }

  /** The feedback kept from the moderator's reply: the first line that is
      non-empty before stripping, stripped; "" when every line is empty. */
  function FirstNonEmptyLine(lines: seq<string>): (feedback: string)
    ensures (forall i :: 0 <= i < |lines| ==> lines[i] == "") ==> feedback == ""
    ensures forall k :: 0 <= k < |lines| && lines[k] != "" && (forall j :: 0 <= j < k ==> lines[j] == "")
              ==> feedback == Strip(lines[k])
  {
    if lines == [] then ""
    else if lines[0] != "" then Strip(lines[0])
    else
      assert forall i :: 1 <= i < |lines| ==> lines[i] == lines[1..][i - 1];
      FirstNonEmptyLine(lines[1..])
  }

  /** `next((r.strip() for r in reply.split('\n') if r), "")` */
  function ModeratorFeedback(reply: string): string {
    FirstNonEmptyLine(Split(reply, '\n'))
  }

  /** `feedback.lower().startswith("yes")` */
  predicate IsAppropriate(feedback: string) {
    "yes" <= ToLower(feedback)
  }

  /** Approval means the feedback's first three characters spell "yes" in any
      mix of cases: "No, ..." rejects and "YES, ..." approves. */
  lemma AppropriateSpelling(feedback: string)
    ensures IsAppropriate(feedback) <==>
      |feedback| >= 3 && feedback[0] in "yY" && feedback[1] in "eE" && feedback[2] in "sS"
  {
  }

  /** `moderate_response`, given the moderator engine's reply text. */
  function ModerateResponse(reply: string): (verdict: (string, bool))
    ensures verdict.0 == ModeratorFeedback(reply)
    ensures verdict.1 == IsAppropriate(verdict.0)
  {
    var feedback := ModeratorFeedback(reply);
    (feedback, IsAppropriate(feedback))
  }

  /** A reply made only of line breaks (or empty) yields no feedback and
      judges the response inappropriate. */
  lemma EmptyReplyRejects(reply: string)
    requires forall i :: 0 <= i < |reply| ==> reply[i] == '\n'
    ensures ModerateResponse(reply) == ("", false)
  {
    SplitOnlySeps(reply, '\n');
  }

  /** A first line holding only whitespace is taken (it is non-empty before
      stripping), so the feedback is "" and the response is rejected even when
      a later line says "Yes". */
  lemma BlankFirstLineRejects(firstLine: string, rest: string)
    requires firstLine != [] && '\n' !in firstLine
    requires forall i :: 0 <= i < |firstLine| ==> IsSpace(firstLine[i])
    ensures ModerateResponse(firstLine + "\n" + rest) == ("", false)
  {
    var reply := firstLine + "\n" + rest;
    FirstLineOfSplit(firstLine, rest);
    StripSpec(firstLine);
  }

  /** A reply whose first line starts with "Yes" (no leading whitespace)
      approves the response, whatever follows. */
  lemma YesFirstLineApproves(firstLine: string, rest: string)
    requires '\n' !in firstLine && "Yes" <= firstLine
    ensures ModerateResponse(firstLine + "\n" + rest).1
  {
    FirstLineOfSplit(firstLine, rest);
    assert TrimStart(firstLine) == firstLine;
    TrimEndSpec(firstLine);
    var stripped := Strip(firstLine);
    assert !IsSpace(firstLine[2]);
    assert |stripped| >= 3;
    assert stripped[..3] == firstLine[..3];
    AppropriateSpelling(stripped);
  }

  lemma FirstLineOfSplit(firstLine: string, rest: string)
    requires '\n' !in firstLine
    ensures Split(firstLine + "\n" + rest, '\n')[0] == firstLine
  {
    var parts := Split(rest, '\n');
    JoinSplit(rest, '\n');
    JoinCons(firstLine, parts, "\n");
    assert Join([firstLine] + parts, "\n") == firstLine + "\n" + rest;
    SplitJoin([firstLine] + parts, '\n');
  }

  lemma {:induction false} JoinCons(first: string, parts: seq<string>, sep: string)
    requires |parts| >= 1
    ensures Join([first] + parts, sep) == first + sep + Join(parts, sep)
    decreases |parts|
  {
    if |parts| > 1 {
      var front := parts[..|parts| - 1];
      JoinCons(first, front, sep);
      assert ([first] + parts)[..|parts|] == [first] + front;
    } else {
      assert [first] + parts == [first, parts[0]];
    }
  }

  /** The correction prompt, around the three quoted inputs. */
  const CorrectionIntro: string :=
    "\nThe AI tutor gave the following inappropriate response to the student's prompt:\n\n"
    + "        Student's prompt: "
  const CorrectionBeforeResponse: string := "\n        AI tutor's response: "
  const CorrectionBeforeFeedback: string := "\n        Moderator's feedback: "
  const CorrectionTask: string :=
    "\n\nYour Task: Provide a corrected response to the student's prompt that is appropriate "
    + "based on the guidelines. Respond with ONLY WITH THE CORRECTED RESPONSE.\n        "

  /** The prompt `correct_response` sends to the corrector engine. */
  function CorrectionPrompt(studentPrompt: string, aiResponse: string, feedback: string): string {
    CorrectionIntro + Quoted(studentPrompt) + CorrectionBeforeResponse + Quoted(aiResponse)
      + CorrectionBeforeFeedback + Quoted(feedback) + CorrectionTask
  }

  /** Three texts quoted between four fixed pieces each stand, quoted, at
      the offsets the pieces before them give. */
  lemma ThreeQuoted(a: string, x: string, b: string, y: string, c: string, z: string, d: string)
    ensures var s := a + Quoted(x) + b + Quoted(y) + c + Quoted(z) + d;
      var px := |a| + 1;
      var py := px + |x| + 1 + |b| + 1;
      var pz := py + |y| + 1 + |c| + 1;
      QuotedAt(s, x, px) && QuotedAt(s, y, py) && QuotedAt(s, z, pz)
  {
  }

  /** The correction prompt holds the student's prompt, the tutor's response
      and the feedback, each verbatim in double quotes, in that order. */
  lemma CorrectionPromptQuotesInputs(studentPrompt: string, aiResponse: string, feedback: string)
    ensures var p := CorrectionPrompt(studentPrompt, aiResponse, feedback);
      var p1 := |CorrectionIntro| + 1;
      var p2 := p1 + |studentPrompt| + 1 + |CorrectionBeforeResponse| + 1;
      var p3 := p2 + |aiResponse| + 1 + |CorrectionBeforeFeedback| + 1;
      QuotedAt(p, studentPrompt, p1) && QuotedAt(p, aiResponse, p2) && QuotedAt(p, feedback, p3)
  {
    ThreeQuoted(CorrectionIntro, studentPrompt, CorrectionBeforeResponse, aiResponse,
      CorrectionBeforeFeedback, feedback, CorrectionTask);
  }

  /** The optional unquoting in `correct_response`: when the text both starts
      and ends with '"', the slice `[1:-1]` drops one character at each end (a
      lone '"' becomes ""); otherwise the text is kept. */
  function StripQuotes(s: string): (r: string)
    ensures |s| >= 2 && s[0] == '"' && s[|s| - 1] == '"' ==> s == "\"" + r + "\""
    ensures s == "\"" ==> r == ""
    ensures !("\"" <= s && EndsWith(s, "\"")) ==> r == s
  {
    if "\"" <= s && EndsWith(s, "\"") then
      (if |s| >= 2 then s[1..|s| - 1] else "")
    else s
  }

  /** Unquoting undoes quoting, and removes only one pair. */
  lemma StripQuotesOnce(x: string)
    ensures StripQuotes("\"" + x + "\"") == x
    ensures StripQuotes("\"\"" + x + "\"\"") == "\"" + x + "\""
  {
  }

  /** The dictionary `forward` returns. */
  datatype ModerationRecord = ModerationRecord(
    studentPrompt: string,
    aiResponse: string,
    moderatorFeedback: string,
    finalResponse: string)

  /** What `forward` returns, with the prompts it sent to the corrector engine. */
  datatype Forwarded = Forwarded(record: ModerationRecord, correctorPrompts: seq<string>)

  /** `forward`: moderate, then correct only if the response was rejected. */
  function Forward(studentPrompt: string, aiResponse: string,
                   moderatorEngine: string -> string, correctorEngine: string -> string): (x: Forwarded)
    ensures x.record.studentPrompt == studentPrompt && x.record.aiResponse == aiResponse
    ensures x.record.moderatorFeedback == ModeratorFeedback(moderatorEngine(ModerationQuery(aiResponse)))
    ensures IsAppropriate(x.record.moderatorFeedback) ==>
      x.correctorPrompts == [] && x.record.finalResponse == aiResponse
    ensures !IsAppropriate(x.record.moderatorFeedback) ==>
      x.correctorPrompts == [CorrectionPrompt(studentPrompt, aiResponse, x.record.moderatorFeedback)]
      && x.record.finalResponse == StripQuotes(correctorEngine(x.correctorPrompts[0]))
  {
    var (feedback, isAppropriate) := ModerateResponse(moderatorEngine(ModerationQuery(aiResponse)));
    if !isAppropriate then
      var prompt := CorrectionPrompt(studentPrompt, aiResponse, feedback);
      Forwarded(ModerationRecord(studentPrompt, aiResponse, feedback, StripQuotes(correctorEngine(prompt))), [prompt])
    else
      Forwarded(ModerationRecord(studentPrompt, aiResponse, feedback, aiResponse), [])
  }

  /** If the moderator's reply opens with a "Yes" line, the tutor's response
      is passed on unchanged and the corrector is never asked. */
  lemma ApprovedResponseKept(studentPrompt: string, aiResponse: string,
                             moderatorEngine: string -> string, correctorEngine: string -> string,
                             firstLine: string, rest: string)
    requires moderatorEngine(ModerationQuery(aiResponse)) == firstLine + "\n" + rest
    requires '\n' !in firstLine && "Yes" <= firstLine
    ensures var x := Forward(studentPrompt, aiResponse, moderatorEngine, correctorEngine);
      x.record.finalResponse == aiResponse && x.correctorPrompts == []
  {
    YesFirstLineApproves(firstLine, rest);
  }

  /** If the moderator's reply is empty, the final response is the
      corrector's reply to a prompt that quotes an empty feedback, unquoted. */
  lemma EmptyVerdictCorrected(studentPrompt: string, aiResponse: string,
                              moderatorEngine: string -> string, correctorEngine: string -> string)
    requires moderatorEngine(ModerationQuery(aiResponse)) == ""
    ensures var x := Forward(studentPrompt, aiResponse, moderatorEngine, correctorEngine);
      x.record.moderatorFeedback == ""
      && x.correctorPrompts == [CorrectionPrompt(studentPrompt, aiResponse, "")]
      && x.record.finalResponse == StripQuotes(correctorEngine(CorrectionPrompt(studentPrompt, aiResponse, "")))
  {
  }
}
