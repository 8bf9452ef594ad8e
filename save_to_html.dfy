/**
 * The chat-transcript serialiser and the file-name validator of the
 * tutor's "save conversation" feature: messages become Markdown blocks
 * whose prose lines are block-quoted and whose fenced code is indented,
 * and a proposed download name is checked against Windows' rules.
 */
module SaveToHtml {
  import opened Wrappers
  import opened Text

  /** One chat message; the content may be missing (Python `None`). */
  datatype Message = Message(role: string, content: Option<string>)

  /** The default `code_block_indent`: seventeen spaces. */
  const DefaultCodeBlockIndent: string := "                 "

  /** A line opens or closes a code fence when, stripped, it starts with three backticks. */
  predicate IsFence(line: string) {
    "```" <= Strip(line)
  }

  /** The fence flag after reading `line` with flag `inCode`. */
  function FlagAfter(line: string, inCode: bool): bool {
    if IsFence(line) then !inCode else inCode
  }

  /** How `line` is emitted when the fence flag is `inCode`. */
  function IndentLine(line: string, inCode: bool, indent: string): string {
    if IsFence(line) then line
    else if !inCode then "> " + line
    else indent + line
  }

  /** The line-by-line state machine of `_indent_content`, from fence flag
      `inCode`: one output line per input line. */
  function IndentLines(lines: seq<string>, inCode: bool, indent: string): (out: seq<string>)
    ensures |out| == |lines|
  {
    if lines == [] then []
    else [IndentLine(lines[0], inCode, indent)] + IndentLines(lines[1..], FlagAfter(lines[0], inCode), indent)
  }

  /** The fence flag in force when line `i` is read. */
  function FlagBefore(lines: seq<string>, inCode: bool, i: nat): bool
    requires i <= |lines|
  {
    if i == 0 then inCode else FlagBefore(lines[1..], FlagAfter(lines[0], inCode), i - 1)
  }

  /** The number of fence lines in `lines`. */
  function CountFences(lines: seq<string>): nat {
    if lines == [] then 0 else (if IsFence(lines[0]) then 1 else 0) + CountFences(lines[1..])
  }

  /** What `_indent_content` returns: "" for `None`, otherwise the text split on
      '\n', run through the state machine from "outside a fence", and rejoined. */
  function IndentedContent(content: Option<string>, indent: string): string {
    match content
    case None => ""
    case Some(text) => Join(IndentLines(Split(text, '\n'), false, indent), "\n")
  }

  /** One turn of the loop in `_indent_content`: the line to emit and the new fence flag. */
  method IndentOneLine(line: string, inCodeBlock: bool, codeBlockIndent: string) returns (emitted: string, nowInCode: bool)
    ensures emitted == IndentLine(line, inCodeBlock, codeBlockIndent)
    ensures nowInCode == FlagAfter(line, inCodeBlock)
  {
    nowInCode := inCodeBlock;
    if IsFence(line) {
      nowInCode := !inCodeBlock;
      emitted := line;
    } else if !inCodeBlock {
      emitted := "> " + line;
    } else {
      emitted := codeBlockIndent + line;
    }
  }

  /** `_indent_content`: the loop over the lines with its fence flag. */
  method IndentContent(content: Option<string>, codeBlockIndent: string) returns (r: string)
    ensures r == IndentedContent(content, codeBlockIndent)
  {
    if content.None? {
      return "";
    }
    var lines := Split(content.value, '\n');
    var indentedLines: seq<string> := [];
    var inCodeBlock := false;
    for i := 0 to |lines|
      invariant indentedLines + IndentLines(lines[i..], inCodeBlock, codeBlockIndent)
             == IndentLines(lines, false, codeBlockIndent)
    {
      IndentLinesStep(lines, i, inCodeBlock, codeBlockIndent);
      var emitted;
      emitted, inCodeBlock := IndentOneLine(lines[i], inCodeBlock, codeBlockIndent);
      indentedLines := indentedLines + [emitted];
    }
    assert lines[|lines|..] == [];
    assert indentedLines == IndentLines(lines, false, codeBlockIndent);
    r := Join(indentedLines, "\n");
  }

  lemma IndentLinesStep(lines: seq<string>, i: nat, inCode: bool, indent: string)
    requires i < |lines|
    ensures IndentLines(lines[i..], inCode, indent)
         == [IndentLine(lines[i], inCode, indent)] + IndentLines(lines[i + 1..], FlagAfter(lines[i], inCode), indent)
  {
  }

  /** Output line `i` is input line `i` emitted under the flag in force there. */
  lemma {:induction false} IndentLinesAt(lines: seq<string>, inCode: bool, indent: string, i: nat)
    requires i < |lines|
    ensures IndentLines(lines, inCode, indent)[i] == IndentLine(lines[i], FlagBefore(lines, inCode, i), indent)
    decreases i
  {
    if i > 0 {
      IndentLinesAt(lines[1..], FlagAfter(lines[0], inCode), indent, i - 1);
    }
  }

  /** Output line `i` ends with input line `i`, and a fence line is copied unchanged. */
  lemma IndentLinesKeepLines(lines: seq<string>, inCode: bool, indent: string, i: nat)
    requires i < |lines|
    ensures EndsWith(IndentLines(lines, inCode, indent)[i], lines[i])
    ensures IsFence(lines[i]) ==> IndentLines(lines, inCode, indent)[i] == lines[i]
  {
    IndentLinesAt(lines, inCode, indent, i);
  }

  /** A line is inside a code block exactly when an odd number of fence lines
      precede it (starting outside). */
  lemma {:induction false} FlagBeforeParity(lines: seq<string>, inCode: bool, i: nat)
    requires i <= |lines|
    ensures FlagBefore(lines, inCode, i) == (inCode != (CountFences(lines[..i]) % 2 == 1))
    decreases i
  {
    if i > 0 {
      FlagBeforeParity(lines[1..], FlagAfter(lines[0], inCode), i - 1);
      assert lines[..i][1..] == lines[1..][..i - 1];
    }
  }

  /** Text without any fence line gets "> " in front of every line. */
  lemma {:induction false} QuotedWithoutFences(lines: seq<string>, indent: string)
    requires forall i :: 0 <= i < |lines| ==> !IsFence(lines[i])
    ensures forall i :: 0 <= i < |lines| ==> IndentLines(lines, false, indent)[i] == "> " + lines[i]
  {
    forall i | 0 <= i < |lines|
      ensures IndentLines(lines, false, indent)[i] == "> " + lines[i]
    {
      IndentLinesAt(lines, false, indent, i);
      FlagBeforeParity(lines, false, i);
      NoFencesCounted(lines[..i]);
    }
  }

  lemma {:induction false} NoFencesCounted(lines: seq<string>)
    requires forall i :: 0 <= i < |lines| ==> !IsFence(lines[i])
    ensures CountFences(lines) == 0
  {
    if lines != [] {
      NoFencesCounted(lines[1..]);
    }
  }

  /** Emitted lines add no separator the indent does not bring. */
  lemma {:induction false} IndentLinesAvoid(lines: seq<string>, inCode: bool, indent: string, c: char)
    requires c != '>' && c != ' ' && c !in indent
    requires forall i :: 0 <= i < |lines| ==> c !in lines[i]
    ensures forall i :: 0 <= i < |lines| ==> c !in IndentLines(lines, inCode, indent)[i]
  {
    if lines != [] {
      IndentLinesAvoid(lines[1..], FlagAfter(lines[0], inCode), indent, c);
    }
  }

  /** With an indent free of '\n', the output has exactly as many lines as the
      content, and output line `i` ends with content line `i`. */
  lemma LineCountPreserved(text: string, indent: string)
    requires '\n' !in indent
    ensures var inLines := Split(text, '\n');
      var outLines := Split(IndentedContent(Some(text), indent), '\n');
      |outLines| == |inLines| && forall i :: 0 <= i < |inLines| ==> EndsWith(outLines[i], inLines[i])
  {
    var inLines := Split(text, '\n');
    IndentLinesAvoid(inLines, false, indent, '\n');
    SplitJoin(IndentLines(inLines, false, indent), '\n');
    forall i | 0 <= i < |inLines|
      ensures EndsWith(IndentLines(inLines, false, indent)[i], inLines[i])
    {
      IndentLinesKeepLines(inLines, false, indent, i);
    }
  }

  /** The default indent has no '\n', so line count and line suffixes are kept
      for every content. */
  lemma DefaultIndentKeepsLines(text: string)
    ensures var inLines := Split(text, '\n');
      var outLines := Split(IndentedContent(Some(text), DefaultCodeBlockIndent), '\n');
      |outLines| == |inLines| && forall i :: 0 <= i < |inLines| ==> EndsWith(outLines[i], inLines[i])
  {
    LineCountPreserved(text, DefaultCodeBlockIndent);
  }

  /** Role "assistant" is shown as "tutor". */
  function DisplayRole(role: string): string {
    if role == "assistant" then "tutor" else role
  }

  /** One message's block: heading with the capitalised role, the indented content, a newline. */
  function Block(m: Message, indent: string): string {
    "###*" + Capitalize(DisplayRole(m.role)) + "*:\n" + IndentedContent(m.content, indent) + "\n"
  }

  /** `convert_messages_to_markdown`: one block per message, in order, joined by a blank line. */
  method ConvertMessagesToMarkdown(messages: seq<Message>, codeBlockIndent: string) returns (r: string)
    ensures exists blocks: seq<string> ::
      |blocks| == |messages| && r == Join(blocks, "\n\n") &&
      forall i :: 0 <= i < |messages| ==> blocks[i] == Block(messages[i], codeBlockIndent)
  {
    var markdownLines: seq<string> := [];
    for k := 0 to |messages|
      invariant |markdownLines| == k
      invariant forall i :: 0 <= i < k ==> markdownLines[i] == Block(messages[i], codeBlockIndent)
    {
      var message := messages[k];
      var role := message.role;
      if role == "assistant" {
        role := "tutor";
      }
      var indentedContent := IndentContent(message.content, codeBlockIndent);
      markdownLines := markdownLines + ["###*" + Capitalize(role) + "*:\n" + indentedContent + "\n"];
    }
    r := Join(markdownLines, "\n\n");
  }

  /** Every block starts with its heading "###*<Role>*:" and a newline. */
  lemma BlockStartsWithHeading(m: Message, indent: string)
    ensures "###*" + Capitalize(DisplayRole(m.role)) + "*:\n" <= Block(m, indent)
  {
  }

  /** Role "assistant" is displayed "Tutor" and role "user" "User". */
  lemma DisplayedRoles()
    ensures Capitalize(DisplayRole("assistant")) == "Tutor"
    ensures Capitalize(DisplayRole("user")) == "User"
  {
  }

  /** An assistant's block is headed "###*Tutor*:" and a user's "###*User*:". */
  lemma BlockHeadings(content: Option<string>, indent: string)
    ensures "###*Tutor*:\n" <= Block(Message("assistant", content), indent)
    ensures "###*User*:\n" <= Block(Message("user", content), indent)
  {
  }

  /** The characters `re.search` looks for. */
  const IllegalChars: seq<char> := ['\\', '/', ':', '"', '*', '?', '<', '>', '|']

  /** Windows' reserved device names, matched exactly (case-sensitive). */
  const ReservedWords: seq<string> := [
    "CON", "PRN", "AUX", "NUL", "COM1", "COM2", "COM3", "COM4",
    "COM5", "COM6", "COM7", "COM8", "COM9", "LPT1", "LPT2", "LPT3",
    "LPT4", "LPT5", "LPT6", "LPT7", "LPT8", "LPT9"]

  /** The scan `re.search(illegal_chars, name)` performs. */
  function HasIllegalChar(name: string): (found: bool)
    ensures found <==> exists i :: 0 <= i < |name| && name[i] in IllegalChars
  {
    if name == [] then false else name[0] in IllegalChars || HasIllegalChar(name[1..])
  }

  /** `is_valid_file_name`: no illegal character, not a reserved word, at most 255 characters. */
  function IsValidFileName(name: string): (ok: bool)
    ensures ok <==> (forall i :: 0 <= i < |name| ==> name[i] !in IllegalChars)
                    && name !in ReservedWords && |name| <= 255
  {
    !(HasIllegalChar(name) || name in ReservedWords || |name| > 255)
  }

  /** Every reserved word is spelt in capitals and digits only. */
  lemma ReservedWordsHaveNoSmallLetter(w: string)
    requires w in ReservedWords
    ensures forall i :: 0 <= i < |w| ==> !IsLower(w[i])
  {
  }

  /** A name of at most 255 characters with no illegal character passes as
      soon as it has a small letter, since the reserved words are matched
      case-sensitively. */
  lemma NamesWithSmallLetterValid(name: string)
    requires |name| <= 255
    requires forall i :: 0 <= i < |name| ==> name[i] !in IllegalChars
    requires exists i :: 0 <= i < |name| && IsLower(name[i])
    ensures IsValidFileName(name)
  {
    if name in ReservedWords {
      ReservedWordsHaveNoSmallLetter(name);
    }
  }

  /** Any name of at most 255 small letters passes, the empty name included. */
  lemma LetterNamesValid(name: string)
    requires |name| <= 255
    requires forall i :: 0 <= i < |name| ==> 'a' <= name[i] <= 'z'
    ensures IsValidFileName(name)
  {
  }

  /** Reserved words are matched case-sensitively: "CON" and "LPT9" are
      refused, "con" and "Con" pass. */
  lemma ReservedWordsCaseSensitive()
    ensures !IsValidFileName("CON") && !IsValidFileName("LPT9")
    ensures IsValidFileName("con") && IsValidFileName("Con")
  {
    assert ReservedWords[21] == "LPT9";
    LetterNamesValid("con");
    assert IsLower("Con"[1]);
    NamesWithSmallLetterValid("Con");
  }
}
