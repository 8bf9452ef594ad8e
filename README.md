# Educational prompt engineering: the deterministic core, in Dafny

The repository is a set of Streamlit pages around hosted language models:
a science tutor with a content moderator, a tutor builder, a report-comment
prompt builder, and a tutor page that saves conversations and accepts
dropped files. This project models the small deterministic rules inside
that glue and proves what they promise. Every language model, retrieval
engine and file decoder is an oracle, a total function from its input text
to its output text.

- `wrappers.dfy` (`Wrappers`): `Option` for Python's `None`, and `Result`
  for an operation that raises.
- `text.dfy` (`Text`): the `str` operations the core uses, over
  `seq<char>`: `split` on one character, `join`, `strip`, `lower`,
  `capitalize` and `endswith`, all restricted to ASCII. It also proves that
  `split` and `join` undo each other and where the last part of a split lies.
- `save_to_html.dfy` (`SaveToHtml`): the transcript serialiser and the
  file-name validator of `tutor/save_to_html.py`.
  - `_indent_content` and `convert_messages_to_markdown` are methods with
    loops.
  - Each is proved equal to a recursive specification: the fence state
    machine `IndentLines` and the block layout `Block`.
  - Lemmas state what that specification guarantees: line counts, suffixes,
    fence parity and headings.
- `moderator.dfy` (`Moderator`): the decision logic of
  `science_tutor/moderator_llm.py`.
  - The moderation query and the correction prompt.
  - Reading the verdict off the first non-empty line.
  - The quote strip.
  - `forward`, which returns the source's record together with the list of
    prompts sent to the corrector, so that "the corrector is not asked" can
    be stated.
- `chatbot.dfy` (`Chatbot`): `AITutor` of `science_tutor/chatbot_llm.py`.
  - It is a class whose `messageHistory` field the methods extend.
  - Its ghost fields record the instructions and the student inputs so far.
  - Its invariant ties the history to the specification `Conversation`.
- `drop_file.dfy` (`DropFile`): `tutor/drop_file.py`.
  - Pure parts: type dispatch by file name, the BOM strip, the zip member
    filter and the prompt frame.
  - The `Session` class holds the widget's state: the zip flag and the
    uploader key.
- `tutor_data.dfy` (`TutorData`): the first-match lookup
  `select_instructions` over an in-memory table.
  - When no row matches, the source's error path names an undefined
    variable. The model returns `Failure(NameError)` for that case.
- `create_tutor.dfy` (`CreateTutor`): the "Create AI Tutor" button of
  `ai_tutors/pages/create_tutor_main.py`, as a class over the page's table,
  the stored table and the session values.
- `report_prompt.dfy` (`ReportPrompt`): `create_llm_prompt`. It is defined
  identically in `report_commenter/llm_prompts.py` and
  `report_commenter/chain_engine.py`, and one function stands for both.

## Model

| member | source | states |
|---|---|---|
| SaveToHtml.IndentLines | tutor/save_to_html.py:27-36 | the fence state machine emits exactly one output line per input line |
| SaveToHtml.IndentOneLine | tutor/save_to_html.py:28-36 | one loop turn: a fence line is emitted unchanged and flips the flag; other lines get "> " outside a fence and the code-block indent inside, with the flag kept |
| SaveToHtml.IndentContent | tutor/save_to_html.py:21-41 | `_indent_content` returns "" for `None`; otherwise it returns the content's '\n'-separated lines run through the state machine from "outside", rejoined with '\n' |
| SaveToHtml.IndentLinesAt | tutor/save_to_html.py:27-36 | output line i is input line i emitted under the flag in force after lines 0..i-1 |
| SaveToHtml.IndentLinesKeepLines | tutor/save_to_html.py:28-36 | output line i ends with input line i, and a fence line is copied unchanged |
| SaveToHtml.FlagBeforeParity | tutor/save_to_html.py:25-29 | starting outside, line i is inside a code block exactly when an odd number of fence lines come before it |
| SaveToHtml.QuotedWithoutFences | tutor/save_to_html.py:31-33 | content without a fence line gets "> " in front of every line |
| SaveToHtml.LineCountPreserved | tutor/save_to_html.py:23-38 | when the indent has no '\n', the output has as many '\n'-separated lines as the content, and output line i ends with content line i |
| SaveToHtml.DefaultIndentKeepsLines | tutor/save_to_html.py:10 | with the default 17-space code-block indent, every content keeps its line count and each output line ends with its content line |
| SaveToHtml.ConvertMessagesToMarkdown | tutor/save_to_html.py:10-19 | the result is one block per message, in order, joined by "\n\n" ("" for no messages); each block is "###*" + capitalised role ("assistant" shown as "tutor") + "*:\n" + indented content + "\n" |
| SaveToHtml.BlockStartsWithHeading | tutor/save_to_html.py:18 | every block starts with its "###*Role*:" heading line |
| SaveToHtml.DisplayedRoles | tutor/save_to_html.py:13-15 | role "assistant" is displayed "Tutor", role "user" "User" |
| SaveToHtml.BlockHeadings | tutor/save_to_html.py:13-18 | an assistant's block starts "###*Tutor*:\n" and a user's "###*User*:\n" |
| SaveToHtml.HasIllegalChar | tutor/save_to_html.py:86 | the search finds a match exactly when some character is one of \ / : " * ? < > \| |
| SaveToHtml.IsValidFileName | tutor/save_to_html.py:73-94 | a name is valid exactly when it has no illegal character, is not one of the 22 reserved words, and has at most 255 characters |
| SaveToHtml.ReservedWordsHaveNoSmallLetter | tutor/save_to_html.py:87-89 | the reserved words are written in capitals and digits only |
| SaveToHtml.NamesWithSmallLetterValid | tutor/save_to_html.py:92-94 | a name of at most 255 characters with no illegal character and some small letter is valid |
| SaveToHtml.LetterNamesValid | tutor/save_to_html.py:92-94 | every name of at most 255 small letters is valid, the empty name included |
| SaveToHtml.ReservedWordsCaseSensitive | tutor/save_to_html.py:87-93 | "CON" and "LPT9" are refused, while "con" and "Con" pass (exact, case-sensitive match) |
| Moderator.ModerationQuery | science_tutor/moderator_llm.py:116-123 | the moderation query starts with the fixed question text (which asks for an answer beginning "Yes" or "No"), then holds the tutor's response verbatim between double quotes, and ends with the closing quote and the fixed tail |
| Moderator.FirstNonEmptyLine | science_tutor/moderator_llm.py:129 | the feedback is the first line that is non-empty before stripping, stripped; it is "" when every line is empty |
| Moderator.AppropriateSpelling | science_tutor/moderator_llm.py:132 | the response is judged appropriate exactly when the feedback's first three characters are y, e, s in any case |
| Moderator.ModerateResponse | science_tutor/moderator_llm.py:126-133 | the verdict pairs the feedback read off the reply with the "yes" test on that feedback |
| Moderator.EmptyReplyRejects | science_tutor/moderator_llm.py:129-132 | a reply made only of line breaks gives feedback "" and is judged inappropriate |
| Moderator.BlankFirstLineRejects | science_tutor/moderator_llm.py:129-132 | a whitespace-only first line is taken, so the feedback is "" and the response is rejected whatever later lines say |
| Moderator.YesFirstLineApproves | science_tutor/moderator_llm.py:129-132 | a reply whose first line starts with "Yes" approves the response |
| Moderator.CorrectionPromptQuotesInputs | science_tutor/moderator_llm.py:148-156 | the correction prompt holds the student's prompt, the tutor's response and the feedback, each verbatim in double quotes, in that order |
| Moderator.StripQuotes | science_tutor/moderator_llm.py:161-163 | text that starts and ends with '"' loses exactly one character at each end (a lone '"' becomes ""); any other text is kept |
| Moderator.StripQuotesOnce | science_tutor/moderator_llm.py:162-163 | unquoting undoes one quoting and only one |
| Moderator.Forward | science_tutor/moderator_llm.py:184-199 | the record echoes prompt and response and carries the moderator's feedback. If approved, the final response is the tutor's and no prompt goes to the corrector. Otherwise exactly one correction prompt is sent and the final response is the corrector's reply, unquoted. |
| Moderator.ApprovedResponseKept | science_tutor/moderator_llm.py:187-191 | when the moderator's reply opens with a "Yes" line, the tutor's response is passed on unchanged and the corrector is not asked |
| Moderator.EmptyVerdictCorrected | science_tutor/moderator_llm.py:187-189 | an empty moderator reply sends a correction prompt quoting an empty feedback, and the final response is the corrector's reply to it, unquoted |
| Chatbot.SystemPrompt | science_tutor/chatbot_llm.py:34-36 | the system prompt starts with the instructions and ends with "\n\n## Your Task\n\n" and the grades 6-8 sentence, with nothing else |
| Chatbot.ConversationShape | science_tutor/chatbot_llm.py:41-71 | after n turns the log has 2 + 2n messages: the system prompt, the greeting, then for turn k the student's message and the model's answer to the log up to that message |
| Chatbot.ConversationExtends | science_tutor/chatbot_llm.py:41-71 | the log is append-only: a later log keeps every earlier message unchanged and in place |
| Chatbot.AITutor.constructor | science_tutor/chatbot_llm.py:26-44 | a new tutor's history is exactly the system prompt, then the assistant greeting |
| Chatbot.AITutor.InitiateConversation | science_tutor/chatbot_llm.py:46-57 | appends the fixed greeting as an assistant message and nothing else |
| Chatbot.AITutor.GetResponse | science_tutor/chatbot_llm.py:59-73 | the history grows by exactly two: the student's message, then the reply. The model is asked with the history that already ends with the student's message. The returned text is the content of the new last entry. The student input is recorded, and a history that was the conversation of the inputs so far stays the conversation of the inputs including this one. |
| DropFile.FileType | tutor/drop_file.py:68 | the type is no longer than the name |
| DropFile.FileTypeAfterLastDot | tutor/drop_file.py:68 | the type is the lower-cased text after the last '.', or the whole name lower-cased when there is no '.' |
| DropFile.FileTypeOfExtension | tutor/drop_file.py:68 | a name ending in "." + ext, where ext has no '.', has type ext lower-cased |
| DropFile.FileTypeWithoutDot | tutor/drop_file.py:68 | a name without '.' has itself, lower-cased, as its type |
| DropFile.StripBom | tutor/drop_file.py:44-45 | the result is the text or the text minus its first character |
| DropFile.StripBomOnce | tutor/drop_file.py:44-45 | a leading U+FEFF is removed once, even when a second one follows; text not starting with it is unchanged |
| DropFile.KeptFilesAppend | tutor/drop_file.py:114-127 | filtering the members keeps archive order: filtering a concatenation concatenates the filtered parts |
| DropFile.KeptFilesMembers | tutor/drop_file.py:114-127 | a (name, content) pair is listed exactly when some member with that name is not under "__MACOSX", is not a directory, and reads as that content |
| DropFile.KeptFilesSkipMacosx | tutor/drop_file.py:116 | no listed name starts with "__MACOSX" |
| DropFile.ExtractTextFromZip | tutor/drop_file.py:94-131 | the loop lists exactly the kept members' (name, content) pairs, in archive order |
| DropFile.ExtractionByType | tutor/drop_file.py:68-83 | only a zip archive gives a file list; a type not in zip, pdf, rtf, csv is read as plain text; a CSV is converted after the BOM strip |
| DropFile.FileBlocksAppend | tutor/drop_file.py:142-146 | the prompt text of a file list is the blocks of its files in order: blocks of a concatenation concatenate |
| DropFile.FileBlockLayout | tutor/drop_file.py:144-146 | each block holds the file name and the content verbatim at fixed offsets and ends with "\n\n-----\n" |
| DropFile.WrapPromptLayout | tutor/drop_file.py:153-163 | the prompt starts with "```\n", holds the context text verbatim after the heading lines, ends with "Query: " + query + "\nAnswer: " and then the closing "\n```" |
| DropFile.Session.constructor | report_commenter/main.py:54-57 | a session starts with the zip flag clear and the uploader key 0 |
| DropFile.Session.IncrementFileUploaderKey | tutor/drop_file.py:85-92 | the uploader key goes up by one; the zip flag is unchanged |
| DropFile.Session.ExtractTextFromDifferentFileTypes | tutor/drop_file.py:58-83 | the result is the dispatch by type; the zip flag is set exactly when the type is "zip", that is exactly when a file list is returned |
| DropFile.Session.ChangeToPromptText | tutor/drop_file.py:133-166 | with the flag set, the context is one block per file in order and the flag is cleared; otherwise the context is the text unchanged; either way it is framed with the query |
| TutorData.SelectInstructions | ai_tutors/tutor_data.py:17-27 | fails exactly when no row has that Name; otherwise returns the Instructions and Guidelines of the first row whose Name equals the tool name, both from that one row |
| TutorData.SelectIgnoresLaterRows | ai_tutors/tutor_data.py:19-25 | rows added after a matching row do not change the lookup's result |
| CreateTutor.CreateOutcome | ai_tutors/pages/create_tutor_main.py:52-73 | "missing info" exactly when a field is empty; "name exists" exactly when all are filled and the name is in the table; "success" exactly when all are filled and the name is new |
| CreateTutor.AfterCreate | ai_tutors/pages/create_tutor_main.py:59-64 | on success the new table is the old one with exactly the row (name, instructions, guidelines) appended at the end; otherwise it is the old table |
| CreateTutor.CreateKeepsNamesUnique | ai_tutors/pages/create_tutor_main.py:55-64 | names that were unique before a create are unique after it |
| CreateTutor.CreatedTutorIsSelected | ai_tutors/pages/create_tutor_main.py:67-68 | after a successful create, the lookup by the new name returns the new instructions and guidelines |
| CreateTutor.CreateTutorPage.constructor | ai_tutors/pages/create_tutor_main.py:11-17 | the page starts with the stored table read in and no banner |
| CreateTutor.CreateTutorPage.CreateAiTutor | ai_tutors/pages/create_tutor_main.py:51-74 | sets the banner to the outcome and the table to the table after the create. On success, the table is written and the session's instructions, guidelines and tool name are the new ones. Otherwise storage and session values are unchanged. |
| ReportPrompt.CreateLlmPrompt | report_commenter/llm_prompts.py:2-6 | the prompt's length is the six fields' lengths plus 10; it starts with the student data and ends with the pronoun setting |
| ReportPrompt.FieldsVerbatim | report_commenter/llm_prompts.py:5 | every field stands verbatim, in parameter order, at the offset given by the fields before it plus a blank line after each |
| ReportPrompt.PromptIsJoinOfFields | report_commenter/chain_engine.py:4-8 | the prompt (the same f-string in both files) is the six fields joined by "\n\n" |

## Left out

- `markdown_to_html` in `tutor/save_to_html.py` is not part of this model.
  It depends on a Markdown library with a KaTeX extension, Pygments CSS and
  regexes over the library's output.
- Case and whitespace follow ASCII only. Python's `lower`, `capitalize` and
  `strip` use the full Unicode tables.
- Language models, embeddings and retrieval engines are oracles, a total
  function from prompt or history to reply text. This covers the
  moderator's `query`, the corrector's `chat` and `AITutor`'s `llm.chat`.
  Their construction (`ContentModerator.__init__`, the `load_*` functions,
  environment variables) is not modelled.
- File decoding is not modelled: UTF-8 decoding of uploaded bytes, PDF and
  RTF to text, CSV rows to JSON. A file's decoded text is a given value and
  the decoders are oracles.
- Zip extraction to a temporary directory is replaced by the archive's
  listing, one entry per name of the archive's name list, in order. An
  entry's `isDirectory` and `content` stand for what the source's directory
  test and read give on the path built by joining the temporary directory
  with that raw name (`None` when the read raises). How that path relates to
  the archive's own member is not modelled. `extractall` sanitises names
  when it writes, but the join uses the raw name. So an absolute name reads a
  file outside the temporary directory, and a name that occurs twice reads
  whichever copy was extracted last.
- Console output is not modelled: the printed system prompt
  (`display_system`), the zip read errors, and the created tutor's name.
- The tutor table's CSV storage on S3 (`read_csv`, `write_csv`) becomes an
  in-memory sequence, and a write replaces the stored sequence. pandas'
  handling of empty cells as NaN is not modelled.
- Page rendering is not modelled: Streamlit widgets, reruns, the banner's
  messages, and the example lookup the page makes on load.
- `get_message_history` appears only in `AITutor`'s docstring and is not
  defined in the source.
- `ai_tutors/tutor_llm.py` and `science_tutor/tutor_llm.py` are not part of
  this model. The first calls a moderator interface that differs from the
  one shown. The second refers to names it never defines.
- DropFile.Session.ChangeToPromptText: requires the zip flag to agree with
  the kind of value extracted. Every caller passes the result of the
  extraction that set the flag. The source does not check this, and a
  mismatch would fail to unpack or would format a list's representation.
