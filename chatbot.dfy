/**
 * The science tutor's conversation log: a system prompt built from the
 * tutor's instructions, a fixed greeting, then one user message and one
 * assistant reply per turn. The chat model is an oracle: a total function
 * from the history it is shown to the text of its reply.
 */
module Chatbot {

  datatype Role = System | User | Assistant

  datatype ChatMessage = ChatMessage(role: Role, content: string)

  const TaskHeading: string := "\n\n## Your Task\n\n"
  const TaskSentence: string :=
    "You are a tutor for science students in grades 6-8. Following the instructions above, "
    + "provide supportive assistance to the student user."

  /** The greeting `initiate_conversation` appends, with the source's line
      breaks and the eight trailing spaces of its triple-quoted string. */
  const Greeting: string :=
    "\nHi! I'm here to help you with your science questions. \n\n"
    + "I won't do the work for you, but I'll guide you through each step so you can "
    + "understand and feel more confident.\n\n"
    + "To start, **what grade are you in and what do you need help with?**\n        "

  /** The system prompt: the instructions verbatim, the task heading, then
      the fixed grades 6-8 sentence. */
  function SystemPrompt(instructions: string): (p: string)
    ensures instructions <= p
    ensures EndsWithTask(p)
    ensures |p| == |instructions| + |TaskHeading| + |TaskSentence|
  {
    instructions + TaskHeading + TaskSentence
  }

  predicate EndsWithTask(p: string) {
    |TaskHeading + TaskSentence| <= |p| && p[|p| - |TaskHeading + TaskSentence|..] == TaskHeading + TaskSentence
  }

  /** The history right after construction. */
  function InitialHistory(instructions: string): seq<ChatMessage> {
    [ChatMessage(System, SystemPrompt(instructions)), ChatMessage(Assistant, Greeting)]
  }

  /** One call of `get_response`: the student's message is appended, the
      model answers the history that ends with it, the answer is appended. */
  function Turn(history: seq<ChatMessage>, studentInput: string, llm: seq<ChatMessage> -> string): seq<ChatMessage> {
    var asked := history + [ChatMessage(User, studentInput)];
    asked + [ChatMessage(Assistant, llm(asked))]
  }

  /** The history after construction and one turn per student input, in order. */
  function Conversation(instructions: string, inputs: seq<string>, llm: seq<ChatMessage> -> string): seq<ChatMessage>
    decreases |inputs|
  {
    if inputs == [] then InitialHistory(instructions)
    else Turn(Conversation(instructions, inputs[..|inputs| - 1], llm), inputs[|inputs| - 1], llm)
  }

  /** The whole log: the two opening messages, then for each input k the
      user's message at 2 + 2k and, right after it, the model's answer to the
      history up to and including that message. */
  lemma {:induction false} ConversationShape(instructions: string, inputs: seq<string>, llm: seq<ChatMessage> -> string)
    ensures var c := Conversation(instructions, inputs, llm);
      |c| == 2 + 2 * |inputs| && c[..2] == InitialHistory(instructions) &&
      forall k :: 0 <= k < |inputs| ==>
        c[2 + 2 * k] == ChatMessage(User, inputs[k]) &&
        c[3 + 2 * k] == ChatMessage(Assistant, llm(c[..3 + 2 * k]))
    decreases |inputs|
  {
    if inputs != [] {
      var front := inputs[..|inputs| - 1];
      ConversationShape(instructions, front, llm);
      var before := Conversation(instructions, front, llm);
      var c := Conversation(instructions, inputs, llm);
      assert c[..|before|] == before;
      forall k | 0 <= k < |inputs|
        ensures c[2 + 2 * k] == ChatMessage(User, inputs[k])
        ensures c[3 + 2 * k] == ChatMessage(Assistant, llm(c[..3 + 2 * k]))
      {
        if k < |front| {
          assert inputs[k] == front[k];
          assert c[..3 + 2 * k] == before[..3 + 2 * k];
        } else {
          assert c[..3 + 2 * k] == before + [ChatMessage(User, inputs[k])];
        }
      }
    }
  }

  /** The log is append-only: a conversation that continues another keeps
      every earlier message, unchanged and in place. */
  lemma {:induction false} ConversationExtends(instructions: string, inputs: seq<string>, more: seq<string>,
                                               llm: seq<ChatMessage> -> string)
    ensures Conversation(instructions, inputs, llm) <= Conversation(instructions, inputs + more, llm)
    decreases |more|
  {
    if more != [] {
      var all := inputs + more;
      var front := more[..|more| - 1];
      assert all[..|all| - 1] == inputs + front;
      ConversationExtends(instructions, inputs, front, llm);
    } else {
      assert inputs + more == inputs;
    }
  }

  /** `AITutor`: the chat model it was built with and the message history it
      keeps. The ghost fields record the instructions and the student inputs
      so far; `Valid` says they determine the history, which holds from
      construction on for as long as only `GetResponse` is called. */
  class AITutor {
    const llm: seq<ChatMessage> -> string
    ghost const instructions: string
    var messageHistory: seq<ChatMessage>
    ghost var studentInputs: seq<string>

    ghost predicate Valid()
      reads this
    {
      messageHistory == Conversation(instructions, studentInputs, llm)
    }

    /** `__init__`, given the text of the instructions file: the history is
        the system prompt, then the greeting. */
    constructor (llmModel: seq<ChatMessage> -> string, instructions: string)
      ensures Valid() && studentInputs == []
      ensures llm == llmModel && this.instructions == instructions
      ensures messageHistory == [ChatMessage(System, SystemPrompt(instructions)), ChatMessage(Assistant, Greeting)]
    {
      llm := llmModel;
      this.instructions := instructions;
      messageHistory := [];
      studentInputs := [];
      new;
      messageHistory := messageHistory + [ChatMessage(System, SystemPrompt(instructions))];
      InitiateConversation();
    }

    /** `initiate_conversation`: appends the greeting as an assistant message. */
    method InitiateConversation()
      modifies this
      ensures messageHistory == old(messageHistory) + [ChatMessage(Assistant, Greeting)]
      ensures studentInputs == old(studentInputs)
    {
      messageHistory := messageHistory + [ChatMessage(Assistant, Greeting)];
    }

    /** `get_response`: appends the student's message, asks the model with the
        history that now ends with it, appends and returns the reply. */
    method GetResponse(studentInput: string) returns (response: string)
      modifies this
      ensures old(Valid()) ==> Valid()
      ensures studentInputs == old(studentInputs) + [studentInput]
      ensures messageHistory == old(messageHistory)
        + [ChatMessage(User, studentInput), ChatMessage(Assistant, response)]
      ensures response == llm(old(messageHistory) + [ChatMessage(User, studentInput)])
      ensures response == messageHistory[|messageHistory| - 1].content
    {
      messageHistory := messageHistory + [ChatMessage(User, studentInput)];
      response := llm(messageHistory);
      messageHistory := messageHistory + [ChatMessage(Assistant, response)];
      studentInputs := studentInputs + [studentInput];
      assert studentInputs[..|studentInputs| - 1] == old(studentInputs);
    }
  }
}
