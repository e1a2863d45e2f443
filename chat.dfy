/**
 * The chat session (`App`): a transcript of messages, the text being typed
 * and the two settings, with the send action that trims the input, answers
 * it with a command reply or a conversation reply, appends both messages
 * and clears the input.
 */
module Chat {
  import opened Text
  import opened Emotions
  import opened Composer
  import opened Verbosity
  import opened Commands
  import opened Conversation

  datatype Sender = User | Assistant

  datatype Message = Message(sender: Sender, text: string)

  /** The assistant's answer to a trimmed, non-empty input: a command reply
      for a `/`-prefixed input, the tagged conversation reply otherwise. */
  function Reply(text: string, verbosity: string, reasoning: string): (r: string)
    ensures |r| > 0
    ensures !StartsWith(text, "/") ==>
      var suffix := " (" + Label(EmotionOf(text)) + ")";
      |suffix| < |r| && r[|r| - |suffix|..] == suffix
    ensures StartsWith(text, "/") ==>
      (r == UnknownCommand <==>
        !IsSqlCommand(SplitWhitespace(text)) && !IsAddCommand(SplitWhitespace(text)))
  {
    if StartsWith(text, "/") then CommandReply(text)
    else ConversationReply(text, verbosity, reasoning)
  }

  /** One exchange: the user's trimmed, non-empty text and the assistant's
      non-empty reply. */
  predicate IsExchange(question: Message, answer: Message) {
    && question.sender == User && question.text != [] && Trimmed(question.text)
    && answer.sender == Assistant && answer.text != []
  }

  /** What every transcript looks like: a sequence of exchanges, user and
      assistant messages alternating from the user's first. */
  predicate Transcript(ms: seq<Message>)
    decreases |ms|
  {
    if ms == [] then true
    else |ms| >= 2 && IsExchange(ms[|ms| - 2], ms[|ms| - 1]) && Transcript(ms[..|ms| - 2])
  }

  class Session {
    var messages: seq<Message>
    var input: string
    var verbosity: string
    var reasoning: string

    ghost predicate Valid()
      reads this
    {
      Transcript(messages)
    }

    /** An empty transcript, an empty input and both settings at "medium". */
    constructor()
      ensures Valid()
      ensures messages == [] && input == ""
      ensures verbosity == "medium" && reasoning == "medium"
    {
      messages := [];
      input := "";
      verbosity := "medium";
      reasoning := "medium";
    }

    method SetInput(s: string)
      modifies this`input
      ensures input == s
    {
      input := s;
    }

    method SetVerbosity(level: string)
      modifies this`verbosity
      ensures verbosity == level
    {
      verbosity := level;
    }

    method SetReasoning(level: string)
      modifies this`reasoning
      ensures reasoning == level
    {
      reasoning := level;
    }

    /** The reply `sendMessage` computes for a trimmed, non-empty input. */
    method Answer(text: string) returns (reply: string)
      ensures reply == Reply(text, verbosity, reasoning)
      ensures reply != []
    {
      if StartsWith(text, "/") {
        reply := CommandReply(text);
        assert reply == Reply(text, verbosity, reasoning);
      } else {
        var emotion := DetectEmotion(text);
        var content := Compose(emotion, reasoning);
        reply := Tagged(Shape(content, verbosity), emotion);
        ReplyIsConversation(text, verbosity, reasoning);
        ConversationSteps(text, verbosity, reasoning);
      }
    }

    /** `sendMessage`: an input that trims to nothing changes nothing;
        otherwise the trimmed text and its reply are appended and the input
        is cleared. */
    method Send()
      requires Valid()
      modifies this`messages, this`input
      ensures Valid()
      ensures var text := Trim(old(input));
        && (text == [] ==> messages == old(messages) && input == old(input))
        && (text != [] ==>
              && messages == old(messages) + [Message(User, text), Message(Assistant, Reply(text, verbosity, reasoning))]
              && input == "")
    {
      var text := Trim(input);
      if text == [] {
        return;
      }
      var reply := Answer(text);
      TranscriptExtends(messages, Message(User, text), Message(Assistant, reply));
      messages := messages + [Message(User, text), Message(Assistant, reply)];
      input := "";
    }
  }

  /** Input without a leading "/" gets the conversation reply. */
  lemma ReplyIsConversation(text: string, verbosity: string, reasoning: string)
    requires !StartsWith(text, "/")
    ensures Reply(text, verbosity, reasoning) == ConversationReply(text, verbosity, reasoning)
  {
  }

  /** Appending an exchange keeps the transcript shape. */
  lemma TranscriptExtends(ms: seq<Message>, question: Message, answer: Message)
    requires Transcript(ms) && IsExchange(question, answer)
    ensures Transcript(ms + [question, answer])
  {
    var r := ms + [question, answer];
    assert r[..|r| - 2] == ms;
  }
}
