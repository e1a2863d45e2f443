/**
 * A conversation turn: classify the text, compose a reply for its emotion
 * at the current reasoning level, shape it to the current verbosity and tag
 * it with the emotion. The lemmas here say what the shaper makes of the
 * composer's replies.
 */
module Conversation {
  import opened Text
  import opened Emotions
  import opened Composer
  import opened Verbosity

  /** The reply to a text that is not a command: the shaped content
      followed by " (<emotion>)". */
  function ConversationReply(text: string, verbosity: string, reasoning: string): (r: string)
    ensures var suffix := " (" + Label(EmotionOf(text)) + ")";
      && |suffix| < |r| && r[|r| - |suffix|..] == suffix
      && r[|r| - |suffix| - 1] == '.'
  {
    Tagged(Shape(Compose(EmotionOf(text), reasoning), verbosity), EmotionOf(text))
  }

  /** A shaped text followed by " (<emotion>)". */
  function Tagged(shaped: string, e: Emotion): (r: string)
    ensures var suffix := " (" + Label(e) + ")";
      |r| == |shaped| + |suffix| && r[..|shaped|] == shaped && r[|shaped|..] == suffix
  {
    var suffix := " (" + Label(e) + ")";
    assert (shaped + suffix)[|shaped|..] == suffix;
    assert (shaped + suffix)[..|shaped|] == shaped;
    shaped + suffix
  }

  /** The conversation reply is computed in the steps `sendMessage` takes:
      classify, compose, shape, then tag with the emotion. */
  lemma ConversationSteps(text: string, verbosity: string, reasoning: string)
    ensures var e := EmotionOf(text);
      ConversationReply(text, verbosity, reasoning) ==
        Tagged(Shape(Compose(e, reasoning), verbosity), e)
  {
  }

  /** Appending a chunk without terminators to a sentence start keeps it
      free of terminators and keeps its first character. */
  lemma ChunkAppend(a: string, b: string)
    requires a != [] && !IsSpace(a[0]) && NoTerminator(a) && NoTerminator(b)
    ensures (a + b)[0] == a[0] && NoTerminator(a + b)
  {
  }

  /** A sentence start followed by a chunk that ends in a non-space
      character is a fragment. */
  lemma LastChunk(a: string, b: string)
    requires a != [] && !IsSpace(a[0]) && NoTerminator(a)
    requires b != [] && !IsSpace(b[|b| - 1]) && NoTerminator(b)
    ensures IsFragment(a + b)
  {
  }

  /** The sentences `Compose` writes, without their periods. */
  function Sentences(e: Emotion, reasoning: string): seq<string> {
    if reasoning == "minimal" then [BaseFragment(e)]
    else if reasoning == "medium" then [BaseFragment(e), HelpFragment]
    else [BaseFragment(e), ExploreFragment, AssistFragment]
  }

  lemma PositiveFragmentIsFragment()
    ensures IsFragment(PositiveFragment)
  {
    ChunkAppend("It's wonderful", " to hear that");
    ChunkAppend("It's wonderful to hear that", " you're feeling");
    LastChunk("It's wonderful to hear that you're feeling", " positive");
  }

  lemma NegativeFragmentIsFragment()
    ensures IsFragment(NegativeFragment)
  {
    ChunkAppend("I'm sorry", " you're experiencing");
    LastChunk("I'm sorry you're experiencing", " negative feelings");
  }

  lemma BaseFragmentIsFragment(e: Emotion)
    ensures IsFragment(BaseFragment(e))
  {
    match e
    case Positive => PositiveFragmentIsFragment();
    case Negative => NegativeFragmentIsFragment();
    case Neutral =>
  }

  lemma HelpFragmentIsFragment()
    ensures IsFragment(HelpFragment)
  {
    ChunkAppend("I'm here to help", " with any questions");
    LastChunk("I'm here to help with any questions", " you have");
  }

  lemma ExploreFragmentIsFragment()
    ensures IsFragment(ExploreFragment)
  {
    LastChunk("Let's explore the topic", " in more detail");
  }

  lemma AssistFragmentIsFragment()
    ensures IsFragment(AssistFragment)
  {
    ChunkAppend("I'm ready to assist", " with any aspect");
    LastChunk("I'm ready to assist with any aspect", " you want to discuss");
  }

  lemma FollowUpsAreFragments()
    ensures IsFragment(HelpFragment)
    ensures IsFragment(ExploreFragment)
    ensures IsFragment(AssistFragment)
  {
    HelpFragmentIsFragment();
    ExploreFragmentIsFragment();
    AssistFragmentIsFragment();
  }

  /** Two or three sentences written out with their periods and single
      spaces between them are their fragments joined with ". ". */
  lemma JoinTwo(a: string, b: string)
    ensures Join([a, b], ". ") + "." == (a + ".") + " " + (b + ".")
  {
    assert [a, b][1..] == [b];
  }

  lemma JoinThree(a: string, b: string, c: string)
    ensures Join([a, b, c], ". ") + "." == (a + ".") + " " + (b + ".") + " " + (c + ".")
  {
    assert [a, b, c][1..] == [b, c];
    assert [b, c][1..] == [c];
  }

  /** Every composed reply is its sentences joined with ". " and closed
      with "." */
  lemma ComposeIsJoined(e: Emotion, reasoning: string)
    ensures Compose(e, reasoning) == Join(Sentences(e, reasoning), ". ") + "."
  {
    BaseFragmentIsFragment(e);
    FollowUpsAreFragments();
    var b := BaseFragment(e);
    if reasoning == "minimal" {
    } else if reasoning == "medium" {
      JoinTwo(b, HelpFragment);
    } else {
      JoinThree(b, ExploreFragment, AssistFragment);
    }
  }

  /** The sentences of a composed reply are exactly its fragments. */
  lemma ComposedFragments(e: Emotion, reasoning: string)
    ensures Fragments(Compose(e, reasoning)) == Sentences(e, reasoning)
  {
    BaseFragmentIsFragment(e);
    FollowUpsAreFragments();
    ComposeIsJoined(e, reasoning);
    FragmentsOfJoined(Sentences(e, reasoning));
  }

  /** At "low" verbosity the reply is exactly the base sentence for the
      emotion, whatever the reasoning level. */
  lemma LowVerbosityGivesBase(e: Emotion, reasoning: string)
    ensures Shape(Compose(e, reasoning), "low") == Base(e)
  {
    ComposeIsJoined(e, reasoning);
    ComposedFragments(e, reasoning);
    FragmentsOfShape(Compose(e, reasoning), "low");
    BaseFragmentIsFragment(e);
  }

  /** At "medium" verbosity the reply keeps the base sentence and the first
      follow-up, if any. */
  lemma MediumVerbosityKeepsTwo(e: Emotion, reasoning: string)
    ensures Shape(Compose(e, reasoning), "medium") ==
      if reasoning == "minimal" then Base(e)
      else if reasoning == "medium" then Compose(e, "medium")
      else Base(e) + " " + ExploreSentence
  {
    var ss := Sentences(e, reasoning);
    ComposedFragments(e, reasoning);
    FragmentsOfShape(Compose(e, reasoning), "medium");
    BaseFragmentIsFragment(e);
    if reasoning == "minimal" {
      assert Kept(ss, "medium") == ss;
    } else {
      FollowUpsAreFragments();
      assert Kept(ss, "medium") == [BaseFragment(e), ss[1]];
      JoinTwo(BaseFragment(e), ss[1]);
      if reasoning == "medium" {
        ComposeIsJoined(e, "medium");
        JoinTwo(BaseFragment(e), HelpFragment);
      }
    }
  }

  /** At any verbosity other than "low" and "medium" the reply is the
      composed text itself: one, two or three sentences for the reasoning
      levels "minimal", "medium" and any other. */
  lemma HighVerbosityKeepsAll(e: Emotion, reasoning: string, verbosity: string)
    requires verbosity != "low" && verbosity != "medium"
    ensures Shape(Compose(e, reasoning), verbosity) == Compose(e, reasoning)
    ensures |Fragments(Shape(Compose(e, reasoning), verbosity))| ==
      if reasoning == "minimal" then 1 else if reasoning == "medium" then 2 else 3
  {
    ComposeIsJoined(e, reasoning);
    ComposedFragments(e, reasoning);
    FragmentsOfShape(Compose(e, reasoning), verbosity);
  }

  /** At "low" verbosity a conversation reply is the emotion's base sentence
      followed by the emotion tag. */
  lemma LowVerbosityReply(text: string, reasoning: string)
    ensures var e := EmotionOf(text);
      ConversationReply(text, "low", reasoning) == Base(e) + " (" + Label(e) + ")"
  {
    var e := EmotionOf(text);
    ConversationSteps(text, "low", reasoning);
    LowVerbosityGivesBase(e, reasoning);
    assert Tagged(Base(e), e) == Base(e) + " (" + Label(e) + ")";
  }
}
