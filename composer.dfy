/**
 * The response composer (`stubContent`): one base sentence per emotion,
 * followed by nothing, one or two fixed follow-up sentences according to the
 * reasoning level. Levels are the strings the settings hold; any value other
 * than "minimal" and "medium" takes the longest form.
 */
module Composer {
  import opened Text
  import opened Emotions

  /** The composer's sentences, each written once without its period. */
  const PositiveFragment := "It's wonderful to hear that you're feeling positive"
  const NegativeFragment := "I'm sorry you're experiencing negative feelings"
  const NeutralFragment := "I understand"
  const HelpFragment := "I'm here to help with any questions you have"
  const ExploreFragment := "Let's explore the topic in more detail"
  const AssistFragment := "I'm ready to assist with any aspect you want to discuss"

  /** The follow-up of the "medium" level. */
  const HelpSentence := HelpFragment + "."
  /** The two follow-ups of every other level. */
  const ExploreSentence := ExploreFragment + "."
  const AssistSentence := AssistFragment + "."

  /** The base sentence for an emotion, without its period; neutral is the
      `default` case. */
  function BaseFragment(e: Emotion): string {
    match e
    case Positive => PositiveFragment
    case Negative => NegativeFragment
    case Neutral => NeutralFragment
  }

  /** The base sentence for an emotion: it ends with a period. */
  function Base(e: Emotion): (r: string)
    ensures |r| > 0 && r[|r| - 1] == '.'
  {
    BaseFragment(e) + "."
  }

  /** `stubContent(emotion, reasoning)`. */
  function Compose(e: Emotion, reasoning: string): (r: string)
    ensures StartsWith(r, Base(e))
    ensures reasoning == "minimal" <==> r == Base(e)
  {
    if reasoning == "minimal" then Base(e)
    else if reasoning == "medium" then Base(e) + " " + HelpSentence
    else Base(e) + " " + ExploreSentence + " " + AssistSentence
  }

  /** The three reasoning levels give strictly longer replies, for every
      emotion: minimal < medium < any other level. */
  lemma ComposeGrowsWithReasoning(e: Emotion, other: string)
    requires other != "minimal" && other != "medium"
    ensures |Compose(e, "minimal")| < |Compose(e, "medium")| < |Compose(e, other)|
  {
  }
}
