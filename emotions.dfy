/**
 * The keyword emotion classifier (`detectEmotion`): the text is lower-cased,
 * cut into maximal runs of word characters, and every run is looked up in a
 * fixed positive and a fixed negative lexicon; the larger count wins and a
 * tie is neutral.
 */
module Emotions {
  import opened Text

  datatype Emotion = Positive | Negative | Neutral

  /** The string `detectEmotion` returns for each emotion: each of the three
      strings belongs to exactly one emotion. */
  function Label(e: Emotion): (r: string)
    ensures r == "positive" <==> e == Positive
    ensures r == "negative" <==> e == Negative
    ensures r == "neutral" <==> e == Neutral
  {
    match e
    case Positive => "positive"
    case Negative => "negative"
    case Neutral => "neutral"
  }

  const PositiveWords: set<string> :=
    {"happy", "good", "great", "love", "excellent", "fantastic", "wonderful", "awesome", "smile", "glad"}

  const NegativeWords: set<string> :=
    {"sad", "bad", "terrible", "hate", "horrible", "awful", "angry", "upset", "depressed", "cry"}

  /** No word is in both lexicons. */
  lemma LexiconsDisjoint()
    ensures PositiveWords * NegativeWords == {}
  {
  }

  /** Every character of `w` is a word character. */
  predicate AllWordChars(w: string) {
    forall j | 0 <= j < |w| :: IsWordChar(w[j])
  }

  /** The length of the run of word characters at the start of `s`: the run
      is all word characters and cannot be extended. */
  function RunLength(s: string): (n: nat)
    ensures n <= |s|
    ensures AllWordChars(s[..n])
    ensures n == |s| || !IsWordChar(s[n])
  {
    if s != [] && IsWordChar(s[0]) then
      var n := 1 + RunLength(s[1..]);
      assert s[..n] == [s[0]] + s[1..][..n - 1];
      n
    else 0
  }

  /** The matches of `/\b\w+\b/g`, in order: the maximal runs of word
      characters of `s` (the empty sequence where JavaScript's `match` gives
      `null` and `|| []` replaces it). */
  function Words(s: string): (ws: seq<string>)
    ensures |ws| <= |s|
    ensures forall i | 0 <= i < |ws| :: ws[i] != [] && AllWordChars(ws[i])
    decreases |s|
  {
    if s == [] then []
    else if !IsWordChar(s[0]) then Words(s[1..])
    else
      var n := RunLength(s);
      [s[..n]] + Words(s[n..])
  }

  /** The tokens `detectEmotion` scores. */
  function Tokens(text: string): (ws: seq<string>)
    ensures |ws| <= |text|
    ensures forall i | 0 <= i < |ws| :: ws[i] != [] && AllWordChars(ws[i])
  {
    Words(Lower(text))
  }

  /** How many of `ws` are in `lexicon`, each occurrence counted once. */
  function Hits(ws: seq<string>, lexicon: set<string>): (n: nat)
    ensures n <= |ws|
  {
    if ws == [] then 0
    else Hits(ws[..|ws| - 1], lexicon) + (if ws[|ws| - 1] in lexicon then 1 else 0)
  }

  /** No hit exactly when no token is in the lexicon. */
  lemma {:induction false} NoHitsIffNoLexiconWord(ws: seq<string>, lexicon: set<string>)
    ensures Hits(ws, lexicon) == 0 <==> forall i | 0 <= i < |ws| :: ws[i] !in lexicon
  {
    if ws != [] {
      var front := ws[..|ws| - 1];
      NoHitsIffNoLexiconWord(front, lexicon);
      assert forall i | 0 <= i < |front| :: front[i] == ws[i];
    }
  }

  /** The decision rule: the larger count wins, a tie (0/0 included) is neutral. */
  function Decide(pos: nat, neg: nat): (e: Emotion)
    ensures e == Positive <==> pos > neg
    ensures e == Negative <==> neg > pos
    ensures e == Neutral <==> pos == neg
  {
    if pos > neg then Positive else if neg > pos then Negative else Neutral
  }

  /** The final `pos`: how many tokens of `text` are positive words. */
  function PositiveScore(text: string): (n: nat)
    ensures n <= |Tokens(text)|
  {
    Hits(Tokens(text), PositiveWords)
  }

  /** The final `neg`: how many tokens of `text` are negative words. */
  function NegativeScore(text: string): (n: nat)
    ensures n <= |Tokens(text)|
  {
    Hits(Tokens(text), NegativeWords)
  }

  /** The emotion of `text`, as a specification. */
  function EmotionOf(text: string): (e: Emotion)
    ensures e == Positive ==> PositiveScore(text) > 0
    ensures e == Negative ==> NegativeScore(text) > 0
    ensures Tokens(text) == [] ==> e == Neutral
  {
    Decide(PositiveScore(text), NegativeScore(text))
  }

  /** `detectEmotion`: two counters updated for every token. */
  method DetectEmotion(text: string) returns (e: Emotion)
    ensures e == EmotionOf(text)
    ensures e == Positive <==> PositiveScore(text) > NegativeScore(text)
    ensures e == Negative <==> NegativeScore(text) > PositiveScore(text)
    ensures e == Neutral <==> PositiveScore(text) == NegativeScore(text)
  {
    var words := Tokens(text);
    var pos, neg := 0, 0;
    for i := 0 to |words|
      invariant pos == Hits(words[..i], PositiveWords)
      invariant neg == Hits(words[..i], NegativeWords)
    {
      assert words[..i + 1][..i] == words[..i];
      if words[i] in PositiveWords {
        pos := pos + 1;
      }
      if words[i] in NegativeWords {
        neg := neg + 1;
      }
    }
    assert words[..|words|] == words;
    if pos > neg {
      return Positive;
    }
    if neg > pos {
      return Negative;
    }
    return Neutral;
  }

  /** Counting distributes over concatenation. */
  lemma {:induction false} HitsAppend(a: seq<string>, b: seq<string>, lexicon: set<string>)
    ensures Hits(a + b, lexicon) == Hits(a, lexicon) + Hits(b, lexicon)
    decreases |b|
  {
    if b == [] {
      assert a + b == a;
    } else {
      assert (a + b)[..|a + b| - 1] == a + b[..|b| - 1];
      HitsAppend(a, b[..|b| - 1], lexicon);
    }
  }

  /** The lexicons are disjoint, so every token adds to at most one counter. */
  lemma {:induction false} AtMostOneCounterPerToken(ws: seq<string>)
    ensures Hits(ws, PositiveWords) + Hits(ws, NegativeWords) <= |ws|
  {
    if ws != [] {
      LexiconsDisjoint();
      AtMostOneCounterPerToken(ws[..|ws| - 1]);
      assert !(ws[|ws| - 1] in PositiveWords && ws[|ws| - 1] in NegativeWords);
    }
  }

  /** The run at the start of `s` ends before a non-word character `c`. */
  lemma {:induction false} RunStopsAtSeparator(s: string, c: char, t: string)
    requires !IsWordChar(c)
    ensures RunLength(s + [c] + t) == RunLength(s)
  {
    if s != [] && IsWordChar(s[0]) {
      assert (s + [c] + t)[1..] == s[1..] + [c] + t;
      RunStopsAtSeparator(s[1..], c, t);
    } else if s == [] {
      assert (s + [c] + t)[0] == c;
    }
  }

  /** A non-word character splits the token sequence in two: punctuation
      and spaces only separate tokens. */
  lemma {:induction false} SeparatorSplitsWords(s: string, c: char, t: string)
    requires !IsWordChar(c)
    ensures Words(s + [c] + t) == Words(s) + Words(t)
    decreases |s|
  {
    var u := s + [c] + t;
    if s == [] {
      assert u[1..] == t;
    } else if !IsWordChar(s[0]) {
      assert u[1..] == s[1..] + [c] + t;
      SeparatorSplitsWords(s[1..], c, t);
    } else {
      var n := RunLength(s);
      RunStopsAtSeparator(s, c, t);
      assert u[..n] == s[..n];
      assert u[n..] == s[n..] + [c] + t;
      SeparatorSplitsWords(s[n..], c, t);
    }
  }

  /** A non-empty run of word characters is one token. */
  lemma {:induction false} WordIsOneToken(w: string)
    requires w != [] && AllWordChars(w)
    ensures Words(w) == [w]
  {
    RunIsWhole(w);
    assert w[..|w|] == w;
  }

  lemma {:induction false} RunIsWhole(w: string)
    requires AllWordChars(w)
    ensures RunLength(w) == |w|
  {
    if w != [] {
      RunIsWhole(w[1..]);
    }
  }

  /** Only the lower-cased form of each character matters. */
  lemma CaseDoesNotMatter(s: string, t: string)
    requires |s| == |t|
    requires forall i | 0 <= i < |s| :: LowerChar(s[i]) == LowerChar(t[i])
    ensures EmotionOf(s) == EmotionOf(t)
  {
    assert Lower(s) == Lower(t);
  }

  /** Scores add up across a separator: the text before a punctuation mark
      and the text after it are scored independently. */
  lemma ScoresAddAcrossSeparator(s: string, c: char, t: string)
    requires !IsWordChar(c)
    ensures PositiveScore(s + [c] + t) == PositiveScore(s) + PositiveScore(t)
    ensures NegativeScore(s + [c] + t) == NegativeScore(s) + NegativeScore(t)
  {
    LowerAppend(s + [c], t);
    LowerAppend(s, [c]);
    assert Lower(s + [c] + t) == Lower(s) + [LowerChar(c)] + Lower(t);
    LowerKeepsWordChar(c);
    SeparatorSplitsWords(Lower(s), LowerChar(c), Lower(t));
    HitsAppend(Tokens(s), Tokens(t), PositiveWords);
    HitsAppend(Tokens(s), Tokens(t), NegativeWords);
  }

  /** A text that is one lower-case word scores one for the lexicon that
      holds it and nothing for the other. */
  lemma OneWordScores(w: string)
    requires w != [] && AllWordChars(w) && Lower(w) == w
    ensures PositiveScore(w) == if w in PositiveWords then 1 else 0
    ensures NegativeScore(w) == if w in NegativeWords then 1 else 0
  {
    WordIsOneToken(w);
    assert Tokens(w) == [w];
    assert [w][..0] == [];
  }
}
