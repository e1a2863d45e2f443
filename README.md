# NeuroSphere Chat (web): a verified model of the chat pipeline

This Dafny project models the logic of the NeuroSphere web chat component
(`App.jsx`). It does not model the JSX around it. The model covers:

- **Emotion detection** (`detectEmotion`). The text is lower-cased and cut
  into maximal runs of ASCII word characters. Each run is counted against a
  positive and a negative lexicon of ten words each. The larger count wins
  and a tie is neutral. Module `Emotions`: a specification function
  `EmotionOf` and the counting loop `DetectEmotion`, proved against it.
- **Response composition** (`stubContent`). Each emotion has a base
  sentence. Reasoning "minimal" adds nothing, "medium" adds one follow-up
  sentence and any other value adds two. Module `Composer`.
- **Verbosity shaping** (`applyVerbosity`). The content is split at `.`,
  `!` and `?`. The pieces are trimmed and the empty ones dropped. "low"
  keeps the first fragment, "medium" the first two and any other level all
  of them. The kept fragments are joined with ". " and closed with ".".
  Module `Verbosity`.
- **Slash commands** (the command branch of `sendMessage`). The trimmed
  input is split at runs of white space. `/generate sql <query...>` wraps
  the query as an SQL statement. `/generate python add <a> <b>` produces a
  Python `add` snippet, or an invalid-input comment when an operand is not
  a number. Every other `/` input gets "Unknown command.". Module
  `Commands`.
- **The conversation reply**: the shaped composition followed by
  " (<emotion>)". Module `Conversation`. Its lemmas state what each
  verbosity level makes of each composed reply.
- **The chat session** (`App`'s state and `sendMessage`). A class holds the
  transcript, the input and the two settings, which start at "medium".
  `Send` ignores input that trims to nothing. Otherwise it appends the user
  message and the reply, and clears the input. Module `Chat`.
- Shared string helpers (JavaScript's white space, `trim`, ASCII
  `toLowerCase`, `join`, `startsWith`) live in module `Text`.

Notes on the code's behaviour, as modelled:

- The command word is compared with the slash included: `parts[0] ===
  '/generate'`.
- `\w` and `\b` in a regular expression without the `u` flag are ASCII:
  `[A-Za-z0-9_]`. An accented letter therefore separates tokens.
- With no fragment at all (content such as `"..."`), "low" reads
  `sentences[0]`, which is `undefined`, so the result is "undefined.". The
  other levels give ".". The model states this behaviour as written.
  The composer's own replies never hit this case:
  `Conversation.ComposedFragments` shows they always have one to three
  fragments.
- A settings value other than the listed ones takes the last branch in
  both `stubContent` and `applyVerbosity`. The model keeps the settings as
  strings for that reason.

## Model

| member | source | states |
|---|---|---|
| Emotions.DetectEmotion | App.jsx:10-21 | the loop's counters equal the lexicon hits of the tokens; the result is positive iff positive hits exceed negative hits, negative iff the reverse, neutral iff they are equal |
| Emotions.EmotionOf | App.jsx:10-21 | a positive verdict needs a positive hit, a negative verdict a negative hit, and a text with no tokens is neutral |
| Emotions.PositiveScore | App.jsx:12-17 | the final `pos`: the number of tokens in the positive lexicon, at most the number of tokens |
| Emotions.NegativeScore | App.jsx:12-17 | the final `neg`: the number of tokens in the negative lexicon, at most the number of tokens |
| Emotions.Tokens | App.jsx:11 | the tokens of the lower-cased text are non-empty runs of word characters, no more of them than characters |
| Emotions.Hits | App.jsx:14-17 | a lexicon is hit at most once per token |
| Emotions.NoHitsIffNoLexiconWord | App.jsx:14-17 | the count is zero iff no token is in the lexicon |
| Emotions.Decide | App.jsx:18-20 | positive iff the positive count is larger, negative iff the negative count is larger, neutral iff they are equal |
| Emotions.Label | App.jsx:18-20 | each emotion has its own label: "positive", "negative" or "neutral" |
| Emotions.RunLength | App.jsx:11 | a token is a maximal run: all word characters, and it cannot be extended by the next character |
| Emotions.Words | App.jsx:11 | every token is non-empty and made only of word characters |
| Emotions.LexiconsDisjoint | App.jsx:3-8 | no word is in both lexicons |
| Emotions.AtMostOneCounterPerToken | App.jsx:14-17 | positive plus negative hits never exceed the number of tokens, so each token moves at most one counter |
| Emotions.HitsAppend | App.jsx:14-17 | counting distributes over concatenation of token sequences |
| Emotions.SeparatorSplitsWords | App.jsx:11 | a non-word character splits the token sequence into the tokens before it followed by the tokens after it |
| Emotions.RunStopsAtSeparator | App.jsx:11 | a token never extends across a non-word character |
| Emotions.WordIsOneToken | App.jsx:11 | a non-empty run of word characters is exactly one token |
| Emotions.CaseDoesNotMatter | App.jsx:11 | two texts that agree after lower-casing classify alike |
| Emotions.ScoresAddAcrossSeparator | App.jsx:11-17 | both scores of `s + [c] + t` are the scores of `s` plus those of `t` when `c` is punctuation or white space |
| Emotions.OneWordScores | App.jsx:14-17 | a one-word lower-case text scores one for the lexicon holding it and zero otherwise |
| Text.LowerChar | App.jsx:11 | upper-case ASCII letters move to lower case and everything else is kept; the result is never upper case |
| Text.Lower | App.jsx:11 | lower-casing keeps the length and maps each character with `LowerChar` |
| Text.LowerAppend | App.jsx:11 | lower-casing distributes over concatenation |
| Text.IsSpace | App.jsx:60-63 | the white space `trim()` removes and `\s` matches: the ECMAScript WhiteSpace and LineTerminator characters |
| Text.IsWordChar | App.jsx:11 | `\w` without the `u` flag: ASCII letters, digits and "_" |
| Text.StartsWith | App.jsx:62-66 | `startsWith`: the text is at least as long as the prefix and begins with it |
| Text.LeadingSpaces | App.jsx:60 | the count of leading white space stops at the first non-space character |
| Text.TrailingSpaces | App.jsx:60 | the count of trailing white space stops at the last non-space character |
| Text.Trim | App.jsx:60 | the trimmed text has no white space at either end and is no longer than the input |
| Text.TrimIsMiddleSlice | App.jsx:60 | `trim()` is a middle slice of the input, everything it cuts off is white space, and it is empty iff the input is all white space |
| Text.TrimIdempotent | App.jsx:60 | trimming twice equals trimming once |
| Text.TrimSkipsLeadingSpace | App.jsx:60 | a leading white-space character does not change the trimmed result |
| Text.Join | App.jsx:48-50 | joining one part gives that part, and joining none gives the empty string |
| Composer.Compose | App.jsx:23-41 | every reply starts with the emotion's base sentence, and the reply is the base sentence alone iff reasoning is "minimal" |
| Composer.Base | App.jsx:24-34 | the base sentence for each emotion, with the neutral one as the default case, ends with "." |
| Composer.ComposeGrowsWithReasoning | App.jsx:35-40 | for every emotion, minimal, medium and any other reasoning level give strictly longer replies |
| Verbosity.SplitSentences | App.jsx:44 | the split yields at least one piece and no piece contains a terminator |
| Verbosity.IsTerminator | App.jsx:44 | the character class `[.!?]` the content is split at |
| Verbosity.SplitThenJoin | App.jsx:44 | joining the pieces with "." gives back the content with every terminator written as "." |
| Verbosity.TrimAndDropEmpty | App.jsx:44 | trimming and dropping empty pieces never adds pieces, and nothing comes from nothing |
| Verbosity.TrimAndDropEmptyOne | App.jsx:44 | one piece comes out as its trim, or not at all when it trims to nothing |
| Verbosity.TrimAndDropEmptyAppend | App.jsx:44 | trimming and dropping works piece by piece, in order: it distributes over concatenation |
| Verbosity.TrimAndDropEmptyGivesFragments | App.jsx:44 | trimming the pieces and dropping empty ones leaves only non-empty, trimmed, terminator-free fragments |
| Verbosity.Fragments | App.jsx:44 | every fragment is non-empty, trimmed and free of terminators |
| Verbosity.FragmentsOfPiece | App.jsx:44 | a text without terminators has as fragments its trim (both ends cut), or none when that is empty |
| Verbosity.TrimKeepsNoTerminator | App.jsx:44 | trimming adds no terminator |
| Verbosity.FragmentsAtTerminator | App.jsx:44 | a terminator splits the fragments into those before and those after it |
| Verbosity.FragmentsOfJoined | App.jsx:44-50 | fragments joined with ". " and closed with "." split back into the same fragments |
| Verbosity.Shape | App.jsx:43-51 | the shaped text is non-empty and ends with "." |
| Verbosity.ShapeWithoutFragments | App.jsx:45-50 | with no fragments, "low" gives "undefined." and every other level gives "." |
| Verbosity.Kept | App.jsx:45-50 | "low" keeps one fragment (the first, or the `undefined` placeholder when there is none), "medium" the first min(2, n), any other level all; every kept list is a prefix of the fragments |
| Verbosity.FragmentsOfShape | App.jsx:43-51 | the shaped text is the kept fragments joined and closed, and its fragments are exactly the kept ones |
| Verbosity.ShapeKeepsPrefix | App.jsx:45-50 | the shaped text's fragments are an in-order prefix of the content's: one for "low", min(2, n) for "medium", all for any other level |
| Verbosity.ShapeIdempotent | App.jsx:43-51 | shaping twice at the same level equals shaping once |
| Commands.SplitWhitespace | App.jsx:63 | the split yields at least one piece and no piece contains white space |
| Commands.SplitOfWord | App.jsx:63 | a text without white space splits into itself |
| Commands.SplitAtSpace | App.jsx:63 | one white-space character between a word and the rest splits the pieces in two |
| Commands.SplitAtSpaceRun | App.jsx:63 | a run of one or more white-space characters between a word and the rest is a single separator: the pieces split in two, with no empty piece between them |
| Commands.SplitJoinRoundTrip | App.jsx:63-65 | words joined with single spaces split back into the same words |
| Commands.SplitOfTrimmedHasNoEmptyPiece | App.jsx:60-63 | a trimmed, non-empty input splits into non-empty tokens |
| Commands.SqlStatement | App.jsx:65-66 | the statement ends with ";", starts with "select" in any case, and ends with the query followed by ";"; it is the query plus ";" iff the query starts with "select" in any case, and "SELECT " + query + ";" otherwise |
| Commands.SqlStatementIdempotent | App.jsx:66 | wrapping a statement again, without its ";", gives the same statement |
| Commands.SqlReply | App.jsx:64-67 | for an SQL command the reply wraps the tokens after "sql" joined by single spaces |
| Commands.IsSqlCommand | App.jsx:64 | `/generate sql` followed by at least one query token |
| Commands.IsAddCommand | App.jsx:68 | exactly `/generate python add <a> <b>`; no token list is both commands, so the order of the two tests does not matter |
| Commands.ParseInteger | App.jsx:69-71 | `Number()` is not NaN exactly for the empty token and for decimal digits after an optional sign; a negative value needs a leading "-" |
| Commands.FormatInteger | App.jsx:73 | `${n}` is a non-empty numeral that starts with "-" exactly when `n` is negative |
| Commands.DigitChar | App.jsx:73 | each digit value is written as the digit character with that value |
| Commands.Decimal | App.jsx:73 | an integer is written with a non-empty string of decimal digits |
| Commands.DecimalValueOfDecimal | App.jsx:69-73 | reading back the digits of `n` gives `n` |
| Commands.FormatThenParse | App.jsx:69-73 | `Number()` applied to `${n}` gives `n` back for every integer |
| Commands.LeadingDigitBoundsValue | App.jsx:69-70 | digits that do not start with 0 have value at least 1, and at least 10 when there are two or more |
| Commands.DecimalOfDecimalValue | App.jsx:69-73 | canonical digits are written back unchanged |
| Commands.ParseThenFormat | App.jsx:69-73 | a canonical integer token parses, and `${}` writes its value back as the same token |
| Commands.AddSnippet | App.jsx:73 | the snippet starts with the definition `def add(a, b):` and holds the call `add(<a>, <b>)` right after `result = ` |
| Commands.CommandReply | App.jsx:62-77 | the reply is "Unknown command." iff the tokens form neither command; an SQL reply ends with ";" and starts with "select" in any case; an add reply is the invalid-input comment iff an operand does not parse |
| Commands.AddReplyCallsAddOnParsed | App.jsx:68-74 | for any add command whose operands parse (also "02", "+3" or "-0"), the snippet starts with `def add(a, b):` and contains `add(<a>, <b>)` with the parsed values written back by `${}` |
| Commands.AddReplyCallsAdd | App.jsx:68-74 | with two canonical integer operands, the snippet contains `add(<a>, <b>)` exactly as typed |
| Conversation.ConversationReply | App.jsx:81-83 | the reply ends with " (<emotion>)", and the shaped text before that suffix ends with "." |
| Conversation.Tagged | App.jsx:83 | the tagged reply is the shaped text followed by " (<emotion>)", nothing lost on either side |
| Conversation.ConversationSteps | App.jsx:81-83 | the conversation reply is the classified emotion's composition, shaped and then tagged |
| Conversation.PositiveFragmentIsFragment | App.jsx:27 | the positive base sentence is a single fragment: non-empty, trimmed and free of terminators |
| Conversation.NegativeFragmentIsFragment | App.jsx:30 | the negative base sentence is a single fragment: non-empty, trimmed and free of terminators |
| Conversation.BaseFragmentIsFragment | App.jsx:24-34 | every base sentence is a single fragment: non-empty, trimmed and free of terminators |
| Conversation.HelpFragmentIsFragment | App.jsx:38 | the medium follow-up is a single fragment: non-empty, trimmed and free of terminators |
| Conversation.ExploreFragmentIsFragment | App.jsx:40 | the first high follow-up is a single fragment: non-empty, trimmed and free of terminators |
| Conversation.AssistFragmentIsFragment | App.jsx:40 | the second high follow-up is a single fragment: non-empty, trimmed and free of terminators |
| Conversation.FollowUpsAreFragments | App.jsx:38-40 | every follow-up sentence is a single fragment: non-empty, trimmed and free of terminators |
| Conversation.ComposeIsJoined | App.jsx:35-40 | every composed reply is its sentences joined with ". " and closed with "." |
| Conversation.ComposedFragments | App.jsx:23-44 | the fragments of a composed reply are exactly its one, two or three sentences |
| Conversation.LowVerbosityGivesBase | App.jsx:45-46 | at "low" verbosity the shaped reply is the emotion's base sentence, whatever the reasoning level |
| Conversation.MediumVerbosityKeepsTwo | App.jsx:47-48 | at "medium" verbosity: the base sentence for minimal reasoning, the whole medium reply for medium reasoning, the base plus the first follow-up otherwise |
| Conversation.HighVerbosityKeepsAll | App.jsx:50 | at any other verbosity the composed reply passes unchanged, with 1, 2 or 3 fragments for minimal, medium or other reasoning |
| Conversation.LowVerbosityReply | App.jsx:81-83 | at "low" verbosity a conversation reply is the base sentence followed by " (<emotion>)" |
| Chat.Reply | App.jsx:62-83 | the reply is non-empty; a non-command reply ends with the emotion tag; a command reply is "Unknown command." iff the tokens form neither command |
| Chat.ReplyIsConversation | App.jsx:62-83 | input without a leading "/" gets the conversation reply |
| Chat.IsExchange | App.jsx:60-84 | one exchange: a user message with trimmed, non-empty text, then a non-empty assistant reply |
| Chat.Transcript | App.jsx:54-85 | the transcript invariant: a sequence of exchanges, user and assistant alternating from the user's first message |
| Chat.TranscriptExtends | App.jsx:67-84 | appending a user message with trimmed, non-empty text and a non-empty assistant reply keeps the transcript a sequence of such exchanges |
| Chat.Session.constructor | App.jsx:54-57 | a new session has an empty transcript and input, and both settings at "medium" |
| Chat.Session.SetInput | App.jsx:114 | typing replaces the input and nothing else |
| Chat.Session.SetVerbosity | App.jsx:99 | choosing a verbosity replaces that setting and nothing else |
| Chat.Session.SetReasoning | App.jsx:104 | choosing a reasoning level replaces that setting and nothing else |
| Chat.Session.Answer | App.jsx:62-83 | the computed reply is the command reply for a "/" input and the tagged conversation reply otherwise |
| Chat.Session.Send | App.jsx:59-86 | input that trims to nothing changes nothing; otherwise the transcript grows by exactly the trimmed user message and its reply, the input is cleared, and the transcript stays a sequence of exchanges |

## Left out

- JSX rendering, styles, the Enter-key handler and the Send button are not modelled. They only display the transcript and call `sendMessage`.
- React's state mechanics are not modelled. `setMessages` builds on the `messages` value captured by the render. The model applies each send to the current transcript, so two sends inside one render (a stale closure) are not captured.
- Text.Lower: `toLowerCase` is modelled on ASCII letters only. Other cased letters (for example "Ä", or the Kelvin sign U+212A, which JavaScript lower-cases to "k") are kept as they are.
- Commands.ParseInteger: `Number()` is modelled on an optional sign followed by decimal digits, and on the empty string (0). Hexadecimal, binary and octal literals, fractions, exponents and "Infinity" are treated as not numbers, where JavaScript would accept them.
- Commands.FormatInteger: numbers are unbounded integers. The model does not capture precision lost beyond 2^53 or the exponent notation `${}` uses from 1e21 on.
- Chat.Session.SetVerbosity: the select offers only "low", "medium" and "high". The model accepts any string, which the shaper treats like "high".
- Chat.Session.SetReasoning: the select offers only "minimal", "medium" and "high". The model accepts any string, which the composer treats like "high".
