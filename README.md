# Review sentiment: keyword counter and compound-score handler

A Dafny model of the two pieces of decision logic in the review-sentiment web
application (`app.py`):

- **`calculateSentiment`**, the JavaScript function inside the page template.
  It lower-cases a review, splits it on runs of non-word characters
  (`/\W+/`), counts the tokens found in a positive, a negative and a neutral
  keyword list, and derives a label from the three counts. Its counts feed
  the page's bar chart. The label shown on the page comes from the server.
- **The `POST /analyze` handler**. It reads the `review` member of the JSON
  body and refuses a missing, null or empty review with
  `{"error": "No review provided"}` and status 400. Otherwise it maps the
  compound polarity score of the review to `Positive` (score above 0.1),
  `Negative` (score below -0.1) or `Neutral`, and answers with status 200.

Files:

- `labels.dfy` (module `Labels`): the three labels and their names.
- `text_split.dfy` (module `TextSplit`): `toLowerCase` and `split(/\W+/)`
  as functions, with lemmas about what splitting keeps and loses.
- `keyword_sentiment.dfy` (module `KeywordSentiment`): the keyword lists, the
  counters, the specification function `Tally`, the method
  `CalculateSentiment` with the counting loop, the label rule `SentimentOf`
  and the lemmas about them.
- `analyze_handler.dfy` (module `AnalyzeHandler`): the thresholds, the
  empty-review guard and the reply.

The counting loop of `calculateSentiment` is the method
`KeywordSentiment.CalculateSentiment`. Its invariant is that the three
counters equal `Tally` of the tokens seen so far. `Tally` is the
specification. The lemmas state what it means: each counter is the number of
tokens found in its list, the uncounted tokens are exactly those in no list,
and counting is additive over concatenated token sequences.

## Model

| member | source | states |
|---|---|---|
| `Labels.Name` | app.py:468 | each label is sent as its own name, and only that label is sent as that name |
| `Labels.NameInjective` | app.py:577 | distinct labels are sent as distinct strings |
| `TextSplit.LowerChar` | app.py:458 | a capital letter becomes the small letter at the same alphabet position; every other character is unchanged; no capital is left and the word/non-word class is kept |
| `TextSplit.ToLower` | app.py:458 | `toLowerCase` keeps the length, turns each capital letter into its small letter and leaves every other character as it is |
| `TextSplit.SameUpToCaseLowersAlike` | app.py:458 | two texts that differ only in letter case lower-case to the same text |
| `TextSplit.ToLowerIdempotent` | app.py:458 | lower-casing twice equals lower-casing once |
| `TextSplit.DropSeparators` | app.py:458 | dropping the leading separators never lengthens the text, and shortens it when it starts with a separator |
| `TextSplit.DropSeparatorsDropsLeadingRun` | app.py:458 | exactly the maximal leading run of `\W` characters is removed: what remains is a suffix that is empty or starts with a word character |
| `TextSplit.Split` | app.py:458 | `split(/\W+/)` yields at least one piece, even for the empty text |
| `TextSplit.SplitPiecesAreWords` | app.py:458 | every piece of the split consists of word characters only, each taken from the input |
| `TextSplit.Tokens` | app.py:458 | the token list of any text, even the empty one, is non-empty, and every token consists of small ASCII letters, digits and underscores only |
| `TextSplit.LeadingRun` | app.py:458 | the text is its leading separator run followed by the rest after the run |
| `TextSplit.SplitRoundTrip` | app.py:458 | joining the pieces with the removed separator runs between them gives back the input, and there is one run fewer than pieces |
| `TextSplit.SeparatorsAreRuns` | app.py:458 | every removed separator run is a non-empty run of `\W` characters |
| `TextSplit.SplitFirstPiece` | app.py:458 | the first piece is empty exactly when the text is empty or starts with a `\W` character |
| `TextSplit.SplitInteriorPiecesNonEmpty` | app.py:458 | only the first and the last piece can be empty |
| `TextSplit.WordCharsDropSeparators` | app.py:458 | dropping leading separators loses no word character |
| `TextSplit.SplitKeepsWordChars` | app.py:458 | gluing the pieces back together gives exactly the word characters of the input, in order |
| `TextSplit.SplitSingleWord` | app.py:458 | a non-empty word with no separator splits into itself alone |
| `TextSplit.SplitAfterWord` | app.py:458 | a word in front of more text joins the first piece of that text |
| `TextSplit.SplitTwoWords` | app.py:458 | two words joined by one separator split into exactly those two words |
| `KeywordSentiment.KindIsTheList` | app.py:454-465 | the three lists are disjoint, so a token's kind is exactly the list containing it, and a token in none of them is counted nowhere |
| `KeywordSentiment.BumpRaisesOneCounter` | app.py:461-465 | one token raises at most one counter by one, and raises none when it is in no list |
| `KeywordSentiment.Tally` | app.py:459-465 | the counters' total never exceeds the number of tokens |
| `KeywordSentiment.TallyCountsPositions` | app.py:458-465 | each counter equals the number of token positions whose token is in that counter's list |
| `KeywordSentiment.TallyMissesOnlyUnlisted` | app.py:458-465 | the counters' total plus the number of tokens in no list equals the number of tokens |
| `KeywordSentiment.TallyAppend` | app.py:461-465 | counting is additive: the counts of two concatenated token sequences are the component-wise sums |
| `KeywordSentiment.UnlistedTokenChangesNothing` | app.py:461-465 | inserting a token in no list anywhere, such as an empty piece at either end, changes no count |
| `KeywordSentiment.NoKeywordsCountsNothing` | app.py:459-465 | a token sequence without keywords leaves all three counters at zero |
| `KeywordSentiment.SentimentOf` | app.py:468 | Positive exactly when positive beats both other counts; Negative exactly when positive does not beat negative and negative beats neutral; Neutral exactly otherwise |
| `KeywordSentiment.PositiveNegativeTieIsNegative` | app.py:468 | equal positive and negative counts above the neutral count give Negative, not Neutral |
| `KeywordSentiment.MatchingKeywordKeepsLabel` | app.py:461-468 | one more keyword of the kind the current label stands for keeps that label |
| `KeywordSentiment.CalculateSentiment` | app.py:453-471 | the loop returns the label and counters of `Tally` over the tokens, and each counter is the number of tokens in its list |
| `KeywordSentiment.CaseInsensitive` | app.py:458 | texts differing only in letter case get the same counts and label |
| `KeywordSentiment.NoKeywordsIsNeutral` | app.py:458-468 | a text with no keyword token gets zero counts and Neutral |
| `KeywordSentiment.EmptyTextIsNeutral` | app.py:458-468 | the empty text splits into one empty token and gets zero counts and Neutral |
| `KeywordSentiment.GoodBadIsNegative` | app.py:453-471 | "Good BAD" gets one positive and one negative count and the label Negative |
| `AnalyzeHandler.ThresholdLabel` | app.py:577 | Positive exactly above 0.1, Negative exactly below -0.1, Neutral exactly on [-0.1, 0.1] |
| `AnalyzeHandler.ThresholdMonotone` | app.py:577 | a larger compound score never gives a lower-ranked label |
| `AnalyzeHandler.Analyze` | app.py:570-588 | status 400 with "No review provided" exactly when the review is missing, null or empty; otherwise status 200 and the name of the score's label |
| `AnalyzeHandler.NonEmptyReviewGetsLabel` | app.py:574-587 | a non-empty review always gets one of the three label names, chosen by the thresholds |
| `AnalyzeHandler.EmptyReviewRefused` | app.py:572-588 | a missing, null or empty review gets the 400 error whatever the score |

## Left out

- The lexicon scorer's `polarity_scores` call (app.py:576) is a third-party library whose code is not part of this model. Its compound score is an input `real` of `AnalyzeHandler.Analyze`. Floating-point rounding of that score is not modelled.
- The MongoDB connection, indexes and `insert_one` (app.py:309-321, 585) are database I/O. A failed insert, or a connection that never came up, would turn the reply into a server error; the model always replies.
- `request.get_json()` failing on a body that is not JSON, a JSON body that is not an object (`null`, a list, a string or a number, on which `data.get` at app.py:572 raises and the server answers 500), and a `review` member that is a number, boolean, list or object, are not modelled. `ReviewField` covers a missing member, `null` and strings.
- Flask routing, the HTML/CSS template, page navigation, the chart, speech recognition and the `fetch` call (app.py:323-567) are browser UI and asynchronous I/O. This includes the page's own check that the trimmed text is non-empty before sending (app.py:503-507).
- The Keras model and tokenizer (app.py:288-306) are loaded but never used by the live handler.
- The commented-out first version of the application (app.py:1-280) is dead code.
- `TextSplit.ToLower`: lower-cases ASCII letters only. JavaScript's `toLowerCase` also maps other characters, and a few of them map to ASCII letters: the Kelvin sign becomes `k` and the dotted capital I becomes `i` plus a combining mark. Such input can form a keyword in the source but not in the model.
- JavaScript strings are sequences of UTF-16 code units, while Dafny strings here are sequences of Unicode scalar values. This makes no difference to splitting or matching, because every character outside ASCII is a non-word character either way.
