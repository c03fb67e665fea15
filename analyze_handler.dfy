/** The server-side `POST /analyze` handler: take the `review` field of the
    JSON body, refuse an empty one, and otherwise turn the compound polarity
    score into a label by two fixed thresholds. The compound score comes from
    an external lexicon scorer and is an input here; the database insert is
    not part of this model. */
module AnalyzeHandler {
  import opened Labels

  /** Compound scores strictly above this are Positive. */
  const PositiveThreshold: real := 0.1
  /** Compound scores strictly below this are Negative. */
  const NegativeThreshold: real := -0.1

  /** The label for a compound score. */
  function ThresholdLabel(compound: real): (l: Label)
    ensures l == Positive <==> compound > PositiveThreshold
    ensures l == Negative <==> compound < NegativeThreshold
    ensures l == Neutral <==> NegativeThreshold <= compound <= PositiveThreshold
  {
    if compound > PositiveThreshold then Positive
    else if compound < NegativeThreshold then Negative
    else Neutral
  }

  /** A larger compound score never gives a more negative label. */
  lemma ThresholdMonotone(a: real, b: real)
    requires a <= b
    ensures Rank(ThresholdLabel(a)) <= Rank(ThresholdLabel(b))
  {
  }

  /** The `review` member of the request body as the handler sees it: missing,
      JSON `null`, or a string. */
  datatype ReviewField = Absent | Null | Text(text: string)

  /** Whether the handler accepts the review: `data.get("review", "")` is
      truthy. A missing member defaults to the empty string; `null` and the
      empty string are falsy. */
  predicate HasReview(field: ReviewField)
  {
    field.Text? && field.text != []
  }

  datatype Body = SentimentBody(sentiment: string) | ErrorBody(error: string)

  /** The JSON reply and its HTTP status. */
  datatype Reply = Reply(status: nat, body: Body)

  const NoReviewMessage: string := "No review provided"

  /** The handler, with the lexicon scorer's compound score for the review
      passed in. An empty review gets status 400 and the error message and
      never a label; any other review gets status 200 and the label of its
      compound score. */
  function Analyze(field: ReviewField, compound: real): (r: Reply)
    ensures r.status == 400 <==> !HasReview(field)
    ensures r.status == 400 ==> r.body == ErrorBody(NoReviewMessage)
    ensures r.status != 400 ==>
      r.status == 200 && r.body == SentimentBody(Name(ThresholdLabel(compound)))
  {
    if HasReview(field) then
      Reply(200, SentimentBody(Name(ThresholdLabel(compound))))
    else
      Reply(400, ErrorBody(NoReviewMessage))
  }

  /** Every non-empty review is answered with exactly one of the three label
      names; which one depends only on the compound score. */
  lemma NonEmptyReviewGetsLabel(review: string, compound: real)
    requires review != []
    ensures Analyze(Text(review), compound).body.SentimentBody?
    ensures Analyze(Text(review), compound).body.sentiment in ["Positive", "Negative", "Neutral"]
    ensures compound > PositiveThreshold ==>
      Analyze(Text(review), compound).body.sentiment == "Positive"
    ensures compound < NegativeThreshold ==>
      Analyze(Text(review), compound).body.sentiment == "Negative"
    ensures NegativeThreshold <= compound <= PositiveThreshold ==>
      Analyze(Text(review), compound).body.sentiment == "Neutral"
  {
  }

  /** A missing, null or empty review is refused whatever the score. */
  lemma EmptyReviewRefused(field: ReviewField, compound: real)
    requires field == Absent || field == Null || field == Text("")
    ensures Analyze(field, compound) == Reply(400, ErrorBody("No review provided"))
  {
  }
}
