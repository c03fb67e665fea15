/** The three sentiment labels shared by the browser-side keyword counter and
    the server-side compound-score handler, and the strings they are sent as. */
module Labels {

  datatype Label = Positive | Negative | Neutral

  /** The text the page and the JSON reply carry for a label. */
  function Name(l: Label): (s: string)
    ensures s == "Positive" <==> l == Positive
    ensures s == "Negative" <==> l == Negative
    ensures s == "Neutral" <==> l == Neutral
  {
    match l
    case Positive => "Positive"
    case Negative => "Negative"
    case Neutral => "Neutral"
  }

  /** Position of a label on the scale Negative < Neutral < Positive. */
  function Rank(l: Label): nat
  {
    match l
    case Negative => 0
    case Neutral => 1
    case Positive => 2
  }

  /** Distinct labels are sent as distinct strings. */
  lemma NameInjective(a: Label, b: Label)
    requires Name(a) == Name(b)
    ensures a == b
  {
  }
}
