/** The browser-side keyword counter `calculateSentiment`: lower-case the
    review, split it on runs of non-word characters, count the tokens that
    appear in each of three fixed keyword lists, and derive a label from the
    three counts. Its counts drive the page's bar chart. */
module KeywordSentiment {
  import opened Labels
  import opened TextSplit

  const PositiveKeywords: seq<string> :=
    ["good", "great", "excellent", "awesome", "amazing", "fantastic", "happy", "love"]
  const NegativeKeywords: seq<string> :=
    ["bad", "terrible", "awful", "horrible", "hate", "poor", "worse", "disappointing"]
  const NeutralKeywords: seq<string> :=
    ["okay", "average", "fine", "mediocre", "normal"]

  /** Which counter a token increments, if any. */
  datatype TokenKind = PositiveWord | NegativeWord | NeutralWord | OtherWord

  /** The three lists are consulted in the order positive, negative, neutral,
      each by exact membership. */
  function KindOf(word: string): TokenKind
  {
    if word in PositiveKeywords then PositiveWord
    else if word in NegativeKeywords then NegativeWord
    else if word in NeutralKeywords then NeutralWord
    else OtherWord
  }

  /** No keyword is in two lists, so a token's kind is exactly the list it
      belongs to and no token could be counted twice. */
  lemma KindIsTheList(word: string)
    ensures KindOf(word) == PositiveWord <==> word in PositiveKeywords
    ensures KindOf(word) == NegativeWord <==> word in NegativeKeywords
    ensures KindOf(word) == NeutralWord <==> word in NeutralKeywords
    ensures KindOf(word) == OtherWord <==>
      word !in PositiveKeywords && word !in NegativeKeywords && word !in NeutralKeywords
  {
  }

  /** The `intensity` object: one counter per keyword list. */
  datatype Counts = Counts(positive: nat, negative: nat, neutral: nat)
  {
    function Total(): nat
    {
      positive + negative + neutral
    }

    function Plus(other: Counts): Counts
    {
      Counts(positive + other.positive, negative + other.negative, neutral + other.neutral)
    }
  }

  const Zero := Counts(0, 0, 0)

  /** The effect of one token on the counters. */
  function Bump(c: Counts, k: TokenKind): Counts
  {
    match k
    case PositiveWord => c.(positive := c.positive + 1)
    case NegativeWord => c.(negative := c.negative + 1)
    case NeutralWord => c.(neutral := c.neutral + 1)
    case OtherWord => c
  }

  /** One token raises at most one counter, by one, and none when it is in
      no list. */
  lemma BumpRaisesOneCounter(c: Counts, k: TokenKind)
    ensures Bump(c, k).Total() == c.Total() + (if k == OtherWord then 0 else 1)
    ensures Bump(c, k).positive == c.positive + (if k == PositiveWord then 1 else 0)
    ensures Bump(c, k).negative == c.negative + (if k == NegativeWord then 1 else 0)
    ensures Bump(c, k).neutral == c.neutral + (if k == NeutralWord then 1 else 0)
  {
  }

  /** The counters after walking `words` from the first token to the last.
      No token is counted twice, so the total never exceeds the number of
      tokens. */
  function Tally(words: seq<string>): (c: Counts)
    ensures c.Total() <= |words|
  {
    if words == [] then Zero
    else
      var before := Tally(words[..|words| - 1]);
      var k := KindOf(words[|words| - 1]);
      BumpRaisesOneCounter(before, k);
      Bump(before, k)
  }

  /** The positions of the tokens of a given kind. */
  ghost function Positions(words: seq<string>, k: TokenKind): set<nat>
  {
    set i: nat | i < |words| && KindOf(words[i]) == k
  }

  lemma PositionsSnoc(words: seq<string>, k: TokenKind)
    requires words != []
    ensures Positions(words, k) == Positions(words[..|words| - 1], k) +
      (if KindOf(words[|words| - 1]) == k then {|words| - 1} else {})
    ensures |words| - 1 !in Positions(words[..|words| - 1], k)
  {
  }

  /** The number of tokens of kind `k`, as `Tally` counts them. */
  function CountOf(c: Counts, k: TokenKind): nat
  {
    match k
    case PositiveWord => c.positive
    case NegativeWord => c.negative
    case NeutralWord => c.neutral
    case OtherWord => 0
  }

  /** Each counter is the number of tokens found in its list. */
  lemma {:induction false} TallyCountsPositions(words: seq<string>, k: TokenKind)
    requires k != OtherWord
    ensures CountOf(Tally(words), k) == |Positions(words, k)|
  {
    if words == [] {
      assert Positions(words, k) == {};
    } else {
      var n := |words| - 1;
      TallyCountsPositions(words[..n], k);
      PositionsSnoc(words, k);
    }
  }

  /** The tokens in no list are exactly the ones not counted. */
  lemma {:induction false} TallyMissesOnlyUnlisted(words: seq<string>)
    ensures Tally(words).Total() + |Positions(words, OtherWord)| == |words|
  {
    if words == [] {
      assert Positions(words, OtherWord) == {};
    } else {
      var n := |words| - 1;
      TallyMissesOnlyUnlisted(words[..n]);
      PositionsSnoc(words, OtherWord);
    }
  }

  /** Counting is additive over concatenated token sequences: the invariant
      of the `forEach` loop. */
  lemma {:induction false} TallyAppend(a: seq<string>, b: seq<string>)
    ensures Tally(a + b) == Tally(a).Plus(Tally(b))
    decreases |b|
  {
    if b == [] {
      assert a + b == a;
    } else {
      var n := |b| - 1;
      var ab := a + b;
      var k := KindOf(b[n]);
      assert ab[..|ab| - 1] == a + b[..n];
      assert ab[|ab| - 1] == b[n];
      TallyAppend(a, b[..n]);
      calc {
        Tally(ab);
        Bump(Tally(a + b[..n]), k);
        Bump(Tally(a).Plus(Tally(b[..n])), k);
        { BumpPlus(Tally(a), Tally(b[..n]), k); }
        Tally(a).Plus(Bump(Tally(b[..n]), k));
        Tally(a).Plus(Tally(b));
      }
    }
  }

  lemma BumpPlus(x: Counts, y: Counts, k: TokenKind)
    ensures Bump(x.Plus(y), k) == x.Plus(Bump(y, k))
  {
  }

  /** A token in no list, such as an empty piece left by a leading or
      trailing separator, changes nothing wherever it stands. */
  lemma UnlistedTokenChangesNothing(a: seq<string>, w: string, b: seq<string>)
    requires KindOf(w) == OtherWord
    ensures Tally(a + [w] + b) == Tally(a + b)
  {
    TallyAppend(a + [w], b);
    TallyAppend(a, b);
    assert (a + [w])[..|a|] == a;
  }

  /** A token sequence with no keyword counts nothing. */
  lemma {:induction false} NoKeywordsCountsNothing(words: seq<string>)
    requires forall i :: 0 <= i < |words| ==> KindOf(words[i]) == OtherWord
    ensures Tally(words) == Zero
  {
    if words != [] {
      var n := |words| - 1;
      var init := words[..n];
      forall i | 0 <= i < |init| ensures KindOf(init[i]) == OtherWord {
        assert init[i] == words[i];
      }
      NoKeywordsCountsNothing(init);
      TallySnoc(words, n);
      assert KindOf(words[n]) == OtherWord;
    }
  }

  /** One more token: the step of the `forEach` loop. */
  lemma TallySnoc(words: seq<string>, i: nat)
    requires i < |words|
    ensures Tally(words[..i + 1]) == Bump(Tally(words[..i]), KindOf(words[i]))
  {
    var prefix := words[..i + 1];
    assert prefix[..i] == words[..i];
    assert prefix[i] == words[i];
  }

  /** The `sentiment` field: Positive when the positive count beats both
      others; otherwise Negative when the positive count does not beat the
      negative one and the negative count beats the neutral one; otherwise
      Neutral. Exactly one label results. */
  function SentimentOf(c: Counts): (l: Label)
    ensures l == Positive <==> c.positive > c.negative && c.positive > c.neutral
    ensures l == Negative <==> c.positive <= c.negative && c.negative > c.neutral
    ensures l == Neutral <==>
      (c.positive <= c.negative || c.positive <= c.neutral) &&
      (c.positive > c.negative || c.negative <= c.neutral)
  {
    if c.positive > c.negative then
      (if c.positive > c.neutral then Positive else Neutral)
    else
      (if c.negative > c.neutral then Negative else Neutral)
  }

  /** The tie-break is asymmetric: equal positive and negative counts above
      the neutral count give Negative, never Neutral. */
  lemma PositiveNegativeTieIsNegative(c: Counts)
    requires c.positive == c.negative && c.negative > c.neutral
    ensures SentimentOf(c) == Negative
  {
  }

  /** Adding one more keyword of the kind a label stands for keeps that
      label. */
  lemma MatchingKeywordKeepsLabel(c: Counts, k: TokenKind)
    requires k == match SentimentOf(c)
      case Positive => PositiveWord
      case Negative => NegativeWord
      case Neutral => NeutralWord
    ensures SentimentOf(Bump(c, k)) == SentimentOf(c)
  {
  }

  /** What `calculateSentiment` returns. */
  datatype Analysis = Analysis(sentiment: Label, intensity: Counts)

  /** The value `calculateSentiment(text)` computes. */
  function KeywordAnalysis(text: string): Analysis
  {
    var c := Tally(Tokens(text));
    Analysis(SentimentOf(c), c)
  }

  /** `calculateSentiment`: walks the tokens once, incrementing at most one
      counter per token. */
  method CalculateSentiment(text: string) returns (result: Analysis)
    ensures result == KeywordAnalysis(text)
    ensures result.intensity.positive == |Positions(Tokens(text), PositiveWord)|
    ensures result.intensity.negative == |Positions(Tokens(text), NegativeWord)|
    ensures result.intensity.neutral == |Positions(Tokens(text), NeutralWord)|
  {
    var words := Tokens(text);
    var positiveCount, negativeCount, neutralCount := 0, 0, 0;
    for i := 0 to |words|
      invariant Counts(positiveCount, negativeCount, neutralCount) == Tally(words[..i])
    {
      var word := words[i];
      TallySnoc(words, i);
      if word in PositiveKeywords {
        positiveCount := positiveCount + 1;
      } else if word in NegativeKeywords {
        negativeCount := negativeCount + 1;
      } else if word in NeutralKeywords {
        neutralCount := neutralCount + 1;
      }
    }
    assert words[..|words|] == words;
    TallyCountsPositions(words, PositiveWord);
    TallyCountsPositions(words, NegativeWord);
    TallyCountsPositions(words, NeutralWord);
    var intensity := Counts(positiveCount, negativeCount, neutralCount);
    result := Analysis(SentimentOf(intensity), intensity);
  }

  /** Matching ignores letter case, because the text is lower-cased before it
      is split. */
  lemma CaseInsensitive(s: string, t: string)
    requires SameUpToCase(s, t)
    ensures KeywordAnalysis(s) == KeywordAnalysis(t)
  {
    SameUpToCaseLowersAlike(s, t);
  }

  /** A review with no keyword among its tokens is Neutral with all counts
      zero. */
  lemma NoKeywordsIsNeutral(text: string)
    requires forall w :: w in Tokens(text) ==> KindOf(w) == OtherWord
    ensures KeywordAnalysis(text) == Analysis(Neutral, Zero)
  {
    var words := Tokens(text);
    forall i | 0 <= i < |words| ensures KindOf(words[i]) == OtherWord {
      assert words[i] in words;
    }
    NoKeywordsCountsNothing(words);
  }

  /** The empty review splits into one empty token and is Neutral. */
  lemma EmptyTextIsNeutral()
    ensures Tokens("") == [""]
    ensures KeywordAnalysis("") == Analysis(Neutral, Zero)
  {
    assert ToLower("") == "";
    assert Split("") == [""];
    assert KindOf("") == OtherWord by {
      KindIsTheList("");
    }
    TallySnoc([""], 0);
    assert [""][..0] == [];
  }

  lemma LowerGoodBad()
    ensures ToLower("Good BAD") == "good bad"
  {
    var lowered := ToLower("Good BAD");
    assert lowered[0] == LowerChar('G') == 'g';
    assert lowered[1] == 'o' && lowered[2] == 'o' && lowered[3] == 'd';
    assert lowered[4] == ' ';
    assert lowered[5] == LowerChar('B') == 'b';
    assert lowered[6] == LowerChar('A') == 'a';
    assert lowered[7] == LowerChar('D') == 'd';
  }

  lemma SplitGoodBad()
    ensures Split("good bad") == ["good", "bad"]
  {
    assert "good bad" == "good" + [' '] + "bad";
    SplitTwoWords("good", ' ', "bad");
  }

  lemma TallyGoodBad()
    ensures Tally(["good", "bad"]) == Counts(1, 1, 0)
  {
    var words := ["good", "bad"];
    assert words[..1] == ["good"];
    assert words[..1][..0] == [];
    assert KindOf("good") == PositiveWord;
    assert KindOf("bad") == NegativeWord;
  }

  /** "Good BAD": one positive and one negative keyword, in any case, give
      Negative through the tie-break. */
  lemma GoodBadIsNegative()
    ensures KeywordAnalysis("Good BAD") == Analysis(Negative, Counts(1, 1, 0))
  {
    LowerGoodBad();
    SplitGoodBad();
    TallyGoodBad();
  }
}
