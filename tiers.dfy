/** What the product tile derives from its eco score: the badge colour, the explanation
    block shown under "Sustainability Details" and the closing sentence below it. */
module EcoTiers {
  import EcoScore

  /** The five badge colours, from best to worst. */
  datatype Color = Green500 | Green400 | Yellow500 | Yellow400 | Red500

  /** The CSS class the badge is drawn with. */
  function ColorClass(c: Color): string
  {
    match c
    case Green500 => "bg-green-500"
    case Green400 => "bg-green-400"
    case Yellow500 => "bg-yellow-500"
    case Yellow400 => "bg-yellow-400"
    case Red500 => "bg-red-500"
  }

  /** Position of a colour on the scale, 0 for the worst. */
  function Rank(c: Color): nat
  {
    match c
    case Red500 => 0
    case Yellow400 => 1
    case Yellow500 => 2
    case Green400 => 3
    case Green500 => 4
  }

  /** The badge colour of a score: bands of width 20 starting at 20, everything from 80 up
      on top and everything below 20 at the bottom. */
  function EcoScoreColor(score: int): (c: Color)
    ensures c == Green500 <==> 80 <= score
    ensures c == Green400 <==> 60 <= score < 80
    ensures c == Yellow500 <==> 40 <= score < 60
    ensures c == Yellow400 <==> 20 <= score < 40
    ensures c == Red500 <==> score < 20
  {
    if score >= 80 then Green500
    else if score >= 60 then Green400
    else if score >= 40 then Yellow500
    else if score >= 20 then Yellow400
    else Red500
  }

  /** The colour scale never goes down as the score goes up. */
  lemma ColorMonotone(a: int, b: int)
    requires a <= b
    ensures Rank(EcoScoreColor(a)) <= Rank(EcoScoreColor(b))
  {
  }

  /** The top tier starts exactly at 80. */
  lemma TopTierBoundary()
    ensures EcoScoreColor(80) == Green500
    ensures EcoScoreColor(79) == Green400
  {
  }

  /** Distinct colours are drawn with distinct classes. */
  lemma ColorClassInjective(c: Color, d: Color)
    requires ColorClass(c) == ColorClass(d)
    ensures c == d
  {
    assert ColorClass(c)[3] == ColorClass(d)[3];
    assert ColorClass(c)[9] == ColorClass(d)[9];
  }

  /** The three explanation blocks. */
  datatype Explanation = Positive | Moderate | Limited

  /** The lines of each block, with their check, warning, info and cross marks. */
  function ExplanationLines(e: Explanation): seq<string>
  {
    match e
    case Positive =>
      ["\U{2713} High sustainability score",
       "\U{2713} Uses eco-friendly manufacturing",
       "\U{2713} Has recycling initiatives",
       "\U{2713} Minimal environmental impact"]
    case Moderate =>
      ["\U{2713} Moderate eco-friendly features",
       "\U{26A0} Could improve recycling practices",
       "\U{26A0} Partial sustainable materials used",
       "\U{2139} Consider more eco-friendly alternatives"]
    case Limited =>
      ["\U{2717} Limited sustainability features",
       "\U{2717} No clear recycling information",
       "\U{2717} High environmental impact",
       "\U{2139} Look for more sustainable options"]
  }

  /** The three blocks are different texts: they differ in the marks of their first two lines. */
  lemma ExplanationLinesInjective(e: Explanation, f: Explanation)
    requires ExplanationLines(e) == ExplanationLines(f)
    ensures e == f
  {
    assert ExplanationLines(e)[0][0] == ExplanationLines(f)[0][0];
    assert ExplanationLines(e)[1][0] == ExplanationLines(f)[1][0];
  }

  /** The block chosen for a score: positive from 50, moderate from 20, limited below. */
  function ExplanationTier(score: int): (e: Explanation)
    ensures e == Positive <==> 50 <= score
    ensures e == Moderate <==> 20 <= score < 50
    ensures e == Limited <==> score < 20
  {
    if score >= 50 then Positive
    else if score >= 20 then Moderate
    else Limited
  }

  /** The two closing sentences. */
  datatype Closing = StrongCommitment | CouldImprove

  /** The sentence printed below the explanation. */
  function ClosingText(c: Closing): string
  {
    match c
    case StrongCommitment => "This product demonstrates strong commitment to environmental sustainability."
    case CouldImprove => "This product could benefit from improved sustainability practices."
  }

  /** The two closing sentences are different texts. */
  lemma ClosingTextInjective(c: Closing, d: Closing)
    requires ClosingText(c) == ClosingText(d)
    ensures c == d
  {
    assert ClosingText(c)[13] == ClosingText(d)[13];
  }

  /** The closing sentence for a score: the strong one exactly from 80 up. */
  function ClosingSentence(score: int): (c: Closing)
    ensures c == StrongCommitment <==> 80 <= score
  {
    if score >= 80 then StrongCommitment else CouldImprove
  }

  /** The scores the scorer can produce. */
  predicate Reachable(score: int)
  {
    0 <= score <= EcoScore.MaxScore && score % EcoScore.Increment == 0
  }

  /** Every product gets a reachable score. */
  lemma ScoresAreReachable(title: string, snippet: string)
    ensures Reachable(EcoScore.Score(title, snippet))
  {
  }

  /** The reachable scores are exactly 0, 20, 40, 60, 80 and 100. */
  lemma ReachableScores(score: int)
    ensures Reachable(score) <==> score in {0, 20, 40, 60, 80, 100}
  {
    if Reachable(score) {
      var q := score / 20;
      assert score == 20 * q;
      assert 0 <= q <= 5;
      assert q == 0 || q == 1 || q == 2 || q == 3 || q == 4 || q == 5;
    }
  }

  /** On reachable scores the explanation agrees with the badge: the positive block goes with
      the two greens, the moderate block with the two yellows and the limited block with red. */
  lemma ExplanationMatchesColor(score: int)
    requires Reachable(score)
    ensures ExplanationTier(score) == Positive <==> EcoScoreColor(score) in {Green500, Green400}
    ensures ExplanationTier(score) == Moderate <==> EcoScoreColor(score) in {Yellow500, Yellow400}
    ensures ExplanationTier(score) == Limited <==> EcoScoreColor(score) == Red500
  {
    ReachableScores(score);
  }

  /** Without reachability the agreement fails: 50 is positive yet yellow. */
  lemma PositiveYellowAtFifty()
    ensures ExplanationTier(50) == Positive && EcoScoreColor(50) == Yellow500
  {
  }

  /** The strong closing sentence goes with the top badge colour, for every score. */
  lemma ClosingMatchesTopColor(score: int)
    ensures ClosingSentence(score) == StrongCommitment <==> EcoScoreColor(score) == Green500
  {
  }

  /** On a product tile the positive explanation shows exactly when the badge is green. */
  lemma CardExplanationMatchesColor(title: string, snippet: string)
    ensures var s := EcoScore.Score(title, snippet);
            ExplanationTier(s) == Positive <==> EcoScoreColor(s) in {Green500, Green400}
  {
    ScoresAreReachable(title, snippet);
    ExplanationMatchesColor(EcoScore.Score(title, snippet));
  }
}
