/** The sentence shown under the similarity score. */
module ResultLabel {

  /** Scores strictly above this are "highly similar". */
  const HIGH_SIMILARITY: real := 80.0

  datatype Verdict = SpecialCase | HighlySimilar | LowSimilarity

  /** The verdict for a shown score: the special-case flag wins, otherwise
      the score is compared strictly against the threshold. */
  function Label(isSpecialCase: bool, score: real): (v: Verdict)
    ensures v == SpecialCase <==> isSpecialCase
    ensures v == HighlySimilar <==> !isSpecialCase && score > HIGH_SIMILARITY
    ensures v == LowSimilarity <==> !isSpecialCase && score <= HIGH_SIMILARITY
  {
    if isSpecialCase then SpecialCase
    else if score > HIGH_SIMILARITY then HighlySimilar
    else LowSimilarity
  }

  /** The text the page shows for each verdict. */
  function Message(v: Verdict): (m: string)
    ensures m != [] && (m[0] == 'S' <==> v == SpecialCase)
  {
    match v
    case SpecialCase => "Special case: 100% match!"
    case HighlySimilar => "These images are highly similar!"
    case LowSimilarity => "These images have low similarity."
  }

  /** Different verdicts read differently. */
  lemma MessagesDistinct(v: Verdict, w: Verdict)
    requires v != w
    ensures Message(v) != Message(w)
  {
  }

  /** The threshold is exact: 80 itself is low similarity. */
  lemma ThresholdIsStrict()
    ensures Label(false, 80.0) == LowSimilarity
    ensures Label(false, 80.01) == HighlySimilar
    ensures Label(true, 0.0) == SpecialCase
  {
  }
}
