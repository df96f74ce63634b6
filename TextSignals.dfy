/** The review-text signals of the batch scoring script
    (generate_data.py:99-119): a three-way sentiment label from a polarity
    score, and a substring test for complaint phrases. The polarity score
    itself comes from a lexicon library and is a parameter here. */
module TextSignals {
  import opened Wrappers
  import opened Text

  datatype Sentiment = Positive | Negative | Neutral

  /** The thresholds of `get_sentiment`: above 0.1 is positive, below -0.1
      negative, anything in between neutral. */
  function Label(polarity: real): (s: Sentiment)
    ensures s == Positive <==> polarity > 0.1
    ensures s == Negative <==> polarity < -0.1
    ensures s == Neutral <==> -0.1 <= polarity <= 0.1
  {
    if polarity > 0.1 then Positive
    else if polarity < -0.1 then Negative
    else Neutral
  }

  /** `get_sentiment`: missing text is neutral; otherwise the label of the
      text's polarity. */
  function GetSentiment(text: Option<string>, polarity: string -> real): (s: Sentiment)
    ensures text.None? ==> s == Neutral
    ensures text.Some? ==> s == Label(polarity(text.value))
  {
    match text
    case None => Neutral
    case Some(t) => Label(polarity(t))
  }

  function Rank(s: Sentiment): int
  {
    match s
    case Negative => -1
    case Neutral => 0
    case Positive => 1
  }

  /** A higher polarity never gets a worse label. */
  lemma LabelMonotone(p: real, q: real)
    requires p <= q
    ensures Rank(Label(p)) <= Rank(Label(q))
  {
  }

  const ComplaintKeywords: seq<string> :=
    ["fake", "broken", "poor quality", "waste", "duplicate", "defective", "not working"]

  /** `any(k in t for k in ks)`. */
  function AnyKeywordIn(t: string, ks: seq<string>): (b: bool)
    ensures b <==> exists k :: k in ks && Contains(t, k)
  {
    if ks == [] then false
    else if ContainsFrom(t, ks[0], 0) then assert ks[0] in ks && Contains(t, ks[0]); true
    else
      assert forall k :: k in ks ==> k == ks[0] || k in ks[1..];
      AnyKeywordIn(t, ks[1..])
  }

  /** `has_complaint_keywords`: false for missing text; otherwise whether the
      lower-cased text contains one of the complaint phrases anywhere, inside
      longer words too. */
  function HasComplaintKeywords(text: Option<string>): (b: bool)
    ensures b <==> text.Some? && exists k :: k in ComplaintKeywords && Contains(Lower(text.value), k)
  {
    match text
    case None => false
    case Some(t) => AnyKeywordIn(Lower(t), ComplaintKeywords)
  }

  /** The complaint test ignores case. */
  lemma ComplaintCaseInsensitive(t: string)
    ensures HasComplaintKeywords(Some(t)) == HasComplaintKeywords(Some(Lower(t)))
  {
    LowerIdempotent(t);
  }

  /** The test is by substring: "unbroken" counts as a complaint. */
  lemma ComplaintInsideLongerWord()
    ensures HasComplaintKeywords(Some("Unbroken seal"))
  {
    var t := Lower("Unbroken seal");
    assert t == "unbroken seal";
    assert InfixAt(t, "broken", 2);
  }

  /** Two-word phrases are matched as they stand. */
  lemma ComplaintPhrase()
    ensures HasComplaintKeywords(Some("Not Working"))
  {
    var t := Lower("Not Working");
    assert t == "not working" by {
      LowerConcat("Not", " Working");
      assert Lower("Not") == "not";
      assert Lower(" Working") == " working";
      assert "Not Working" == "Not" + " Working";
    }
    assert InfixAt(t, "not working", 0);
    assert "not working" in ComplaintKeywords;
  }
}
