/** The second pass over the scored table (add_nlp.py): a sentiment score
    from the compound polarity of the review, and a risk flag raised when
    the lower-cased review contains one of twelve risk words as a whole
    word. The compound scorer is a parameter of the model. */
module AddNlp {
  import opened Wrappers
  import opened Text
  import opened TextSignals
  import opened Features

  /** The risk words of add_nlp.py:25-28, in the order they are tried. */
  const RiskWords: seq<string> := [
    "fake", "broken", "waste", "duplicate", "bad", "poor", "damage",
    "defective", "fraud", "worst", "return", "refund"
  ]

  /** Every risk word is a non-empty run of word characters, so `\bw\b`
      matches it exactly where it stands alone. */
  lemma RiskWordsAreWords()
    ensures forall w :: w in RiskWords ==> |w| > 0 && AllWordChars(w)
  {
  }

  // ---------------------------------------------------------------------------
  // sentiment_score (add_nlp.py:15-22)
  // ---------------------------------------------------------------------------

  /** The compound score of a review; a missing review scores 0. */
  function SentimentScore(text: Option<string>, compound: string -> real): (r: real)
    ensures text.None? ==> r == 0.0
    ensures text.Some? ==> r == compound(text.value)
  {
    match text
    case None => 0.0
    case Some(t) => compound(t)
  }

  /** A missing review is neutral in both passes: score 0 here, and the
      label Neutral in the batch script. */
  lemma MissingReviewNeutral(compound: string -> real, polarity: string -> real)
    ensures Label(SentimentScore(None, compound)) == Neutral
    ensures GetSentiment(None, polarity) == Neutral
  {
  }

  /** The score keeps the scorer's range: with VADER's compound in [-1, 1]
      so is every score. */
  lemma SentimentScoreRange(text: Option<string>, compound: string -> real)
    requires forall t :: -1.0 <= compound(t) <= 1.0
    ensures -1.0 <= SentimentScore(text, compound) <= 1.0
  {
  }

  // ---------------------------------------------------------------------------
  // risk_flag (add_nlp.py:25-40)
  // ---------------------------------------------------------------------------

  /** A review is risky when its lower-cased text has a risk word standing
      alone as a whole word. */
  ghost predicate Risky(text: Option<string>)
  {
    text.Some? && exists w :: w in RiskWords && OccursAsWord(Lower(text.value), w)
  }

  /** `risk_flag`: try the risk words in order with `re.search(r"\bw\b", t)`
      and return 1 at the first match, 0 when none matches or the review is
      missing. */
  method RiskFlag(text: Option<string>) returns (flag: int)
    ensures flag == 0 || flag == 1
    ensures flag == 1 <==> Risky(text)
  {
    if text.None? {
      return 0;
    }
    var t := Lower(text.value);
    var k := 0;
    while k < |RiskWords|
      invariant 0 <= k <= |RiskWords|
      invariant forall j :: 0 <= j < k ==> !OccursAsWord(t, RiskWords[j])
    {
      if FindWholeWordFrom(t, RiskWords[k], 0) {
        assert OccursAsWord(t, RiskWords[k]);
        return 1;
      }
      k := k + 1;
    }
    forall w | w in RiskWords
      ensures !OccursAsWord(t, w)
    {
      var j :| 0 <= j < |RiskWords| && RiskWords[j] == w;
    }
    return 0;
  }

  /** The flag does not depend on the case of the review. */
  lemma RiskyCaseInsensitive(t: string)
    ensures Risky(Some(t)) <==> Risky(Some(Lower(t)))
  {
    LowerIdempotent(t);
  }

  /** A single token of word characters is risky only when it is itself a
      risk word: a longer word that merely contains one is not. */
  lemma {:induction false} RiskyToken(t: string)
    requires AllWordChars(Lower(t))
    ensures Risky(Some(t)) <==> Lower(t) in RiskWords
  {
    forall w | w in RiskWords
      ensures OccursAsWord(Lower(t), w) <==> w == Lower(t)
    {
      RiskWordIsWord(w);
      SingleToken(Lower(t), w);
    }
  }

  /** Text made of two parts around a non-word character is risky exactly
      when one of the parts is. */
  lemma RiskySplit(a: string, sep: char, b: string)
    requires !IsWordChar(sep) && LowerChar(sep) == sep
    ensures Risky(Some(a + [sep] + b)) <==> Risky(Some(a)) || Risky(Some(b))
  {
    var la, lb := Lower(a), Lower(b);
    assert Lower(a + [sep] + b) == la + [sep] + lb by {
      LowerConcat(a + [sep], b);
      LowerConcat(a, [sep]);
    }
    if Risky(Some(a + [sep] + b)) {
      var w :| w in RiskWords && OccursAsWord(la + [sep] + lb, w);
      RiskWordIsWord(w);
      SplitAtSeparator(la, sep, lb, w);
    }
    if Risky(Some(a)) {
      var w :| w in RiskWords && OccursAsWord(la, w);
      RiskWordIsWord(w);
      SplitAtSeparator(la, sep, lb, w);
    }
    if Risky(Some(b)) {
      var w :| w in RiskWords && OccursAsWord(lb, w);
      RiskWordIsWord(w);
      SplitAtSeparator(la, sep, lb, w);
    }
  }

  lemma RiskWordIsWord(w: string)
    requires w in RiskWords
    ensures |w| > 0 && AllWordChars(w)
  {
    RiskWordsAreWords();
  }

  /** "bad" standing alone is a risk, whatever its case. */
  lemma RiskyBadQuality()
    ensures Risky(Some("This is BAD quality"))
  {
    var t := Lower("This is BAD quality");
    assert t[7] == ' ' && t[8] == 'b' && t[9] == 'a' && t[10] == 'd' && t[11] == ' ';
    assert t[8..11] == "bad";
    assert WholeWordAt(t, "bad", 8);
    assert "bad" in RiskWords;
  }

  /** Punctuation ends a word: "Broken." is a risk. */
  lemma RiskyBeforePunctuation()
    ensures Risky(Some("Broken."))
  {
    var t := Lower("Broken.");
    assert t == "broken.";
    assert WholeWordAt(t, "broken", 0);
    assert "broken" in RiskWords;
  }

  /** A risk word inside a longer word is not a risk: "badge", "returned". */
  lemma NotRiskyInsideWords()
    ensures !Risky(Some("badge")) && !Risky(Some("Returned"))
  {
    assert !Risky(Some("badge")) by {
      assert Lower("badge") == "badge";
      assert "badge" !in RiskWords;
      RiskyToken("badge");
    }
    assert !Risky(Some("Returned")) by {
      assert Lower("Returned") == "returned";
      assert "returned" !in RiskWords;
      RiskyToken("Returned");
    }
  }

  /** Two words, neither of them a risk word, are not a risk. */
  lemma NotRiskyUnbrokenSeal()
    ensures !Risky(Some("Unbroken seal"))
  {
    assert !Risky(Some("Unbroken")) by {
      assert Lower("Unbroken") == "unbroken";
      RiskyToken("Unbroken");
    }
    assert !Risky(Some("seal")) by {
      assert Lower("seal") == "seal";
      assert "seal" !in RiskWords;
      RiskyToken("seal");
    }
    assert "Unbroken seal" == "Unbroken" + [' '] + "seal";
    RiskySplit("Unbroken", ' ', "seal");
  }

  /** The two keyword tests disagree on "Unbroken seal": it is a complaint to
      the substring test of the batch script but not a risk to the
      whole-word test of add_nlp.py. */
  lemma UnbrokenSealComplaintNotRisk()
    ensures HasComplaintKeywords(Some("Unbroken seal"))
    ensures !Risky(Some("Unbroken seal"))
  {
    ComplaintInsideLongerWord();
    NotRiskyUnbrokenSeal();
  }

  // ---------------------------------------------------------------------------
  // The two new columns
  // ---------------------------------------------------------------------------

  /** A row of the scored table with the two columns add_nlp.py adds. */
  datatype Enriched = Enriched(row: Scored, sentimentScore: real, riskFlag: int)

  /** `df["sentiment_score"] = ...apply(get_sentiment)` and
      `df["risk_flag"] = ...apply(risk_flag)`, row by row. */
  method AddNlpColumns(rows: seq<Scored>, compound: string -> real) returns (out: seq<Enriched>)
    ensures |out| == |rows|
    ensures forall i :: 0 <= i < |rows| ==> out[i].row == rows[i]
    ensures forall i :: 0 <= i < |rows| ==>
              out[i].sentimentScore == SentimentScore(rows[i].product.reviewContent, compound)
    ensures forall i :: 0 <= i < |rows| ==>
              (out[i].riskFlag == 0 || out[i].riskFlag == 1) &&
              (out[i].riskFlag == 1 <==> Risky(rows[i].product.reviewContent))
  {
    out := [];
    var i := 0;
    while i < |rows|
      invariant 0 <= i <= |rows| && |out| == i
      invariant forall k :: 0 <= k < i ==> out[k].row == rows[k]
      invariant forall k :: 0 <= k < i ==>
                  out[k].sentimentScore == SentimentScore(rows[k].product.reviewContent, compound)
      invariant forall k :: 0 <= k < i ==>
                  (out[k].riskFlag == 0 || out[k].riskFlag == 1) &&
                  (out[k].riskFlag == 1 <==> Risky(rows[k].product.reviewContent))
    {
      var text := rows[i].product.reviewContent;
      var flag := RiskFlag(text);
      out := out + [Enriched(rows[i], SentimentScore(text, compound), flag)];
      i := i + 1;
    }
  }
}
