/** The derived columns of the batch scoring script (generate_data.py:41-73):
    discount amount and ratio, main category, popularity score, the
    Bayesian-average weighted rating, trust score and value score. Every
    score is a min-max scaling over the whole table. */
module Features {
  import opened Wrappers
  import opened Stats
  import opened Normalizer
  import opened TextSignals

  // ---------------------------------------------------------------------------
  // Discount amount and ratio (generate_data.py:41-42)
  // ---------------------------------------------------------------------------

  /** `discount_amount = actual_price - discounted_price`. */
  function DiscountAmount(p: Product): (r: real)
    ensures p.discountedPrice <= p.actualPrice ==> r >= 0.0
    ensures p.discountedPrice >= 0.0 ==> r <= p.actualPrice
    ensures r == 0.0 <==> p.discountedPrice == p.actualPrice
  {
    p.actualPrice - p.discountedPrice
  }

  /** `discount_ratio = discount_amount / actual_price`; `None` stands for the
      infinite or NaN value pandas produces when the actual price is 0. */
  function DiscountRatio(p: Product): (r: Option<real>)
    ensures r.None? <==> p.actualPrice == 0.0
    ensures r.Some? ==> r.value * p.actualPrice == DiscountAmount(p)
  {
    if p.actualPrice == 0.0 then None else Some(DiscountAmount(p) / p.actualPrice)
  }

  /** For a consistent price pair the ratio is a fraction of the actual price. */
  lemma DiscountRatioBounds(p: Product)
    requires 0.0 <= p.discountedPrice <= p.actualPrice && p.actualPrice > 0.0
    ensures DiscountRatio(p).Some? && 0.0 <= DiscountRatio(p).value <= 1.0
  {
    QuotientBetween(DiscountAmount(p), p.actualPrice, 0.0, 1.0);
  }

  // ---------------------------------------------------------------------------
  // main_category = str(category).split("|")[0] (generate_data.py:46)
  // ---------------------------------------------------------------------------

  /** `str(x)`: a missing category is the text "nan". */
  function CategoryText(c: Option<string>): string
  {
    match c
    case None => "nan"
    case Some(s) => s
  }

  /** `s.split("|")[0]`: the prefix before the first '|', all of `s` when
      there is none. */
  function FirstField(s: string): (r: string)
    ensures '|' !in r
    ensures |r| <= |s| && r == s[..|r|]
    ensures |r| < |s| ==> s[|r|] == '|'
  {
    if s == [] || s[0] == '|' then []
    else
      var r := [s[0]] + FirstField(s[1..]);
      assert s[..|r|] == [s[0]] + s[1..][..|r| - 1];
      r
  }

  function MainCategory(c: Option<string>): (r: string)
    ensures '|' !in r
  {
    FirstField(CategoryText(c))
  }

  /** The prefix of a string before a '|' it does not contain is kept whole. */
  lemma {:induction false} FirstFieldBeforeBar(top: string, rest: string)
    requires '|' !in top
    ensures FirstField(top + "|" + rest) == top
  {
    if top != [] {
      assert (top + "|" + rest)[1..] == top[1..] + "|" + rest;
      FirstFieldBeforeBar(top[1..], rest);
    }
  }

  /** A string without '|' is its own first field. */
  lemma {:induction false} FirstFieldNoBar(c: string)
    requires '|' !in c
    ensures FirstField(c) == c
  {
    if c != [] {
      assert c[0] in c;
      FirstFieldNoBar(c[1..]);
    }
  }

  /** A category path is split at its first '|'. */
  lemma MainCategoryOfPath(top: string, rest: string)
    requires '|' !in top
    ensures MainCategory(Some(top + "|" + rest)) == top
  {
    FirstFieldBeforeBar(top, rest);
  }

  /** A category without '|' is its own main category. */
  lemma MainCategoryFlat(c: string)
    requires '|' !in c
    ensures MainCategory(Some(c)) == c
  {
    FirstFieldNoBar(c);
  }

  /** Taking the main category again changes nothing. */
  lemma MainCategoryIdempotent(c: Option<string>)
    ensures MainCategory(Some(MainCategory(c))) == MainCategory(c)
  {
    FirstFieldNoBar(MainCategory(c));
  }

  // ---------------------------------------------------------------------------
  // Min-max scaling into [0, 100] (generate_data.py:48-50, 61-63)
  // ---------------------------------------------------------------------------

  predicate InPercentRange(x: real)
  {
    0.0 <= x <= 100.0
  }

  /** ys ranks its positions exactly as xs does. */
  predicate SameOrder(xs: seq<real>, ys: seq<real>)
  {
    |xs| == |ys| && forall i, j :: 0 <= i < |xs| && 0 <= j < |xs| ==> (xs[i] <= xs[j] <==> ys[i] <= ys[j])
  }

  /** `(x - x.min()) / (x.max() - x.min()) * 100` over a column. The source
      divides by `max - min` unguarded, so the column must not be constant. */
  function MinMaxPercent(xs: seq<real>): (r: seq<real>)
    requires xs == [] || Spread(xs)
    ensures |r| == |xs|
    ensures forall i :: 0 <= i < |xs| ==> InPercentRange(r[i])
    ensures forall i :: 0 <= i < |xs| && xs[i] == Min(xs) ==> r[i] == 0.0
    ensures forall i :: 0 <= i < |xs| && xs[i] == Max(xs) ==> r[i] == 100.0
    ensures SameOrder(xs, r)
  {
    if xs == [] then []
    else
      var lo, hi := Min(xs), Max(xs);
      var r := seq(|xs|, i requires 0 <= i < |xs| => Unit(xs[i], lo, hi) * 100.0);
      MinMaxPercentFacts(xs, lo, hi, r);
      r
  }

  lemma MinMaxPercentFacts(xs: seq<real>, lo: real, hi: real, r: seq<real>)
    requires Spread(xs) && lo == Min(xs) && hi == Max(xs)
    requires |r| == |xs| && forall i :: 0 <= i < |xs| ==> r[i] == Unit(xs[i], lo, hi) * 100.0
    ensures forall i :: 0 <= i < |xs| ==> InPercentRange(r[i])
    ensures forall i :: 0 <= i < |xs| && xs[i] == lo ==> r[i] == 0.0
    ensures forall i :: 0 <= i < |xs| && xs[i] == hi ==> r[i] == 100.0
    ensures forall i, j :: 0 <= i < |xs| && 0 <= j < |xs| ==> (xs[i] <= xs[j] <==> r[i] <= r[j])
  {
    UnitEnds(lo, hi);
    forall i | 0 <= i < |xs| ensures InPercentRange(r[i]) {
      UnitBounds(xs[i], lo, hi);
    }
    forall i, j | 0 <= i < |xs| && 0 <= j < |xs| ensures xs[i] <= xs[j] <==> r[i] <= r[j] {
      UnitMonotone(xs[i], xs[j], lo, hi);
    }
  }

  function RatingCounts(ps: seq<Product>): (xs: seq<real>)
    ensures |xs| == |ps|
  {
    seq(|ps|, i requires 0 <= i < |ps| => ps[i].ratingCount)
  }

  function Ratings(ps: seq<Product>): (xs: seq<real>)
    ensures |xs| == |ps|
  {
    seq(|ps|, i requires 0 <= i < |ps| => ps[i].rating)
  }

  function DiscountedPrices(ps: seq<Product>): (xs: seq<real>)
    ensures |xs| == |ps|
  {
    seq(|ps|, i requires 0 <= i < |ps| => ps[i].discountedPrice)
  }

  function DiscountPercentages(ps: seq<Product>): (xs: seq<real>)
    ensures |xs| == |ps|
  {
    seq(|ps|, i requires 0 <= i < |ps| => ps[i].discountPercentage)
  }

  // ---------------------------------------------------------------------------
  // weighted_rating (generate_data.py:52-60)
  // ---------------------------------------------------------------------------

  /** `(v/(v+m))*R + (m/(v+m))*C` for a product with `v` ratings averaging
      `R`, a prior strength `m` and a global mean rating `C`. */
  function WeightedRating(v: real, R: real, m: real, C: real): real
    requires v + m != 0.0
  {
    (v / (v + m)) * R + (m / (v + m)) * C
  }

  /** The weighted rating is C moved towards R by the share v/(v+m). */
  lemma WeightedRatingShift(v: real, R: real, m: real, C: real)
    requires v + m != 0.0
    ensures WeightedRating(v, R, m, C) == C + (v / (v + m)) * (R - C)
    ensures WeightedRating(v, R, m, C) == R + (m / (v + m)) * (C - R)
  {
    var s := v + m;
    assert v / s + m / s == 1.0;
  }

  /** With non-negative counts it is a convex blend: it lies between R and C. */
  lemma WeightedRatingBetween(v: real, R: real, m: real, C: real)
    requires v >= 0.0 && m >= 0.0 && v + m > 0.0
    ensures R <= C ==> R <= WeightedRating(v, R, m, C) <= C
    ensures C <= R ==> C <= WeightedRating(v, R, m, C) <= R
  {
    WeightedRatingShift(v, R, m, C);
    QuotientBetween(v, v + m, 0.0, 1.0);
    BlendBetween(v / (v + m), R, C);
  }

  /** C moved towards R by a share w in [0, 1] stays between the two. */
  lemma BlendBetween(w: real, R: real, C: real)
    requires 0.0 <= w <= 1.0
    ensures R <= C ==> R <= C + w * (R - C) <= C
    ensures C <= R ==> C <= C + w * (R - C) <= R
  {
    if R >= C {
      ShareBetween(w, C, R);
    } else {
      ShareBetween(w, R, C);
      MulNegate(w, R, C);
    }
  }

  /** A share w in [0, 1] of hi - lo lies between 0 and hi - lo. */
  lemma ShareBetween(w: real, lo: real, hi: real)
    requires 0.0 <= w <= 1.0 && lo <= hi
    ensures 0.0 <= w * (hi - lo) <= hi - lo
  {
    var d := hi - lo;
    MulNonneg(w, d);
    MulNonneg(1.0 - w, d);
    assert (1.0 - w) * d == d - w * d;
  }

  lemma MulNegate(w: real, R: real, C: real)
    ensures w * (R - C) == -(w * (C - R))
  {
  }

  /** A product without ratings gets the global mean. */
  lemma WeightedRatingNoVotes(R: real, m: real, C: real)
    requires m != 0.0
    ensures WeightedRating(0.0, R, m, C) == C
  {
  }

  /** When a product's rating already equals the global mean, nothing moves. */
  lemma WeightedRatingAtMean(v: real, R: real, m: real)
    requires v + m != 0.0
    ensures WeightedRating(v, R, m, R) == R
  {
    WeightedRatingShift(v, R, m, R);
  }

  /** More ratings bring the weighted rating closer to the product's own
      rating (and so farther from the global mean). */
  lemma WeightedRatingApproachesRating(v1: real, v2: real, R: real, m: real, C: real)
    requires 0.0 <= v1 <= v2 && m > 0.0
    ensures Abs(WeightedRating(v2, R, m, C) - R) <= Abs(WeightedRating(v1, R, m, C) - R)
  {
    WeightedRatingShift(v1, R, m, C);
    WeightedRatingShift(v2, R, m, C);
    var w1, w2 := m / (v1 + m), m / (v2 + m);
    DivAntitone(m, v1 + m, v2 + m);
    if C >= R {
      MulMonotone(w2, w1, C - R);
      MulNonneg(w2, C - R);
    } else {
      MulMonotone(w2, w1, R - C);
      MulNonneg(w2, R - C);
    }
  }

  function Abs(x: real): real
  {
    if x < 0.0 then -x else x
  }

  /** The weighted rating of every row, with `C` the mean rating of the table
      and `m` given (the source takes the 60th percentile of the counts). */
  function WeightedRatings(ps: seq<Product>, m: real): (ws: seq<real>)
    requires forall i :: 0 <= i < |ps| ==> ps[i].ratingCount + m != 0.0
    ensures |ws| == |ps|
  {
    if ps == [] then []
    else
      var C := Mean(Ratings(ps));
      seq(|ps|, i requires 0 <= i < |ps| => WeightedRating(ps[i].ratingCount, ps[i].rating, m, C))
  }

  /** With non-negative counts and prior every weighted rating lies between the
      least and the greatest rating of the table. */
  lemma WeightedRatingsWithinRatings(ps: seq<Product>, m: real)
    requires m >= 0.0
    requires forall i :: 0 <= i < |ps| ==> ps[i].ratingCount >= 0.0 && ps[i].ratingCount + m > 0.0
    ensures forall i :: 0 <= i < |ps| ==>
              Min(Ratings(ps)) <= WeightedRatings(ps, m)[i] <= Max(Ratings(ps))
  {
    if ps != [] {
      var rs := Ratings(ps);
      var C := Mean(rs);
      MeanBounds(rs);
      forall i | 0 <= i < |ps|
        ensures Min(rs) <= WeightedRatings(ps, m)[i] <= Max(rs)
      {
        assert rs[i] == ps[i].rating;
        WeightedRatingBetween(ps[i].ratingCount, ps[i].rating, m, C);
      }
    }
  }

  // ---------------------------------------------------------------------------
  // value_score (generate_data.py:65-73)
  // ---------------------------------------------------------------------------

  /** `1 - (price - min) / (max - min)`: 1 for the cheapest, 0 for the dearest. */
  function PriceComponent(price: real, lo: real, hi: real): (r: real)
    requires lo < hi
    ensures lo <= price <= hi ==> 0.0 <= r <= 1.0
  {
    if lo <= price <= hi then UnitBounds(price, lo, hi); 1.0 - Unit(price, lo, hi)
    else 1.0 - Unit(price, lo, hi)
  }

  /** `(discount - min) / (max - min)`. */
  function DiscountComponent(discount: real, lo: real, hi: real): (r: real)
    requires lo < hi
    ensures lo <= discount <= hi ==> 0.0 <= r <= 1.0
  {
    if lo <= discount <= hi then UnitBounds(discount, lo, hi); Unit(discount, lo, hi)
    else Unit(discount, lo, hi)
  }

  /** `(0.6 * discount_component + 0.4 * price_component) * 100`. */
  function ValueScore(discount: real, price: real, dLo: real, dHi: real, pLo: real, pHi: real): real
    requires dLo < dHi && pLo < pHi
  {
    (0.6 * DiscountComponent(discount, dLo, dHi) + 0.4 * PriceComponent(price, pLo, pHi)) * 100.0
  }

  /** The cheapest product has price component 1, the dearest 0. */
  lemma PriceComponentEnds(lo: real, hi: real)
    requires lo < hi
    ensures PriceComponent(lo, lo, hi) == 1.0 && PriceComponent(hi, lo, hi) == 0.0
  {
    UnitEnds(lo, hi);
  }

  /** Inside the column ranges the value score lies in [0, 100]. */
  lemma ValueScoreBounds(discount: real, price: real, dLo: real, dHi: real, pLo: real, pHi: real)
    requires dLo < dHi && pLo < pHi
    requires dLo <= discount <= dHi && pLo <= price <= pHi
    ensures 0.0 <= ValueScore(discount, price, dLo, dHi, pLo, pHi) <= 100.0
  {
    UnitBounds(discount, dLo, dHi);
    UnitBounds(price, pLo, pHi);
  }

  /** The best deal of the table, largest discount at the lowest price, scores
      100; the smallest discount at the highest price scores 0. */
  lemma ValueScoreExtremes(dLo: real, dHi: real, pLo: real, pHi: real)
    requires dLo < dHi && pLo < pHi
    ensures ValueScore(dHi, pLo, dLo, dHi, pLo, pHi) == 100.0
    ensures ValueScore(dLo, pHi, dLo, dHi, pLo, pHi) == 0.0
  {
    UnitEnds(dLo, dHi);
    UnitEnds(pLo, pHi);
  }

  /** A larger discount or a lower price never lowers the value score. */
  lemma ValueScoreMonotone(d1: real, d2: real, p1: real, p2: real, dLo: real, dHi: real, pLo: real, pHi: real)
    requires dLo < dHi && pLo < pHi
    requires d1 <= d2 && p2 <= p1
    ensures ValueScore(d1, p1, dLo, dHi, pLo, pHi) <= ValueScore(d2, p2, dLo, dHi, pLo, pHi)
  {
    UnitMonotone(d1, d2, dLo, dHi);
    UnitMonotone(p2, p1, pLo, pHi);
  }

  // ---------------------------------------------------------------------------
  // The scored table
  // ---------------------------------------------------------------------------

  /** A row of the scored table the batch script writes. */
  datatype Scored = Scored(
    product: Product,
    discountAmount: real,
    discountRatio: Option<real>,
    mainCategory: string,
    popularityScore: real,
    weightedRating: real,
    trustScore: real,
    valueScore: real,
    sentiment: Sentiment,
    complaintRisk: bool)

  /** What the source's unguarded arithmetic needs of the table: no row with
      `v + m = 0`, and none of the four scaled columns constant. */
  predicate Scorable(ps: seq<Product>, m: real)
  {
    (forall i :: 0 <= i < |ps| ==> ps[i].ratingCount + m != 0.0) &&
    (ps != [] ==>
       Spread(RatingCounts(ps)) && Spread(WeightedRatings(ps, m)) &&
       Spread(DiscountedPrices(ps)) && Spread(DiscountPercentages(ps)))
  }

  /** The extremes of the two columns the value score scales. */
  datatype Ranges = Ranges(pLo: real, pHi: real, dLo: real, dHi: real)

  function ValueRanges(ps: seq<Product>): (g: Ranges)
    requires Spread(DiscountedPrices(ps)) && Spread(DiscountPercentages(ps))
    ensures g.pLo < g.pHi && g.dLo < g.dHi
    ensures forall i :: 0 <= i < |ps| ==>
              g.pLo <= ps[i].discountedPrice <= g.pHi && g.dLo <= ps[i].discountPercentage <= g.dHi
  {
    var prices, discounts := DiscountedPrices(ps), DiscountPercentages(ps);
    assert forall i :: 0 <= i < |ps| ==> prices[i] == ps[i].discountedPrice;
    assert forall i :: 0 <= i < |ps| ==> discounts[i] == ps[i].discountPercentage;
    Ranges(Min(prices), Max(prices), Min(discounts), Max(discounts))
  }

  /** The columns of a scored row that depend on its own product alone (and
      on the extremes of the two columns the value score scales). */
  predicate RowColumns(r: Scored, p: Product, g: Ranges, polarity: string -> real)
    requires g.pLo < g.pHi && g.dLo < g.dHi
  {
    r.product == p &&
    r.discountAmount == DiscountAmount(p) && r.discountRatio == DiscountRatio(p) &&
    r.mainCategory == MainCategory(p.category) &&
    r.valueScore == ValueScore(p.discountPercentage, p.discountedPrice, g.dLo, g.dHi, g.pLo, g.pHi) &&
    r.sentiment == GetSentiment(p.reviewContent, polarity) &&
    r.complaintRisk == HasComplaintKeywords(p.reviewContent)
  }

  /** One row of the scored table, from its product and its column scores. */
  function ScoreRow(p: Product, popularity: real, weighted: real, trust: real, g: Ranges,
                    polarity: string -> real): (r: Scored)
    requires g.pLo < g.pHi && g.dLo < g.dHi
    requires InPercentRange(popularity) && InPercentRange(trust)
    requires g.pLo <= p.discountedPrice <= g.pHi && g.dLo <= p.discountPercentage <= g.dHi
    ensures r.product == p && r.popularityScore == popularity
    ensures r.weightedRating == weighted && r.trustScore == trust
    ensures InPercentRange(r.popularityScore) && InPercentRange(r.trustScore) && InPercentRange(r.valueScore)
    ensures r.discountAmount == p.actualPrice - p.discountedPrice
  {
    ValueScoreBounds(p.discountPercentage, p.discountedPrice, g.dLo, g.dHi, g.pLo, g.pHi);
    Scored(p, DiscountAmount(p), DiscountRatio(p), MainCategory(p.category),
           popularity, weighted, trust,
           ValueScore(p.discountPercentage, p.discountedPrice, g.dLo, g.dHi, g.pLo, g.pHi),
           GetSentiment(p.reviewContent, polarity),
           HasComplaintKeywords(p.reviewContent))
  }

  /** The scored rows of a table, given its column scores, built row by row. */
  function ScoreRows(ps: seq<Product>, popularity: seq<real>, weighted: seq<real>, trust: seq<real>,
                     g: Ranges, polarity: string -> real): (r: seq<Scored>)
    requires |popularity| == |ps| && |weighted| == |ps| && |trust| == |ps|
    requires g.pLo < g.pHi && g.dLo < g.dHi
    requires forall i :: 0 <= i < |ps| ==> InPercentRange(popularity[i])
    requires forall i :: 0 <= i < |ps| ==> InPercentRange(trust[i])
    requires forall i :: 0 <= i < |ps| ==>
               g.pLo <= ps[i].discountedPrice <= g.pHi && g.dLo <= ps[i].discountPercentage <= g.dHi
    ensures |r| == |ps|
    ensures forall i :: 0 <= i < |r| ==>
              r[i].product == ps[i] && r[i].popularityScore == popularity[i] &&
              r[i].weightedRating == weighted[i] && r[i].trustScore == trust[i]
    ensures forall i :: 0 <= i < |r| ==>
              InPercentRange(r[i].valueScore) &&
              r[i].discountAmount == ps[i].actualPrice - ps[i].discountedPrice
  {
    if ps == [] then []
    else
      var n := |ps| - 1;
      ScoreRows(ps[..n], popularity[..n], weighted[..n], trust[..n], g, polarity) +
      [ScoreRow(ps[n], popularity[n], weighted[n], trust[n], g, polarity)]
  }

  /** Each scored row carries its own product's columns. */
  lemma {:induction false} ScoreRowsColumns(ps: seq<Product>, popularity: seq<real>, weighted: seq<real>,
                                             trust: seq<real>, g: Ranges, polarity: string -> real)
    requires |popularity| == |ps| && |weighted| == |ps| && |trust| == |ps|
    requires g.pLo < g.pHi && g.dLo < g.dHi
    requires forall i :: 0 <= i < |ps| ==> InPercentRange(popularity[i])
    requires forall i :: 0 <= i < |ps| ==> InPercentRange(trust[i])
    requires forall i :: 0 <= i < |ps| ==>
               g.pLo <= ps[i].discountedPrice <= g.pHi && g.dLo <= ps[i].discountPercentage <= g.dHi
    ensures forall i :: 0 <= i < |ps| ==>
              RowColumns(ScoreRows(ps, popularity, weighted, trust, g, polarity)[i], ps[i], g, polarity)
  {
    if ps != [] {
      var n := |ps| - 1;
      ScoreRowsColumns(ps[..n], popularity[..n], weighted[..n], trust[..n], g, polarity);
      var r := ScoreRows(ps, popularity, weighted, trust, g, polarity);
      var prev := ScoreRows(ps[..n], popularity[..n], weighted[..n], trust[..n], g, polarity);
      assert r == prev + [ScoreRow(ps[n], popularity[n], weighted[n], trust[n], g, polarity)];
      forall i | 0 <= i < |ps| ensures RowColumns(r[i], ps[i], g, polarity) {
        if i < n {
          assert r[i] == prev[i] && ps[..n][i] == ps[i];
        }
      }
    }
  }

  /** `popularity_score`: the rating counts scaled into [0, 100], ranking the
      rows as their counts do. */
  function Popularity(ps: seq<Product>): (r: seq<real>)
    requires Spread(RatingCounts(ps))
    ensures |r| == |ps|
    ensures forall i :: 0 <= i < |ps| ==> InPercentRange(r[i])
    ensures forall i, j :: 0 <= i < |ps| && 0 <= j < |ps| ==>
              (ps[i].ratingCount <= ps[j].ratingCount <==> r[i] <= r[j])
  {
    var counts := RatingCounts(ps);
    var r := MinMaxPercent(counts);
    forall i, j | 0 <= i < |ps| && 0 <= j < |ps|
      ensures ps[i].ratingCount <= ps[j].ratingCount <==> r[i] <= r[j]
    {
      assert counts[i] == ps[i].ratingCount && counts[j] == ps[j].ratingCount;
    }
    r
  }

  /** Every derived column of generate_data.py:41-73 and 118-119, row by row:
      each row keeps its product and its discount amount, and all three
      scores lie in [0, 100]. */
  function Derive(ps: seq<Product>, m: real, polarity: string -> real): (r: seq<Scored>)
    requires Scorable(ps, m)
    ensures |r| == |ps|
    ensures forall i :: 0 <= i < |r| ==>
              r[i].product == ps[i] &&
              r[i].discountAmount == ps[i].actualPrice - ps[i].discountedPrice &&
              InPercentRange(r[i].popularityScore) && InPercentRange(r[i].trustScore) &&
              InPercentRange(r[i].valueScore)
    ensures ps != [] ==> forall i :: 0 <= i < |r| ==>
              r[i].popularityScore == Popularity(ps)[i] &&
              r[i].weightedRating == WeightedRatings(ps, m)[i] &&
              r[i].trustScore == MinMaxPercent(WeightedRatings(ps, m))[i]
  {
    if ps == [] then []
    else
      var weighted := WeightedRatings(ps, m);
      ScoreRows(ps, Popularity(ps), weighted, MinMaxPercent(weighted), ValueRanges(ps), polarity)
  }

  /** Every row of the scored table has its own discount amount and ratio,
      main category, sentiment label and complaint flag, and the value score of
      its discount and price against the extremes of the table. */
  lemma DeriveRowColumns(ps: seq<Product>, m: real, polarity: string -> real)
    requires Scorable(ps, m) && ps != []
    ensures forall i :: 0 <= i < |ps| ==> RowColumns(Derive(ps, m, polarity)[i], ps[i], ValueRanges(ps), polarity)
  {
    var weighted := WeightedRatings(ps, m);
    ScoreRowsColumns(ps, Popularity(ps), weighted, MinMaxPercent(weighted), ValueRanges(ps), polarity);
  }

  /** Popularity ranks the rows exactly as their rating counts do. */
  lemma DerivePopularityRanks(ps: seq<Product>, m: real, polarity: string -> real)
    requires Scorable(ps, m)
    ensures forall i, j :: 0 <= i < |ps| && 0 <= j < |ps| ==>
              (ps[i].ratingCount <= ps[j].ratingCount <==>
               Derive(ps, m, polarity)[i].popularityScore <= Derive(ps, m, polarity)[j].popularityScore)
  {
  }

  /** Trust ranks the rows exactly as their weighted ratings do, and the
      weighted rating of a row is its Bayesian average against the table mean. */
  lemma DeriveTrustRanks(ps: seq<Product>, m: real, polarity: string -> real)
    requires Scorable(ps, m)
    ensures forall i, j :: 0 <= i < |ps| && 0 <= j < |ps| ==>
              (Derive(ps, m, polarity)[i].weightedRating <= Derive(ps, m, polarity)[j].weightedRating <==>
               Derive(ps, m, polarity)[i].trustScore <= Derive(ps, m, polarity)[j].trustScore)
  {
    if ps != [] {
      assert SameOrder(WeightedRatings(ps, m), MinMaxPercent(WeightedRatings(ps, m)));
    }
  }
}
