/** The two scripts run one after the other: generate_data.py turns the raw
    catalog into the scored table, and add_nlp.py adds its two columns to
    that table. Reading and writing the CSV files is not modelled; the
    table is passed from one stage to the next. */
module Pipeline {
  import opened Normalizer
  import opened Features
  import opened AddNlp

  /** generate_data.py:11-119 with `df` rebound stage by stage: clean, drop
      duplicates, drop rows without prices and discount, fill the rating
      columns, then derive the scores. The median rating and the prior `m`
      are given; the polarity scorer is a parameter. The result is the
      scored table of the normalised catalog, so every fact proved about
      `Normalize` and `Derive` holds of it. */
  method GenerateData(raw: seq<RawRow>, median: real, m: real, polarity: string -> real)
    returns (scored: seq<Scored>)
    requires Scorable(Normalize(raw, median), m)
    ensures scored == Derive(Normalize(raw, median), m, polarity)
    ensures |scored| <= |raw|
  {
    var rows := CleanColumns(raw);
    rows := DropDuplicates(rows);
    rows := DropMissing(rows);
    rows := Impute(rows, median);
    var products := ToProducts(rows);
    assert products == Normalize(raw, median);
    scored := Derive(products, m, polarity);
  }

  /** Both scripts in turn: the final table is the generated table with the
      compound score and the 0/1 risk flag of each review. */
  method GenerateAndEnrich(raw: seq<RawRow>, median: real, m: real,
                           polarity: string -> real, compound: string -> real)
    returns (table: seq<Enriched>)
    requires Scorable(Normalize(raw, median), m)
    ensures |table| == |Normalize(raw, median)|
    ensures forall i :: 0 <= i < |table| ==>
              table[i].row == Derive(Normalize(raw, median), m, polarity)[i] &&
              table[i].sentimentScore == SentimentScore(table[i].row.product.reviewContent, compound) &&
              (table[i].riskFlag == 0 || table[i].riskFlag == 1) &&
              (table[i].riskFlag == 1 <==> Risky(table[i].row.product.reviewContent))
  {
    var scored := GenerateData(raw, median, m, polarity);
    table := AddNlpColumns(scored, compound);
  }
}
