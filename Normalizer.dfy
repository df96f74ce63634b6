/** The first half of the batch scoring script (generate_data.py): the numeric
    columns of the raw catalog are cleaned from text, exact duplicate rows are
    dropped, rows without the three required price fields are dropped, and a
    missing rating or rating count is imputed. */
module Normalizer {
  import opened Wrappers
  import opened Text
  import opened Numbers

  // ---------------------------------------------------------------------------
  // Rows
  // ---------------------------------------------------------------------------

  /** A catalog row as read from the file: the numeric columns are still text,
      and `None` is an empty cell. `otherColumns` are the columns the script
      carries along untouched (user ids, links, titles); they take part in
      the duplicate test like every other column. */
  datatype RawRow = RawRow(
    productId: string,
    productName: string,
    category: Option<string>,
    actualPrice: Option<string>,
    discountedPrice: Option<string>,
    discountPercentage: Option<string>,
    rating: Option<string>,
    ratingCount: Option<string>,
    reviewContent: Option<string>,
    otherColumns: seq<Option<string>>)

  /** A row once its numeric columns are numbers; `None` is NaN. */
  datatype Row = Row(
    productId: string,
    productName: string,
    category: Option<string>,
    actualPrice: Option<real>,
    discountedPrice: Option<real>,
    discountPercentage: Option<real>,
    rating: Option<real>,
    ratingCount: Option<real>,
    reviewContent: Option<string>,
    otherColumns: seq<Option<string>>)

  /** A row of the normalised table: every numeric column present. */
  datatype Product = Product(
    productId: string,
    productName: string,
    category: Option<string>,
    actualPrice: real,
    discountedPrice: real,
    discountPercentage: real,
    rating: real,
    ratingCount: real,
    reviewContent: Option<string>,
    otherColumns: seq<Option<string>>)

  // ---------------------------------------------------------------------------
  // Cleaning the numeric columns (generate_data.py:13-35)
  // ---------------------------------------------------------------------------

  /** The text `clean_price` removes: the three characters U+00E2, U+201A,
      U+00B9 of the literal at generate_data.py:16 (`â‚¹`). The single
      character U+20B9 (`₹`) is a different text and is not removed. */
  const Rupee: string := "\U{E2}\U{201A}\U{B9}"

  /** `clean_price`: a missing cell stays missing; otherwise every rupee sign
      and every comma is removed, surrounding whitespace is stripped and the
      rest is read as a number, or is missing when it is not one. */
  function CleanPrice(x: Option<string>): (r: Option<real>)
    ensures x.None? ==> r.None?
  {
    match x
    case None => None
    case Some(s) => ParseNumber(Strip(RemoveAll(RemoveAll(s, Rupee), ",")))
  }

  /** `discount_percentage`: the '%' signs removed, stripped, read as a number. */
  function CleanPercent(x: Option<string>): (r: Option<real>)
    ensures x.None? ==> r.None?
  {
    match x
    case None => None
    case Some(s) => ParseNumber(Strip(RemoveAll(s, "%")))
  }

  /** `rating_count`: the thousands separators removed, stripped, read as a number. */
  function CleanCount(x: Option<string>): (r: Option<real>)
    ensures x.None? ==> r.None?
  {
    match x
    case None => None
    case Some(s) => ParseNumber(Strip(RemoveAll(s, ",")))
  }

  /** `rating`: read as a number as it stands. */
  function CleanRating(x: Option<string>): (r: Option<real>)
    ensures x.None? ==> r.None?
    ensures r.Some? ==> |x.value| > 0 && forall i :: 0 <= i < |x.value| ==> IsNumeralChar(x.value[i])
  {
    match x
    case None => None
    case Some(s) => ParseNumber(s)
  }

  function CleanRow(r: RawRow): Row
  {
    Row(r.productId, r.productName, r.category,
        CleanPrice(r.actualPrice), CleanPrice(r.discountedPrice),
        CleanPercent(r.discountPercentage), CleanRating(r.rating),
        CleanCount(r.ratingCount), r.reviewContent, r.otherColumns)
  }

  /** The five column assignments of generate_data.py:19-35, row by row. */
  function CleanColumns(raw: seq<RawRow>): (rows: seq<Row>)
    ensures |rows| == |raw|
  {
    seq(|raw|, i requires 0 <= i < |raw| => CleanRow(raw[i]))
  }

  lemma {:induction false} RemoveAllKeeps(s: string, pat: string, c: char)
    requires |pat| > 0 && c in s && c !in pat
    ensures c in RemoveAll(s, pat)
  {
    if |pat| <= |s| && s[..|pat|] == pat {
      assert s == s[..|pat|] + s[|pat|..];
      RemoveAllKeeps(s[|pat|..], pat, c);
    } else {
      assert s == [s[0]] + s[1..];
      if s[0] != c {
        RemoveAllKeeps(s[1..], pat, c);
      }
    }
  }

  lemma StripKeeps(s: string, c: char)
    requires c in s && !IsSpace(c)
    ensures c in Strip(s)
  {
    var k :| 0 <= k < |s| && s[k] == c;
    var l := StripLeft(s);
    StripLeftKeeps(s, k);
    var j := k - (|s| - |l|);
    StripRightKeeps(l, j);
    assert Strip(s)[j] == c;
  }

  lemma StripLeftKeeps(s: string, k: nat)
    requires k < |s| && !IsSpace(s[k])
    ensures |s| - |StripLeft(s)| <= k && StripLeft(s)[k - (|s| - |StripLeft(s)|)] == s[k]
  {
  }

  lemma StripRightKeeps(s: string, k: nat)
    requires k < |s| && !IsSpace(s[k])
    ensures k < |StripRight(s)| && StripRight(s)[k] == s[k]
  {
  }

  /** Text that is not a number is coerced to a missing value: a character
      that is not a digit, sign or point — and not removed by the cleaner —
      makes the cleaned price missing. */
  lemma PriceTextRejected(s: string, c: char)
    requires c in s && !IsNumeralChar(c) && !IsSpace(c) && c != ',' && c !in Rupee
    ensures CleanPrice(Some(s)) == None
  {
    RemoveAllKeeps(s, Rupee, c);
    RemoveAllKeeps(RemoveAll(s, Rupee), ",", c);
    StripKeeps(RemoveAll(RemoveAll(s, Rupee), ","), c);
  }

  /** A price holding the one-character rupee sign U+20B9 is not cleaned of
      it, so it reads as no number and is missing; `dropna` then drops its
      row. */
  lemma RupeeSignRejected(x: RawRow)
    requires x.actualPrice.Some? && '\U{20B9}' in x.actualPrice.value
    ensures CleanPrice(x.actualPrice) == None
    ensures !Kept(x)
  {
    PriceTextRejected(x.actualPrice.value, '\U{20B9}');
  }

  /** The same for the percentage and the count cleaners. */
  lemma PercentAndCountTextRejected(s: string, c: char)
    requires c in s && !IsNumeralChar(c) && !IsSpace(c) && c != ',' && c != '%'
    ensures CleanPercent(Some(s)) == None
    ensures CleanCount(Some(s)) == None
  {
    RemoveAllKeeps(s, "%", c);
    StripKeeps(RemoveAll(s, "%"), c);
    RemoveAllKeeps(s, ",", c);
    StripKeeps(RemoveAll(s, ","), c);
  }

  /** Removing the commas of a grouped numeral leaves its plain digits. */
  lemma {:induction false} GroupedDigits(n: nat)
    ensures |RemoveAll(Grouped(n), ",")| > 0
    ensures AllDigits(RemoveAll(Grouped(n), ","))
    ensures DigitsValue(RemoveAll(Grouped(n), ",")) == n
  {
    var g := Grouped(n);
    if n < 1000 {
      RemoveAllAbsent(g, ",");
      ShowNatValue(n);
    } else {
      var hi := Grouped(n / 1000);
      var lo := Pad3(n % 1000);
      var d := RemoveAll(hi, ",");
      GroupedDigits(n / 1000);
      assert RemoveAll(g, ",") == d + lo by {
        assert g == hi + ([','] + lo);
        RemoveCharConcat(hi, [','] + lo, ',');
        RemoveCharConcat([','], lo, ',');
        assert RemoveAll([','], ",") == [];
        RemoveAllAbsent(lo, ",");
      }
      DigitsValueConcat(d, lo);
      Pad3Value(n % 1000);
      assert Pow10(|lo|) == 1000 by {
        assert Pow10(3) == 10 * Pow10(2) && Pow10(2) == 10 * Pow10(1) && Pow10(1) == 10 * Pow10(0);
      }
      assert n == (n / 1000) * 1000 + n % 1000;
    }
  }

  /** Stripping a padded digit string gives the digits back. */
  lemma StripDigits(pre: string, d: string, post: string)
    requires AllSpace(pre) && AllSpace(post) && |d| > 0 && AllDigits(d)
    ensures Strip(pre + d + post) == d
  {
    StripPadded(pre, d, post);
  }

  /** Removing commas from whitespace-padded text touches only the text. */
  lemma RemoveCommasPadded(pre: string, g: string, post: string)
    requires AllSpace(pre) && AllSpace(post)
    ensures RemoveAll(pre + g + post, ",") == pre + RemoveAll(g, ",") + post
  {
    RemoveCharConcat(pre + g, post, ',');
    RemoveCharConcat(pre, g, ',');
    RemoveAllAbsent(pre, ",");
    RemoveAllAbsent(post, ",");
  }

  /** Round trip: a price written with the three-character sign `Rupee`,
      thousands separators and whitespace padding, such as " â‚¹1,299 ",
      cleans to its value. */
  lemma CleanPriceRoundTrip(n: nat, pre: string, post: string)
    requires AllSpace(pre) && AllSpace(post)
    ensures CleanPrice(Some(pre + Rupee + Grouped(n) + post)) == Some(n as real)
  {
    var g := Grouped(n);
    RemoveSignPadded(pre, n, post);
    var d := RemoveAll(g, ",");
    assert Strip(RemoveAll(pre + g + post, ",")) == d by {
      RemoveCommasPadded(pre, g, post);
      GroupedDigits(n);
      StripDigits(pre, d, post);
    }
    GroupedDigits(n);
    ParseDigits(d);
  }

  /** The sign text in front of a grouped numeral is the only text removed. */
  lemma RemoveSignPadded(pre: string, n: nat, post: string)
    requires AllSpace(pre) && AllSpace(post)
    ensures RemoveAll(pre + Rupee + Grouped(n) + post, Rupee) == pre + Grouped(n) + post
  {
    var g := Grouped(n);
    var y := g + post;
    SignFree(g, post);
    RemoveSignAfter(pre, y);
    assert pre + Rupee + g + post == pre + (Rupee + y);
    assert pre + g + post == pre + y;
  }

  /** Whitespace, the sign text, then text without the sign's first character. */
  lemma RemoveSignAfter(pre: string, y: string)
    requires AllSpace(pre)
    requires forall i :: 0 <= i < |y| ==> y[i] != Rupee[0]
    ensures RemoveAll(pre + (Rupee + y), Rupee) == pre + y
  {
    RupeeHead();
    RemoveAllKeepsPrefix(pre, Rupee + y, Rupee);
    RemoveLeadingSign(y);
    RemoveAllAbsent(y, Rupee);
  }

  lemma RupeeHead()
    ensures |Rupee| == 3 && Rupee[0] == '\U{E2}'
    ensures !IsSpace(Rupee[0]) && !IsDigit(Rupee[0]) && Rupee[0] != ','
  {
  }

  lemma RemoveLeadingSign(y: string)
    ensures RemoveAll(Rupee + y, Rupee) == RemoveAll(y, Rupee)
  {
    var x := Rupee + y;
    assert x[..|Rupee|] == Rupee && x[|Rupee|..] == y;
  }

  /** A grouped numeral and whitespace hold no character of the sign's first. */
  lemma SignFree(g: string, post: string)
    requires AllSpace(post)
    requires forall i :: 0 <= i < |g| ==> IsDigit(g[i]) || g[i] == ','
    ensures forall i :: 0 <= i < |g + post| ==> (g + post)[i] != Rupee[0]
  {
    RupeeHead();
    var y := g + post;
    forall i | 0 <= i < |y| ensures y[i] != Rupee[0] {
      if i < |g| { assert y[i] == g[i]; } else { assert y[i] == post[i - |g|]; }
    }
  }

  /** Round trip: a count written with thousands separators ("24,269") cleans to its value. */
  lemma CleanCountRoundTrip(n: nat, pre: string, post: string)
    requires AllSpace(pre) && AllSpace(post)
    ensures CleanCount(Some(pre + Grouped(n) + post)) == Some(n as real)
  {
    var g := Grouped(n);
    RemoveCommasPadded(pre, g, post);
    GroupedDigits(n);
    var d := RemoveAll(g, ",");
    StripDigits(pre, d, post);
    ParseDigits(d);
  }

  /** Round trip: a percentage written "64%" cleans to 64. */
  lemma CleanPercentRoundTrip(n: nat, pre: string, post: string)
    requires AllSpace(pre) && AllSpace(post)
    ensures CleanPercent(Some(pre + ShowNat(n) + "%" + post)) == Some(n as real)
  {
    var d := ShowNat(n);
    RemovePercentPadded(pre, d, post);
    StripDigits(pre, d, post);
    ParseDigits(d);
    ShowNatValue(n);
  }

  lemma RemovePercentPadded(pre: string, d: string, post: string)
    requires AllSpace(pre) && AllSpace(post) && AllDigits(d)
    ensures RemoveAll(pre + d + "%" + post, "%") == pre + d + post
  {
    var y := "%" + post;
    assert pre + d + "%" + post == (pre + d) + y;
    RemoveCharConcat(pre + d, y, '%');
    RemoveAllAbsent(pre + d, "%");
    assert y[..1] == "%" && y[1..] == post;
    assert RemoveAll(y, "%") == RemoveAll(post, "%");
    RemoveAllAbsent(post, "%");
  }

  /** Round trip: a rating written with one decimal ("4.2") reads as its value. */
  lemma CleanRatingRoundTrip(whole: nat, tenth: nat)
    requires tenth < 10
    ensures CleanRating(Some(ShowNat(whole) + "." + [DigitChar(tenth)]))
              == Some(whole as real + tenth as real / 10.0)
  {
    ParseOneDecimal(ShowNat(whole), DigitChar(tenth));
    ShowNatValue(whole);
  }

  // ---------------------------------------------------------------------------
  // drop_duplicates (generate_data.py:36)
  // ---------------------------------------------------------------------------

  predicate Distinct(rows: seq<Row>)
  {
    forall i, j :: 0 <= i < j < |rows| ==> rows[i] != rows[j]
  }

  /** The position of the first occurrence of x. */
  function FirstIndex(rows: seq<Row>, x: Row): (k: nat)
    requires x in rows
    ensures k < |rows| && rows[k] == x && x !in rows[..k]
  {
    if rows[0] == x then 0
    else
      var k := FirstIndex(rows[1..], x);
      assert rows[..k + 1] == [rows[0]] + rows[1..][..k];
      k + 1
  }

  lemma {:induction false} FirstIndexInPrefix(rows: seq<Row>, n: nat, x: Row)
    requires n <= |rows| && x in rows[..n]
    ensures FirstIndex(rows, x) == FirstIndex(rows[..n], x)
  {
    if rows[0] != x {
      assert rows[..n][0] == rows[0];
      assert rows[..n][1..] == rows[1..][..n - 1];
      FirstIndexInPrefix(rows[1..], n - 1, x);
    }
  }

  /** `df.drop_duplicates()`: the first occurrence of every row, in the order of
      first occurrence. No two kept rows are equal, and a row is kept exactly
      when it occurs in the input. */
  function DropDuplicates(rows: seq<Row>): (r: seq<Row>)
    ensures |r| <= |rows|
    ensures Distinct(r)
    ensures forall x :: x in r <==> x in rows
    ensures forall i, j :: 0 <= i < j < |r| ==> FirstIndex(rows, r[i]) < FirstIndex(rows, r[j])
  {
    if rows == [] then []
    else
      var n := |rows| - 1;
      var init := rows[..n];
      var last := rows[n];
      var prev := DropDuplicates(init);
      assert rows == init + [last];
      forall x | x in prev ensures FirstIndex(rows, x) == FirstIndex(init, x) {
        FirstIndexInPrefix(rows, n, x);
      }
      if last in init then
        prev
      else
        var r := prev + [last];
        assert FirstIndex(rows, last) == n;
        forall i | 0 <= i < |prev| ensures FirstIndex(rows, r[i]) < n {
          assert r[i] == prev[i];
        }
        r
  }

  // ---------------------------------------------------------------------------
  // dropna(subset=[...]) (generate_data.py:37)
  // ---------------------------------------------------------------------------

  /** The three fields a row cannot do without. */
  predicate HasRequired(r: Row)
  {
    r.actualPrice.Some? && r.discountedPrice.Some? && r.discountPercentage.Some?
  }

  /** `a` is `b` with some elements left out, the rest in their order. */
  ghost predicate IsSubsequence(a: seq<Row>, b: seq<Row>)
    decreases |b|
  {
    if a == [] then true
    else if b == [] then false
    else if a[0] == b[0] then IsSubsequence(a[1..], b[1..])
    else IsSubsequence(a, b[1..])
  }

  /** `df.dropna(subset=["actual_price", "discounted_price",
      "discount_percentage"])`: the rows that have all three, each as often as
      in the input, in their original order. */
  function DropMissing(rows: seq<Row>): (r: seq<Row>)
    ensures |r| <= |rows|
    ensures forall i :: 0 <= i < |r| ==> HasRequired(r[i])
    ensures forall x :: multiset(r)[x] == if HasRequired(x) then multiset(rows)[x] else 0
    ensures IsSubsequence(r, rows)
  {
    if rows == [] then []
    else
      var rest := DropMissing(rows[1..]);
      assert rows == [rows[0]] + rows[1..];
      if HasRequired(rows[0]) then
        var r := [rows[0]] + rest;
        assert r[1..] == rest;
        r
      else
        assert rest != [] ==> rest[0] != rows[0];
        rest
  }

  // ---------------------------------------------------------------------------
  // fillna (generate_data.py:38-39)
  // ---------------------------------------------------------------------------

  /** A row ready for scoring: every numeric column present. */
  predicate Complete(r: Row)
  {
    HasRequired(r) && r.rating.Some? && r.ratingCount.Some?
  }

  /** A missing rating becomes the median rating, a missing count becomes 0. */
  function ImputeRow(r: Row, median: real): Row
  {
    r.(rating := Some(r.rating.GetOr(median)), ratingCount := Some(r.ratingCount.GetOr(0.0)))
  }

  /** `df["rating"].fillna(median)` and `df["rating_count"].fillna(0)`. The
      median is the median of the present ratings, which pandas computes; it
      is given here. */
  function Impute(rows: seq<Row>, median: real): (r: seq<Row>)
    ensures |r| == |rows|
    ensures forall i :: 0 <= i < |r| ==> r[i].rating.Some? && r[i].ratingCount.Some?
    ensures forall i :: 0 <= i < |r| && rows[i].rating.None? ==> r[i].rating == Some(median)
    ensures forall i :: 0 <= i < |r| && rows[i].ratingCount.None? ==> r[i].ratingCount == Some(0.0)
    ensures forall i :: 0 <= i < |r| && rows[i].rating.Some? ==> r[i].rating == rows[i].rating
    ensures forall i :: 0 <= i < |r| && rows[i].ratingCount.Some? ==> r[i].ratingCount == rows[i].ratingCount
    ensures forall i :: 0 <= i < |r| ==>
              r[i].(rating := rows[i].rating, ratingCount := rows[i].ratingCount) == rows[i]
  {
    seq(|rows|, i requires 0 <= i < |rows| => ImputeRow(rows[i], median))
  }

  /** Imputing again changes nothing, whatever median is used the second time. */
  lemma ImputeIdempotent(rows: seq<Row>, median: real, median': real)
    ensures Impute(Impute(rows, median), median') == Impute(rows, median)
  {
  }

  function ToProduct(r: Row): Product
    requires Complete(r)
  {
    Product(r.productId, r.productName, r.category,
            r.actualPrice.value, r.discountedPrice.value, r.discountPercentage.value,
            r.rating.value, r.ratingCount.value, r.reviewContent, r.otherColumns)
  }

  /** The normalised row that a raw row turns into, when it is kept. */
  predicate Kept(x: RawRow)
  {
    HasRequired(CleanRow(x))
  }

  function Normalized(x: RawRow, median: real): Product
    requires Kept(x)
  {
    ToProduct(ImputeRow(CleanRow(x), median))
  }

  function ToProducts(rows: seq<Row>): (ps: seq<Product>)
    requires forall i :: 0 <= i < |rows| ==> Complete(rows[i])
    ensures |ps| == |rows|
  {
    seq(|rows|, i requires 0 <= i < |rows| => ToProduct(rows[i]))
  }

  /** All of generate_data.py:13-39: a raw row survives exactly when its
      three required fields clean to numbers, and the result is made only of
      such rows. */
  function Normalize(raw: seq<RawRow>, median: real): (ps: seq<Product>)
    ensures |ps| <= |raw|
    ensures forall p :: p in ps ==> exists x :: x in raw && Kept(x) && Normalized(x, median) == p
    ensures forall x :: x in raw && Kept(x) ==> Normalized(x, median) in ps
  {
    var kept := DropMissing(DropDuplicates(CleanColumns(raw)));
    var ps := ToProducts(Impute(kept, median));
    NormalizeSound(raw, median, kept, ps);
    NormalizeComplete(raw, median, kept, ps);
    ps
  }

  lemma NormalizeSound(raw: seq<RawRow>, median: real, kept: seq<Row>, ps: seq<Product>)
    requires kept == DropMissing(DropDuplicates(CleanColumns(raw)))
    requires ps == ToProducts(Impute(kept, median))
    ensures forall p :: p in ps ==> exists x :: x in raw && Kept(x) && Normalized(x, median) == p
  {
    var cleaned := CleanColumns(raw);
    forall p | p in ps
      ensures exists x :: x in raw && Kept(x) && Normalized(x, median) == p
    {
      var i :| 0 <= i < |ps| && ps[i] == p;
      var row := kept[i];
      assert multiset(kept)[row] > 0;
      assert row in DropDuplicates(cleaned);
      var j :| 0 <= j < |cleaned| && cleaned[j] == row;
      assert Kept(raw[j]) && Normalized(raw[j], median) == p;
    }
  }

  lemma NormalizeComplete(raw: seq<RawRow>, median: real, kept: seq<Row>, ps: seq<Product>)
    requires kept == DropMissing(DropDuplicates(CleanColumns(raw)))
    requires ps == ToProducts(Impute(kept, median))
    ensures forall x :: x in raw && Kept(x) ==> Normalized(x, median) in ps
  {
    var cleaned := CleanColumns(raw);
    var unique := DropDuplicates(cleaned);
    forall x | x in raw && Kept(x)
      ensures Normalized(x, median) in ps
    {
      var j :| 0 <= j < |raw| && raw[j] == x;
      assert cleaned[j] == CleanRow(x);
      assert CleanRow(x) in unique;
      assert multiset(unique)[CleanRow(x)] > 0;
      assert multiset(kept)[CleanRow(x)] > 0;
      var i :| 0 <= i < |kept| && kept[i] == CleanRow(x);
      assert ps[i] == Normalized(x, median);
    }
  }
}
