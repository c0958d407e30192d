/**
 * A user review (brickfront/review.py): ten children read by position, five
 * unguarded integer ratings and a case-sensitive `HTML` token table.
 */
module Reviews {
  import opened Wrappers
  import opened Errors
  import opened PyText

  datatype Review = Review(
    author: Text,
    datePosted: Text,
    overallRating: int,
    parts: int,
    buildingExperience: int,
    playability: int,
    valueForMoney: int,
    title: Text,
    review: Text,
    html: bool)

  /** The `HTML` token table; the key is the text itself, so a missing text misses. */
  const HtmlTokens: map<string, bool> :=
    map["true" := true, "false" := false, "True" := true, "False" := false, "1" := true, "0" := false]

  function HtmlFlag(t: Text): Result<bool>
  {
    if t.Some? && t.value in HtmlTokens then Ok(HtmlTokens[t.value]) else Err(KeyError)
  }

  /** `Review(data)`, reading the children in source order. */
  function DecodeReview(data: Leaves): Result<Review>
  {
    var author :- At(data, 0);
    var datePosted :- At(data, 1);
    var t2 :- At(data, 2);
    var overallRating :- Int(t2);
    var t3 :- At(data, 3);
    var parts :- Int(t3);
    var t4 :- At(data, 4);
    var buildingExperience :- Int(t4);
    var t5 :- At(data, 5);
    var playability :- Int(t5);
    var t6 :- At(data, 6);
    var valueForMoney :- Int(t6);
    var title :- At(data, 7);
    var review :- At(data, 8);
    var t9 :- At(data, 9);
    var html :- HtmlFlag(t9);
    Ok(Review(author, datePosted, overallRating, parts, buildingExperience, playability,
              valueForMoney, title, review, html))
  }

  // ------------------------------------------------------------- properties

  /** `true`, `True`, `1` give True; `false`, `False`, `0` give False; anything else raises KeyError. */
  lemma HtmlTokenTable(t: Text)
    ensures HtmlFlag(t) == Ok(true) <==> t in [Some("true"), Some("True"), Some("1")]
    ensures HtmlFlag(t) == Ok(false) <==> t in [Some("false"), Some("False"), Some("0")]
    ensures HtmlFlag(t).Err? <==>
      t !in [Some("true"), Some("True"), Some("1"), Some("false"), Some("False"), Some("0")]
    ensures HtmlFlag(t).Err? ==> HtmlFlag(t).error == KeyError
  {
  }

  /** The table is case-sensitive: `TRUE` and a missing text both raise. */
  lemma HtmlRejects()
    ensures HtmlFlag(Some("TRUE")) == Err(KeyError)
    ensures HtmlFlag(None) == Err(KeyError)
  {
  }

  /** Decoding succeeds exactly on ten or more children with numerals at 2–6 and a known token at 9. */
  lemma ReviewSucceeds(data: Leaves)
    ensures DecodeReview(data).Ok? <==>
      && |data| >= 10
      && IntOk(data[2]) && IntOk(data[3]) && IntOk(data[4]) && IntOk(data[5]) && IntOk(data[6])
      && HtmlFlag(data[9]).Ok?
  {
  }

  /** The text fields are the raw texts of children 0, 1, 7, 8; the ratings are `int()` of children 2–6. */
  lemma ReviewFieldsAt(data: Leaves)
    requires DecodeReview(data).Ok?
    ensures var r := DecodeReview(data).value;
      && |data| >= 10
      && r.author == data[0] && r.datePosted == data[1] && r.title == data[7] && r.review == data[8]
      && Ok(r.overallRating) == Int(data[2]) && Ok(r.parts) == Int(data[3])
      && Ok(r.buildingExperience) == Int(data[4]) && Ok(r.playability) == Int(data[5])
      && Ok(r.valueForMoney) == Int(data[6])
      && Ok(r.html) == HtmlFlag(data[9])
  {
  }

  /**
   * A missing or malformed rating is an error, TypeError or ValueError as
   * `int()` raises, once the ratings read before it are well formed.
   */
  lemma ReviewRatingErrors(data: Leaves, i: nat)
    requires |data| >= 10 && 2 <= i <= 6
    requires forall j :: 2 <= j < i ==> IntOk(data[j])
    ensures data[i].None? ==> DecodeReview(data) == Err(TypeError)
    ensures data[i].Some? && !IsNumeral(data[i].value) ==> DecodeReview(data) == Err(ValueError)
  {
    assert i > 2 ==> IntOk(data[2]);
    assert i > 3 ==> IntOk(data[3]);
    assert i > 4 ==> IntOk(data[4]);
    assert i > 5 ==> IntOk(data[5]);
  }

  /** Children past index 9 are ignored. */
  lemma ReviewIgnoresTail(data: Leaves)
    requires |data| >= 10
    ensures DecodeReview(data) == DecodeReview(data[..10])
  {
    var d := data[..10];
    assert d[0] == data[0] && d[1] == data[1] && d[2] == data[2] && d[3] == data[3] && d[4] == data[4];
    assert d[5] == data[5] && d[6] == data[6] && d[7] == data[7] && d[8] == data[8] && d[9] == data[9];
  }

  /** The ratings a decode needs, present and well formed, for the children that exist. */
  predicate PresentRatingsOk(data: Leaves)
  {
    forall i :: 2 <= i <= 6 && i < |data| ==> IntOk(data[i])
  }

  /** Fewer than ten children always fail; with well-formed ratings the failure is an IndexError. */
  lemma ShortReviewFails(data: Leaves)
    requires |data| < 10
    ensures DecodeReview(data).Err?
    ensures PresentRatingsOk(data) ==> DecodeReview(data) == Err(IndexError)
  {
    if PresentRatingsOk(data) {
      assert 2 < |data| ==> IntOk(data[2]);
      assert 3 < |data| ==> IntOk(data[3]);
      assert 4 < |data| ==> IntOk(data[4]);
      assert 5 < |data| ==> IntOk(data[5]);
      assert 6 < |data| ==> IntOk(data[6]);
    }
  }
}
