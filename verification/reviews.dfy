/**
 * Google reviews as the home page shows them: the record the page keeps, the
 * loosely-typed records of the local fallback file and how the page fills
 * them in, and the five-star rating strip.
 */
module Reviews {
  import opened Wrappers

  /** A review as the page keeps and renders it; every field is filled in. */
  datatype Review = Review(
    authorName: string,
    rating: int,
    reviewText: string,
    originalText: string,
    authorPhotoUrl: string,
    publishTime: string)

  /** The review every field of which was missing. */
  const EmptyReview: Review := Review("", 0, "", "", "", "")

  /** `authorAttribution` of a fallback record; either field may be missing. */
  datatype Attribution = Attribution(displayName: Option<string>, photoUri: Option<string>)

  /** `text` or `originalText` of a fallback record: an object whose `text` may be missing. */
  datatype LocalizedText = LocalizedText(text: Option<string>)

  /** A record of the fallback file; every field may be missing or `null`. */
  datatype RawReview = RawReview(
    authorAttribution: Option<Attribution>,
    rating: Option<int>,
    text: Option<LocalizedText>,
    originalText: Option<LocalizedText>,
    publishTime: Option<string>)

  /**
   * The fallback file's document: its `reviews` array may be missing, and an
   * entry of the array may be `null` (`None`).
   */
  datatype FallbackDoc = FallbackDoc(reviews: Option<seq<Option<RawReview>>>)

  /** `a?.b ?? ''` for a localized text. */
  function TextOr(t: Option<LocalizedText>): string {
    match t
    case Some(LocalizedText(Some(s))) => s
    case _ => ""
  }

  /** The display name of an attribution, or `''` when it or its name is missing. */
  function DisplayNameOr(a: Option<Attribution>): string {
    match a
    case Some(Attribution(Some(s), _)) => s
    case _ => ""
  }

  /** The photo address of an attribution, or `''` when it or its address is missing. */
  function PhotoUriOr(a: Option<Attribution>): string {
    match a
    case Some(Attribution(_, Some(s))) => s
    case _ => ""
  }

  /**
   * One fallback record made into a review: a field that is present is kept as
   * it is, a missing one becomes `''`, or `0` for the rating.
   */
  function NormalizeEntry(r: RawReview): (v: Review)
    ensures r.rating.Some? ==> v.rating == r.rating.value
    ensures r.rating.None? ==> v.rating == 0
    ensures r.publishTime.Some? ==> v.publishTime == r.publishTime.value
    ensures r.publishTime.None? ==> v.publishTime == ""
    ensures r.authorAttribution.Some? && r.authorAttribution.value.displayName.Some? ==>
      v.authorName == r.authorAttribution.value.displayName.value
    ensures r.authorAttribution.None? || r.authorAttribution.value.displayName.None? ==> v.authorName == ""
    ensures r.authorAttribution.Some? && r.authorAttribution.value.photoUri.Some? ==>
      v.authorPhotoUrl == r.authorAttribution.value.photoUri.value
    ensures r.authorAttribution.None? || r.authorAttribution.value.photoUri.None? ==> v.authorPhotoUrl == ""
    ensures r.text.Some? && r.text.value.text.Some? ==> v.reviewText == r.text.value.text.value
    ensures r.text.None? || r.text.value.text.None? ==> v.reviewText == ""
    ensures r.originalText.Some? && r.originalText.value.text.Some? ==> v.originalText == r.originalText.value.text.value
    ensures r.originalText.None? || r.originalText.value.text.None? ==> v.originalText == ""
  {
    Review(
      DisplayNameOr(r.authorAttribution),
      r.rating.GetOr(0),
      TextOr(r.text),
      TextOr(r.originalText),
      PhotoUriOr(r.authorAttribution),
      r.publishTime.GetOr(""))
  }

  /**
   * The `.map` over the fallback entries. A `null` entry makes the callback
   * throw, so the whole mapping yields nothing (`None`); otherwise there is one
   * review per entry, in the same order.
   */
  function NormalizeAll(entries: seq<Option<RawReview>>): (r: Option<seq<Review>>)
    ensures r.Some? <==> forall i :: 0 <= i < |entries| ==> entries[i].Some?
    ensures r.Some? ==> |r.value| == |entries|
    ensures r.Some? ==> forall i :: 0 <= i < |entries| ==> r.value[i] == NormalizeEntry(entries[i].value)
  {
    if entries == [] then Some([])
    else match entries[0]
      case None => None
      case Some(first) =>
        match NormalizeAll(entries[1..])
        case None => None
        case Some(rest) => Some([NormalizeEntry(first)] + rest)
  }

  /**
   * The reviews the page takes from the fallback document: a missing
   * `reviews` array gives no reviews; a `null` document, like a `null` entry,
   * makes the mapping throw and gives nothing.
   */
  function NormalizeDocument(doc: Option<FallbackDoc>): (r: Option<seq<Review>>)
    ensures doc.None? ==> r.None?
    ensures doc.Some? && doc.value.reviews.None? ==> r == Some([])
    ensures doc.Some? && doc.value.reviews.Some? ==> r == NormalizeAll(doc.value.reviews.value)
  {
    match doc
    case None => None
    case Some(FallbackDoc(None)) => Some([])
    case Some(FallbackDoc(Some(entries))) => NormalizeAll(entries)
  }

  /** A review written out as a fallback record with every field present. */
  function ToRaw(v: Review): RawReview {
    RawReview(
      Some(Attribution(Some(v.authorName), Some(v.authorPhotoUrl))),
      Some(v.rating),
      Some(LocalizedText(Some(v.reviewText))),
      Some(LocalizedText(Some(v.originalText))),
      Some(v.publishTime))
  }

  /** Reviews written out as fallback entries, none of them `null`. */
  function ToRawAll(vs: seq<Review>): (entries: seq<Option<RawReview>>)
    ensures |entries| == |vs|
    ensures forall i :: 0 <= i < |vs| ==> entries[i] == Some(ToRaw(vs[i]))
  {
    if vs == [] then [] else [Some(ToRaw(vs[0]))] + ToRawAll(vs[1..])
  }

  /** Normalizing a fully populated record gives back the review it came from. */
  lemma NormalizeEntryRoundTrip(v: Review)
    ensures NormalizeEntry(ToRaw(v)) == v
  {
  }

  /** Normalizing fully populated records gives back the reviews, in order. */
  lemma {:induction false} NormalizeAllRoundTrip(vs: seq<Review>)
    ensures NormalizeAll(ToRawAll(vs)) == Some(vs)
  {
    if vs != [] {
      NormalizeAllRoundTrip(vs[1..]);
      assert ToRawAll(vs)[1..] == ToRawAll(vs[1..]);
      NormalizeEntryRoundTrip(vs[0]);
      assert [vs[0]] + vs[1..] == vs;
    }
  }

  /** A record with every field missing becomes the empty review. */
  lemma MissingFieldsDefault()
    ensures NormalizeEntry(RawReview(None, None, None, None, None)) == EmptyReview
    ensures NormalizeEntry(RawReview(Some(Attribution(None, None)), None,
      Some(LocalizedText(None)), Some(LocalizedText(None)), None)) == EmptyReview
  {
  }

  /** A rating of zero is kept, not replaced by the default (`??` only replaces a missing value). */
  lemma ZeroRatingKept(r: RawReview)
    requires r.rating == Some(0)
    ensures NormalizeEntry(r).rating == 0
  {
  }

  /** A document whose array has a `null` entry anywhere yields nothing. */
  lemma NullEntryYieldsNothing(entries: seq<Option<RawReview>>, i: int)
    requires 0 <= i < |entries| && entries[i].None?
    ensures NormalizeDocument(Some(FallbackDoc(Some(entries)))).None?
  {
  }

  /**
   * The star strip for a rating: five entries, entry `i` is 1 (a filled star)
   * exactly when `i < rating`, 0 otherwise.
   */
  function GetStars(rating: int): (stars: seq<int>)
    ensures |stars| == 5
    ensures forall i :: 0 <= i < 5 ==> (stars[i] == 1 <==> i < rating)
    ensures forall i :: 0 <= i < 5 ==> (stars[i] == 0 <==> rating <= i)
  {
    seq(5, i => if i < rating then 1 else 0)
  }

  /** `n` copies of `x`. */
  function Repeat(x: int, n: nat): (s: seq<int>)
    ensures |s| == n && forall i :: 0 <= i < n ==> s[i] == x
  {
    seq(n, _ => x)
  }

  function Clamp(x: int, lo: int, hi: int): int
    requires lo <= hi
  {
    if x < lo then lo else if hi < x then hi else x
  }

  function Sum(s: seq<int>): int {
    if s == [] then 0 else s[0] + Sum(s[1..])
  }

  /** The filled stars come first, then the empty ones; their number is the rating clamped to 0..5. */
  lemma StarsFilledFirst(rating: int)
    ensures GetStars(rating) == Repeat(1, Clamp(rating, 0, 5)) + Repeat(0, 5 - Clamp(rating, 0, 5))
  {
    var c := Clamp(rating, 0, 5);
    var expected := Repeat(1, c) + Repeat(0, 5 - c);
    assert forall i :: 0 <= i < 5 ==> GetStars(rating)[i] == expected[i];
  }

  /** The number of filled stars is the rating clamped to 0..5. */
  lemma {:induction false} StarsCount(rating: int)
    ensures Sum(GetStars(rating)) == Clamp(rating, 0, 5)
  {
    var c := Clamp(rating, 0, 5);
    StarsFilledFirst(rating);
    SumAppend(Repeat(1, c), Repeat(0, 5 - c));
    SumRepeat(1, c);
    SumRepeat(0, 5 - c);
  }

  /** A rating of zero or less shows no filled star; five or more shows five. */
  lemma StarsAtTheEnds(rating: int)
    ensures rating <= 0 ==> GetStars(rating) == [0, 0, 0, 0, 0]
    ensures rating >= 5 ==> GetStars(rating) == [1, 1, 1, 1, 1]
  {
    StarsFilledFirst(rating);
  }

  lemma {:induction false} SumAppend(a: seq<int>, b: seq<int>)
    ensures Sum(a + b) == Sum(a) + Sum(b)
  {
    if a != [] {
      SumAppend(a[1..], b);
      assert (a + b)[1..] == a[1..] + b;
    } else {
      assert a + b == b;
    }
  }

  lemma {:induction false} SumRepeat(x: int, n: nat)
    ensures Sum(Repeat(x, n)) == x * n
  {
    if n > 0 {
      SumRepeat(x, n - 1);
      assert Repeat(x, n)[1..] == Repeat(x, n - 1);
    }
  }
}
