/** The spot rules of the API: the owner check of PUT and DELETE
    /api/spots/:spotId, and the page/size handling and per-spot summary
    (average rating, preview image) of GET /api/spots. */
module SpotRules {
  import opened Wrappers
  import opened Tables
  import opened Entities

  // ---------------------------------------------------------------------
  // PUT and DELETE /api/spots/:spotId

  datatype OwnerError = SpotMissing | NotOwner

  function OwnerStatus(e: OwnerError): nat {
    match e
    case SpotMissing => 404
    case NotOwner => 403
  }

  /** 404 for a missing spot, 403 for anyone but its owner. */
  function OwnerRefusal(spots: Table<Spot>, actor: nat, spotId: nat): Option<OwnerError> {
    match Find(spots, spotId)
    case None => Some(SpotMissing)
    case Some(s) => if s.ownerId != actor then Some(NotOwner) else None
  }

  /** Only the owner of an existing spot gets past the check. The keys are
      the table's primary keys, so no two rows share one. */
  lemma OwnerOnly(spots: Table<Spot>, actor: nat, spotId: nat)
    requires UniqueIds(spots)
    ensures OwnerRefusal(spots, actor, spotId) == None <==>
      exists s :: Row(spotId, s) in spots && s.ownerId == actor
  {
    if OwnerRefusal(spots, actor, spotId) == None {
      var s := Find(spots, spotId).value;
      assert Row(spotId, s) in spots;
    }
    forall s | Row(spotId, s) in spots
      ensures Find(spots, spotId) == Some(s)
    {
      FindExact(spots, spotId, s);
    }
  }

  // ---------------------------------------------------------------------
  // GET /api/spots: page and size

  const DefaultPage := 1
  const DefaultSize := 20
  const MaxSize := 20
  const PageMsg := "Page must be greater than or equal to 1"
  const SizeMsg := "Size must be between 1 and 20"

  /** `parseInt(x) || d`. The parse is the parameter: None for a missing or
      unparsable value (NaN); since 0 is falsy too, it also falls back to `d`. */
  function OrDefault(parsed: Option<int>, d: int): (r: int)
    ensures r == d <==> parsed.None? || parsed.value == 0 || parsed.value == d
    ensures r != d ==> parsed == Some(r)
  {
    if parsed.None? || parsed.value == 0 then d else parsed.value
  }

  /** The `errors` object for the two paging fields. */
  datatype PagingErrors = PagingErrors(page: Option<string>, size: Option<string>) {
    predicate Any() { page.Some? || size.Some? }
  }

  /** `offset: (page - 1) * size`. */
  function Offset(page: int, size: int): int {
    (page - 1) * size
  }

  /** The rows a query with `limit: size` and `offset` returns: `size` rows
      from the offset on, or as many as are left. */
  function Window<T>(rows: seq<T>, page: int, size: int): (w: seq<T>)
    requires page >= 1 && size >= 1
    ensures |w| <= size
    ensures Offset(page, size) >= |rows| ==> |w| == 0
    ensures Offset(page, size) < |rows| ==> |w| == Min(size, |rows| - Offset(page, size))
    ensures forall i :: 0 <= i < |w| ==> Offset(page, size) + i < |rows| && w[i] == rows[Offset(page, size) + i]
  {
    var off := Offset(page, size);
    var lo := if off < |rows| then off else |rows|;
    var hi := if off + size < |rows| then off + size else |rows|;
    rows[lo..hi]
  }

  // ---------------------------------------------------------------------
  // GET /api/spots: avgRating and previewImage

  const NoPreview := "No preview image available"

  /** The unrounded mean rating totalStars / reviewCount. */
  datatype Rating = Rating(totalStars: int, reviewCount: nat)

  datatype SpotListing = SpotListing(id: nat, spot: Spot, avgRating: Option<Rating>, previewImage: string)

  function Min(a: int, b: int): int {
    if a < b then a else b
  }

  /** The images included with a spot (`SpotImage`): every image of the spot
      and no other, in table order (see `ImagesOfAppend`). */
  function ImagesOf(images: Table<SpotImage>, spotId: nat): (r: seq<SpotImage>)
    ensures |r| <= |images|
    ensures forall i :: 0 <= i < |r| ==> r[i].spotId == spotId
    ensures forall x :: x in r <==> exists i :: 0 <= i < |images| && images[i].val == x && x.spotId == spotId
  {
    if images == [] then []
    else
      assert forall i :: 1 <= i < |images| ==> images[i] == images[1..][i - 1];
      if images[0].val.spotId == spotId then [images[0].val] + ImagesOf(images[1..], spotId)
      else ImagesOf(images[1..], spotId)
  }

  lemma {:induction false} ImagesOfAppend(a: Table<SpotImage>, b: Table<SpotImage>, spotId: nat)
    ensures ImagesOf(a + b, spotId) == ImagesOf(a, spotId) + ImagesOf(b, spotId)
  {
    if a == [] {
      assert a + b == b;
    } else {
      assert (a + b)[0] == a[0] && (a + b)[1..] == a[1..] + b;
      ImagesOfAppend(a[1..], b, spotId);
    }
  }

  /** The stars of the reviews included with a spot: one entry for each
      review of the spot and none for any other, in table order (see
      `StarsOfAppend`). */
  function StarsOf(reviews: Table<Review>, spotId: nat): (r: seq<int>)
    ensures |r| <= |reviews|
    ensures forall x :: x in r <==> exists i :: 0 <= i < |reviews| && reviews[i].val.spotId == spotId && reviews[i].val.stars == x
  {
    if reviews == [] then []
    else
      assert forall i :: 1 <= i < |reviews| ==> reviews[i] == reviews[1..][i - 1];
      if reviews[0].val.spotId == spotId then [reviews[0].val.stars] + StarsOf(reviews[1..], spotId)
      else StarsOf(reviews[1..], spotId)
  }

  lemma {:induction false} StarsOfAppend(a: Table<Review>, b: Table<Review>, spotId: nat)
    ensures StarsOf(a + b, spotId) == StarsOf(a, spotId) + StarsOf(b, spotId)
  {
    if a == [] {
      assert a + b == b;
    } else {
      assert (a + b)[0] == a[0] && (a + b)[1..] == a[1..] + b;
      StarsOfAppend(a[1..], b, spotId);
    }
  }

  function Sum(xs: seq<int>): int {
    if xs == [] then 0 else Sum(xs[..|xs| - 1]) + xs[|xs| - 1]
  }

  /** The position of the last image flagged as preview. */
  function LastPreviewIndex(images: seq<SpotImage>): (r: Option<nat>)
    ensures r.None? <==> forall k :: 0 <= k < |images| ==> !images[k].preview
    ensures r.Some? ==>
      r.value < |images| && images[r.value].preview && forall k :: r.value < k < |images| ==> !images[k].preview
  {
    if images == [] then None
    else if images[|images| - 1].preview then Some(|images| - 1)
    else
      var r := LastPreviewIndex(images[..|images| - 1]);
      assert forall k :: 0 <= k < |images| - 1 ==> images[..|images| - 1][k] == images[k];
      r
  }

  /** The url the forEach leaves in `previewImage`: that of the last image
      flagged as preview. */
  function LastPreviewUrl(images: seq<SpotImage>): Option<string> {
    match LastPreviewIndex(images)
    case None => None
    case Some(j) => Some(images[j].url)
  }

  /** An empty url is falsy, so it too gives the placeholder. */
  function PreviewImage(images: seq<SpotImage>): string {
    match LastPreviewUrl(images)
    case Some(url) => if url != "" then url else NoPreview
    case None => NoPreview
  }

  function AvgRating(stars: seq<int>): Option<Rating> {
    if |stars| > 0 then Some(Rating(Sum(stars), |stars|)) else None
  }

  function Listing(row: Row<Spot>, images: Table<SpotImage>, reviews: Table<Review>): SpotListing {
    SpotListing(row.id, row.val, AvgRating(StarsOf(reviews, row.id)), PreviewImage(ImagesOf(images, row.id)))
  }

  /** The preview is the non-empty url of the last image flagged as preview;
      with none such it is the placeholder. */
  lemma PreviewIsLastFlagged(images: seq<SpotImage>, j: nat)
    requires j < |images| && images[j].preview && images[j].url != ""
    requires forall k :: j < k < |images| ==> !images[k].preview
    ensures PreviewImage(images) == images[j].url
  {
    var r := LastPreviewIndex(images);
    assert r.Some?;
    assert r.value == j;
  }

  lemma PreviewPlaceholder(images: seq<SpotImage>)
    requires forall k :: 0 <= k < |images| ==> !images[k].preview
    ensures PreviewImage(images) == NoPreview
  {
  }

  /** `avgRating` is null exactly when the spot has no reviews; otherwise the
      count is the number of its reviews. */
  lemma AvgRatingNullIffNoReviews(reviews: Table<Review>, spotId: nat)
    ensures AvgRating(StarsOf(reviews, spotId)).None? <==> forall i :: 0 <= i < |reviews| ==> reviews[i].val.spotId != spotId
    ensures AvgRating(StarsOf(reviews, spotId)).Some? ==>
      AvgRating(StarsOf(reviews, spotId)).value.reviewCount == |StarsOf(reviews, spotId)|
  {
    StarsOfEmpty(reviews, spotId);
  }

  /** A new review of the spot adds one to the count and its stars to the
      total (from none: a rating of that review alone); a review of another
      spot leaves the rating as it was. */
  lemma RatingAfterReview(reviews: Table<Review>, row: Row<Review>, spotId: nat)
    ensures var before, after := AvgRating(StarsOf(reviews, spotId)), AvgRating(StarsOf(reviews + [row], spotId));
      && (row.val.spotId == spotId ==>
            && after.Some?
            && after.value.reviewCount == (if before.Some? then before.value.reviewCount else 0) + 1
            && after.value.totalStars == (if before.Some? then before.value.totalStars else 0) + row.val.stars)
      && (row.val.spotId != spotId ==> after == before)
  {
    var xs := StarsOf(reviews, spotId);
    StarsOfAppend(reviews, [row], spotId);
    assert [row][1..] == [];
    if row.val.spotId == spotId {
      assert (xs + [row.val.stars])[..|xs|] == xs;
      assert Sum(xs + [row.val.stars]) == Sum(xs) + row.val.stars;
    } else {
      assert xs + [] == xs;
    }
  }

  lemma {:induction false} StarsOfEmpty(reviews: Table<Review>, spotId: nat)
    ensures StarsOf(reviews, spotId) == [] <==> forall i :: 0 <= i < |reviews| ==> reviews[i].val.spotId != spotId
  {
    if reviews != [] {
      StarsOfEmpty(reviews[1..], spotId);
      assert forall i :: 1 <= i < |reviews| ==> reviews[i] == reviews[1..][i - 1];
    }
  }
}
