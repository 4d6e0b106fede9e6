/** The review rules of the API: body validation (`validateReview`), one
    review per user and spot, at most ten images per review, and author-only
    edit and delete. The handlers that act on these decisions are in
    ReviewRoutes. */
module ReviewRules {
  import opened Wrappers
  import opened Tables
  import opened Entities

  const MaxReviewImages: nat := 10

  datatype ReviewField = ReviewText | Stars

  /** A JSON number with no fractional part, the only kind `isInt` accepts. */
  predicate IsWhole(x: real) {
    x.Floor as real == x
  }

  /** `validateReview`: the review text must be present and non-empty, and
      stars present and an integer from 1 to 5. Every failing field is reported. */
  function ValidateReview(review: Option<string>, stars: Option<real>): set<ReviewField> {
    (if review.None? || review.value == "" then {ReviewText} else {})
    + (if stars.None? || !IsWhole(stars.value) || stars.value < 1.0 || 5.0 < stars.value then {Stars} else {})
  }

  /** A body passes validation exactly when its text is non-empty and its stars
      are a whole number in 1..5; the stored value is then that integer. */
  lemma ReviewAcceptedIff(review: Option<string>, stars: Option<real>)
    ensures ValidateReview(review, stars) == {} <==>
      && review.Some? && |review.value| > 0
      && stars.Some? && IsWhole(stars.value) && 1.0 <= stars.value <= 5.0
    ensures ValidateReview(review, stars) == {} ==> 1 <= StarsValue(stars.value) <= 5
  {
  }

  /** `.toInt(10)` on an accepted value. */
  function StarsValue(x: real): int {
    x.Floor
  }

  /** Some review of `spotId` is by `userId`: `Review.findOne({where: {userId, spotId}})`. */
  predicate Reviewed(reviews: Table<Review>, userId: nat, spotId: nat) {
    exists i :: 0 <= i < |reviews| && reviews[i].val.userId == userId && reviews[i].val.spotId == spotId
  }

  /** No user has two reviews of one spot. */
  predicate OnePerUserAndSpot(reviews: Table<Review>) {
    forall i, j :: 0 <= i < j < |reviews| ==>
      reviews[i].val.userId != reviews[j].val.userId || reviews[i].val.spotId != reviews[j].val.spotId
  }

  // ---------------------------------------------------------------------
  // POST /api/spots/:spotId/reviews

  datatype CreateError = CreateInvalid(fields: set<ReviewField>) | SpotNotFound | AlreadyReviewed

  function CreateStatus(e: CreateError): nat {
    match e
    case CreateInvalid(_) => 400
    case SpotNotFound => 404
    case AlreadyReviewed => 500
  }

  /** Validation runs first (as middleware), then the spot must exist, then the
      actor must not have reviewed it yet. None means the review is inserted. */
  function CreateRefusal(spots: Table<Spot>, reviews: Table<Review>, actor: nat, spotId: nat,
                         review: Option<string>, stars: Option<real>): Option<CreateError>
  {
    var invalid := ValidateReview(review, stars);
    if invalid != {} then Some(CreateInvalid(invalid))
    else if Find(spots, spotId).None? then Some(SpotNotFound)
    else if Reviewed(reviews, actor, spotId) then Some(AlreadyReviewed)
    else None
  }

  /** A valid review of an existing spot is refused with 500 exactly when the
      actor already reviewed it; a missing spot answers 404 first. */
  lemma CreateOutcomes(spots: Table<Spot>, reviews: Table<Review>, actor: nat, spotId: nat,
                       review: Option<string>, stars: Option<real>)
    requires ValidateReview(review, stars) == {}
    ensures Find(spots, spotId).None? ==>
      CreateRefusal(spots, reviews, actor, spotId, review, stars) == Some(SpotNotFound)
    ensures Find(spots, spotId).Some? ==>
      (CreateRefusal(spots, reviews, actor, spotId, review, stars) == Some(AlreadyReviewed) <==>
         Reviewed(reviews, actor, spotId))
    ensures CreateStatus(AlreadyReviewed) == 500 && CreateStatus(SpotNotFound) == 404
  {
  }

  /** Inserting an accepted review keeps one review per user and spot. */
  lemma AcceptedCreateKeepsOnePerPair(spots: Table<Spot>, reviews: Table<Review>, actor: nat, spotId: nat,
                                      review: Option<string>, stars: Option<real>, id: nat)
    requires OnePerUserAndSpot(reviews)
    requires CreateRefusal(spots, reviews, actor, spotId, review, stars) == None
    ensures OnePerUserAndSpot(reviews + [Row(id, Review(actor, spotId, review.value, StarsValue(stars.value)))])
  {
    var rs := reviews + [Row(id, Review(actor, spotId, review.value, StarsValue(stars.value)))];
    forall i, j | 0 <= i < j < |rs|
      ensures rs[i].val.userId != rs[j].val.userId || rs[i].val.spotId != rs[j].val.spotId
    {
      assert rs[i] == reviews[i];
      if j < |reviews| {
        assert rs[j] == reviews[j];
      }
    }
  }

  // ---------------------------------------------------------------------
  // POST /api/spots/:spotId/reviews/:reviewId/images

  /** The number of images attached to a review. */
  function ImageCount(images: Table<ReviewImage>, reviewId: nat): nat {
    if images == [] then 0
    else (if images[0].val.reviewId == reviewId then 1 else 0) + ImageCount(images[1..], reviewId)
  }

  /** No review has more than ten images. */
  ghost predicate Capped(images: Table<ReviewImage>) {
    forall r :: ImageCount(images, r) <= MaxReviewImages
  }

  datatype AddImageError = UrlMissing | ReviewNotFound | NotAuthor | ImageLimit

  function AddImageStatus(e: AddImageError): nat {
    match e
    case UrlMissing => 400
    case ReviewNotFound => 404
    case NotAuthor => 403
    case ImageLimit => 403
  }

  /** The url is checked before any lookup, then the review, its author, and
      the freshly counted number of its images. None means the image is
      inserted. */
  function AddImageRefusal(reviews: Table<Review>, images: Table<ReviewImage>, actor: nat, reviewId: nat,
                           url: Option<string>): Option<AddImageError>
  {
    if url.None? || url.value == "" then Some(UrlMissing)
    else
      match Find(reviews, reviewId)
      case None => Some(ReviewNotFound)
      case Some(r) =>
        if r.userId != actor then Some(NotAuthor)
        else if ImageCount(images, reviewId) >= MaxReviewImages then Some(ImageLimit)
        else None
  }

  /** The order of the checks: a missing url is a 400 even for a missing
      review, a missing review a 404 whoever asks, and a non-author a 403
      whatever the count. */
  lemma AddImageChecksInOrder(reviews: Table<Review>, images: Table<ReviewImage>, actor: nat, reviewId: nat,
                              url: Option<string>)
    ensures url.None? || url.value == "" ==> AddImageRefusal(reviews, images, actor, reviewId, url) == Some(UrlMissing)
    ensures url.Some? && url.value != "" && Find(reviews, reviewId).None? ==>
      AddImageRefusal(reviews, images, actor, reviewId, url) == Some(ReviewNotFound)
    ensures url.Some? && url.value != "" && Find(reviews, reviewId).Some? && Find(reviews, reviewId).value.userId != actor ==>
      AddImageRefusal(reviews, images, actor, reviewId, url) == Some(NotAuthor)
  {
  }

  /** For the author's request with a url, the image is inserted exactly
      while the review has fewer than ten images, so the tenth is accepted;
      from ten on the answer is the 403 of the limit. */
  lemma ImageLimitAtTen(reviews: Table<Review>, images: Table<ReviewImage>, actor: nat, reviewId: nat, url: string)
    requires url != ""
    requires Find(reviews, reviewId).Some? && Find(reviews, reviewId).value.userId == actor
    ensures AddImageRefusal(reviews, images, actor, reviewId, Some(url)) == None <==> ImageCount(images, reviewId) < 10
    ensures ImageCount(images, reviewId) >= 10 ==>
      AddImageRefusal(reviews, images, actor, reviewId, Some(url)) == Some(ImageLimit)
  {
  }

  lemma {:induction false} ImageCountAppend(images: Table<ReviewImage>, extra: Table<ReviewImage>, reviewId: nat)
    ensures ImageCount(images + extra, reviewId) == ImageCount(images, reviewId) + ImageCount(extra, reviewId)
  {
    if images == [] {
      assert images + extra == extra;
    } else {
      assert (images + extra)[1..] == images[1..] + extra;
      ImageCountAppend(images[1..], extra, reviewId);
    }
  }

  /** An accepted image finds fewer than ten on its review, so afterwards no
      review has more than ten. */
  lemma AcceptedImageKeepsCap(reviews: Table<Review>, images: Table<ReviewImage>, actor: nat, reviewId: nat,
                              url: Option<string>, id: nat)
    requires Capped(images)
    requires AddImageRefusal(reviews, images, actor, reviewId, url) == None
    ensures ImageCount(images, reviewId) < MaxReviewImages
    ensures Capped(images + [Row(id, ReviewImage(reviewId, url.value))])
  {
    var extra := [Row(id, ReviewImage(reviewId, url.value))];
    forall r ensures ImageCount(images + extra, r) <= MaxReviewImages {
      ImageCountAppend(images, extra, r);
      assert extra[1..] == [];
    }
  }

  /** Destroying an image never raises a count. */
  lemma RemoveImageKeepsCap(images: Table<ReviewImage>, id: nat)
    requires Capped(images) && UniqueIds(images)
    ensures Capped(Remove(images, id))
  {
    if k :| 0 <= k < |images| && images[k].id == id {
      RemoveAt(images, k);
      forall r ensures ImageCount(Remove(images, id), r) <= MaxReviewImages {
        assert images == images[..k] + ([images[k]] + images[k + 1..]);
        ImageCountAppend(images[..k], [images[k]] + images[k + 1..], r);
        ImageCountAppend([images[k]], images[k + 1..], r);
        ImageCountAppend(images[..k], images[k + 1..], r);
      }
    } else {
      RemoveAbsent(images, id);
    }
  }

  // ---------------------------------------------------------------------
  // PUT and DELETE /api/spots/:spotId/reviews/:reviewId

  datatype ChangeError = ChangeInvalid(fields: set<ReviewField>) | ReviewMissing | NotReviewAuthor

  function ChangeStatus(e: ChangeError): nat {
    match e
    case ChangeInvalid(_) => 400
    case ReviewMissing => 404
    case NotReviewAuthor => 403
  }

  /** The author check shared by edit and delete: 404 for a missing review,
      403 for anyone but its author. */
  function AuthorRefusal(reviews: Table<Review>, actor: nat, reviewId: nat): Option<ChangeError> {
    match Find(reviews, reviewId)
    case None => Some(ReviewMissing)
    case Some(r) => if r.userId != actor then Some(NotReviewAuthor) else None
  }

  /** Edit validates the body first, then applies the author check. */
  function EditRefusal(reviews: Table<Review>, actor: nat, reviewId: nat,
                       review: Option<string>, stars: Option<real>): Option<ChangeError>
  {
    var invalid := ValidateReview(review, stars);
    if invalid != {} then Some(ChangeInvalid(invalid)) else AuthorRefusal(reviews, actor, reviewId)
  }

  /** Only the author of an existing review may change it. */
  lemma AuthorOnly(reviews: Table<Review>, actor: nat, reviewId: nat)
    ensures AuthorRefusal(reviews, actor, reviewId) == None <==>
      Find(reviews, reviewId).Some? && Find(reviews, reviewId).value.userId == actor
  {
  }

  /** The edited row: only `review` and `stars` take new values. */
  function Edited(r: Review, review: string, stars: real): (e: Review)
    ensures e.userId == r.userId && e.spotId == r.spotId
  {
    r.(review := review, stars := StarsValue(stars))
  }

  /** An edit leaves author and spot of every review alone, so it keeps one
      review per user and spot. */
  lemma {:induction false} EditKeepsOnePerPair(reviews: Table<Review>, reviewId: nat, review: string, stars: real)
    requires OnePerUserAndSpot(reviews) && UniqueIds(reviews)
    ensures OnePerUserAndSpot(
      match Find(reviews, reviewId)
      case None => reviews
      case Some(r) => Replace(reviews, reviewId, Edited(r, review, stars)))
  {
    match Find(reviews, reviewId)
    case None =>
    case Some(r) =>
      var e := Edited(r, review, stars);
      var rs := Replace(reviews, reviewId, e);
      FindExact(reviews, reviewId, r);
      forall i | 0 <= i < |rs|
        ensures rs[i].val.userId == reviews[i].val.userId && rs[i].val.spotId == reviews[i].val.spotId
      {
        if reviews[i].id == reviewId {
          var k :| 0 <= k < |reviews| && reviews[k] == Row(reviewId, r);
          assert k == i;
        }
      }
  }

  /** Destroying a review keeps one review per user and spot. */
  lemma RemoveKeepsOnePerPair(reviews: Table<Review>, id: nat)
    requires OnePerUserAndSpot(reviews) && UniqueIds(reviews)
    ensures OnePerUserAndSpot(Remove(reviews, id))
  {
    if k :| 0 <= k < |reviews| && reviews[k].id == id {
      RemoveAt(reviews, k);
      var rs := reviews[..k] + reviews[k + 1..];
      forall i, j | 0 <= i < j < |rs|
        ensures rs[i].val.userId != rs[j].val.userId || rs[i].val.spotId != rs[j].val.spotId
      {
        var i', j' := if i < k then i else i + 1, if j < k then j else j + 1;
        assert rs[i] == reviews[i'] && rs[j] == reviews[j'];
      }
    } else {
      RemoveAbsent(reviews, id);
    }
  }
}
