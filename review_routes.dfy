/** The review handlers: create a review of a spot, attach an image to a
    review, and edit or delete a review. Each makes the decision of
    ReviewRules and then changes only the table that decision allows. */
module ReviewRoutes {
  import opened Wrappers
  import opened Tables
  import opened Entities
  import opened Store
  import opened ReviewRules

  /** POST /api/spots/:spotId/reviews */
  method CreateReview(db: Db, actor: nat, spotId: nat, review: Option<string>, stars: Option<real>)
    returns (res: Result<Row<Review>, CreateError>)
    requires db.Valid()
    modifies db`reviews, db`nextReviewId
    ensures db.Valid()
    ensures match CreateRefusal(db.spots, old(db.reviews), actor, spotId, review, stars)
      case Some(e) =>
        res == Err(e) && db.reviews == old(db.reviews) && db.nextReviewId == old(db.nextReviewId)
      case None =>
        && res == Ok(Row(old(db.nextReviewId), Review(actor, spotId, review.value, StarsValue(stars.value))))
        && db.reviews == old(db.reviews) + [res.value]
        && db.nextReviewId == old(db.nextReviewId) + 1
  {
    var refusal := CreateRefusal(db.spots, db.reviews, actor, spotId, review, stars);
    if refusal.Some? {
      return Err(refusal.value);
    }
    var row := Row(db.nextReviewId, Review(actor, spotId, review.value, StarsValue(stars.value)));
    AcceptedCreateKeepsOnePerPair(db.spots, db.reviews, actor, spotId, review, stars, db.nextReviewId);
    InsertKeyed(db.reviews, db.nextReviewId, row.val);
    db.reviews := db.reviews + [row];
    db.nextReviewId := db.nextReviewId + 1;
    res := Ok(row);
  }

  /** POST /api/spots/:spotId/reviews/:reviewId/images: the new image is the
      review's (count + 1)-th, never beyond the tenth. */
  method AddReviewImage(db: Db, actor: nat, reviewId: nat, url: Option<string>)
    returns (res: Result<Row<ReviewImage>, AddImageError>)
    requires db.Valid()
    modifies db`reviewImages, db`nextReviewImageId
    ensures db.Valid()
    ensures match AddImageRefusal(db.reviews, old(db.reviewImages), actor, reviewId, url)
      case Some(e) =>
        && res == Err(e)
        && db.reviewImages == old(db.reviewImages)
        && db.nextReviewImageId == old(db.nextReviewImageId)
      case None =>
        && res == Ok(Row(old(db.nextReviewImageId), ReviewImage(reviewId, url.value)))
        && db.reviewImages == old(db.reviewImages) + [res.value]
        && db.nextReviewImageId == old(db.nextReviewImageId) + 1
        && ImageCount(db.reviewImages, reviewId) == ImageCount(old(db.reviewImages), reviewId) + 1 <= MaxReviewImages
  {
    var refusal := AddImageRefusal(db.reviews, db.reviewImages, actor, reviewId, url);
    if refusal.Some? {
      return Err(refusal.value);
    }
    var row := Row(db.nextReviewImageId, ReviewImage(reviewId, url.value));
    AcceptedImageKeepsCap(db.reviews, db.reviewImages, actor, reviewId, url, db.nextReviewImageId);
    ImageCountAppend(db.reviewImages, [row], reviewId);
    assert [row][1..] == [];
    InsertKeyed(db.reviewImages, db.nextReviewImageId, row.val);
    db.reviewImages := db.reviewImages + [row];
    db.nextReviewImageId := db.nextReviewImageId + 1;
    res := Ok(row);
  }

  /** PUT /api/spots/:spotId/reviews/:reviewId: the author's valid edit
      replaces text and stars of that review and nothing else. */
  method EditReview(db: Db, actor: nat, reviewId: nat, review: Option<string>, stars: Option<real>)
    returns (res: Result<Row<Review>, ChangeError>)
    requires db.Valid()
    modifies db`reviews
    ensures db.Valid()
    ensures match EditRefusal(old(db.reviews), actor, reviewId, review, stars)
      case Some(e) => res == Err(e) && db.reviews == old(db.reviews)
      case None =>
        && Find(old(db.reviews), reviewId).Some?
        && var before := Find(old(db.reviews), reviewId).value;
           && res == Ok(Row(reviewId, Review(actor, before.spotId, review.value, StarsValue(stars.value))))
           && db.reviews == Replace(old(db.reviews), reviewId, res.value.val)
  {
    var refusal := EditRefusal(db.reviews, actor, reviewId, review, stars);
    if refusal.Some? {
      return Err(refusal.value);
    }
    var before := Find(db.reviews, reviewId).value;
    var edited := Edited(before, review.value, stars.value);
    EditKeepsOnePerPair(db.reviews, reviewId, review.value, stars.value);
    ReplaceKeyed(db.reviews, reviewId, edited, db.nextReviewId);
    db.reviews := Replace(db.reviews, reviewId, edited);
    res := Ok(Row(reviewId, edited));
  }

  /** DELETE /api/spots/:spotId/reviews/:reviewId: the author's request
      destroys exactly that review. */
  method DeleteReview(db: Db, actor: nat, reviewId: nat) returns (res: Result<(), ChangeError>)
    requires db.Valid()
    modifies db`reviews
    ensures db.Valid()
    ensures match AuthorRefusal(old(db.reviews), actor, reviewId)
      case Some(e) => res == Err(e) && db.reviews == old(db.reviews)
      case None =>
        && res == Ok(())
        && exists k :: 0 <= k < |old(db.reviews)| && old(db.reviews)[k].id == reviewId &&
             db.reviews == old(db.reviews)[..k] + old(db.reviews)[k + 1..]
  {
    var refusal := AuthorRefusal(db.reviews, actor, reviewId);
    if refusal.Some? {
      return Err(refusal.value);
    }
    var k :| 0 <= k < |db.reviews| && db.reviews[k].id == reviewId;
    RemoveAt(db.reviews, k);
    RemoveKeyed(db.reviews, reviewId, db.nextReviewId);
    RemoveKeepsOnePerPair(db.reviews, reviewId);
    db.reviews := Remove(db.reviews, reviewId);
    res := Ok(());
  }
}
