/** DELETE /api/spots/:spotId/reviews/:reviewId/images/:imageId. The handler
    loads the review together with the image (an inner join on the image's
    id), then checks existence and authorship. As written it then reads
    `existingReview.Images`, an association the Review model does not have
    (its images are included as `ReviewImages`), so `.length` throws and
    every request that passes the author check ends in a 500 with nothing
    deleted. `AsWrittenRefusal` models that; `DeleteRefusal` and
    `DeleteReviewImage` model the evidently intended handler. */
module ReviewImageRoutes {
  import opened Wrappers
  import opened Tables
  import opened Entities
  import opened Store
  import ReviewRules

  datatype DeleteImageError = NotFound | Forbidden | Internal

  function DeleteImageStatus(e: DeleteImageError): nat {
    match e
    case NotFound => 404
    case Forbidden => 403
    case Internal => 500
  }

  /** The required include finds the review only when the image with that id
      is one of its images. */
  predicate AttachedTo(images: Table<ReviewImage>, imageId: nat, reviewId: nat) {
    exists i :: 0 <= i < |images| && images[i].id == imageId && images[i].val.reviewId == reviewId
  }

  /** The handler as written: there is no outcome in which the image is
      destroyed. */
  function AsWrittenRefusal(reviews: Table<Review>, images: Table<ReviewImage>, actor: nat,
                            reviewId: nat, imageId: nat): DeleteImageError
  {
    match Find(reviews, reviewId)
    case None => NotFound
    case Some(r) =>
      if !AttachedTo(images, imageId, reviewId) then NotFound
      else if r.userId != actor then Forbidden
      else Internal
  }

  /** The intended handler: 404 unless the review exists and the image is
      attached to it, 403 for anyone but the review's author. */
  function DeleteRefusal(reviews: Table<Review>, images: Table<ReviewImage>, actor: nat,
                         reviewId: nat, imageId: nat): Option<DeleteImageError>
  {
    match Find(reviews, reviewId)
    case None => Some(NotFound)
    case Some(r) =>
      if !AttachedTo(images, imageId, reviewId) then Some(NotFound)
      else if r.userId != actor then Some(Forbidden)
      else None
  }

  /** The defect: the review's author asking to delete an image attached to
      the review gets a 500, where the intended handler deletes it. On every
      other request the two agree. */
  lemma AsWrittenFailsTheAuthor(reviews: Table<Review>, images: Table<ReviewImage>, actor: nat,
                                reviewId: nat, imageId: nat)
    ensures DeleteRefusal(reviews, images, actor, reviewId, imageId) == None <==>
      AsWrittenRefusal(reviews, images, actor, reviewId, imageId) == Internal
    ensures DeleteRefusal(reviews, images, actor, reviewId, imageId).Some? ==>
      DeleteRefusal(reviews, images, actor, reviewId, imageId).value ==
        AsWrittenRefusal(reviews, images, actor, reviewId, imageId)
    ensures DeleteImageStatus(Internal) == 500
  {
  }

  /** A concrete request that shows it: review 1 by user 5 with image 3; user
      5 deletes image 3. */
  lemma AsWrittenExample()
    ensures AsWrittenRefusal([Row(1, Review(5, 2, "Nice", 4))], [Row(3, ReviewImage(1, "a.png"))], 5, 1, 3) == Internal
    ensures DeleteRefusal([Row(1, Review(5, 2, "Nice", 4))], [Row(3, ReviewImage(1, "a.png"))], 5, 1, 3) == None
  {
    var images := [Row(3, ReviewImage(1, "a.png"))];
    assert images[0].id == 3 && images[0].val.reviewId == 1;
  }

  /** The intended handler: the author's request destroys exactly that image. */
  method DeleteReviewImage(db: Db, actor: nat, reviewId: nat, imageId: nat)
    returns (res: Result<(), DeleteImageError>)
    requires db.Valid()
    modifies db`reviewImages
    ensures db.Valid()
    ensures match DeleteRefusal(db.reviews, old(db.reviewImages), actor, reviewId, imageId)
      case Some(e) => res == Err(e) && db.reviewImages == old(db.reviewImages)
      case None =>
        && res == Ok(())
        && exists k :: 0 <= k < |old(db.reviewImages)| && old(db.reviewImages)[k].id == imageId &&
             old(db.reviewImages)[k].val.reviewId == reviewId &&
             db.reviewImages == old(db.reviewImages)[..k] + old(db.reviewImages)[k + 1..]
  {
    var refusal := DeleteRefusal(db.reviews, db.reviewImages, actor, reviewId, imageId);
    if refusal.Some? {
      return Err(refusal.value);
    }
    var k :| 0 <= k < |db.reviewImages| && db.reviewImages[k].id == imageId && db.reviewImages[k].val.reviewId == reviewId;
    RemoveAt(db.reviewImages, k);
    RemoveKeyed(db.reviewImages, imageId, db.nextReviewImageId);
    ReviewRules.RemoveImageKeepsCap(db.reviewImages, imageId);
    db.reviewImages := Remove(db.reviewImages, imageId);
    res := Ok(());
  }
}
