/** The database the route handlers share: one table per model, each with its
    next auto-increment key where a modelled route inserts into it. `Valid`
    holds the invariants the handlers keep under sequential execution. */
module Store {
  import opened Tables
  import opened Entities
  import BookingRules
  import ReviewRules
  import UserRules

  class Db {
    var users: Table<User>
    var spots: Table<Spot>
    var bookings: Table<Booking>
    var reviews: Table<Review>
    var reviewImages: Table<ReviewImage>
    var spotImages: Table<SpotImage>
    var nextUserId: nat
    var nextBookingId: nat
    var nextReviewId: nat
    var nextReviewImageId: nat

    ghost predicate Valid()
      reads this
    {
      && Keyed(users, nextUserId)
      && UniqueIds(spots)
      && Keyed(bookings, nextBookingId)
      && Keyed(reviews, nextReviewId)
      && Keyed(reviewImages, nextReviewImageId)
      && UniqueIds(spotImages)
      && UserRules.Unique(users)
      && BookingRules.Sound(bookings)
      && ReviewRules.OnePerUserAndSpot(reviews)
      && ReviewRules.Capped(reviewImages)
    }

    /** A database holding the given rows, which must already satisfy the
        invariants. */
    constructor (
      users: Table<User>, spots: Table<Spot>, bookings: Table<Booking>,
      reviews: Table<Review>, reviewImages: Table<ReviewImage>, spotImages: Table<SpotImage>,
      nextUserId: nat, nextBookingId: nat, nextReviewId: nat, nextReviewImageId: nat)
      requires Keyed(users, nextUserId) && UniqueIds(spots) && Keyed(bookings, nextBookingId)
      requires Keyed(reviews, nextReviewId) && Keyed(reviewImages, nextReviewImageId) && UniqueIds(spotImages)
      requires UserRules.Unique(users) && BookingRules.Sound(bookings)
      requires ReviewRules.OnePerUserAndSpot(reviews) && ReviewRules.Capped(reviewImages)
      ensures Valid()
      ensures this.users == users && this.spots == spots && this.bookings == bookings
      ensures this.reviews == reviews && this.reviewImages == reviewImages && this.spotImages == spotImages
      ensures this.nextUserId == nextUserId && this.nextBookingId == nextBookingId
      ensures this.nextReviewId == nextReviewId && this.nextReviewImageId == nextReviewImageId
    {
      this.users, this.spots, this.bookings := users, spots, bookings;
      this.reviews, this.reviewImages, this.spotImages := reviews, reviewImages, spotImages;
      this.nextUserId, this.nextBookingId := nextUserId, nextBookingId;
      this.nextReviewId, this.nextReviewImageId := nextReviewId, nextReviewImageId;
    }
  }
}
