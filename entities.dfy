/** The rows of the database tables the routes read and write. Ids are the
    auto-increment keys of other tables; dates are day numbers (days since a
    fixed epoch), the time of day having been stripped. */
module Entities {

  datatype User = User(
    email: string,
    username: string,
    hashedPassword: string,
    firstName: string,
    lastName: string)

  /** The columns a spot update overwrites. */
  datatype SpotDetails = SpotDetails(
    address: string,
    city: string,
    state: string,
    country: string,
    lat: real,
    lng: real,
    name: string,
    description: string,
    price: real)

  datatype Spot = Spot(ownerId: nat, details: SpotDetails)

  datatype Booking = Booking(spotId: nat, userId: nat, startDate: int, endDate: int)

  datatype Review = Review(userId: nat, spotId: nat, review: string, stars: int)

  datatype ReviewImage = ReviewImage(reviewId: nat, url: string)

  datatype SpotImage = SpotImage(spotId: nat, url: string, preview: bool)
}
