/** DELETE /api/spots/:spotId/bookings/:bookingId: cancel a booking that has
    not started, on behalf of its booker or of the spot's owner. */
module BookingRoutes {
  import opened Wrappers
  import opened Tables
  import opened Entities
  import opened Store
  import opened BookingRules

  method DeleteBooking(db: Db, actor: nat, bookingId: nat, today: int) returns (res: Result<(), DeleteError>)
    requires db.Valid()
    modifies db`bookings
    ensures db.Valid()
    ensures match DeleteRefusal(db.spots, old(db.bookings), actor, bookingId, today)
      case Some(e) => res == Err(e) && db.bookings == old(db.bookings)
      case None =>
        && res == Ok(())
        && exists k :: 0 <= k < |old(db.bookings)| && old(db.bookings)[k].id == bookingId &&
             db.bookings == old(db.bookings)[..k] + old(db.bookings)[k + 1..]
  {
    var refusal := DeleteRefusal(db.spots, db.bookings, actor, bookingId, today);
    if refusal.Some? {
      return Err(refusal.value);
    }
    var k :| 0 <= k < |db.bookings| && db.bookings[k].id == bookingId;
    RemoveAt(db.bookings, k);
    RemoveKeyed(db.bookings, bookingId, db.nextBookingId);
    RemoveKeepsSound(db.bookings, bookingId);
    db.bookings := Remove(db.bookings, bookingId);
    res := Ok(());
  }
}
