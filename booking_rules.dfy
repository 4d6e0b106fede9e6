/** The booking rules of the API: validation and conflict detection for
    POST /api/spots/:spotId/bookings, the role-shaped booking listing of
    GET /api/spots/:spotId/bookings, and the cancellation rule of
    DELETE .../bookings/:bookingId. Everything here is a decision over table
    contents; the handlers that act on the decisions are in SpotRoutes and
    BookingRoutes. */
module BookingRules {
  import opened Wrappers
  import opened Tables
  import opened Entities

  const StartInPast := "startDate cannot be in the past"
  const EndNotAfterStart := "endDate cannot be on or before startDate"
  const StartConflicts := "Start date conflicts with an existing booking"
  const EndConflicts := "End date conflicts with an existing booking"

  /** The `errors` object of a refused booking: at most one message per field. */
  datatype DateErrors = DateErrors(startDate: Option<string>, endDate: Option<string>) {
    predicate Any() { startDate.Some? || endDate.Some? }
  }

  datatype CreateError =
    | SpotNotFound
    | OwnSpot
    | BadDates(errors: DateErrors)
    | AlreadyBooked(errors: DateErrors)

  function CreateStatus(e: CreateError): nat {
    match e
    case SpotNotFound => 404
    case OwnSpot => 403
    case BadDates(_) => 400
    case AlreadyBooked(_) => 403
  }

  /** The date checks on the date-only values: both fields are checked, so both
      messages can be reported together. */
  function CheckDates(today: int, startDate: int, endDate: int): DateErrors {
    DateErrors(
      if startDate < today then Some(StartInPast) else None,
      if endDate <= startDate then Some(EndNotAfterStart) else None)
  }

  /** The where-clause of the conflict query, with Sequelize's inclusive
      `between`: the existing start lies in the request, or the existing end
      does, or the existing booking covers the whole request. */
  predicate InConflict(b: Booking, startDate: int, endDate: int) {
    || (startDate <= b.startDate <= endDate)
    || (startDate <= b.endDate <= endDate)
    || (b.startDate <= startDate && b.endDate >= endDate)
  }

  /** The closed intervals [b.startDate, b.endDate] and [startDate, endDate]
      share at least one day. */
  predicate Overlaps(b: Booking, startDate: int, endDate: int) {
    b.startDate <= endDate && startDate <= b.endDate
  }

  /** The three-disjunct clause is exactly closed-interval overlap, for
      well-ordered ranges. */
  lemma ConflictIsClosedOverlap(b: Booking, startDate: int, endDate: int)
    requires startDate <= endDate && b.startDate <= b.endDate
    ensures InConflict(b, startDate, endDate) <==> Overlaps(b, startDate, endDate)
  {
  }

  /** `Booking.findAll` with the conflict clause, restricted to one spot. */
  function Conflicting(bookings: Table<Booking>, spotId: nat, startDate: int, endDate: int): (r: Table<Booking>)
    ensures |r| == 0 <==>
      forall i :: 0 <= i < |bookings| && bookings[i].val.spotId == spotId ==>
        !InConflict(bookings[i].val, startDate, endDate)
  {
    if bookings == [] then []
    else
      var rest := Conflicting(bookings[1..], spotId, startDate, endDate);
      assert forall i :: 1 <= i < |bookings| ==> bookings[i] == bookings[1..][i - 1];
      if bookings[0].val.spotId == spotId && InConflict(bookings[0].val, startDate, endDate)
      then [bookings[0]] + rest
      else rest
  }

  /** No booking of the spot shares a day with [startDate, endDate]. */
  predicate FreeFor(bookings: Table<Booking>, spotId: nat, startDate: int, endDate: int) {
    forall i :: 0 <= i < |bookings| && bookings[i].val.spotId == spotId ==>
      !Overlaps(bookings[i].val, startDate, endDate)
  }

  /** Every stored booking ends after it starts. */
  predicate WellFormed(bookings: Table<Booking>) {
    forall i :: 0 <= i < |bookings| ==> bookings[i].val.startDate < bookings[i].val.endDate
  }

  /** Two bookings of the same spot never share a day. */
  predicate NonOverlapping(bookings: Table<Booking>) {
    forall i, j :: 0 <= i < j < |bookings| && bookings[i].val.spotId == bookings[j].val.spotId ==>
      !Overlaps(bookings[i].val, bookings[j].val.startDate, bookings[j].val.endDate)
  }

  predicate Sound(bookings: Table<Booking>) {
    WellFormed(bookings) && NonOverlapping(bookings)
  }

  /** The checks of the create handler, in the order it makes them; None means
      the booking is inserted. */
  function CreateRefusal(
    spots: Table<Spot>, bookings: Table<Booking>,
    actor: nat, spotId: nat, today: int, startDate: int, endDate: int): Option<CreateError>
  {
    match Find(spots, spotId)
    case None => Some(SpotNotFound)
    case Some(spot) =>
      if spot.ownerId == actor then Some(OwnSpot)
      else
        var errors := CheckDates(today, startDate, endDate);
        if errors.Any() then Some(BadDates(errors))
        else if |Conflicting(bookings, spotId, startDate, endDate)| > 0 then
          Some(AlreadyBooked(DateErrors(Some(StartConflicts), Some(EndConflicts))))
        else None
  }

  /** A missing spot is reported first (404), then an owner booking their own
      spot (403), whatever the dates. */
  lemma CreateChecksInOrder(
    spots: Table<Spot>, bookings: Table<Booking>,
    actor: nat, spotId: nat, today: int, startDate: int, endDate: int)
    ensures Find(spots, spotId).None? ==>
      CreateRefusal(spots, bookings, actor, spotId, today, startDate, endDate) == Some(SpotNotFound)
    ensures Find(spots, spotId).Some? && Find(spots, spotId).value.ownerId == actor ==>
      CreateRefusal(spots, bookings, actor, spotId, today, startDate, endDate) == Some(OwnSpot)
    ensures CreateStatus(SpotNotFound) == 404 && CreateStatus(OwnSpot) == 403
  {
  }

  /** For an existing spot of someone else, the request is refused with 400
      exactly when a date is invalid, and each invalid field gets its message. */
  lemma CreateDateErrors(
    spots: Table<Spot>, bookings: Table<Booking>,
    actor: nat, spotId: nat, today: int, startDate: int, endDate: int)
    requires Find(spots, spotId).Some? && Find(spots, spotId).value.ownerId != actor
    ensures var r := CreateRefusal(spots, bookings, actor, spotId, today, startDate, endDate);
      && (r.Some? && r.value.BadDates? <==> startDate < today || endDate <= startDate)
      && (r.Some? && r.value.BadDates? ==>
            && (r.value.errors.startDate == Some(StartInPast) <==> startDate < today)
            && (r.value.errors.endDate == Some(EndNotAfterStart) <==> endDate <= startDate)
            && CreateStatus(r.value) == 400)
  {
  }

  /** A booking request is accepted exactly when the spot exists, the actor
      does not own it, the dates are valid and no booking of the spot shares a
      day with the requested closed range. */
  lemma CreateAcceptedIff(
    spots: Table<Spot>, bookings: Table<Booking>,
    actor: nat, spotId: nat, today: int, startDate: int, endDate: int)
    requires WellFormed(bookings)
    ensures CreateRefusal(spots, bookings, actor, spotId, today, startDate, endDate) == None <==>
      && Find(spots, spotId).Some?
      && Find(spots, spotId).value.ownerId != actor
      && today <= startDate < endDate
      && FreeFor(bookings, spotId, startDate, endDate)
  {
    if startDate < endDate {
      forall i | 0 <= i < |bookings| && bookings[i].val.spotId == spotId
        ensures InConflict(bookings[i].val, startDate, endDate) <==> Overlaps(bookings[i].val, startDate, endDate)
      {
        ConflictIsClosedOverlap(bookings[i].val, startDate, endDate);
      }
    }
  }

  /** A conflict is answered with 403 and both date messages. */
  lemma ConflictReportsBothFields(
    spots: Table<Spot>, bookings: Table<Booking>,
    actor: nat, spotId: nat, today: int, startDate: int, endDate: int)
    requires WellFormed(bookings)
    requires Find(spots, spotId).Some? && Find(spots, spotId).value.ownerId != actor
    requires today <= startDate < endDate
    requires !FreeFor(bookings, spotId, startDate, endDate)
    ensures var r := CreateRefusal(spots, bookings, actor, spotId, today, startDate, endDate);
      && r == Some(AlreadyBooked(DateErrors(Some(StartConflicts), Some(EndConflicts))))
      && CreateStatus(r.value) == 403
  {
    CreateAcceptedIff(spots, bookings, actor, spotId, today, startDate, endDate);
  }

  /** The booking an accepted request inserts. */
  function NewBooking(id: nat, actor: nat, spotId: nat, startDate: int, endDate: int): Row<Booking> {
    Row(id, Booking(spotId, actor, startDate, endDate))
  }

  /** Inserting an accepted booking keeps every spot's bookings pairwise
      disjoint as closed intervals. */
  lemma AcceptedCreateKeepsSound(
    spots: Table<Spot>, bookings: Table<Booking>,
    actor: nat, spotId: nat, today: int, startDate: int, endDate: int, id: nat)
    requires Sound(bookings)
    requires CreateRefusal(spots, bookings, actor, spotId, today, startDate, endDate) == None
    ensures Sound(bookings + [NewBooking(id, actor, spotId, startDate, endDate)])
  {
    CreateAcceptedIff(spots, bookings, actor, spotId, today, startDate, endDate);
    var bs := bookings + [NewBooking(id, actor, spotId, startDate, endDate)];
    forall i, j | 0 <= i < j < |bs| && bs[i].val.spotId == bs[j].val.spotId
      ensures !Overlaps(bs[i].val, bs[j].val.startDate, bs[j].val.endDate)
    {
      if j == |bookings| {
        assert bs[i] == bookings[i];
      } else {
        assert bs[i] == bookings[i] && bs[j] == bookings[j];
      }
    }
  }

  /** Destroying a booking keeps the invariant. */
  lemma RemoveKeepsSound(bookings: Table<Booking>, id: nat)
    requires Sound(bookings) && UniqueIds(bookings)
    ensures Sound(Remove(bookings, id))
  {
    if k :| 0 <= k < |bookings| && bookings[k].id == id {
      RemoveAt(bookings, k);
      var r := bookings[..k] + bookings[k + 1..];
      forall i | 0 <= i < |r| ensures r[i].val.startDate < r[i].val.endDate {
        assert r[i] == bookings[if i < k then i else i + 1];
      }
      forall i, j | 0 <= i < j < |r| && r[i].val.spotId == r[j].val.spotId
        ensures !Overlaps(r[i].val, r[j].val.startDate, r[j].val.endDate)
      {
        var i', j' := if i < k then i else i + 1, if j < k then j else j + 1;
        assert r[i] == bookings[i'] && r[j] == bookings[j'];
      }
    } else {
      RemoveAbsent(bookings, id);
    }
  }

  /** One booking request, as the create handler receives it. */
  datatype CreateRequest = CreateRequest(actor: nat, spotId: nat, today: int, startDate: int, endDate: int)

  /** The bookings table after a sequence of create requests is handled one
      after the other, each insert taking the next key. */
  function RunCreates(spots: Table<Spot>, bookings: Table<Booking>, next: nat, requests: seq<CreateRequest>): Table<Booking>
    decreases |requests|
  {
    if requests == [] then bookings
    else
      var q := requests[0];
      if CreateRefusal(spots, bookings, q.actor, q.spotId, q.today, q.startDate, q.endDate) == None
      then RunCreates(spots, bookings + [NewBooking(next, q.actor, q.spotId, q.startDate, q.endDate)], next + 1, requests[1..])
      else RunCreates(spots, bookings, next, requests[1..])
  }

  /** Sequentially handled creates never produce two bookings of one spot that
      share a day. */
  lemma {:induction false} SequentialCreatesStaySound(
    spots: Table<Spot>, bookings: Table<Booking>, next: nat, requests: seq<CreateRequest>)
    requires Sound(bookings)
    ensures Sound(RunCreates(spots, bookings, next, requests))
    decreases |requests|
  {
    if requests != [] {
      var q := requests[0];
      if CreateRefusal(spots, bookings, q.actor, q.spotId, q.today, q.startDate, q.endDate) == None {
        AcceptedCreateKeepsSound(spots, bookings, q.actor, q.spotId, q.today, q.startDate, q.endDate, next);
        SequentialCreatesStaySound(spots, bookings + [NewBooking(next, q.actor, q.spotId, q.startDate, q.endDate)], next + 1, requests[1..]);
      } else {
        SequentialCreatesStaySound(spots, bookings, next, requests[1..]);
      }
    }
  }

  /** Ranges that touch conflict: one booking ends on day 15 and the request
      starts on day 15. */
  lemma TouchingRangesConflict()
    ensures var spots := [Row(7, Spot(1, SpotDetails("", "", "", "", 0.0, 0.0, "", "", 1.0)))];
      var bookings := [Row(1, Booking(7, 2, 10, 15))];
      CreateRefusal(spots, bookings, 3, 7, 0, 15, 20).Some?
      && CreateRefusal(spots, bookings, 3, 7, 0, 15, 20).value.AlreadyBooked?
  {
    var bookings := [Row(1, Booking(7, 2, 10, 15))];
    assert InConflict(bookings[0].val, 15, 20);
    assert |Conflicting(bookings, 7, 15, 20)| > 0;
  }

  // ---------------------------------------------------------------------
  // Cancellation: DELETE .../bookings/:bookingId

  datatype DeleteError = BookingNotFound | BookingStarted | NotBookerOrOwner | SpotMissing

  function DeleteStatus(e: DeleteError): nat {
    match e
    case BookingNotFound => 404
    case BookingStarted => 403
    case NotBookerOrOwner => 403
    case SpotMissing => 500
  }

  /** The checks of the delete handler, in order; None means the booking is
      destroyed. The owner is read through the booking's Spot only when the
      actor is not the booker (the `&&` short-circuits); a booking whose spot row
      is gone then makes the handler throw, which it answers with 500. */
  function DeleteRefusal(spots: Table<Spot>, bookings: Table<Booking>, actor: nat, bookingId: nat, today: int): Option<DeleteError> {
    match Find(bookings, bookingId)
    case None => Some(BookingNotFound)
    case Some(b) =>
      if today >= b.startDate then Some(BookingStarted)
      else if actor == b.userId then None
      else
        match Find(spots, b.spotId)
        case None => Some(SpotMissing)
        case Some(spot) => if spot.ownerId != actor then Some(NotBookerOrOwner) else None
  }

  /** A cancellation goes through exactly when the booking exists, has not
      started, and the actor is its booker or the owner of its spot. */
  lemma DeleteAllowedIff(spots: Table<Spot>, bookings: Table<Booking>, actor: nat, bookingId: nat, today: int)
    ensures DeleteRefusal(spots, bookings, actor, bookingId, today) == None <==>
      && Find(bookings, bookingId).Some?
      && today < Find(bookings, bookingId).value.startDate
      && (|| actor == Find(bookings, bookingId).value.userId
          || (Find(spots, Find(bookings, bookingId).value.spotId).Some? &&
              Find(spots, Find(bookings, bookingId).value.spotId).value.ownerId == actor))
  {
  }

  /** The started check comes before authorization: anyone, authorised or
      not, gets the "started" 403 once the start day is reached. A missing
      booking is always a 404. */
  lemma StartedCheckFirst(spots: Table<Spot>, bookings: Table<Booking>, actor: nat, bookingId: nat, today: int)
    ensures Find(bookings, bookingId).None? ==>
      DeleteRefusal(spots, bookings, actor, bookingId, today) == Some(BookingNotFound)
    ensures Find(bookings, bookingId).Some? && today >= Find(bookings, bookingId).value.startDate ==>
      DeleteRefusal(spots, bookings, actor, bookingId, today) == Some(BookingStarted)
  {
  }

  // ---------------------------------------------------------------------
  // Listing: GET /api/spots/:spotId/bookings

  /** `userAttributes`: id, firstName and lastName. */
  datatype UserSummary = UserSummary(id: nat, firstName: string, lastName: string)

  datatype BookingView =
    | Full(id: nat, spotId: nat, userId: nat, startDate: int, endDate: int, user: Option<UserSummary>)
    | Basic(spotId: nat, startDate: int, endDate: int)

  /** `Booking.findAll({where: {spotId}})`: every booking of the spot and no
      other, in table order (see `OfSpotAppend`). */
  function OfSpot(bookings: Table<Booking>, spotId: nat): (r: Table<Booking>)
    ensures |r| <= |bookings|
    ensures forall i :: 0 <= i < |r| ==> r[i].val.spotId == spotId
    ensures forall b :: b in r <==> b in bookings && b.val.spotId == spotId
  {
    if bookings == [] then []
    else if bookings[0].val.spotId == spotId then [bookings[0]] + OfSpot(bookings[1..], spotId)
    else OfSpot(bookings[1..], spotId)
  }

  /** The query keeps table order: the bookings of a concatenation are those
      of the first part followed by those of the second. */
  lemma {:induction false} OfSpotAppend(a: Table<Booking>, b: Table<Booking>, spotId: nat)
    ensures OfSpot(a + b, spotId) == OfSpot(a, spotId) + OfSpot(b, spotId)
  {
    if a == [] {
      assert a + b == b;
    } else {
      assert (a + b)[0] == a[0] && (a + b)[1..] == a[1..] + b;
      OfSpotAppend(a[1..], b, spotId);
    }
  }

  function SummaryOf(users: Table<User>, id: nat): Option<UserSummary> {
    match Find(users, id)
    case None => None
    case Some(u) => Some(UserSummary(id, u.firstName, u.lastName))
  }

  function OwnerView(b: Row<Booking>, users: Table<User>): BookingView {
    Full(b.id, b.val.spotId, b.val.userId, b.val.startDate, b.val.endDate, SummaryOf(users, b.val.userId))
  }

  function GuestView(b: Row<Booking>): BookingView {
    Basic(b.val.spotId, b.val.startDate, b.val.endDate)
  }

  datatype ListError = ListSpotNotFound

  /** The owner of the spot sees every booking of it in full, with the
      booker's summary; anyone else sees only spotId and the two dates of each. */
  function ListBookings(spots: Table<Spot>, bookings: Table<Booking>, users: Table<User>, actor: nat, spotId: nat)
    : (r: Result<seq<BookingView>, ListError>)
    ensures r.Err? <==> Find(spots, spotId).None?
    ensures r.Ok? ==> |r.value| == |OfSpot(bookings, spotId)|
    ensures r.Ok? && Find(spots, spotId).value.ownerId == actor ==>
      forall i :: 0 <= i < |r.value| ==>
        var b := OfSpot(bookings, spotId)[i];
        r.value[i].Full? && r.value[i].id == b.id && r.value[i].spotId == spotId && r.value[i].userId == b.val.userId
        && r.value[i].startDate == b.val.startDate && r.value[i].endDate == b.val.endDate
        && r.value[i].user == SummaryOf(users, b.val.userId)
    ensures r.Ok? && Find(spots, spotId).value.ownerId != actor ==>
      forall i :: 0 <= i < |r.value| ==>
        var b := OfSpot(bookings, spotId)[i];
        r.value[i] == Basic(spotId, b.val.startDate, b.val.endDate)
  {
    match Find(spots, spotId)
    case None => Err(ListSpotNotFound)
    case Some(spot) =>
      var rows := OfSpot(bookings, spotId);
      if spot.ownerId == actor
      then Ok(seq(|rows|, i requires 0 <= i < |rows| => OwnerView(rows[i], users)))
      else Ok(seq(|rows|, i requires 0 <= i < |rows| => GuestView(rows[i])))
  }
}
