/** The handlers of /api/spots that this model covers: create a booking,
    edit and delete a spot, and list spots a page at a time. Each handler
    makes the decision of SpotRules or BookingRules and then changes only
    the table that decision allows. */
module SpotRoutes {
  import opened Wrappers
  import opened Tables
  import opened Entities
  import opened Store
  import BookingRules
  import opened SpotRules

  /** POST /api/spots/:spotId/bookings */
  method CreateBooking(db: Db, actor: nat, spotId: nat, today: int, startDate: int, endDate: int)
    returns (res: Result<Row<Booking>, BookingRules.CreateError>)
    requires db.Valid()
    modifies db`bookings, db`nextBookingId
    ensures db.Valid()
    ensures match BookingRules.CreateRefusal(db.spots, old(db.bookings), actor, spotId, today, startDate, endDate)
      case Some(e) =>
        res == Err(e) && db.bookings == old(db.bookings) && db.nextBookingId == old(db.nextBookingId)
      case None =>
        && res == Ok(BookingRules.NewBooking(old(db.nextBookingId), actor, spotId, startDate, endDate))
        && db.bookings == old(db.bookings) + [res.value]
        && db.nextBookingId == old(db.nextBookingId) + 1
  {
    var refusal := BookingRules.CreateRefusal(db.spots, db.bookings, actor, spotId, today, startDate, endDate);
    if refusal.Some? {
      return Err(refusal.value);
    }
    var row := BookingRules.NewBooking(db.nextBookingId, actor, spotId, startDate, endDate);
    BookingRules.AcceptedCreateKeepsSound(db.spots, db.bookings, actor, spotId, today, startDate, endDate, db.nextBookingId);
    InsertKeyed(db.bookings, db.nextBookingId, row.val);
    db.bookings := db.bookings + [row];
    db.nextBookingId := db.nextBookingId + 1;
    res := Ok(row);
  }

  /** The JSON of a successful update: the spot's id and its details, without
      the owner. */
  datatype UpdatedSpot = UpdatedSpot(id: nat, details: SpotDetails)

  /** PUT /api/spots/:spotId: only the owner's request overwrites the spot's
      details; the owner stays the same. */
  method UpdateSpot(db: Db, actor: nat, spotId: nat, details: SpotDetails)
    returns (res: Result<UpdatedSpot, OwnerError>)
    requires db.Valid()
    modifies db`spots
    ensures db.Valid()
    ensures match OwnerRefusal(old(db.spots), actor, spotId)
      case Some(e) => res == Err(e) && db.spots == old(db.spots)
      case None =>
        && res == Ok(UpdatedSpot(spotId, details))
        && db.spots == Replace(old(db.spots), spotId, Spot(actor, details))
  {
    var refusal := OwnerRefusal(db.spots, actor, spotId);
    if refusal.Some? {
      return Err(refusal.value);
    }
    var updated := Spot(actor, details);
    ReplaceUnique(db.spots, spotId, updated);
    db.spots := Replace(db.spots, spotId, updated);
    res := Ok(UpdatedSpot(spotId, details));
  }

  /** DELETE /api/spots/:spotId: only the owner's request destroys the spot,
      and then exactly that row goes. */
  method DeleteSpot(db: Db, actor: nat, spotId: nat) returns (res: Result<(), OwnerError>)
    requires db.Valid()
    modifies db`spots
    ensures db.Valid()
    ensures match OwnerRefusal(old(db.spots), actor, spotId)
      case Some(e) => res == Err(e) && db.spots == old(db.spots)
      case None =>
        && res == Ok(())
        && exists k :: 0 <= k < |old(db.spots)| && old(db.spots)[k].id == spotId &&
             db.spots == old(db.spots)[..k] + old(db.spots)[k + 1..]
  {
    var refusal := OwnerRefusal(db.spots, actor, spotId);
    if refusal.Some? {
      return Err(refusal.value);
    }
    var k :| 0 <= k < |db.spots| && db.spots[k].id == spotId;
    RemoveAt(db.spots, k);
    RemoveUnique(db.spots, spotId);
    db.spots := Remove(db.spots, spotId);
    res := Ok(());
  }

  /** The paging part of the validation of GET /api/spots: each bad field
      gets its message in `errors`. */
  method ValidatePaging(pageParam: Option<int>, sizeParam: Option<int>)
    returns (page: int, size: int, errors: PagingErrors)
    ensures page == OrDefault(pageParam, DefaultPage) && size == OrDefault(sizeParam, DefaultSize)
    ensures errors.page == (if page < 1 then Some(PageMsg) else None)
    ensures errors.size == (if size < 1 || size > MaxSize then Some(SizeMsg) else None)
    ensures !errors.Any() ==> page >= 1 && 1 <= size <= MaxSize && Offset(page, size) >= 0
  {
    page := OrDefault(pageParam, DefaultPage);
    size := OrDefault(sizeParam, DefaultSize);
    errors := PagingErrors(None, None);
    if page < 1 {
      errors := errors.(page := Some(PageMsg));
    }
    if size < 1 || size > MaxSize {
      errors := errors.(size := Some(SizeMsg));
    }
    if !errors.Any() {
      assert (page - 1) * size >= 0 by {
        assert page - 1 >= 0 && size >= 0;
      }
    }
  }

  /** The forEach over a spot's images: every image flagged as preview
      overwrites `previewImage`; a falsy result becomes the placeholder. */
  method PickPreview(images: seq<SpotImage>) returns (preview: string)
    ensures preview == PreviewImage(images)
  {
    var current: Option<string> := None;
    for i := 0 to |images|
      invariant current == LastPreviewUrl(images[..i])
    {
      assert images[..i + 1][..i] == images[..i];
      if images[i].preview {
        current := Some(images[i].url);
      }
    }
    assert images[..|images|] == images;
    preview := if current.Some? && current.value != "" then current.value else NoPreview;
  }

  /** The forEach over a spot's reviews: sum the stars and count the reviews;
      no reviews gives a null rating. */
  method RateSpot(stars: seq<int>) returns (avgRating: Option<Rating>)
    ensures avgRating == AvgRating(stars)
  {
    var totalStars := 0;
    var reviewCount := 0;
    for i := 0 to |stars|
      invariant totalStars == Sum(stars[..i]) && reviewCount == i
    {
      assert stars[..i + 1][..i] == stars[..i];
      totalStars := totalStars + stars[i];
      reviewCount := reviewCount + 1;
    }
    assert stars[..|stars|] == stars;
    avgRating := if reviewCount > 0 then Some(Rating(totalStars, reviewCount)) else None;
  }

  /** The outer forEach: one listing per spot, in query order. */
  method SummarizeSpots(rows: seq<Row<Spot>>, images: Table<SpotImage>, reviews: Table<Review>)
    returns (listings: seq<SpotListing>)
    ensures |listings| == |rows|
    ensures forall i :: 0 <= i < |rows| ==> listings[i] == Listing(rows[i], images, reviews)
  {
    listings := [];
    for i := 0 to |rows|
      invariant |listings| == i
      invariant forall k :: 0 <= k < i ==> listings[k] == Listing(rows[k], images, reviews)
    {
      var avgRating := RateSpot(StarsOf(reviews, rows[i].id));
      var preview := PickPreview(ImagesOf(images, rows[i].id));
      listings := listings + [SpotListing(rows[i].id, rows[i].val, avgRating, preview)];
    }
  }

  datatype SpotsPage = SpotsPage(spots: seq<SpotListing>, page: int, size: int)

  /** GET /api/spots without the coordinate and price filters: validate page
      and size, take that page of the spots table, and summarise each spot. */
  method GetAllSpots(db: Db, pageParam: Option<int>, sizeParam: Option<int>)
    returns (res: Result<SpotsPage, PagingErrors>)
    ensures var page, size := OrDefault(pageParam, DefaultPage), OrDefault(sizeParam, DefaultSize);
      && (res.Err? <==> page < 1 || size < 1 || size > MaxSize)
      && (res.Err? ==>
            && res.error.page == (if page < 1 then Some(PageMsg) else None)
            && res.error.size == (if size < 1 || size > MaxSize then Some(SizeMsg) else None))
      && (res.Ok? ==>
            && res.value.page == page && res.value.size == size
            && 1 <= page && 1 <= size <= MaxSize
            && |res.value.spots| ==
                 (if Offset(page, size) >= |db.spots| then 0 else Min(size, |db.spots| - Offset(page, size)))
            && forall i :: 0 <= i < |res.value.spots| ==>
                 Offset(page, size) + i < |db.spots| &&
                 res.value.spots[i] == Listing(db.spots[Offset(page, size) + i], db.spotImages, db.reviews))
  {
    var page, size, errors := ValidatePaging(pageParam, sizeParam);
    if errors.Any() {
      return Err(errors);
    }
    var rows := Window(db.spots, page, size);
    var listings := SummarizeSpots(rows, db.spotImages, db.reviews);
    res := Ok(SpotsPage(listings, page, size));
  }
}
