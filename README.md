# SleepInn booking and ownership rules in Dafny

SleepInn is a lodging-rental site. An Express and Sequelize API lets users
list places ("spots"), book them, review them and attach images, and a Redux
client keeps spots, reviews and the signed-in user in its store. This project
models two parts of it. The first is the rule-bearing route handlers of the
API: booking creation, listing and cancellation; owner-only spot edits;
one review per user and spot; the ten-image cap per review; author-only
review changes; the exactly-one-parent rule for images; and unique sign-up.
The second is the three client reducers.

The project proves these properties:

- Sequentially handled booking requests never leave two bookings of one spot
  that share a day.
- Every guard refuses without changing anything.
- Every accepted request changes exactly the row it names.
- The client reducers leave everything else as it was.

Layout:

- `Tables` stands in for the database. A table is the sequence of its rows in
  insertion order, each row with its auto-increment key.
- The `*Rules` modules hold each handler's checks, in the handler's order, as
  a pure decision function, with lemmas about it.
- `Store.Db` is the database as a class with one field per table. `Db.Valid`
  holds the invariants the handlers keep: unique keys, non-overlapping
  bookings, one review per user and spot, at most ten images per review, and
  unique e-mails and usernames.
- The `*Routes` modules hold one method per handler. Each method changes only
  the fields its `modifies` clause names, and its `ensures` ties the response
  and the new tables to the decision function.
- The loops of the source are methods with loop invariants, each proved equal
  to a specification function:
  - the forEach loops of GET /api/spots;
  - `_normalizeSpots`;
  - the key search of DELETE_REVIEW;
  - the upload loop of `addSpot`.
- `ClientSpots`, `ClientReviews` and `ClientSession` model the reducers as
  functions from state and action to state.

The model treats several inputs as plain values:

- Dates are integer day numbers, and "today" is a parameter.
- The authenticated user is a parameter `actor`.
- The `isEmail` check and the bcrypt hash are parameters of the sign-up
  handler.

The model follows the code in these choices, several of which differ from
the usual rules of a booking API:

- The booking conflict query uses Sequelize's inclusive `between`, so it is
  closed-interval overlap. A booking that ends on day D conflicts with a
  request that starts on day D (`BookingRules.TouchingRangesConflict`).
- The booker or the spot's owner may cancel a booking.
- A second review of the same spot by the same user is answered with 500.
- The eleventh image of a review is answered with 403
  (`ReviewRules.ImageLimitAtTen`).
- Creating a review has no owner check.
- There is no booking-update route, so none is modelled.

## Model

| member | source | states |
|---|---|---|
| BookingRules.ConflictIsClosedOverlap | backend/routes/api/spots.js:612-629 | for well-ordered ranges the three-disjunct conflict clause holds exactly when the closed intervals share a day |
| BookingRules.Conflicting | backend/routes/api/spots.js:609-631 | the conflict query returns nothing exactly when no booking of that spot satisfies the clause |
| BookingRules.CreateChecksInOrder | backend/routes/api/spots.js:553-566 | a missing spot gives 404 before anything else; the spot's owner gets 403 whatever the dates |
| BookingRules.CreateDateErrors | backend/routes/api/spots.js:592-606 | for another user's existing spot, the answer is 400 exactly when start < today or end <= start, with each failing field's message set independently |
| BookingRules.CreateAcceptedIff | backend/routes/api/spots.js:546-649 | a request is accepted exactly when the spot exists, the actor does not own it, today <= start < end, and no booking of the spot overlaps the closed range |
| BookingRules.ConflictReportsBothFields | backend/routes/api/spots.js:633-641 | an overlapping valid request gets 403 with both the startDate and the endDate conflict messages |
| BookingRules.AcceptedCreateKeepsSound | backend/routes/api/spots.js:609-649 | inserting an accepted booking keeps every spot's bookings well-formed and pairwise non-overlapping |
| BookingRules.RemoveKeepsSound | backend/routes/api/booking.js:30 | destroying a booking keeps the non-overlap invariant |
| BookingRules.SequentialCreatesStaySound | backend/routes/api/spots.js:609-649 | any sequence of create requests handled one after the other leaves the bookings pairwise non-overlapping |
| BookingRules.TouchingRangesConflict | backend/routes/api/spots.js:612-629 | a request starting on the day an existing booking ends is refused as already booked |
| BookingRules.DeleteAllowedIff | backend/routes/api/booking.js:13-31 | a cancellation goes through exactly when the booking exists, has not started, and the actor is its booker or the owner of its spot |
| BookingRules.StartedCheckFirst | backend/routes/api/booking.js:20-29 | a missing booking is a 404, and a started booking is a "started" 403 for any actor, authorized or not |
| BookingRules.OfSpot | backend/routes/api/spots.js:325-339 | the listing query returns a booking exactly when it is in the table and of that spot, with no more rows than the table has |
| BookingRules.OfSpotAppend | backend/routes/api/spots.js:325-339 | the listing keeps table order: the bookings of a concatenation are those of the first part followed by those of the second |
| BookingRules.ListBookings | backend/routes/api/spots.js:312-340 | 404 exactly when the spot is missing; one entry per booking of the spot; the owner gets id, spotId, userId, dates and the booker's summary; anyone else gets only spotId, startDate and endDate |
| BookingRoutes.DeleteBooking | backend/routes/api/booking.js:8-38 | keeps the store valid; a refusal leaves the bookings unchanged; success removes exactly the one row with that id and keeps the others in order |
| SpotRules.OwnerOnly | backend/routes/api/spots.js:678-687 | only the owner of an existing spot gets past the update/delete check |
| SpotRules.OrDefault | backend/routes/api/spots.js:124-125 | a missing, unparsable or zero value falls back to the default; any other result is the parsed value |
| SpotRules.Window | backend/routes/api/spots.js:168-169 | the page has `size` rows, or as many as are left after the offset (none past the end), and row i is row offset + i of the table |
| SpotRules.ImagesOf | backend/routes/api/spots.js:170-174 | an image is included exactly when it is one of that spot's images, with no more entries than the table has rows |
| SpotRules.ImagesOfAppend | backend/routes/api/spots.js:170-174 | the included images keep table order: those of a concatenation are those of the first part followed by those of the second |
| SpotRules.StarsOf | backend/routes/api/spots.js:176-180 | a stars value is included exactly when some review of the spot has it, with no more entries than the table has rows |
| SpotRules.StarsOfAppend | backend/routes/api/spots.js:176-180 | the included stars keep table order: those of a concatenation are those of the first part followed by those of the second |
| SpotRules.LastPreviewIndex | backend/routes/api/spots.js:203-207 | no position exactly when no image is flagged as preview; otherwise a flagged image with no flagged image after it |
| SpotRules.PreviewIsLastFlagged | backend/routes/api/spots.js:203-210 | the preview is the non-empty url of the last image flagged as preview |
| SpotRules.PreviewPlaceholder | backend/routes/api/spots.js:208-210 | with no flagged image the preview is "No preview image available" |
| SpotRules.AvgRatingNullIffNoReviews | backend/routes/api/spots.js:188-199 | avgRating is null exactly when the spot has no reviews |
| SpotRules.RatingAfterReview | backend/routes/api/spots.js:188-199 | one more review of the spot adds one to the count and its stars to the total; a review of another spot leaves the rating as it was |
| SpotRules.StarsOfEmpty | backend/routes/api/spots.js:176-178 | a spot's included stars are empty exactly when no review is of that spot |
| SpotRoutes.CreateBooking | backend/routes/api/spots.js:546-664 | keeps the store valid; a refusal comes from the ordered checks and changes nothing; an accepted request appends exactly the new booking with the next key |
| SpotRoutes.UpdateSpot | backend/routes/api/spots.js:667-717 | keeps the store valid; 404 or 403 with no change; the owner's request replaces the details of that spot only, keeping its owner, and answers with the id and the new details but no ownerId |
| SpotRoutes.DeleteSpot | backend/routes/api/spots.js:719-740 | keeps the store valid; 404 or 403 with no change; the owner's request removes exactly that spot |
| SpotRoutes.ValidatePaging | backend/routes/api/spots.js:123-138 | page and size fall back to 1 and 20; each out-of-range field gets its message; an accepted request has page >= 1, 1 <= size <= 20 and offset >= 0 |
| SpotRoutes.PickPreview | backend/routes/api/spots.js:203-210 | the loop's result is the preview image the specification function describes |
| SpotRoutes.RateSpot | backend/routes/api/spots.js:188-199 | the loop's total and count are the sum and number of the stars, null when there are none |
| SpotRoutes.SummarizeSpots | backend/routes/api/spots.js:186-214 | one listing per spot, in order, each with its rating and preview |
| SpotRoutes.GetAllSpots | backend/routes/api/spots.js:119-217 | 400 exactly when page or size is out of range, carrying the page message exactly for a bad page and the size message exactly for a bad size; otherwise `size` listings, or as many spots as are left after the offset, listing i being spot offset + i |
| ReviewRules.ReviewAcceptedIff | backend/routes/api/reviews.js:18-29 | a review body passes exactly when the text is non-empty and stars is a whole number from 1 to 5, which is then stored as that integer |
| ReviewRules.CreateOutcomes | backend/routes/api/reviews.js:154-172 | for a valid body, a missing spot gives 404, and an existing spot gives 500 exactly when the actor already reviewed it |
| ReviewRules.AcceptedCreateKeepsOnePerPair | backend/routes/api/reviews.js:155-174 | inserting an accepted review keeps at most one review per user and spot |
| ReviewRules.AddImageChecksInOrder | backend/routes/api/reviews.js:85-117 | a missing or empty url gives 400 before any lookup, a missing review 404, and a non-author 403 whatever the count |
| ReviewRules.ImageCountAppend | backend/routes/api/reviews.js:119-121 | the image count of a review over two tables joined is the sum of its counts |
| ReviewRules.ImageLimitAtTen | backend/routes/api/reviews.js:119-127 | for the author's request with a url, the image is inserted exactly when the review has fewer than ten images, and from ten on the answer is the image-limit 403 |
| ReviewRules.AcceptedImageKeepsCap | backend/routes/api/reviews.js:119-134 | an accepted image is at most the tenth of its review, and no review ever has more than ten images |
| ReviewRules.RemoveImageKeepsCap | backend/routes/api/review-images.js:48 | destroying an image keeps every review at ten images or fewer |
| ReviewRules.AuthorOnly | backend/routes/api/reviews.js:197-209 | only the author of an existing review gets past the edit/delete check |
| ReviewRules.Edited | backend/routes/api/reviews.js:211-214 | an edit keeps the review's author and spot |
| ReviewRules.EditKeepsOnePerPair | backend/routes/api/reviews.js:211-216 | an edit keeps at most one review per user and spot |
| ReviewRules.RemoveKeepsOnePerPair | backend/routes/api/reviews.js:252 | destroying a review keeps at most one review per user and spot |
| ReviewRoutes.CreateReview | backend/routes/api/reviews.js:148-179 | keeps the store valid; a refusal changes nothing; an accepted review is appended with the next key |
| ReviewRoutes.AddReviewImage | backend/routes/api/reviews.js:80-140 | keeps the store valid; a refusal changes nothing; an accepted image is appended and raises its review's count by one, to at most ten |
| ReviewRoutes.EditReview | backend/routes/api/reviews.js:186-225 | keeps the store valid; 400, 404 or 403 with no change; the author's edit replaces text and stars of that review and keeps its author and spot |
| ReviewRoutes.DeleteReview | backend/routes/api/reviews.js:232-259 | keeps the store valid; 404 or 403 with no change; the author's request removes exactly that review |
| ReviewImageRoutes.AsWrittenFailsTheAuthor | backend/routes/api/review-images.js:16-39 | the handler as written answers 500 exactly where the intended one deletes, and agrees with it on every refusal |
| ReviewImageRoutes.AsWrittenExample | backend/routes/api/review-images.js:35 | the author deleting an image attached to their review gets 500 as written, while the intended handler deletes it |
| ReviewImageRoutes.DeleteReviewImage | backend/routes/api/review-images.js:16-49 | keeps the store valid; 404 unless the image is attached to the review, 403 for a non-author, no change on refusal; success removes exactly that image |
| SpotImageRoutes.OwnerOnly | backend/routes/api/spot-images.js:15-32 | a spot image is deleted exactly when it exists and the actor owns its spot; a missing image is always 404 |
| SpotImageRoutes.DeleteSpotImage | backend/routes/api/spot-images.js:11-36 | keeps the store valid; a refusal changes nothing; success removes exactly that image |
| ImageModel.ImageValidIff | backend/db/models/image.js:26-79 | an image passes exactly when its url is non-empty and exactly one of spotId and reviewId is truthy |
| ImageModel.ParentValidators | backend/db/models/image.js:63-79 | "no parent" fires exactly when neither id is truthy, "both parents" exactly when both are, never both at once; an empty url is rejected |
| ImageModel.ZeroIdIsNoParent | backend/db/models/image.js:64-70 | a parent id of 0 is falsy and counts as no parent |
| UserRules.SignupAcceptedIff | backend/routes/api/users.js:11-32 | a sign-up body passes exactly when both names are present, the e-mail is one, the username has at least 4 characters and is not an e-mail, and the password has at least 6 |
| UserRules.CreateKeepsUnique | backend/routes/api/users.js:40-65 | a user created after clean duplicate checks keeps e-mails and usernames unique |
| UserRules.SafeIgnoresHash | backend/routes/api/users.js:67-73 | the returned user is the same whatever the stored password hash |
| UserRoutes.DuplicateChecks | backend/routes/api/users.js:37-49 | errors.email is set exactly when the e-mail is taken, errors.username exactly when the username is, both with their messages |
| UserRoutes.SignUp | backend/routes/api/users.js:35-80 | keeps the store valid; invalid bodies and duplicates get 400 with no user created; a valid body with a free e-mail and username always succeeds; success appends the user with the next key and returns only id, e-mail, username and names |
| ClientSpots.NormalizeSpots | frontend/src/store/spots.js:230-240 | the forEach yields allSpots equal to the input, in order, and the byId the specification function describes |
| ClientSpots.ByIdKeys | frontend/src/store/spots.js:234-237 | byId has a key for exactly the ids that occur |
| ClientSpots.ByIdLastWins | frontend/src/store/spots.js:234-237 | under each id, byId holds the last spot with that id |
| ClientSpots.WithImage | frontend/src/store/spots.js:189-192 | the spot keeps its id and fields, and its images gain the new one at the end |
| ClientSpots.AttachImage | frontend/src/store/spots.js:195-199 | same length; each spot with that id gets the image, every other spot is unchanged |
| ClientSpots.WithoutSpot | frontend/src/store/spots.js:210-212 | the result holds exactly the spots without that id, and is no longer than the list |
| ClientSpots.WithoutSpotAppend | frontend/src/store/spots.js:210-212 | the filter keeps order: filtering a concatenation filters each part |
| ClientSpots.SetSpotsReplaces | frontend/src/store/spots.js:148-155 | SET_SPOTS sets allSpots to the payload and byId to its ids, and keeps spotDetails |
| ClientSpots.AddSpotMerges | frontend/src/store/spots.js:176-183 | ADD_SPOT writes the spot under its id, keeps every other entry, appends to allSpots, keeps spotDetails |
| ClientSpots.AddSpotImageAppends | frontend/src/store/spots.js:185-206 | ADD_SPOT_IMAGE appends the image to byId[spotId] (creating the entry) and to every equal-id spot in allSpots; everything else is unchanged |
| ClientSpots.DeleteSpotRemoves | frontend/src/store/spots.js:208-219 | DELETE_SPOT drops the key, passes allSpots through the order-keeping filter so exactly the spots with that id go, and keeps every other entry and spotDetails |
| ClientSpots.WithoutAbsentSpot | frontend/src/store/spots.js:210-212 | filtering out an id that no spot has keeps the list |
| ClientSpots.DetailsActions | frontend/src/store/spots.js:157-174 | SET_SPOT_DETAILS with a null payload stores {}; SET_SPOT_REVIEWS replaces only Reviews; neither touches byId or allSpots |
| ClientSpots.UnknownActionUnchanged | frontend/src/store/spots.js:221-222 | an action of any other type returns the state unchanged |
| ClientSpots.ImageUploads | frontend/src/store/spots.js:97-102 | one upload per url, in order, flagged as preview exactly when its url equals the first url, so the first always is |
| ClientSpots.DeleteDispatchKeepsSpot | frontend/src/store/spots.js:122-130 | the action dispatched as written leaves the state unchanged, deleted spot included; the intended one removes the spot |
| ClientReviews.FirstSpotWith | frontend/src/store/reviews.js:126-132 | a found key is one of the keys and its list holds the review |
| ClientReviews.FirstSpotWithIsLeast | frontend/src/store/reviews.js:126-134 | the search finds the smallest key whose list holds the review, and nothing exactly when no list does |
| ClientReviews.FindSpotOfReview | frontend/src/store/reviews.js:123-132 | the loop over the keys in ascending order, with its break, finds what the specification function describes |
| ClientReviews.WithoutReview | frontend/src/store/reviews.js:141-143 | the result holds exactly the reviews without that id, and is no longer than the list |
| ClientReviews.WithoutReviewAppend | frontend/src/store/reviews.js:141-143 | the filter keeps order: filtering a concatenation filters each part |
| ClientReviews.SetReviewsEffect | frontend/src/store/reviews.js:95-107 | an empty payload, or one whose first review has spot id 0, keeps the state; otherwise the payload replaces the list of its first review's spot, the error is cleared, other spots are kept |
| ClientReviews.AddReviewPrepends | frontend/src/store/reviews.js:109-119 | ADD_REVIEW puts the review first in its spot's list (created if absent), clears the error, keeps the other spots |
| ClientReviews.DeleteReviewEffect | frontend/src/store/reviews.js:121-147 | with no list holding the review the state is unchanged; otherwise only the list of the smallest spot id holding it goes through the order-keeping filter, and the error is cleared |
| ClientReviews.ErrorAndUnknownActions | frontend/src/store/reviews.js:149-157 | SET_REVIEW_ERROR changes only the error; any other action type keeps the state |
| ClientSession.RunAppend | frontend/src/store/session.js:62-71 | running actions then one more is reducing the run's result by it |
| ClientSession.RunKeepsOthers | frontend/src/store/session.js:62-71 | any run of actions keeps the other fields, and ends with the user set by its last GET or REMOVE, or the starting user |
| ClientSession.SingleActions | frontend/src/store/session.js:64-69 | GET_CURRENT_USER sets the user to the payload; REMOVE_CURRENT_USER clears it and is idempotent; any other action keeps the state |

## Left out

- Concurrency: the find-then-insert sequences of booking, review, review-image
  and sign-up creation are not transactional in the source. The model runs
  handlers one at a time and claims its invariants for sequential execution
  only.
- Express routing and middleware, JWT cookies and `requireAuth`: the
  authenticated user is the parameter `actor`.
- UserRules.ValidateSignup: lengths are counted in Unicode scalar values
  (`|s|` of a `seq<char>`). The `isLength` checks of users.js:24 and :29 do
  not count the variation selectors U+FE0E and U+FE0F, so a username such as
  "abc" followed by U+FE0F passes the model's check but fails the source's.
- Clocks and time zones: dates are day numbers, and the date-only truncation of
  the create handler is taken as given.
- BookingRules.CreateRefusal: a missing or unparsable `startDate` or `endDate`
  is not modelled. In the source it becomes an Invalid Date, both comparisons
  at spots.js:592-597 are false, so no 400 is sent; the raw values reach the
  conflict query and the catch at spots.js:658 answers 500. Day numbers cannot
  express such a date. The current time of the booking delete
  handler is the day number `today`, with no time of day.
- Floating point: the latitude, longitude and price filters and checks of
  GET /api/spots, `toFixed` on the average (which the model keeps as total and
  count), and FLOAT stars.
- `validateSpot` and the body checks of spot update: the model takes the new
  details as given.
- Spot creation, POST /api/spots/:spotId/images and the other read-only
  routes. POST images calls `next(err)` without returning, so the model does
  not claim owner-only image creation.
- The database cascades when a spot, review or user is destroyed. The model's
  deletes remove only the named row.
- SpotRoutes.DeleteSpot: the source calls `spot.destroy()` without awaiting it; the model
  deletes before answering.
- The review-image handler's checks at review-images.js:34-46 are modelled by
  their intent, since the required include already guarantees the image
  exists. The "image row missing at lookup" 404 of lines 41-46 cannot occur
  when handlers run one at a time, so `DeleteReviewImage` has no such case.
- ReviewRoutes.CreateReview: the second query (the review lookup) runs even for
  a missing spot; only the order of the answers is modelled.
- SpotImageRoutes.DeleteRefusal: as written the handler can neither delete
  nor refuse. No router mounts spot-images.js (backend/routes/api/index.js
  mounts only sessions, spots and users), and its include of `Spot` at
  spot-images.js:15-20 names an association that db/models/spotimage.js does
  not declare, so the lookup throws before the 404 check on every request.
  The model is the handler under the schema the routes assume, in which an
  image belongs to its spot.
- ADD_REVIEW builds the new state without spreading the old one. The reviews
  slice has only `reviewsBySpot` and `error`, so nothing is lost, and the model
  carries no other fields there.
- `SET_SPOT_IMAGES` has the same type string as `ADD_SPOT_IMAGE`, so
  dispatching `setSpotImages(array)` runs the ADD_SPOT_IMAGE case on an array.
  Its payload fields are then undefined, and the model has no such action.
- The async thunks, `csrfFetch`, the React components, the migrations and the
  seed data are not part of this model. The migrations and seeds disagree with
  the routes' schema, and the seeds hold two reviews by one user of one spot.
- The schema of backend/db/models: the model follows the schema the route
  handlers evidently assume, not the model files, which contradict them.
  spot.js declares no `Spot.hasMany(Review)`, yet GET /api/spots includes
  `Review`. reviewimage.js has no `url` column and requires `imageId`, yet
  the review routes select and create `url` without `imageId`. spotimage.js
  has no `url` or `preview` column and refers to an undefined `Sequelize`.
  The review-images.js:35 finding does not depend on these: it rests on
  the `Review.hasMany(ReviewImage)` of review.js:19-21, which has no alias,
  so the included rows are named `ReviewImages`.
- `validateBooking` in spots.js is never attached to a route, so it is not
  modelled.

## Findings

| source | as written | input that shows it | evidently intended | confidence | as-written member | corrected member |
|---|---|---|---|---|---|---|
| backend/routes/api/review-images.js:35 | reads `existingReview.Images.length`, but the Review model includes its images as `ReviewImages`, so `.length` of undefined throws and the catch answers 500 | review 1 by user 5 with image 3; user 5 sends DELETE /api/spots/2/reviews/1/images/3 (review 1 is of spot 2) | the author's request destroys the image and answers 200 | high; not executed | ReviewImageRoutes.AsWrittenRefusal | ReviewImageRoutes.DeleteReviewImage |
| frontend/src/store/spots.js:129 | after a successful DELETE, `deleteSpot` dispatches `deleteSpotAction()` with no id, so DELETE_SPOT removes the key "undefined" and filters nothing. The delete modal (DeleteSpotModal.jsx:13) dispatches `fetchSpots()` right afterwards, so the stale entry lasts only until that SET_SPOTS replaces the list | a store holding spot 4; `deleteSpot(4)` succeeds | dispatch `deleteSpotAction(spotId)`, which removes spot 4 from byId and allSpots | high; not executed | ClientSpots.DeleteDispatchAsWritten | ClientSpots.DeleteDispatch |
