/** The client's reviews slice: `reviewsReducer` over `reviewsBySpot`, an
    object from spot id to that spot's reviews, and `error`. Spot ids are
    integer keys, which JavaScript enumerates in ascending order. */
module ClientReviews {
  import opened Wrappers

  datatype ClientReview = ClientReview(id: nat, spotId: nat, fields: map<string, string>)

  datatype ReviewsState = ReviewsState(reviewsBySpot: map<nat, seq<ClientReview>>, error: Option<string>)

  const InitialState := ReviewsState(map[], None)

  /** SET_REVIEWS, ADD_REVIEW, DELETE_REVIEW, SET_REVIEW_ERROR, and any other
      action type. */
  datatype ReviewsAction =
    | SetReviews(reviews: seq<ClientReview>)
    | AddReview(review: ClientReview)
    | DeleteReview(reviewId: nat)
    | SetReviewError(error: Option<string>)
    | Other(tag: string)

  /** `reviews.find(review => review.id === reviewId)` finds one. */
  predicate HasReview(reviews: seq<ClientReview>, reviewId: nat) {
    exists i :: 0 <= i < |reviews| && reviews[i].id == reviewId
  }

  /** The smallest key. */
  function MinKey(keys: set<nat>): (m: nat)
    requires keys != {}
    ensures m in keys && forall k :: k in keys ==> m <= k
  {
    MinKeyExists(keys);
    var m :| m in keys && forall k :: k in keys ==> m <= k;
    m
  }

  lemma MinKeyExists(keys: set<nat>)
    requires keys != {}
    ensures exists m :: m in keys && forall k :: k in keys ==> m <= k
  {
    var x :| x in keys;
    MinKeyAtMost(keys, x);
  }

  /** Below any key there is a least one, found by stepping down to smaller
      keys while there are any. */
  lemma {:induction false} MinKeyAtMost(keys: set<nat>, x: nat)
    requires x in keys
    ensures exists m :: m in keys && forall k :: k in keys ==> m <= k
    decreases x
  {
    if y :| y in keys && y < x {
      MinKeyAtMost(keys, y);
    } else {
      assert forall k :: k in keys ==> x <= k;
    }
  }

  /** The first of `keys`, in ascending order, whose list holds the review. */
  function FirstSpotWith(m: map<nat, seq<ClientReview>>, keys: set<nat>, reviewId: nat): (r: Option<nat>)
    requires keys <= m.Keys
    ensures r.Some? ==> r.value in keys && HasReview(m[r.value], reviewId)
    decreases keys
  {
    if keys == {} then None
    else
      var k := MinKey(keys);
      if HasReview(m[k], reviewId) then Some(k) else FirstSpotWith(m, keys - {k}, reviewId)
  }

  /** The search finds the smallest key whose list holds the review, and
      finds nothing exactly when no list does. */
  lemma {:induction false} FirstSpotWithIsLeast(m: map<nat, seq<ClientReview>>, keys: set<nat>, reviewId: nat)
    requires keys <= m.Keys
    ensures FirstSpotWith(m, keys, reviewId).None? <==> forall k :: k in keys ==> !HasReview(m[k], reviewId)
    ensures FirstSpotWith(m, keys, reviewId).Some? ==>
      var k := FirstSpotWith(m, keys, reviewId).value;
      k in keys && HasReview(m[k], reviewId) && forall j :: j in keys && j < k ==> !HasReview(m[j], reviewId)
    decreases keys
  {
    if keys != {} {
      var k := MinKey(keys);
      if !HasReview(m[k], reviewId) {
        FirstSpotWithIsLeast(m, keys - {k}, reviewId);
      }
    }
  }

  /** The `for ... of Object.keys` loop of DELETE_REVIEW with its `break`. */
  method FindSpotOfReview(m: map<nat, seq<ClientReview>>, reviewId: nat) returns (spotId: Option<nat>)
    ensures spotId == FirstSpotWith(m, m.Keys, reviewId)
  {
    var remaining := m.Keys;
    spotId := None;
    while remaining != {}
      invariant remaining <= m.Keys
      invariant FirstSpotWith(m, remaining, reviewId) == FirstSpotWith(m, m.Keys, reviewId)
      decreases remaining
    {
      var id := MinKey(remaining);
      if HasReview(m[id], reviewId) {
        spotId := Some(id);
        break;
      }
      remaining := remaining - {id};
    }
  }

  /** The `filter` of DELETE_REVIEW: the same order-keeping filter on id as
      the spots slice's `WithoutSpot`, here over reviews. */
  function WithoutReview(reviews: seq<ClientReview>, reviewId: nat): (r: seq<ClientReview>)
    ensures |r| <= |reviews|
    ensures forall x :: x in r <==> x in reviews && x.id != reviewId
  {
    if reviews == [] then []
    else if reviews[0].id == reviewId then WithoutReview(reviews[1..], reviewId)
    else [reviews[0]] + WithoutReview(reviews[1..], reviewId)
  }

  /** `filter` keeps order: filtering a concatenation filters each part. */
  lemma {:induction false} WithoutReviewAppend(a: seq<ClientReview>, b: seq<ClientReview>, reviewId: nat)
    ensures WithoutReview(a + b, reviewId) == WithoutReview(a, reviewId) + WithoutReview(b, reviewId)
  {
    if a == [] {
      assert a + b == b;
    } else {
      assert (a + b)[0] == a[0] && (a + b)[1..] == a[1..] + b;
      WithoutReviewAppend(a[1..], b, reviewId);
    }
  }

  function ListOf(m: map<nat, seq<ClientReview>>, spotId: nat): seq<ClientReview> {
    if spotId in m then m[spotId] else []
  }

  function ReviewsReducer(s: ReviewsState, a: ReviewsAction): ReviewsState {
    match a
    case SetReviews(payload) =>
      // a spot id of 0 is falsy, like a missing one
      if payload == [] || payload[0].spotId == 0 then s
      else s.(reviewsBySpot := s.reviewsBySpot[payload[0].spotId := payload], error := None)
    case AddReview(review) =>
      ReviewsState(s.reviewsBySpot[review.spotId := [review] + ListOf(s.reviewsBySpot, review.spotId)], None)
    case DeleteReview(reviewId) =>
      // the found key is a string, so even "0" is truthy
      (match FirstSpotWith(s.reviewsBySpot, s.reviewsBySpot.Keys, reviewId)
       case None => s
       case Some(k) =>
         s.(reviewsBySpot := s.reviewsBySpot[k := WithoutReview(s.reviewsBySpot[k], reviewId)], error := None))
    case SetReviewError(e) => s.(error := e)
    case Other(_) => s
  }

  /** SET_REVIEWS with no reviews, or reviews whose first has no truthy spot
      id, keeps the state; otherwise it stores the payload under the first
      review's spot, clears the error, and keeps the other spots. */
  lemma SetReviewsEffect(s: ReviewsState, payload: seq<ClientReview>)
    ensures payload == [] ==> ReviewsReducer(s, SetReviews(payload)) == s
    ensures payload != [] && payload[0].spotId == 0 ==> ReviewsReducer(s, SetReviews(payload)) == s
    ensures payload != [] && payload[0].spotId != 0 ==>
      var r := ReviewsReducer(s, SetReviews(payload));
      && r.reviewsBySpot.Keys == s.reviewsBySpot.Keys + {payload[0].spotId}
      && r.reviewsBySpot[payload[0].spotId] == payload
      && (forall k :: k in s.reviewsBySpot && k != payload[0].spotId ==> r.reviewsBySpot[k] == s.reviewsBySpot[k])
      && r.error == None
  {
  }

  /** ADD_REVIEW puts the review in front of its spot's list (an empty one
      if there was none), clears the error, and keeps the other spots. */
  lemma AddReviewPrepends(s: ReviewsState, review: ClientReview)
    ensures var r := ReviewsReducer(s, AddReview(review));
      && r.reviewsBySpot.Keys == s.reviewsBySpot.Keys + {review.spotId}
      && r.reviewsBySpot[review.spotId][0] == review
      && r.reviewsBySpot[review.spotId][1..] == ListOf(s.reviewsBySpot, review.spotId)
      && (forall k :: k in s.reviewsBySpot && k != review.spotId ==> r.reviewsBySpot[k] == s.reviewsBySpot[k])
      && r.error == None
  {
    var r := ReviewsReducer(s, AddReview(review));
    assert r.reviewsBySpot[review.spotId] == [review] + ListOf(s.reviewsBySpot, review.spotId);
  }

  /** DELETE_REVIEW keeps the state when no list holds the review. Otherwise
      it filters the review out of the list of the smallest spot id holding
      it, keeping the others in order (see `WithoutReviewAppend`), clears the
      error, and leaves every other list alone, even one that
      also holds a review with that id. */
  lemma DeleteReviewEffect(s: ReviewsState, reviewId: nat)
    ensures (forall k :: k in s.reviewsBySpot ==> !HasReview(s.reviewsBySpot[k], reviewId)) ==>
      ReviewsReducer(s, DeleteReview(reviewId)) == s
    ensures forall k ::
      (k in s.reviewsBySpot && HasReview(s.reviewsBySpot[k], reviewId) &&
       forall j :: j in s.reviewsBySpot && j < k ==> !HasReview(s.reviewsBySpot[j], reviewId)) ==>
      var r := ReviewsReducer(s, DeleteReview(reviewId));
      && r.reviewsBySpot.Keys == s.reviewsBySpot.Keys
      && r.reviewsBySpot[k] == WithoutReview(s.reviewsBySpot[k], reviewId)
      && (forall x :: x in r.reviewsBySpot[k] <==> x in s.reviewsBySpot[k] && x.id != reviewId)
      && (forall j :: j in s.reviewsBySpot && j != k ==> r.reviewsBySpot[j] == s.reviewsBySpot[j])
      && r.error == None
  {
    var m := s.reviewsBySpot;
    FirstSpotWithIsLeast(m, m.Keys, reviewId);
    var found := FirstSpotWith(m, m.Keys, reviewId);
    if found.Some? {
      forall k | k in m && HasReview(m[k], reviewId) && (forall j :: j in m && j < k ==> !HasReview(m[j], reviewId))
        ensures k == found.value
      {
      }
    }
  }

  /** SET_REVIEW_ERROR changes only `error`; any other action type keeps the
      state. */
  lemma ErrorAndUnknownActions(s: ReviewsState, e: Option<string>, tag: string)
    ensures ReviewsReducer(s, SetReviewError(e)) == ReviewsState(s.reviewsBySpot, e)
    ensures ReviewsReducer(s, Other(tag)) == s
  {
  }
}
