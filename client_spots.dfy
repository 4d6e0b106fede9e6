/** The client's spots slice: `spotsReducer`, its `_normalizeSpots` helper,
    the preview flags `addSpot` sends with each uploaded image, and the
    action `deleteSpot` dispatches after a successful delete. Object keys
    are spot ids; a missing id (JavaScript `undefined`) is None. */
module ClientSpots {
  import opened Wrappers

  datatype ImageRef = ImageRef(id: nat, url: string, preview: bool)

  /** A spot object as the client stores it: its id, its other fields, and
      an `images` array it may lack. */
  datatype ClientSpot = ClientSpot(id: Option<nat>, fields: map<string, string>, images: Option<seq<ImageRef>>)

  datatype ReviewRef = ReviewRef(id: nat, fields: map<string, string>)

  /** `spotDetails`: the fetched fields and the `Reviews` array, if set. */
  datatype Details = Details(fields: map<string, string>, reviews: Option<seq<ReviewRef>>)

  datatype SpotsState = SpotsState(
    byId: map<Option<nat>, ClientSpot>,
    allSpots: seq<ClientSpot>,
    spotDetails: Option<Details>)

  const InitialState := SpotsState(map[], [], None)

  /** The payload of ADD_SPOT_IMAGE: the created image, with its spot id. */
  datatype ImagePayload = ImagePayload(id: nat, spotId: Option<nat>, url: string, preview: bool)

  /** SET_SPOTS, SET_SPOT_DETAILS, SET_SPOT_REVIEWS, ADD_SPOT, ADD_SPOT_IMAGE,
      DELETE_SPOT, and any other action type. */
  datatype SpotsAction =
    | SetSpots(spots: seq<ClientSpot>)
    | SetSpotDetails(details: Option<Details>)
    | SetSpotReviews(reviews: seq<ReviewRef>)
    | AddSpot(spot: ClientSpot)
    | AddSpotImage(image: ImagePayload)
    | DeleteSpot(spotId: Option<nat>)
    | Other(tag: string)

  // ---------------------------------------------------------------------
  // _normalizeSpots

  /** The `byId` object that `_normalizeSpots` builds: each spot written
      under its id in turn, so a later spot overwrites an earlier one. */
  function ById(spots: seq<ClientSpot>): map<Option<nat>, ClientSpot> {
    if spots == [] then map[]
    else ById(spots[..|spots| - 1])[spots[|spots| - 1].id := spots[|spots| - 1]]
  }

  /** The forEach of `_normalizeSpots`: `allSpots` is the input in order. */
  method NormalizeSpots(spots: seq<ClientSpot>) returns (byId: map<Option<nat>, ClientSpot>, allSpots: seq<ClientSpot>)
    ensures byId == ById(spots) && allSpots == spots
  {
    byId := map[];
    allSpots := [];
    for i := 0 to |spots|
      invariant byId == ById(spots[..i]) && allSpots == spots[..i]
    {
      assert spots[..i + 1][..i] == spots[..i];
      byId := byId[spots[i].id := spots[i]];
      allSpots := allSpots + [spots[i]];
    }
    assert spots[..|spots|] == spots;
  }

  /** `byId` has a key for exactly the ids that occur. */
  lemma {:induction false} ByIdKeys(spots: seq<ClientSpot>, k: Option<nat>)
    ensures k in ById(spots) <==> exists i :: 0 <= i < |spots| && spots[i].id == k
  {
    if spots != [] {
      var init := spots[..|spots| - 1];
      ByIdKeys(init, k);
      assert forall i :: 0 <= i < |init| ==> init[i] == spots[i];
      if k in ById(spots) && k != spots[|spots| - 1].id {
        var i :| 0 <= i < |init| && init[i].id == k;
        assert spots[i].id == k;
      }
    }
  }

  /** Under each id `byId` holds the last spot with that id. */
  lemma {:induction false} ByIdLastWins(spots: seq<ClientSpot>, j: nat)
    requires j < |spots|
    requires forall i :: j < i < |spots| ==> spots[i].id != spots[j].id
    ensures spots[j].id in ById(spots) && ById(spots)[spots[j].id] == spots[j]
  {
    if j < |spots| - 1 {
      var init := spots[..|spots| - 1];
      assert forall i :: 0 <= i < |init| ==> init[i] == spots[i];
      ByIdLastWins(init, j);
    }
  }

  // ---------------------------------------------------------------------
  // The reducer

  function ImagesOf(spot: ClientSpot): seq<ImageRef> {
    spot.images.GetOr([])
  }

  /** `{ ...spot, images: [...(spot.images || []), image] }` */
  function WithImage(spot: ClientSpot, img: ImageRef): (r: ClientSpot)
    ensures r.id == spot.id && r.fields == spot.fields && r.images == Some(ImagesOf(spot) + [img])
  {
    spot.(images := Some(ImagesOf(spot) + [img]))
  }

  /** The `allSpots.map` of ADD_SPOT_IMAGE. */
  function AttachImage(spots: seq<ClientSpot>, spotId: Option<nat>, img: ImageRef): (r: seq<ClientSpot>)
    ensures |r| == |spots|
    ensures forall i :: 0 <= i < |spots| ==> r[i] == if spots[i].id == spotId then WithImage(spots[i], img) else spots[i]
  {
    if spots == [] then []
    else [if spots[0].id == spotId then WithImage(spots[0], img) else spots[0]] + AttachImage(spots[1..], spotId, img)
  }

  /** The `allSpots.filter` of DELETE_SPOT: the same order-keeping filter on
      id as the reviews slice's `WithoutReview`, here over spots. */
  function WithoutSpot(spots: seq<ClientSpot>, spotId: Option<nat>): (r: seq<ClientSpot>)
    ensures |r| <= |spots|
    ensures forall x :: x in r <==> x in spots && x.id != spotId
  {
    if spots == [] then []
    else if spots[0].id == spotId then WithoutSpot(spots[1..], spotId)
    else [spots[0]] + WithoutSpot(spots[1..], spotId)
  }

  function SpotsReducer(s: SpotsState, a: SpotsAction): SpotsState {
    match a
    case SetSpots(spots) => s.(byId := ById(spots), allSpots := spots)
    case SetSpotDetails(d) => s.(spotDetails := Some(d.GetOr(Details(map[], None))))
    case SetSpotReviews(rs) =>
      var base := s.spotDetails.GetOr(Details(map[], None));
      s.(spotDetails := Some(base.(reviews := Some(rs))))
    case AddSpot(spot) => s.(byId := s.byId + ById([spot]), allSpots := s.allSpots + [spot])
    case AddSpotImage(p) =>
      var img := ImageRef(p.id, p.url, p.preview);
      var base := if p.spotId in s.byId then s.byId[p.spotId] else ClientSpot(None, map[], None);
      s.(byId := s.byId[p.spotId := WithImage(base, img)], allSpots := AttachImage(s.allSpots, p.spotId, img))
    case DeleteSpot(spotId) => s.(byId := s.byId - {spotId}, allSpots := WithoutSpot(s.allSpots, spotId))
    case Other(_) => s
  }

  /** SET_SPOTS replaces `byId` and `allSpots` by the normalised payload and
      keeps `spotDetails`. */
  lemma SetSpotsReplaces(s: SpotsState, spots: seq<ClientSpot>)
    ensures SpotsReducer(s, SetSpots(spots)).allSpots == spots
    ensures forall k :: k in SpotsReducer(s, SetSpots(spots)).byId <==> exists i :: 0 <= i < |spots| && spots[i].id == k
    ensures SpotsReducer(s, SetSpots(spots)).spotDetails == s.spotDetails
  {
    forall k ensures k in ById(spots) <==> exists i :: 0 <= i < |spots| && spots[i].id == k {
      ByIdKeys(spots, k);
    }
  }

  /** ADD_SPOT writes the spot under its id, keeps every other entry, and
      appends it to `allSpots`. */
  lemma AddSpotMerges(s: SpotsState, spot: ClientSpot)
    ensures SpotsReducer(s, AddSpot(spot)).byId == s.byId[spot.id := spot]
    ensures SpotsReducer(s, AddSpot(spot)).allSpots == s.allSpots + [spot]
    ensures SpotsReducer(s, AddSpot(spot)).spotDetails == s.spotDetails
  {
    assert [spot][..0] == [];
    assert ById([spot]) == map[spot.id := spot];
  }

  /** ADD_SPOT_IMAGE appends the image to the spot under `spotId` (creating
      the entry if absent) and to every spot in `allSpots` with that id; all
      other entries and spots stay as they were. */
  lemma AddSpotImageAppends(s: SpotsState, p: ImagePayload)
    ensures var r, img := SpotsReducer(s, AddSpotImage(p)), ImageRef(p.id, p.url, p.preview);
      && r.byId.Keys == s.byId.Keys + {p.spotId}
      && ImagesOf(r.byId[p.spotId]) == (if p.spotId in s.byId then ImagesOf(s.byId[p.spotId]) else []) + [img]
      && (p.spotId in s.byId ==> r.byId[p.spotId] == s.byId[p.spotId].(images := Some(ImagesOf(s.byId[p.spotId]) + [img])))
      && (forall k :: k in s.byId && k != p.spotId ==> r.byId[k] == s.byId[k])
      && |r.allSpots| == |s.allSpots|
      && (forall i :: 0 <= i < |s.allSpots| && s.allSpots[i].id == p.spotId ==>
            r.allSpots[i].fields == s.allSpots[i].fields &&
            ImagesOf(r.allSpots[i]) == ImagesOf(s.allSpots[i]) + [img])
      && (forall i :: 0 <= i < |s.allSpots| && s.allSpots[i].id != p.spotId ==> r.allSpots[i] == s.allSpots[i])
      && r.spotDetails == s.spotDetails
  {
  }

  /** DELETE_SPOT drops the key and every spot with that id, keeping the
      other spots in their order (see `WithoutSpotAppend`), and leaves
      `spotDetails` alone. */
  lemma DeleteSpotRemoves(s: SpotsState, spotId: Option<nat>)
    ensures var r := SpotsReducer(s, DeleteSpot(spotId));
      && r.byId.Keys == s.byId.Keys - {spotId}
      && (forall k :: k in r.byId ==> r.byId[k] == s.byId[k])
      && r.allSpots == WithoutSpot(s.allSpots, spotId)
      && (forall x :: x in r.allSpots <==> x in s.allSpots && x.id != spotId)
      && r.spotDetails == s.spotDetails
  {
  }

  /** `filter` keeps order: filtering a concatenation filters each part. */
  lemma {:induction false} WithoutSpotAppend(a: seq<ClientSpot>, b: seq<ClientSpot>, spotId: Option<nat>)
    ensures WithoutSpot(a + b, spotId) == WithoutSpot(a, spotId) + WithoutSpot(b, spotId)
  {
    if a == [] {
      assert a + b == b;
    } else {
      assert (a + b)[0] == a[0] && (a + b)[1..] == a[1..] + b;
      WithoutSpotAppend(a[1..], b, spotId);
    }
  }

  /** Filtering out an id no spot has keeps the list as it is. */
  lemma {:induction false} WithoutAbsentSpot(spots: seq<ClientSpot>, spotId: Option<nat>)
    requires forall i :: 0 <= i < |spots| ==> spots[i].id != spotId
    ensures WithoutSpot(spots, spotId) == spots
  {
    if spots != [] {
      WithoutAbsentSpot(spots[1..], spotId);
      assert [spots[0]] + spots[1..] == spots;
    }
  }

  /** SET_SPOT_DETAILS stores `{}` for a null payload; SET_SPOT_REVIEWS
      replaces only `Reviews`, keeping the other detail fields. */
  lemma DetailsActions(s: SpotsState, d: Option<Details>, rs: seq<ReviewRef>)
    ensures SpotsReducer(s, SetSpotDetails(None)).spotDetails == Some(Details(map[], None))
    ensures SpotsReducer(s, SetSpotDetails(d)).byId == s.byId && SpotsReducer(s, SetSpotDetails(d)).allSpots == s.allSpots
    ensures var r := SpotsReducer(s, SetSpotReviews(rs));
      && r.byId == s.byId && r.allSpots == s.allSpots
      && r.spotDetails.Some? && r.spotDetails.value.reviews == Some(rs)
      && r.spotDetails.value.fields == (if s.spotDetails.Some? then s.spotDetails.value.fields else map[])
  {
  }

  /** An action of any other type returns the state itself. */
  lemma UnknownActionUnchanged(s: SpotsState, tag: string)
    ensures SpotsReducer(s, Other(tag)) == s
  {
  }

  // ---------------------------------------------------------------------
  // The thunks' pure parts

  /** The body `addSpot` posts for each image url. */
  datatype ImageDetails = ImageDetails(url: string, spotId: nat, preview: bool)

  /** The loop of `addSpot`: an image is flagged as preview exactly when its
      url equals the first url, so the first image always is, and so is any
      later repeat of the first url. */
  method ImageUploads(imageUrls: seq<string>, spotId: nat) returns (details: seq<ImageDetails>)
    ensures |details| == |imageUrls|
    ensures forall i :: 0 <= i < |details| ==>
      details[i].url == imageUrls[i] && details[i].spotId == spotId &&
      (details[i].preview <==> imageUrls[i] == imageUrls[0])
    ensures |details| > 0 ==> details[0].preview
  {
    details := [];
    for i := 0 to |imageUrls|
      invariant |details| == i
      invariant forall k :: 0 <= k < i ==>
        details[k] == ImageDetails(imageUrls[k], spotId, imageUrls[k] == imageUrls[0])
    {
      details := details + [ImageDetails(imageUrls[i], spotId, imageUrls[i] == imageUrls[0])];
    }
  }

  /** What `deleteSpot` dispatches once the server answers its DELETE: as
      written, `deleteSpotAction()` with no id. */
  function DeleteDispatchAsWritten(spotId: nat, ok: bool): Option<SpotsAction> {
    if ok then Some(DeleteSpot(None)) else None
  }

  /** The evidently intended dispatch: the deleted spot's id. */
  function DeleteDispatch(spotId: nat, ok: bool): Option<SpotsAction> {
    if ok then Some(DeleteSpot(Some(spotId))) else None
  }

  function Dispatched(s: SpotsState, a: Option<SpotsAction>): SpotsState {
    match a
    case None => s
    case Some(action) => SpotsReducer(s, action)
  }

  /** After a successful delete, the action as written leaves a state whose
      spots all carry ids exactly as it was, deleted spot included; the
      intended one removes the spot from `byId` and `allSpots`. */
  lemma DeleteDispatchKeepsSpot(s: SpotsState, spotId: nat)
    requires None !in s.byId
    requires forall i :: 0 <= i < |s.allSpots| ==> s.allSpots[i].id.Some?
    ensures Dispatched(s, DeleteDispatchAsWritten(spotId, true)) == s
    ensures var r := Dispatched(s, DeleteDispatch(spotId, true));
      Some(spotId) !in r.byId && forall i :: 0 <= i < |r.allSpots| ==> r.allSpots[i].id != Some(spotId)
  {
    WithoutAbsentSpot(s.allSpots, None);
    assert s.byId - {None} == s.byId;
    var r := Dispatched(s, DeleteDispatch(spotId, true));
    forall i | 0 <= i < |r.allSpots| ensures r.allSpots[i].id != Some(spotId) {
      assert r.allSpots[i] in r.allSpots;
    }
  }
}
