/** The validation of the generic `Image` model: a non-null, non-empty url,
    and exactly one parent, a spot or a review. Sequelize runs the attribute
    validators and the model validators together and reports every failure,
    so validation yields the set of failures. */
module ImageModel {
  import opened Wrappers

  /** The fields the validators read; a column left unset is None. */
  datatype ImageRecord = ImageRecord(url: Option<string>, spotId: Option<int>, reviewId: Option<int>)

  datatype ImageError = UrlNull | UrlEmpty | NoParent | BothParents

  /** A foreign key in a JavaScript condition: null and 0 are falsy. */
  predicate Truthy(key: Option<int>) {
    key.Some? && key.value != 0
  }

  /** `allowNull: false` and `notEmpty` on url, then `eitherSpotOrReview`
      and `handleSpotAndReview`. */
  function ValidateImage(img: ImageRecord): set<ImageError> {
    (if img.url.None? then {UrlNull} else {})
    + (if img.url.Some? && img.url.value == "" then {UrlEmpty} else {})
    + (if !Truthy(img.spotId) && !Truthy(img.reviewId) then {NoParent} else {})
    + (if Truthy(img.spotId) && Truthy(img.reviewId) then {BothParents} else {})
  }

  /** An image passes exactly when it has a non-empty url and exactly one
      parent id. */
  lemma ImageValidIff(img: ImageRecord)
    ensures ValidateImage(img) == {} <==>
      img.url.Some? && img.url.value != "" && (Truthy(img.spotId) != Truthy(img.reviewId))
  {
    if ValidateImage(img) == {} {
      assert UrlNull !in ValidateImage(img) && UrlEmpty !in ValidateImage(img);
      assert NoParent !in ValidateImage(img) && BothParents !in ValidateImage(img);
    }
  }

  /** Each validator rejects exactly its own case, and the two parent
      validators never fire together. */
  lemma ParentValidators(img: ImageRecord)
    ensures NoParent in ValidateImage(img) <==> !Truthy(img.spotId) && !Truthy(img.reviewId)
    ensures BothParents in ValidateImage(img) <==> Truthy(img.spotId) && Truthy(img.reviewId)
    ensures !(NoParent in ValidateImage(img) && BothParents in ValidateImage(img))
    ensures UrlEmpty in ValidateImage(img) <==> img.url == Some("")
  {
  }

  /** A parent id of 0 is falsy, so it counts as no parent at all. */
  lemma ZeroIdIsNoParent(url: string)
    ensures NoParent in ValidateImage(ImageRecord(Some(url), Some(0), None))
    ensures ValidateImage(ImageRecord(Some("a.png"), Some(0), Some(4))) == {}
  {
    assert ValidateImage(ImageRecord(Some("a.png"), Some(0), Some(4))) == {} by {
      var img := ImageRecord(Some("a.png"), Some(0), Some(4));
      assert !Truthy(img.spotId) && Truthy(img.reviewId);
      assert img.url.value != "";
    }
  }
}
