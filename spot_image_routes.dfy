/** The DELETE /:imageId handler of backend/routes/api/spot-images.js: the
    owner of the image's spot may delete it. No router mounts this file, and
    the models it includes declare no association from SpotImage to Spot, so
    as written the lookup throws before any check. The model is the handler
    under the schema the routes evidently assume, in which an image belongs
    to its spot. */
module SpotImageRoutes {
  import opened Wrappers
  import opened Tables
  import opened Entities
  import opened Store

  datatype DeleteImageError = ImageNotFound | NotSpotOwner | SpotGone

  function DeleteImageStatus(e: DeleteImageError): nat {
    match e
    case ImageNotFound => 404
    case NotSpotOwner => 403
    case SpotGone => 500
  }

  /** The image is loaded with its spot's owner. A missing image is a 404; an
      image whose spot row is gone has a null `Spot`, and reading its owner
      throws (a 500); anyone but the owner gets a 403. */
  function DeleteRefusal(spots: Table<Spot>, images: Table<SpotImage>, actor: nat, imageId: nat): Option<DeleteImageError> {
    match Find(images, imageId)
    case None => Some(ImageNotFound)
    case Some(img) =>
      match Find(spots, img.spotId)
      case None => Some(SpotGone)
      case Some(s) => if s.ownerId != actor then Some(NotSpotOwner) else None
  }

  /** A spot image is deleted exactly when it exists and the actor owns its
      spot. */
  lemma OwnerOnly(spots: Table<Spot>, images: Table<SpotImage>, actor: nat, imageId: nat)
    requires UniqueIds(spots) && UniqueIds(images)
    ensures DeleteRefusal(spots, images, actor, imageId) == None <==>
      exists img, s :: Row(imageId, img) in images && Row(img.spotId, s) in spots && s.ownerId == actor
    ensures !HasId(images, imageId) ==> DeleteRefusal(spots, images, actor, imageId) == Some(ImageNotFound)
  {
    if DeleteRefusal(spots, images, actor, imageId) == None {
      var img := Find(images, imageId).value;
      var s := Find(spots, img.spotId).value;
      assert Row(imageId, img) in images && Row(img.spotId, s) in spots;
    }
    forall img, s | Row(imageId, img) in images && Row(img.spotId, s) in spots
      ensures Find(images, imageId) == Some(img) && Find(spots, img.spotId) == Some(s)
    {
      FindExact(images, imageId, img);
      FindExact(spots, img.spotId, s);
    }
  }

  method DeleteSpotImage(db: Db, actor: nat, imageId: nat) returns (res: Result<(), DeleteImageError>)
    requires db.Valid()
    modifies db`spotImages
    ensures db.Valid()
    ensures match DeleteRefusal(db.spots, old(db.spotImages), actor, imageId)
      case Some(e) => res == Err(e) && db.spotImages == old(db.spotImages)
      case None =>
        && res == Ok(())
        && exists k :: 0 <= k < |old(db.spotImages)| && old(db.spotImages)[k].id == imageId &&
             db.spotImages == old(db.spotImages)[..k] + old(db.spotImages)[k + 1..]
  {
    var refusal := DeleteRefusal(db.spots, db.spotImages, actor, imageId);
    if refusal.Some? {
      return Err(refusal.value);
    }
    var k :| 0 <= k < |db.spotImages| && db.spotImages[k].id == imageId;
    RemoveAt(db.spotImages, k);
    RemoveUnique(db.spotImages, imageId);
    db.spotImages := Remove(db.spotImages, imageId);
    res := Ok(());
  }
}
