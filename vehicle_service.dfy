/** The vehicle service: ownership and existence checks before a change, the rule that keeps or
    replaces a vehicle's images, and the image-free listing. */
module VehicleService {
  import opened Common
  import opened Docs

  const VehicleNotFound := AppError(404, "Vehicle not found.")
  const NotYourVehicle := AppError(401, "You can only make changes to your vehicle!")

  /** `checkCanChangeVehicle(vehicle, userId)`: only the owner may change a vehicle. */
  function CheckCanChangeVehicle(vehicle: Doc, userId: Value): (r: Result<bool>)
    ensures r.Ok? <==> Get(vehicle, "userId").Str? && Get(vehicle, "userId") == userId
    ensures r.Ok? ==> r.value
    ensures r.Err? ==> r.error == NotYourVehicle || (r.error == RuntimeError && !Get(vehicle, "userId").Str?)
  {
    match SameId(Get(vehicle, "userId"), userId)
    case Err(e) => Err(e)
    case Ok(same) => if same then Ok(true) else Err(NotYourVehicle)
  }

  /** `getVehicle(vehicleData)`: the first vehicle with the searched values, or 404. */
  function GetVehicle(vehicles: seq<Doc>, search: Doc): (r: Result<Doc>)
    ensures r.Ok? ==> r.value in vehicles && Matches(r.value, search)
    ensures r.Err? <==> forall j :: 0 <= j < |vehicles| ==> !Matches(vehicles[j], search)
    ensures r.Err? ==> r.error == VehicleNotFound
  {
    match FindOne(vehicles, search)
    case None => Err(VehicleNotFound)
    case Some(v) => Ok(v)
  }

  /** `getAllUserVehicles(vehicleData)`: every vehicle with the searched values. `find` returns an
      array, and every array is truthy, even an empty one, so the 404 "Vehicles not found." branch is
      never taken. */
  function GetAllUserVehicles(vehicles: seq<Doc>, search: Doc): (r: Result<seq<Doc>>)
    ensures r.Ok?
    ensures forall j :: 0 <= j < |r.value| ==> r.value[j] in vehicles && Matches(r.value[j], search)
    ensures forall j :: 0 <= j < |vehicles| && Matches(vehicles[j], search) ==> vehicles[j] in r.value
  {
    Ok(FindAll(vehicles, search))
  }

  /** The data `updateVehicle` writes: the image keys first, then the request body, so a body field
      `images` wins. New keys are used only when files were uploaded; otherwise the vehicle keeps its
      images. */
  function UpdateData(vehicle: Doc, body: Doc, fileCount: nat, uploadedKeys: seq<Value>): Doc
  {
    var imageKeys := if fileCount > 0 then Arr(uploadedKeys) else Get(vehicle, "images");
    map["images" := imageKeys] + body
  }

  /** What `updateVehicle(req)` does to the vehicle collection and what it returns: 404 for an unknown
      id, then the owner check, and only then the field-by-field update of the first vehicle with
      that id. */
  function UpdateVehicleFlow(vehicles: seq<Doc>, id: Value, body: Doc, fileCount: nat, uploadedKeys: seq<Value>)
    : (seq<Doc>, Result<Doc>)
  {
    var i := FindIndex(vehicles, ById(id));
    if i < 0 then (vehicles, Err(VehicleNotFound))
    else match CheckCanChangeVehicle(vehicles[i], Get(body, "userId"))
      case Err(e) => (vehicles, Err(e))
      case Ok(_) =>
        var updated := AssignFields(vehicles[i], UpdateData(vehicles[i], body, fileCount, uploadedKeys));
        (vehicles[i := updated], Ok(updated))
  }

  /** What `deleteVehicle(req)` does to the vehicle collection: 404, then the owner check, then
      `findByIdAndDelete`. */
  function DeleteVehicleFlow(vehicles: seq<Doc>, id: Value, userId: Value): (seq<Doc>, Result<()>)
  {
    var i := FindIndex(vehicles, ById(id));
    if i < 0 then (vehicles, Err(VehicleNotFound))
    else match CheckCanChangeVehicle(vehicles[i], userId)
      case Err(e) => (vehicles, Err(e))
      case Ok(_) => (DeleteById(vehicles, id), Ok(()))
  }

  /** `updateVehicle(req)`; the vehicle is loaded, its fields are assigned one by one and it is
      saved. */
  method UpdateVehicle(db: Database, id: Value, body: Doc, fileCount: nat, uploadedKeys: seq<Value>)
    returns (r: Result<Doc>)
    modifies db`vehicles
    ensures (db.vehicles, r) == UpdateVehicleFlow(old(db.vehicles), id, body, fileCount, uploadedKeys)
  {
    var vehicle := FindOne(db.vehicles, ById(id));
    if vehicle.None? {
      return Err(VehicleNotFound);
    }
    var i := FindIndex(db.vehicles, ById(id));
    var check := CheckCanChangeVehicle(vehicle.value, Get(body, "userId"));
    if check.Err? {
      return Err(check.error);
    }
    var updated := CopyFields(db.vehicles[i], UpdateData(vehicle.value, body, fileCount, uploadedKeys));
    db.vehicles := db.vehicles[i := updated];
    r := Ok(updated);
  }

  /** `deleteVehicle(req)`. */
  method DeleteVehicle(db: Database, id: Value, userId: Value) returns (r: Result<()>)
    modifies db`vehicles
    ensures (db.vehicles, r) == DeleteVehicleFlow(old(db.vehicles), id, userId)
  {
    var vehicle := FindOne(db.vehicles, ById(id));
    if vehicle.None? {
      return Err(VehicleNotFound);
    }
    var check := CheckCanChangeVehicle(vehicle.value, userId);
    if check.Err? {
      return Err(check.error);
    }
    db.vehicles := DeleteById(db.vehicles, id);
    r := Ok(());
  }

  /** Existence is checked before ownership, and nothing is written unless both checks pass. */
  lemma ChangesOnlyByOwner(vehicles: seq<Doc>, id: Value, body: Doc, fileCount: nat, uploadedKeys: seq<Value>, userId: Value)
    ensures var (after, r) := UpdateVehicleFlow(vehicles, id, body, fileCount, uploadedKeys);
      var i := FindIndex(vehicles, ById(id));
      && (i < 0 <==> r == Err(VehicleNotFound))
      && (r.Err? ==> after == vehicles)
      && (r.Ok? ==> Get(vehicles[i], "userId").Str? && Get(vehicles[i], "userId") == Get(body, "userId"))
    ensures var (after, r) := DeleteVehicleFlow(vehicles, id, userId);
      var i := FindIndex(vehicles, ById(id));
      && (i < 0 <==> r == Err(VehicleNotFound))
      && (r.Err? ==> after == vehicles)
      && (r.Ok? ==> Get(vehicles[i], "userId").Str? && Get(vehicles[i], "userId") == userId)
  {
  }

  /** After an update the images are the body's `images` if it has one, else the uploaded keys when
      files were sent, else the old images; every other body field is written and every field the
      body does not name is kept. */
  lemma UpdatedImages(vehicles: seq<Doc>, id: Value, body: Doc, fileCount: nat, uploadedKeys: seq<Value>)
    ensures var (after, r) := UpdateVehicleFlow(vehicles, id, body, fileCount, uploadedKeys);
      var i := FindIndex(vehicles, ById(id));
      r.Ok? ==>
        && after == vehicles[i := r.value]
        && Get(r.value, "images") ==
             (if "images" in body then body["images"]
              else if fileCount > 0 then Arr(uploadedKeys)
              else Get(vehicles[i], "images"))
        && (forall f :: f in body ==> Get(r.value, f) == body[f])
        && (forall f :: f !in body && f != "images" ==> Get(r.value, f) == Get(vehicles[i], f))
  {
  }

  /** The listing `getVehiclesWithoutImages` sends for one vehicle. */
  function Summary(v: Doc): (r: Doc)
    ensures r.Keys == {"vehicleId", "brand", "carModel", "year"}
    ensures r["vehicleId"] == IdOf(v) && r["brand"] == Get(v, "brand")
    ensures r["carModel"] == Get(v, "carModel") && r["year"] == Get(v, "year")
  {
    map["vehicleId" := IdOf(v), "brand" := Get(v, "brand"), "carModel" := Get(v, "carModel"), "year" := Get(v, "year")]
  }

  /** `getVehiclesWithoutImages(vehicles)`: the same vehicles in the same order, each reduced to its
      id, brand, model and year. */
  function GetVehiclesWithoutImages(vehicles: seq<Doc>): (r: seq<Doc>)
    ensures |r| == |vehicles|
    ensures forall k :: 0 <= k < |r| ==> r[k] == Summary(vehicles[k])
    ensures forall k :: 0 <= k < |r| ==> "images" !in r[k]
  {
    seq(|vehicles|, k requires 0 <= k < |vehicles| => Summary(vehicles[k]))
  }
}
