/**
 * What the two servers' handlers have in common: the shape of a reply, the
 * public animal routes (listing and lookup by id), the newsletter route, and
 * how the admin create and update routes turn a request into the values they
 * hand to the Animal model.
 */
module Routes {
  import opened JsValues
  import opened ObjectIds
  import opened AnimalModel
  import opened Documents

  /**
   * An HTTP reply: a JSON body with a status, an `{ error: message }` body with
   * a status, or no reply at all because the handler's promise was rejected
   * outside any `try`.
   */
  datatype Reply<T> = Json(status: nat, body: T) | Error(status: nat, message: string) | Unhandled

  /** The `type` query filter: no filter at all unless the query value is truthy. */
  predicate MatchesType(q: Field, a: Animal) {
    !Truthy(q) || a.kind == Some(q.s)
  }

  function CreatedAt(a: Animal): nat {
    a.createdAt
  }

  /**
   * `GET /api/animals`: the animals that pass the type filter, newest first;
   * each once when every animal is stored under its own id.
   */
  function Listing(animals: map<ObjectId, Animal>, clock: nat, q: Field): (r: seq<Animal>)
    ensures forall a :: a in r ==> a in animals.Values && MatchesType(q, a)
    ensures forall id :: id in animals && id.n < clock && MatchesType(q, animals[id]) ==> animals[id] in r
    ensures NewestFirst(r, CreatedAt)
    ensures (forall id :: id in animals ==> animals[id].id == id) ==> Distinct(r)
  {
    var selected := Select(IdsBelow(animals, clock), animals, a => MatchesType(q, a));
    var r := SortNewestFirst(selected, CreatedAt);
    assert (forall id :: id in animals ==> animals[id].id == id) ==> Distinct(r) by {
      if forall id :: id in animals ==> animals[id].id == id {
        assert Injective(animals);
        DistinctPermutation(selected, r);
      }
    }
    assert forall a :: a in r <==> a in selected by {
      forall a ensures a in r <==> a in selected {
        assert a in r <==> a in multiset(r);
        assert a in selected <==> a in multiset(selected);
      }
    }
    r
  }

  /** When every animal is stored under its own id, each stored match is listed exactly once. */
  lemma ListedOnce(animals: map<ObjectId, Animal>, clock: nat, q: Field, id: ObjectId)
    requires forall k :: k in animals ==> animals[k].id == k
    requires id in animals && id.n < clock && MatchesType(q, animals[id])
    ensures multiset(Listing(animals, clock, q))[animals[id]] == 1
  {
    var r := Listing(animals, clock, q);
    DistinctCount(r, animals[id]);
    assert animals[id] in multiset(r);
  }

  /** Without a truthy type query, every animal is listed. */
  lemma ListingUnfiltered(animals: map<ObjectId, Animal>, clock: nat, q: Field, id: ObjectId)
    requires !Truthy(q) && id in animals && id.n < clock
    ensures animals[id] in Listing(animals, clock, q)
  {
  }

  /** With a type query, an animal of another type (or of no type) is never listed. */
  lemma ListingExcludesOtherTypes(animals: map<ObjectId, Animal>, clock: nat, q: Field, a: Animal)
    requires Truthy(q) && a.kind != Some(q.s)
    ensures a !in Listing(animals, clock, q)
  {
  }

  /**
   * `GET /api/animals/:id`: 400 when the id does not cast to an ObjectId,
   * 404 when no animal has it, the animal otherwise.
   */
  function GetAnimal(animals: map<ObjectId, Animal>, id: string): (r: Reply<Animal>)
    ensures r == Error(400, "invalid id") <==> !IsObjectIdString(id)
    ensures r == Error(404, "not found") <==> IsObjectIdString(id) && ParseObjectId(id).value !in animals
    ensures r.Json? <==> IsObjectIdString(id) && ParseObjectId(id).value in animals
    ensures r.Json? ==> r.status == 200 && r.body == animals[ParseObjectId(id).value]
    ensures !r.Unhandled?
  {
    match ParseObjectId(id)
    case None => Error(400, "invalid id")
    case Some(key) => if key in animals then Json(200, animals[key]) else Error(404, "not found")
  }

  /** An id looked up by its printed form, in either letter case, finds the stored animal. */
  lemma GetAnimalByPrintedId(animals: map<ObjectId, Animal>, key: ObjectId, s: string)
    requires key in animals && Representable(key)
    requires IsObjectIdString(s) && Lower(s) == ObjectIdString(key)
    ensures GetAnimal(animals, s) == Json(200, animals[key])
  {
    ParsePrinted(key);
    PrintParsed(s);
    SameIdIffSameLowercase(s, ObjectIdString(key));
  }

  /** `POST /api/newsletter`: 400 without a truthy email, `{ ok: true }` otherwise; nothing is stored. */
  function Newsletter(email: Field): (r: Reply<()>)
    ensures r.Json? <==> Truthy(email)
    ensures r.Json? ==> r.status == 200
    ensures r.Error? ==> r == Error(400, "missing email")
    ensures !r.Unhandled?
  {
    if Truthy(email) then Json(200, ()) else Error(400, "missing email")
  }

  /** Where an uploaded photo is served from. */
  function UploadPath(filename: string): (p: string)
    ensures |p| == 9 + |filename| && p[..9] == "/uploads/" && p[9..] == filename
  {
    "/uploads/" + filename
  }

  /** A body value as `Animal.create` receives it: a string, or unset. */
  function FormValue(f: Field): (v: Option<string>)
    ensures v.Some? <==> f.Text?
    ensures v.Some? ==> v.value == f.s
  {
    if f.Text? then Some(f.s) else None
  }

  /**
   * The create payload built from the body: each schema path copied, and the
   * photo taken from the upload when there is one and from the body otherwise.
   */
  function CreateForm(body: AnimalPatch, upload: Option<string>): (form: AnimalForm)
    ensures upload.Some? ==> form.photo == Some(UploadPath(upload.value))
    ensures upload.None? ==> form.photo == FormValue(body.photo)
    ensures form.name == FormValue(body.name) && form.kind == FormValue(body.kind)
    ensures form.breed == FormValue(body.breed) && form.age == FormValue(body.age)
    ensures form.size == FormValue(body.size) && form.description == FormValue(body.description)
  {
    AnimalForm(FormValue(body.name), FormValue(body.kind), FormValue(body.breed), FormValue(body.age),
      FormValue(body.size), FormValue(body.description),
      if upload.Some? then Some(UploadPath(upload.value)) else FormValue(body.photo))
  }

  /** The update: `{ ...req.body }`, with the photo path replaced when a file was uploaded. */
  function UpdatePatch(body: AnimalPatch, upload: Option<string>): (p: AnimalPatch)
    ensures upload.Some? ==> p.photo == Text(UploadPath(upload.value))
    ensures upload.None? ==> p == body
    ensures p.(photo := body.photo) == body
  {
    if upload.Some? then body.(photo := Text(UploadPath(upload.value))) else body
  }
}
