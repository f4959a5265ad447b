/**
 * The older server in `Pet-adopt/`: animals only, an admin secret read from
 * the environment with no default, a one-way "mark adopted" route, and an
 * apply route that only checks its fields. Listing, lookup by id and the
 * newsletter are the shared routes of module Routes.
 */
module LegacyServer {
  import opened JsValues
  import opened ObjectIds
  import opened AnimalModel
  import opened Routes
  import Server

  /**
   * The admin gate of the older server: the header secret, or the body secret
   * when the header is empty, must equal the `ADMIN_SECRET` environment
   * variable itself. With the variable unset, it is compared with `undefined`.
   */
  function LegacyAuthorized(env: Option<string>, header: Field, bodySecret: Field): (ok: bool)
    ensures env.None? ==> (ok <==> !Truthy(header) && bodySecret == Missing)
    ensures env.Some? && Truthy(header) ==> (ok <==> header.s == env.value)
    ensures env.Some? && !Truthy(header) ==> (ok <==> bodySecret == Text(env.value))
  {
    match env
    case None => Or(header, bodySecret) == Missing
    case Some(e) => Or(header, bodySecret) == Text(e)
  }

  /** With the variable unset, a request that carries no secret at all is let through. */
  lemma UnsetSecretAdmitsAnyone()
    ensures LegacyAuthorized(None, Missing, Missing)
  {
  }

  /** With the variable set to a non-empty value, the gate is the main server's. */
  lemma SetSecretAsMainServer(e: string, header: Field, bodySecret: Field)
    requires e != ""
    ensures LegacyAuthorized(Some(e), header, bodySecret) == Server.Authorized(e, header, bodySecret)
  {
  }

  /** `findByIdAndUpdate(id, { adopted: true })` on a found animal. */
  function Marked(a: Animal): (m: Animal)
    ensures m.adopted == Some(true)
    ensures m.(adopted := a.adopted) == a
  {
    a.(adopted := Some(true))
  }

  /** Marking is idempotent. */
  lemma MarkIdempotent(a: Animal)
    ensures Marked(Marked(a)) == Marked(a)
  {
  }

  /** `POST /api/apply`: 400 unless the animal id, name and email are all truthy; nothing is stored. */
  function LegacyApply(animalId: Field, name: Field, email: Field): (r: Reply<()>)
    ensures r.Json? <==> Truthy(animalId) && Truthy(name) && Truthy(email)
    ensures r.Json? ==> r.status == 200
    ensures r.Error? ==> r == Error(400, "missing fields")
    ensures !r.Unhandled?
  {
    if Truthy(animalId) && Truthy(name) && Truthy(email) then Json(200, ()) else Error(400, "missing fields")
  }

  class LegacyStore {
    const envSecret: Option<string>
    var animals: map<ObjectId, Animal>
    var clock: nat

    ghost predicate Valid()
      reads this
    {
      Server.AnimalsStored(animals, clock)
    }

    constructor (env: Option<string>)
      ensures Valid()
      ensures envSecret == env && animals == map[] && clock == 0
    {
      envSecret := env;
      animals := map[];
      clock := 0;
    }

    /** `POST /api/admin/animals`. A rejected `Animal.create` leaves the request unanswered. */
    method AddAnimal(header: Field, bodySecret: Field, body: AnimalPatch, upload: Option<string>) returns (reply: Reply<Animal>)
      requires Valid()
      modifies this
      ensures Valid()
      ensures !reply.Json? ==> animals == old(animals) && clock == old(clock)
      ensures !LegacyAuthorized(envSecret, header, bodySecret) ==> reply == Error(401, "unauthorized")
      ensures LegacyAuthorized(envSecret, header, bodySecret) ==>
        var made := CreateAnimal(CreateForm(body, upload), ObjectId(old(clock)), old(clock));
        if made.None? then reply.Unhandled?
        else (reply == Json(200, made.value) && ObjectId(old(clock)) !in old(animals)
          && animals == old(animals)[ObjectId(old(clock)) := made.value] && clock == old(clock) + 1)
    {
      if !LegacyAuthorized(envSecret, header, bodySecret) {
        return Error(401, "unauthorized");
      }
      var made := CreateAnimal(CreateForm(body, upload), ObjectId(clock), clock);
      if made.None? {
        return Unhandled;
      }
      Server.AnimalAdded(animals, clock, made.value);
      animals := animals[ObjectId(clock) := made.value];
      clock := clock + 1;
      reply := Json(200, made.value);
    }

    /** `PUT /api/admin/animals/:id`, as in the main server but behind the environment-only gate. */
    method UpdateAnimal(header: Field, bodySecret: Field, id: string, body: AnimalPatch, upload: Option<string>)
      returns (reply: Reply<Option<Animal>>)
      requires Valid()
      modifies this
      ensures Valid()
      ensures clock == old(clock)
      ensures !reply.Json? || reply.body.None? ==> animals == old(animals)
      ensures !LegacyAuthorized(envSecret, header, bodySecret) ==> reply == Error(401, "unauthorized")
      ensures LegacyAuthorized(envSecret, header, bodySecret) && !IsObjectIdString(id) ==> reply.Unhandled?
      ensures LegacyAuthorized(envSecret, header, bodySecret) && IsObjectIdString(id) ==>
        var key := ParseObjectId(id).value;
        if key !in old(animals) then reply == Json(200, None)
        else
          var patched := ApplyPatch(old(animals)[key], UpdatePatch(body, upload));
          if patched.None? then reply.Unhandled?
          else reply == Json(200, patched) && animals == old(animals)[key := patched.value]
    {
      if !LegacyAuthorized(envSecret, header, bodySecret) {
        return Error(401, "unauthorized");
      }
      var parsed := ParseObjectId(id);
      if parsed.None? {
        return Unhandled;
      }
      var key := parsed.value;
      if key !in animals {
        return Json(200, None);
      }
      var patched := ApplyPatch(animals[key], UpdatePatch(body, upload));
      if patched.None? {
        return Unhandled;
      }
      Server.AnimalReplaced(animals, clock, patched.value);
      animals := animals[key := patched.value];
      reply := Json(200, patched);
    }

    /**
     * `POST /api/admin/animals/:id/adopt`: sets the flag to true whatever it
     * was; null when no animal has the id; an id that does not cast leaves
     * the request unanswered.
     */
    method MarkAdopted(header: Field, bodySecret: Field, id: string) returns (reply: Reply<Option<Animal>>)
      requires Valid()
      modifies this
      ensures Valid()
      ensures clock == old(clock)
      ensures !reply.Json? || reply.body.None? ==> animals == old(animals)
      ensures !LegacyAuthorized(envSecret, header, bodySecret) ==> reply == Error(401, "unauthorized")
      ensures LegacyAuthorized(envSecret, header, bodySecret) && !IsObjectIdString(id) ==> reply.Unhandled?
      ensures LegacyAuthorized(envSecret, header, bodySecret) && IsObjectIdString(id) ==>
        var key := ParseObjectId(id).value;
        if key !in old(animals) then reply == Json(200, None)
        else (reply == Json(200, Some(Marked(old(animals)[key])))
          && animals == old(animals)[key := Marked(old(animals)[key])])
      ensures reply.Json? && reply.body.Some? ==> reply.body.value.adopted == Some(true)
    {
      if !LegacyAuthorized(envSecret, header, bodySecret) {
        return Error(401, "unauthorized");
      }
      var parsed := ParseObjectId(id);
      if parsed.None? {
        return Unhandled;
      }
      var key := parsed.value;
      if key !in animals {
        return Json(200, None);
      }
      var marked := Marked(animals[key]);
      Server.AnimalReplaced(animals, clock, marked);
      animals := animals[key := marked];
      reply := Json(200, Some(marked));
    }
  }
}
