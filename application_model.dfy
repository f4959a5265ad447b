/**
 * The Application schema: an optional reference to the applying user, a
 * required reference to the animal, a required trimmed name, a required
 * trimmed and lowercased email, an optional trimmed message, and timestamps.
 */
module ApplicationModel {
  import opened JsValues
  import opened ObjectIds

  datatype Application = Application(
    id: ObjectId,
    user: Option<ObjectId>,
    animal: ObjectId,
    name: string,
    email: string,
    message: Option<string>,
    createdAt: nat)

  predicate ApplicationValid(a: Application) {
    a.name != "" && Trimmed(a.name)
    && a.email != "" && Trimmed(a.email) && Lower(a.email) == a.email
    && (a.message.Some? ==> Trimmed(a.message.value))
  }

  /** The trim setter on an optional path: `undefined` and `null` stay unset. */
  function TrimmedField(f: Field): (r: Option<string>)
    ensures f.Text? <==> r.Some?
    ensures r.Some? ==> r.value == Trim(f.s)
  {
    if f.Text? then Some(Trim(f.s)) else None
  }

  /**
   * `Application.create`: the animal reference is cast to an ObjectId, the
   * setters run, then the validators. None when the cast or validation fails.
   */
  function ApplicationDocument(id: ObjectId, user: Option<ObjectId>, animal: string, name: string,
                               email: string, message: Field, now: nat): (r: Option<Application>)
    ensures r.Some? <==> IsObjectIdString(animal) && !AllWhitespace(name) && !AllWhitespace(email)
    ensures r.Some? ==> ApplicationValid(r.value)
    ensures r.Some? ==> r.value.user == user && Some(r.value.animal) == ParseObjectId(animal)
    ensures r.Some? ==> r.value.name == Trim(name) && r.value.email == Lower(Trim(email))
    ensures r.Some? ==> r.value.message == TrimmedField(message) && r.value.id == id && r.value.createdAt == now
  {
    var lowered := Lower(Trim(email));
    SetterResults(name, email);
    match ParseObjectId(animal)
    case None => None
    case Some(ref) =>
      var a := Application(id, user, ref, Trim(name), lowered, TrimmedField(message), now);
      if ApplicationValid(a) then Some(a) else None
  }

  /** What the trim and lowercase setters leave: trimmed values, blank exactly when the input was. */
  lemma SetterResults(name: string, email: string)
    ensures Trimmed(Trim(name)) && (Trim(name) == "" <==> AllWhitespace(name))
    ensures Trimmed(Lower(Trim(email))) && Lower(Lower(Trim(email))) == Lower(Trim(email))
    ensures Lower(Trim(email)) == "" <==> AllWhitespace(email)
  {
    LowerTrimCommute(email);
    TrimIdempotent(Lower(email));
    LowerIdempotent(Trim(email));
    TrimEmptyIffWhitespace(name);
    TrimEmptyIffWhitespace(email);
  }
}
