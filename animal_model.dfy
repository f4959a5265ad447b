/**
 * The Animal schema: a name that is required, a type drawn from a fixed list
 * that defaults to "dog", optional descriptive strings, an adopted flag that
 * defaults to false and a creation time.
 */
module AnimalModel {
  import opened JsValues
  import opened ObjectIds

  const DefaultKind := "dog"

  /** The `type` enum. */
  predicate KindAllowed(k: string) {
    k == "dog" || k == "cat" || k == "other"
  }

  /**
   * A stored animal. Its `type` field is `kind` here. Every path but the id
   * and the creation time may be unset (None), since the update route writes
   * whatever the request carries.
   */
  datatype Animal = Animal(
    id: ObjectId,
    name: Option<string>,
    kind: Option<string>,
    breed: Option<string>,
    age: Option<string>,
    size: Option<string>,
    description: Option<string>,
    photo: Option<string>,
    adopted: Option<bool>,
    createdAt: nat)

  /** What the schema's validators accept: a non-empty name and, when set, a type from the enum. */
  predicate AnimalValid(a: Animal) {
    a.name.Some? && a.name.value != "" && (a.kind.Some? ==> KindAllowed(a.kind.value))
  }

  /** The values the create route passes to `Animal.create`; None is `undefined`. */
  datatype AnimalForm = AnimalForm(
    name: Option<string>,
    kind: Option<string>,
    breed: Option<string>,
    age: Option<string>,
    size: Option<string>,
    description: Option<string>,
    photo: Option<string>)

  /**
   * `Animal.create(form)`: defaults applied to the unset paths, then
   * validation. None when validation fails.
   */
  function CreateAnimal(form: AnimalForm, id: ObjectId, now: nat): (r: Option<Animal>)
    ensures r.Some? <==> form.name.Some? && form.name.value != "" && (form.kind.Some? ==> KindAllowed(form.kind.value))
    ensures r.Some? ==> AnimalValid(r.value) && r.value.kind.Some? && KindAllowed(r.value.kind.value)
    ensures r.Some? ==> r.value.id == id && r.value.createdAt == now && r.value.adopted == Some(false)
    ensures r.Some? ==> (r.value.name == form.name && r.value.breed == form.breed && r.value.age == form.age
      && r.value.size == form.size && r.value.description == form.description && r.value.photo == form.photo)
  {
    var kind := if form.kind.Some? then form.kind.value else DefaultKind;
    var a := Animal(id, form.name, Some(kind), form.breed, form.age, form.size, form.description, form.photo, Some(false), now);
    if AnimalValid(a) then Some(a) else None
  }

  /** With no type given, a created animal is a dog. */
  lemma DefaultKindIsDog(form: AnimalForm, id: ObjectId, now: nat)
    requires form.kind.None? && form.name.Some? && form.name.value != ""
    ensures CreateAnimal(form, id, now).Some? && CreateAnimal(form, id, now).value.kind == Some("dog")
  {
  }

  /** Mongoose's cast of a string to Boolean; None is a cast error. */
  function CastBoolean(s: string): (r: Option<bool>)
    ensures r == Some(true) <==> s in {"true", "1", "yes"}
    ensures r == Some(false) <==> s in {"false", "0", "no"}
  {
    if s == "true" || s == "1" || s == "yes" then Some(true)
    else if s == "false" || s == "0" || s == "no" then Some(false)
    else None
  }

  /** The update route's `{ ...req.body }`, path by path (out-of-schema keys are dropped). */
  datatype AnimalPatch = AnimalPatch(
    name: Field,
    kind: Field,
    breed: Field,
    age: Field,
    size: Field,
    description: Field,
    photo: Field,
    adopted: Field)

  /** One `$set` path: an absent key leaves the value, `null` unsets it, a string replaces it. */
  function SetPath(v: Option<string>, f: Field): (r: Option<string>)
    ensures f.Missing? ==> r == v
    ensures f.Null? ==> r.None?
    ensures f.Text? ==> r == Some(f.s)
  {
    match f
    case Missing => v
    case Null => None
    case Text(s) => Some(s)
  }

  /**
   * `findByIdAndUpdate(id, patch)` on a found animal. No validators run; the
   * only failure is a string for `adopted` that does not cast to Boolean.
   */
  function ApplyPatch(a: Animal, p: AnimalPatch): (r: Option<Animal>)
    ensures r.None? <==> p.adopted.Text? && CastBoolean(p.adopted.s).None?
    ensures r.Some? ==> r.value.id == a.id && r.value.createdAt == a.createdAt
    ensures r.Some? ==> (r.value.name == SetPath(a.name, p.name) && r.value.kind == SetPath(a.kind, p.kind)
      && r.value.breed == SetPath(a.breed, p.breed) && r.value.age == SetPath(a.age, p.age)
      && r.value.size == SetPath(a.size, p.size) && r.value.description == SetPath(a.description, p.description)
      && r.value.photo == SetPath(a.photo, p.photo))
    ensures r.Some? && p.adopted.Missing? ==> r.value.adopted == a.adopted
    ensures r.Some? && p.adopted.Null? ==> r.value.adopted.None?
    ensures r.Some? && p.adopted.Text? ==> r.value.adopted == CastBoolean(p.adopted.s)
  {
    var adopted :=
      match p.adopted
      case Missing => Some(a.adopted)
      case Null => Some(None)
      case Text(s) => if CastBoolean(s).Some? then Some(CastBoolean(s)) else None;
    if adopted.None? then None
    else Some(Animal(a.id, SetPath(a.name, p.name), SetPath(a.kind, p.kind), SetPath(a.breed, p.breed),
      SetPath(a.age, p.age), SetPath(a.size, p.size), SetPath(a.description, p.description),
      SetPath(a.photo, p.photo), adopted.value, a.createdAt))
  }

  /** An empty patch changes nothing. */
  lemma EmptyPatchIdentity(a: Animal)
    ensures ApplyPatch(a, AnimalPatch(Missing, Missing, Missing, Missing, Missing, Missing, Missing, Missing)) == Some(a)
  {
  }

  /** Because the update skips validation, it can store a type outside the enum or an empty name. */
  lemma PatchBreaksValidity(a: Animal, k: string)
    requires !KindAllowed(k)
    ensures var p := AnimalPatch(Text(""), Text(k), Missing, Missing, Missing, Missing, Missing, Missing);
      ApplyPatch(a, p).Some? && !AnimalValid(ApplyPatch(a, p).value)
  {
  }
}
