/**
 * The User schema: a trimmed name of 2 to 100 characters, a required email
 * that is trimmed and lowercased and unique across users, a required password
 * hash, and optional trimmed mobile (at most 20 characters) and address (at
 * most 500).
 */
module UserModel {
  import opened JsValues
  import opened ObjectIds
  import opened Passwords

  datatype User = User(
    id: ObjectId,
    name: string,
    email: string,
    passwordHash: Digest,
    mobile: Option<string>,
    address: Option<string>,
    createdAt: nat)

  /** The email setters `trim` and `lowercase`; in which order they run makes no difference. */
  function NormalEmail(email: string): (r: string)
    ensures Trimmed(r) && Lower(r) == r
    ensures r == Trim(Lower(email))
  {
    LowerTrimCommute(email);
    LowerOfTrimmed(Trim(email));
    Lower(Trim(email))
  }

  /** Lowercasing keeps a string trimmed. */
  lemma LowerOfTrimmed(s: string)
    requires Trimmed(s)
    ensures Trimmed(Lower(s))
  {
  }

  /** Lowercasing before the setters run changes nothing: the signup and login lookups see the stored form. */
  lemma NormalEmailOfLower(email: string)
    ensures NormalEmail(Lower(email)) == NormalEmail(email)
  {
    LowerIdempotent(email);
  }

  /** An email already in stored form is its own normal form. */
  lemma NormalEmailOfNormal(email: string)
    requires Trimmed(email) && Lower(email) == email
    ensures NormalEmail(email) == email
  {
    TrimOfTrimmed(email);
  }

  /** A trimmed, optional string of at most `max` characters. */
  predicate OptionalWithin(v: Option<string>, max: nat) {
    v.Some? ==> Trimmed(v.value) && |v.value| <= max
  }

  /** A user record as the schema admits it once setters have run. */
  predicate UserValid(u: User) {
    Trimmed(u.name) && 2 <= |u.name| <= 100
    && u.email != "" && Trimmed(u.email) && Lower(u.email) == u.email
    && OptionalWithin(u.mobile, 20) && OptionalWithin(u.address, 500)
  }

  function TrimOption(v: Option<string>): (r: Option<string>)
    ensures v.None? <==> r.None?
    ensures r.Some? ==> r.value == Trim(v.value)
  {
    if v.Some? then Some(Trim(v.value)) else None
  }

  /**
   * The document that `User.create` or `save()` writes for these values: the
   * setters applied, then the validators; None when validation fails. The
   * uniqueness of the email is a database index, not a validator: see
   * EmailsUnique.
   */
  function UserDocument(id: ObjectId, name: string, email: string, hash: Digest,
                        mobile: Option<string>, address: Option<string>, now: nat): (r: Option<User>)
    ensures r.Some? <==> 2 <= |Trim(name)| <= 100 && Trim(email) != ""
                         && (mobile.Some? ==> |Trim(mobile.value)| <= 20)
                         && (address.Some? ==> |Trim(address.value)| <= 500)
    ensures r.Some? ==> UserValid(r.value)
    ensures r.Some? ==> r.value == User(id, Trim(name), NormalEmail(email), hash, TrimOption(mobile), TrimOption(address), now)
  {
    var u := User(id, Trim(name), NormalEmail(email), hash, TrimOption(mobile), TrimOption(address), now);
    TrimEmptyIffWhitespace(email);
    TrimEmptyIffWhitespace(NormalEmail(email));
    assert NormalEmail(email) == [] <==> Trim(email) == [] by {
      LowerWhitespaceIff(email);
    }
    if UserValid(u) then Some(u) else None
  }

  /** Lowercasing does not change whether a string is all whitespace. */
  lemma LowerWhitespaceIff(s: string)
    ensures Trim(Lower(s)) == [] <==> Trim(s) == []
  {
    LowerTrimCommute(s);
  }

  /** Saving a valid user writes it back unchanged: valid records are fixed points of the setters and validators. */
  lemma SaveValidUser(u: User)
    requires UserValid(u)
    ensures UserDocument(u.id, u.name, u.email, u.passwordHash, u.mobile, u.address, u.createdAt) == Some(u)
  {
    TrimOfTrimmed(u.name);
    TrimOfTrimmed(u.email);
    TrimOfTrimmed(Lower(u.email));
    if u.mobile.Some? { TrimOfTrimmed(u.mobile.value); }
    if u.address.Some? { TrimOfTrimmed(u.address.value); }
  }

  /** No two users share an email (the `unique` index). */
  predicate EmailsUnique(users: map<ObjectId, User>) {
    forall i, j :: i in users && j in users && users[i].email == users[j].email ==> i == j
  }
}
