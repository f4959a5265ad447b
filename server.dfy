/**
 * The main server's API. The database is a `Store` holding one map per
 * collection and a clock that stands for both `Date.now()` and ObjectId
 * generation: each new document gets the id `ObjectId(clock)` and the creation
 * time `clock`, and the clock moves on. The routes that write to the database
 * are methods of the store; the routes that only read it, and the checks and
 * projections the handlers compute, are functions of its contents.
 */
module Server {
  import opened JsValues
  import opened ObjectIds
  import opened Passwords
  import opened AnimalModel
  import opened UserModel
  import opened ApplicationModel
  import opened FeedbackModel
  import opened Documents
  import opened Routes

  // ---- The admin gate ----

  const DefaultAdminSecret := "supersecret"

  /** The `ADMIN_SECRET` environment variable, or a fixed demo secret when it is unset or empty. */
  function AdminSecret(env: Option<string>): (s: string)
    ensures s != ""
    ensures env.Some? && env.value != "" ==> s == env.value
    ensures env.None? || env.value == "" ==> s == DefaultAdminSecret
  {
    if env.Some? && env.value != "" then env.value else DefaultAdminSecret
  }

  /**
   * The admin gate: the `x-admin-secret` header decides when it is non-empty,
   * the body's `adminSecret` field otherwise.
   */
  function Authorized(secret: string, header: Field, bodySecret: Field): (ok: bool)
    ensures Truthy(header) ==> (ok <==> header.s == secret)
    ensures !Truthy(header) ==> (ok <==> bodySecret == Text(secret))
  {
    Or(header, bodySecret) == Text(secret)
  }

  /** Against the main server's secret, a request with no non-empty secret is refused. */
  lemma NoSecretRefused(env: Option<string>, header: Field, bodySecret: Field)
    requires !Truthy(header) && !Truthy(bodySecret)
    ensures !Authorized(AdminSecret(env), header, bodySecret)
  {
  }

  // ---- The adopted toggle ----

  /** The toggle: the flag becomes the negation of "adopted is true"; nothing else changes. */
  function Toggled(a: Animal): (t: Animal)
    ensures t.adopted == Some(a.adopted != Some(true))
    ensures t.(adopted := a.adopted) == a
  {
    a.(adopted := Some(a.adopted != Some(true)))
  }

  /** Toggling twice an animal whose flag is false or unset leaves it false. */
  lemma ToggleTwiceFromAvailable(a: Animal)
    requires a.adopted != Some(true)
    ensures Toggled(Toggled(a)) == a.(adopted := Some(false))
  {
  }

  /** On a set flag, toggling twice is the identity. */
  lemma ToggleTwiceIdentity(a: Animal)
    requires a.adopted.Some?
    ensures Toggled(Toggled(a)) == a
  {
    var t := Toggled(a);
    assert t.adopted == Some(!a.adopted.value);
    assert Toggled(t) == t.(adopted := a.adopted);
  }

  /** The toggle does not touch what the validators check. */
  lemma ToggleKeepsValidity(a: Animal)
    ensures AnimalValid(Toggled(a)) <==> AnimalValid(a)
  {
  }

  // ---- Users as the client sees them ----

  /** `value || null`. */
  function OrNull(v: Option<string>): (r: Option<string>)
    ensures r.Some? <==> v.Some? && v.value != ""
    ensures r.Some? ==> r == v
  {
    if v.Some? && v.value != "" then v else None
  }

  /** The user object of the signup, login and profile replies: no password hash and no timestamps. */
  datatype SafeUser = SafeUser(id: ObjectId, name: string, email: string, mobile: Option<string>, address: Option<string>)

  function SafeUserOf(u: User): (s: SafeUser)
    ensures s.id == u.id && s.name == u.name && s.email == u.email
    ensures s.mobile == OrNull(u.mobile) && s.address == OrNull(u.address)
  {
    SafeUser(u.id, u.name, u.email, OrNull(u.mobile), OrNull(u.address))
  }

  /** The projection reveals nothing of the password hash or the creation time. */
  lemma SafeUserHidesSecrets(u: User, h: Digest, t: nat)
    ensures SafeUserOf(u.(passwordHash := h, createdAt := t)) == SafeUserOf(u)
  {
  }

  /** A user with that email, in stored form, exists. */
  ghost predicate EmailTaken(users: map<ObjectId, User>, email: string) {
    exists id :: id in users && users[id].email == NormalEmail(email)
  }

  /** `User.findOne({ email })`, the filter going through the email setters. */
  function FindByEmail(users: map<ObjectId, User>, clock: nat, email: string): (r: Option<ObjectId>)
    ensures r.Some? ==> r.value in users && r.value.n < clock && users[r.value].email == NormalEmail(email)
    ensures r.None? ==> forall id :: id in users && id.n < clock ==> users[id].email != NormalEmail(email)
  {
    var key := NormalEmail(email);
    FindFirst(IdsBelow(users, clock), users, (u: User) => u.email == key)
  }

  /** Over a store's users, the lookup by the lowercased email finds a user exactly when the email is taken. */
  lemma FindByEmailIff(users: map<ObjectId, User>, clock: nat, email: string)
    requires forall id :: id in users ==> id.n < clock
    ensures FindByEmail(users, clock, Lower(email)).Some? <==> EmailTaken(users, email)
    ensures FindByEmail(users, clock, Lower(email)).None? ==> forall id :: id in users ==> users[id].email != NormalEmail(email)
  {
    NormalEmailOfLower(email);
  }

  /** Adding a user whose email nobody has keeps emails unique. */
  lemma InsertKeepsEmailsUnique(users: map<ObjectId, User>, u: User)
    requires EmailsUnique(users) && u.id !in users
    requires forall id :: id in users ==> users[id].email != u.email
    ensures EmailsUnique(users[u.id := u])
  {
  }

  // ---- Login ----

  const LoginFieldsRequired := "Email and password are required"
  const InvalidCredentials := "Invalid email or password"

  /**
   * `POST /api/auth/login`: 400 without a truthy email and password; the same
   * 401 for an unknown email and for a wrong password; the user otherwise.
   */
  function Login(users: map<ObjectId, User>, clock: nat, email: Field, password: Field): (r: Reply<SafeUser>)
    ensures r == Error(400, LoginFieldsRequired) <==> !Truthy(email) || !Truthy(password)
    ensures r.Error? && r.status != 400 ==> r == Error(401, InvalidCredentials)
    ensures r.Json? ==> r.status == 200
    ensures r.Json? ==> exists id :: (id in users && id.n < clock && users[id].email == NormalEmail(email.s)
                                      && Verify(password.s, users[id].passwordHash) && r.body == SafeUserOf(users[id]))
    ensures Truthy(email) && Truthy(password) && !EmailTaken(users, email.s) ==> r == Error(401, InvalidCredentials)
    ensures !r.Unhandled?
  {
    if !Truthy(email) || !Truthy(password) then Error(400, LoginFieldsRequired)
    else
      NormalEmailOfLower(email.s);
      match FindByEmail(users, clock, Lower(email.s))
      case None => Error(401, InvalidCredentials)
      case Some(id) =>
        if Verify(password.s, users[id].passwordHash) then Json(200, SafeUserOf(users[id]))
        else Error(401, InvalidCredentials)
  }

  /** With unique emails, login succeeds exactly when the stored user with that email accepts the password. */
  lemma LoginSucceedsIff(users: map<ObjectId, User>, clock: nat, email: Field, password: Field)
    requires EmailsUnique(users) && Truthy(email) && Truthy(password)
    ensures Login(users, clock, email, password).Json? <==>
      exists id :: id in users && id.n < clock && users[id].email == NormalEmail(email.s)
        && Verify(password.s, users[id].passwordHash)
  {
    NormalEmailOfLower(email.s);
    if id :| id in users && id.n < clock && users[id].email == NormalEmail(email.s) && Verify(password.s, users[id].passwordHash) {
      var found := FindByEmail(users, clock, Lower(email.s));
      assert found == Some(id);
    }
  }

  /** A stored user logs in with its password and any spelling of its email that normalises to the stored one. */
  lemma LoginAfterSignup(users: map<ObjectId, User>, clock: nat, id: ObjectId, email: string, password: string, salt: nat)
    requires EmailsUnique(users) && id in users && id.n < clock
    requires users[id].email == NormalEmail(email) && users[id].passwordHash == Hash(password, salt)
    requires email != "" && password != ""
    ensures Login(users, clock, Text(email), Text(password)) == Json(200, SafeUserOf(users[id]))
  {
    LoginSucceedsIff(users, clock, Text(email), Text(password));
  }

  // ---- Applying to adopt ----

  /** Who the application is from: the user reference, and the name and email to store. */
  datatype Applicant = Applicant(user: Option<ObjectId>, name: Field, email: Field)

  /**
   * The `userId` lookup of `POST /api/apply`: a resolved user's name and email
   * replace the body's and its id becomes the reference; an unresolved id falls
   * back to the body. None when `User.findById` throws on an id that does not cast.
   */
  function ResolveApplicant(users: map<ObjectId, User>, userId: Field, name: Field, email: Field): (r: Option<Applicant>)
    ensures r.None? <==> Truthy(userId) && !IsObjectIdString(userId.s)
    ensures r.Some? && r.value.user.Some? ==>
      (Truthy(userId) && ParseObjectId(userId.s) == r.value.user && r.value.user.value in users
      && r.value.name == Text(users[r.value.user.value].name) && r.value.email == Text(users[r.value.user.value].email))
    ensures r.Some? && r.value.user.None? ==>
      (r.value.name == name && r.value.email == email && (Truthy(userId) ==> ParseObjectId(userId.s).value !in users))
  {
    if !Truthy(userId) then Some(Applicant(None, name, email))
    else
      match ParseObjectId(userId.s)
      case None => None
      case Some(key) =>
        if key in users then Some(Applicant(Some(key), Text(users[key].name), Text(users[key].email)))
        else Some(Applicant(None, name, email))
  }

  /** A resolved applicant always has the details the handler requires, since stored users are valid. */
  lemma ResolvedApplicantHasDetails(users: map<ObjectId, User>, userId: Field, name: Field, email: Field)
    requires forall id :: id in users ==> UserValid(users[id])
    requires ResolveApplicant(users, userId, name, email).Some?
    requires ResolveApplicant(users, userId, name, email).value.user.Some?
    ensures Truthy(ResolveApplicant(users, userId, name, email).value.name)
    ensures Truthy(ResolveApplicant(users, userId, name, email).value.email)
  {
  }

  // ---- Schema failures that become 500 replies ----

  /**
   * The feedback document the handler asks for, built from values it has
   * already trimmed and lowercased, is stored when the trimmed name has 2..100
   * characters, neither email nor message is all whitespace, and the trimmed
   * message has at most 1000 characters.
   */
  lemma FeedbackDocumentAccepted(id: ObjectId, name: string, email: string, message: string, now: nat)
    requires 2 <= |Trim(name)| <= 100 && !AllWhitespace(email) && !AllWhitespace(message) && |Trim(message)| <= 1000
    ensures FeedbackDocument(id, Trim(name), Trim(Lower(email)), Trim(message), now).Some?
  {
    HandlerFeedbackValues(name, email, message);
  }

  /** Otherwise validation fails, and the route answers 500. */
  lemma FeedbackDocumentRefused(id: ObjectId, name: string, email: string, message: string, now: nat)
    requires !(2 <= |Trim(name)| <= 100) || AllWhitespace(email) || AllWhitespace(message) || |Trim(message)| > 1000
    ensures FeedbackDocument(id, Trim(name), Trim(Lower(email)), Trim(message), now).None?
  {
    HandlerFeedbackValues(name, email, message);
  }

  /** The handler's values after the setters, and when they are blank. */
  lemma HandlerFeedbackValues(name: string, email: string, message: string)
    ensures Trim(Trim(name)) == Trim(name) && Trim(Trim(message)) == Trim(message)
    ensures AllWhitespace(Trim(Lower(email))) <==> AllWhitespace(email)
    ensures AllWhitespace(Trim(message)) <==> AllWhitespace(message)
  {
    TrimIdempotent(name);
    TrimIdempotent(message);
    TrimIdempotent(Lower(email));
    TrimEmptyIffWhitespace(Trim(Lower(email)));
    TrimEmptyIffWhitespace(Trim(message));
    TrimEmptyIffWhitespace(message);
    TrimEmptyIffWhitespace(email);
    LowerWhitespaceIff(email);
  }

  /**
   * The user document the signup handler asks for fails validation exactly
   * when the trimmed name is outside 2..100 characters, the email is all
   * whitespace, or the trimmed mobile or address is too long.
   */
  lemma SignupDocumentIff(id: ObjectId, name: string, email: string, hash: Digest, mobile: Field, address: Field, now: nat)
    ensures UserDocument(id, name, Lower(email), hash, TrimOrAbsent(mobile), TrimOrAbsent(address), now).Some? <==>
      2 <= |Trim(name)| <= 100 && !AllWhitespace(email)
      && (TrimOrAbsent(mobile).Some? ==> |TrimOrAbsent(mobile).value| <= 20)
      && (TrimOrAbsent(address).Some? ==> |TrimOrAbsent(address).value| <= 500)
  {
    LowerWhitespaceIff(email);
    TrimEmptyIffWhitespace(email);
    if mobile.Text? { TrimIdempotent(mobile.s); }
    if address.Text? { TrimIdempotent(address.s); }
  }

  /** A one-character name is truthy, so it passes the presence check, but the schema refuses it. */
  lemma OneCharacterNameRefused(id: ObjectId, c: char, email: string, hash: Digest, mobile: Option<string>, address: Option<string>, now: nat)
    ensures Truthy(Text([c]))
    ensures UserDocument(id, [c], email, hash, mobile, address, now).None?
  {
  }

  // ---- A user's applications ----

  /** An animal as the applications list shows it. */
  datatype AnimalBrief = AnimalBrief(id: ObjectId, name: Option<string>, kind: Option<string>, breed: Option<string>)

  /** An application as the applications list shows it; `animal` is null when the reference does not resolve. */
  datatype ApplicationView = ApplicationView(id: ObjectId, createdAt: nat, message: Option<string>, animal: Option<AnimalBrief>)

  datatype Profile = Profile(user: SafeUser, applications: seq<ApplicationView>)

  function AppCreatedAt(a: Application): nat {
    a.createdAt
  }

  function ViewCreatedAt(v: ApplicationView): nat {
    v.createdAt
  }

  /** One application after `populate('animal')` and the projection. */
  function ViewOf(a: Application, animals: map<ObjectId, Animal>): (v: ApplicationView)
    ensures v.id == a.id && v.createdAt == a.createdAt && v.message == a.message
    ensures v.animal.Some? <==> a.animal in animals
    ensures v.animal.Some? ==> var b := animals[a.animal];
      v.animal.value == AnimalBrief(b.id, b.name, b.kind, b.breed)
  {
    var brief := if a.animal in animals
      then Some(AnimalBrief(animals[a.animal].id, animals[a.animal].name, animals[a.animal].kind, animals[a.animal].breed))
      else None;
    ApplicationView(a.id, a.createdAt, a.message, brief)
  }

  function Views(apps: seq<Application>, animals: map<ObjectId, Animal>): (vs: seq<ApplicationView>)
    ensures |vs| == |apps|
    ensures forall i :: 0 <= i < |apps| ==> vs[i] == ViewOf(apps[i], animals)
  {
    seq(|apps|, i requires 0 <= i < |apps| => ViewOf(apps[i], animals))
  }

  /** The views of the applications whose `user` is `key`, newest first. */
  function ApplicationsOf(applications: map<ObjectId, Application>, animals: map<ObjectId, Animal>,
                          clock: nat, key: ObjectId): (vs: seq<ApplicationView>)
    ensures NewestFirst(vs, ViewCreatedAt)
    ensures forall v :: v in vs ==>
      exists aid :: aid in applications && applications[aid].user == Some(key) && v == ViewOf(applications[aid], animals)
    ensures forall aid :: aid in applications && aid.n < clock && applications[aid].user == Some(key) ==>
      ViewOf(applications[aid], animals) in vs
    ensures (forall aid :: aid in applications ==> applications[aid].id == aid) ==> Distinct(vs)
  {
    var mine := Select(IdsBelow(applications, clock), applications, (a: Application) => a.user == Some(key));
    var sorted := SortNewestFirst(mine, AppCreatedAt);
    SortedViews(sorted, animals);
    ViewsOfSelection(applications, animals, key, mine, sorted);
    assert (forall aid :: aid in applications ==> applications[aid].id == aid) ==> Distinct(Views(sorted, animals)) by {
      if forall aid :: aid in applications ==> applications[aid].id == aid {
        assert Injective(applications);
        DistinctPermutation(mine, sorted);
        DistinctViews(applications, animals, mine, sorted);
      }
    }
    Views(sorted, animals)
  }

  /** Distinct applications stored under their own ids have distinct views, since a view shows the id. */
  lemma DistinctViews(applications: map<ObjectId, Application>, animals: map<ObjectId, Animal>,
                      mine: seq<Application>, sorted: seq<Application>)
    requires forall aid :: aid in applications ==> applications[aid].id == aid
    requires multiset(sorted) == multiset(mine) && Distinct(sorted)
    requires forall a :: a in mine ==> a in applications.Values
    ensures Distinct(Views(sorted, animals))
  {
    var vs := Views(sorted, animals);
    forall i, j | 0 <= i < j < |vs| ensures vs[i] != vs[j] {
      assert sorted[i] in multiset(sorted) && sorted[j] in multiset(sorted);
      assert sorted[i] in mine && sorted[j] in mine;
      assert sorted[i] in applications.Values && sorted[j] in applications.Values;
      var x :| x in applications && applications[x] == sorted[i];
      var y :| y in applications && applications[y] == sorted[j];
      assert vs[i].id == x && vs[j].id == y;
    }
  }

  /** The views of a newest-first list are newest first. */
  lemma SortedViews(sorted: seq<Application>, animals: map<ObjectId, Animal>)
    requires NewestFirst(sorted, AppCreatedAt)
    ensures NewestFirst(Views(sorted, animals), ViewCreatedAt)
  {
    var vs := Views(sorted, animals);
    assert forall i :: 0 <= i < |vs| ==> ViewCreatedAt(vs[i]) == AppCreatedAt(sorted[i]);
  }

  /** Every view of a sorted selection comes from a selected application, and every selected application has its view. */
  lemma ViewsOfSelection(applications: map<ObjectId, Application>, animals: map<ObjectId, Animal>, key: ObjectId,
                         mine: seq<Application>, sorted: seq<Application>)
    requires multiset(sorted) == multiset(mine)
    requires forall a :: a in mine ==> a.user == Some(key) && a in applications.Values
    ensures forall v :: v in Views(sorted, animals) ==>
      exists aid :: aid in applications && applications[aid].user == Some(key) && v == ViewOf(applications[aid], animals)
    ensures forall a :: a in mine ==> ViewOf(a, animals) in Views(sorted, animals)
  {
    var vs := Views(sorted, animals);
    forall a ensures a in sorted <==> a in mine {
      assert a in sorted <==> a in multiset(sorted);
      assert a in mine <==> a in multiset(mine);
    }
    forall v | v in vs
      ensures exists aid :: aid in applications && applications[aid].user == Some(key) && v == ViewOf(applications[aid], animals)
    {
      var i :| 0 <= i < |vs| && vs[i] == v;
      assert sorted[i] in mine;
      var aid :| aid in applications && applications[aid] == sorted[i];
    }
    forall a | a in mine ensures ViewOf(a, animals) in vs {
      var i :| 0 <= i < |sorted| && sorted[i] == a;
      assert vs[i] == ViewOf(a, animals);
    }
  }

  /**
   * `GET /api/users/:id/applications`: 500 when the id does not cast, 404 for
   * an unknown user, otherwise the user and exactly that user's
   * applications, newest first.
   */
  function UserApplications(users: map<ObjectId, User>, applications: map<ObjectId, Application>,
                            animals: map<ObjectId, Animal>, clock: nat, id: string): (r: Reply<Profile>)
    ensures r == Error(500, "Server error") <==> !IsObjectIdString(id)
    ensures r == Error(404, "User not found") <==> IsObjectIdString(id) && ParseObjectId(id).value !in users
    ensures r.Json? <==> IsObjectIdString(id) && ParseObjectId(id).value in users
    ensures r.Json? ==> (r.status == 200 && r.body.user == SafeUserOf(users[ParseObjectId(id).value])
      && r.body.applications == ApplicationsOf(applications, animals, clock, ParseObjectId(id).value))
  {
    match ParseObjectId(id)
    case None => Error(500, "Server error")
    case Some(key) =>
      if key !in users then Error(404, "User not found")
      else Json(200, Profile(SafeUserOf(users[key]), ApplicationsOf(applications, animals, clock, key)))
  }

  // ---- Profile update ----

  /** One optional profile field: an absent key keeps it; null, "" or whitespace clears it; text is stored trimmed. */
  function SetOptional(v: Option<string>, f: Field): (r: Option<string>)
    ensures f.Missing? ==> r == v
    ensures (f.Null? || (f.Text? && AllWhitespace(f.s))) ==> r.None?
    ensures f.Text? && !AllWhitespace(f.s) ==> r == Some(Trim(f.s))
  {
    if f.Missing? then v else TrimOrAbsent(f)
  }

  /**
   * The edit of `PUT /api/users/:id` followed by `save()`: None when the
   * edited document fails validation. Email and password hash are never
   * touched.
   */
  function ProfileEdit(u: User, name: string, mobile: Field, address: Field): (r: Option<User>)
    ensures r.Some? ==> UserValid(r.value)
    ensures r.Some? ==> r.value.id == u.id && r.value.passwordHash == u.passwordHash && r.value.createdAt == u.createdAt
    ensures UserValid(u) ==> (r.Some? <==> (2 <= |Trim(name)| <= 100
      && OptionalWithin(SetOptional(u.mobile, mobile), 20) && OptionalWithin(SetOptional(u.address, address), 500)))
    ensures UserValid(u) && r.Some? ==>
      r.value == u.(name := Trim(name), mobile := SetOptional(u.mobile, mobile), address := SetOptional(u.address, address))
  {
    var m := SetOptional(u.mobile, mobile);
    var a := SetOptional(u.address, address);
    TrimIdempotent(name);
    assert UserValid(u) ==> (NormalEmail(u.email) == u.email && Trim(u.email) == u.email
      && (m.Some? ==> Trim(m.value) == m.value) && (a.Some? ==> Trim(a.value) == a.value)) by {
      if UserValid(u) {
        NormalEmailOfNormal(u.email);
        TrimOfTrimmed(u.email);
        if m.Some? { TrimOfTrimmed(m.value); }
        if a.Some? { TrimOfTrimmed(a.value); }
      }
    }
    UserDocument(u.id, Trim(name), u.email, u.passwordHash, m, a, u.createdAt)
  }

  /** A successful edit of a stored user keeps its id, email and password hash. */
  lemma ProfileEditKeepsIdentity(users: map<ObjectId, User>, clock: nat, key: ObjectId, name: string, mobile: Field, address: Field)
    requires UsersStored(users, clock) && key in users && ProfileEdit(users[key], name, mobile, address).Some?
    ensures var e := ProfileEdit(users[key], name, mobile, address).value;
      e.id == key && UserValid(e) && e.email == users[key].email && e.passwordHash == users[key].passwordHash
  {
    var u := users[key];
    assert UserValid(u) && u.id == key;
  }

  /** Overwriting a user with a record of the same email and hash keeps every user's email and hash. */
  lemma CredentialsKept(users: map<ObjectId, User>, u: User)
    requires u.id in users && u.email == users[u.id].email && u.passwordHash == users[u.id].passwordHash
    ensures users[u.id := u].Keys == users.Keys
    ensures forall k :: k in users[u.id := u] ==>
      users[u.id := u][k].email == users[k].email && users[u.id := u][k].passwordHash == users[k].passwordHash
  {
  }

  // ---- The store ----

  const SignupFieldsRequired := "Name, email and password are required"
  const FeedbackFieldsRequired := "Name, email, and message are required"
  const NameRule := "Name is required and must be at least 2 characters"

  // ---- What the store keeps true ----

  ghost predicate AnimalsStored(animals: map<ObjectId, Animal>, clock: nat) {
    forall id :: id in animals ==> animals[id].id == id && id.n < clock
  }

  ghost predicate UsersStored(users: map<ObjectId, User>, clock: nat) {
    (forall id :: id in users ==> users[id].id == id && id.n < clock && UserValid(users[id]))
    && EmailsUnique(users)
  }

  ghost predicate ApplicationsStored(applications: map<ObjectId, Application>, clock: nat) {
    forall id :: id in applications ==> applications[id].id == id && id.n < clock && ApplicationValid(applications[id])
  }

  ghost predicate FeedbackStored(feedback: map<ObjectId, Feedback>, clock: nat) {
    forall id :: id in feedback ==> feedback[id].id == id && id.n < clock && FeedbackValid(feedback[id])
  }

  /** Moving the clock on keeps a collection's ids below it. */
  lemma AnimalsLater(animals: map<ObjectId, Animal>, clock: nat)
    requires AnimalsStored(animals, clock)
    ensures AnimalsStored(animals, clock + 1)
  {
  }

  lemma UsersLater(users: map<ObjectId, User>, clock: nat)
    requires UsersStored(users, clock)
    ensures UsersStored(users, clock + 1)
  {
  }

  lemma ApplicationsLater(applications: map<ObjectId, Application>, clock: nat)
    requires ApplicationsStored(applications, clock)
    ensures ApplicationsStored(applications, clock + 1)
  {
  }

  lemma FeedbackLater(feedback: map<ObjectId, Feedback>, clock: nat)
    requires FeedbackStored(feedback, clock)
    ensures FeedbackStored(feedback, clock + 1)
  {
  }

  lemma AnimalAdded(animals: map<ObjectId, Animal>, clock: nat, a: Animal)
    requires AnimalsStored(animals, clock) && a.id == ObjectId(clock)
    ensures a.id !in animals && AnimalsStored(animals[a.id := a], clock + 1)
  {
  }

  lemma AnimalReplaced(animals: map<ObjectId, Animal>, clock: nat, a: Animal)
    requires AnimalsStored(animals, clock) && a.id in animals
    ensures AnimalsStored(animals[a.id := a], clock)
  {
  }

  lemma UserAdded(users: map<ObjectId, User>, clock: nat, u: User)
    requires UsersStored(users, clock) && u.id == ObjectId(clock) && UserValid(u)
    requires forall id :: id in users && id.n < clock ==> users[id].email != u.email
    ensures u.id !in users && UsersStored(users[u.id := u], clock + 1)
  {
    InsertKeepsEmailsUnique(users, u);
  }

  lemma UserReplaced(users: map<ObjectId, User>, clock: nat, u: User)
    requires UsersStored(users, clock) && u.id in users && UserValid(u) && u.email == users[u.id].email
    ensures UsersStored(users[u.id := u], clock)
  {
  }

  lemma ApplicationAdded(applications: map<ObjectId, Application>, clock: nat, a: Application)
    requires ApplicationsStored(applications, clock) && a.id == ObjectId(clock) && ApplicationValid(a)
    ensures a.id !in applications && ApplicationsStored(applications[a.id := a], clock + 1)
  {
  }

  lemma FeedbackAdded(feedback: map<ObjectId, Feedback>, clock: nat, f: Feedback)
    requires FeedbackStored(feedback, clock) && f.id == ObjectId(clock) && FeedbackValid(f)
    ensures f.id !in feedback && FeedbackStored(feedback[f.id := f], clock + 1)
  {
  }

  class Store {
    const adminSecret: string
    var animals: map<ObjectId, Animal>
    var users: map<ObjectId, User>
    var applications: map<ObjectId, Application>
    var feedback: map<ObjectId, Feedback>
    var clock: nat

    /**
     * Every document sits under its own id, every id was issued before the
     * clock's current value, the documents that only `create` and `save` write
     * satisfy their schemas, and no two users share an email.
     */
    ghost predicate Valid()
      reads this
    {
      adminSecret != ""
      && AnimalsStored(animals, clock) && UsersStored(users, clock)
      && ApplicationsStored(applications, clock) && FeedbackStored(feedback, clock)
    }

    constructor (env: Option<string>)
      ensures Valid()
      ensures adminSecret == AdminSecret(env)
      ensures animals == map[] && users == map[] && applications == map[] && feedback == map[] && clock == 0
    {
      adminSecret := AdminSecret(env);
      animals := map[];
      users := map[];
      applications := map[];
      feedback := map[];
      clock := 0;
    }

    // The single-document writes the handlers' `create`, `save` and
    // `findByIdAndUpdate` calls perform.

    /** Inserts a new animal under the next id. */
    method InsertAnimal(a: Animal)
      requires Valid() && a.id == ObjectId(clock)
      modifies this
      ensures Valid()
      ensures old(a.id !in animals) && animals == old(animals)[a.id := a] && clock == old(clock) + 1
      ensures users == old(users) && applications == old(applications) && feedback == old(feedback)
    {
      AnimalAdded(animals, clock, a);
      UsersLater(users, clock);
      ApplicationsLater(applications, clock);
      FeedbackLater(feedback, clock);
      animals := animals[a.id := a];
      clock := clock + 1;
    }

    /** Overwrites a stored animal. */
    method ReplaceAnimal(a: Animal)
      requires Valid() && a.id in animals
      modifies this
      ensures Valid()
      ensures animals == old(animals)[a.id := a] && clock == old(clock)
      ensures users == old(users) && applications == old(applications) && feedback == old(feedback)
    {
      AnimalReplaced(animals, clock, a);
      animals := animals[a.id := a];
    }

    /** Inserts a new, valid user under the next id; its email must be free. */
    method InsertUser(u: User)
      requires Valid() && u.id == ObjectId(clock) && UserValid(u)
      requires forall id :: id in users ==> users[id].email != u.email
      modifies this
      ensures Valid()
      ensures old(u.id !in users) && users == old(users)[u.id := u] && clock == old(clock) + 1
      ensures animals == old(animals) && applications == old(applications) && feedback == old(feedback)
    {
      UserAdded(users, clock, u);
      AnimalsLater(animals, clock);
      ApplicationsLater(applications, clock);
      FeedbackLater(feedback, clock);
      users := users[u.id := u];
      clock := clock + 1;
    }

    /** Overwrites a stored user with a valid record that keeps its email. */
    method ReplaceUser(u: User)
      requires Valid() && u.id in users && UserValid(u) && u.email == users[u.id].email
      modifies this
      ensures Valid()
      ensures users == old(users)[u.id := u] && clock == old(clock)
      ensures animals == old(animals) && applications == old(applications) && feedback == old(feedback)
    {
      UserReplaced(users, clock, u);
      users := users[u.id := u];
    }

    /** Inserts a new, valid application under the next id. */
    method InsertApplication(a: Application)
      requires Valid() && a.id == ObjectId(clock) && ApplicationValid(a)
      modifies this
      ensures Valid()
      ensures old(a.id !in applications) && applications == old(applications)[a.id := a] && clock == old(clock) + 1
      ensures animals == old(animals) && users == old(users) && feedback == old(feedback)
    {
      ApplicationAdded(applications, clock, a);
      AnimalsLater(animals, clock);
      UsersLater(users, clock);
      FeedbackLater(feedback, clock);
      applications := applications[a.id := a];
      clock := clock + 1;
    }

    /** Inserts a new, valid feedback document under the next id. */
    method InsertFeedback(f: Feedback)
      requires Valid() && f.id == ObjectId(clock) && FeedbackValid(f)
      modifies this
      ensures Valid()
      ensures old(f.id !in feedback) && feedback == old(feedback)[f.id := f] && clock == old(clock) + 1
      ensures animals == old(animals) && users == old(users) && applications == old(applications)
    {
      FeedbackAdded(feedback, clock, f);
      AnimalsLater(animals, clock);
      UsersLater(users, clock);
      ApplicationsLater(applications, clock);
      feedback := feedback[f.id := f];
      clock := clock + 1;
    }

    /** `POST /api/admin/animals`. A rejected `Animal.create` leaves the request unanswered. */
    method AddAnimal(header: Field, bodySecret: Field, body: AnimalPatch, upload: Option<string>) returns (reply: Reply<Animal>)
      requires Valid()
      modifies this
      ensures Valid()
      ensures users == old(users) && applications == old(applications) && feedback == old(feedback)
      ensures !reply.Json? ==> animals == old(animals) && clock == old(clock)
      ensures !Authorized(adminSecret, header, bodySecret) ==> reply == Error(401, "unauthorized")
      ensures Authorized(adminSecret, header, bodySecret) ==>
        var made := CreateAnimal(CreateForm(body, upload), ObjectId(old(clock)), old(clock));
        if made.None? then reply.Unhandled?
        else (reply == Json(200, made.value) && ObjectId(old(clock)) !in old(animals)
          && animals == old(animals)[ObjectId(old(clock)) := made.value] && clock == old(clock) + 1)
    {
      if !Authorized(adminSecret, header, bodySecret) {
        return Error(401, "unauthorized");
      }
      var made := CreateAnimal(CreateForm(body, upload), ObjectId(clock), clock);
      if made.None? {
        return Unhandled;
      }
      InsertAnimal(made.value);
      reply := Json(200, made.value);
    }

    /**
     * `PUT /api/admin/animals/:id`: the body is written as it is, without
     * validation; null when no animal has the id. An id that does not cast, or
     * an `adopted` value that does not cast, leaves the request unanswered.
     */
    method UpdateAnimal(header: Field, bodySecret: Field, id: string, body: AnimalPatch, upload: Option<string>)
      returns (reply: Reply<Option<Animal>>)
      requires Valid()
      modifies this
      ensures Valid()
      ensures users == old(users) && applications == old(applications) && feedback == old(feedback) && clock == old(clock)
      ensures !reply.Json? || reply.body.None? ==> animals == old(animals)
      ensures !Authorized(adminSecret, header, bodySecret) ==> reply == Error(401, "unauthorized")
      ensures Authorized(adminSecret, header, bodySecret) && !IsObjectIdString(id) ==> reply.Unhandled?
      ensures Authorized(adminSecret, header, bodySecret) && IsObjectIdString(id) ==>
        var key := ParseObjectId(id).value;
        if key !in old(animals) then reply == Json(200, None)
        else
          var patched := ApplyPatch(old(animals)[key], UpdatePatch(body, upload));
          if patched.None? then reply.Unhandled?
          else reply == Json(200, patched) && animals == old(animals)[key := patched.value]
    {
      if !Authorized(adminSecret, header, bodySecret) {
        return Error(401, "unauthorized");
      }
      var parsed := ParseObjectId(id);
      if parsed.None? {
        return Unhandled;
      }
      var key := parsed.value;
      if key !in animals {
        return Json(200, None);
      }
      var patched := ApplyPatch(animals[key], UpdatePatch(body, upload));
      if patched.None? {
        return Unhandled;
      }
      ReplaceAnimal(patched.value);
      reply := Json(200, patched);
    }

    /**
     * `POST /api/admin/animals/:id/adopt`: loads the animal, flips its flag and
     * saves it. `save()` validates the whole document, so an animal that an
     * update left invalid cannot be toggled.
     */
    method ToggleAdopted(header: Field, bodySecret: Field, id: string) returns (reply: Reply<Animal>)
      requires Valid()
      modifies this
      ensures Valid()
      ensures users == old(users) && applications == old(applications) && feedback == old(feedback) && clock == old(clock)
      ensures !reply.Json? ==> animals == old(animals)
      ensures !Authorized(adminSecret, header, bodySecret) ==> reply == Error(401, "unauthorized")
      ensures Authorized(adminSecret, header, bodySecret) && !IsObjectIdString(id) ==> reply == Error(500, "server error")
      ensures Authorized(adminSecret, header, bodySecret) && IsObjectIdString(id) ==>
        var key := ParseObjectId(id).value;
        if key !in old(animals) then reply == Error(404, "animal not found")
        else if !AnimalValid(old(animals)[key]) then reply == Error(500, "server error")
        else reply == Json(200, Toggled(old(animals)[key])) && animals == old(animals)[key := Toggled(old(animals)[key])]
      ensures reply.Json? ==> reply.body.adopted.Some?
    {
      if !Authorized(adminSecret, header, bodySecret) {
        return Error(401, "unauthorized");
      }
      var parsed := ParseObjectId(id);
      if parsed.None? {
        return Error(500, "server error");
      }
      var key := parsed.value;
      if key !in animals {
        return Error(404, "animal not found");
      }
      var toggled := Toggled(animals[key]);
      ToggleKeepsValidity(animals[key]);
      if !AnimalValid(toggled) {
        return Error(500, "server error");
      }
      ReplaceAnimal(toggled);
      reply := Json(200, toggled);
    }

    /**
     * `POST /api/apply`: resolves the applicant and stores one application.
     * The reply carries the new application's id. The animal collection is
     * never read.
     */
    method Apply(animalId: Field, name: Field, email: Field, message: Field, userId: Field) returns (reply: Reply<ObjectId>)
      requires Valid()
      modifies this
      ensures Valid()
      ensures animals == old(animals) && users == old(users) && feedback == old(feedback)
      ensures !reply.Json? ==> applications == old(applications) && clock == old(clock)
      ensures reply.Json? ==> |applications| == |old(applications)| + 1
      ensures !Truthy(animalId) ==> reply == Error(400, "missing animalId")
      ensures Truthy(animalId) ==>
        var who := ResolveApplicant(users, userId, name, email);
        if who.None? then reply == Error(500, "server error")
        else if !Truthy(who.value.name) || !Truthy(who.value.email) then reply == Error(400, "missing user details")
        else
          var doc := ApplicationDocument(ObjectId(old(clock)), who.value.user, animalId.s, who.value.name.s,
                                         who.value.email.s, message, old(clock));
          if doc.None? then reply == Error(500, "server error")
          else (reply == Json(200, ObjectId(old(clock))) && ObjectId(old(clock)) !in old(applications)
            && applications == old(applications)[ObjectId(old(clock)) := doc.value] && clock == old(clock) + 1)
    {
      if !Truthy(animalId) {
        return Error(400, "missing animalId");
      }
      var who := ResolveApplicant(users, userId, name, email);
      if who.None? {
        return Error(500, "server error");
      }
      if !Truthy(who.value.name) || !Truthy(who.value.email) {
        return Error(400, "missing user details");
      }
      var doc := ApplicationDocument(ObjectId(clock), who.value.user, animalId.s, who.value.name.s,
                                     who.value.email.s, message, clock);
      if doc.None? {
        return Error(500, "server error");
      }
      InsertApplication(doc.value);
      reply := Json(200, doc.value.id);
    }

    /** `POST /api/feedback`: 201 with the new feedback's id. */
    method SubmitFeedback(name: Field, email: Field, message: Field) returns (reply: Reply<ObjectId>)
      requires Valid()
      modifies this
      ensures Valid()
      ensures animals == old(animals) && users == old(users) && applications == old(applications)
      ensures !reply.Json? ==> feedback == old(feedback) && clock == old(clock)
      ensures !Truthy(name) || !Truthy(email) || !Truthy(message) ==> reply == Error(400, FeedbackFieldsRequired)
      ensures Truthy(name) && Truthy(email) && Truthy(message) ==>
        (reply == Error(500, "Server error") <==>
          !(2 <= |Trim(name.s)| <= 100) || AllWhitespace(email.s) || AllWhitespace(message.s) || |Trim(message.s)| > 1000)
      ensures reply.Json? ==> (reply.status == 201 && reply.body == ObjectId(old(clock))
        && ObjectId(old(clock)) !in old(feedback) && clock == old(clock) + 1
        && feedback == old(feedback)[ObjectId(old(clock)) := Feedback(ObjectId(old(clock)), Trim(name.s), NormalEmail(email.s), Trim(message.s), old(clock))])
    {
      if !Truthy(name) || !Truthy(email) || !Truthy(message) {
        return Error(400, FeedbackFieldsRequired);
      }
      var doc := FeedbackDocument(ObjectId(clock), Trim(name.s), Trim(Lower(email.s)), Trim(message.s), clock);
      if 2 <= |Trim(name.s)| <= 100 && !AllWhitespace(email.s) && !AllWhitespace(message.s) && |Trim(message.s)| <= 1000 {
        FeedbackDocumentAccepted(ObjectId(clock), name.s, email.s, message.s, clock);
      } else {
        FeedbackDocumentRefused(ObjectId(clock), name.s, email.s, message.s, clock);
      }
      if doc.None? {
        return Error(500, "Server error");
      }
      HandlerValuesSettle(name.s, email.s, message.s);
      InsertFeedback(doc.value);
      reply := Json(201, doc.value.id);
    }

    /**
     * `POST /api/auth/signup`. The salt that `bcrypt.genSalt` draws is a
     * parameter. A successful signup can log in straight away.
     */
    method Signup(name: Field, email: Field, password: Field, mobile: Field, address: Field, salt: nat)
      returns (reply: Reply<SafeUser>)
      requires Valid()
      modifies this
      ensures Valid()
      ensures animals == old(animals) && applications == old(applications) && feedback == old(feedback)
      ensures !reply.Json? ==> users == old(users) && clock == old(clock)
      ensures !Truthy(name) || !Truthy(email) || !Truthy(password) ==> reply == Error(400, SignupFieldsRequired)
      ensures Truthy(name) && Truthy(email) && Truthy(password) ==>
        if EmailTaken(old(users), email.s) then reply == Error(409, "Email already registered")
        else
          var doc := UserDocument(ObjectId(old(clock)), name.s, Lower(email.s), Hash(password.s, salt),
                                  TrimOrAbsent(mobile), TrimOrAbsent(address), old(clock));
          if doc.None? then reply == Error(500, "Server error")
          else (reply == Json(201, SafeUserOf(doc.value)) && ObjectId(old(clock)) !in old(users)
            && users == old(users)[ObjectId(old(clock)) := doc.value] && clock == old(clock) + 1)
      ensures reply.Json? ==> Login(users, clock, email, password) == Json(200, reply.body)
    {
      if !Truthy(name) || !Truthy(email) || !Truthy(password) {
        return Error(400, SignupFieldsRequired);
      }
      FindByEmailIff(users, clock, email.s);
      NormalEmailOfLower(email.s);
      var existing := FindByEmail(users, clock, Lower(email.s));
      if existing.Some? {
        return Error(409, "Email already registered");
      }
      var id := ObjectId(clock);
      var hash := Hash(password.s, salt);
      var doc := UserDocument(id, name.s, Lower(email.s), hash, TrimOrAbsent(mobile), TrimOrAbsent(address), clock);
      if doc.None? {
        return Error(500, "Server error");
      }
      InsertUser(doc.value);
      LoginAfterSignup(users, clock, id, email.s, password.s, salt);
      reply := Json(201, SafeUserOf(doc.value));
    }

    /**
     * `PUT /api/users/:id`: the id format and the name rule are checked before
     * any lookup; the edited user is saved with validation.
     */
    method UpdateProfile(id: string, name: Field, mobile: Field, address: Field) returns (reply: Reply<SafeUser>)
      requires Valid()
      modifies this
      ensures Valid()
      ensures animals == old(animals) && applications == old(applications) && feedback == old(feedback) && clock == old(clock)
      ensures !reply.Json? ==> users == old(users)
      ensures users.Keys == old(users).Keys
      ensures forall k :: k in users ==> users[k].email == old(users)[k].email && users[k].passwordHash == old(users)[k].passwordHash
      ensures !IsObjectIdString(id) ==> reply == Error(400, "Invalid user ID format")
      ensures IsObjectIdString(id) && (!Truthy(name) || |Trim(name.s)| < 2) ==> reply == Error(400, NameRule)
      ensures IsObjectIdString(id) && Truthy(name) && 2 <= |Trim(name.s)| ==>
        var key := ParseObjectId(id).value;
        if key !in old(users) then reply == Error(404, "User not found")
        else
          var edited := ProfileEdit(old(users)[key], name.s, mobile, address);
          if edited.None? then reply == Error(500, "Server error")
          else reply == Json(200, SafeUserOf(edited.value)) && users == old(users)[key := edited.value]
    {
      var parsed := ParseObjectId(id);
      if parsed.None? {
        return Error(400, "Invalid user ID format");
      }
      if !Truthy(name) || |Trim(name.s)| < 2 {
        return Error(400, NameRule);
      }
      var key := parsed.value;
      if key !in users {
        return Error(404, "User not found");
      }
      var edited := ProfileEdit(users[key], name.s, mobile, address);
      if edited.None? {
        return Error(500, "Server error");
      }
      ProfileEditKeepsIdentity(users, clock, key, name.s, mobile, address);
      CredentialsKept(users, edited.value);
      ReplaceUser(edited.value);
      reply := Json(200, SafeUserOf(edited.value));
    }
  }
}
