/** Registration and login, with the password hook of the user schema. The
    password hashing and comparison library and the token signer are outside
    this model: they are the parameters of `Crypto`. */
module Auth {
  import opened Base
  import opened Text
  import opened Models
  import opened Database

  /** The outside services the auth routes call: the salted hash
      (`bcrypt.hash`), the comparison (`bcrypt.compare`; `None` when it
      throws) and the token signer. */
  datatype Crypto = Crypto(
    hash: string -> string,
    compare: (string, string) -> Option<bool>,
    token: Id -> string)

  /** A comparison that accepts the hash of the same password. */
  ghost predicate Sound(c: Crypto) {
    forall p: string :: c.compare(p, c.hash(p)) == Some(true)
  }

  // ---------------------------------------------------------------------
  // The user schema's password hook and method.

  /** The pre-save hook: the password is hashed only when it was modified. */
  function PreSave(u: User, passwordModified: bool, c: Crypto): (v: User)
    ensures passwordModified ==> v == u.(password := c.hash(u.password))
    ensures !passwordModified ==> v == u
  {
    if !passwordModified then u else u.(password := c.hash(u.password))
  }

  /** `comparePassword`: a comparison that throws counts as a mismatch. */
  function ComparePassword(u: User, candidate: string, c: Crypto): (ok: bool)
    ensures ok <==> c.compare(candidate, u.password) == Some(true)
  {
    match c.compare(candidate, u.password)
    case Some(b) => b
    case None => false
  }

  // ---------------------------------------------------------------------
  // Register.

  datatype RegisterBody = RegisterBody(
    username: Option<string>, email: Option<string>, password: Option<string>, name: Option<string>)

  /** What register and login return: the account and a signed token. */
  datatype AuthData = AuthData(user: Id, username: string, email: string, name: string, avatar: string, token: string)

  const MissingFieldsMessage: string := "Please provide username, email, password, and name"

  /** The document `User.create` is given, after the `lowercase` and `trim`
      setters and the defaults; its password is still the raw one. */
  function Candidate(username: string, email: string, password: string, name: string): (u: User)
    ensures u.username == Trim(Lower(username)) && u.email == Lower(email)
    ensures u.password == password && u.name == Trim(name)
    ensures u.avatar == "https://i.pravatar.cc/150?u=" + username
    ensures u.bio == "" && u.website == "" && u.followers == [] && u.following == []
    ensures !u.verified && !u.isPrivate
  {
    User(Trim(Lower(username)), Lower(email), password, Trim(name),
      "https://i.pravatar.cc/150?u=" + username, "", "", [], [], false, false)
  }

  /** The existence check: a user with the lower-cased email or the
      canonical username. The route lower-cases both values itself, and the
      query then runs each through its path's setters (`lowercase` for the
      email; `trim` and `lowercase` for the username), so the username
      compared is the same one `User.create` would store. */
  predicate Conflicts(s: Store, username: string, email: string, id: Id) {
    id in s.users && (s.users[id].email == Lower(email) || s.users[id].username == Trim(Lower(username)))
  }

  /** A user holding `username` in the unique username index. */
  predicate HoldsUsername(s: Store, username: string, id: Id) {
    id in s.users && s.users[id].username == username
  }

  /** `User.findOne` with the existence check's `$or`. */
  function Existing(s: Store, username: string, email: string): (r: Option<Id>)
    requires IdsFresh(s)
    ensures r.Some? ==> Conflicts(s, username, email, r.value)
    ensures r.Some? ==> forall y: Id | y < r.value :: !Conflicts(s, username, email, y)
    ensures r.None? <==> forall id | id in s.users :: !Conflicts(s, username, email, id)
  {
    var p := (id: Id) => Conflicts(s, username, email, id);
    assert forall id | id in s.users :: p(id) == Conflicts(s, username, email, id) && id < s.nextId;
    var r := FirstBelow(s.nextId, p);
    assert r.Some? ==> forall y: Id | y < r.value :: p(y) == Conflicts(s, username, email, y);
    r
  }

  /** The unique username index: the holder of `username`, if any. */
  function UsernameHolder(s: Store, username: string): (r: Option<Id>)
    requires IdsFresh(s)
    ensures r.Some? ==> HoldsUsername(s, username, r.value)
    ensures r.None? <==> forall id | id in s.users :: !HoldsUsername(s, username, id)
  {
    var p := (id: Id) => HoldsUsername(s, username, id);
    assert forall id | id in s.users :: p(id) == HoldsUsername(s, username, id) && id < s.nextId;
    FirstBelow(s.nextId, p)
  }

  /** Inserts `u` under the next id. */
  function AddUser(s: Store, u: User): (t: Store)
    ensures t.users == s.users[s.nextId := u] && t.nextId == s.nextId + 1
    ensures t.posts == s.posts && t.comments == s.comments && t.stories == s.stories
  {
    s.(users := s.users[s.nextId := u], nextId := s.nextId + 1)
  }

  /** `id` is the user the model takes the existence check's `findOne` to
      return: the conflicting user with the lowest id. Which match the
      database returns is its own choice; `ExistingRefuses` states what holds
      whichever it is. */
  ghost predicate FirstConflict(s: Store, username: string, email: string, id: Id) {
    Conflicts(s, username, email, id) && forall y: Id | y < id :: !Conflicts(s, username, email, y)
  }

  /** Why a registration is refused: the route's own checks, and the two
      kinds of database error its `catch` block translates. */
  datatype RegisterError =
    | MissingFields
    | EmailRegistered
    | UsernameTaken
    | ValidationFailed(errors: seq<FieldError>)
    | DuplicateKey(field: string)

  /** The `catch` block and the early returns: every refusal is a 400 with
      this message. */
  function ErrorMessage(e: RegisterError): (m: string)
    ensures e.ValidationFailed? ==> m == Join(Messages(e.errors), ", ")
    ensures e.DuplicateKey? ==> m == e.field + " already exists"
  {
    match e
    case MissingFields => MissingFieldsMessage
    case EmailRegistered => "Email already registered"
    case UsernameTaken => "Username already taken"
    case ValidationFailed(errs) => Join(Messages(errs), ", ")
    case DuplicateKey(field) => field + " already exists"
  }

  /** The messages of the refusals with fixed wording. */
  lemma FixedMessages()
    ensures ErrorMessage(EmailRegistered) == "Email already registered"
    ensures ErrorMessage(UsernameTaken) == "Username already taken"
    ensures ErrorMessage(DuplicateKey("username")) == "username already exists"
  {
  }

  datatype Decision = Refused(error: RegisterError) | Accepted(account: User)

  /** The outcome of register once every field is present, for the
      candidate document `u`: the existence check, then validation of the
      new document, then the unique index. */
  function Decide(s: Store, username: string, email: string, u: User, c: Crypto): (d: Decision)
    requires IdsFresh(s)
    ensures forall id | FirstConflict(s, username, email, id) ::
      d == Refused(if s.users[id].email == Lower(email) then EmailRegistered else UsernameTaken)
    ensures (forall id | id in s.users :: !Conflicts(s, username, email, id)) ==> d == Admit(s, u, c)
  {
    match Existing(s, username, email)
    case Some(id) =>
      FirstConflictUnique(s, username, email, id);
      Refused(if s.users[id].email == Lower(email) then EmailRegistered else UsernameTaken)
    case None => Admit(s, u, c)
  }

  /** There is at most one first conflict. */
  lemma FirstConflictUnique(s: Store, username: string, email: string, id: Id)
    requires FirstConflict(s, username, email, id)
    ensures forall y | FirstConflict(s, username, email, y) :: y == id
  {
  }

  /** `User.create` after the existence check: the validation errors of the
      candidate `u`, in schema order; a unique-index violation on the
      username; or the new account, its password hashed by the pre-save
      hook. */
  function Admit(s: Store, u: User, c: Crypto): (d: Decision)
    requires IdsFresh(s)
    ensures d.Accepted? <==>
      UserFieldsOk(u) && PasswordOk(u.password) && forall id | id in s.users :: !HoldsUsername(s, u.username, id)
    ensures UserErrors(u) != [] ==> d == Refused(ValidationFailed(UserErrors(u)))
    ensures UserErrors(u) == [] ==> (exists id :: HoldsUsername(s, u.username, id)) ==> d == Refused(DuplicateKey("username"))
    ensures d.Accepted? ==> d.account == PreSave(u, true, c)
  {
    var errs := UserErrors(u);
    if errs != [] then Refused(ValidationFailed(errs))
    else
      match UsernameHolder(s, u.username)
      case Some(_) => Refused(DuplicateKey("username"))
      case None => Accepted(PreSave(u, true, c))
  }

  /** The candidate for a register body whose fields are all present. */
  function BodyCandidate(body: RegisterBody): User
    requires body.username.Some? && body.email.Some? && body.password.Some? && body.name.Some?
  {
    Candidate(body.username.value, body.email.value, body.password.value, body.name.value)
  }

  predicate AllPresent(body: RegisterBody) {
    Truthy(body.username) && Truthy(body.email) && Truthy(body.password) && Truthy(body.name)
  }

  /** POST /auth/register. */
  function Register(s: Store, body: RegisterBody, c: Crypto): (r: Step<AuthData>)
    requires IdsFresh(s)
    ensures r.response.Err? ==> r.store == s && r.response.status == 400
    ensures !AllPresent(body) ==> r.response == Err(400, MissingFieldsMessage)
    ensures AllPresent(body) ==>
      var d := Decide(s, body.username.value, body.email.value, BodyCandidate(body), c);
      && (d.Refused? ==> r.response == Err(400, ErrorMessage(d.error)))
      && (d.Accepted? ==>
            var id, u := s.nextId, d.account;
            && r.response == Ok(201, AuthData(id, u.username, u.email, u.name, u.avatar, c.token(id)))
            && r.store == AddUser(s, u))
  {
    if !AllPresent(body) then Step(s, Err(400, ErrorMessage(MissingFields)))
    else
      match Decide(s, body.username.value, body.email.value, BodyCandidate(body), c)
      case Refused(e) => Step(s, Err(400, ErrorMessage(e)))
      case Accepted(u) =>
        var id := s.nextId;
        Step(AddUser(s, u), Ok(201, AuthData(id, u.username, u.email, u.name, u.avatar, c.token(id))))
  }

  /** What register needs to succeed: every field present, no account with
      the lower-cased email or the canonical username (the existence check),
      and a candidate that validates. The unique username index adds no
      condition: the existence check already compares the username the
      candidate would hold (`IndexNeverFires`). */
  ghost predicate Admissible(s: Store, body: RegisterBody) {
    && AllPresent(body)
    && (forall id | id in s.users :: !Conflicts(s, body.username.value, body.email.value, id))
    && UserFieldsOk(BodyCandidate(body))
    && PasswordOk(body.password.value)
  }

  /** Register succeeds exactly when the body is admissible. */
  lemma RegisterAccepts(s: Store, body: RegisterBody, c: Crypto)
    requires IdsFresh(s)
    ensures Register(s, body, c).response.Ok? <==> Admissible(s, body)
  {
    if Register(s, body, c).response.Ok? {
      RegisterOkIsAdmissible(s, body, c);
    } else if Admissible(s, body) {
      AdmissibleIsOk(s, body, c);
    }
  }

  lemma RegisterOkIsAdmissible(s: Store, body: RegisterBody, c: Crypto)
    requires IdsFresh(s)
    requires Register(s, body, c).response.Ok?
    ensures Admissible(s, body)
  {
    RegisterStores(s, body, c);
    RegisterValidated(s, body, c);
  }

  lemma AdmissibleIsOk(s: Store, body: RegisterBody, c: Crypto)
    requires IdsFresh(s)
    requires Admissible(s, body)
    ensures Register(s, body, c).response.Ok?
  {
    var u := BodyCandidate(body);
    assert Existing(s, body.username.value, body.email.value).None?;
    assert Admit(s, u, c).Accepted?;
  }

  /** A successful register stores the candidate, its password hashed, under
      the next id, and changes nothing else. */
  lemma RegisterStores(s: Store, body: RegisterBody, c: Crypto)
    requires IdsFresh(s)
    requires Register(s, body, c).response.Ok?
    ensures AllPresent(body)
    ensures forall id | id in s.users :: !Conflicts(s, body.username.value, body.email.value, id)
    ensures var t := Register(s, body, c).store;
      var u := BodyCandidate(body);
      && t.users == s.users[s.nextId := u.(password := c.hash(body.password.value))]
      && t.posts == s.posts && t.comments == s.comments && t.stories == s.stories
      && t.nextId == s.nextId + 1
  {
    var username, email := body.username.value, body.email.value;
    var u := BodyCandidate(body);
    var d := Decide(s, username, email, u, c);
    assert d.Accepted?;
    assert Existing(s, username, email).None?;
    assert d == Admit(s, u, c);
  }

  /** An account holding the candidate's username conflicts in the
      existence check. */
  lemma HolderConflicts(s: Store, body: RegisterBody, id: Id)
    requires AllPresent(body)
    requires HoldsUsername(s, BodyCandidate(body).username, id)
    ensures Conflicts(s, body.username.value, body.email.value, id)
  {
  }

  /** The unique username index never refuses a registration: a candidate
      that gets past the existence check holds a username no account has. */
  lemma IndexNeverFires(s: Store, body: RegisterBody, c: Crypto)
    requires IdsFresh(s) && AllPresent(body)
    ensures Decide(s, body.username.value, body.email.value, BodyCandidate(body), c) != Refused(DuplicateKey("username"))
  {
    var username, email := body.username.value, body.email.value;
    var u := BodyCandidate(body);
    var found := Existing(s, username, email);
    if found.Some? {
      assert FirstConflict(s, username, email, found.value);
    } else {
      forall id | id in s.users ensures !HoldsUsername(s, u.username, id) {
        if HoldsUsername(s, u.username, id) {
          HolderConflicts(s, body, id);
        }
      }
      AdmitWithoutHolder(s, u, c);
    }
  }

  /** Without a holder of the candidate's username, `User.create` does not
      report a duplicate key. */
  lemma AdmitWithoutHolder(s: Store, u: User, c: Crypto)
    requires IdsFresh(s)
    requires forall id | id in s.users :: !HoldsUsername(s, u.username, id)
    ensures Admit(s, u, c) != Refused(DuplicateKey("username"))
  {
  }

  /** The existence check's refusal, whichever conflicting account the query
      returns: "Email already registered" when every conflicting account has
      the email, "Username already taken" when none has it. */
  lemma ExistingRefuses(s: Store, body: RegisterBody, c: Crypto, holder: Id)
    requires IdsFresh(s) && AllPresent(body)
    requires Conflicts(s, body.username.value, body.email.value, holder)
    ensures (forall id | Conflicts(s, body.username.value, body.email.value, id) ::
               s.users[id].email == Lower(body.email.value)) ==>
      Register(s, body, c) == Step(s, Err(400, "Email already registered"))
    ensures (forall id | Conflicts(s, body.username.value, body.email.value, id) ::
               s.users[id].email != Lower(body.email.value)) ==>
      Register(s, body, c) == Step(s, Err(400, "Username already taken"))
  {
    var username, email := body.username.value, body.email.value;
    var found := Existing(s, username, email);
    assert found.Some?;
    FixedMessages();
    if s.users[found.value].email == Lower(email) {
      RegisterRefused(s, body, c, EmailRegistered);
    } else {
      RegisterRefused(s, body, c, UsernameTaken);
    }
  }

  /** Registering the same body twice: the second attempt finds the first
      account by its email. */
  lemma RegisterTwiceFails(s: Store, body: RegisterBody, c: Crypto)
    requires IdsFresh(s)
    requires Register(s, body, c).response.Ok?
    ensures IdsFresh(Register(s, body, c).store)
    ensures var t := Register(s, body, c).store;
      Register(t, body, c) == Step(t, Err(400, "Email already registered"))
  {
    RegisterAddsFreshAccount(s, body, c);
    var username, email := body.username.value, body.email.value;
    var u := BodyCandidate(body);
    var v := PreSave(u, true, c);
    assert v.email == Lower(email);
    NewAccountConflictsFirst(s, v, username, email, u, c);
    RegisterRefused(AddUser(s, v), body, c, EmailRegistered);
    FixedMessages();
  }

  /** Register with every field present answers a refusal with its message
      and leaves the store alone. */
  lemma RegisterRefused(s: Store, body: RegisterBody, c: Crypto, e: RegisterError)
    requires IdsFresh(s) && AllPresent(body)
    requires Decide(s, body.username.value, body.email.value, BodyCandidate(body), c) == Refused(e)
    ensures Register(s, body, c) == Step(s, Err(400, ErrorMessage(e)))
  {
  }

  /** After an account with the email is added under the next id to a store
      where nothing conflicted, that account is the first conflict, and the
      existence check refuses the email. */
  lemma NewAccountConflictsFirst(s: Store, v: User, username: string, email: string, u: User, c: Crypto)
    requires IdsFresh(s)
    requires forall id | id in s.users :: !Conflicts(s, username, email, id)
    requires v.email == Lower(email)
    ensures IdsFresh(AddUser(s, v))
    ensures FirstConflict(AddUser(s, v), username, email, s.nextId)
    ensures Decide(AddUser(s, v), username, email, u, c) == Refused(EmailRegistered)
  {
    var t := AddUser(s, v);
    forall y: Id | y < s.nextId ensures !Conflicts(t, username, email, y) {
      if y in t.users {
        assert y in s.users;
      }
    }
  }

  // ---------------------------------------------------------------------
  // Login.

  datatype LoginData = LoginData(
    user: Id, username: string, email: string, name: string, avatar: string, bio: string,
    followers: nat, following: nat, token: string)

  /** The user whose stored email is `email`. */
  predicate HasEmail(s: Store, email: string, id: Id) {
    id in s.users && s.users[id].email == email
  }

  /** `User.findOne({ email })`. */
  function EmailOwner(s: Store, email: string): (r: Option<Id>)
    requires IdsFresh(s)
    ensures r.Some? ==> HasEmail(s, email, r.value)
    ensures r.None? <==> forall id | id in s.users :: !HasEmail(s, email, id)
  {
    var p := (id: Id) => HasEmail(s, email, id);
    assert forall id | id in s.users :: p(id) == HasEmail(s, email, id) && id < s.nextId;
    FirstBelow(s.nextId, p)
  }

  /** POST /auth/login. An unknown email and a wrong password get the same
      answer. */
  function Login(s: Store, email: Option<string>, password: Option<string>, c: Crypto): (r: Response<LoginData>)
    requires IdsFresh(s)
    ensures !(Truthy(email) && Truthy(password)) ==> r == Err(400, "Please provide email and password")
    ensures Truthy(email) && Truthy(password) && (forall id | id in s.users :: s.users[id].email != Lower(email.value)) ==>
      r == Err(401, "Invalid credentials")
    ensures r.Err? ==> r.status in {400, 401}
    ensures r.Ok? ==>
      var id := r.data.user;
      && r.status == 200
      && Truthy(email) && Truthy(password)
      && id in s.users && s.users[id].email == Lower(email.value)
      && ComparePassword(s.users[id], password.value, c)
      && r.data == LoginData(id, s.users[id].username, s.users[id].email, s.users[id].name,
           s.users[id].avatar, s.users[id].bio, |s.users[id].followers|, |s.users[id].following|, c.token(id))
  {
    if !(Truthy(email) && Truthy(password)) then Err(400, "Please provide email and password")
    else
      match EmailOwner(s, Lower(email.value))
      case None => Err(401, "Invalid credentials")
      case Some(id) =>
        var u := s.users[id];
        if !ComparePassword(u, password.value, c) then Err(401, "Invalid credentials")
        else
          Ok(200, LoginData(id, u.username, u.email, u.name, u.avatar, u.bio,
            |u.followers|, |u.following|, c.token(id)))
  }

  /** With unique emails, login accepts exactly the password that the account
      for that email accepts. */
  lemma LoginMatchesAccount(s: Store, email: string, password: string, c: Crypto, id: Id)
    requires IdsFresh(s) && AccountsOk(s)
    requires |email| > 0 && |password| > 0
    requires HasEmail(s, Lower(email), id)
    ensures Login(s, Some(email), Some(password), c).Ok? <==> ComparePassword(s.users[id], password, c)
    ensures Login(s, Some(email), Some(password), c).Ok? ==> Login(s, Some(email), Some(password), c).data.user == id
  {
    var found := EmailOwner(s, Lower(email));
    assert found.Some?;
    assert HasEmail(s, Lower(email), found.value);
  }

  /** A successful register answers with the new account's id and token. */
  lemma RegisterAnswers(s: Store, body: RegisterBody, c: Crypto)
    requires IdsFresh(s)
    requires Register(s, body, c).response.Ok?
    ensures var r := Register(s, body, c).response;
      r.status == 201 && r.data.user == s.nextId && r.data.token == c.token(s.nextId)
  {
  }

  /** Whoever registers can log in with the same email and password, as the
      account just created and with the same token. */
  lemma RegisterThenLogin(s: Store, body: RegisterBody, c: Crypto)
    requires IdsFresh(s) && Sound(c)
    requires Register(s, body, c).response.Ok?
    ensures IdsFresh(Register(s, body, c).store)
    ensures var r := Register(s, body, c);
      && Login(r.store, body.email, body.password, c).Ok?
      && Login(r.store, body.email, body.password, c).data.user == s.nextId
      && Login(r.store, body.email, body.password, c).data.token == r.response.data.token
  {
    RegisterAddsFreshAccount(s, body, c);
    RegisterAnswers(s, body, c);
    var v := PreSave(BodyCandidate(body), true, c);
    var email, password := body.email.value, body.password.value;
    assert v.email == Lower(email) && v.password == c.hash(password);
    LoginFindsAccount(s, v, email, password, c);
    assert body.email == Some(email) && body.password == Some(password);
  }

  /** Login on a store that gained, under the next id, the only account with
      the email, whose password is the hash of `password`. */
  lemma LoginFindsAccount(s: Store, v: User, email: string, password: string, c: Crypto)
    requires IdsFresh(s) && Sound(c)
    requires |email| > 0 && |password| > 0
    requires v.email == Lower(email) && v.password == c.hash(password)
    requires forall id | id in s.users :: s.users[id].email != v.email
    ensures IdsFresh(AddUser(s, v))
    ensures var login := Login(AddUser(s, v), Some(email), Some(password), c);
      login.Ok? && login.data.user == s.nextId && login.data.token == c.token(s.nextId)
  {
    var t := AddUser(s, v);
    var found := EmailOwner(t, Lower(email));
    assert HasEmail(t, Lower(email), s.nextId);
    assert found.value == s.nextId by {
      assert HasEmail(t, Lower(email), found.value);
    }
    assert c.compare(password, c.hash(password)) == Some(true);
  }

  // ---------------------------------------------------------------------
  // The store invariant.

  /** The candidate of a valid body is a document the schema can store. */
  lemma CandidateStored(body: RegisterBody)
    requires AllPresent(body)
    requires UserFieldsOk(BodyCandidate(body))
    ensures UserStored(BodyCandidate(body))
  {
    TrimLowerIsCanonical(body.username.value);
  }

  /** Adding an account whose username and email are new keeps the accounts
      unique. */
  lemma AddUserKeepsAccounts(s: Store, v: User)
    requires IdsFresh(s) && AccountsOk(s) && UserStored(v)
    requires forall id | id in s.users :: s.users[id].username != v.username && s.users[id].email != v.email
    ensures AccountsOk(AddUser(s, v))
  {
    var t := AddUser(s, v);
    forall a, b | a in t.users && b in t.users && a != b
      ensures t.users[a].username != t.users[b].username && t.users[a].email != t.users[b].email
    {
      if a != s.nextId && b != s.nextId {
        assert s.users[a] == t.users[a] && s.users[b] == t.users[b];
      }
    }
  }

  /** Adding an account with no edges keeps the follow graph consistent. */
  lemma AddUserKeepsGraph(s: Store, v: User)
    requires IdsFresh(s) && GraphOk(s)
    requires v.followers == [] && v.following == []
    ensures GraphOk(AddUser(s, v))
  {
    var t := AddUser(s, v);
    var n := s.nextId;
    forall a | a in t.users
      ensures EdgeListOk(t, a, t.users[a].followers) && EdgeListOk(t, a, t.users[a].following)
    {
      if a != n {
        assert EdgeListOk(s, a, s.users[a].followers) && EdgeListOk(s, a, s.users[a].following);
      }
    }
    forall a, b | a in t.users && b in t.users
      ensures b in t.users[a].following <==> a in t.users[b].followers
    {
      if a != n && b != n {
        assert b in s.users[a].following <==> a in s.users[b].followers;
      } else if a == n && b != n {
        assert EdgeListOk(s, b, s.users[b].followers);
      } else if b == n && a != n {
        assert EdgeListOk(s, a, s.users[a].following);
      }
    }
  }

  /** A successful register stored a candidate that validated and whose
      username no account holds. */
  lemma RegisterValidated(s: Store, body: RegisterBody, c: Crypto)
    requires IdsFresh(s)
    requires Register(s, body, c).response.Ok?
    ensures AllPresent(body)
    ensures UserFieldsOk(BodyCandidate(body))
    ensures forall id | id in s.users :: !HoldsUsername(s, BodyCandidate(body).username, id)
  {
    RegisterStores(s, body, c);
    assert Decide(s, body.username.value, body.email.value, BodyCandidate(body), c)
      == Admit(s, BodyCandidate(body), c);
  }

  /** A successful register is `AddUser` of the hashed candidate. */
  lemma RegisterAdds(s: Store, body: RegisterBody, c: Crypto)
    requires IdsFresh(s)
    requires Register(s, body, c).response.Ok?
    ensures AllPresent(body)
    ensures Register(s, body, c).store == AddUser(s, PreSave(BodyCandidate(body), true, c))
  {
    RegisterStores(s, body, c);
  }

  /** A successful register adds a storable account, new in username and
      email and without follow edges. */
  lemma RegisterAddsFreshAccount(s: Store, body: RegisterBody, c: Crypto)
    requires IdsFresh(s)
    requires Register(s, body, c).response.Ok?
    ensures AllPresent(body)
    ensures forall id | id in s.users :: !Conflicts(s, body.username.value, body.email.value, id)
    ensures var v := PreSave(BodyCandidate(body), true, c);
      && Register(s, body, c).store == AddUser(s, v)
      && UserStored(v) && v.followers == [] && v.following == []
      && forall id | id in s.users :: s.users[id].username != v.username && s.users[id].email != v.email
  {
    RegisterStores(s, body, c);
    RegisterValidated(s, body, c);
    RegisterAdds(s, body, c);
    CandidateStored(body);
  }

  lemma AddUserKeepsValid(s: Store, v: User)
    requires Valid(s) && UserStored(v) && v.followers == [] && v.following == []
    requires forall id | id in s.users :: s.users[id].username != v.username && s.users[id].email != v.email
    ensures Valid(AddUser(s, v))
  {
    AddUserKeepsAccounts(s, v);
    AddUserKeepsGraph(s, v);
    UserChangeKeepsRefs(s, AddUser(s, v));
  }

  lemma RegisterKeepsValid(s: Store, body: RegisterBody, c: Crypto)
    requires Valid(s)
    ensures Valid(Register(s, body, c).store)
  {
    if Register(s, body, c).response.Ok? {
      RegisterAddsFreshAccount(s, body, c);
      AddUserKeepsValid(s, PreSave(BodyCandidate(body), true, c));
    }
  }
}
