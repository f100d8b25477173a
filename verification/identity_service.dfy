/** The identity service: registration stores a user under its lower-cased
    email, and login checks a password against the stored hash before issuing
    claims. Hashing, verification and signing are opaque functions passed in. */
module IdentityService {
  import opened Prelude
  import opened Http
  import opened Tokens

  // ---------------------------------------------------------------------
  // Email normalisation
  // ---------------------------------------------------------------------

  predicate IsUpper(c: char)
  {
    'A' <= c <= 'Z'
  }

  /** Lower-casing of one character (ASCII letters only). */
  function LowerChar(c: char): char
  {
    if IsUpper(c) then (c as int + 32) as char else c
  }

  /** `str::to_lowercase`, character by character. */
  function Lower(s: string): (r: string)
    ensures |r| == |s|
    ensures forall i :: 0 <= i < |s| ==> r[i] == LowerChar(s[i])
  {
    if s == [] then [] else [LowerChar(s[0])] + Lower(s[1..])
  }

  /** Text with no upper-case letter. */
  predicate LowerText(s: string)
  {
    forall i :: 0 <= i < |s| ==> !IsUpper(s[i])
  }

  /** Two characters that are the same letter up to case, or simply equal. */
  predicate SameIgnoringCase(a: char, b: char)
  {
    || a == b
    || (IsUpper(a) && b as int == a as int + 32)
    || (IsUpper(b) && a as int == b as int + 32)
  }

  /** Two texts that differ at most in the case of their letters. */
  predicate EqualIgnoringCase(s: string, t: string)
  {
    |s| == |t| && forall i :: 0 <= i < |s| ==> SameIgnoringCase(s[i], t[i])
  }

  /** Lower-casing leaves no upper-case letter. */
  lemma LowerIsLower(s: string)
    ensures LowerText(Lower(s))
  {
  }

  /** Exactly the lower-case texts are left unchanged by lower-casing. */
  lemma LowerFixesExactlyLowerText(s: string)
    ensures Lower(s) == s <==> LowerText(s)
  {
    if LowerText(s) {
      assert forall i :: 0 <= i < |s| ==> Lower(s)[i] == s[i];
    }
    if Lower(s) == s {
      forall i | 0 <= i < |s|
        ensures !IsUpper(s[i])
      {
        assert LowerChar(s[i]) == s[i];
      }
    }
  }

  /** Normalising twice is normalising once. */
  lemma LowerIdempotent(s: string)
    ensures Lower(Lower(s)) == Lower(s)
  {
    LowerIsLower(s);
    LowerFixesExactlyLowerText(Lower(s));
  }

  /** Two emails normalise to the same key exactly when they differ only in
      the case of their letters. */
  lemma LowerEqualIffEqualIgnoringCase(s: string, t: string)
    ensures Lower(s) == Lower(t) <==> EqualIgnoringCase(s, t)
  {
    if Lower(s) == Lower(t) {
      forall i | 0 <= i < |s|
        ensures SameIgnoringCase(s[i], t[i])
      {
        assert LowerChar(s[i]) == LowerChar(t[i]);
      }
    }
    if EqualIgnoringCase(s, t) {
      forall i | 0 <= i < |s|
        ensures Lower(s)[i] == Lower(t)[i]
      {
        assert SameIgnoringCase(s[i], t[i]);
      }
    }
  }

  /** The documented example: `A@X.com` is stored as `a@x.com`. */
  lemma MixedCaseExample()
    ensures Lower("A@X.com") == "a@x.com"
  {
  }

  // ---------------------------------------------------------------------
  // Users and the opaque credential functions
  // ---------------------------------------------------------------------

  /** A user row. The password hash is kept for login and never answered. */
  datatype User = User(
    id: Uuid,
    firstName: string,
    lastName: string,
    username: string,
    email: string,
    role: Role,
    createdAt: int,
    passwordHash: string)

  /** The registration payload: it has no role field, so the caller cannot
      choose one. */
  datatype NewUser = NewUser(
    firstName: string,
    lastName: string,
    username: string,
    email: string,
    password: string)

  /** The public view of a user: it has no password-hash field. */
  datatype UserResponse = UserResponse(
    id: Uuid,
    firstName: string,
    lastName: string,
    username: string,
    email: string,
    role: Role)

  datatype LoginPayload = LoginPayload(email: string, password: string)

  /** The users table, keyed by the stored email (the unique column). */
  type UserStore = map<string, User>

  /** bcrypt's default work factor. */
  const DefaultCost: nat := 12

  /** Hashing a password at a cost; `None` is a hashing failure. */
  type Hasher = (string, nat) -> Option<string>

  /** Checking a password against a stored hash. */
  datatype PasswordCheck = Matches | Mismatch | VerifyError

  type Verifier = (string, string) -> PasswordCheck

  /** The assumption relating the opaque hasher and verifier: a password
      verifies against a hash made from it. */
  ghost predicate HashVerifySound(hash: Hasher, verify: Verifier)
  {
    forall p: string, cost: nat :: hash(p, cost).Some? ==> verify(p, hash(p, cost).value) == Matches
  }

  /** The user table's invariant: every row is stored under its own email,
      that email is lower-case, and no two rows share an id. */
  ghost predicate UsersWellFormed(store: UserStore)
  {
    && (forall e :: e in store ==> store[e].email == e && LowerText(e))
    && (forall e, f :: e in store && f in store && e != f ==> store[e].id != store[f].id)
  }

  predicate IdTaken(store: UserStore, id: Uuid)
  {
    exists e :: e in store && store[e].id == id
  }

  /** The public view of a stored user. */
  function ToResponse(u: User): (r: UserResponse)
    ensures r.id == u.id && r.email == u.email && r.role == u.role
    ensures r.firstName == u.firstName && r.lastName == u.lastName && r.username == u.username
  {
    UserResponse(u.id, u.firstName, u.lastName, u.username, u.email, u.role)
  }

  /** The response does not depend on the stored hash at all. */
  lemma ResponseHidesHash(u: User, h: string)
    ensures ToResponse(u.(passwordHash := h)) == ToResponse(u)
  {
  }

  // ---------------------------------------------------------------------
  // register
  // ---------------------------------------------------------------------

  datatype Registered = Registered(status: Status, body: Option<UserResponse>, store: UserStore)

  /** `register`: hash first (500 on failure, before any insert), then insert
      under the lower-cased email. A taken email or id is a unique violation
      (409); any other store fault is a 500. The new user's role is the
      table's default, whatever the payload. */
  function Register(
    store: UserStore, payload: NewUser, hash: Hasher,
    freshId: Uuid, createdAt: int, defaultRole: Role, fault: bool): (r: Registered)
    ensures hash(payload.password, DefaultCost).None? ==> r == Registered(InternalServerError, None, store)
    ensures hash(payload.password, DefaultCost).Some? && fault ==>
              r == Registered(InternalServerError, None, store)
    ensures hash(payload.password, DefaultCost).Some? && !fault
            && (Lower(payload.email) in store || IdTaken(store, freshId)) ==>
              r == Registered(Conflict, None, store)
    ensures r.status == Created <==>
              && hash(payload.password, DefaultCost).Some? && !fault
              && Lower(payload.email) !in store && !IdTaken(store, freshId)
    ensures r.status != Created ==> r.store == store && r.body.None?
    ensures r.status == Created ==>
              var e := Lower(payload.email);
              && r.store.Keys == store.Keys + {e}
              && (forall k :: k in store ==> r.store[k] == store[k])
              && r.store[e].id == freshId
              && r.store[e].email == e
              && r.store[e].role == defaultRole
              && r.store[e].passwordHash == hash(payload.password, DefaultCost).value
              && r.store[e].firstName == payload.firstName
              && r.store[e].lastName == payload.lastName
              && r.store[e].username == payload.username
              && r.body == Some(ToResponse(r.store[e]))
    ensures UsersWellFormed(store) ==> UsersWellFormed(r.store)
  {
    match hash(payload.password, DefaultCost)
    case None => Registered(InternalServerError, None, store)
    case Some(h) =>
      var email := Lower(payload.email);
      if fault then
        Registered(InternalServerError, None, store)
      else if email in store || IdTaken(store, freshId) then
        Registered(Conflict, None, store)
      else
        LowerIsLower(payload.email);
        var user := User(freshId, payload.firstName, payload.lastName, payload.username,
                         email, defaultRole, createdAt, h);
        Registered(Created, Some(ToResponse(user)), store[email := user])
  }

  /** A second registration of the same address, in any letter case, is a
      409 and leaves the first user in place. */
  lemma DuplicateEmailConflicts(
    store: UserStore, first: NewUser, second: NewUser, hash: Hasher,
    id1: Uuid, id2: Uuid, t1: int, t2: int, role: Role)
    requires EqualIgnoringCase(first.email, second.email)
    requires Register(store, first, hash, id1, t1, role, false).status == Created
    requires hash(second.password, DefaultCost).Some?
    ensures var s1 := Register(store, first, hash, id1, t1, role, false).store;
            Register(s1, second, hash, id2, t2, role, false) == Registered(Conflict, None, s1)
  {
    LowerEqualIffEqualIgnoringCase(first.email, second.email);
  }

  // ---------------------------------------------------------------------
  // login
  // ---------------------------------------------------------------------

  datatype LoginReply = LoginReply(status: Status, token: Option<string>)

  /** `login`: look up the lower-cased email (401 if unknown), verify the
      password (500 on a verifier error, 401 on mismatch), then sign the
      claims `{sub: id, role, exp: now + 24h}` (500 if signing fails). */
  function Login(
    store: UserStore, payload: LoginPayload, verify: Verifier, encode: Encoder,
    secret: string, now: int, fault: bool): (r: LoginReply)
    ensures fault ==> r == LoginReply(InternalServerError, None)
    ensures !fault && Lower(payload.email) !in store ==> r == LoginReply(Unauthorized, None)
    ensures !fault && Lower(payload.email) in store ==>
              var u := store[Lower(payload.email)];
              && (verify(payload.password, u.passwordHash) == VerifyError ==> r == LoginReply(InternalServerError, None))
              && (verify(payload.password, u.passwordHash) == Mismatch ==> r == LoginReply(Unauthorized, None))
    ensures !fault && Lower(payload.email) in store
            && verify(payload.password, store[Lower(payload.email)].passwordHash) == Matches
            && encode(Claims(store[Lower(payload.email)].id, store[Lower(payload.email)].role, now + TokenLifetime), secret).None? ==>
              r == LoginReply(InternalServerError, None)
    ensures r.status == Ok <==>
              && !fault && Lower(payload.email) in store
              && verify(payload.password, store[Lower(payload.email)].passwordHash) == Matches
              && encode(Claims(store[Lower(payload.email)].id, store[Lower(payload.email)].role, now + TokenLifetime), secret).Some?
    ensures r.status == Ok ==>
              var u := store[Lower(payload.email)];
              r.token == encode(Claims(u.id, u.role, now + TokenLifetime), secret)
    ensures r.status != Ok ==> r.token.None? && r.status in {Unauthorized, InternalServerError}
  {
    if fault then LoginReply(InternalServerError, None)
    else
      var email := Lower(payload.email);
      if email !in store then LoginReply(Unauthorized, None)
      else
        var user := store[email];
        match verify(payload.password, user.passwordHash)
        case VerifyError => LoginReply(InternalServerError, None)
        case Mismatch => LoginReply(Unauthorized, None)
        case Matches =>
          match encode(IssueClaims(user.id, user.role, now), secret)
          case None => LoginReply(InternalServerError, None)
          case Some(token) => LoginReply(Ok, Some(token))
  }

  /** The letter case of the email does not change the login outcome. */
  lemma LoginIgnoresEmailCase(
    store: UserStore, e1: string, e2: string, password: string,
    verify: Verifier, encode: Encoder, secret: string, now: int, fault: bool)
    requires EqualIgnoringCase(e1, e2)
    ensures Login(store, LoginPayload(e1, password), verify, encode, secret, now, fault)
            == Login(store, LoginPayload(e2, password), verify, encode, secret, now, fault)
  {
    LowerEqualIffEqualIgnoringCase(e1, e2);
  }

  /** An unknown email and a wrong password give the very same answer, so a
      caller cannot tell which accounts exist; a verifier error does not. */
  lemma UnknownAndWrongPasswordAlike(
    store: UserStore, unknown: LoginPayload, known: LoginPayload,
    verify: Verifier, encode: Encoder, secret: string, now: int)
    requires Lower(unknown.email) !in store
    requires Lower(known.email) in store
    requires verify(known.password, store[Lower(known.email)].passwordHash) != Matches
    ensures var a := Login(store, unknown, verify, encode, secret, now, false);
            var b := Login(store, known, verify, encode, secret, now, false);
            a == LoginReply(Unauthorized, None)
            && (a == b <==> verify(known.password, store[Lower(known.email)].passwordHash) == Mismatch)
  {
  }

  /** A user just registered can log in with the same password under any
      letter case of the email, and the issued token carries the new id and
      the default role. */
  lemma RegisterThenLogin(
    store: UserStore, payload: NewUser, hash: Hasher, verify: Verifier, encode: Encoder,
    freshId: Uuid, createdAt: int, defaultRole: Role, email: string, secret: string, now: int)
    requires HashVerifySound(hash, verify)
    requires EqualIgnoringCase(email, payload.email)
    requires Register(store, payload, hash, freshId, createdAt, defaultRole, false).status == Created
    requires encode(Claims(freshId, defaultRole, now + TokenLifetime), secret).Some?
    ensures var s := Register(store, payload, hash, freshId, createdAt, defaultRole, false).store;
            Login(s, LoginPayload(email, payload.password), verify, encode, secret, now, false)
            == LoginReply(Ok, encode(Claims(freshId, defaultRole, now + TokenLifetime), secret))
  {
    LowerEqualIffEqualIgnoringCase(email, payload.email);
    var s := Register(store, payload, hash, freshId, createdAt, defaultRole, false).store;
    var e := Lower(payload.email);
    assert s[e].passwordHash == hash(payload.password, DefaultCost).value;
  }
}
