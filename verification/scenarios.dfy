/** End-to-end properties across the two services: a token issued at login
    admits its holder at the course service until it expires, with the role
    and subject snapshotted at login; creation binds ownership; only the
    owner mutates. */
module Scenarios {
  import opened Prelude
  import opened Http
  import opened Tokens
  import opened BearerGate
  import opened CourseService
  import opened IdentityService

  /** Under the codec assumption, the token a successful login issues is
      admitted by the course service's gate, under the same secret and at
      any time before its expiry, with the user's id and role as they were
      at login. */
  lemma IssuedTokenAdmitted(
    users: UserStore, payload: LoginPayload, verify: Verifier,
    encode: Encoder, decode: Decoder, secret: string, issuedAt: int, now: int)
    requires CodecSound(encode, decode)
    requires Login(users, payload, verify, encode, secret, issuedAt, false).status == Ok
    requires now < issuedAt + TokenLifetime
    ensures var token := Login(users, payload, verify, encode, secret, issuedAt, false).token.value;
            var u := users[Lower(payload.email)];
            && VisibleText(token)
            && ExtractClaims(BearerHeader(token), secret, now, decode)
               == Admitted(Claims(u.id, u.role, issuedAt + TokenLifetime))
  {
    var u := users[Lower(payload.email)];
    var c := Claims(u.id, u.role, issuedAt + TokenLifetime);
    var token := Login(users, payload, verify, encode, secret, issuedAt, false).token.value;
    assert encode(c, secret) == Some(token);
    assert decode(token, secret, now) == Some(c);
    BearerHeaderDecodesToken(token, secret, now, decode);
  }

  /** An instructor who logs in and presents the token creates a course
      owned by their own id. */
  lemma InstructorLoginCreatesOwnedCourse(
    users: UserStore, payload: LoginPayload, verify: Verifier,
    encode: Encoder, decode: Decoder, secret: string, issuedAt: int, now: int,
    courses: CourseStore, course: NewCourse, freshId: Uuid, createdAt: Option<int>)
    requires CodecSound(encode, decode)
    requires Login(users, payload, verify, encode, secret, issuedAt, false).status == Ok
    requires users[Lower(payload.email)].role == Instructor
    requires now < issuedAt + TokenLifetime
    requires freshId !in courses
    ensures var token := Login(users, payload, verify, encode, secret, issuedAt, false).token.value;
            && VisibleText(token)
            && var r := PostCourse(BearerHeader(token), secret, now, decode, courses, course, freshId, createdAt, false);
               && r.status == Created
               && r.store[freshId].instructorId == users[Lower(payload.email)].id
  {
    IssuedTokenAdmitted(users, payload, verify, encode, decode, secret, issuedAt, now);
  }

  /** A student or an admin who logs in and presents the token is refused
      course creation, and no course is written. */
  lemma NonInstructorLoginCannotCreate(
    users: UserStore, payload: LoginPayload, verify: Verifier,
    encode: Encoder, decode: Decoder, secret: string, issuedAt: int, now: int,
    courses: CourseStore, course: NewCourse, freshId: Uuid, createdAt: Option<int>, fault: bool)
    requires CodecSound(encode, decode)
    requires Login(users, payload, verify, encode, secret, issuedAt, false).status == Ok
    requires users[Lower(payload.email)].role != Instructor
    requires now < issuedAt + TokenLifetime
    ensures var token := Login(users, payload, verify, encode, secret, issuedAt, false).token.value;
            && VisibleText(token)
            && PostCourse(BearerHeader(token), secret, now, decode, courses, course, freshId, createdAt, fault)
               == Outcome(Forbidden, None, courses)
  {
    IssuedTokenAdmitted(users, payload, verify, encode, decode, secret, issuedAt, now);
  }

  /** The role in a token is a snapshot: until expiry the token admits its
      holder with the role recorded at login. The gate never reads the user
      table, so a later change of the stored role has no effect on it. */
  lemma RoleIsSnapshotAtLogin(
    users: UserStore, payload: LoginPayload, verify: Verifier,
    encode: Encoder, decode: Decoder, secret: string, issuedAt: int, now: int)
    requires CodecSound(encode, decode)
    requires Login(users, payload, verify, encode, secret, issuedAt, false).status == Ok
    requires now < issuedAt + TokenLifetime
    ensures var token := Login(users, payload, verify, encode, secret, issuedAt, false).token.value;
            && VisibleText(token)
            && ExtractClaims(BearerHeader(token), secret, now, decode).claims.role
               == users[Lower(payload.email)].role
  {
    IssuedTokenAdmitted(users, payload, verify, encode, decode, secret, issuedAt, now);
  }

  /** An instructor creates a course; another subject, whatever its role,
      is refused the update and nothing is written; the owner's update
      applies the supplied fields and keeps the rest. */
  lemma OwnershipScenario(
    store: CourseStore, owner: Claims, other: Claims, course: NewCourse,
    id: Uuid, createdAt: Option<int>, patch: CoursePatch)
    requires owner.role == Instructor
    requires other.sub != owner.sub
    requires id !in store
    ensures var s := CreateCourse(store, owner, course, id, createdAt, false).store;
            && id in s && s[id].instructorId == owner.sub
            && UpdateCourse(s, other, id, patch, false, false) == Outcome(Forbidden, None, s)
            && var r := UpdateCourse(s, owner, id, patch, false, false);
               && r.status == Ok
               && r.store[id].name == patch.name.GetOr(course.name)
               && r.store[id].description == patch.description.OrElse(course.description)
               && r.store[id].instructorId == owner.sub
  {
  }
}
