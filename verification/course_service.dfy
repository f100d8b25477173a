/** The course service's handlers: creation is gated by role, mutation by
    ownership, reads are open. Each writing handler is a pure function from
    the course store (and the verified claims) to a status and the new store;
    `GetCourse` answers without a store, and `ListCourses` is a method whose
    row order is not determined. */
module CourseService {
  import opened Prelude
  import opened Http
  import opened Tokens
  import BearerGate

  /** A course row; `instructorId` is its owner. */
  datatype Course = Course(
    id: Uuid,
    instructorId: Uuid,
    name: string,
    description: Option<string>,
    createdAt: Option<int>)

  /** The creation payload: no owner field, so the caller cannot name one. */
  datatype NewCourse = NewCourse(name: string, description: Option<string>)

  /** The update payload: each field is optional, absent meaning "keep". */
  datatype CoursePatch = CoursePatch(name: Option<string>, description: Option<string>)

  /** The courses table, keyed by course id. */
  type CourseStore = map<Uuid, Course>

  /** A handler's answer together with the store it leaves behind. */
  datatype Outcome = Outcome(status: Status, body: Option<Course>, store: CourseStore)

  /** A read handler's answer. */
  datatype Fetched = Fetched(status: Status, body: Option<Course>)

  /** The primary-key invariant: every row is stored under its own id. */
  ghost predicate WellFormed(store: CourseStore)
  {
    forall id :: id in store ==> store[id].id == id
  }

  /** No row has changed owner between `before` and `after`. */
  ghost predicate OwnersKept(before: CourseStore, after: CourseStore)
  {
    forall id :: id in before ==> id in after && after[id].instructorId == before[id].instructorId
  }

  /** The `COALESCE` update: supplied fields replace, absent fields keep. */
  function ApplyPatch(c: Course, p: CoursePatch): (r: Course)
    ensures r.id == c.id && r.instructorId == c.instructorId && r.createdAt == c.createdAt
    ensures p.name.Some? ==> r.name == p.name.value
    ensures p.name.None? ==> r.name == c.name
    ensures p.description.Some? ==> r.description == p.description
    ensures p.description.None? ==> r.description == c.description
  {
    c.(name := p.name.GetOr(c.name), description := p.description.OrElse(c.description))
  }

  /** `create_course`: only an instructor may create; the new row's owner is
      the token subject and its fields come from the payload. The insert
      fails with a 500 on a store fault or on an id collision. */
  function CreateCourse(
    store: CourseStore, claims: Claims, payload: NewCourse,
    freshId: Uuid, createdAt: Option<int>, fault: bool): (r: Outcome)
    ensures claims.role != Instructor ==> r == Outcome(Forbidden, None, store)
    ensures claims.role == Instructor && (fault || freshId in store) ==>
              r == Outcome(InternalServerError, None, store)
    ensures r.status == Created <==> claims.role == Instructor && !fault && freshId !in store
    ensures r.status != Created ==> r.store == store && r.body.None?
    ensures r.status == Created ==>
              && r.store.Keys == store.Keys + {freshId}
              && |r.store| == |store| + 1
              && (forall id :: id in store ==> r.store[id] == store[id])
              && r.store[freshId].id == freshId
              && r.store[freshId].instructorId == claims.sub
              && r.store[freshId].name == payload.name
              && r.store[freshId].description == payload.description
              && r.body == Some(r.store[freshId])
    ensures WellFormed(store) ==> WellFormed(r.store)
    ensures OwnersKept(store, r.store)
  {
    if claims.role != Instructor then
      Outcome(Forbidden, None, store)
    else if fault || freshId in store then
      Outcome(InternalServerError, None, store)
    else
      var course := Course(freshId, claims.sub, payload.name, payload.description, createdAt);
      Outcome(Created, Some(course), store[freshId := course])
  }

  /** `get_course`: open to every caller; the stored row or a 404. */
  function GetCourse(store: CourseStore, id: Uuid, fault: bool): (r: Fetched)
    ensures fault ==> r == Fetched(InternalServerError, None)
    ensures !fault ==> (r.status == Ok <==> id in store)
    ensures !fault && id !in store ==> r == Fetched(NotFound, None)
    ensures r.status == Ok ==> id in store && r.body == Some(store[id])
  {
    if fault then Fetched(InternalServerError, None)
    else if id in store then Fetched(Ok, Some(store[id]))
    else Fetched(NotFound, None)
  }

  /** `list_courses`: open to every caller; every stored row exactly once,
      in whatever order the store yields them (`keys` records that order). */
  method ListCourses(store: CourseStore, fault: bool) returns (status: Status, courses: seq<Course>, ghost keys: seq<Uuid>)
    ensures fault ==> status == InternalServerError && courses == []
    ensures !fault ==> status == Ok
    ensures !fault ==> |courses| == |store|
    ensures !fault ==> |keys| == |courses| && forall i :: 0 <= i < |keys| ==> keys[i] in store && courses[i] == store[keys[i]]
    ensures !fault ==> forall i, j :: 0 <= i < j < |keys| ==> keys[i] != keys[j]
    ensures !fault ==> forall id :: id in store ==> store[id] in courses
  {
    courses := [];
    keys := [];
    if fault {
      return InternalServerError, courses, keys;
    }
    var rest := store.Keys;
    while rest != {}
      invariant rest <= store.Keys
      invariant |keys| == |courses|
      invariant |keys| + |rest| == |store|
      invariant forall i :: 0 <= i < |keys| ==> keys[i] in store && keys[i] !in rest && courses[i] == store[keys[i]]
      invariant forall i, j :: 0 <= i < j < |keys| ==> keys[i] != keys[j]
      invariant forall id :: id in store && id !in rest ==> store[id] in courses
      decreases rest
    {
      var k :| k in rest;
      keys := keys + [k];
      courses := courses + [store[k]];
      rest := rest - {k};
    }
    status := Ok;
  }

  /** `update_course`: existence first (404), then ownership (403, whatever
      the role), then the partial update of that one row. */
  function UpdateCourse(
    store: CourseStore, claims: Claims, id: Uuid, patch: CoursePatch,
    checkFault: bool, updateFault: bool): (r: Outcome)
    ensures checkFault ==> r == Outcome(InternalServerError, None, store)
    ensures !checkFault && id !in store ==> r == Outcome(NotFound, None, store)
    ensures !checkFault && id in store && store[id].instructorId != claims.sub ==>
              r == Outcome(Forbidden, None, store)
    ensures !checkFault && updateFault && id in store && store[id].instructorId == claims.sub ==>
              r == Outcome(InternalServerError, None, store)
    ensures r.status == Forbidden ==> id in store && store[id].instructorId != claims.sub
    ensures r.status == Ok <==>
              !checkFault && !updateFault && id in store && store[id].instructorId == claims.sub
    ensures r.status != Ok ==> r.store == store && r.body.None?
    ensures r.status == Ok ==>
              && r.store.Keys == store.Keys
              && (forall k :: k in store && k != id ==> r.store[k] == store[k])
              && r.store[id] == ApplyPatch(store[id], patch)
              && r.body == Some(r.store[id])
    ensures WellFormed(store) ==> WellFormed(r.store)
    ensures OwnersKept(store, r.store)
  {
    if checkFault then
      Outcome(InternalServerError, None, store)
    else if id !in store then
      Outcome(NotFound, None, store)
    else if store[id].instructorId != claims.sub then
      Outcome(Forbidden, None, store)
    else if updateFault then
      Outcome(InternalServerError, None, store)
    else
      var updated := ApplyPatch(store[id], patch);
      Outcome(Ok, Some(updated), store[id := updated])
  }

  /** `POST /api/v1/courses`: the claims gate, then `CreateCourse`. */
  function PostCourse(
    authorization: Option<seq<byte>>, secret: string, now: int, decode: Decoder,
    store: CourseStore, payload: NewCourse,
    freshId: Uuid, createdAt: Option<int>, fault: bool): (r: Outcome)
    ensures r.status == Unauthorized <==> BearerGate.ExtractClaims(authorization, secret, now, decode).Rejected?
    ensures r.status == Unauthorized ==> r.store == store && r.body.None?
    ensures r.status == Created ==>
              var c := BearerGate.ExtractClaims(authorization, secret, now, decode);
              c.Admitted? && c.claims.role == Instructor && freshId in r.store && r.store[freshId].instructorId == c.claims.sub
    ensures var c := BearerGate.ExtractClaims(authorization, secret, now, decode);
            c.Admitted? ==> r == CreateCourse(store, c.claims, payload, freshId, createdAt, fault)
  {
    match BearerGate.ExtractClaims(authorization, secret, now, decode)
    case Rejected(status) => Outcome(status, None, store)
    case Admitted(claims) => CreateCourse(store, claims, payload, freshId, createdAt, fault)
  }

  /** `PUT /api/v1/courses/{id}`: the claims gate, then `UpdateCourse`. */
  function PutCourse(
    authorization: Option<seq<byte>>, secret: string, now: int, decode: Decoder,
    store: CourseStore, id: Uuid, patch: CoursePatch,
    checkFault: bool, updateFault: bool): (r: Outcome)
    ensures r.status == Unauthorized <==> BearerGate.ExtractClaims(authorization, secret, now, decode).Rejected?
    ensures r.status == Unauthorized ==> r.store == store && r.body.None?
    ensures r.store != store ==>
              var c := BearerGate.ExtractClaims(authorization, secret, now, decode);
              c.Admitted? && id in store && store[id].instructorId == c.claims.sub
    ensures var c := BearerGate.ExtractClaims(authorization, secret, now, decode);
            c.Admitted? ==> r == UpdateCourse(store, c.claims, id, patch, checkFault, updateFault)
  {
    match BearerGate.ExtractClaims(authorization, secret, now, decode)
    case Rejected(status) => Outcome(status, None, store)
    case Admitted(claims) => UpdateCourse(store, claims, id, patch, checkFault, updateFault)
  }

  /** Admin holds no blanket creation right: every role but Instructor is
      refused, and the store is left as it was. */
  lemma OnlyInstructorsCreate(
    store: CourseStore, claims: Claims, payload: NewCourse,
    freshId: Uuid, createdAt: Option<int>, fault: bool)
    ensures CreateCourse(store, claims, payload, freshId, createdAt, fault).status == Forbidden
            <==> claims.role in {Student, Admin}
  {
  }

  /** A missing course is a 404 for every caller: the answer does not depend
      on the caller's subject or role, so it leaks no ownership. */
  lemma NotFoundForEveryCaller(
    store: CourseStore, a: Claims, b: Claims, id: Uuid, pa: CoursePatch, pb: CoursePatch, updateFault: bool)
    requires id !in store
    ensures UpdateCourse(store, a, id, pa, false, updateFault)
            == UpdateCourse(store, b, id, pb, false, updateFault)
            == Outcome(NotFound, None, store)
  {
  }

  /** Mutation ignores the role entirely: only the subject matters. */
  lemma UpdateIgnoresRole(
    store: CourseStore, claims: Claims, role: Role, id: Uuid, patch: CoursePatch,
    checkFault: bool, updateFault: bool)
    ensures UpdateCourse(store, claims.(role := role), id, patch, checkFault, updateFault)
            == UpdateCourse(store, claims, id, patch, checkFault, updateFault)
  {
  }

  /** An empty patch changes nothing. */
  lemma EmptyPatchKeeps(c: Course)
    ensures ApplyPatch(c, CoursePatch(None, None)) == c
  {
  }

  /** Applying the same patch twice is the same as applying it once. */
  lemma PatchIdempotent(c: Course, p: CoursePatch)
    ensures ApplyPatch(ApplyPatch(c, p), p) == ApplyPatch(c, p)
  {
  }

  /** Two successive patches act as one patch in which the later one's
      supplied fields win. */
  lemma PatchesCompose(c: Course, p: CoursePatch, q: CoursePatch)
    ensures ApplyPatch(ApplyPatch(c, p), q)
            == ApplyPatch(c, CoursePatch(q.name.OrElse(p.name), q.description.OrElse(p.description)))
  {
  }

  /** No update can clear a stored description: an absent field keeps it,
      and a supplied one replaces it with a value. */
  lemma DescriptionNeverCleared(
    store: CourseStore, claims: Claims, id: Uuid, patch: CoursePatch, checkFault: bool, updateFault: bool)
    requires id in store && store[id].description.Some?
    ensures UpdateCourse(store, claims, id, patch, checkFault, updateFault).store[id].description.Some?
  {
  }

  /** Repeating a successful owner update leaves the store as the first
      update left it. */
  lemma UpdateIdempotent(store: CourseStore, claims: Claims, id: Uuid, patch: CoursePatch)
    requires id in store && store[id].instructorId == claims.sub
    ensures var once := UpdateCourse(store, claims, id, patch, false, false).store;
            UpdateCourse(once, claims, id, patch, false, false).store == once
  {
    var once := UpdateCourse(store, claims, id, patch, false, false).store;
    PatchIdempotent(store[id], patch);
    assert once[id] == ApplyPatch(store[id], patch);
    assert once[id := ApplyPatch(once[id], patch)] == once;
  }

  /** A course just created is read back, by any caller, exactly as the
      creation answered it. */
  lemma CreatedCourseIsReadable(
    store: CourseStore, claims: Claims, payload: NewCourse, freshId: Uuid, createdAt: Option<int>)
    requires CreateCourse(store, claims, payload, freshId, createdAt, false).status == Created
    ensures var r := CreateCourse(store, claims, payload, freshId, createdAt, false);
            GetCourse(r.store, freshId, false) == Fetched(Ok, r.body)
  {
  }

  /** After a successful update the target reads back as the update answered
      it, and every other course reads back as before. */
  lemma UpdatedCourseIsReadable(
    store: CourseStore, claims: Claims, id: Uuid, patch: CoursePatch, other: Uuid)
    requires UpdateCourse(store, claims, id, patch, false, false).status == Ok
    ensures var r := UpdateCourse(store, claims, id, patch, false, false);
            && GetCourse(r.store, id, false) == Fetched(Ok, r.body)
            && (other != id ==> GetCourse(r.store, other, false) == GetCourse(store, other, false))
  {
  }
}
