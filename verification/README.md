# Authentication and authorization core of the LMS services

This project models in Dafny the decision logic of two Rust services:

- The **identity service** registers users and logs them in. Registration lower-cases the email, hashes the password and inserts the user; a duplicate email is a conflict. Login looks up the lower-cased email, verifies the password and signs claims `{sub, role, exp = now + 24h}`.
- The **course service** checks a bearer token on every protected request. Only an `Instructor` may create a course, and the new course's owner is the token subject. Only a course's owner may update it, and the update is partial (`COALESCE`). Reads (`get`, `list`) are open to everyone.

Every handler that can write is a pure function. It takes an abstract store (`map<Uuid, Course>` or `map<string, User>`, keyed by the unique column) and returns an HTTP status together with the store it leaves behind. The read handlers return no store: `GetCourse` and `Login` are pure functions that answer a status and a body, and `ListCourses` is a method, because the order in which the store yields rows is not determined. Some things are parameters instead of being computed:

- Each database fault is a boolean parameter.
- Values the database generates are parameters: ids, timestamps, and the default role.
- The clock is the parameter `now`.
- bcrypt and jsonwebtoken are opaque function parameters (`Hasher`, `Verifier`, `Encoder`, `Decoder`). The two relations the cross-service properties need between them are explicit assumptions, `IdentityService.HashVerifySound` and `Tokens.CodecSound`. Neither is proved.

Modules, one per file:

- `Prelude`: `Option`, bytes, UUIDs.
- `Http`: status codes, `HeaderValue::to_str`, `strip_prefix`.
- `Tokens`: `Role`, `Claims`, the 24-hour lifetime, and the codec types.
- `BearerGate`: the course service's `FromRequestParts for Claims`.
- `CourseService`: `create_course`, `get_course`, `list_courses`, `update_course`. The payload types `CreateCourse` and `UpdateCourse` are named `NewCourse` and `CoursePatch` here, so they do not clash with the handler names.
- `IdentityService`: email normalisation, `register`, `login`.
- `Scenarios`: properties that span both services, such as login, then bearer header, then create or update.

## Model

| member | source | states |
|---|---|---|
| Http.ToStr | services/course-service/app/src/main.rs:323-325 | a header value reads as text exactly when every byte is a tab or printable ASCII, and then character i is byte i |
| Http.BytesThenToStr | services/course-service/app/src/main.rs:323-325 | the bytes a client sends for a visible text read back as that same text |
| Http.StripPrefix | services/course-service/app/src/main.rs:326 | stripping succeeds exactly when the text starts with the prefix, and prefix plus remainder is the original text |
| Http.StripPrepended | services/course-service/app/src/main.rs:326 | stripping a prefix that was just prepended returns the rest unchanged |
| Tokens.IssueClaims | services/identity-service/app/src/main.rs:268-272 | issued claims carry the given subject and role and expire 86400 seconds (24 hours) after issuance |
| BearerGate.BearerToken | services/course-service/app/src/main.rs:323-327 | a token is found exactly when the header is present, readable and starts with the case-sensitive `Bearer `, and the token is the header with that prefix removed |
| BearerGate.ExtractClaims | services/course-service/app/src/main.rs:315-338 | every rejection is 401 and never 403/404/500; a caller is admitted exactly when the stripped token decodes, and then with exactly the decoded claims |
| BearerGate.MissingHeaderRejected | services/course-service/app/src/main.rs:323-327 | no `authorization` header gives 401 whatever the decoder would answer |
| BearerGate.WrongSchemeRejected | services/course-service/app/src/main.rs:326-327 | a readable header not starting with exactly `Bearer ` (e.g. `bearer `) gives 401 whatever it carries |
| BearerGate.UnreadableHeaderRejected | services/course-service/app/src/main.rs:325-327 | a header value with a non-visible byte gives 401 |
| BearerGate.BearerHeader | services/course-service/app/src/main.rs:323-327 | the header `Bearer <token>` yields exactly `<token>` to the decoder (round trip) |
| BearerGate.BearerHeaderDecodesToken | services/course-service/app/src/main.rs:323-337 | presenting `Bearer <token>` gives 401 if the decoder rejects `<token>` and admits exactly its claims otherwise |
| CourseService.ApplyPatch | services/course-service/app/src/main.rs:282-293 | each supplied field replaces the stored one and each absent field keeps it; id, owner and creation time never change |
| CourseService.CreateCourse | services/course-service/app/src/main.rs:156-183 | any role but Instructor gives 403 with the store unchanged; otherwise exactly one course is inserted under the new id, owned by the token subject, with the payload's name and description, and 201; a store fault or id collision gives 500 with the store unchanged; the primary-key invariant and every owner are preserved |
| CourseService.GetCourse | services/course-service/app/src/main.rs:222-242 | without a fault, 200 with the stored course exactly when the id is present, 404 otherwise; a fault gives 500 |
| CourseService.ListCourses | services/course-service/app/src/main.rs:193-208 | without claims: every stored course exactly once (one entry per key, keys distinct, as many entries as rows) and 200; a fault gives 500 and nothing |
| CourseService.UpdateCourse | services/course-service/app/src/main.rs:262-311 | the existence check comes first (404, store unchanged), then ownership (403 whatever the role, store unchanged, and 403 only for a non-owner); a failed check or a failed update of the owner's row is 500 with the store unchanged; 200 exactly for the owner without faults, and then only that row changes, by the partial update; all keys and owners are kept |
| CourseService.PostCourse | services/course-service/app/src/main.rs:156-164 | a gate rejection is 401 with nothing written; an admitted caller reaches the creation handler with exactly the decoded claims; a 201 implies the caller was admitted as an Instructor and owns the new row |
| CourseService.PutCourse | services/course-service/app/src/main.rs:262-280 | a gate rejection is 401 with nothing written; an admitted caller reaches the update handler with exactly the decoded claims; any change to the store implies the admitted subject owns the target course |
| CourseService.OnlyInstructorsCreate | services/course-service/app/src/main.rs:161-164 | creation is refused with 403 exactly for Student and Admin |
| CourseService.NotFoundForEveryCaller | services/course-service/app/src/main.rs:269-305 | on a missing id every caller and every payload get the same 404 with the store unchanged |
| CourseService.UpdateIgnoresRole | services/course-service/app/src/main.rs:277-280 | changing the caller's role never changes the update's outcome |
| CourseService.EmptyPatchKeeps | services/course-service/app/src/main.rs:285-287 | a patch with no fields leaves the course as it was |
| CourseService.PatchIdempotent | services/course-service/app/src/main.rs:285-287 | applying the same patch twice equals applying it once |
| CourseService.PatchesCompose | services/course-service/app/src/main.rs:285-287 | two successive patches equal one patch in which the later supplied fields win |
| CourseService.DescriptionNeverCleared | services/course-service/app/src/main.rs:287 | a stored description is never turned into null by any update |
| CourseService.UpdateIdempotent | services/course-service/app/src/main.rs:283-295 | repeating an owner's successful update leaves the store as the first one did |
| CourseService.CreatedCourseIsReadable | services/course-service/app/src/main.rs:166-177 | a course just created is returned by a later get exactly as the creation answered it |
| CourseService.UpdatedCourseIsReadable | services/course-service/app/src/main.rs:283-298 | after an update, get returns the target as the update answered it and every other course as before |
| IdentityService.Lower | services/identity-service/app/src/main.rs:203 | normalisation keeps the length and lower-cases each character |
| IdentityService.LowerIsLower | services/identity-service/app/src/main.rs:203 | a normalised email has no upper-case letter |
| IdentityService.LowerFixesExactlyLowerText | services/identity-service/app/src/main.rs:203 | normalisation leaves a text unchanged if and only if it has no upper-case letter |
| IdentityService.LowerIdempotent | services/identity-service/app/src/main.rs:247 | normalising an already stored (normalised) email changes nothing |
| IdentityService.LowerEqualIffEqualIgnoringCase | services/identity-service/app/src/main.rs:247 | two emails normalise to the same key if and only if they differ only in letter case |
| IdentityService.MixedCaseExample | services/identity-service/app/src/main.rs:203 | `A@X.com` normalises to `a@x.com` |
| IdentityService.ResponseHidesHash | services/identity-service/app/src/main.rs:211-219 | the public user response is the same whatever the stored password hash |
| IdentityService.ToResponse | services/identity-service/app/src/main.rs:211-218 | the public response copies id, names, username, email and role from the stored user, and has no field for the hash |
| IdentityService.Register | services/identity-service/app/src/main.rs:188-226 | a hashing failure gives 500 before any insert; a taken email or id gives 409 and keeps the existing user; another fault gives 500; otherwise 201, and exactly one user is added under the lower-cased email, with the default role whatever the payload, the bcrypt hash at the default cost, and a response built from the stored row; the table invariant is preserved |
| IdentityService.DuplicateEmailConflicts | services/identity-service/app/src/main.rs:221-223 | registering the same address again, in any letter case, is a 409 and leaves the first user in place |
| IdentityService.Login | services/identity-service/app/src/main.rs:239-285 | a fault gives 500; an unknown lower-cased email gives 401; a verifier error gives 500 and a mismatch gives 401; a signing failure after a match gives 500, never 401; 200 exactly when the password matches and signing succeeds, and then the token signs `{sub: user id, role: stored role, exp: now + 86400}` |
| IdentityService.LoginIgnoresEmailCase | services/identity-service/app/src/main.rs:244-248 | emails that differ only in letter case give identical login outcomes |
| IdentityService.UnknownAndWrongPasswordAlike | services/identity-service/app/src/main.rs:252-265 | an unknown email gives 401, and a known email with a failed check gives the very same answer exactly when the failure is a mismatch, not a verifier error |
| IdentityService.RegisterThenLogin | services/identity-service/app/src/main.rs:244-272 | if hashing and verification agree, a user just registered logs in with the same password under any letter case, and gets a token for the new id and the default role |
| Scenarios.IssuedTokenAdmitted | services/identity-service/app/src/main.rs:268-281 | if the codec is sound, a token issued at login is admitted by the course gate before expiry, with the user's id, role and expiry |
| Scenarios.InstructorLoginCreatesOwnedCourse | services/course-service/app/src/main.rs:161-169 | an instructor who logs in and presents the token creates a course whose owner is their user id |
| Scenarios.NonInstructorLoginCannotCreate | services/course-service/app/src/main.rs:161-164 | a student or admin who logs in and presents the token gets 403 and no course is written |
| Scenarios.RoleIsSnapshotAtLogin | services/identity-service/app/src/main.rs:268-272 | until expiry an issued token admits its holder with the role held at login; the gate never reads the user table, so later role changes do not reach it |
| Scenarios.OwnershipScenario | services/course-service/app/src/main.rs:269-298 | after an instructor creates a course, another subject's update is 403 and writes nothing, and the owner's update applies the supplied fields and keeps the rest and the owner |

## Left out

- `main()` of both services is not modelled. It covers environment reads, pool connection, migrations, tracing, router wiring and serving, which are all I/O. The same goes for `health_check`, the OpenAPI/Swagger documentation, and the portal service, which only serves static files.
- bcrypt `hash`/`verify` and jsonwebtoken `encode`/`decode` are opaque parameters. What they compute is not modelled.
- Tokens.CodecSound is an assumption, not a proof. It says only that a signed token decodes, under the same secret, before its expiry, to the signed claims. It also says that a signed token is visible ASCII.
- Nothing is proved about expiry rejection, signature tampering or leeway. Those live inside `Validation::default()`, which is not part of this model. A strict `now < exp` expiry rule is not assumed either.
- The wall clock is the parameter `now`.
- Values generated by the database are parameters: course and user ids, `created_at`, `course_created_at`, and the default user role.
- Each database error other than a unique violation is a boolean `fault` parameter. No sqlx error taxonomy is modelled.
- In `register`, a fault takes precedence over a conflict. This ordering between two database errors is a modelling choice.
- Unique constraints of the users table other than email and id (for example on username) are not modelled. The migrations are not part of this model.
- IdentityService.Lower: lower-cases ASCII letters only. Rust's `to_lowercase` also maps non-ASCII letters, and some of them (final sigma, for example) depend on context or change length.
- BearerGate.ExtractClaims: the header is given as the first value of `authorization`. Case-insensitive header-name lookup and repeated headers are the HTTP library's job and are not modelled.
- Rejections by the path and JSON extractors (400/415/422 for a malformed id or body) are not modelled. They run after the claims gate.
- `exp` is an unbounded integer. The `i64` width and chrono's date range cannot be reached by `now + 24h` for realistic clocks.
- The race between the existence/ownership `SELECT` and the `UPDATE` in `update_course` is not modelled. A handler is one atomic step.
- The order in which `list_courses` returns rows is not modelled. The ghost `keys` output only records some ordering of all the keys.
