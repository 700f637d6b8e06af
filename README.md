# alsun course platform: mutation and authorisation core in Dafny

This project models the server side of the alsun course platform. It covers:

- the validation schemas for course, module, tag and user payloads;
- the transactional course-update pipeline (metadata and tags, deletion of dropped modules, upsert of incoming modules);
- the role gate, and the user, module and tag server actions that write to the store;
- the pure helpers `toggleTag`, `groupTags`, `ensureArray`, `getInitials`, and the route guard in `proxy.ts`.

The relational store is the class `Db.Store`. Its tables (courses, modules, users, tags, enrollments) are maps keyed by primary id. Its `revalidated` field is an append-only log of the cache paths the actions ask to revalidate.

Each server action is a method over a `Store`. It takes the session user as an explicit input `principal: Option<SessionUser>` and returns the `Result` datatype of `wrappers.dfy`. A course update's transaction saves the three tables it writes, runs the three steps, and restores the saved tables when a step fails. Payloads arrive as raw datatypes of strings and reals. The parsers turn them into typed values or report the first issue, in field order, as the schema library does.

Modules, one per source file:

| Dafny module | file | role |
|---|---|---|
| `Wrappers` | `wrappers.dfy` | `Option`, `Result` |
| `Enums` | `enums.dfy` | the variant, content and tag type enums and their names |
| `Seqs` | `seqs.dfy` | distinctness, set-spread de-duplication, element-wise array parsing |
| `Issues` | `issues.dfy` | default messages of the schema library's built-in checks |
| `Tags` | `tags.dfy` | `src/lib/types/tags.ts` |
| `CourseSchema` | `course_schema.dfy` | `src/lib/types/course.ts` |
| `ModuleSchema` | `module_schema.dfy` | `src/lib/types/module.ts` |
| `UserSchema` | `user_schema.dfy` | `src/lib/types/user.ts` |
| `Session` | `session.dfy` | `src/lib/data/user.ts` |
| `Db` | `store.dfy` | the store and the storage operations the actions issue |
| `CourseData` | `course_data.dfy` | `src/lib/data/course.ts` |
| `CourseActions` | `course_actions.dfy` | `src/lib/actions/course.ts` |
| `ModuleActions` | `module_actions.dfy` | `src/lib/actions/module.ts` |
| `UserActions` | `user_actions.dfy` | `src/lib/actions/user.ts` |
| `TagActions` | `tag_actions.dfy` | `src/lib/actions/tag.ts` |
| `Utils` | `utils.dfy` | `src/lib/utils.ts` |
| `Proxy` | `proxy.dfy` | `src/proxy.ts` |

The model reproduces these quirks of the code as written:

- A save that makes a course private is refused whenever a module has enrollments, even if the course was already private.
- Upserting a module that already exists never changes its `courseId`.
- Module ids need not be distinct in a course payload; only indices must be. An index may be fractional.
- The tag actions' level gate never refuses, because the gate's promise is never awaited. `CreateTag` and `DeleteTag` accept a principal and ignore it.
- `updateCourse` returns the message of whatever error a step raised.

## Model

| member | source | states |
|---|---|---|
| Enums.ParseVariantType | src/lib/types/course.ts:16 | a string parses to a variant type exactly when it is that type's name |
| Enums.ParseContentType | src/lib/types/module.ts:5 | a string parses to a content type exactly when it is that type's name |
| Enums.ParseTagType | src/lib/types/tags.ts:27-29 | a string parses to a tag type exactly when it is that type's name |
| Enums.VariantTypeNamesRoundTrip | src/lib/types/course.ts:16 | parsing a variant type's name gives back that variant type |
| Enums.VariantTypeNameInjective | src/lib/types/course.ts:16 | distinct variant types have distinct names |
| Enums.ContentTypeNamesRoundTrip | src/lib/types/module.ts:5 | parsing a content type's name gives back that content type |
| Enums.TagTypeNamesRoundTrip | src/lib/types/tags.ts:27-29 | parsing a tag type's name gives back that tag type |
| Enums.VariantTypeSetBound | src/lib/types/module.ts:13-16 | a set of variant types has at most four members |
| Seqs.ElementsCard | src/lib/types/course.ts:52 | a sequence's element set has the same members as the sequence; its size equals the length exactly when the sequence has no duplicates |
| Seqs.DedupSpec | src/lib/types/module.ts:16 | the set spread keeps the same members, has no duplicates, is no longer than its input, and keeps first-occurrence order |
| Seqs.ParseAll | src/lib/types/course.ts:49-50 | an array parses exactly when every element does; the data is parsed element-wise; otherwise the error is the first failing element's |
| Tags.ParseTag | src/lib/types/tags.ts:25-30 | a tag is accepted exactly when it has a name and a known type; an empty name reports "Tag needs a name", and a named tag with an unknown type reports the type message |
| Tags.RemoveNamed | src/lib/types/tags.ts:6 | the filter keeps exactly the positions whose element has another name, in their input order and each once per occurrence, so none of that name remains |
| Tags.ToggleTag | src/lib/types/tags.ts:4-7 | when some element carries the value's name, toggling removes every such element and keeps the others in order; otherwise it appends the value at the end |
| Tags.ToggleTwice | src/lib/types/tags.ts:4-7 | toggling a value whose name is absent twice gives back the original array |
| Tags.RemoveNamedKeepsUnique | src/lib/types/tags.ts:6 | filtering an array with unique names leaves the names unique, because the kept positions stay in increasing order |
| Tags.ToggleKeepsUnique | src/lib/types/tags.ts:4-7 | toggling keeps names unique |
| Tags.GroupTags | src/lib/types/tags.ts:9-23 | the grouping has a bucket for exactly the types that occur, and each bucket is that type's tags without repeated names (in input order by `Tags.BucketInOrder`) |
| Tags.BucketInOrder | src/lib/types/tags.ts:16-18 | each bucket is a subsequence of the input: its tags appear in the order they were pushed |
| Tags.BucketWithoutType | src/lib/types/tags.ts:13-15 | a type with no tag has an empty bucket |
| Tags.BucketFromInput | src/lib/types/tags.ts:16-17 | every tag in a bucket comes from the input and has the bucket's type |
| Tags.BucketCoversNames | src/lib/types/tags.ts:12-18 | every input tag's name appears in the bucket of its type |
| Tags.BucketUniqueNames | src/lib/types/tags.ts:16-18 | no bucket holds two tags of the same name |
| Tags.BucketFirstOccurrence | src/lib/types/tags.ts:16-18 | the tag kept for a name is that name's first occurrence among the type's tags |
| CourseSchema.ParsePrice | src/lib/types/course.ts:9-13 | a price is accepted exactly when it is an integer between 0 and 1,000,000, and the accepted value equals the input. An integer beyond the safe range of plus or minus 2^53 - 1 reports the integer check's range issue before the million-pound message |
| CourseSchema.ParseVariant | src/lib/types/course.ts:15-18 | a variant is accepted exactly when its type is one of the four variant types and its price is valid; an unknown type is the first issue reported, and any other failure is one of the price's issues |
| CourseSchema.VariantTypesUnique | src/lib/types/course.ts:29-39 | the seen-set loop answers true exactly when no two variants share a type |
| CourseSchema.DistinctTypesOfParsed | src/lib/types/course.ts:29-39 | parsed variants have distinct types exactly when the raw type names are distinct |
| CourseSchema.ParseModule | src/lib/types/course.ts:20-40 | a module is accepted exactly when its id, title and description are non-empty, its index is non-negative, teacher ids are non-empty, and its variants are valid, non-empty and of distinct types; the empty-variants and duplicate-type messages are reported exactly in their cases |
| CourseSchema.DistinctIndexCountSpec | src/lib/types/course.ts:52 | the number of distinct indices never exceeds the number of modules and equals it exactly when indices are pairwise distinct |
| CourseSchema.ParsedIndices | src/lib/types/course.ts:52 | on parsed modules, the set-size check passes exactly when the raw indices are pairwise distinct |
| CourseSchema.ParseModules | src/lib/types/course.ts:49-54 | the module list is accepted exactly when every module is valid, the list is non-empty and indices are distinct; an empty list reports "Course needs to have at least 1 module" and repeated indices report the uniqueness message |
| CourseSchema.ParseTags | src/lib/types/course.ts:55 | the tag list is accepted exactly when it is non-empty and every tag is valid; the empty list and only it reports the at-least-one-tag message |
| CourseSchema.ParseCourse | src/lib/types/course.ts:42-56 | a course payload is accepted exactly when every field constraint holds, and the parsed course carries the payload's fields; a course with valid scalar fields and no modules reports the missing-module message |
| CourseSchema.AnyNonNegativeIndexAccepted | src/lib/types/course.ts:22 | a valid module stays valid with any non-negative index, integer or not, and the index is kept as sent |
| ModuleSchema.ParseViewer | src/lib/types/module.ts:14 | a viewer type is accepted exactly when it names a variant type |
| ModuleSchema.ParseContent | src/lib/types/module.ts:4-17 | a content item is accepted exactly when its type, title, url and non-empty viewer list are valid; the parsed item keeps title and url and its viewers are the de-duplicated parsed list; a bad url reports the material message |
| ModuleSchema.ViewableByNormalised | src/lib/types/module.ts:13-16 | parsed viewers have no duplicates, name exactly the raw types, and number between one and four |
| ModuleSchema.ViewableByFirstOccurrenceOrder | src/lib/types/module.ts:16 | parsed viewers appear in the order of their first occurrence in the raw list |
| ModuleSchema.ParseModuleUpdate | src/lib/types/module.ts:19-23 | a module update is accepted exactly when id and description are non-empty and every content item is valid, including an empty content list; a missing description reports its message |
| ModuleSchema.ParseRemoveTeacher | src/lib/types/module.ts:25-28 | a teacher removal is accepted exactly when both ids are non-empty |
| UserSchema.ParseEnroll | src/lib/types/user.ts:4-7 | an enrollment payload is accepted exactly when the module id is non-empty and the variant type is known |
| UserSchema.ParseProfile | src/lib/types/user.ts:9-14 | a profile is accepted exactly when the email is well formed, any image is a url and the name is non-empty; a bad email is reported first; the parsed payload drops the keys the schema does not declare |
| UserSchema.ParsePasswordChange | src/lib/types/user.ts:16-27 | a password change is accepted exactly when the old password is given, the new one is at least 8 UTF-16 code units long and the confirmation matches; each failure reports its own message, and "Passwords do not match" exactly when only the confirmation differs |
| UserSchema.Utf16Length | src/lib/types/user.ts:21 | the JavaScript length lies between the character count and twice it, and equals the character count exactly when no character lies above the Basic Multilingual Plane |
| UserSchema.AstralPasswordAccepted | src/lib/types/user.ts:19-21 | four characters above the Basic Multilingual Plane already meet the eight-unit minimum |
| UserSchema.ParseRoleUpdate | src/lib/types/user.ts:29-32 | a role update is accepted exactly when the user id is non-empty and the level is an integer strictly between 0 and 5, so the parsed level is 1 to 4. An integer level beyond the safe range reports the integer check's range issue before the bounds' messages |
| Session.ReadPrivilegedUser | src/lib/data/user.ts:9-12 | no session, or a session below the level, gives no user; otherwise the session user itself |
| Session.PrivilegeMonotone | src/lib/data/user.ts:11 | a user admitted at some level is admitted, unchanged, at every lower level |
| Db.Store.Restore | src/lib/actions/course.ts:49-65 | a rollback puts back the saved course, module and enrollment tables |
| Db.Store.Revalidate | src/lib/actions/course.ts:67 | revalidation appends one path to the log |
| Db.Store.UpdateCourseRow | src/lib/data/course.ts:18-29 | the update succeeds exactly when the course exists and every tag name resolves; it then sets the four fields and exactly the named tags, and on failure writes nothing |
| Db.Store.DeleteModuleRow | src/lib/data/course.ts:56 | deleting a module removes it and its enrollments and nothing else |
| Db.Store.DeleteCourseRow | src/lib/actions/course.ts:81 | deleting a course removes it, its modules and their enrollments |
| Db.Store.UpsertModuleRow | src/lib/data/course.ts:70-81 | the upsert succeeds exactly when every teacher exists; an existing module keeps its course and contents and takes the new metadata and teacher set; a new one is created under the given course |
| Db.Store.UpdateModuleDescription | src/lib/actions/module.ts:32-37 | only the module's description changes |
| Db.Store.ReplaceContents | src/lib/actions/module.ts:38-47 | the module's contents become exactly the given list |
| Db.Store.DisconnectTeacher | src/lib/actions/module.ts:64-67 | exactly that teacher leaves the module's teacher set |
| Db.Store.ReplaceVariants | src/lib/data/course.ts:82-85 | the module's variants become exactly the given list |
| CourseData.MetadataStep | src/lib/data/course.ts:8-31 | hiding a course with any enrolled module fails with the hide message; otherwise the step succeeds exactly when the course and all tag names exist, sets title, description, thumbnail, visibility and exactly the named tags, and touches no other course |
| CourseData.UpdateCourseMetadata | src/lib/data/course.ts:8-31 | the metadata write agrees with the metadata step: on success the course table is the step's result, and on failure it is unchanged |
| CourseData.ModulesToDelete | src/lib/data/course.ts:41-43 | the modules to delete are exactly the snapshot's modules whose id is in no payload module |
| CourseData.DeleteStep | src/lib/data/course.ts:34-59 | deletion fails with the delete message exactly when a module to delete had enrollments; otherwise exactly those modules and their enrollments go, and payload modules stay |
| CourseData.NoneEnrolled | src/lib/data/course.ts:44-54 | the check loop passes exactly when no module to delete has an enrollment in the snapshot |
| CourseData.DeleteModules | src/lib/data/course.ts:55-57 | the delete loop removes exactly the given modules and their enrollments |
| CourseData.DeleteExtraModules | src/lib/data/course.ts:34-59 | the deletion agrees with the delete step, and a refused deletion writes nothing |
| CourseData.UpsertCourseModules | src/lib/data/course.ts:62-89 | the upsert succeeds exactly when every teacher exists and then leaves the modules table equal to all payload modules upserted in order; a failure stops at the first module with an unknown teacher, after the earlier ones were written |
| CourseData.UpsertAllAt | src/lib/data/course.ts:66-85 | after the upsert, a module exists exactly when it existed or is in the payload; modules outside the payload are untouched; a payload module is its last payload entry applied to its original row |
| CourseData.UpsertAllIdempotent | src/lib/data/course.ts:66-85 | upserting the same payload twice gives the same modules as once |
| CourseData.SavedCourseModules | src/lib/data/course.ts:41-81 | after a successful save, the course's modules are exactly the payload's modules that did not already belong to another course |
| CourseData.ResaveCanHide | src/lib/data/course.ts:15 | after a successful save, saving the same payload again is not refused by the hide check |
| CourseData.MetadataResave | src/lib/data/course.ts:15-29 | re-running the metadata step on its own result changes nothing |
| CourseData.DeleteNothing | src/lib/data/course.ts:41-58 | when no module is dropped the delete step changes nothing |
| CourseData.ResaveIdempotent | src/lib/actions/course.ts:49-65 | saving the same payload a second time succeeds and leaves the tables as the first save did |
| CourseActions.CoursePaths | src/lib/actions/course.ts:67-69 | three paths are revalidated, the last being the course's own page |
| CourseActions.CreateCourse | src/lib/actions/course.ts:14-25 | below level 3 the call fails with "Not authorised!" and writes nothing; otherwise it adds exactly one empty private course and returns its id |
| CourseActions.RunSave | src/lib/actions/course.ts:49-65 | the three steps in sequence succeed exactly when the save pipeline does, and then leave its tables |
| CourseActions.SaveCourse | src/lib/actions/course.ts:37-75 | a missing course or failed step returns its message and leaves the store unchanged; success stores the pipeline's tables and revalidates the three course paths |
| CourseActions.UpdateCourse | src/lib/actions/course.ts:27-76 | the gate, then the first schema issue, then the lookup and the pipeline decide the outcome; any failure leaves the store and the revalidation log unchanged; success revalidates exactly "/", "/courses" and the course's page |
| CourseActions.UpdateCourseIdempotent | src/lib/actions/course.ts:27-76 | repeating a successful course update succeeds again with the same tables |
| CourseActions.UpdateCourseModules | src/lib/actions/course.ts:35-65 | after a successful update the course's modules are exactly the payload's module ids, except ids already belonging to another course |
| CourseActions.DeleteCourse | src/lib/actions/course.ts:78-86 | below level 3 the call fails with "Unauthorised!"; otherwise it removes the course (if present), its modules and their enrollments whatever the enrollments, and revalidates the three paths |
| ModuleActions.UpdateModule | src/lib/actions/module.ts:9-51 | gate at level 2, first schema issue, missing module, then ownership (level 3 or assigned teacher) decide the failures, none of which writes; success replaces only description and contents and revalidates only the course page |
| ModuleActions.RemoveTeacherFromModule | src/lib/actions/module.ts:53-69 | below level 3, a bad shape, or a teacher not on the module each fail without writing; success removes exactly that teacher from that module |
| UserActions.VariantOfType | src/lib/actions/user.ts:21-35 | the module offers the requested variant exactly when some variant has that type, and the one found has it |
| UserActions.EnrollUser | src/lib/actions/user.ts:17-51 | no session, a missing module or variant type, or an existing enrollment each fail without writing; success adds one enrollment priced at that variant's price |
| UserActions.EnrollKeepsOneEnrollmentPerModule | src/lib/actions/user.ts:36-48 | enrolling a student not yet enrolled keeps at most one enrollment per student and module |
| UserActions.UpdateUser | src/lib/actions/user.ts:53-64 | no session, a schema issue, or an email used by someone else each fail without writing; success writes the submitted object to the caller's row: the profile fields, and a role level when the client added one (see Findings) |
| UserActions.ProfileSetsRole | src/lib/actions/user.ts:56-62 | as written, a caller whose profile passes the schema and who adds the owner level to it becomes an owner, although the parsed payload has no role level |
| UserActions.WithParsedProfile | src/lib/actions/user.ts:56-62 | writing the parsed payload instead changes the caller's profile fields only: no user's role level and no owner changes |
| UserActions.ProfileKeepsEmailsUnique | src/lib/actions/user.ts:59-62 | a profile update that passes the email check keeps emails unique and changes no other user |
| UserActions.UpdateUserRole | src/lib/actions/user.ts:88-111 | the gate, schema, self-target, requested level and target level checks fail in source order without writing; success changes only the target's level, which stays below the caller's |
| UserActions.RoleChangeKeepsOwners | src/lib/actions/user.ts:96-110 | a permitted role change neither creates nor removes an owner and leaves the caller untouched |
| UserActions.DeleteUserEnrollment | src/lib/actions/user.ts:113-120 | an empty id fails before the gate; below level 3 fails; otherwise exactly that enrollment is removed |
| UserActions.DeleteUser | src/lib/actions/user.ts:122-134 | an empty id, a low caller, self-deletion, a missing target or a target at or above the caller's level fail without writing; success removes exactly the target with their teacher links and enrollments |
| UserActions.GrantOwner | src/lib/actions/user.ts:144-157 | the password is checked before the session; an unknown user or an existing owner fail without writing; success makes the caller the one and only owner |
| UserActions.SoleOwner | src/lib/actions/user.ts:153-155 | promoting one user when there is no owner leaves exactly that user as owner |
| TagActions.CreateTag | src/lib/actions/tag.ts:14-23 | a schema issue or a taken name fail without writing; success adds exactly the returned tag |
| TagActions.CreateKeepsNamesUnique | src/lib/actions/tag.ts:19-21 | creating a tag whose name is free keeps tag names unique |
| TagActions.DeleteTag | src/lib/actions/tag.ts:25-37 | an empty id fails before anything else; otherwise the tag leaves the tag table and every course, and "/", "/courses" and each affected course's page, computed before deletion, are revalidated once |
| TagActions.AnonymousCreateSucceeds | src/lib/actions/tag.ts:15-16 | as written, a visitor with no session creates a well-formed tag with a free name |
| TagActions.AnonymousDeleteSucceeds | src/lib/actions/tag.ts:27-28 | as written, a visitor with no session deletes any tag |
| TagActions.GatedCreateTag | src/lib/actions/tag.ts:14-23 | with the gate awaited, a caller below admin level gets "Not authorised" and nothing is written; only an admin or above can create a tag |
| TagActions.GatedDeleteTag | src/lib/actions/tag.ts:25-37 | with the gate awaited, the id check comes first, then a caller below admin level gets "Not authorised" and nothing changes; only an admin or above can delete |
| Utils.EnsureArray | src/lib/utils.ts:9-14 | undefined and null give the empty array, an array is returned as is, any other value is wrapped |
| Utils.Split | src/lib/utils.ts:18 | splitting on a space always yields at least one segment |
| Utils.SplitWordStarts | src/lib/utils.ts:18-20 | the first characters of the space-separated segments are exactly the characters that start a word |
| Utils.GetInitialsSpec | src/lib/utils.ts:16-22 | the initials are the upper-cased first characters of the non-empty words, in order |
| Utils.InitialsCount | src/lib/utils.ts:19-20 | empty segments contribute nothing, so there is one initial per non-empty segment |
| Utils.GetInitialsLength | src/lib/utils.ts:16-22 | the initials have one character per non-empty word, and the empty name has none |
| Proxy.GuardsDisjoint | src/proxy.ts:4-16 | no path both needs and forbids a session |
| Proxy.GetParam | src/proxy.ts:21 | a parameter lookup finds nothing exactly when no entry has the key, and otherwise returns the value of the first entry with that key |
| Proxy.DeleteParam | src/proxy.ts:24 | deleting a key keeps exactly the entries of other keys, in their order and each once per occurrence, and changes nothing when the key is absent |
| Proxy.UrlBuffer.Clone | src/proxy.ts:22 | the clone holds the request URL |
| Proxy.UrlBuffer.SetPathname | src/proxy.ts:23 | only the pathname changes |
| Proxy.UrlBuffer.Delete | src/proxy.ts:24 | only the entries of that key are removed |
| Proxy.UrlBuffer.Append | src/proxy.ts:30 | one entry is appended and the pathname is kept |
| Proxy.LandingTarget | src/proxy.ts:21 | a signed-in visitor lands on the first `redirect` value when it is present and non-empty, and on "/learn" otherwise |
| Proxy.Decide | src/proxy.ts:18-33 | a redirect happens exactly for a signed-in visitor on a login or sign-up path, sent to the landing target with `redirect` removed, or a signed-out visitor on a protected path, sent to "/login" with `redirect=<path>` appended |
| Proxy.Guard | src/proxy.ts:18-33 | cloning and editing the URL in place yields the redirect decision |
| Proxy.LoginRoundTrip | src/proxy.ts:20-31 | a signed-out visitor sent to the login page is, once signed in, sent back to the original page and query |

## Left out

- The React and JSX components, including the navigation bar's role-to-links rule: they are rendering and browser event handling.
- The dashboard statistics card: it depends on the wall clock and only displays data.
- Session resolution: the session user is the `principal` input, and a session cookie's presence is the `hasSession` input of `Proxy.Guard`.
- `updateUserPassword` and `deleteSelf`: they call the authentication library. Only the password schema (`UserSchema.ParsePasswordChange`) is modelled.
- The URL and email format checks: they are opaque predicate parameters `isUrl` and `isEmail`, not a re-implementation of URL parsing.
- The transaction timeout, connection pooling and the concurrency of `grantOwner`'s two counts: the calls are modelled one after another, so its check-then-act race is not represented.
- Cache semantics of revalidation: only the list of emitted paths is modelled.
- `sendError`, `cn()` and library wiring (auth, database client, file upload): no logic of their own.
- Zod's default messages for built-in checks (empty string, negative number, non-integer, integer outside the safe range, unknown enum value) are written as constants whose wording approximates the library's. The custom messages in the schemas are copied exactly.
- The `trim()` on the profile email: strings are compared as given.
- Missing or wrongly typed payload fields: payloads are typed records, so only value constraints are checked.
- `Utils.Upper`: upper-casing is modelled for ASCII letters only, not full Unicode case mapping.
- `Utils.GetInitials`: a string is a sequence of Unicode characters, so a word's first character is a whole character. In the source, `n[0]` is a UTF-16 code unit, which is half of a character outside the Basic Multilingual Plane.
- Proxy URLs carry only a pathname and query parameters. Host, port and fragment pass through untouched in the source and are not modelled.
- Proxy.UrlBuffer.SetPathname: the URL pathname setter's normalisation is not modelled. In the source, assigning a path makes it absolute and percent-encodes it, so "courses" becomes "/courses" and "/a b" becomes "/a%20b". The model stores the value as given.
- Proxy.Decide: the landing pathname is the `redirect` value as given, not the setter's normalised path. Request pathnames, which `Proxy.LoginRoundTrip` relies on, are already in that normal form.
- Proxy.Guard: it sets the pathname through `Proxy.UrlBuffer.SetPathname`, so it shares the missing normalisation.
- The database schema is not part of this model. The model takes these relational cascades as given: deleting a course deletes its modules, deleting a module deletes its variants, contents and enrollments, and deleting a user deletes their enrollments and teacher links. A new course is private by default.
- Storage errors (a missing course row on update, an unknown teacher id on connect, a missing user row) are the single message `Db.MissingRecord`, not the database library's text.
- In `updateCourse` a storage error is caught and its message returned. In `enrollUser` (src/lib/actions/user.ts:41-48) and `updateUser` (src/lib/actions/user.ts:62), the write is not inside a `try`. A session whose user row is gone makes those two actions throw, where the model returns `Err(MissingRecord)` instead.
- UserActions.UpdateUser: of the keys a client can add beyond the schema's, only `roleLevel` is modelled. Other user columns written the same way are not represented.
- Rows returned by unordered queries (a module's variants of one type, the courses carrying a tag) are taken in the model's order. `TagActions.DeleteTag` states the revalidation order only up to a permutation of the affected courses.
- `UserActions.EnrollUser` receives the payload as the typed `Enroll` value, because the action never runs its schema. `UserSchema.ParseEnroll` models the schema on its own.
- Generated ids (course, tag, enrollment) are inputs required to be fresh, and the master password is an optional input.
- CourseSchema.ParseModules: the "at least 1 module" and "indices must be unique" messages are stated as implications from their cases, not as if-and-only-if. Which messages other failures produce follows from the element-wise parse (`Seqs.ParseAll`).
- CourseSchema.ParseCourse: besides acceptance and the parsed fields, only the missing-module message is stated. The first-issue order of the other fields is in the body, not in the contract.
- Utils.Split: its contract states only that at least one segment results. `Utils.SplitWordStarts` carries its meaning.

## Findings

| source | as written | input that shows it | evidently intended | confidence | as-written member | corrected member |
|---|---|---|---|---|---|---|
| src/lib/actions/user.ts:62 | the update writes the raw argument `{ ...data }`, not `parsed.data`, so keys the schema drops still reach the user row | a signed-in student sends a valid profile with `roleLevel: 4` added | only the schema's fields (email, image, name, bio) are written, and no role changes | high, not executed | UserActions.ProfileSetsRole | UserActions.WithParsedProfile |
| src/lib/actions/tag.ts:15-16 | `createTag` tests `readPrivilegedUser(3)` without `await`; the pending promise is always truthy, so the gate never rejects | a visitor with no session creates a valid tag whose name is free | a caller below admin level gets "Not authorised" | high, not executed | TagActions.AnonymousCreateSucceeds | TagActions.GatedCreateTag |
| src/lib/actions/tag.ts:27-28 | `deleteTag` tests the same unawaited promise, so any visitor deletes tags | a visitor with no session deletes a tag by id | a caller below admin level gets "Not authorised" | high, not executed | TagActions.AnonymousDeleteSucceeds | TagActions.GatedDeleteTag |
