# level-up backend: a Dafny model of its core

level-up is an Express/Mongoose backend that connects students with tutors.
A student searches tutors by course and weekly availability, opens a tutor's
profile (which counts the view and hides contact details unless the tutor
accepted the student), and sends a connection request. The tutor accepts or
rejects it, and a rejected student may ask again after seven days. An admin
manages the student, tutor and course collections. Input fields are checked
against three regular expressions.

This project models that logic in Dafny and proves properties of it:

| file | module | what it models |
|---|---|---|
| `models.dfy` | `Models` | the tutor, student and course documents and their embedded records (models/tutor.js, models/student.js) |
| `requests.dfy` | `Requests` | a tutor's `studentRequests` ledger: lookup, request (re-)creation with the cooldown, resolution, the pending and accepted listings |
| `profile.dfy` | `Profile` | the viewer counter in a tutor's `students`, the viewer `$pull`, and the redacted profile |
| `matcher.dfy` | `Matcher` | `getTimeInMinutes`, `isTimeInRange`, `isTutorAvailable` and `findTutor` |
| `store.dfy` | `Store` | the three collections as maps in a `Database` object, with the invariant the handlers keep |
| `student_controller.dfy` | `StudentController` | the student's own `updateStudent` and `updatePassword`, `viewTutor` and `connectTutor`, as methods that update the store |
| `tutor_controller.dfy` | `TutorController` | the tutor's `updateTutor` and `updatePassword`, the two listings, and `handleConnectionRequest` |
| `admin_controller.dfy` | `AdminController` | every admin handler |
| `validators.dfy` | `Validators` | the three patterns of util/regex.js as string predicates |
| `seqs.dfy`, `wrappers.dfy`, `api.dfy` | `Seqs`, `Wrappers`, `Api` | find-first and filter on sequences, `Option`/`Result`, roles and HTTP error codes |

Modelling choices:

- Documents are values. A handler loads a document, builds the changed copy
  and saves it into the map. Each handler method is proved against the pure
  function that describes its change (`Requests.Connect`,
  `Requests.Resolve`, `Profile.RecordView` and so on). Those functions are
  where the properties are proved.
- `Store.Database.Valid` is the invariant that every method which writes the
  store keeps. It says:
  - each document is stored under its own id;
  - student usernames, tutor usernames and course names are unique;
  - in every tutor, `studentRequests` has at most one entry per student and
    every entry has its required fields;
  - in every tutor, `students` has at most one viewer record per student,
    each with a count of at least 1.
- Time is a parameter `now` in whole seconds, standing for `new Date()`.
- A bcrypt hash is passed in as a finished string. A bcrypt comparison is
  passed in as a boolean.
- A fresh MongoDB `_id` is passed in as `newId`, which must not be in use.
- Errors are `Api.ApiError` values. `Api.StatusCode` maps them to the
  handlers' HTTP codes: 401, 403, 404, 409, 422 and 500.
- `findTutor` and `isTimeInRange` are modelled exactly as written, including
  the slip described under Findings. The corrected predicate is modelled
  beside them.
- In `connectTutor` the model uses the cooldown comparison the handler
  evidently intends, and stores the student's username in the new entry.
  See Findings.

The model keeps several behaviours of the code that are easy to get wrong:

- The pending and accepted listings keep the stored order. They are not
  sorted by request date (`Requests.PendingNotSortedByDate`).
- The cooldown is counted from the entry's `requestDate`, which is the time
  of the request, not of the rejection. The comparison is inclusive: exactly
  604800 s later is still refused (`Requests.CooldownBoundary`).
- `handleConnectionRequest` saves two documents in sequence, the student
  first and then the tutor. They are not written atomically. A failed tutor
  save leaves the student's new `connectedTutors` entry in place.
- `findTutor` listings keep `contactDetails`. Only `viewTutor` redacts them.

## Model

| member | source | states |
|---|---|---|
| Store.NewTutorStartsClean | models/tutor.js:146-159 | a tutor created with the schema's defaults (empty `availability`, `students` and `studentRequests`) meets the store's per-tutor invariants and has no request and no view from any student |
| Requests.FindRequest | controllers/student.js:257-259 | the index found holds the student's id and no earlier entry does; there is no result iff no entry has the id |
| Requests.StatusOf | controllers/student.js:203-205 | the `find` over `studentRequests` (here and at controllers/student.js:257-259, over the records of models/tutor.js:97-118): a status is reported iff the student has an entry; the status reported is that of the student's first entry |
| Requests.Connect | controllers/student.js:253-293 | the request is refused (always 409) iff the first entry is accepted, pending, or rejected at most 604800 s ago, with the reason matching the status: already connected, already pending, cooldown. On success a student without an entry gets a new pending entry at the end, dated `now` and carrying the student's username; a rejected first entry is reset in place to pending with date `now`, its id and username kept. Every other student's entry is unchanged at its index. At most one entry per id and the required fields are kept |
| Requests.AppendFreshKeepsUnique | controllers/student.js:287-291 | appending the entry of a student who has none keeps ids unique |
| Requests.ConnectAsWritten | controllers/student.js:257-293 | the handler as written can succeed only for a student without an entry: a rejected entry never reopens |
| Requests.RejectedEntryFailsAsWritten | controllers/student.js:1-8 | as written, a request over a rejected entry ends in a 500 whatever its age |
| Requests.AppendedRequestLacksUsername | controllers/student.js:287-291 | as written, the appended entry has no `username`, so it does not conform to the schema (models/tutor.js:103-106) |
| Requests.ConnectTwiceIsPending | controllers/student.js:257-269 | a second request right after a successful one is refused as already pending |
| Requests.CooldownBoundary | controllers/student.js:265-276 | exactly 604800 s after the entry's date the request is still refused; one second later the same entry is reset to pending with the new date |
| Requests.Resolve | controllers/tutor.js:259-279 | resolution fails iff the student has no entry, whatever the current status. Otherwise the first entry takes the decision; ids, dates and usernames are kept; every other entry is unchanged; uniqueness and conformance are kept |
| Requests.ResolveKeepsOthers | controllers/tutor.js:259-279 | when the student has an entry, deciding on it leaves every other student's status as it was |
| Requests.AcceptedBlocksRequests | controllers/student.js:257-262 | when the student has an entry, after an accept the student's next request is refused as already connected |
| Requests.PendingRequests | controllers/tutor.js:175-177 | exactly the pending entries, each as often as in the ledger, as an order-preserving subsequence of the ledger |
| Requests.AcceptedRequests | controllers/tutor.js:206-208 | exactly the accepted entries, each as often as in the ledger, as an order-preserving subsequence of the ledger |
| Requests.ListingsDisjoint | controllers/tutor.js:157-217 | no entry is listed both as pending and as accepted |
| Requests.PendingNotSortedByDate | controllers/tutor.js:175-177 | a ledger whose pending entries are in decreasing date order is listed unchanged |
| Profile.ViewCount | controllers/student.js:181-183 | the count of the viewer record the `find` over `students` returns (records of models/tutor.js:79-95): a student without a record has 0 views, and counts are non-negative in a valid list |
| Profile.RecordView | controllers/student.js:181-197 | the student's view count grows by exactly 1 and its record is dated `now`. The list grows by one iff the student had no record. Every other record is unchanged at its index. Unique ids and positive counts are kept |
| Profile.FirstViewerAt | controllers/student.js:181-183 | the find returns the first record with the student's id, wherever it is |
| Profile.RecordViewKeepsOthers | controllers/student.js:181-197 | a view by one student leaves every other student's count unchanged |
| Profile.RemoveViewer | controllers/admin.js:244 | no record of the student remains; every other record is kept, in order; unique ids and positive counts are kept |
| Profile.RenderProfile | controllers/student.js:198-214 | the copy has no password, viewers or requests. `contactDetails` is kept iff the tutor has them and the caller's first entry is accepted. All other profile fields are copied |
| Profile.RedactionUnderUniqueIds | controllers/student.js:200-214 | with one entry per student, contact details are shown iff the caller has an accepted entry |
| Matcher.GetTimeInMinutes | controllers/student.js:308-310 | for a clock time, every conversion except an end time at hour 0 lies in [0, 1440) and converts back to its hour and minute; an end time lies in (0, 1440] |
| Matcher.ToTimeRange | controllers/student.js:308-310 | an end time lies in (0, 1440], and equals 1440 iff its hour is 0, whatever the minutes |
| Matcher.IsTimeInRange | controllers/student.js:312-356 | the time test as written: it passes whenever the two half-open minute intervals intersect |
| Matcher.IsTimeInRangeIntended | controllers/student.js:312-356 | the time test with `toMinute` in the third and fourth tests: it passes whenever the intervals intersect, and for non-empty slots only then |
| Matcher.IntendedIsHalfOpenOverlap | controllers/student.js:334-356 | for non-empty slots the corrected test is exactly half-open overlap, and it is symmetric in the two slots |
| Matcher.AsWrittenMatchesDisjointWindows | controllers/student.js:334-356 | as written, tutor 09:00-10:00 matches student 10:00-10:05, although the slots are disjoint |
| Matcher.BoundaryCases | controllers/student.js:308-332 | slots that only touch do not overlap; the 00:00-00:00 slot overlaps every slot that starts within the day |
| Matcher.IsTutorAvailable | controllers/student.js:361-369 | true iff some tutor slot and some student slot share the day and pass the time test; false when either list is empty |
| Matcher.SelectTutors | controllers/student.js:388-484 | an order-preserving subsequence holding exactly the tutors that match: courses only by expertise, availability only by availability, both by both, neither selects all |
| Matcher.SelectTutorsIsFilterOfWanted | controllers/student.js:388-484 | the four branches equal one filter on the rule "an empty list constrains nothing" |
| Matcher.Summarize | controllers/student.js:396-406 | a listing has no password, viewers or requests, carries the caller's first entry (or none when the caller has none) and copies the other fields |
| Matcher.FindTutor | controllers/student.js:371-509 | 403 iff the caller is not a student. Otherwise the listing holds one summary per matching tutor, in the stored order of the tutors: every matching tutor's summary is listed, every listed item summarizes a matching tutor, and no more items than tutors are listed (all of them when both lists are empty) |
| Matcher.ListingCoversWanted | controllers/student.js:388-508 | the listing covers exactly the matching tutors |
| Validators.MatchesIdentifier | util/regex.js:4-5 | a string, the empty one included, matches iff every character is an ASCII letter, digit or `_` |
| Validators.MatchesPassword | util/regex.js:7-8 | a matching password has at least six characters, all printable ASCII from `!` to `~`, none of them white space |
| Validators.PasswordAlphabet | util/regex.js:7-8 | the listed specials are exactly the ASCII punctuation characters, so the allowed characters are exactly `!` to `~` |
| Validators.PasswordRejectsWhitespace | util/regex.js:7-8 | a password containing any white space is rejected |
| Validators.PasswordExamples | util/regex.js:7-8 | `Abcde1!` and `aB3_xy` match (`_` counts as a special); a five-character candidate is rejected |
| Validators.DoubleWhitespaceAheadMeans | util/regex.js:1-2 | the `(?!.*\s{2})` lookahead fails exactly when two white-space characters are adjacent with no line terminator before them |
| Validators.MatchesNoSpecialChars | util/regex.js:1-2 | a string matches iff it is non-empty, does not start with white space, ends in a word character, has only ASCII letters, digits and white space before that (so no `_`), and has no two adjacent white-space characters without a line terminator before them |
| Validators.NoSpecialCharsUnderscore | util/regex.js:1-2 | the empty string is rejected, and `_` is accepted only as the last character |
| Validators.NoSpecialCharsDoubleWhitespace | util/regex.js:1-2 | two adjacent white-space characters on the first line are rejected, but `a\nb  c` is accepted |
| StudentController.UpdateStudent | controllers/student.js:70-122 | 403. 409 iff a different student holds the username, so keeping one's own username succeeds. 404 iff the student is missing. Otherwise the update succeeds and only username, name and email change |
| StudentController.UpdatePassword | controllers/student.js:532-586 | 403, 404, then 422 when the current password does not match; otherwise the new hash is stored and nothing else changes |
| StudentController.ViewTutor | controllers/student.js:153-227 | 403, then 404 for the student, then 404 for the tutor, with nothing written. Otherwise only that tutor's viewer list changes, by the upsert, and the saved tutor is returned redacted |
| StudentController.ConnectTutor | controllers/student.js:229-306 | 403, then 404 for the student, then 404 for the tutor. Then the ledger change of `Requests.Connect` is saved, with the stored username of the calling student; every refusal writes nothing |
| TutorController.UpdateTutor | controllers/tutor.js:71-126 | 403. 409 iff a different tutor holds the username, so keeping one's own username succeeds. 404 for a missing tutor. Otherwise the update succeeds and exactly the six profile fields are overwritten |
| TutorController.UpdatePassword | controllers/tutor.js:345-400 | 403, 404, then 422 when the current password does not match; otherwise the new hash is stored and nothing else changes |
| TutorController.GetPendingConnectionRequests | controllers/tutor.js:157-186 | 403, 404, or exactly the pending entries, each as often as stored, in stored order |
| TutorController.GetAcceptedConnectionRequests | controllers/tutor.js:188-217 | 403, 404, or exactly the accepted entries, each as often as stored, in stored order |
| TutorController.RecordDecision | controllers/tutor.js:267-272 | on accept exactly one `{tutor id, tutor username}` entry is appended to `connectedTutors`; on reject the student is unchanged; no other field changes |
| TutorController.AcceptTwiceDuplicates | controllers/tutor.js:259-279 | accepting the same request twice lists the tutor twice |
| TutorController.DecidedRequest | controllers/tutor.js:259-277 | the entry returned is the student's first entry with the new status; there is none iff the student has no entry |
| TutorController.HandleConnectionRequest | controllers/tutor.js:219-293 | 403, then 404 for the tutor, the student and the entry, with nothing written. Then the student is saved with `RecordDecision`. Then the tutor is saved with `Requests.Resolve` and the decided entry is returned; if that save fails, only the student's change remains and the answer is 500 |
| AdminController.WithoutPassword | controllers/admin.js:266-267 | the projection drops only the password: with it added back, the student is restored |
| AdminController.TutorWithoutPassword | controllers/admin.js:507-508 | the projection drops only the password: with it added back, the tutor is restored |
| AdminController.CreateStudent | controllers/admin.js:73-122 | 401. 409 iff the username exists. Otherwise exactly one student is added, under the new id, with empty `connectedTutors` (the schema default, models/student.js:37-40). Usernames stay unique |
| AdminController.UpdateStudent | controllers/admin.js:124-174 | 401. 409 iff a different student holds the username. 404 iff the student is missing. Otherwise the update succeeds and only username, name and email change |
| AdminController.UpdateStudentPassword | controllers/admin.js:176-231 | 401, 404, then 422 when the current password does not match; otherwise only the password changes |
| AdminController.DeleteStudent | controllers/admin.js:233-257 | 401. Otherwise the student is removed (present or not), no tutor keeps a viewer record of it, and every tutor's other fields, `studentRequests` included, are unchanged |
| AdminController.GetStudents | controllers/admin.js:259-279 | 401, or every student, each without the password |
| AdminController.GetStudent | controllers/admin.js:281-310 | 401, 404 iff the student is missing, or the student without the password |
| AdminController.CreateTutor | controllers/admin.js:312-363 | 401. 409 iff the username exists. Otherwise exactly one tutor is added, with empty viewer, request and availability lists. Usernames stay unique |
| AdminController.UpdateTutor | controllers/admin.js:365-418 | 401. 409 iff a different tutor holds the username. 404 iff the tutor is missing. Otherwise the update succeeds and only username, name, email, expertise and contact details change |
| AdminController.UpdateTutorPassword | controllers/admin.js:420-475 | 401, 404, then 422 when the current password does not match; otherwise only the password changes |
| AdminController.DeleteTutor | controllers/admin.js:477-498 | 401; otherwise the tutor is removed (present or not), and the students, with their `connectedTutors`, are unchanged |
| AdminController.GetTutors | controllers/admin.js:500-520 | 401, or every tutor, each without the password |
| AdminController.GetTutor | controllers/admin.js:522-551 | 401, 404 iff the tutor is missing, or the tutor without the password |
| AdminController.CreateCourse | controllers/admin.js:553-596 | 401. 409 iff a course has the name. Otherwise exactly one course is added. Course names stay unique |
| AdminController.UpdateCourse | controllers/admin.js:598-649 | 401. 409 iff any course has the name, the course itself included, so keeping its own name is refused. 404 iff the course is missing. Otherwise the update succeeds and only its name and description change |
| AdminController.DeleteCourse | controllers/admin.js:651-672 | 401; otherwise the course is removed (present or not) and nothing else changes |
| AdminController.GetAdminDashboardDetails | controllers/admin.js:724-770 | 401 for a non-admin, so every caller is answered; otherwise the counts are the sizes of the student, tutor and course collections |
| AdminController.DashboardNonAdminUnanswered | controllers/admin.js:724-729 | as written, only an admin is answered (200): a non-admin caller gets no response at all, because the rejected promise of the `async` handler never reaches the error middleware, where the modelled handler answers 401 |

## Left out

- Request validation (express-validator chains in routes/*.js) and the 400 answers it produces are not modelled. Two of its guarantees become preconditions:
  - routes/tutor.js:91 limits the decision to accepted or rejected;
  - routes/student.js:67-68 makes courses and availability lists.
- JWT issuing and checking (middleware/is-auth.js, the login handlers) is not modelled. The caller's role and id are parameters.
- bcrypt hashing and comparison are outside the model. The hash is passed in, and the comparison's outcome is a boolean parameter.
- The e-mail service (services/emailService.js) is not part of this model.
- Promises, the response JSON shaping and the error middleware in app.js are not modelled, and neither is the ordering of asynchronous callbacks. The inner bcrypt chains of createStudent, createTutor, the two admin password updates and the tutor's own updatePassword (controllers/tutor.js:381-392) are not returned, so their failures escape the `catch` and the request is not answered. The model treats them as succeeding.
- Concurrent requests and the read-modify-write races on one tutor document are not modelled. The model runs one handler at a time.
- MongoDB `_id` casting is not modelled. A malformed id would make `findById` throw a CastError and answer 500; the model treats ids as plain strings.
- Dates are whole seconds. `moment`'s diff truncates milliseconds, and that truncation is not modelled.
- Save failures are not modelled, except the tutor save in `handleConnectionRequest`, where the sequence of the two writes matters.
- Matcher.FindTutor: takes the tutor collection, in the order `Tutor.find({})` returns it, as a parameter instead of reading the store.
- AdminController.GetStudents: returns the students as a map keyed by id, not as an array in MongoDB's order, which is not modelled.
- AdminController.GetTutors: returns the tutors as a map keyed by id, not as an array in MongoDB's order, which is not modelled.
- Login, logout, getProfile, getCourses, getCourse, viewStudent, getConnectedTutors and getProfileViewedStudents only pass data through. They are not modelled.
- Hours and minutes are whole numbers in the model. In the source they are JavaScript numbers, which may be fractional, and the student's availability is not validated beyond being an array (routes/student.js:67-68), so a string `minutes` would make `hour * 60 + minutes` concatenate (`*` still turns a string `hour` into a number), and a string end hour `"0"` would fail `hour === 0` and give `minutes` instead of 1440 (controllers/student.js:309). Those inputs are not modelled.
- app.js:28-29 mounts the admin and tutor routers but no student router, so the student handlers are unreachable over HTTP. They are modelled as handlers.
- models/message.js and models/course.js are bare record shapes. Only the course's name and description are modelled.
- `\s` is fixed to the ECMAScript white-space and line-terminator code points. Case folding and Unicode normalisation are not modelled. The no-special-chars pattern is imported by routes/admin.js but used by no validation chain.
- Profile.ViewCount: reports the count of the first record only, which is the count that viewTutor updates.

## Findings

| source | as written | input that shows it | evidently intended | confidence | as-written member | corrected member |
|---|---|---|---|---|---|---|
| controllers/student.js:341, 353 | the third and fourth range tests convert an end time with `toHour` passed as the minute | tutor 09:00-10:00, student 10:00-10:05: no common minute, yet the tutor is reported available | `toMinute`, so that the test is half-open interval overlap | high; not executed | Matcher.AsWrittenMatchesDisjointWindows | Matcher.IntendedIsHalfOpenOverlap |
| controllers/student.js:1-8, 270-274 | `moment` is called but never imported | any request over a rejected entry: the ReferenceError becomes a 500, so a rejected student can never ask again | the 7-day cooldown comparison on `requestDate` | high; not executed | Requests.RejectedEntryFailsAsWritten | Requests.Connect |
| controllers/student.js:287-291 | the appended request has no `username`, a field the schema requires (models/tutor.js:103-106) | a first request from any student: the save fails validation and answers 500 | the student's username stored in the new entry | high; not executed | Requests.AppendedRequestLacksUsername | Requests.Connect |
| controllers/admin.js:724-729 | the 401 is thrown inside an `async` handler, so it rejects the handler's promise, which Express before version 5 does not pass to the error middleware | any student or tutor token on the dashboard route: no response is ever sent; on Node.js 15 or later, where an unhandled rejection ends the process by default, the whole server stops | a 401 answer, as every other admin handler gives | medium; not executed | AdminController.DashboardNonAdminUnanswered | AdminController.GetAdminDashboardDetails |
