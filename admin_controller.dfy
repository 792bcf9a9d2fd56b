/**
 * The admin handlers of controllers/admin.js. Every one answers 401 to a
 * caller whose role is not admin before it touches the store. Create and
 * update keep usernames (per collection) and course names unique.
 * `hashedPassword` is the bcrypt hash of the submitted password, computed
 * outside the model; `currentMatches` is bcrypt's comparison of the
 * submitted current password with the stored hash; `newId` is the fresh
 * `_id` MongoDB assigns.
 */
module AdminController {
  import opened Wrappers
  import opened Models
  import opened Api
  import opened Profile
  import opened Store

  /** A student as the admin listings return it: every field but `password`. */
  datatype StudentRecord = StudentRecord(id: Id, username: string, name: Option<string>, email: Option<string>,
                                         connectedTutors: seq<ConnectedTutor>)

  /** A tutor as the admin listings return it: every field but `password`. */
  datatype TutorRecord = TutorRecord(id: Id, username: string, name: Option<string>, email: Option<string>,
                                     expertise: seq<string>, contactDetails: Option<ContactDetails>,
                                     availability: seq<Availability>, students: seq<Viewer>,
                                     studentRequests: seq<StudentRequest>)

  /** The three collection sizes of the dashboard. */
  datatype DashboardDetails = DashboardDetails(studentsCount: nat, tutorsCount: nat, coursesCount: nat)

  /** The `{password: 0}` projection of a student: only the password is lost. */
  function WithoutPassword(s: Student): (p: StudentRecord)
    ensures Student(p.id, p.username, s.password, p.name, p.email, p.connectedTutors) == s
  {
    StudentRecord(s.id, s.username, s.name, s.email, s.connectedTutors)
  }

  /** The `{password: 0}` projection of a tutor: only the password is lost. */
  function TutorWithoutPassword(t: Tutor): (p: TutorRecord)
    ensures Tutor(p.id, p.username, t.password, p.name, p.email, p.expertise, p.contactDetails,
                  p.availability, p.students, p.studentRequests) == t
  {
    TutorRecord(t.id, t.username, t.name, t.email, t.expertise, t.contactDetails,
                t.availability, t.students, t.studentRequests)
  }

  /** createStudent: 409 when the username exists, otherwise exactly one new student. */
  method CreateStudent(db: Database, role: string, newId: Id, username: string, hashedPassword: string,
                       name: Option<string>, email: Option<string>) returns (r: Result<Id, ApiError>)
    requires db.Valid() && newId !in db.students
    modifies db
    ensures db.Valid()
    ensures r.Err? ==> unchanged(db)
    ensures role != AdminRole ==> r == Err(Unauthorized)
    ensures role == AdminRole ==> (r.Err? <==> Taken(old(db.students), StudentUsername, username))
    ensures r.Err? && role == AdminRole ==> r == Err(Conflict(UsernameTaken))
    ensures r.Ok? ==> r.value == newId && db.students == old(db.students)[newId := NewStudent(newId, username, hashedPassword, name, email)]
    ensures r.Ok? ==> |db.students| == |old(db.students)| + 1 && db.tutors == old(db.tutors) && db.courses == old(db.courses)
  {
    if role != AdminRole {
      return Err(Unauthorized);
    }
    if Taken(db.students, StudentUsername, username) {
      return Err(Conflict(UsernameTaken));
    }
    db.students := db.students[newId := NewStudent(newId, username, hashedPassword, name, email)];
    r := Ok(newId);
  }

  /**
   * updateStudent: 409 only when a different student holds the username,
   * 404 for a missing student, otherwise username, email and name are set.
   */
  method UpdateStudent(db: Database, role: string, studentId: Id, username: string, name: Option<string>, email: Option<string>)
    returns (r: Result<Id, ApiError>)
    requires db.Valid()
    modifies db
    ensures db.Valid()
    ensures r.Err? ==> unchanged(db)
    ensures role != AdminRole ==> r == Err(Unauthorized)
    ensures role == AdminRole ==>
              (r == Err(Conflict(UsernameTaken)) <==> TakenByOther(old(db.students), StudentUsername, username, studentId))
    ensures role == AdminRole && !TakenByOther(old(db.students), StudentUsername, username, studentId) ==>
              (r == Err(NotFound(StudentEntity)) <==> studentId !in old(db.students))
    ensures r.Ok? ==>
              && r.value == studentId && studentId in old(db.students)
              && db.students == old(db.students)[studentId := old(db.students)[studentId].(username := username, name := name, email := email)]
              && db.tutors == old(db.tutors) && db.courses == old(db.courses)
    ensures role == AdminRole && !TakenByOther(old(db.students), StudentUsername, username, studentId) && studentId in old(db.students) ==>
              r.Ok?
  {
    if role != AdminRole {
      return Err(Unauthorized);
    }
    if TakenByOther(db.students, StudentUsername, username, studentId) {
      return Err(Conflict(UsernameTaken));
    }
    if studentId !in db.students {
      return Err(NotFound(StudentEntity));
    }
    var studentDoc := db.students[studentId];
    db.students := db.students[studentId := studentDoc.(username := username, name := name, email := email)];
    r := Ok(studentId);
  }

  /** updateStudentPassword: 404 for a missing student, 422 when the current password is wrong. */
  method UpdateStudentPassword(db: Database, role: string, studentId: Id, currentMatches: bool, hashedPassword: string)
    returns (r: Result<Id, ApiError>)
    requires db.Valid()
    modifies db
    ensures db.Valid()
    ensures r.Err? ==> unchanged(db)
    ensures role != AdminRole ==> r == Err(Unauthorized)
    ensures role == AdminRole && studentId !in old(db.students) ==> r == Err(NotFound(StudentEntity))
    ensures role == AdminRole && studentId in old(db.students) && !currentMatches ==> r == Err(WrongCurrentPassword)
    ensures role == AdminRole && studentId in old(db.students) && currentMatches ==>
              && r == Ok(studentId)
              && db.students == old(db.students)[studentId := old(db.students)[studentId].(password := hashedPassword)]
              && db.tutors == old(db.tutors) && db.courses == old(db.courses)
  {
    if role != AdminRole {
      return Err(Unauthorized);
    }
    if studentId !in db.students {
      return Err(NotFound(StudentEntity));
    }
    if !currentMatches {
      return Err(WrongCurrentPassword);
    }
    var studentDoc := db.students[studentId];
    db.students := db.students[studentId := studentDoc.(password := hashedPassword)];
    r := Ok(studentId);
  }

  /**
   * deleteStudent: the student is removed (absent or not), and every
   * viewer record with its id is pulled from every tutor. Connection
   * requests are left as they are.
   */
  method DeleteStudent(db: Database, role: string, studentId: Id) returns (r: Result<(), ApiError>)
    requires db.Valid()
    modifies db
    ensures db.Valid()
    ensures role != AdminRole ==> r == Err(Unauthorized) && unchanged(db)
    ensures role == AdminRole ==> r == Ok(()) && db.students == old(db.students) - {studentId} && db.courses == old(db.courses)
    ensures role == AdminRole ==> db.tutors.Keys == old(db.tutors).Keys
    ensures role == AdminRole ==> forall id :: id in db.tutors ==>
              db.tutors[id] == old(db.tutors)[id].(students := RemoveViewer(old(db.tutors)[id].students, studentId))
    ensures role == AdminRole ==> forall id :: id in db.tutors ==>
              && (forall k :: 0 <= k < |db.tutors[id].students| ==> db.tutors[id].students[k].id != studentId)
              && db.tutors[id].studentRequests == old(db.tutors)[id].studentRequests
  {
    if role != AdminRole {
      return Err(Unauthorized);
    }
    var pulled := PullViewer(db.tutors, studentId);
    db.students := db.students - {studentId};
    db.tutors := pulled;
    r := Ok(());
  }

  /**
   * The `$pull` of deleteStudent over the whole tutor collection: every
   * tutor loses its viewer records of `sid` and keeps everything else, so
   * the store's tutor invariants are kept.
   */
  function PullViewer(tutors: map<Id, Tutor>, sid: Id): (m: map<Id, Tutor>)
    ensures m.Keys == tutors.Keys
    ensures forall id :: id in m ==> m[id] == tutors[id].(students := RemoveViewer(tutors[id].students, sid))
    ensures (forall id :: id in tutors ==> tutors[id].id == id) ==> forall id :: id in m ==> m[id].id == id
    ensures UniqueKey(tutors, TutorUsername) ==> UniqueKey(m, TutorUsername)
    ensures (forall id :: id in tutors ==> TutorWellFormed(tutors[id])) ==> forall id :: id in m ==> TutorWellFormed(m[id])
  {
    map id | id in tutors :: tutors[id].(students := RemoveViewer(tutors[id].students, sid))
  }

  /** getStudents: every student, without the password. */
  method GetStudents(db: Database, role: string) returns (r: Result<map<Id, StudentRecord>, ApiError>)
    ensures role != AdminRole ==> r == Err(Unauthorized)
    ensures role == AdminRole ==> r.Ok? && r.value.Keys == db.students.Keys
    ensures r.Ok? ==> forall id :: id in r.value ==> r.value[id] == WithoutPassword(db.students[id])
  {
    if role != AdminRole {
      return Err(Unauthorized);
    }
    r := Ok(map id | id in db.students :: WithoutPassword(db.students[id]));
  }

  /** getStudent: 404 for a missing student, else the student without the password. */
  method GetStudent(db: Database, role: string, studentId: Id) returns (r: Result<StudentRecord, ApiError>)
    ensures role != AdminRole ==> r == Err(Unauthorized)
    ensures role == AdminRole ==> (r == Err(NotFound(StudentEntity)) <==> studentId !in db.students)
    ensures r.Ok? ==> studentId in db.students && r.value == WithoutPassword(db.students[studentId])
  {
    if role != AdminRole {
      return Err(Unauthorized);
    }
    if studentId !in db.students {
      return Err(NotFound(StudentEntity));
    }
    r := Ok(WithoutPassword(db.students[studentId]));
  }

  /** createTutor: 409 when the username exists, otherwise exactly one new tutor with empty lists. */
  method CreateTutor(db: Database, role: string, newId: Id, username: string, hashedPassword: string,
                     name: Option<string>, email: Option<string>, expertise: seq<string>,
                     contactDetails: Option<ContactDetails>) returns (r: Result<Id, ApiError>)
    requires db.Valid() && newId !in db.tutors
    modifies db
    ensures db.Valid()
    ensures r.Err? ==> unchanged(db)
    ensures role != AdminRole ==> r == Err(Unauthorized)
    ensures role == AdminRole ==> (r.Err? <==> Taken(old(db.tutors), TutorUsername, username))
    ensures r.Err? && role == AdminRole ==> r == Err(Conflict(UsernameTaken))
    ensures r.Ok? ==>
              && r.value == newId
              && db.tutors == old(db.tutors)[newId := NewTutor(newId, username, hashedPassword, name, email, expertise, contactDetails)]
    ensures r.Ok? ==> |db.tutors| == |old(db.tutors)| + 1 && db.students == old(db.students) && db.courses == old(db.courses)
  {
    if role != AdminRole {
      return Err(Unauthorized);
    }
    if Taken(db.tutors, TutorUsername, username) {
      return Err(Conflict(UsernameTaken));
    }
    var tutor := NewTutor(newId, username, hashedPassword, name, email, expertise, contactDetails);
    NewTutorStartsClean(newId, username, hashedPassword, name, email, expertise, contactDetails);
    db.tutors := db.tutors[newId := tutor];
    r := Ok(newId);
  }

  /**
   * updateTutor (admin): 409 only when a different tutor holds the
   * username, 404 for a missing tutor, otherwise username, name, email,
   * expertise and contact details are set (availability is not).
   */
  method UpdateTutor(db: Database, role: string, tutorId: Id, username: string, name: Option<string>, email: Option<string>,
                     expertise: seq<string>, contactDetails: Option<ContactDetails>) returns (r: Result<Id, ApiError>)
    requires db.Valid()
    modifies db
    ensures db.Valid()
    ensures r.Err? ==> unchanged(db)
    ensures role != AdminRole ==> r == Err(Unauthorized)
    ensures role == AdminRole ==>
              (r == Err(Conflict(UsernameTaken)) <==> TakenByOther(old(db.tutors), TutorUsername, username, tutorId))
    ensures role == AdminRole && !TakenByOther(old(db.tutors), TutorUsername, username, tutorId) ==>
              (r == Err(NotFound(TutorEntity)) <==> tutorId !in old(db.tutors))
    ensures r.Ok? ==>
              && r.value == tutorId && tutorId in old(db.tutors)
              && db.tutors == old(db.tutors)[tutorId := old(db.tutors)[tutorId].(
                   username := username, name := name, email := email, expertise := expertise, contactDetails := contactDetails)]
              && db.students == old(db.students) && db.courses == old(db.courses)
    ensures role == AdminRole && !TakenByOther(old(db.tutors), TutorUsername, username, tutorId) && tutorId in old(db.tutors) ==>
              r.Ok?
  {
    if role != AdminRole {
      return Err(Unauthorized);
    }
    if TakenByOther(db.tutors, TutorUsername, username, tutorId) {
      return Err(Conflict(UsernameTaken));
    }
    if tutorId !in db.tutors {
      return Err(NotFound(TutorEntity));
    }
    var tutorDoc := db.tutors[tutorId];
    db.tutors := db.tutors[tutorId := tutorDoc.(username := username, name := name, email := email,
                                                 expertise := expertise, contactDetails := contactDetails)];
    r := Ok(tutorId);
  }

  /** updateTutorPassword: 404 for a missing tutor, 422 when the current password is wrong. */
  method UpdateTutorPassword(db: Database, role: string, tutorId: Id, currentMatches: bool, hashedPassword: string)
    returns (r: Result<Id, ApiError>)
    requires db.Valid()
    modifies db
    ensures db.Valid()
    ensures r.Err? ==> unchanged(db)
    ensures role != AdminRole ==> r == Err(Unauthorized)
    ensures role == AdminRole && tutorId !in old(db.tutors) ==> r == Err(NotFound(TutorEntity))
    ensures role == AdminRole && tutorId in old(db.tutors) && !currentMatches ==> r == Err(WrongCurrentPassword)
    ensures role == AdminRole && tutorId in old(db.tutors) && currentMatches ==>
              && r == Ok(tutorId)
              && db.tutors == old(db.tutors)[tutorId := old(db.tutors)[tutorId].(password := hashedPassword)]
              && db.students == old(db.students) && db.courses == old(db.courses)
  {
    if role != AdminRole {
      return Err(Unauthorized);
    }
    if tutorId !in db.tutors {
      return Err(NotFound(TutorEntity));
    }
    if !currentMatches {
      return Err(WrongCurrentPassword);
    }
    var tutorDoc := db.tutors[tutorId];
    db.tutors := db.tutors[tutorId := tutorDoc.(password := hashedPassword)];
    r := Ok(tutorId);
  }

  /**
   * deleteTutor: the tutor is removed (absent or not); the students'
   * `connectedTutors` entries naming it stay as they are.
   */
  method DeleteTutor(db: Database, role: string, tutorId: Id) returns (r: Result<(), ApiError>)
    requires db.Valid()
    modifies db
    ensures db.Valid()
    ensures role != AdminRole ==> r == Err(Unauthorized) && unchanged(db)
    ensures role == AdminRole ==>
              && r == Ok(())
              && db.tutors == old(db.tutors) - {tutorId}
              && db.students == old(db.students) && db.courses == old(db.courses)
  {
    if role != AdminRole {
      return Err(Unauthorized);
    }
    db.tutors := db.tutors - {tutorId};
    r := Ok(());
  }

  /** getTutors: every tutor, without the password. */
  method GetTutors(db: Database, role: string) returns (r: Result<map<Id, TutorRecord>, ApiError>)
    ensures role != AdminRole ==> r == Err(Unauthorized)
    ensures role == AdminRole ==> r.Ok? && r.value.Keys == db.tutors.Keys
    ensures r.Ok? ==> forall id :: id in r.value ==> r.value[id] == TutorWithoutPassword(db.tutors[id])
  {
    if role != AdminRole {
      return Err(Unauthorized);
    }
    r := Ok(map id | id in db.tutors :: TutorWithoutPassword(db.tutors[id]));
  }

  /** getTutor: 404 for a missing tutor, else the tutor without the password. */
  method GetTutor(db: Database, role: string, tutorId: Id) returns (r: Result<TutorRecord, ApiError>)
    ensures role != AdminRole ==> r == Err(Unauthorized)
    ensures role == AdminRole ==> (r == Err(NotFound(TutorEntity)) <==> tutorId !in db.tutors)
    ensures r.Ok? ==> tutorId in db.tutors && r.value == TutorWithoutPassword(db.tutors[tutorId])
  {
    if role != AdminRole {
      return Err(Unauthorized);
    }
    if tutorId !in db.tutors {
      return Err(NotFound(TutorEntity));
    }
    r := Ok(TutorWithoutPassword(db.tutors[tutorId]));
  }

  /** createCourse: 409 on a duplicate course name, otherwise exactly one new course. */
  method CreateCourse(db: Database, role: string, newId: Id, courseName: string, description: string)
    returns (r: Result<Id, ApiError>)
    requires db.Valid() && newId !in db.courses
    modifies db
    ensures db.Valid()
    ensures r.Err? ==> unchanged(db)
    ensures role != AdminRole ==> r == Err(Unauthorized)
    ensures role == AdminRole ==> (r.Err? <==> Taken(old(db.courses), CourseName, courseName))
    ensures r.Err? && role == AdminRole ==> r == Err(Conflict(CourseNameTaken))
    ensures r.Ok? ==> r.value == newId && db.courses == old(db.courses)[newId := Course(newId, courseName, description)]
    ensures r.Ok? ==> |db.courses| == |old(db.courses)| + 1 && db.students == old(db.students) && db.tutors == old(db.tutors)
  {
    if role != AdminRole {
      return Err(Unauthorized);
    }
    if Taken(db.courses, CourseName, courseName) {
      return Err(Conflict(CourseNameTaken));
    }
    db.courses := db.courses[newId := Course(newId, courseName, description)];
    r := Ok(newId);
  }

  /**
   * updateCourse: 409 whenever any course has the name, the course being
   * updated included (so keeping a course's own name is refused); 404 for
   * a missing course; otherwise name and description are set.
   */
  method UpdateCourse(db: Database, role: string, courseId: Id, courseName: string, description: string)
    returns (r: Result<Id, ApiError>)
    requires db.Valid()
    modifies db
    ensures db.Valid()
    ensures r.Err? ==> unchanged(db)
    ensures role != AdminRole ==> r == Err(Unauthorized)
    ensures role == AdminRole ==> (r == Err(Conflict(CourseNameTaken)) <==> Taken(old(db.courses), CourseName, courseName))
    ensures role == AdminRole && courseId in old(db.courses) && old(db.courses)[courseId].courseName == courseName ==>
              r == Err(Conflict(CourseNameTaken))
    ensures role == AdminRole && !Taken(old(db.courses), CourseName, courseName) ==>
              (r == Err(NotFound(CourseEntity)) <==> courseId !in old(db.courses))
    ensures r.Ok? ==>
              && r.value == courseId && courseId in old(db.courses)
              && db.courses == old(db.courses)[courseId := Course(courseId, courseName, description)]
              && db.students == old(db.students) && db.tutors == old(db.tutors)
    ensures role == AdminRole && !Taken(old(db.courses), CourseName, courseName) && courseId in old(db.courses) ==> r.Ok?
  {
    if role != AdminRole {
      return Err(Unauthorized);
    }
    if Taken(db.courses, CourseName, courseName) {
      return Err(Conflict(CourseNameTaken));
    }
    if courseId !in db.courses {
      return Err(NotFound(CourseEntity));
    }
    var courseDoc := db.courses[courseId];
    db.courses := db.courses[courseId := courseDoc.(courseName := courseName, description := description)];
    r := Ok(courseId);
  }

  /** deleteCourse: the course is removed (absent or not). */
  method DeleteCourse(db: Database, role: string, courseId: Id) returns (r: Result<(), ApiError>)
    requires db.Valid()
    modifies db
    ensures db.Valid()
    ensures role != AdminRole ==> r == Err(Unauthorized) && unchanged(db)
    ensures role == AdminRole ==>
              && r == Ok(())
              && db.courses == old(db.courses) - {courseId}
              && db.students == old(db.students) && db.tutors == old(db.tutors)
  {
    if role != AdminRole {
      return Err(Unauthorized);
    }
    db.courses := db.courses - {courseId};
    r := Ok(());
  }

  /**
   * getAdminDashboardDetails: 401 for a non-admin, otherwise the number of
   * students, tutors and courses. Every caller is answered.
   */
  method GetAdminDashboardDetails(db: Database, role: string) returns (r: Result<DashboardDetails, ApiError>)
    ensures role != AdminRole ==> r == Err(Unauthorized)
    ensures role == AdminRole ==>
              r == Ok(DashboardDetails(|db.students|, |db.tutors|, |db.courses|))
    ensures DashboardOutcome(r) == if role == AdminRole then Responded(200) else Responded(401)
  {
    if role != AdminRole {
      return Err(Unauthorized);
    }
    r := Ok(DashboardDetails(|db.students|, |db.tutors|, |db.courses|));
  }

  /** What reaches the client for one request: a response with a status, or none. */
  datatype HandlerOutcome = Responded(status: int) | Unanswered

  /**
   * getAdminDashboardDetails as written, seen from the client. The handler
   * is `async`, so the 401 it throws for a non-admin rejects the promise it
   * returns instead of reaching `next`; Express 4 ignores that promise and
   * no response is sent. An admin gets the 200 with the counts.
   */
  function DashboardOutcomeAsWritten(role: string): HandlerOutcome
  {
    if role != AdminRole then Unanswered else Responded(200)
  }

  /** The outcome the modelled handler gives: its error's status, or 200. */
  function DashboardOutcome(r: Result<DashboardDetails, ApiError>): HandlerOutcome {
    if r.Err? then Responded(StatusCode(r.error)) else Responded(200)
  }

  /**
   * As written, only an admin is answered: any other caller of the
   * dashboard route gets no response, where the modelled handler answers 401.
   */
  lemma DashboardNonAdminUnanswered(role: string)
    requires role != AdminRole
    ensures DashboardOutcomeAsWritten(role) == Unanswered
    ensures DashboardOutcomeAsWritten(AdminRole) == Responded(200)
    ensures DashboardOutcome(Err(Unauthorized)) == Responded(401)
  {
  }
}
