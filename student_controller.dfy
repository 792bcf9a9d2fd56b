/**
 * The student-facing handlers of controllers/student.js that write:
 * updateStudent and updatePassword change the caller's own record;
 * viewTutor records the view and returns the redacted profile;
 * connectTutor creates or re-opens the student's connection request.
 * findTutor only reads, and is modelled in Matcher.
 */
module StudentController {
  import opened Wrappers
  import opened Models
  import opened Api
  import opened Requests
  import opened Profile
  import opened Store

  /**
   * viewTutor: 403 for a non-student, 404 for a missing student or tutor
   * (nothing written); otherwise the viewer record is upserted, the tutor
   * saved, and the saved tutor returned redacted.
   */
  method ViewTutor(db: Database, role: string, studentId: Id, tutorId: Id, now: int) returns (r: Result<TutorView, ApiError>)
    requires db.Valid()
    modifies db
    ensures db.Valid()
    ensures role != StudentRole ==> r == Err(Forbidden) && unchanged(db)
    ensures role == StudentRole && studentId !in old(db.students) ==> r == Err(NotFound(StudentEntity)) && unchanged(db)
    ensures role == StudentRole && studentId in old(db.students) && tutorId !in old(db.tutors) ==>
              r == Err(NotFound(TutorEntity)) && unchanged(db)
    ensures role == StudentRole && studentId in old(db.students) && tutorId in old(db.tutors) ==>
              var t := old(db.tutors)[tutorId];
              var saved := t.(students := RecordView(t.students, studentId, now));
              && db.tutors == old(db.tutors)[tutorId := saved]
              && db.students == old(db.students) && db.courses == old(db.courses)
              && r == Ok(RenderProfile(saved, studentId))
  {
    if role != StudentRole {
      return Err(Forbidden);
    }
    if studentId !in db.students {
      return Err(NotFound(StudentEntity));
    }
    if tutorId !in db.tutors {
      return Err(NotFound(TutorEntity));
    }
    var tutorDoc := db.tutors[tutorId];
    tutorDoc := tutorDoc.(students := RecordView(tutorDoc.students, studentId, now));
    db.tutors := db.tutors[tutorId := tutorDoc];
    r := Ok(RenderProfile(tutorDoc, studentId));
  }

  /**
   * connectTutor: 403 for a non-student, 404 for a missing student or
   * tutor; then the ledger change of Requests.Connect, saved on success.
   * Every refusal leaves the database as it was.
   */
  method ConnectTutor(db: Database, role: string, studentId: Id, tutorId: Id, now: int) returns (r: Result<(), ApiError>)
    requires db.Valid()
    modifies db
    ensures db.Valid()
    ensures r.Err? ==> unchanged(db)
    ensures role != StudentRole ==> r == Err(Forbidden)
    ensures role == StudentRole && studentId !in old(db.students) ==> r == Err(NotFound(StudentEntity))
    ensures role == StudentRole && studentId in old(db.students) && tutorId !in old(db.tutors) ==>
              r == Err(NotFound(TutorEntity))
    ensures role == StudentRole && studentId in old(db.students) && tutorId in old(db.tutors) ==>
              var t := old(db.tutors)[tutorId];
              var c := Connect(t.studentRequests, studentId, old(db.students)[studentId].username, now);
              && (c.Err? ==> r == Err(c.error))
              && (c.Ok? ==> r == Ok(()) && db.tutors == old(db.tutors)[tutorId := t.(studentRequests := c.value)])
              && db.students == old(db.students) && db.courses == old(db.courses)
  {
    if role != StudentRole {
      return Err(Forbidden);
    }
    if studentId !in db.students {
      return Err(NotFound(StudentEntity));
    }
    if tutorId !in db.tutors {
      return Err(NotFound(TutorEntity));
    }
    var student := db.students[studentId];
    var tutorDoc := db.tutors[tutorId];
    var c := Connect(tutorDoc.studentRequests, studentId, student.username, now);
    if c.Err? {
      return Err(c.error);
    }
    db.tutors := db.tutors[tutorId := tutorDoc.(studentRequests := c.value)];
    r := Ok(());
  }

  /**
   * updateStudent (the caller's own record): 403 for a non-student, 409
   * only when a different student holds the username, 404 for a missing
   * student; otherwise username, name and email are set.
   */
  method UpdateStudent(db: Database, role: string, studentId: Id, username: string, name: Option<string>, email: Option<string>)
    returns (r: Result<Id, ApiError>)
    requires db.Valid()
    modifies db
    ensures db.Valid()
    ensures r.Err? ==> unchanged(db)
    ensures role != StudentRole ==> r == Err(Forbidden)
    ensures role == StudentRole ==>
              (r == Err(Conflict(UsernameTaken)) <==> TakenByOther(old(db.students), StudentUsername, username, studentId))
    ensures role == StudentRole && !TakenByOther(old(db.students), StudentUsername, username, studentId) ==>
              (r == Err(NotFound(StudentEntity)) <==> studentId !in old(db.students))
    ensures role == StudentRole && !TakenByOther(old(db.students), StudentUsername, username, studentId) && studentId in old(db.students) ==>
              r.Ok?
    ensures r.Ok? ==>
              && r.value == studentId && studentId in old(db.students)
              && db.students == old(db.students)[studentId := old(db.students)[studentId].(username := username, name := name, email := email)]
              && db.tutors == old(db.tutors) && db.courses == old(db.courses)
  {
    if role != StudentRole {
      return Err(Forbidden);
    }
    if TakenByOther(db.students, StudentUsername, username, studentId) {
      return Err(Conflict(UsernameTaken));
    }
    if studentId !in db.students {
      return Err(NotFound(StudentEntity));
    }
    var studentDoc := db.students[studentId];
    db.students := db.students[studentId := studentDoc.(username := username, name := name, email := email)];
    r := Ok(studentId);
  }

  /**
   * updatePassword (the caller's own password): 403 for a non-student, 404
   * for a missing student, 422 when the current password does not match
   * the stored hash; otherwise the new hash is stored. `currentMatches` is
   * bcrypt's comparison and `hashedPassword` its hash of the new password.
   */
  method UpdatePassword(db: Database, role: string, studentId: Id, currentMatches: bool, hashedPassword: string)
    returns (r: Result<Id, ApiError>)
    requires db.Valid()
    modifies db
    ensures db.Valid()
    ensures r.Err? ==> unchanged(db)
    ensures role != StudentRole ==> r == Err(Forbidden)
    ensures role == StudentRole && studentId !in old(db.students) ==> r == Err(NotFound(StudentEntity))
    ensures role == StudentRole && studentId in old(db.students) && !currentMatches ==> r == Err(WrongCurrentPassword)
    ensures role == StudentRole && studentId in old(db.students) && currentMatches ==>
              && r == Ok(studentId)
              && db.students == old(db.students)[studentId := old(db.students)[studentId].(password := hashedPassword)]
              && db.tutors == old(db.tutors) && db.courses == old(db.courses)
  {
    if role != StudentRole {
      return Err(Forbidden);
    }
    if studentId !in db.students {
      return Err(NotFound(StudentEntity));
    }
    if !currentMatches {
      return Err(WrongCurrentPassword);
    }
    var studentDoc := db.students[studentId];
    db.students := db.students[studentId := studentDoc.(password := hashedPassword)];
    r := Ok(studentId);
  }
}
