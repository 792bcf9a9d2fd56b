/**
 * The tutor-facing handlers of controllers/tutor.js: the profile update with
 * its username check, the password change, the pending and accepted
 * listings, and the decision on a connection request, which writes the
 * student and then the tutor.
 */
module TutorController {
  import opened Wrappers
  import opened Seqs
  import opened Models
  import opened Api
  import opened Requests
  import opened Store

  /**
   * updateTutor (self): 403 for a non-tutor; 409 only when a different
   * tutor holds the username; 404 for a missing tutor; otherwise the six
   * profile fields are overwritten and nothing else changes.
   */
  method UpdateTutor(db: Database, role: string, tutorId: Id, username: string, name: Option<string>, email: Option<string>,
                     expertise: seq<string>, contactDetails: Option<ContactDetails>, availability: seq<Availability>)
    returns (r: Result<Id, ApiError>)
    requires db.Valid()
    modifies db
    ensures db.Valid()
    ensures r.Err? ==> unchanged(db)
    ensures role != TutorRole ==> r == Err(Forbidden)
    ensures role == TutorRole ==>
              (r == Err(Conflict(UsernameTaken)) <==> TakenByOther(old(db.tutors), TutorUsername, username, tutorId))
    ensures role == TutorRole && !TakenByOther(old(db.tutors), TutorUsername, username, tutorId) && tutorId !in old(db.tutors) ==>
              r == Err(NotFound(TutorEntity))
    ensures r.Ok? ==>
              && r.value == tutorId && tutorId in old(db.tutors)
              && db.tutors == old(db.tutors)[tutorId := old(db.tutors)[tutorId].(
                   username := username, name := name, email := email, expertise := expertise,
                   contactDetails := contactDetails, availability := availability)]
              && db.students == old(db.students) && db.courses == old(db.courses)
    ensures role == TutorRole && tutorId in old(db.tutors) && old(db.tutors)[tutorId].username == username ==> r.Ok?
    ensures role == TutorRole && !TakenByOther(old(db.tutors), TutorUsername, username, tutorId) && tutorId in old(db.tutors) ==>
              r.Ok?
  {
    if role != TutorRole {
      return Err(Forbidden);
    }
    if TakenByOther(db.tutors, TutorUsername, username, tutorId) {
      return Err(Conflict(UsernameTaken));
    }
    if tutorId !in db.tutors {
      return Err(NotFound(TutorEntity));
    }
    var tutorDoc := db.tutors[tutorId];
    tutorDoc := tutorDoc.(username := username, name := name, email := email, expertise := expertise,
                          contactDetails := contactDetails, availability := availability);
    db.tutors := db.tutors[tutorId := tutorDoc];
    r := Ok(tutorId);
  }

  /**
   * updatePassword (the caller's own password): 403 for a non-tutor, 404
   * for a missing tutor, 422 when the current password does not match the
   * stored hash; otherwise the new hash is stored. `currentMatches` is
   * bcrypt's comparison and `hashedPassword` its hash of the new password.
   */
  method UpdatePassword(db: Database, role: string, tutorId: Id, currentMatches: bool, hashedPassword: string)
    returns (r: Result<Id, ApiError>)
    requires db.Valid()
    modifies db
    ensures db.Valid()
    ensures r.Err? ==> unchanged(db)
    ensures role != TutorRole ==> r == Err(Forbidden)
    ensures role == TutorRole && tutorId !in old(db.tutors) ==> r == Err(NotFound(TutorEntity))
    ensures role == TutorRole && tutorId in old(db.tutors) && !currentMatches ==> r == Err(WrongCurrentPassword)
    ensures role == TutorRole && tutorId in old(db.tutors) && currentMatches ==>
              && r == Ok(tutorId)
              && db.tutors == old(db.tutors)[tutorId := old(db.tutors)[tutorId].(password := hashedPassword)]
              && db.students == old(db.students) && db.courses == old(db.courses)
  {
    if role != TutorRole {
      return Err(Forbidden);
    }
    if tutorId !in db.tutors {
      return Err(NotFound(TutorEntity));
    }
    if !currentMatches {
      return Err(WrongCurrentPassword);
    }
    var tutorDoc := db.tutors[tutorId];
    db.tutors := db.tutors[tutorId := tutorDoc.(password := hashedPassword)];
    r := Ok(tutorId);
  }

  /** getPendingConnectionRequests: 403, 404, or the tutor's pending entries in stored order. */
  method GetPendingConnectionRequests(db: Database, role: string, tutorId: Id) returns (r: Result<seq<StudentRequest>, ApiError>)
    ensures role != TutorRole ==> r == Err(Forbidden)
    ensures role == TutorRole && tutorId !in db.tutors ==> r == Err(NotFound(TutorEntity))
    ensures role == TutorRole && tutorId in db.tutors ==>
              r.Ok? &&
              var reqs := db.tutors[tutorId].studentRequests;
              && (forall k :: 0 <= k < |r.value| ==> r.value[k] in reqs && r.value[k].requestStatus == Pending)
              && (forall k :: 0 <= k < |reqs| && reqs[k].requestStatus == Pending ==> reqs[k] in r.value)
              && IsSubsequence(r.value, reqs)
              && (forall e :: multiset(r.value)[e] == if e.requestStatus == Pending then multiset(reqs)[e] else 0)
  {
    if role != TutorRole {
      return Err(Forbidden);
    }
    if tutorId !in db.tutors {
      return Err(NotFound(TutorEntity));
    }
    r := Ok(PendingRequests(db.tutors[tutorId].studentRequests));
  }

  /** getAcceptedConnectionRequests: 403, 404, or the tutor's accepted entries in stored order. */
  method GetAcceptedConnectionRequests(db: Database, role: string, tutorId: Id) returns (r: Result<seq<StudentRequest>, ApiError>)
    ensures role != TutorRole ==> r == Err(Forbidden)
    ensures role == TutorRole && tutorId !in db.tutors ==> r == Err(NotFound(TutorEntity))
    ensures role == TutorRole && tutorId in db.tutors ==>
              r.Ok? &&
              var reqs := db.tutors[tutorId].studentRequests;
              && (forall k :: 0 <= k < |r.value| ==> r.value[k] in reqs && r.value[k].requestStatus == Accepted)
              && (forall k :: 0 <= k < |reqs| && reqs[k].requestStatus == Accepted ==> reqs[k] in r.value)
              && IsSubsequence(r.value, reqs)
              && (forall e :: multiset(r.value)[e] == if e.requestStatus == Accepted then multiset(reqs)[e] else 0)
  {
    if role != TutorRole {
      return Err(Forbidden);
    }
    if tutorId !in db.tutors {
      return Err(NotFound(TutorEntity));
    }
    r := Ok(AcceptedRequests(db.tutors[tutorId].studentRequests));
  }

  /**
   * The student's side of a decision: on accept the tutor is appended to
   * `connectedTutors`, whatever is already there; on reject the student is
   * unchanged.
   */
  function RecordDecision(s: Student, tutor: Tutor, decision: RequestStatus): (s': Student)
    ensures decision == Accepted ==> s'.connectedTutors == s.connectedTutors + [ConnectedTutor(tutor.id, tutor.username)]
    ensures decision != Accepted ==> s' == s
    ensures s'.(connectedTutors := s.connectedTutors) == s
  {
    if decision == Accepted then
      s.(connectedTutors := s.connectedTutors + [ConnectedTutor(tutor.id, tutor.username)])
    else s
  }

  /** Accepting the same request twice lists the tutor twice. */
  lemma AcceptTwiceDuplicates(s: Student, tutor: Tutor)
    ensures var twice := RecordDecision(RecordDecision(s, tutor, Accepted), tutor, Accepted).connectedTutors;
            && |twice| == |s.connectedTutors| + 2
            && twice[|twice| - 1] == twice[|twice| - 2] == ConnectedTutor(tutor.id, tutor.username)
  {
  }

  /** The entry returned to the tutor: the student's first entry with its new status. */
  function DecidedRequest(reqs: seq<StudentRequest>, sid: Id, decision: RequestStatus): (e: Option<StudentRequest>)
    ensures e.None? <==> StatusOf(reqs, sid).None?
    ensures e.Some? ==> e.value.id == sid && e.value.requestStatus == decision
    ensures e.Some? ==> exists k :: IsFirstEntry(reqs, sid, k) && e.value == reqs[k].(requestStatus := decision)
  {
    match FindRequest(reqs, sid)
    case None => None
    case Some(i) =>
      assert IsFirstEntry(reqs, sid, i);
      Some(reqs[i].(requestStatus := decision))
  }

  /**
   * handleConnectionRequest: 403 for a non-tutor, then 404 for a missing
   * tutor, student or request entry, all before any write. Then the student
   * is saved (with the tutor appended on accept), and then the tutor with
   * the entry's new status. `tutorSaveSucceeds` stands for the outcome of
   * that second write: when it fails the student's change stays and the
   * handler answers 500.
   */
  method HandleConnectionRequest(db: Database, role: string, tutorId: Id, studentId: Id, decision: RequestStatus,
                                 tutorSaveSucceeds: bool)
    returns (r: Result<StudentRequest, ApiError>)
    requires decision == Accepted || decision == Rejected
    requires db.Valid()
    modifies db
    ensures db.Valid()
    ensures role != TutorRole ==> r == Err(Forbidden) && unchanged(db)
    ensures role == TutorRole && tutorId !in old(db.tutors) ==> r == Err(NotFound(TutorEntity)) && unchanged(db)
    ensures role == TutorRole && tutorId in old(db.tutors) && studentId !in old(db.students) ==>
              r == Err(NotFound(StudentEntity)) && unchanged(db)
    ensures role == TutorRole && tutorId in old(db.tutors) && studentId in old(db.students) &&
            StatusOf(old(db.tutors)[tutorId].studentRequests, studentId).None? ==>
              r == Err(NotFound(RequestEntity)) && unchanged(db)
    ensures role == TutorRole && tutorId in old(db.tutors) && studentId in old(db.students) &&
            StatusOf(old(db.tutors)[tutorId].studentRequests, studentId).Some? ==>
              var t := old(db.tutors)[tutorId];
              && db.students == old(db.students)[studentId := RecordDecision(old(db.students)[studentId], t, decision)]
              && db.courses == old(db.courses)
              && (tutorSaveSucceeds ==>
                    && db.tutors == old(db.tutors)[tutorId := t.(studentRequests := Resolve(t.studentRequests, studentId, decision).value)]
                    && r == Ok(DecidedRequest(t.studentRequests, studentId, decision).value))
              && (!tutorSaveSucceeds ==> db.tutors == old(db.tutors) && r == Err(ServerError))
  {
    if role != TutorRole {
      return Err(Forbidden);
    }
    if tutorId !in db.tutors {
      return Err(NotFound(TutorEntity));
    }
    var tutor := db.tutors[tutorId];
    if studentId !in db.students {
      return Err(NotFound(StudentEntity));
    }
    var studentDoc := db.students[studentId];
    var request := DecidedRequest(tutor.studentRequests, studentId, decision);
    if request.None? {
      return Err(NotFound(RequestEntity));
    }
    db.students := db.students[studentId := RecordDecision(studentDoc, tutor, decision)];
    if !tutorSaveSucceeds {
      return Err(ServerError);
    }
    var resolved := Resolve(tutor.studentRequests, studentId, decision);
    db.tutors := db.tutors[tutorId := tutor.(studentRequests := resolved.value)];
    r := Ok(request.value);
  }
}
