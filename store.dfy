/**
 * The three MongoDB collections the controllers read and write, held in
 * memory: documents keyed by their `_id`. A handler loads a document (a
 * value), changes it and saves it back with a map update.
 */
module Store {
  import opened Wrappers
  import opened Models
  import opened Requests
  import opened Profile

  function StudentUsername(s: Student): string { s.username }

  function TutorUsername(t: Tutor): string { t.username }

  function CourseName(c: Course): string { c.courseName }

  /** `findOne({field: value})` finds a document. */
  predicate Taken<T>(m: map<Id, T>, key: T -> string, value: string) {
    exists id :: id in m && key(m[id]) == value
  }

  /** `findOne({field: value})` finds a document whose `_id` is not `self`. */
  predicate TakenByOther<T>(m: map<Id, T>, key: T -> string, value: string, self: Id) {
    exists id :: id in m && id != self && key(m[id]) == value
  }

  /** No two documents share the field's value. */
  ghost predicate UniqueKey<T>(m: map<Id, T>, key: T -> string) {
    forall a, b :: a in m && b in m && key(m[a]) == key(m[b]) ==> a == b
  }

  /** The invariants a tutor's two embedded lists keep (see Requests and Profile). */
  ghost predicate TutorWellFormed(t: Tutor) {
    UniqueIds(t.studentRequests) && AllConform(t.studentRequests) && ViewersValid(t.students)
  }

  /**
   * A tutor created with the schema's defaults meets the embedded-list
   * invariants, and starts with no request and no view from any student.
   */
  lemma NewTutorStartsClean(id: Id, username: string, password: string, name: Option<string>, email: Option<string>,
                            expertise: seq<string>, contactDetails: Option<ContactDetails>)
    ensures var t := NewTutor(id, username, password, name, email, expertise, contactDetails);
            && TutorWellFormed(t)
            && t.id == id
            && forall sid :: StatusOf(t.studentRequests, sid).None? && ViewCount(t.students, sid) == 0
  {
  }

  class Database {
    var students: map<Id, Student>
    var tutors: map<Id, Tutor>
    var courses: map<Id, Course>

    /**
     * Every document is stored under its own id; usernames (per collection)
     * and course names are unique, as the create and update handlers check;
     * every tutor's embedded lists are well formed.
     */
    ghost predicate Valid()
      reads this
    {
      && (forall id :: id in students ==> students[id].id == id)
      && (forall id :: id in tutors ==> tutors[id].id == id)
      && (forall id :: id in courses ==> courses[id].id == id)
      && UniqueKey(students, StudentUsername)
      && UniqueKey(tutors, TutorUsername)
      && UniqueKey(courses, CourseName)
      && (forall id :: id in tutors ==> TutorWellFormed(tutors[id]))
    }

    /** An empty database. */
    constructor()
      ensures Valid()
      ensures students == map[] && tutors == map[] && courses == map[]
    {
      students := map[];
      tutors := map[];
      courses := map[];
    }
  }
}
