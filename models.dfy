/**
 * The document shapes of the tutor, student and course collections.
 * Optional schema fields are `Option`s; array fields default to the empty
 * sequence; dates are whole seconds.
 */
module Models {
  import opened Wrappers

  type Id = string

  /** A weekly slot's time range; the schema puts no bounds on hours or minutes. */
  datatype TimeRange = TimeRange(fromHour: int, fromMinute: int, toHour: int, toMinute: int)

  /** One entry of a tutor's (or a search's) availability. */
  datatype Availability = Availability(availableDay: string, timeRange: TimeRange)

  /** One student who viewed the tutor's profile: last view time and number of views. */
  datatype Viewer = Viewer(id: Id, recentDate: int, count: int)

  datatype RequestStatus = Accepted | Rejected | Pending

  /**
   * One connection request. The schema requires `username`; it is an
   * `Option` because a handler can build a record without it.
   */
  datatype StudentRequest = StudentRequest(id: Id, username: Option<string>, requestDate: int, requestStatus: RequestStatus)

  datatype SocialMedia = SocialMedia(facebook: Option<string>, twitter: Option<string>, linkedIn: Option<string>, youtube: Option<string>)

  datatype ContactDetails = ContactDetails(mobileNumber: Option<string>, whatsAppNumber: Option<string>, socialMedia: Option<SocialMedia>)

  datatype Tutor = Tutor(
    id: Id,
    username: string,
    password: string,
    name: Option<string>,
    email: Option<string>,
    expertise: seq<string>,
    contactDetails: Option<ContactDetails>,
    availability: seq<Availability>,
    students: seq<Viewer>,
    studentRequests: seq<StudentRequest>)

  /** An entry of a student's `connectedTutors`. */
  datatype ConnectedTutor = ConnectedTutor(id: Id, username: string)

  datatype Student = Student(
    id: Id,
    username: string,
    password: string,
    name: Option<string>,
    email: Option<string>,
    connectedTutors: seq<ConnectedTutor>)

  datatype Course = Course(id: Id, courseName: string, description: string)

  function ViewerId(v: Viewer): Id { v.id }

  function RequestId(r: StudentRequest): Id { r.id }

  /** The schema's `required` constraints on a request record. */
  predicate RequestConforms(r: StudentRequest) {
    r.username.Some?
  }

  /**
   * A new tutor document with the schema's defaults: `availability`,
   * `students` and `studentRequests` start empty.
   */
  function NewTutor(id: Id, username: string, password: string, name: Option<string>, email: Option<string>,
                    expertise: seq<string>, contactDetails: Option<ContactDetails>): Tutor
  {
    Tutor(id, username, password, name, email, expertise, contactDetails, [], [], [])
  }

  /** A new student document; `connectedTutors` starts empty. */
  function NewStudent(id: Id, username: string, password: string, name: Option<string>, email: Option<string>): Student
  {
    Student(id, username, password, name, email, [])
  }
}
