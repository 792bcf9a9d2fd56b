/**
 * The error kinds the handlers raise (an `Error` carrying a `statusCode`)
 * and the roles carried by the caller's token.
 */
module Api {

  const StudentRole: string := "student"
  const TutorRole: string := "tutor"
  const AdminRole: string := "admin"

  /** The record a 404 names. */
  datatype Entity = StudentEntity | TutorEntity | CourseEntity | RequestEntity

  /** The reason behind a 409. */
  datatype ConflictReason =
    | AlreadyConnected        // "You are already connected with the tutor"
    | RequestAlreadyPending   // "Another request already pending"
    | CooldownActive          // "You have to wait 7 days from your last request ..."
    | UsernameTaken           // "... username already exist"
    | CourseNameTaken         // "Course with same name already exist"

  datatype ApiError =
    | Unauthorized            // an admin handler called without the admin role
    | Forbidden               // a student or tutor handler called with another role
    | NotFound(entity: Entity)
    | Conflict(reason: ConflictReason)
    | WrongCurrentPassword
    | ServerError             // anything thrown without a status code

  /** The HTTP status the error middleware answers with. */
  function StatusCode(e: ApiError): int {
    match e
    case Unauthorized => 401
    case Forbidden => 403
    case NotFound(_) => 404
    case Conflict(_) => 409
    case WrongCurrentPassword => 422
    case ServerError => 500
  }
}
