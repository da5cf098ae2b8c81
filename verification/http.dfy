/**
 * The request/response vocabulary shared by the middleware and the
 * controller: validation issues, thrown errors, response bodies and the
 * two ways a handler ends (it responds, or it passes an error to `next`).
 */
module Http {
  import opened Users

  /** One element of a validation issue's path: an object key or an array index. */
  datatype PathSegment = Key(key: string) | Index(index: nat)

  /** A schema-validation issue: where it is and what is wrong. */
  datatype Issue = Issue(path: seq<PathSegment>, message: string)

  /**
   * A thrown value. `ValidationError` is a schema library error carrying its
   * issues; `AppError` is a plain `Error` identified by its message string.
   */
  datatype Error = ValidationError(issues: seq<Issue>) | AppError(message: string)

  /** One entry of a 400 response's `details`. */
  datatype Detail = Detail(field: string, message: string)

  datatype Body =
    | ErrorBody(error: string, message: string)
    | ValidationBody(error: string, message: string, details: seq<Detail>)
    | UserBody(message: string, user: PublicUser)
    | IdentityBody(message: string, identity: Identity)
    | UserListBody(message: string, users: seq<PublicUser>, count: nat)
    | ErrorPage // the HTML page of Express's default final handler; its text is not modelled

  datatype Response = Response(status: nat, body: Body)

  /** How a handler ends: it writes a response itself, or calls `next(error)`. */
  datatype Outcome = Respond(response: Response) | Next(error: Error)

  // Error messages the services throw and the handlers match on.
  const UserNotFound: string := "User not found"
  const UserAlreadyExists: string := "User already exists"
  const InvalidPassword: string := "Invalid password"
  const HashFailed: string := "Error in hashPassword"
  const CompareFailed: string := "Error in comparePassword"
  const CreateFailed: string := "Error in creating user"

  /** The 404 response the controller writes when a service reports a missing user. */
  const NotFoundResponse: Response := Response(404, ErrorBody("Not Found", UserNotFound))
}
