/**
 * The protected user routes: `authenticate` runs before the handler, and
 * whatever a handler passes to `next` is answered by the error-handling
 * stage at the end of the application.
 */
module Routes {
  import Text
  import opened Results
  import opened Users
  import opened Http
  import opened Validation
  import opened AuthService
  import opened AuthMiddleware
  import opened ErrorMiddleware
  import opened UserController

  /**
   * What answers an error passed to `next`: Express's default final handler,
   * or the application's `errorHandler` if it were mounted after the routes.
   */
  datatype ErrorStage = ExpressDefault | AppErrorHandler

  /** The application as wired mounts no error-handling middleware. */
  const Wired: ErrorStage := ExpressDefault

  /**
   * Express's default final handler answers an error with the status the
   * error carries; none of the errors here carries one, so it is 500.
   */
  const DefaultErrorResponse: Response := Response(500, ErrorPage)

  /** The response the client receives for a handler's outcome. */
  function Finish(o: Outcome, stage: ErrorStage): (r: Response)
    ensures o.Respond? ==> r == o.response
    ensures o.Next? && stage == ExpressDefault ==> r == DefaultErrorResponse
    ensures o.Next? && stage == AppErrorHandler ==> r == ErrorHandler(o.error)
  {
    match o
    case Respond(response) => response
    case Next(e) =>
      match stage
      case ExpressDefault => DefaultErrorResponse
      case AppErrorHandler => ErrorHandler(e)
  }

  /** `GET /:id`, behind `authenticate`. */
  function ServeFetchUser(s: Store, header: Option<string>, verify: string -> Option<Principal>, rawId: string,
                          stage: ErrorStage): (r: Response)
    ensures Authenticate(header, verify).Rejected? ==> r == Authenticate(header, verify).response
    ensures r.status in {200, 400, 401, 404, 500}
    ensures stage == ExpressDefault ==> r.status in {200, 401, 404, 500}
  {
    match Authenticate(header, verify)
    case Rejected(response) => response
    case Authenticated(_) => Finish(FetchUserById(s, rawId), stage)
  }

  /** `PUT /:id`, behind `authenticate`. */
  function ServeUpdateUser(s: Store, header: Option<string>, verify: string -> Option<Principal>, rawId: string,
                           rawBody: RawUpdate, isEmail: string -> bool, h: Hasher, now: Time, stage: ErrorStage): (r: (Store, Response))
    ensures Authenticate(header, verify).Rejected? ==> r == (s, Authenticate(header, verify).response)
    ensures r.1.status in {200, 400, 401, 403, 404, 500}
    ensures stage == ExpressDefault ==> r.1.status in {200, 401, 403, 404, 500}
    ensures r.0 != s ==> r.1.status == 200
  {
    match Authenticate(header, verify)
    case Rejected(response) => (s, response)
    case Authenticated(user) =>
      var (s', outcome) := UpdateUserById(s, Some(user), rawId, rawBody, isEmail, h, now);
      (s', Finish(outcome, stage))
  }

  /** `DELETE /:id`, behind `authenticate`. */
  function ServeDeleteUser(s: Store, header: Option<string>, verify: string -> Option<Principal>, rawId: string,
                           stage: ErrorStage): (r: (Store, Response))
    ensures Authenticate(header, verify).Rejected? ==> r == (s, Authenticate(header, verify).response)
    ensures r.1.status in {200, 400, 401, 403, 404, 500}
    ensures stage == ExpressDefault ==> r.1.status in {200, 401, 403, 404, 500}
    ensures r.0 != s ==> r.1.status == 200
  {
    match Authenticate(header, verify)
    case Rejected(response) => (s, response)
    case Authenticated(user) =>
      var (s', outcome) := DeleteUserById(s, Some(user), rawId);
      (s', Finish(outcome, stage))
  }

  /**
   * A malformed id reaches `next` as a validation error before any
   * authorization or table access. As the application is wired, Express's
   * default handler answers it 500; `errorHandler`, if mounted, would answer
   * 400 with one detail whose field is `id`.
   */
  lemma MalformedIdIsValidationError(s: Store, header: Option<string>, verify: string -> Option<Principal>, rawId: string)
    requires Authenticate(header, verify).Authenticated?
    requires ParseId(rawId).Err?
    ensures ServeFetchUser(s, header, verify, rawId, Wired) == DefaultErrorResponse
    ensures ServeDeleteUser(s, header, verify, rawId, Wired) == (s, DefaultErrorResponse)
    ensures ServeDeleteUser(s, header, verify, rawId, AppErrorHandler) ==
      (s, Response(400, ValidationBody("Validation Error", "Invalid input data", [Detail("id", IdMessage)])))
  {
    var issues := ParseId(rawId).error;
    assert RenderPath(issues[0].path) == ["id"];
    assert FieldName(issues[0].path) == "id";
    var details := ErrorHandler(ValidationError(issues)).body.details;
    assert details == [Detail("id", IdMessage)];
  }

  /**
   * A client holding a token for a non-admin principal can neither update nor
   * delete another user's record: the answer is 403 and the table is unchanged.
   */
  lemma OtherUsersRecordsAreProtected(s: Store, token: string, verify: string -> Option<Principal>, target: nat,
                                     rawBody: RawUpdate, isEmail: string -> bool, h: Hasher, now: Time, stage: ErrorStage)
    requires verify(token).Some?
    requires verify(token).value.id != target && verify(token).value.role != AdminRole
    requires ValidateUpdate(rawBody, isEmail).Ok?
    ensures var header := Some(BearerPrefix + token);
      && ServeDeleteUser(s, header, verify, Text.DecimalString(target), stage) ==
           (s, Forbidden(OwnOrAdminDelete))
      && ServeUpdateUser(s, header, verify, Text.DecimalString(target), rawBody, isEmail, h, now, stage) ==
           (s, Forbidden(OwnProfileOnly))
  {
    BearerHeaderRoundTrip(token, BearerPrefix + token, verify);
    ParseIdOfDecimal(target);
  }

  /** After an update goes ahead, fetching the same id returns the projection the update answered with. */
  lemma UpdateThenFetch(s: Store, header: Option<string>, verify: string -> Option<Principal>, rawId: string,
                        rawBody: RawUpdate, isEmail: string -> bool, h: Hasher, now: Time, stage: ErrorStage)
    ensures Authenticate(header, verify).Authenticated? &&
            UpdateGoesAhead(s, Some(Authenticate(header, verify).user), rawId, rawBody, isEmail, h) ==>
      var (s', r) := ServeUpdateUser(s, header, verify, rawId, rawBody, isEmail, h, now, stage);
      && r.status == 200 && r.body.UserBody?
      && ServeFetchUser(s', header, verify, rawId, stage) == Response(200, UserBody("User successfully fetched", r.body.user))
  {
    if Authenticate(header, verify).Authenticated? &&
       UpdateGoesAhead(s, Some(Authenticate(header, verify).user), rawId, rawBody, isEmail, h) {
      var (s', r) := ServeUpdateUser(s, header, verify, rawId, rawBody, isEmail, h, now, stage);
      assert ParseId(rawId).value in s'.users;
    }
  }
}
