/**
 * The application's final error handler: classifies whatever reached
 * `next(error)` into a 400, 404, 409 or 500 response.
 */
module ErrorMiddleware {
  import opened Text
  import opened Http

  /** How `Array.prototype.join` renders a path element: keys as they are, indices in decimal. */
  function RenderSegment(seg: PathSegment): string {
    match seg
    case Key(k) => k
    case Index(n) => DecimalString(n)
  }

  function RenderPath(path: seq<PathSegment>): (r: seq<string>)
    ensures |r| == |path|
    ensures forall i | 0 <= i < |path| :: r[i] == RenderSegment(path[i])
  {
    seq(|path|, i requires 0 <= i < |path| => RenderSegment(path[i]))
  }

  /** The `field` of a validation detail: the issue path joined with dots. */
  function FieldName(path: seq<PathSegment>): string {
    Join(RenderPath(path), '.')
  }

  function ToDetail(issue: Issue): Detail {
    Detail(FieldName(issue.path), issue.message)
  }

  const InternalErrorResponse: Response :=
    Response(500, ErrorBody("Internal Server Error", "Something went wrong"))

  /**
   * Validation errors first (400, one detail per issue), then the two known
   * messages (404 and 409, message echoed), and a generic 500 for the rest.
   */
  function ErrorHandler(e: Error): (r: Response)
    ensures r.status in {400, 404, 409, 500}
    ensures r.status == 400 <==> e.ValidationError?
    ensures r.status == 404 <==> e == AppError(UserNotFound)
    ensures r.status == 409 <==> e == AppError(UserAlreadyExists)
    ensures e.ValidationError? ==>
      && r.body.ValidationBody?
      && r.body.error == "Validation Error"
      && |r.body.details| == |e.issues|
      && forall i | 0 <= i < |e.issues| ::
           r.body.details[i] == Detail(FieldName(e.issues[i].path), e.issues[i].message)
    ensures r.status == 404 ==> r.body == ErrorBody("Not Found", UserNotFound)
    ensures r.status == 409 ==> r.body == ErrorBody("Conflict", UserAlreadyExists)
    ensures r.status == 500 ==> r == InternalErrorResponse
  {
    match e
    case ValidationError(issues) =>
      Response(400, ValidationBody("Validation Error", "Invalid input data",
        seq(|issues|, i requires 0 <= i < |issues| => ToDetail(issues[i]))))
    case AppError(message) =>
      if message == UserNotFound then Response(404, ErrorBody("Not Found", message))
      else if message == UserAlreadyExists then Response(409, ErrorBody("Conflict", message))
      else InternalErrorResponse
  }

  /** A 500 response is the same for every unrecognised error: nothing about the error leaks. */
  lemma InternalErrorsIndistinguishable(e1: Error, e2: Error)
    requires ErrorHandler(e1).status == 500 && ErrorHandler(e2).status == 500
    ensures ErrorHandler(e1) == ErrorHandler(e2)
  {
  }

  /**
   * The `field` of a detail determines the issue path: splitting it at the
   * dots gives back the rendered path elements, as long as no key contains a dot.
   */
  lemma FieldNameRecoversPath(path: seq<PathSegment>)
    requires |path| > 0
    requires forall i | 0 <= i < |path| :: path[i].Key? ==> '.' !in path[i].key
    ensures Split(FieldName(path), '.') == RenderPath(path)
  {
    var parts := RenderPath(path);
    forall i | 0 <= i < |parts| ensures '.' !in parts[i] {
      if path[i].Index? {
        var d := DecimalString(path[i].index);
        assert forall j | 0 <= j < |d| :: d[j] != '.';
      }
    }
    SplitJoin(parts, '.');
  }
}
