/**
 * The request schemas of the user routes: the `:id` path parameter and the
 * partial-update body. A schema either yields the parsed, normalised value or
 * the list of issues the schema library would report.
 */
module Validation {
  import opened Results
  import opened Text
  import opened Http
  import opened Users

  // ---------------------------------------------------------------------
  // The `:id` path parameter: `^\d+$`, then converted to a number
  // ---------------------------------------------------------------------

  const IdMessage: string := "ID must be a valid number"

  /** Accepts a non-empty string of ASCII digits and yields the number it denotes. */
  function ParseId(raw: string): (r: Result<nat, seq<Issue>>)
    ensures r.Ok? <==> |raw| > 0 && AllDigits(raw)
    ensures r.Err? ==> r.error == [Issue([Key("id")], IdMessage)]
  {
    if |raw| > 0 && AllDigits(raw) then Ok(DecimalValue(raw))
    else Err([Issue([Key("id")], IdMessage)])
  }

  /** Every id's decimal rendering is accepted and parses back to that id. */
  lemma ParseIdOfDecimal(n: nat)
    ensures ParseId(DecimalString(n)) == Ok(n)
  {
    DecimalValueOfString(n);
  }

  /** An accepted id written without leading zeros is the decimal rendering of its value. */
  lemma ParseIdCanonical(raw: string)
    requires ParseId(raw).Ok?
    requires |raw| > 1 ==> raw[0] != '0'
    ensures DecimalString(ParseId(raw).value) == raw
  {
    DecimalStringOfValue(raw);
  }

  /** A leading zero does not change the parsed id ("007" names user 7). */
  lemma {:induction false} LeadingZeroIgnored(raw: string)
    requires |raw| > 0 && AllDigits(raw)
    ensures AllDigits("0" + raw) && DecimalValue("0" + raw) == DecimalValue(raw)
  {
    var z := "0" + raw;
    assert z[..|z| - 1] == "0" + raw[..|raw| - 1];
    if |raw| > 1 {
      LeadingZeroIgnored(raw[..|raw| - 1]);
    } else {
      assert z[..|z| - 1] == "0";
      assert DecimalValue("0"[..0]) == 0;
    }
  }

  // ---------------------------------------------------------------------
  // The update body: optional name, email, password and role
  // ---------------------------------------------------------------------

  /** A JSON value in the body: a string, or some other JSON type named as the schema library names it. */
  datatype RawValue = Str(s: string) | NonString(typeName: string)

  /** The body as received; keys other than these four are stripped by the schema and are not modelled. */
  datatype RawUpdate = RawUpdate(
    name: Option<RawValue>,
    email: Option<RawValue>,
    password: Option<RawValue>,
    role: Option<RawValue>)

  /** The validated body: present fields only, name trimmed, email lower-cased and trimmed. */
  datatype UpdateFields = UpdateFields(
    name: Option<string>,
    email: Option<string>,
    password: Option<string>,
    role: Option<string>)

  const RefineMessage: string := "At least one field must be provided for update"

  predicate NameOk(s: string) { 2 <= |s| <= 255 }
  predicate EmailOk(isEmail: string -> bool, s: string) { isEmail(s) && |s| <= 255 }
  predicate PasswordOk(s: string) { 6 <= |s| <= 128 }
  predicate RoleOk(s: string) { s == AdminRole || s == UserRole }

  predicate NamePasses(v: Option<RawValue>) {
    v.None? || (v.value.Str? && NameOk(v.value.s))
  }

  predicate EmailPasses(v: Option<RawValue>, isEmail: string -> bool) {
    v.None? || (v.value.Str? && EmailOk(isEmail, v.value.s))
  }

  predicate PasswordPasses(v: Option<RawValue>) {
    v.None? || (v.value.Str? && PasswordOk(v.value.s))
  }

  predicate RolePasses(v: Option<RawValue>) {
    v.None? || (v.value.Str? && RoleOk(v.value.s))
  }

  predicate AnyPresent(raw: RawUpdate) {
    raw.name.Some? || raw.email.Some? || raw.password.Some? || raw.role.Some?
  }

  /** The body meets every field rule and the at-least-one-field rule. */
  predicate Acceptable(raw: RawUpdate, isEmail: string -> bool) {
    && NamePasses(raw.name)
    && EmailPasses(raw.email, isEmail)
    && PasswordPasses(raw.password)
    && RolePasses(raw.role)
    && AnyPresent(raw)
  }

  function TooSmall(min: string): string { "String must contain at least " + min + " character(s)" }
  function TooBig(max: string): string { "String must contain at most " + max + " character(s)" }
  function NotAString(received: string): string { "Expected string, received " + received }

  function At(key: string, messages: seq<string>): (r: seq<Issue>)
    ensures |r| == |messages|
    ensures forall i | 0 <= i < |r| :: r[i].path == [Key(key)]
  {
    seq(|messages|, i requires 0 <= i < |messages| => Issue([Key(key)], messages[i]))
  }

  /** One issue per failed check of a present name. */
  function NameIssues(v: Option<RawValue>): (r: seq<Issue>)
    ensures r == [] <==> NamePasses(v)
    ensures forall i | 0 <= i < |r| :: r[i].path == [Key("name")]
  {
    match v
    case None => []
    case Some(NonString(t)) => At("name", [NotAString(t)])
    case Some(Str(s)) =>
      At("name", (if |s| < 2 then [TooSmall("2")] else []) + (if |s| > 255 then [TooBig("255")] else []))
  }

  /** One issue per failed check of a present email. */
  function EmailIssues(v: Option<RawValue>, isEmail: string -> bool): (r: seq<Issue>)
    ensures r == [] <==> EmailPasses(v, isEmail)
    ensures forall i | 0 <= i < |r| :: r[i].path == [Key("email")]
  {
    match v
    case None => []
    case Some(NonString(t)) => At("email", [NotAString(t)])
    case Some(Str(s)) =>
      At("email", (if !isEmail(s) then ["Invalid email"] else []) + (if |s| > 255 then [TooBig("255")] else []))
  }

  /** One issue per failed check of a present password. */
  function PasswordIssues(v: Option<RawValue>): (r: seq<Issue>)
    ensures r == [] <==> PasswordPasses(v)
    ensures forall i | 0 <= i < |r| :: r[i].path == [Key("password")]
  {
    match v
    case None => []
    case Some(NonString(t)) => At("password", [NotAString(t)])
    case Some(Str(s)) =>
      At("password", (if |s| < 6 then [TooSmall("6")] else []) + (if |s| > 128 then [TooBig("128")] else []))
  }

  /** The issue of a present role outside the enumeration. */
  function RoleIssues(v: Option<RawValue>): (r: seq<Issue>)
    ensures r == [] <==> RolePasses(v)
    ensures forall i | 0 <= i < |r| :: r[i].path == [Key("role")]
  {
    match v
    case None => []
    case Some(NonString(t)) => At("role", ["Expected 'admin' | 'user', received " + t])
    case Some(Str(s)) =>
      if RoleOk(s) then []
      else At("role", ["Invalid enum value. Expected 'admin' | 'user', received '" + s + "'"])
  }

  /** Where an issue may point: at a present field that fails its rule. */
  predicate BlamesFailingField(issue: Issue, raw: RawUpdate, isEmail: string -> bool) {
    || (issue.path == [Key("name")] && !NamePasses(raw.name))
    || (issue.path == [Key("email")] && !EmailPasses(raw.email, isEmail))
    || (issue.path == [Key("password")] && !PasswordPasses(raw.password))
    || (issue.path == [Key("role")] && !RolePasses(raw.role))
  }

  predicate AllBlameFailingFields(issues: seq<Issue>, raw: RawUpdate, isEmail: string -> bool) {
    forall i | 0 <= i < |issues| :: BlamesFailingField(issues[i], raw, isEmail)
  }

  lemma AllBlameConcat(a: seq<Issue>, b: seq<Issue>, raw: RawUpdate, isEmail: string -> bool)
    requires AllBlameFailingFields(a, raw, isEmail) && AllBlameFailingFields(b, raw, isEmail)
    ensures AllBlameFailingFields(a + b, raw, isEmail)
  {
    forall i | 0 <= i < |a + b| ensures BlamesFailingField((a + b)[i], raw, isEmail) {
      if i < |a| { assert (a + b)[i] == a[i]; } else { assert (a + b)[i] == b[i - |a|]; }
    }
  }

  /** The field issues, field by field in schema order. */
  function FieldIssues(raw: RawUpdate, isEmail: string -> bool): (r: seq<Issue>)
    ensures r == [] <==>
      NamePasses(raw.name) && EmailPasses(raw.email, isEmail) && PasswordPasses(raw.password) && RolePasses(raw.role)
    ensures AllBlameFailingFields(r, raw, isEmail)
  {
    var n := NameIssues(raw.name);
    var e := EmailIssues(raw.email, isEmail);
    var p := PasswordIssues(raw.password);
    var o := RoleIssues(raw.role);
    AllBlameConcat(n, e, raw, isEmail);
    AllBlameConcat(n + e, p, raw, isEmail);
    AllBlameConcat(n + e + p, o, raw, isEmail);
    n + e + p + o
  }

  function NormalizeName(v: Option<RawValue>): Option<string> {
    match v
    case Some(Str(s)) => Some(Trim(s))
    case _ => None
  }

  function NormalizeEmail(v: Option<RawValue>): Option<string> {
    match v
    case Some(Str(s)) => Some(NormalizeEmailText(s))
    case _ => None
  }

  function Plain(v: Option<RawValue>): Option<string> {
    match v
    case Some(Str(s)) => Some(s)
    case _ => None
  }

  /**
   * The update-body schema. Field checks run on the string as received; the
   * name is then trimmed, the email lower-cased and trimmed. A body with no
   * field at all fails the refinement with a path-less issue.
   */
  function ValidateUpdate(raw: RawUpdate, isEmail: string -> bool): (r: Result<UpdateFields, seq<Issue>>)
    ensures r.Ok? <==> Acceptable(raw, isEmail)
    ensures r.Ok? ==>
      && r.value.name == (if raw.name.Some? then Some(Trim(raw.name.value.s)) else None)
      && r.value.email == (if raw.email.Some? then Some(Trim(ToLower(raw.email.value.s))) else None)
      && r.value.password == (if raw.password.Some? then Some(raw.password.value.s) else None)
      && r.value.role == (if raw.role.Some? then Some(raw.role.value.s) else None)
    ensures r.Err? ==> |r.error| > 0
    ensures !AnyPresent(raw) ==> r == Err([Issue([], RefineMessage)])
    ensures AnyPresent(raw) && r.Err? ==> AllBlameFailingFields(r.error, raw, isEmail)
  {
    var issues := FieldIssues(raw, isEmail);
    if issues != [] then Err(issues)
    else if !AnyPresent(raw) then Err([Issue([], RefineMessage)])
    else Ok(UpdateFields(NormalizeName(raw.name), NormalizeEmail(raw.email), Plain(raw.password), Plain(raw.role)))
  }

  /** What a validated body guarantees to the handler, whatever was sent: at least one field, a password within bounds, an enumerated role. */
  lemma ValidatedFieldsInBounds(raw: RawUpdate, isEmail: string -> bool)
    ensures ValidateUpdate(raw, isEmail).Ok? ==>
      var f := ValidateUpdate(raw, isEmail).value;
      && (f.name.Some? || f.email.Some? || f.password.Some? || f.role.Some?)
      && (f.password.Some? ==> PasswordOk(f.password.value))
      && (f.role.Some? ==> RoleOk(f.role.value))
  {
  }

  /** A validated name is at most 255 characters and already trimmed. */
  lemma ValidatedNameIsTrimmed(raw: RawUpdate, isEmail: string -> bool)
    ensures ValidateUpdate(raw, isEmail).Ok? && raw.name.Some? ==>
      var name := ValidateUpdate(raw, isEmail).value.name.value;
      |name| <= 255 && Trim(name) == name
  {
    if ValidateUpdate(raw, isEmail).Ok? && raw.name.Some? {
      TrimIdempotent(raw.name.value.s);
    }
  }

  /** How the schema normalises an email: lower-case, then trim. */
  function NormalizeEmailText(s: string): string {
    Trim(ToLower(s))
  }

  /**
   * A normalised email is no longer than the input and is its own
   * normalisation: no upper-case ASCII letter and no surrounding whitespace remain.
   */
  lemma {:induction false} EmailNormalizationIsStable(s: string)
    ensures |NormalizeEmailText(s)| <= |s|
    ensures NormalizeEmailText(NormalizeEmailText(s)) == NormalizeEmailText(s)
  {
    var lowered := ToLower(s);
    var e := Trim(lowered);
    forall i | 0 <= i < |e| ensures !IsUpperAscii(e[i]) {
      var j :| 0 <= j < |lowered| && lowered[j] == e[i];
    }
    LowerOfLowerCase(e);
    TrimIdempotent(lowered);
  }
}
