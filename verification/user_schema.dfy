/**
 The request-body schemas of the user routes (`UserCreateSchema`,
 `UserLoginSchema`, `UserForgotPasswordSchema`, `UserResetPasswordSchema`).

 Each schema is a strict zod object: every declared field is a string, some
 carry a refinement (an email check, a password length window), one is
 optional, and any key outside the declared ones is refused. `Validate`
 collects issues in zod's order (declared fields first, then the unrecognised
 keys); the `Parse*` functions play the part of `safeParse`, turning an
 accepted body into a typed request.

 zod's email regular expression is not part of this model: it is the
 parameter `isEmail`.
 */
module UserSchema {
  import opened Wrappers

  /** A JSON property value as far as `z.string()` can tell: a string, or anything else. */
  datatype Value = Str(s: string) | NonString

  /** A parsed JSON request body: property name to value. */
  type RequestBody = map<string, Value>

  const MinPasswordLength: nat := 7
  const MaxPasswordLength: nat := 30

  /** The refinement a string field carries. */
  datatype Check = AnyString | EmailString | PasswordString

  datatype Field = Field(name: string, check: Check, optional: bool)

  /** A `z.object({...}).strict()` schema: its fields in declaration order. */
  datatype Schema = Schema(fields: seq<Field>)

  const UserCreateSchema: Schema :=
    Schema([Field("email", EmailString, false), Field("password", PasswordString, false),
            Field("displayName", AnyString, true)])
  const UserLoginSchema: Schema :=
    Schema([Field("email", EmailString, false), Field("password", PasswordString, false)])
  const UserForgotPasswordSchema: Schema :=
    Schema([Field("email", EmailString, false)])
  const UserResetPasswordSchema: Schema :=
    Schema([Field("email", EmailString, false), Field("key", AnyString, false),
            Field("password", PasswordString, false)])

  /** What zod reports about a failing body; message texts are zod's and not modelled. */
  datatype IssueKind =
    | Required
    | ExpectedString
    | InvalidEmail
    | TooSmall(minimum: nat)
    | TooBig(maximum: nat)
    | UnrecognizedKeys(keys: set<string>)

  /** An issue and the property it concerns ("" for the object itself). */
  datatype Issue = Issue(path: string, kind: IssueKind)

  /**
   The length zod's `.min`/`.max` see: JavaScript's `String.length`, which counts
   UTF-16 code units, so a character outside the Basic Multilingual Plane counts twice.
   */
  function Utf16Length(s: string): (n: nat)
    ensures |s| <= n <= 2 * |s|
  {
    if s == [] then 0 else (if s[0] as int > 0xFFFF then 2 else 1) + Utf16Length(s[1..])
  }

  /** On text inside the Basic Multilingual Plane the two lengths agree. */
  lemma {:induction false} Utf16LengthBmp(s: string)
    requires forall i :: 0 <= i < |s| ==> s[i] as int <= 0xFFFF
    ensures Utf16Length(s) == |s|
  {
    if s != [] {
      assert forall i :: 0 <= i < |s[1..]| ==> s[1..][i] == s[i + 1];
      Utf16LengthBmp(s[1..]);
    }
  }

  /** The positions holding a character outside the Basic Multilingual Plane. */
  function AstralPositions(s: string): set<nat>
  {
    set i: nat | i < |s| && s[i] as int > 0xFFFF
  }

  /** Every position of `t`, one place further on. */
  function Shift(t: set<nat>): set<nat>
  {
    set i | i in t :: i + 1
  }

  /** Moving a set of positions one place on keeps its size. */
  lemma {:induction false} ShiftKeepsSize(t: set<nat>)
    ensures |Shift(t)| == |t|
    decreases t
  {
    if t != {} {
      var x :| x in t;
      var r := t - {x};
      ShiftKeepsSize(r);
      assert Shift(t) == Shift(r) + {x + 1} by {
        forall j | j in Shift(t) ensures j in Shift(r) + {x + 1} {
          var i :| i in t && j == i + 1;
          if i != x { assert i in r; }
        }
        forall j | j in Shift(r) + {x + 1} ensures j in Shift(t) {
          if j != x + 1 {
            var i :| i in r && j == i + 1;
            assert i in t;
          }
        }
      }
      assert x + 1 !in Shift(r);
    }
  }

  /**
   The measured length is one unit per character plus one more for each
   character outside the Basic Multilingual Plane (a surrogate pair).
   */
  lemma {:induction false} Utf16LengthCounts(s: string)
    ensures Utf16Length(s) == |s| + |AstralPositions(s)|
  {
    if s != [] {
      var tail := s[1..];
      Utf16LengthCounts(tail);
      var shifted := Shift(AstralPositions(tail));
      ShiftKeepsSize(AstralPositions(tail));
      var head: set<nat> := if s[0] as int > 0xFFFF then {0} else {};
      assert AstralPositions(s) == head + shifted by {
        forall i: nat | i in AstralPositions(s) ensures i in head + shifted {
          if i > 0 {
            assert tail[i - 1] == s[i];
            assert i - 1 in AstralPositions(tail);
          }
        }
        forall i | i in shifted ensures i in AstralPositions(s) {
          var j :| j in AstralPositions(tail) && i == j + 1;
          assert tail[j] == s[i];
        }
      }
      assert 0 !in shifted;
      assert |head + shifted| == |head| + |shifted|;
    }
  }

  predicate PasswordLengthOk(password: string)
  {
    MinPasswordLength <= Utf16Length(password) <= MaxPasswordLength
  }

  predicate CheckOk(c: Check, s: string, isEmail: string -> bool)
  {
    match c
    case AnyString => true
    case EmailString => isEmail(s)
    case PasswordString => PasswordLengthOk(s)
  }

  /** A field is fine when present as a string passing its check, or absent and optional. */
  predicate FieldOk(f: Field, body: RequestBody, isEmail: string -> bool)
  {
    if f.name in body then body[f.name].Str? && CheckOk(f.check, body[f.name].s, isEmail)
    else f.optional
  }

  /** The declared keys of a schema. */
  function Names(schema: Schema): set<string>
  {
    set f | f in schema.fields :: f.name
  }

  /** The reference meaning of a strict schema: every field fine, no undeclared key. */
  predicate Accepts(schema: Schema, body: RequestBody, isEmail: string -> bool)
  {
    && (forall f :: f in schema.fields ==> FieldOk(f, body, isEmail))
    && body.Keys <= Names(schema)
  }

  /** The issues zod raises for one field: at most one, and none exactly when the field is fine. */
  function FieldIssues(f: Field, body: RequestBody, isEmail: string -> bool): (issues: seq<Issue>)
    ensures |issues| <= 1
    ensures issues == [] <==> FieldOk(f, body, isEmail)
    ensures forall i :: 0 <= i < |issues| ==> issues[i].path == f.name
  {
    if f.name !in body then
      (if f.optional then [] else [Issue(f.name, Required)])
    else
      match body[f.name]
      case NonString => [Issue(f.name, ExpectedString)]
      case Str(s) =>
        match f.check
        case AnyString => []
        case EmailString => if isEmail(s) then [] else [Issue(f.name, InvalidEmail)]
        case PasswordString =>
          if Utf16Length(s) < MinPasswordLength then [Issue(f.name, TooSmall(MinPasswordLength))]
          else if Utf16Length(s) > MaxPasswordLength then [Issue(f.name, TooBig(MaxPasswordLength))]
          else []
  }

  /** The issues of a list of fields, in order; none exactly when every field is fine. */
  function FieldsIssues(fields: seq<Field>, body: RequestBody, isEmail: string -> bool): (issues: seq<Issue>)
    ensures issues == [] <==> forall f :: f in fields ==> FieldOk(f, body, isEmail)
    ensures |issues| <= |fields|
  {
    if fields == [] then []
    else FieldIssues(fields[0], body, isEmail) + FieldsIssues(fields[1..], body, isEmail)
  }

  /** The strict-mode issue: one issue naming every undeclared key, if there is any. */
  function KeyIssues(schema: Schema, body: RequestBody): (issues: seq<Issue>)
    ensures issues == [] <==> body.Keys <= Names(schema)
    ensures issues != [] ==> issues == [Issue("", UnrecognizedKeys(body.Keys - Names(schema)))]
  {
    var extra := body.Keys - Names(schema);
    if extra == {} then
      assert forall k :: k in body.Keys ==> k in extra || k in Names(schema);
      []
    else [Issue("", UnrecognizedKeys(extra))]
  }

  /** `schema.safeParse(body)`: its issues, empty exactly when the schema accepts the body. */
  function Validate(schema: Schema, body: RequestBody, isEmail: string -> bool): (issues: seq<Issue>)
    ensures issues == [] <==> Accepts(schema, body, isEmail)
  {
    FieldsIssues(schema.fields, body, isEmail) + KeyIssues(schema, body)
  }

  /** Typed requests, one per schema. */
  datatype CreateInput = CreateInput(email: string, password: string, displayName: Option<string>)
  datatype LoginInput = LoginInput(email: string, password: string)
  datatype ForgotPasswordInput = ForgotPasswordInput(email: string)
  datatype ResetPasswordInput = ResetPasswordInput(email: string, key: string, password: string)

  /** The outcome of `safeParse`: the typed request, or the issues. */
  datatype Parsed<T> = Valid(value: T) | Invalid(issues: seq<Issue>)

  /** The bodies that encode each typed request. */
  function CreateBody(input: CreateInput): RequestBody
  {
    var base := map["email" := Str(input.email), "password" := Str(input.password)];
    match input.displayName
    case None => base
    case Some(d) => base["displayName" := Str(d)]
  }

  function LoginBody(input: LoginInput): RequestBody
  {
    map["email" := Str(input.email), "password" := Str(input.password)]
  }

  function ForgotPasswordBody(input: ForgotPasswordInput): RequestBody
  {
    map["email" := Str(input.email)]
  }

  function ResetPasswordBody(input: ResetPasswordInput): RequestBody
  {
    map["email" := Str(input.email), "key" := Str(input.key), "password" := Str(input.password)]
  }

  lemma CreateNames()
    ensures Names(UserCreateSchema) == {"email", "password", "displayName"}
  {
    var fs := UserCreateSchema.fields;
    assert fs[0] in fs && fs[1] in fs && fs[2] in fs;
  }

  lemma LoginNames()
    ensures Names(UserLoginSchema) == {"email", "password"}
  {
    var fs := UserLoginSchema.fields;
    assert fs[0] in fs && fs[1] in fs;
  }

  lemma ForgotPasswordNames()
    ensures Names(UserForgotPasswordSchema) == {"email"}
  {
    var fs := UserForgotPasswordSchema.fields;
    assert fs[0] in fs;
  }

  lemma ResetPasswordNames()
    ensures Names(UserResetPasswordSchema) == {"email", "key", "password"}
  {
    var fs := UserResetPasswordSchema.fields;
    assert fs[0] in fs && fs[1] in fs && fs[2] in fs;
  }

  /**
   `UserCreateSchema.safeParse`: valid exactly when the schema accepts the body, and then
   the body is precisely the encoding of the request, whose email passes the email check
   and whose password lies in the length window.
   */
  function ParseCreate(body: RequestBody, isEmail: string -> bool): (r: Parsed<CreateInput>)
    ensures r.Valid? <==> Accepts(UserCreateSchema, body, isEmail)
    ensures r.Invalid? ==> r.issues != [] && r.issues == Validate(UserCreateSchema, body, isEmail)
    ensures r.Valid? ==> isEmail(r.value.email) && PasswordLengthOk(r.value.password)
  {
    var issues := Validate(UserCreateSchema, body, isEmail);
    if issues != [] then Invalid(issues)
    else
      var fs := UserCreateSchema.fields;
      assert fs[0] in fs && fs[1] in fs && fs[2] in fs;
      CreateNames();
      var input := CreateInput(body["email"].s, body["password"].s,
                               if "displayName" in body then Some(body["displayName"].s) else None);
      Valid(input)
  }

  /** `UserLoginSchema.safeParse`. */
  function ParseLogin(body: RequestBody, isEmail: string -> bool): (r: Parsed<LoginInput>)
    ensures r.Valid? <==> Accepts(UserLoginSchema, body, isEmail)
    ensures r.Invalid? ==> r.issues != [] && r.issues == Validate(UserLoginSchema, body, isEmail)
    ensures r.Valid? ==> isEmail(r.value.email) && PasswordLengthOk(r.value.password)
  {
    var issues := Validate(UserLoginSchema, body, isEmail);
    if issues != [] then Invalid(issues)
    else
      var fs := UserLoginSchema.fields;
      assert fs[0] in fs && fs[1] in fs;
      LoginNames();
      var input := LoginInput(body["email"].s, body["password"].s);
      Valid(input)
  }

  /** `UserForgotPasswordSchema.safeParse`. */
  function ParseForgotPassword(body: RequestBody, isEmail: string -> bool): (r: Parsed<ForgotPasswordInput>)
    ensures r.Valid? <==> Accepts(UserForgotPasswordSchema, body, isEmail)
    ensures r.Invalid? ==> r.issues != [] && r.issues == Validate(UserForgotPasswordSchema, body, isEmail)
    ensures r.Valid? ==> isEmail(r.value.email)
  {
    var issues := Validate(UserForgotPasswordSchema, body, isEmail);
    if issues != [] then Invalid(issues)
    else
      var fs := UserForgotPasswordSchema.fields;
      assert fs[0] in fs;
      ForgotPasswordNames();
      var input := ForgotPasswordInput(body["email"].s);
      Valid(input)
  }

  /** `UserResetPasswordSchema.safeParse`; the key is any string, the empty one included. */
  function ParseResetPassword(body: RequestBody, isEmail: string -> bool): (r: Parsed<ResetPasswordInput>)
    ensures r.Valid? <==> Accepts(UserResetPasswordSchema, body, isEmail)
    ensures r.Invalid? ==> r.issues != [] && r.issues == Validate(UserResetPasswordSchema, body, isEmail)
    ensures r.Valid? ==> isEmail(r.value.email) && PasswordLengthOk(r.value.password)
  {
    var issues := Validate(UserResetPasswordSchema, body, isEmail);
    if issues != [] then Invalid(issues)
    else
      var fs := UserResetPasswordSchema.fields;
      assert fs[0] in fs && fs[1] in fs && fs[2] in fs;
      ResetPasswordNames();
      var input := ResetPasswordInput(body["email"].s, body["key"].s, body["password"].s);
      Valid(input)
  }

  /** An accepted create body is exactly the encoding of the request parsed from it. */
  lemma CreateParseEncodes(body: RequestBody, isEmail: string -> bool)
    requires ParseCreate(body, isEmail).Valid?
    ensures CreateBody(ParseCreate(body, isEmail).value) == body
  {
    var fs := UserCreateSchema.fields;
    assert fs[0] in fs && fs[1] in fs && fs[2] in fs;
    CreateNames();
  }

  /** An accepted login body is exactly the encoding of the request parsed from it. */
  lemma LoginParseEncodes(body: RequestBody, isEmail: string -> bool)
    requires ParseLogin(body, isEmail).Valid?
    ensures LoginBody(ParseLogin(body, isEmail).value) == body
  {
    var fs := UserLoginSchema.fields;
    assert fs[0] in fs && fs[1] in fs;
    LoginNames();
  }

  /** An accepted forgot-password body is exactly the encoding of the request parsed from it. */
  lemma ForgotPasswordParseEncodes(body: RequestBody, isEmail: string -> bool)
    requires ParseForgotPassword(body, isEmail).Valid?
    ensures ForgotPasswordBody(ParseForgotPassword(body, isEmail).value) == body
  {
    var fs := UserForgotPasswordSchema.fields;
    assert fs[0] in fs;
    ForgotPasswordNames();
  }

  /** An accepted reset body is exactly the encoding of the request parsed from it. */
  lemma ResetPasswordParseEncodes(body: RequestBody, isEmail: string -> bool)
    requires ParseResetPassword(body, isEmail).Valid?
    ensures ResetPasswordBody(ParseResetPassword(body, isEmail).value) == body
  {
    var fs := UserResetPasswordSchema.fields;
    assert fs[0] in fs && fs[1] in fs && fs[2] in fs;
    ResetPasswordNames();
  }

  /** Every well-formed create request is accepted and parses back to itself. */
  lemma CreateRoundTrip(input: CreateInput, isEmail: string -> bool)
    requires isEmail(input.email) && PasswordLengthOk(input.password)
    ensures ParseCreate(CreateBody(input), isEmail) == Valid(input)
  {
    var body := CreateBody(input);
    CreateNames();
    assert Accepts(UserCreateSchema, body, isEmail);
  }

  /** Every well-formed login request is accepted and parses back to itself. */
  lemma LoginRoundTrip(input: LoginInput, isEmail: string -> bool)
    requires isEmail(input.email) && PasswordLengthOk(input.password)
    ensures ParseLogin(LoginBody(input), isEmail) == Valid(input)
  {
    var body := LoginBody(input);
    LoginNames();
    assert Accepts(UserLoginSchema, body, isEmail);
  }

  /** Every forgot-password request with a well-formed email is accepted. */
  lemma ForgotPasswordRoundTrip(input: ForgotPasswordInput, isEmail: string -> bool)
    requires isEmail(input.email)
    ensures ParseForgotPassword(ForgotPasswordBody(input), isEmail) == Valid(input)
  {
    var body := ForgotPasswordBody(input);
    ForgotPasswordNames();
    assert Accepts(UserForgotPasswordSchema, body, isEmail);
  }

  /** Every well-formed reset request is accepted, whatever its key (the empty key too). */
  lemma ResetPasswordRoundTrip(input: ResetPasswordInput, isEmail: string -> bool)
    requires isEmail(input.email) && PasswordLengthOk(input.password)
    ensures ParseResetPassword(ResetPasswordBody(input), isEmail) == Valid(input)
  {
    var body := ResetPasswordBody(input);
    ResetPasswordNames();
    assert Accepts(UserResetPasswordSchema, body, isEmail);
  }

  /** The schemas that carry a password field. */
  predicate HasPassword(schema: Schema)
  {
    schema == UserCreateSchema || schema == UserLoginSchema || schema == UserResetPasswordSchema
  }

  predicate IsUserSchema(schema: Schema)
  {
    HasPassword(schema) || schema == UserForgotPasswordSchema
  }

  /** Every schema demands a string `email` that passes the email check. */
  lemma EmailRequired(schema: Schema, body: RequestBody, isEmail: string -> bool)
    requires IsUserSchema(schema)
    ensures Accepts(schema, body, isEmail) ==>
              "email" in body && body["email"].Str? && isEmail(body["email"].s)
  {
    assert schema.fields[0] in schema.fields;
  }

  /** Where a password is declared it is accepted only inside the length window [7, 30]. */
  lemma PasswordWindow(schema: Schema, body: RequestBody, isEmail: string -> bool)
    requires HasPassword(schema)
    ensures Accepts(schema, body, isEmail) ==>
              "password" in body && body["password"].Str? && PasswordLengthOk(body["password"].s)
  {
    var i := if schema == UserResetPasswordSchema then 2 else 1;
    assert schema.fields[i] in schema.fields;
  }

  /** Strictness: a key outside the declared ones makes every schema refuse the body. */
  lemma StrictRejectsUnknownKey(schema: Schema, body: RequestBody, isEmail: string -> bool, key: string)
    requires key in body && key !in Names(schema)
    ensures !Accepts(schema, body, isEmail)
    ensures Validate(schema, body, isEmail)[|Validate(schema, body, isEmail)| - 1].kind.UnrecognizedKeys?
  {
  }

  /** `displayName` is declared by the create schema only. */
  lemma DisplayNameOnlyOnCreate(body: RequestBody, isEmail: string -> bool)
    requires "displayName" in body
    ensures ParseLogin(body, isEmail).Invalid?
    ensures ParseForgotPassword(body, isEmail).Invalid?
    ensures ParseResetPassword(body, isEmail).Invalid?
  {
    LoginNames();
    StrictRejectsUnknownKey(UserLoginSchema, body, isEmail, "displayName");
    ForgotPasswordNames();
    StrictRejectsUnknownKey(UserForgotPasswordSchema, body, isEmail, "displayName");
    ResetPasswordNames();
    StrictRejectsUnknownKey(UserResetPasswordSchema, body, isEmail, "displayName");
  }
}
