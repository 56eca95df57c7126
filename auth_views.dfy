/**
 * The session-login API: the request checks and outcome selection of login, signup and
 * the authentication-status view. Password checking, user creation and the session
 * login itself are outside the model: `authenticate` and `create` are oracles, and
 * group membership arrives with the account.
 */
module AuthViews {
  import opened Wrappers
  import opened Text
  import opened PyJson

  /** A user as the views report it; `isSiteManager` is membership of the Site Managers group. */
  datatype Account = Account(
    id: nat,
    username: string,
    email: string,
    firstName: string,
    lastName: string,
    isStaff: bool,
    isSiteManager: bool)

  /** An HTTP response; `body` is None for Django's own non-JSON error responses. */
  datatype Response = Response(status: nat, body: Option<Json>)

  const InvalidJsonMessage := "Invalid JSON"
  const CredentialsRequiredMessage := "Username and password are required"
  const InvalidCredentialsMessage := "Invalid credentials"
  const FieldsRequiredMessage := "All fields are required"
  const InvalidEmailMessage := "Invalid email format"
  const PasswordTooShortMessage := "Password must be at least 8 characters"
  const EmailRegisteredMessage := "Email already registered"
  const CreationFailedMessage := "Account creation failed"
  const AccountCreatedMessage := "Account created successfully"
  const MinPasswordLength: nat := 8

  /** `{'success': False, 'error': message}` with the given status. */
  function Refusal(status: nat, message: string): (r: Response)
    ensures r.status == status && r.body.Some? && r.body.value.Obj?
    ensures r.body.value.fields == map["success" := Bool(false), "error" := Str(message)]
  {
    Response(status, Some(Obj(map["success" := Bool(false), "error" := Str(message)])))
  }

  /** An exception the view does not catch: Django answers 500 with its own error page. */
  const ServerError := Response(500, None)

  /** The user object of the login response, without the names. */
  function LoginUser(a: Account): Json {
    Obj(map["id" := Num(a.id), "username" := Str(a.username), "email" := Str(a.email),
            "is_staff" := Bool(a.isStaff), "is_site_manager" := Bool(a.isSiteManager)])
  }

  /** The user object of the signup and status responses, with the names. */
  function FullUser(a: Account): Json {
    Obj(map["id" := Num(a.id), "username" := Str(a.username), "email" := Str(a.email),
            "first_name" := Str(a.firstName), "last_name" := Str(a.lastName),
            "is_staff" := Bool(a.isStaff), "is_site_manager" := Bool(a.isSiteManager)])
  }

  /** `data.get(key)` on a dict: absent keys and JSON null both read as None. */
  predicate Missing(fields: map<string, Json>, key: string) {
    key !in fields || fields[key] == Null
  }

  /**
   * LoginView.post. `body` is None when it is not JSON. A body that is JSON but not an
   * object has no `get`, which the view does not catch.
   */
  function Login(body: Option<Json>, authenticate: (Json, Json) -> Option<Account>): (r: Response)
    ensures body.None? ==> r == Refusal(400, InvalidJsonMessage)
    ensures body.Some? && !body.value.Obj? ==> r == ServerError
    ensures r.status == 400 <==>
      body.None? || (body.value.Obj? && (Missing(body.value.fields, "username") || Missing(body.value.fields, "password")))
    ensures body.Some? && body.value.Obj? && r.status != 400 ==>
      var f := body.value.fields;
      match authenticate(f["username"], f["password"])
      case Some(a) => r == Response(200, Some(Obj(map["success" := Bool(true), "user" := LoginUser(a)])))
      case None => r == Refusal(401, InvalidCredentialsMessage)
  {
    match body
    case None => Refusal(400, InvalidJsonMessage)
    case Some(data) =>
      if !data.Obj? then ServerError
      else
        var f := data.fields;
        if Missing(f, "username") || Missing(f, "password") then Refusal(400, CredentialsRequiredMessage)
        else match authenticate(f["username"], f["password"])
          case Some(a) => Response(200, Some(Obj(map["success" := Bool(true), "user" := LoginUser(a)])))
          case None => Refusal(401, InvalidCredentialsMessage)
  }

  /** Empty strings are credentials like any other: only an absent or null field is refused up front. */
  lemma EmptyCredentialsAuthenticated(authenticate: (Json, Json) -> Option<Account>)
    ensures var r := Login(Some(Obj(map["username" := Str(""), "password" := Str("")])), authenticate);
      r.status == (if authenticate(Str(""), Str("")).Some? then 200 else 401)
  {
  }

  /** The signup fields after normalisation; the password is taken as sent. */
  datatype SignupFields = SignupFields(firstName: string, lastName: string, email: string, password: Json)

  /** `data.get(key, '').strip()`: a value other than text has no `strip`. */
  function StrippedField(fields: map<string, Json>, key: string): (r: Result<string, PyError>)
    ensures key !in fields ==> r == Ok("")
    ensures key in fields && fields[key].Str? ==> r == Ok(Strip(fields[key].s))
    ensures key in fields && !fields[key].Str? ==> r == Err(AttributeError)
  {
    if key !in fields then Ok("")
    else if fields[key].Str? then Ok(Strip(fields[key].s))
    else Err(AttributeError)
  }

  /** Python's `str.strip().lower()`, the normal form of an email address. */
  function NormalEmail(s: string): string {
    Lower(Strip(s))
  }

  /** Reading the signup body: names stripped, the email stripped and lower-cased. */
  function ReadSignup(data: Json): (r: Result<SignupFields, PyError>)
    ensures !data.Obj? ==> r == Err(AttributeError)
    ensures r.Ok? ==> data.Obj?
    ensures r.Ok? ==> Ok(r.value.firstName) == StrippedField(data.fields, "first_name")
    ensures r.Ok? ==> Ok(r.value.lastName) == StrippedField(data.fields, "last_name")
    ensures r.Ok? ==> "email" in data.fields ==> data.fields["email"].Str? && r.value.email == NormalEmail(data.fields["email"].s)
    ensures r.Ok? ==> "email" !in data.fields ==> r.value.email == ""
    ensures r.Ok? ==> r.value.password == (if "password" in data.fields then data.fields["password"] else Str(""))
    ensures data.Obj? ==> (r.Ok? <==>
      && StrippedField(data.fields, "first_name").Ok?
      && StrippedField(data.fields, "last_name").Ok?
      && StrippedField(data.fields, "email").Ok?)
  {
    match data
    case Obj(f) =>
      var first :- StrippedField(f, "first_name");
      var last :- StrippedField(f, "last_name");
      var email :- StrippedField(f, "email");
      var password := if "password" in f then f["password"] else Str("");
      Ok(SignupFields(first, last, Lower(email), password))
    case _ => Err(AttributeError)
  }

  /** All four fields are truthy. */
  predicate AllGiven(s: SignupFields) {
    s.firstName != [] && s.lastName != [] && s.email != [] && Truthy(s.password)
  }

  /** The email contains both '@' and '.'. */
  predicate EmailShaped(email: string) {
    Contains(email, "@") && Contains(email, ".")
  }

  /** Why a signup is refused before any user is created. */
  datatype SignupRefusal = FieldsMissing | BadEmail | LengthUndefined | ShortPassword | EmailTaken

  /** The response for each refusal; `len` raising is not caught, so that one is Django's 500. */
  function RefusalResponse(why: SignupRefusal): Response {
    match why
    case FieldsMissing => Refusal(400, FieldsRequiredMessage)
    case BadEmail => Refusal(400, InvalidEmailMessage)
    case LengthUndefined => ServerError
    case ShortPassword => Refusal(400, PasswordTooShortMessage)
    case EmailTaken => Refusal(400, EmailRegisteredMessage)
  }

  /**
   * The checks of SignupView.post in order; the first failure decides. A truthy password
   * without a length (a number or true) makes `len` raise.
   */
  function SignupProblem(s: SignupFields, registered: set<string>): (r: Option<SignupRefusal>)
    ensures r == Some(FieldsMissing) <==> !AllGiven(s)
    ensures r == Some(BadEmail) <==> AllGiven(s) && !EmailShaped(s.email)
    ensures r == Some(LengthUndefined) <==> AllGiven(s) && EmailShaped(s.email) && Len(s.password).Err?
    ensures r == Some(ShortPassword) <==>
      AllGiven(s) && EmailShaped(s.email) && Len(s.password).Ok? && Len(s.password).value < MinPasswordLength
    ensures r == Some(EmailTaken) <==>
      AllGiven(s) && EmailShaped(s.email) && Len(s.password).Ok? && Len(s.password).value >= MinPasswordLength
      && s.email in registered
  {
    if !AllGiven(s) then Some(FieldsMissing)
    else if !EmailShaped(s.email) then Some(BadEmail)
    else match Len(s.password)
      case Err(_) => Some(LengthUndefined)
      case Ok(n) =>
        if n < MinPasswordLength then Some(ShortPassword)
        else if s.email in registered then Some(EmailTaken)
        else None
  }

  /** The arguments of create_user. */
  datatype NewUser = NewUser(username: string, email: string, password: string, firstName: string, lastName: string)

  /** What creating the user did. */
  datatype Creation = Created(account: Account) | IntegrityFailure | OtherFailure

  /** The user the view asks to create: the username is the normalised email. */
  function NewUserFrom(s: SignupFields): (r: NewUser)
    requires s.password.Str?
    ensures r.username == s.email && r.email == s.email
    ensures r.password == s.password.s && r.firstName == s.firstName && r.lastName == s.lastName
  {
    NewUser(s.email, s.email, s.password.s, s.firstName, s.lastName)
  }

  /**
   * SignupView.post. A password that passed the checks but is not text makes
   * create_user raise, which the view turns into its 500 refusal.
   */
  function Signup(body: Option<Json>, registered: set<string>, create: NewUser -> Creation): (r: Response)
    ensures body.None? ==> r == Refusal(400, InvalidJsonMessage)
    ensures body.Some? && ReadSignup(body.value).Err? ==> r == ServerError
    ensures body.Some? && ReadSignup(body.value).Ok? ==>
      var s := ReadSignup(body.value).value;
      && (SignupProblem(s, registered).Some? ==> r == RefusalResponse(SignupProblem(s, registered).value))
      && (SignupProblem(s, registered).None? && !s.password.Str? ==> r == Refusal(500, CreationFailedMessage))
      && (SignupProblem(s, registered).None? && s.password.Str? ==>
            match create(NewUserFrom(s))
            case Created(a) => r == Response(200, Some(Obj(map[
              "success" := Bool(true), "message" := Str(AccountCreatedMessage), "user" := FullUser(a)])))
            case IntegrityFailure => r == Refusal(400, EmailRegisteredMessage)
            case OtherFailure => r == Refusal(500, CreationFailedMessage))
  {
    match body
    case None => Refusal(400, InvalidJsonMessage)
    case Some(data) =>
      match ReadSignup(data)
      case Err(_) => ServerError
      case Ok(s) =>
        match SignupProblem(s, registered)
        case Some(why) => RefusalResponse(why)
        case None =>
          if !s.password.Str? then Refusal(500, CreationFailedMessage)
          else match create(NewUserFrom(s))
            case Created(a) => Response(200, Some(Obj(map[
              "success" := Bool(true), "message" := Str(AccountCreatedMessage), "user" := FullUser(a)])))
            case IntegrityFailure => Refusal(400, EmailRegisteredMessage)
            case OtherFailure => Refusal(500, CreationFailedMessage)
  }

  lemma LowerCharKeepsSpace(c: char)
    ensures IsPySpace(LowerChar(c)) <==> IsPySpace(c)
    ensures LowerChar(LowerChar(c)) == LowerChar(c)
  {
  }

  lemma {:induction false} StripLeftIdle(s: string)
    requires s == [] || !IsPySpace(s[0])
    ensures StripLeft(s) == s
  {
  }

  lemma {:induction false} StripRightIdle(s: string)
    requires s == [] || !IsPySpace(s[|s| - 1])
    ensures StripRight(s) == s
  {
  }

  /**
   * Normalising an email twice changes nothing more: an address sent already in normal
   * form is checked and stored exactly as sent.
   */
  lemma NormalEmailIdempotent(s: string)
    ensures NormalEmail(NormalEmail(s)) == NormalEmail(s)
  {
    var t := Strip(s);
    var u := Lower(t);
    assert t == StripRight(StripLeft(s));
    if t != [] {
      var l := StripLeft(s);
      assert StripRight(l) == l[..|t|];
      assert t[0] == l[0];
      LowerCharKeepsSpace(t[0]);
      LowerCharKeepsSpace(t[|t| - 1]);
      assert u[0] == LowerChar(t[0]) && u[|u| - 1] == LowerChar(t[|t| - 1]);
    }
    StripLeftIdle(u);
    StripRightIdle(u);
    assert Strip(u) == u;
    forall i | 0 <= i < |u| ensures Lower(u)[i] == u[i] {
      LowerCharKeepsSpace(t[i]);
    }
  }

  /** A successful signup registers the normalised email as both username and email. */
  lemma SignupUsernameIsEmail(body: Option<Json>, registered: set<string>, create: NewUser -> Creation)
    requires Signup(body, registered, create).status == 200
    ensures body.Some? && ReadSignup(body.value).Ok?
    ensures var s := ReadSignup(body.value).value;
      && s.password.Str?
      && NewUserFrom(s).username == NewUserFrom(s).email == s.email
      && s.email !in registered
      && create(NewUserFrom(s)).Created?
  {
    RefusalsAreNotSuccess();
    var r := Signup(body, registered, create);
    assert body.Some?;
    assert ReadSignup(body.value).Ok?;
    var s := ReadSignup(body.value).value;
    assert SignupProblem(s, registered).None?;
    assert s.password.Str?;
    assert create(NewUserFrom(s)).Created?;
  }

  /** No refusal of the signup checks answers 200. */
  lemma RefusalsAreNotSuccess()
    ensures forall why :: RefusalResponse(why).status != 200
  {
  }

  /** AuthStatusView.get: the full user when signed in, else exactly `{'authenticated': False}`. */
  function AuthStatus(current: Option<Account>): (r: Response)
    ensures r.status == 200 && r.body.Some? && r.body.value.Obj? && "authenticated" in r.body.value.fields
    ensures r.body.value.fields["authenticated"] == Bool(current.Some?)
    ensures current.None? <==> r.body.value == Obj(map["authenticated" := Bool(false)])
    ensures current.Some? ==> "user" in r.body.value.fields && r.body.value.fields["user"] == FullUser(current.value)
  {
    match current
    case None => Response(200, Some(Obj(map["authenticated" := Bool(false)])))
    case Some(a) => Response(200, Some(Obj(map["authenticated" := Bool(true), "user" := FullUser(a)])))
  }

  // ----- method dispatch -----

  /** The methods a view accepts, as in its http_method_names. */
  const PostOnly: seq<string> := ["post"]

  /** The views' own GET handlers. */
  const LoginGetMessage := "Please use POST to login"
  const SignupGetMessage := "Please use POST to signup"

  /**
   * Django's View.dispatch for a request whose method is not POST, for the two method lists
   * the views use (PostOnly and PostAndGet, neither listing "options"): the view's own handler
   * runs only for a method listed in `allowed`; any other method gets the framework's
   * bodiless 405. Django's own OPTIONS answer for a view listing "options" is not modelled.
   */
  function DispatchOther(verb: string, allowed: seq<string>, getMessage: string): (r: Response)
    requires verb != "post"
    ensures r.status == 405
    ensures r.body.Some? <==> verb == "get" && verb in allowed
  {
    if verb in allowed && verb == "get" then Refusal(405, getMessage)
    else Response(405, None)
  }

  /**
   * As written, both views list only "post" as allowed, so their GET handlers never run:
   * a GET gets the framework's 405 without the JSON message.
   */
  lemma GetHandlerUnreachable()
    ensures DispatchOther("get", PostOnly, LoginGetMessage) == Response(405, None)
    ensures DispatchOther("get", PostOnly, SignupGetMessage) == Response(405, None)
  {
    assert "get" !in PostOnly;
  }

  /** The methods the views evidently mean to accept: POST, and GET for the explanatory 405. */
  const PostAndGet: seq<string> := ["post", "get"]

  /** With GET listed the views answer it with their JSON 405, and every other method stays refused. */
  lemma GetHandlerReachedWhenListed(verb: string)
    requires verb != "post"
    ensures DispatchOther("get", PostAndGet, LoginGetMessage) == Refusal(405, LoginGetMessage)
    ensures DispatchOther("get", PostAndGet, SignupGetMessage) == Refusal(405, SignupGetMessage)
    ensures verb != "get" ==> DispatchOther(verb, PostAndGet, LoginGetMessage) == Response(405, None)
  {
    assert "get" in PostAndGet;
  }
}
