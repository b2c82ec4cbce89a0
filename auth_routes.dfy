/** The decision order of the `/register` and `/login` handlers
    (server/routes/auth.js).  The database, bcrypt and the token signer are
    parameters: `find` stands for `User.findOne({username})`, `persist` for
    hashing the password and saving the new user, `compare` for
    `bcrypt.compare`, and `sign` for `jwt.sign`. */
module AuthRoutes {

  import opened Common
  import opened Credentials

  datatype Body =
    | ErrorBody(error: string)
    | MessageBody(message: string)
    | TokenBody(token: string, username: string, message: string)

  datatype Response = Response(status: nat, body: Body)

  /** A stored user: its database id, username and bcrypt hash. */
  datatype Account = Account(id: string, username: string, hash: string)

  /** How `User.findOne` settled: a user, `null`, or a thrown error with its `code`. */
  datatype Lookup = Found(account: Account) | NotFound | LookupFailed(code: Option<int>)

  /** How hashing and saving a new user settled. */
  datatype Save = Saved | SaveFailed(code: Option<int>)

  /** MongoDB's duplicate-key error code. */
  const DuplicateKey := 11000

  const CredentialsRequired := "Username and password are required"
  const UsernameFormat := "Username must be 3-20 chars, letters, numbers, @._- only"
  const PasswordFormat := "Password must be 6+ chars with at least 1 letter and 1 number"
  const UsernameTaken := "Username already taken"
  const UsernameExists := "Username already exists"
  const RegisterServerError := "Server error. Please try again later."
  const Registered := "Registered successfully"
  const InvalidLogin := "Invalid username or password"
  const LoginServerError := "Server error. Please try again."
  const LoginSucceeded := "Login successful"
  const FallbackSecret := "fallback-secret-for-dev-only"
  const TokenLifetime := "7d"

  /** JavaScript's `!v` for a request field that is absent or a string. */
  predicate Missing(v: Option<string>) {
    v.None? || v.value == ""
  }

  /** `process.env.JWT_SECRET || "fallback-secret-for-dev-only"` */
  function Secret(env: Option<string>): (k: string)
    ensures k != ""
    ensures Missing(env) ==> k == FallbackSecret
    ensures !Missing(env) ==> k == env.value
  {
    if Missing(env) then FallbackSecret else env.value
  }

  /** The `catch` block of `/register`. */
  function RegisterFailure(code: Option<int>): (r: Response)
    ensures r.status == 400 <==> code == Some(DuplicateKey)
    ensures r.status == 400 || r.status == 500
  {
    if code == Some(DuplicateKey) then Response(400, ErrorBody(UsernameExists))
    else Response(500, ErrorBody(RegisterServerError))
  }

  /** `POST /register` */
  function Register(username: Option<string>, password: Option<string>,
                    find: string -> Lookup, persist: (string, string) -> Save): (r: Response)
    ensures Missing(username) || Missing(password) ==> r == Response(400, ErrorBody(CredentialsRequired))
    ensures r.status == 201 <==>
      && !Missing(username) && !Missing(password)
      && IsValidUsername(Trim(username.value)) && IsValidPassword(password.value)
      && find(Trim(username.value)) == NotFound
      && persist(Trim(username.value), password.value) == Saved
    ensures r.status == 201 ==> r.body == MessageBody(Registered)
    ensures r.status != 201 ==> r.body.ErrorBody? && (r.status == 400 || r.status == 500)
    ensures !Missing(username) && !Missing(password)
            && IsValidUsername(Trim(username.value)) && IsValidPassword(password.value) ==>
      var name := Trim(username.value);
      && (find(name).LookupFailed? ==> r == RegisterFailure(find(name).code))
      && (find(name).Found? ==> r == Response(400, ErrorBody(UsernameTaken)))
      && (find(name) == NotFound && persist(name, password.value).SaveFailed? ==>
            r == RegisterFailure(persist(name, password.value).code))
  {
    if Missing(username) || Missing(password) then
      Response(400, ErrorBody(CredentialsRequired))
    else
      var name := Trim(username.value);
      var secret := password.value;
      if !IsValidUsername(name) then
        Response(400, ErrorBody(UsernameFormat))
      else if !IsValidPassword(secret) then
        Response(400, ErrorBody(PasswordFormat))
      else
        match find(name)
        case LookupFailed(code) => RegisterFailure(code)
        case Found(_) => Response(400, ErrorBody(UsernameTaken))
        case NotFound =>
          match persist(name, secret)
          case Saved => Response(201, MessageBody(Registered))
          case SaveFailed(code) => RegisterFailure(code)
  }

  /** The format checks run on the trimmed username first and on the
      untrimmed password second, so when both fail the username error is
      the one returned; neither check consults the database. */
  lemma RegisterFormatOrder(username: string, password: string,
                            find: string -> Lookup, persist: (string, string) -> Save)
    requires username != "" && password != ""
    ensures !IsValidUsername(Trim(username)) ==>
      Register(Some(username), Some(password), find, persist) == Response(400, ErrorBody(UsernameFormat))
    ensures IsValidUsername(Trim(username)) && !IsValidPassword(password) ==>
      Register(Some(username), Some(password), find, persist) == Response(400, ErrorBody(PasswordFormat))
  {
  }

  /** Only a request whose trimmed username and untrimmed password pass the
      format rules reaches the database: whenever two databases could give
      different answers, both rules held. */
  lemma RegisterValidatesBeforeLookup(username: Option<string>, password: Option<string>,
                                      find1: string -> Lookup, persist1: (string, string) -> Save,
                                      find2: string -> Lookup, persist2: (string, string) -> Save)
    ensures Register(username, password, find1, persist1) != Register(username, password, find2, persist2) ==>
      && !Missing(username) && !Missing(password)
      && IsValidUsername(Trim(username.value)) && IsValidPassword(password.value)
  {
  }

  /** A username made only of whitespace passes the presence check, is
      trimmed to "", and is refused by the format check, whatever the
      password and the database. */
  lemma RegisterBlankUsername(username: string, password: string,
                              find: string -> Lookup, persist: (string, string) -> Save)
    requires username != "" && password != ""
    requires forall i :: 0 <= i < |username| ==> IsJsWhitespace(username[i])
    ensures Register(Some(username), Some(password), find, persist) == Response(400, ErrorBody(UsernameFormat))
  {
    BlankUsernameInvalid(username);
  }

  /** An existing user makes a well-formed registration fail with
      "Username already taken", and nothing is saved. */
  lemma RegisterTaken(username: string, password: string, account: Account,
                      find: string -> Lookup, persist: (string, string) -> Save)
    requires IsValidUsername(Trim(username)) && IsValidPassword(password)
    requires find(Trim(username)) == Found(account)
    ensures username != "" && password != ""
    ensures Register(Some(username), Some(password), find, persist) == Response(400, ErrorBody(UsernameTaken))
  {
    UsernameRule(Trim(username));
    PasswordRule(password);
  }

  /** `POST /login` */
  function Login(username: Option<string>, password: Option<string>, find: string -> Lookup,
                 compare: (string, string) -> bool, sign: (Claims, string, string) -> string,
                 secretEnv: Option<string>): (r: Response)
    ensures Missing(username) || Missing(password) ==> r == Response(400, ErrorBody(CredentialsRequired))
    ensures r.status == 401 ==> r == Response(401, ErrorBody(InvalidLogin))
    ensures !Missing(username) && !Missing(password) && find(Trim(username.value)).LookupFailed? ==>
      r == Response(500, ErrorBody(LoginServerError))
    ensures r.status == 200 <==>
      && !Missing(username) && !Missing(password)
      && find(Trim(username.value)).Found?
      && compare(password.value, find(Trim(username.value)).account.hash)
    ensures r.status == 200 ==>
      var a := find(Trim(username.value)).account;
      r.body == TokenBody(sign(Claims(a.id, a.username), Secret(secretEnv), TokenLifetime), a.username, LoginSucceeded)
  {
    if Missing(username) || Missing(password) then
      Response(400, ErrorBody(CredentialsRequired))
    else
      match find(Trim(username.value))
      case LookupFailed(_) => Response(500, ErrorBody(LoginServerError))
      case NotFound => Response(401, ErrorBody(InvalidLogin))
      case Found(a) =>
        if !compare(password.value, a.hash) then Response(401, ErrorBody(InvalidLogin))
        else
          var token := sign(Claims(a.id, a.username), Secret(secretEnv), TokenLifetime);
          Response(200, TokenBody(token, a.username, LoginSucceeded))
  }

  /** An unknown username and a wrong password for a known one produce the
      same response, so a client cannot tell which of the two it was. */
  lemma LoginHidesWhichCredentialFailed(username: string, password: string, account: Account,
                                        find1: string -> Lookup, find2: string -> Lookup,
                                        compare: (string, string) -> bool,
                                        sign: (Claims, string, string) -> string, secretEnv: Option<string>)
    requires username != "" && password != ""
    requires find1(Trim(username)) == NotFound
    requires find2(Trim(username)) == Found(account) && !compare(password, account.hash)
    ensures Login(Some(username), Some(password), find1, compare, sign, secretEnv)
         == Login(Some(username), Some(password), find2, compare, sign, secretEnv)
         == Response(401, ErrorBody(InvalidLogin))
  {
  }
}
