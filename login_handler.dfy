/** The login endpoint: a request handler that checks a username and password
    against a fixed table of mock accounts (or lets anyone in when the
    ALLOW_ANY_LOGIN switch is "true") and answers with a mock token. The
    environment variable and the current time are parameters. */
module LoginHandler {
  import opened Wrappers
  import opened JsString

  /** A field of the parsed JSON body. Only strings matter to the handler;
      any other JSON value (missing, null, number, boolean, array, object)
      is kept only by its truthiness. */
  datatype JsValue = Str(s: string) | NonString(truthy: bool)

  /** The request body as `JSON.parse` sees it. `EmptyBody` is a missing or
      empty body, which the handler replaces by `{}`; `OtherJson` is a value
      (number, string, boolean, array) whose destructuring finds neither
      field; `NullJson` is `null`, whose destructuring throws. */
  datatype Payload =
    | EmptyBody
    | Malformed
    | NullJson
    | OtherJson
    | ObjectJson(username: JsValue, password: JsValue)

  datatype Request = Request(httpMethod: string, body: Payload)

  datatype ResponseBody =
    | EmptyObject
    | Failure(error: string)
    | Success(token: string, username: string, role: string)

  datatype Response = Response(statusCode: nat, headers: seq<(string, string)>, body: ResponseBody)

  /** The headers every response carries. */
  const CorsHeaders: seq<(string, string)> := [
    ("Content-Type", "application/json"),
    ("Access-Control-Allow-Origin", "*"),
    ("Access-Control-Allow-Headers", "Content-Type"),
    ("Access-Control-Allow-Methods", "POST, OPTIONS")
  ]

  /** The mock accounts, keyed by lower-case username. */
  const MockUsers: map<string, string> := map["admin" := "admin123", "user" := "user123", "test" := "test123"]

  const TokenPrefix := "mock-jwt-token-"

  predicate JsTruthy(v: JsValue) {
    match v
    case Str(s) => s != []
    case NonString(t) => t
  }

  /** `mockUsers[username.toLowerCase()] === password` for a string
      username: strict equality holds only for a string password. */
  predicate ValidCredentials(username: string, password: JsValue)
    ensures ValidCredentials(username, password) ==>
      ToLower(username) in {"admin", "user", "test"} && password.Str? && password.s != []
  {
    var key := ToLower(username);
    key in MockUsers && password == Str(MockUsers[key])
  }

  function MintToken(now: nat, username: string): (token: string)
    ensures |token| == |TokenPrefix| + |Decimal(now)| + 1 + |username|
    ensures token[..|TokenPrefix|] == TokenPrefix
    ensures token[|token| - |username|..] == username
  {
    TokenPrefix + Decimal(now) + "-" + username
  }

  function Reply(statusCode: nat, body: ResponseBody): (r: Response)
    ensures r.headers == CorsHeaders
  {
    Response(statusCode, CorsHeaders, body)
  }

  /** The username and password the handler destructures from the body;
      `None` when parsing or destructuring throws. */
  function Fields(p: Payload): (r: Option<(JsValue, JsValue)>)
    ensures r.None? <==> p.Malformed? || p.NullJson?
    ensures p.ObjectJson? ==> r == Some((p.username, p.password))
    ensures p.EmptyBody? || p.OtherJson? ==> r == Some((NonString(false), NonString(false)))
  {
    match p
    case EmptyBody => Some((NonString(false), NonString(false)))
    case OtherJson => Some((NonString(false), NonString(false)))
    case Malformed => None
    case NullJson => None
    case ObjectJson(u, w) => Some((u, w))
  }

  /** The handler's decision for one request. */
  function Handler(req: Request, allowAnyLogin: Option<string>, now: nat): (r: Response)
    ensures r.headers == CorsHeaders
    ensures r.statusCode in {200, 400, 401, 500}
    ensures r.statusCode == 200 <==> r.body.EmptyObject? || r.body.Success?
    ensures r.body.EmptyObject? <==> req.httpMethod == "OPTIONS"
    ensures r.body.Success? ==> r.body.role == "user" && r.body.token == MintToken(now, r.body.username)
    ensures r.body.Success? ==> req.body.ObjectJson? && req.body.username == Str(r.body.username)
  {
    if req.httpMethod == "OPTIONS" then Reply(200, EmptyObject)
    else match Fields(req.body)
      case None => Reply(500, Failure("Internal server error"))
      case Some((username, password)) =>
        if !JsTruthy(username) || !JsTruthy(password) then
          Reply(400, Failure("Username and password are required"))
        else if username.NonString? then
          // `username.toLowerCase` is not a function: the call throws.
          Reply(500, Failure("Internal server error"))
        else if ValidCredentials(username.s, password) || allowAnyLogin == Some("true") then
          Reply(200, Success(MintToken(now, username.s), username.s, "user"))
        else
          Reply(401, Failure("Invalid credentials"))
  }

  /** Login succeeds exactly when the body carries a non-empty string
      username and a truthy password, and either the pair matches a mock
      account or the override switch is exactly "true". */
  lemma LoginSucceedsIff(req: Request, allowAnyLogin: Option<string>, now: nat)
    requires req.httpMethod != "OPTIONS"
    ensures Handler(req, allowAnyLogin, now).body.Success? <==>
      req.body.ObjectJson? && req.body.username.Str? && req.body.username.s != [] &&
      JsTruthy(req.body.password) &&
      (ValidCredentials(req.body.username.s, req.body.password) || allowAnyLogin == Some("true"))
  {
  }

  /** The error each failing request receives: 400 when a field is
      falsy; 500 when the body cannot be parsed or destructured, or the
      username is a truthy non-string (its `toLowerCase` throws); 401 for
      every other refused request. */
  lemma FailureReasons(req: Request, allowAnyLogin: Option<string>, now: nat)
    requires req.httpMethod != "OPTIONS"
    ensures var r := Handler(req, allowAnyLogin, now);
      (r.statusCode == 400 <==>
        (Fields(req.body).Some? &&
         (!JsTruthy(Fields(req.body).value.0) || !JsTruthy(Fields(req.body).value.1)))) &&
      (r.statusCode == 400 ==> r.body == Failure("Username and password are required")) &&
      (r.statusCode == 401 ==> r.body == Failure("Invalid credentials")) &&
      (r.statusCode == 500 <==> r.body == Failure("Internal server error"))
    ensures var r := Handler(req, allowAnyLogin, now);
      var fields := Fields(req.body);
      r.statusCode == 500 <==>
        fields.None? ||
        (JsTruthy(fields.value.0) && JsTruthy(fields.value.1) && fields.value.0.NonString?)
    ensures var r := Handler(req, allowAnyLogin, now);
      var fields := Fields(req.body);
      r.statusCode == 401 <==>
        && fields.Some?
        && JsTruthy(fields.value.0) && JsTruthy(fields.value.1) && fields.value.0.Str?
        && !(ValidCredentials(fields.value.0.s, fields.value.1) || allowAnyLogin == Some("true"))
  {
  }

  /** The mock table as the list of accepted pairs: a username matches in
      any letter case, the password only exactly. */
  lemma ValidCredentialsAreTheMockAccounts(username: string, password: string)
    ensures ValidCredentials(username, Str(password)) <==>
      (ToLower(username), password) in {("admin", "admin123"), ("user", "user123"), ("test", "test123")}
  {
  }

  /** The lookup ignores the username's letter case. */
  lemma {:induction false} CredentialsIgnoreCase(username: string, password: JsValue)
    ensures ValidCredentials(ToLower(username), password) == ValidCredentials(username, password)
  {
    ToLowerIdempotent(username);
  }

  /** Without the override, a non-string password never logs in. */
  lemma NonStringPasswordRejected(username: string, truthy: bool, now: nat)
    ensures Handler(Request("POST", ObjectJson(Str(username), NonString(truthy))), None, now).statusCode != 200
  {
  }

  /** Length of the run of decimal digits at the front of `s`. */
  function DigitRun(s: string): (n: nat)
    ensures n <= |s|
    ensures forall i | 0 <= i < n :: '0' <= s[i] <= '9'
    ensures n < |s| ==> !('0' <= s[n] <= '9')
  {
    if s != [] && '0' <= s[0] <= '9' then 1 + DigitRun(s[1..]) else 0
  }

  /** Reads a token back into its time and username. */
  function ParseToken(token: string): Option<(nat, string)> {
    if |token| < |TokenPrefix| || token[..|TokenPrefix|] != TokenPrefix then None
    else ParseStamp(token[|TokenPrefix|..])
  }

  /** Splits `<digits>-<username>` at the end of the digit run. */
  function ParseStamp(rest: string): Option<(nat, string)> {
    var n := DigitRun(rest);
    if n == 0 || n == |rest| || rest[n] != '-' then None
    else Some((DecimalValue(rest[..n]), rest[n + 1..]))
  }

  /** The digit run stops exactly where a run of digits meets a non-digit. */
  lemma {:induction false} DigitRunOfDigits(digits: string, tail: string)
    requires forall i | 0 <= i < |digits| :: '0' <= digits[i] <= '9'
    requires tail == [] || !('0' <= tail[0] <= '9')
    ensures DigitRun(digits + tail) == |digits|
  {
    if digits == [] {
      assert digits + tail == tail;
    } else {
      assert (digits + tail)[1..] == digits[1..] + tail;
      DigitRunOfDigits(digits[1..], tail);
    }
  }

  /** The token carries the login time and the username exactly as sent,
      so both can be read back from it. */
  lemma {:induction false} TokenRoundTrip(now: nat, username: string)
    ensures ParseToken(MintToken(now, username)) == Some((now, username))
  {
    var d := Decimal(now);
    var rest := d + ("-" + username);
    assert MintToken(now, username) == TokenPrefix + rest;
    PrefixStripped(rest);
    StampRoundTrip(d, username);
    DecimalRoundTrip(now);
  }

  lemma PrefixStripped(rest: string)
    ensures ParseToken(TokenPrefix + rest) == ParseStamp(rest)
  {
    var token := TokenPrefix + rest;
    assert token[..|TokenPrefix|] == TokenPrefix;
    assert token[|TokenPrefix|..] == rest;
  }

  lemma {:induction false} StampRoundTrip(digits: string, username: string)
    requires |digits| >= 1
    requires forall i | 0 <= i < |digits| :: '0' <= digits[i] <= '9'
    ensures ParseStamp(digits + ("-" + username)) == Some((DecimalValue(digits), username))
  {
    var rest := digits + ("-" + username);
    DigitRunOfDigits(digits, "-" + username);
    assert rest[|digits|] == '-';
    assert rest[..|digits|] == digits;
    assert rest[|digits| + 1..] == username;
  }
}
