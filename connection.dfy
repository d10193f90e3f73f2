/**
 * Connection resolution: the connection settings loaded from the environment
 * at startup, the checks on them, the classification of JSON decoding errors,
 * and GetConnectionConfig, which turns the HTTP method and the request body
 * into either a connection or the error response to write.
 */
module Connection {
  import opened Wrappers
  import opened Text
  import opened Responses

  /** pgConnection: the five connection fields; an empty pass means no password. */
  datatype PgConnection = PgConnection(host: string, port: string, db: string, user: string, pass: string)

  /** The fields the tools cannot work without. */
  predicate Sufficient(c: PgConnection)
  {
    c.host != "" && c.db != "" && c.user != ""
  }

  /** checkSettings: nil when host, db or user is empty, the settings themselves otherwise. */
  function CheckSettings(c: PgConnection): (r: Option<PgConnection>)
    ensures r.None? <==> (c.host == "" || c.db == "" || c.user == "")
    ensures r.Some? ==> r.value == c && Sufficient(r.value)
  {
    if c.host == "" || c.db == "" || c.user == "" then None else Some(c)
  }

  /** The process environment, read once at startup. */
  type Env = map<string, string>

  /** os.Getenv: the value of the variable, or "" when it is not set. */
  function Getenv(env: Env, name: string): (value: string)
  {
    if name in env then env[name] else ""
  }

  /** getEnvVariableWithDefault: an unset or empty variable falls back to the default. */
  function GetEnvVariableWithDefault(env: Env, name: string, defaultValue: string): (r: string)
    ensures Getenv(env, name) == "" ==> r == defaultValue
    ensures Getenv(env, name) != "" ==> r == env[name]
    ensures r == "" ==> defaultValue == ""
  {
    var value := Getenv(env, name);
    if value == "" then defaultValue else value
  }

  /** loadEnvSettings: the PG_* variables, with port 5432 by default, checked by checkSettings. */
  function LoadEnvSettings(env: Env): (r: Option<PgConnection>)
    ensures r.Some? <==>
      Getenv(env, "PG_HOST") != "" && Getenv(env, "PG_DB") != "" && Getenv(env, "PG_USER") != ""
    ensures r.Some? ==>
      && r.value.host == Getenv(env, "PG_HOST")
      && r.value.db == Getenv(env, "PG_DB")
      && r.value.user == Getenv(env, "PG_USER")
      && r.value.pass == Getenv(env, "PG_PASS")
      && r.value.port == (if Getenv(env, "PG_PORT") == "" then "5432" else Getenv(env, "PG_PORT"))
  {
    var result := PgConnection(
      GetEnvVariableWithDefault(env, "PG_HOST", ""),
      GetEnvVariableWithDefault(env, "PG_PORT", "5432"),
      GetEnvVariableWithDefault(env, "PG_DB", ""),
      GetEnvVariableWithDefault(env, "PG_USER", ""),
      GetEnvVariableWithDefault(env, "PG_PASS", ""));
    CheckSettings(result)
  }

  /** useDirStructure: USE_DIR_STRUCTURE upper-cases to "TRUE", that is, it is "true" in any letter case. */
  function UseDirStructure(env: Env): (on: bool)
    ensures on <==>
      var v := Getenv(env, "USE_DIR_STRUCTURE");
      |v| == 4 && forall i :: 0 <= i < 4 ==> v[i] == "TRUE"[i] || v[i] == "true"[i]
  {
    var v := GetEnvVariableWithDefault(env, "USE_DIR_STRUCTURE", "");
    var up := ToUpperAscii(v);
    assert up == "TRUE" <==> |v| == 4 && forall i :: 0 <= i < 4 ==> up[i] == "TRUE"[i];
    up == "TRUE"
  }

  /**
   * What json.Decoder.Decode reported for the first value of the body. The body
   * reader is wrapped in http.MaxBytesReader, whose overflow surfaces as an
   * OtherError with the text "http: request body too large".
   */
  datatype JsonError =
    | SyntaxError(offset: nat)
    | UnexpectedEof
    | UnmarshalTypeError(field: string, offset: nat)
    | Eof
    | OtherError(text: string)

  /**
   * The decoder's two answers: the first Decode into the connection, and the
   * error of the second Decode (None when a second value was read).
   */
  datatype DecodeAnswer = DecodeAnswer(first: Result<PgConnection, JsonError>, second: Option<JsonError>)

  /** decodeJsonBody's error: a malformedRequest with its status, or the decoder's own error. */
  datatype DecodeFailure = Malformed(status: int, message: string) | Unclassified(text: string)

  const BodyTooLargeText := "http: request body too large"
  const MessageBodyTooLarge := "Request body must not be larger than 1MB"
  const MessageSingleObject := "Request body must only contain a single JSON object"
  const MessageEmptyBody := "Request body must not be empty"
  const MessageBadlyFormed := "Request body contains badly-formed JSON"

  /** The status and message a classified first-decode error is reported with. */
  function ClassifyError(e: JsonError): (r: Option<DecodeFailure>)
    ensures r.None? <==> e.OtherError? && e.text != BodyTooLargeText
    ensures r.Some? ==> r.value.Malformed?
    ensures r.Some? ==> (r.value.status == HttpRequestEntityTooLarge <==> e == OtherError(BodyTooLargeText))
    ensures r.Some? ==> r.value.status == HttpBadRequest || r.value.status == HttpRequestEntityTooLarge
  {
    match e
    case SyntaxError(offset) =>
      Some(Malformed(HttpBadRequest,
        "Request body contains badly-formed JSON (at position " + NatToDecimal(offset) + ")"))
    case UnexpectedEof =>
      Some(Malformed(HttpBadRequest, MessageBadlyFormed))
    case UnmarshalTypeError(field, offset) =>
      Some(Malformed(HttpBadRequest,
        "Request body contains an invalid value for the " + Quote(field) +
        " field (at position " + NatToDecimal(offset) + ")"))
    case Eof =>
      Some(Malformed(HttpBadRequest, MessageEmptyBody))
    case OtherError(text) =>
      if text == BodyTooLargeText then Some(Malformed(HttpRequestEntityTooLarge, MessageBodyTooLarge))
      else None
  }

  /** decodeJsonBody: one JSON object, then nothing but the end of the body. */
  function DecodeJsonBody(a: DecodeAnswer): (r: Result<PgConnection, DecodeFailure>)
    ensures r.Success? <==> a.first.Success? && a.second == Some(Eof)
    ensures r.Success? ==> r.value == a.first.value
    ensures a.first.Success? && a.second != Some(Eof) ==> r == Failure(Malformed(HttpBadRequest, MessageSingleObject))
    ensures r == Failure(Malformed(HttpRequestEntityTooLarge, MessageBodyTooLarge)) <==>
      a.first == Failure(OtherError(BodyTooLargeText))
    ensures r.Failure? && r.error.Malformed? ==>
      r.error.status == HttpBadRequest || r.error.status == HttpRequestEntityTooLarge
    ensures r.Failure? && r.error.Unclassified? <==>
      a.first.Failure? && a.first.error.OtherError? && a.first.error.text != BodyTooLargeText
    ensures r.Failure? && r.error.Unclassified? ==> r.error.text == a.first.error.text
  {
    match a.first
    case Failure(e) =>
      (match ClassifyError(e)
       case Some(m) => Failure(m)
       case None => Failure(Unclassified(e.text)))
    case Success(c) =>
      if a.second != Some(Eof) then Failure(Malformed(HttpBadRequest, MessageSingleObject))
      else Success(c)
  }

  /**
   * GetConnectionConfig: GET takes the environment settings, POST decodes and
   * checks the body, any other method is refused. On failure the value is the
   * response the handler writes.
   */
  function GetConnectionConfig(httpMethod: string, envSet: Option<PgConnection>, body: DecodeAnswer,
                               actionName: string): (r: Result<PgConnection, Response>)
    ensures r.Failure? ==>
      r.error.code != HttpOk && r.error.body.status == StatusError &&
      r.error.body.action == actionName && r.error.body.file == ""
  {
    if httpMethod == "GET" then
      if envSet.None? then Failure(ErrorResponse(HttpNotImplemented, actionName, MessageEnvNotSet))
      else Success(envSet.value)
    else if httpMethod == "POST" then
      match DecodeJsonBody(body)
      case Failure(Malformed(status, message)) =>
        Failure(ErrorResponse(status, actionName, message))
      case Failure(Unclassified(_)) =>
        Failure(ErrorResponse(HttpInternalServerError, actionName, TextInternalServerError))
      case Success(c) =>
        if CheckSettings(c).None? then Failure(ErrorResponse(HttpBadRequest, actionName, MessageNotSufficientData))
        else Success(c)
    else
      Failure(ErrorResponse(HttpMethodNotAllowed, actionName, MessageMethodNotSupported))
  }

  /**
   * The answer of the resolver for each request method: a GET uses the startup
   * settings or is refused with 501, a POST uses the body when it decodes to a
   * sufficient connection and otherwise reports why, any other method is 405.
   */
  lemma ConnectionConfigCases(httpMethod: string, envSet: Option<PgConnection>, body: DecodeAnswer, actionName: string)
    ensures var r := GetConnectionConfig(httpMethod, envSet, body, actionName);
      httpMethod == "GET" && envSet.None? ==> r == Failure(ErrorResponse(HttpNotImplemented, actionName, MessageEnvNotSet))
    ensures var r := GetConnectionConfig(httpMethod, envSet, body, actionName);
      httpMethod == "GET" && envSet.Some? ==> r == Success(envSet.value)
    ensures var r := GetConnectionConfig(httpMethod, envSet, body, actionName);
      httpMethod == "POST" ==> (r.Success? <==> DecodeJsonBody(body).Success? && Sufficient(DecodeJsonBody(body).value))
    ensures var r := GetConnectionConfig(httpMethod, envSet, body, actionName);
      httpMethod == "POST" && r.Success? ==> r.value == body.first.value
    ensures var r := GetConnectionConfig(httpMethod, envSet, body, actionName);
      httpMethod == "POST" && DecodeJsonBody(body).Success? && !Sufficient(DecodeJsonBody(body).value) ==>
        r == Failure(ErrorResponse(HttpBadRequest, actionName, MessageNotSufficientData))
    ensures var r := GetConnectionConfig(httpMethod, envSet, body, actionName);
      httpMethod == "POST" && DecodeJsonBody(body).Failure? && DecodeJsonBody(body).error.Malformed? ==>
        var m := DecodeJsonBody(body).error;
        r == Failure(ErrorResponse(m.status, actionName, m.message))
    ensures var r := GetConnectionConfig(httpMethod, envSet, body, actionName);
      httpMethod == "POST" && DecodeJsonBody(body).Failure? && DecodeJsonBody(body).error.Unclassified? ==>
        r == Failure(ErrorResponse(HttpInternalServerError, actionName, TextInternalServerError))
    ensures var r := GetConnectionConfig(httpMethod, envSet, body, actionName);
      httpMethod != "GET" && httpMethod != "POST" ==>
        r == Failure(ErrorResponse(HttpMethodNotAllowed, actionName, MessageMethodNotSupported))
  {
  }

  /**
   * With the settings loaded at startup, every connection the resolver hands
   * out has host, db and user; a GET falls back to port 5432 when PG_PORT is empty.
   */
  lemma ResolvedConnectionIsSufficient(env: Env, httpMethod: string, body: DecodeAnswer, actionName: string)
    ensures var r := GetConnectionConfig(httpMethod, LoadEnvSettings(env), body, actionName);
      r.Success? ==> Sufficient(r.value)
    ensures var r := GetConnectionConfig("GET", LoadEnvSettings(env), body, actionName);
      r.Success? && Getenv(env, "PG_PORT") == "" ==> r.value.port == "5432"
  {
  }
}
