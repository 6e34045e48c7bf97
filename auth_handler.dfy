/** The OAuth Lambda: `/auth` sends the user to Google's consent screen with
    the username and calendar id packed into the OAuth `state`; `/callback`
    unpacks them, exchanges the authorization code and stores the linkage. */
module AuthHandler {
  import opened Wrappers
  import opened Bytes
  import Utf8
  import Base64
  import Json
  import opened CredentialStore

  // ---------------------------------------------------------------------------
  // Responses.

  /** `start_auth` answers with integer codes, `callback` with the string "200". */
  datatype StatusCode = Status(code: int) | StatusText(text: string)

  datatype Response = Response(statusCode: StatusCode, body: Option<string>, location: Option<string>)

  /** `str.removesuffix("/")` on the configured webhook base URL. */
  function TrimTrailingSlash(url: string): (r: string)
    ensures url == r || url == r + "/"
    ensures url == r + "/" <==> (|url| > 0 && url[|url| - 1] == '/')
  {
    if |url| > 0 && url[|url| - 1] == '/' then url[..|url| - 1] else url
  }

  /** The page `callback` shows: the webhook endpoint the user must register. */
  function WelcomeBody(baseUrl: string, username: string): string {
    "Welcome! Your webhook endpoint is\n" + TrimTrailingSlash(baseUrl) + "/users/" + username
  }

  // ---------------------------------------------------------------------------
  // The OAuth `state`.

  /** The arguments `start_auth` passes to `Flow.authorization_url`. */
  datatype AuthorizationRequest = AuthorizationRequest(accessType: string, state: string, includeGrantedScopes: string)

  /** `json.dumps({"username": username, "calendar_id": calendarId})`. */
  function StateText(username: string, calendarId: string): string {
    Json.DumpObject([("username", username), ("calendar_id", calendarId)])
  }

  /** `base64.urlsafe_b64encode(StateText(...).encode())`. */
  function StateToken(username: string, calendarId: string): string {
    Base64.Encode(Utf8.Encode(StateText(username, calendarId)))
  }

  /** Why `callback` could not read its state back; each is an exception. */
  datatype StateError =
    | NotAscii              // ValueError: a non-ASCII str handed to base64
    | BadBase64             // binascii.Error
    | BadUtf8               // UnicodeDecodeError
    | BadJson               // JSONDecodeError
    | NotAnObject           // TypeError: the JSON value cannot be indexed by a key
    | MissingKey(key: string)  // KeyError
    | NotText(key: string)     // the value under the key is not a string

  /** `json.loads(base64.urlsafe_b64decode(state).decode())` followed by
      `["username"]` and then `["calendar_id"]`. */
  function DecodeState(state: string): (r: Result<(string, string), StateError>)
    ensures r == Failure(NotAscii) <==> !Base64.IsAscii(state)
    ensures r == Failure(BadBase64) <==> Base64.IsAscii(state) && Base64.Decode(state).Failure?
    ensures r == Failure(BadUtf8) <==>
      Base64.Decode(state).Success? && Utf8.Decode(Base64.Decode(state).value).None?
    ensures Base64.Decode(state).Success? && Utf8.Decode(Base64.Decode(state).value).Some? ==>
      var value := Json.Loads(Utf8.Decode(Base64.Decode(state).value).value);
      (r == Failure(BadJson) <==> value.None?) &&
      (r == Failure(NotAnObject) <==> value.Some? && !value.value.Object?) &&
      (r.Success? <==>
        value.Some? && value.value.Object? &&
        Json.Lookup(value.value.members, "username").Some? &&
        Json.Lookup(value.value.members, "username").value.Str? &&
        Json.Lookup(value.value.members, "calendar_id").Some? &&
        Json.Lookup(value.value.members, "calendar_id").value.Str?) &&
      (r.Success? ==>
        r.value == (Json.Lookup(value.value.members, "username").value.s,
                    Json.Lookup(value.value.members, "calendar_id").value.s))
    ensures r.Success? ==> Base64.Decode(state).Success? && Utf8.Decode(Base64.Decode(state).value).Some?
  {
    match Base64.Decode(state)
    case Failure(e) => Failure(if e == Base64.NotAscii then NotAscii else BadBase64)
    case Success(bytes) =>
      match Utf8.Decode(bytes)
      case None => Failure(BadUtf8)
      case Some(text) =>
        match Json.Loads(text)
        case None => Failure(BadJson)
        case Some(value) =>
          if !value.Object? then Failure(NotAnObject)
          else
            match Json.Lookup(value.members, "username")
            case None => Failure(MissingKey("username"))
            case Some(u) =>
              match Json.Lookup(value.members, "calendar_id")
              case None => Failure(MissingKey("calendar_id"))
              case Some(c) =>
                if !u.Str? then Failure(NotText("username"))
                else if !c.Str? then Failure(NotText("calendar_id"))
                else Success((u.s, c.s))
  }

  lemma StateMembers(username: string, calendarId: string)
    ensures var members := Json.StrMembers([("username", username), ("calendar_id", calendarId)]);
      Json.Lookup(members, "username") == Some(Json.Str(username)) &&
      Json.Lookup(members, "calendar_id") == Some(Json.Str(calendarId))
  {
    var members := Json.StrMembers([("username", username), ("calendar_id", calendarId)]);
    assert members == [("username", Json.Str(username)), ("calendar_id", Json.Str(calendarId))];
    assert members[..1] == [("username", Json.Str(username))];
  }

  /** The callback reads back exactly the username and calendar id that
      `start_auth` packed into the state, whatever characters they hold. */
  lemma StateRoundTrip(username: string, calendarId: string)
    ensures DecodeState(StateToken(username, calendarId)) == Success((username, calendarId))
  {
    var text := StateText(username, calendarId);
    var bytes := Utf8.Encode(text);
    Base64.DecodeEncode(bytes, []);
    Utf8.DecodeEncode(text);
    Json.LoadsDumpObject([("username", username), ("calendar_id", calendarId)]);
    StateMembers(username, calendarId);
  }

  /** The state carries no integrity check and the decoder skips characters
      outside its alphabet, so a token with such characters appended is
      still read as the original pair. */
  lemma AppendedJunkAccepted(username: string, calendarId: string, junk: string)
    requires Base64.IsAscii(junk) && Base64.IsJunk(junk)
    requires forall i :: 0 <= i < |junk| ==> junk[i] != '-' && junk[i] != '_'
    ensures DecodeState(StateToken(username, calendarId) + junk) == Success((username, calendarId))
  {
    var text := StateText(username, calendarId);
    var bytes := Utf8.Encode(text);
    Base64.DecodeEncode(bytes, junk);
    Utf8.DecodeEncode(text);
    Json.LoadsDumpObject([("username", username), ("calendar_id", calendarId)]);
    StateMembers(username, calendarId);
  }

  /** The state travels in the consent URL's query string: it uses only the
      URL-safe base64 alphabet and the pad. */
  lemma StateTokenIsUrlSafe(username: string, calendarId: string)
    ensures forall i :: 0 <= i < |StateToken(username, calendarId)| ==>
      Base64.IsUrlSafeChar(StateToken(username, calendarId)[i])
  {
    Base64.EncodeIsUrlSafe(Utf8.Encode(StateText(username, calendarId)));
  }

  // ---------------------------------------------------------------------------
  // `/auth`.

  /** `dict.get(key)` followed by Python truthiness: absent and "" are falsy. */
  predicate Given(params: map<string, string>, key: string) {
    key in params && params[key] != ""
  }

  /** `start_auth`. `authorizationUrl` stands for `Flow.authorization_url`,
      whose URL this model does not construct. */
  function StartAuth(params: map<string, string>, authorizationUrl: AuthorizationRequest -> string): (r: Response)
    ensures !Given(params, "username") ==> r == Response(Status(400), Some("missing username"), None)
    ensures Given(params, "username") && !Given(params, "calendarId") ==>
      r == Response(Status(400), Some("missing calendarId"), None)
    ensures Given(params, "username") && Given(params, "calendarId") ==>
      r.statusCode == Status(302) && r.body == None &&
      r.location == Some(authorizationUrl(AuthorizationRequest(
        "offline", StateToken(params["username"], params["calendarId"]), "true")))
  {
    if !Given(params, "username") then Response(Status(400), Some("missing username"), None)
    else if !Given(params, "calendarId") then Response(Status(400), Some("missing calendarId"), None)
    else
      var state := StateToken(params["username"], params["calendarId"]);
      Response(Status(302), None, Some(authorizationUrl(AuthorizationRequest("offline", state, "true"))))
  }

  /** A redirect always carries a state from which the callback recovers the
      request's username and calendar id. */
  lemma RedirectCarriesIdentity(params: map<string, string>, authorizationUrl: AuthorizationRequest -> string)
    requires StartAuth(params, authorizationUrl).statusCode == Status(302)
    ensures Given(params, "username") && Given(params, "calendarId")
    ensures var state := StateToken(params["username"], params["calendarId"]);
      StartAuth(params, authorizationUrl).location ==
        Some(authorizationUrl(AuthorizationRequest("offline", state, "true"))) &&
      DecodeState(state) == Success((params["username"], params["calendarId"]))
  {
    StateRoundTrip(params["username"], params["calendarId"]);
  }

  // ---------------------------------------------------------------------------
  // `/callback`.

  datatype CallbackError =
    | MissingState                 // KeyError from `pop("state")`
    | BadState(reason: StateError)
    | ExchangeFailed               // `fetch_token` raised

  /** One run of `callback` as a value: its outcome, the parameters handed to
      the token exchange if it got that far, and the table afterwards.
      `grant` is the token endpoint's answer to a set of parameters. */
  datatype CallbackRun = CallbackRun(
    outcome: Result<Response, CallbackError>,
    exchanged: Option<map<string, string>>,
    items: map<string, Linkage>)

  function CallbackSpec(
    query: map<string, string>,
    items: map<string, Linkage>,
    grant: map<string, string> -> Option<Credentials>,
    baseUrl: string): (r: CallbackRun)
    ensures r.exchanged.Some? <==> "state" in query && DecodeState(query["state"]).Success?
    ensures r.exchanged.Some? ==> r.exchanged.value == query - {"state"} && "state" !in r.exchanged.value
    ensures r.outcome.Success? <==> r.exchanged.Some? && grant(r.exchanged.value).Some?
    ensures r.outcome.Failure? ==> r.items == items
    ensures r.outcome.Success? ==>
      var (username, calendarId) := DecodeState(query["state"]).value;
      r.items == items[username := Linkage(username, calendarId, grant(query - {"state"}).value)] &&
      r.outcome.value == Response(StatusText("200"), Some(WelcomeBody(baseUrl, username)), None)
  {
    if "state" !in query then CallbackRun(Failure(MissingState), None, items)
    else
      match DecodeState(query["state"])
      case Failure(e) => CallbackRun(Failure(BadState(e)), None, items)
      case Success((username, calendarId)) =>
        var rest := query - {"state"};
        match grant(rest)
        case None => CallbackRun(Failure(ExchangeFailed), Some(rest), items)
        case Some(creds) =>
          CallbackRun(
            Success(Response(StatusText("200"), Some(WelcomeBody(baseUrl, username)), None)),
            Some(rest),
            items[username := Linkage(username, calendarId, creds)])
  }

  /** Completing the consent started by `/auth` for `username` and
      `calendarId` links exactly that calendar to exactly that user, and no
      other user's linkage changes. */
  lemma ConsentLinksRequestedCalendar(
    username: string, calendarId: string,
    query: map<string, string>,
    items: map<string, Linkage>,
    grant: map<string, string> -> Option<Credentials>,
    baseUrl: string)
    requires "state" in query && query["state"] == StateToken(username, calendarId)
    requires grant(query - {"state"}).Some?
    ensures var run := CallbackSpec(query, items, grant, baseUrl);
      run.outcome == Success(Response(StatusText("200"), Some(WelcomeBody(baseUrl, username)), None)) &&
      Get(run.items, username) == Some(Linkage(username, calendarId, grant(query - {"state"}).value)) &&
      (forall other :: other != username ==> Get(run.items, other) == Get(items, other))
  {
    var state := query["state"];
    assert DecodeState(state) == Success((username, calendarId)) by {
      StateRoundTrip(username, calendarId);
    }
  }

  /** The Lambda's query-string dictionary, which `callback` mutates. */
  class QueryParameters {
    var entries: map<string, string>

    constructor (entries: map<string, string>)
      ensures this.entries == entries
    {
      this.entries := entries;
    }

    /** `dict.pop(key)`: None is the KeyError, which leaves the dictionary as it was. */
    method Pop(key: string) returns (value: Option<string>)
      modifies this
      ensures key in old(entries) ==> value == Some(old(entries)[key]) && entries == old(entries) - {key}
      ensures key !in old(entries) ==> value == None && entries == old(entries)
    {
      if key in entries {
        value := Some(entries[key]);
        entries := entries - {key};
      } else {
        value := None;
      }
    }
  }

  /** The OAuth flow's token endpoint as the trace of requests sent to it;
      `grant` decides each answer (None is an exception). */
  class TokenExchange {
    var requests: seq<map<string, string>>
    const grant: map<string, string> -> Option<Credentials>

    constructor (grant: map<string, string> -> Option<Credentials>)
      ensures requests == [] && this.grant == grant
    {
      requests := [];
      this.grant := grant;
    }

    /** `flow.fetch_token(**params)` and then `flow.credentials`. */
    method FetchToken(params: map<string, string>) returns (creds: Option<Credentials>)
      modifies this`requests
      ensures requests == old(requests) + [params]
      ensures creds == grant(params)
    {
      requests := requests + [params];
      creds := grant(params);
    }
  }

  /** `callback`: the popped state is decoded before anything is sent; the
      remaining parameters go to the token endpoint; the linkage is stored
      only once the exchange succeeded. */
  method Callback(query: QueryParameters, flow: TokenExchange, table: Table, baseUrl: string)
    returns (r: Result<Response, CallbackError>)
    requires table.Valid()
    modifies query, flow`requests, table`items
    ensures table.Valid()
    ensures var run := CallbackSpec(old(query.entries), old(table.items), flow.grant, baseUrl);
      r == run.outcome && table.items == run.items &&
      flow.requests == old(flow.requests) + (if run.exchanged.Some? then [run.exchanged.value] else [])
    ensures query.entries == old(query.entries) - {"state"}
  {
    var stateRaw := query.Pop("state");
    if stateRaw.None? {
      return Failure(MissingState);
    }
    var decoded := DecodeState(stateRaw.value);
    if decoded.Failure? {
      return Failure(BadState(decoded.error));
    }
    var (username, calendarId) := decoded.value;
    var creds := flow.FetchToken(query.entries);
    if creds.None? {
      return Failure(ExchangeFailed);
    }
    table.PutItem(Linkage(username, calendarId, creds.value));
    r := Success(Response(StatusText("200"), Some(WelcomeBody(baseUrl, username)), None));
  }

  // ---------------------------------------------------------------------------
  // The Lambda entry point.

  datatype HandlerError =
    | NoQueryString                    // KeyError: the event has no queryStringParameters
    | CallbackFailed(error: CallbackError)

  /** `handler`: the query string must be present whatever the path; `/auth`
      and `/callback` are routed, any other path answers 200. */
  method Handler(
    path: string,
    query: Option<QueryParameters>,
    flow: TokenExchange,
    table: Table,
    baseUrl: string,
    authorizationUrl: AuthorizationRequest -> string)
    returns (r: Result<Response, HandlerError>)
    requires table.Valid()
    modifies if query.Some? then {query.value} else {}, flow`requests, table`items
    ensures table.Valid()
    ensures query.None? ==>
      r == Failure(NoQueryString) && flow.requests == old(flow.requests) && table.items == old(table.items)
    ensures query.Some? && path == "/auth" ==>
      r == Success(StartAuth(old(query.value.entries), authorizationUrl)) &&
      query.value.entries == old(query.value.entries) &&
      flow.requests == old(flow.requests) && table.items == old(table.items)
    ensures query.Some? && path == "/callback" ==>
      var run := CallbackSpec(old(query.value.entries), old(table.items), flow.grant, baseUrl);
      r == (if run.outcome.Success? then Success(run.outcome.value) else Failure(CallbackFailed(run.outcome.error))) &&
      table.items == run.items &&
      flow.requests == old(flow.requests) + (if run.exchanged.Some? then [run.exchanged.value] else []) &&
      query.value.entries == old(query.value.entries) - {"state"}
    ensures query.Some? && path != "/auth" && path != "/callback" ==>
      r == Success(Response(Status(200), Some("200 OK"), None)) &&
      query.value.entries == old(query.value.entries) &&
      flow.requests == old(flow.requests) && table.items == old(table.items)
  {
    if query.None? {
      return Failure(NoQueryString);
    }
    var params := query.value;
    if path == "/auth" {
      r := Success(StartAuth(params.entries, authorizationUrl));
    } else if path == "/callback" {
      var outcome := Callback(params, flow, table, baseUrl);
      r := if outcome.Success? then Success(outcome.value) else Failure(CallbackFailed(outcome.error));
    } else {
      r := Success(Response(Status(200), Some("200 OK"), None));
    }
  }
}
