# gitlab-due-sync, modelled in Dafny

gitlab-due-sync is a pair of AWS Lambda handlers. They mirror the due dates of
GitLab issues into each assignee's Google Calendar.

- The webhook handler (`src/handler_main.py`) turns a GitLab issue webhook into
  calendar calls. It maps the issue to an all-day event body. Open issues use
  their due date. Closed issues use the UTC+9 date of their close time and get
  colour "8". It then walks the assignees in payload order. Each assignee's
  linkage comes through a read-through cache over a DynamoDB table. The walk
  stops at the first assignee who is not linked. "open" inserts the event.
  "reopen", "update" and "close" update it and fall back to an insert when the
  update fails.
- The OAuth handler (`src/handler_auth.py`) links a GitLab user to a calendar.
  `/auth` validates `username` and `calendarId`. It packs them into the OAuth
  `state` as base64url of the UTF-8 of `json.dumps`, and redirects to
  Google's consent page. `/callback` unpacks the state and exchanges the
  authorization code. It then upserts `{username, calendar_id, credentials}`
  and shows the webhook endpoint URL.

The project has these modules:

| file | module | what it holds |
|---|---|---|
| wrappers.dfy | Wrappers | `Option` and `Result` |
| bytes.dfy | Bytes | the byte type |
| decimal.dfy | Decimal | `str(int)` and zero-padded date fields |
| civil_date.dfy | CivilDate | Gregorian dates, the GitLab timestamp form, the UTC+9 date |
| event_mapper.dfy | EventMapper | `create_calendar_body` |
| credential_store.dfy | CredentialStore | the DynamoDB table as a class over a map |
| sync_handler.dfy | SyncHandler | `get_user`, `do`, `handler` of the webhook Lambda |
| utf8.dfy | Utf8 | `str.encode()` and strict `bytes.decode()` |
| base64.dfy | Base64 | `urlsafe_b64encode` and Python 3.9's lenient `urlsafe_b64decode` |
| json.dfy | Json | `json.dumps` of a string dictionary, and `json.loads` |
| auth_handler.dfy | AuthHandler | `start_auth`, `callback`, `handler` of the OAuth Lambda |

The stores and services are modelled as follows.

- The DynamoDB table is a `map` from username to linkage, held by a class.
- `creds_cache` is a class whose `map` field the lookup updates.
- The calendar service is the trace of `Insert` and `Update` calls made to it.
  Whether an update succeeds is an oracle indexed by the assignee's position.
- `Flow.authorization_url` is a function parameter. `fetch_token` is a class
  that records each request and takes its answer from an oracle.

Each Python exception that escapes a handler becomes a `Failure` value.

## Model

| member | source | states |
|---|---|---|
| Decimal.NatToString | src/handler_main.py:79 | `str(n)` is the shortest digit string denoting `n`; it starts with '0' only for 0 |
| Decimal.IntToString | src/handler_main.py:79 | `str(i)` starts with '-' exactly when `i` is negative, followed by the digits of its magnitude |
| Decimal.Padded | src/handler_main.py:60 | a date field is exactly `width` digits and denotes its value |
| CivilDate.NextDayIsNextOrdinal | src/handler_main.py:60 | the next calendar day rolls over month and year ends and has the next day number; it is missing only after 9999-12-31 |
| CivilDate.DateInUtcPlus9Correct | src/handler_main.py:60 | the UTC+9 date is the UTC date, or the next day exactly when the UTC hour is 15 or later; it is the day holding the instant nine hours later; it fails with ValueError exactly on 0001-01-01, whose local-offset probe falls in year 0, and with OverflowError exactly for the last nine hours of 9999-12-31 |
| CivilDate.OrdinalInjective | src/handler_main.py:60 | two valid dates with the same day number are the same date |
| CivilDate.ParseTimestamp | src/handler_main.py:59 | every time the parser accepts is a valid date and time |
| CivilDate.TimestampReadsBack | src/handler_main.py:59 | every valid time written as `YYYY-MM-DD HH:MM:SS UTC` parses back to itself |
| CivilDate.ParsedIsCanonical | src/handler_main.py:59 | the parser accepts only the canonical text of the time it returns |
| CivilDate.IsoDateReadsBack | src/handler_main.py:60 | `date.isoformat()` text reads back as the same date |
| EventMapper.ClosedDate | src/handler_main.py:54-60 | a missing, null or empty `closed_at` fails; a successful result is a 10-character date |
| EventMapper.CreateCalendarBody | src/handler_main.py:45-85 | a missing `due_date` key fails; an open issue's event date is its `due_date` unchanged, and there is no event exactly when it is null or empty; a closed issue gets an event or fails, never a skip; start equals end; id, description, source and `#iid: title` summary are copied; colour "8" exactly when closed |
| EventMapper.ClosedIssueDate | src/handler_main.py:54-60 | a closed issue's event falls on the UTC+9 date of `closed_at`: the next day exactly when the hour is 15 or later; its due date plays no part |
| EventMapper.ClosedAtRangeEdgesFail | src/handler_main.py:59-60 | a closed issue whose `closed_at` is on 0001-01-01 or in the last nine hours of 9999-12-31 makes the mapper fail with the conversion's error |
| EventMapper.ClosedWithoutTimestampFails | src/handler_main.py:54-59 | a closed issue with a missing, null or empty `closed_at` makes the mapper fail instead of skipping |
| CredentialStore.Get | src/handler_main.py:26-31 | `get_item(...).get("Item")` finds the item exactly when the username is a key |
| CredentialStore.Table.GetItem | src/handler_main.py:26-31 | a read returns the item under that username, records the read and changes no item |
| CredentialStore.Table.PutItem | src/handler_auth.py:82-88 | an upsert replaces the item under its username and leaves every other username's item alone |
| SyncHandler.LookupIsStable | src/handler_main.py:17-38 | a lookup never changes what another lookup returns, and a cached user is returned whatever the store later holds |
| SyncHandler.CredentialCache.GetUser | src/handler_main.py:17-38 | a cache hit returns the cached entry with no store read and leaves the cache alone; a store miss returns nothing and caches nothing; a store hit caches exactly that username |
| SyncHandler.CallsFor | src/handler_main.py:142-148 | "open" is one insert; "reopen", "update" or "close" is an update, then an insert exactly when the update failed; any other action makes no call |
| SyncHandler.Sync | src/handler_main.py:103-132 | a non-issue event, an empty assignee list or an issue with no event changes nothing; a mapper exception escapes |
| SyncHandler.ConfiguredRun | src/handler_main.py:134-138 | the run counts the linked assignees before the first unlinked one |
| SyncHandler.AssigneeLoopMakesPlannedCalls | src/handler_main.py:134-148 | the loop makes the calls of the linked assignees in payload order up to the first unlinked one |
| SyncHandler.DeliveryCalls | src/handler_main.py:103-148 | a delivery's calls are those of the leading linked assignees, in payload order, or none when the delivery is filtered out |
| SyncHandler.UnconfiguredFirstAssigneeStopsAll | src/handler_main.py:134-138 | when the first assignee is not linked, no call is made for anyone |
| SyncHandler.CallsForCounts | src/handler_main.py:142-148 | per assignee, "open" inserts once and never updates; an update action updates once and inserts only after a failed update |
| SyncHandler.PlannedCallCounts | src/handler_main.py:142-148 | over n linked assignees, "open" makes n inserts and no update; an update action makes n updates and one insert per failed update; any other action makes no call |
| SyncHandler.OpenedIssueExample | src/handler_main.py:103-148 | an opened issue assigned to one linked user gives one insert with the due date, `#iid: title` and no colour |
| SyncHandler.Calendar.Insert | src/handler_main.py:88-92 | an insert appends one insert call to the trace |
| SyncHandler.Calendar.Update | src/handler_main.py:95-100 | an update appends one update call, keyed by the event id, and reports the service's answer |
| SyncHandler.Dispatch | src/handler_main.py:142-148 | one linked assignee's calls are appended to the trace |
| SyncHandler.VisitOne | src/handler_main.py:135-148 | one loop turn resolves the assignee and, when linked, makes its calls |
| SyncHandler.VisitAssignees | src/handler_main.py:134-148 | the loop leaves the cache, the trace and the store reads exactly as the loop specification says |
| SyncHandler.Do | src/handler_main.py:103-150 | `do` changes the cache, trace and reads exactly as `Sync` says, and changes nothing when the mapper fails |
| SyncHandler.Handler | src/handler_main.py:153-158 | the status is 200 whenever `do` returns; it fails exactly when the mapper fails, and then changes nothing; otherwise the cache, trace and reads change exactly as `Sync` says |
| Utf8.EncodeChar | src/handler_auth.py:47 | each character is 1 to 4 bytes, one byte exactly for ASCII |
| Utf8.DecodeEncode | src/handler_auth.py:66 | decoding the UTF-8 of any string gives the string back |
| Utf8.EncodeDecode | src/handler_auth.py:66 | strict decoding accepts only bytes that are the UTF-8 of what they decode to |
| Utf8.DecodedCharIsShortest | src/handler_auth.py:66 | every accepted sequence is the shortest encoding of its character |
| Base64.StdValue | src/handler_auth.py:66 | a character's value in the alphabet is below 64 and encodes back to it |
| Base64.StdEncode | src/handler_auth.py:47 | the encoding is 4 characters per 3 bytes, padded |
| Base64.Decode | src/handler_auth.py:66 | decoding a `str` fails with ValueError exactly when it is not ASCII |
| Base64.DecodeStdEncode | src/handler_auth.py:66 | whole groups decode back and let decoding continue; a padded group ends it |
| Base64.DecodeEncode | src/handler_auth.py:66 | `urlsafe_b64decode(urlsafe_b64encode(b)) == b`, also with non-alphabet ASCII appended |
| Base64.EncodeIsUrlSafe | src/handler_auth.py:47 | the token uses only `A-Z a-z 0-9 - _ =` |
| Json.Hex4Value4 | src/handler_auth.py:47 | a `\uXXXX` escape's four hex digits read back as the code unit written |
| Json.EscapeIsAscii | src/handler_auth.py:47 | with `ensure_ascii` a written string holds printable ASCII only |
| Json.SkipWhitespace | src/handler_auth.py:66 | whitespace skipping removes exactly a leading run of space, tab, newline and carriage return |
| Json.ScanQuoted | src/handler_auth.py:66 | the scanner reads back every escaped string, then stops at the closing quote |
| Json.Lookup | src/handler_auth.py:68-69 | a key is found exactly when an object member has it, and the last such member's value wins |
| Json.LoadsDumpObject | src/handler_auth.py:66 | `json.loads(json.dumps(d))` gives back the members of a string dictionary in order |
| AuthHandler.TrimTrailingSlash | src/handler_auth.py:10 | `removesuffix("/")` drops exactly one trailing slash when there is one |
| AuthHandler.DecodeState | src/handler_auth.py:66-69 | a non-ASCII state is ValueError, bad base64 binascii.Error, bad UTF-8 UnicodeDecodeError, bad JSON JSONDecodeError, a non-object TypeError; decoding succeeds exactly when the JSON object has string `username` and `calendar_id`, and returns those two strings |
| AuthHandler.StateRoundTrip | src/handler_auth.py:43-69 | the callback reads back exactly the username and calendar id that `/auth` packed |
| AuthHandler.AppendedJunkAccepted | src/handler_auth.py:66 | a state with non-alphabet ASCII appended still decodes to the same pair |
| AuthHandler.StateTokenIsUrlSafe | src/handler_auth.py:47-56 | the state handed to the consent URL is URL-safe |
| AuthHandler.StartAuth | src/handler_auth.py:27-62 | a missing or empty username is a 400 "missing username", checked first; then a missing or empty calendarId is a 400 "missing calendarId"; else a 302 to the consent URL for that state with "offline" access |
| AuthHandler.RedirectCarriesIdentity | src/handler_auth.py:43-62 | every redirect carries a state that decodes to the request's username and calendar id |
| AuthHandler.CallbackSpec | src/handler_auth.py:64-93 | the token exchange happens exactly when the state decodes, and gets the parameters without `state`; the store changes only on success, by one upsert under the decoded username; the body names the trimmed base URL and `/users/<username>` |
| AuthHandler.ConsentLinksRequestedCalendar | src/handler_auth.py:64-93 | completing the consent started by `/auth` stores that calendar under that user and no other user's linkage changes |
| AuthHandler.QueryParameters.Pop | src/handler_auth.py:65 | `pop` returns and removes the key, or fails with KeyError and changes nothing |
| AuthHandler.TokenExchange.FetchToken | src/handler_auth.py:71-80 | each exchange is recorded and answered by the token endpoint |
| AuthHandler.Callback | src/handler_auth.py:64-93 | `callback` removes `state`, makes the exchange and the store write exactly as `CallbackSpec` says, and returns its outcome |
| AuthHandler.Handler | src/handler_auth.py:95-111 | a missing query string fails before routing; `/auth` and `/callback` are routed, `/callback` removing `state` and changing the token-request trace and the store exactly as `CallbackSpec` says; any other path is 200 "200 OK" with nothing changed |

## Where the code departs from its evident intent

The model follows the code in each case.

- A closed issue whose `closed_at` is missing, null or empty looks meant to
  be skipped. Lines 56-57 clear the date for it, and the "no due date. skip."
  path shows that an event without a date is skipped. The code fails instead. `closed_at` is subscripted at line 55, and
  line 59 calls `strptime` even after line 57 cleared the date.
  `EventMapper.ClosedWithoutTimestampFails` states this.
- A missing `due_date` key fails for every issue, closed or open, because line
  53 subscripts it first.
- A tampered state token looks meant to fail closed. The token has no integrity
  check, so any well-formed state is accepted. Python 3.9's base64 decoder also
  skips characters outside its alphabet. `AuthHandler.AppendedJunkAccepted`
  shows that a token with such characters appended decodes to the same pair.

## Left out

- boto3, the Google Calendar client and the OAuth library are not modelled.
  They appear as a map, a call trace and oracles.
- The JSON parse of the webhook body is left out. The payload is a parsed
  `Webhook` value.
- Logging, reading the environment, the Lambda event's `requestContext`,
  `sourceIp` and concurrency are left out. A cache shared across invocations
  is modelled only as the object passed in.
- The credentials built from a stored bundle are the stored bundle itself. The
  model does not construct Google `Credentials` objects.
- Exceptions from the store, from inserts and from the token endpoint's
  transport are left out. A failed exchange is a single `ExchangeFailed`
  outcome.
- `Flow.authorization_url` also stores a PKCE code verifier in the shared
  flow object. That state, and the URL's construction, are left out.
- CivilDate.ParseTimestamp: accepts only the exact form `YYYY-MM-DD HH:MM:SS UTC`. `strptime` also accepts shorter digit fields, other `%Z` names, any letter case (it compiles its pattern with IGNORECASE, so "utc" is read), and any run of whitespace where the format has a space. GitLab sends none of these.
- The host's time zone is taken to be UTC, as on Lambda. `strptime` with `%Z`
  gives a naive time that `astimezone` reads in the host zone, probing the
  host's offset one day earlier.
- AuthHandler.DecodeState: a username or calendar id that is not a JSON string is refused. The source would store a non-string `calendar_id`, and DynamoDB refuses a non-string username.
- An empty username in the state is accepted by the model. DynamoDB would
  refuse the empty key at `put_item`.
- Json.ScanQuoted: covers strings without lone surrogates only. A `\uXXXX`
  lone surrogate is not a Dafny `char`, so the model's `json.loads` fails on it.
- The JSON parser has no nesting limit. CPython raises RecursionError on very
  deep nesting.
- The JSON number rule refuses integers of more than 4300 digits. This is
  CPython's default limit from 3.9.14 on.
- Missing keys of the webhook payload other than `due_date` and `closed_at`
  are left out. `id`, `iid`, `title`, `url`, `description` and `state` are
  taken as present. A `null` assignee list is likewise taken as a list.
