# CookAPI HTTP component, modelled in Dafny

This project models the core of the CookAPI HTTP component, a small PHP library:

- the **parameter bag**, an ordered key/value array;
- its typed views:
  - the **validated view** (`Method`), used for the query string and the body;
  - the **cookie jar**;
  - the **upload view** (`File`);
  - the **server view**: environment keys, client IP behind a trusted proxy, protocol and header names;
- the **request**, which bundles the five views;
- the **response**: content, status, headers, and what sending writes;
- the **exception handler**, which turns any failure into a JSON response with status 400, 404 or 500;
- the **middleware stack**, an onion of middleware around a terminal 404 handler.

Every operation is a pure function over immutable values. The one exception is the middleware stack's `handle`, a method that reproduces the source's pop-from-the-back loop. The source's objects are mutable and shared; what that sharing allows and the values here cannot express is listed under "Left out". PHP arrays become an ordered association list with distinct keys (`Parameters.Bag`). `Parameters.ToMap` gives the unordered meaning that most contracts use. A thrown exception becomes the `Err` of an `Outcome`. The failure records its class name, its family (bad request, not found, or anything else), its code and its message.

Nothing is executed: the only evidence is the Dafny verifier.

Files, one module each:

| file | module | models |
|---|---|---|
| wrappers.dfy | Wrappers | `Option`, `Result` |
| php.dfy | Php | PHP values and the string built-ins the core uses: `trim`, `strtolower`, `strtoupper`, `str_replace` of one character, `basename`, `pathinfo` extension, integer to string |
| failures.dfy | Failures | exception classes and their families |
| parameters.dfy | Parameters | `src/Parameter.php` |
| methods.dfy | Methods | `src/Method.php` |
| percent.dfy | Percent | `rawurlencode` over UTF-8, and its decoder |
| cookies.dfy | Cookies | `src/Cookie.php` |
| files.dfy | Files | `src/File.php` |
| servers.dfy | Servers | `src/Server.php` |
| responses.dfy | Responses | `src/Response.php` |
| requests.dfy | Requests | `src/Request.php` |
| json.dfy | Json | the `json_encode` text of the error body, and a reader for it |
| exception_handler.dfy | ExceptionHandler | `src/Exception/ExceptionHandler.php` |
| middleware_stack.dfy | MiddlewareStack | `src/MiddlewareStack.php`, `src/MiddlewareInterface.php` |

Parameters in place of the environment:

- **Clock.** The value of `time()` is the `now` argument.
- **Transport.** Every `setcookie` call is a returned `Cookies.Directive`. What `send` would write is a list of `Responses.Emission`. `headers_sent()` is the `headersSent` argument.
- **Filesystem.** What it would answer (`is_dir`, `mkdir`, `is_writable`, `file_exists`, `rename`) is a `Files.FsFacts` record. The calls made come back as `Files.FsOp`s.
- **Superglobals.** `File::isValid`/`move` and `Server::getHeader` read `$_FILES` and `$_SERVER`, not their own bag. These arrays are explicit arguments.
- **IP validation.** `filter_var(..., FILTER_VALIDATE_IP)` is the `validIp` predicate argument.
- **Middleware.** Each middleware is a function from the request it receives to a `MiddlewareStack.Decision`. It can answer, throw, or call `$next` once with some request and then turn what came back into its result.

## Model

| member | source | states |
|---|---|---|
| Parameters.New | src/Parameter.php:17-20 | constructing from an array with distinct keys gives a bag that holds exactly those keys |
| Parameters.Set | src/Parameter.php:29-34 | afterwards the key maps to the value and every other key keeps its value; a new key goes at the end, an existing key keeps its position |
| Parameters.Has | src/Parameter.php:54-57 | true exactly when the key is stored, including a key stored with null |
| Parameters.Get | src/Parameter.php:43-46 | the stored value when the key exists, null included; the default otherwise |
| Parameters.Remove | src/Parameter.php:64-67 | exactly that key is gone, the other keys keep their values and order, and an absent key changes nothing |
| Parameters.Count | src/Parameter.php:84-87 | the number of distinct keys stored |
| Parameters.All | src/Parameter.php:74-77 | lists every stored key with its stored value, each key once, and nothing else |
| Parameters.SetThenGet | src/Parameter.php:29-46 | a value just set is read back; reads and presence of other keys are unaffected |
| Parameters.SetCount | src/Parameter.php:29-34 | setting a new key adds one to the count; overwriting leaves the count the same |
| Parameters.RemoveThenHas | src/Parameter.php:54-67 | after removal the key is absent and reads as the default; other keys read as before; removing an absent key is the identity |
| Parameters.StoredNullIsReturned | src/Parameter.php:43-46 | a key stored with null is present and reads as null, not as the default |
| Parameters.ConstructThenAll | src/Parameter.php:74-77 | `all` returns the constructor's array unchanged, and each of its entries reads back |
| Methods.Validate | src/Method.php:59-72 | passes exactly null, scalars, arrays and Stringable objects; otherwise a BadRequestException whose message names the key when there is one, else the method and the value's type |
| Methods.Set | src/Method.php:24-30 | succeeds exactly for an acceptable value; the key then maps to the value, other keys keep their values, a new key goes last and an existing one keeps its place; otherwise a BadRequestException and nothing stored |
| Methods.Get | src/Method.php:41-48 | an invalid default raises before the lookup; otherwise the stored or default value, raising when the stored value is invalid |
| Methods.SetThenGet | src/Method.php:24-48 | an accepted value is read back unchanged whatever valid default is given |
| Methods.RejectedSetStoresNothing | src/Method.php:24-30 | an unacceptable value makes set raise a bad-request failure |
| Methods.ArrayElementsNotInspected | src/Method.php:61 | an array is accepted even when it holds a non-Stringable object |
| Methods.ConstructorBypassCaughtByGet | src/Method.php:41-48 | an invalid value stored by the constructor is rejected only when read, with the message naming its key |
| Methods.InvalidDefaultRaisesEvenWhenPresent | src/Method.php:43 | an invalid default raises even when the key holds a valid value |
| Percent.RawUrlRoundTrip | src/Cookie.php:45 | decoding the percent-encoding of a string gives back its UTF-8 bytes, and the encoding is well formed |
| Percent.DecodeEncode | src/Cookie.php:45 | percent-decoding inverts percent-encoding for every byte sequence |
| Percent.UnreservedUnchanged | src/Cookie.php:45 | letters, digits and `-_.~` are left as they are |
| Cookies.Set | src/Cookie.php:31-66 | raises InvalidArgumentException for a non-scalar value (the only failure modelled); otherwise it records the encoded value (which decodes back to the value's UTF-8), the expiry `now + expire` and every attribute, changes no other record, and emits the matching Set-Cookie |
| Cookies.Delete | src/Cookie.php:74-87 | a known cookie is forgotten and re-sent empty, expiring an hour before `now`, with its recorded attributes; an unknown name changes nothing and emits nothing |
| Cookies.SetTwiceLastWins | src/Cookie.php:46-54 | the second set of a name replaces the first record; other names are untouched |
| Cookies.SetThenDelete | src/Cookie.php:74-87 | deleting right after setting expires the cookie in the past with the attributes given at set time, and forgets it |
| Cookies.DefaultsAreSecure | src/Cookie.php:31-40 | by default a cookie is Secure, HttpOnly, SameSite=Strict, path `/`, no domain, and expiring at `now` (no lifetime added) |
| Cookies.NonScalarRejected | src/Cookie.php:41-43 | arrays and null are rejected |
| Cookies.IntegerValueIsItsDigits | src/Cookie.php:45 | an integer is stored as its decimal digits |
| Cookies.DefaultLifetimeExpiresAtOnce | src/Cookie.php:34-57 | as written, the default lifetime 0 sends an expiry equal to the current time, while the intended reading sends 0, a session cookie |
| Cookies.IntendedExpiry | src/Cookie.php:23 | a lifetime of 0 means a session cookie, expiry 0; any other lifetime counts from `now` |
| Cookies.SetIntended | src/Cookie.php:31-66 | fails exactly when the as-written set fails; otherwise records and emits the same cookie, with the intended expiry |
| Cookies.SetIntendedKeepsAttributes | src/Cookie.php:41-63 | the intended set still stores the percent-encoded value and every attribute given, and expires a 0-lifetime cookie with the session |
| Files.ExtensionAllowed | src/File.php:43-46 | the lower-cased `pathinfo` extension of the declared name is one of jpg, png, gif, pdf, txt, zip |
| Files.IsValid | src/File.php:36-50 | the field is present, its extension is allowed, its size is at most 5 MiB and its error code is UPLOAD_ERR_OK |
| Files.UploadCases | src/File.php:36-50 | for any slash-free stem: a 1 KiB or exactly 5 MiB `.jpg` upload is valid; a 6 MiB one, an `.exe` one and one with a transfer error are not |
| Files.DottedExtension | src/File.php:43 | the extension of a slash-free name is the text after its last `.` |
| Files.Move | src/File.php:60-89 | an invalid upload gives false and no filesystem call; true only for a valid upload; every failure is a RuntimeException |
| Files.MoveTo | src/File.php:66-88 | after validation, the move either succeeds with true or raises a RuntimeException |
| Files.MoveFollowsChecks | src/File.php:70-88 | the outcome is the first failing check in source order (directory, temporary file, writability, rename); the directory is created only when missing, and the rename is tried only after the first three checks pass |
| Files.Verdict | src/File.php:70-88 | success exactly when every check passes |
| Files.VerdictIsFirstFailure | src/File.php:70-88 | when the checks before position i pass and check i fails, its exception is raised |
| Files.SuccessfulMoveRenamedLast | src/File.php:60-89 | a move that reports true had a valid upload, an existing temporary file and a writable directory, and its last filesystem call renamed the temporary file to the destination |
| Files.ExistingReadOnlyDirectory | src/File.php:80-82 | an existing read-only directory fails with "Target directory is not writable" and makes no filesystem call |
| Files.MissingFieldIsInvalid | src/File.php:38-40 | an absent field is invalid, and moving it gives false |
| Files.DestinationShape | src/File.php:67-68 | the directory ends in exactly one `/`, and the file part is the basename of the declared name, with no `/` |
| Files.TargetWithoutSlash | src/File.php:67 | a target without a trailing slash just gains one |
| Files.ExtensionIgnoresCase | src/File.php:43 | the extension check gives the same answer for a name and its lower-cased form |
| Servers.Set | src/Server.php:29-47 | stores exactly strings, arrays and null; the key then maps to the value, other keys keep their values, a new key goes last and an existing one keeps its place; anything else is a TypeError |
| Servers.StringOr | src/Server.php:54-67 | a missing or null entry gives the fallback, a string entry is returned as it is, anything else is a TypeError |
| Servers.RequestMethod | src/Server.php:54-57 | the stored method; "GET" when `REQUEST_METHOD` is absent or null; a TypeError exactly when it holds something other than a string |
| Servers.RequestUri | src/Server.php:64-67 | the stored URI; "/" when `REQUEST_URI` is absent or null; a TypeError exactly when it holds something other than a string |
| Servers.RequestDefaults | src/Server.php:54-67 | the method defaults to "GET" and the URI to "/"; stored values are returned |
| Servers.NullableEntry | src/Server.php:104-157 | the nullable getters return null exactly when the key is absent or null, and the string when one is stored; anything else is a TypeError |
| Servers.Host | src/Server.php:104-107 | null exactly when `HTTP_HOST` is absent or null, the stored string otherwise; any other value is a TypeError |
| Servers.ServerPort | src/Server.php:114-117 | null exactly when `SERVER_PORT` is absent or null, the stored string otherwise; any other value is a TypeError |
| Servers.UserAgent | src/Server.php:124-127 | null exactly when `HTTP_USER_AGENT` is absent or null, the stored string otherwise; any other value is a TypeError |
| Servers.Referer | src/Server.php:134-137 | null exactly when `HTTP_REFERER` is absent or null, the stored string otherwise; any other value is a TypeError |
| Servers.ScriptName | src/Server.php:144-147 | null exactly when `SCRIPT_NAME` is absent or null, the stored string otherwise; any other value is a TypeError |
| Servers.ServerAddress | src/Server.php:154-157 | null exactly when `SERVER_ADDR` is absent or null, the stored string otherwise; any other value is a TypeError |
| Servers.ClientIp | src/Server.php:74-87 | an untrusted peer's own address is returned as stored; behind the trusted proxy, the trimmed first forwarded address when it is valid, else the peer's address; a forwarded list that is not a string is a TypeError |
| Servers.UntrustedPeerIgnoresForwarded | src/Server.php:74-87 | a peer other than the trusted proxy cannot change the result through `X-Forwarded-For` |
| Servers.ClientIpIsPeerOrValid | src/Server.php:74-87 | a reported address is either a valid forwarded one or the peer's own |
| Servers.TrustedProxyForwardsFirst | src/Server.php:76-83 | behind 192.168.1.1, `" 203.0.113.7 , 10.0.0.1"` yields `203.0.113.7` |
| Servers.FirstForwarded | src/Server.php:78-79 | the chosen address holds no comma |
| Servers.TrustedPeerWithoutForwardedList | src/Server.php:77-78 | as written, a request from the trusted proxy without `X-Forwarded-For` fails, while the intended reading gives the proxy's address |
| Servers.ClientIpIntended | src/Server.php:74-87 | agrees with the as-written client IP whenever the forwarded list is a string, and otherwise returns the peer's address |
| Servers.ClientIpIntendedFailsOnlyOnPeer | src/Server.php:74-87 | the intended client IP fails only when the peer address is neither null nor a string, and otherwise reports the peer or a valid forwarded address |
| Servers.Protocol | src/Server.php:94-97 | the protocol is "https" or "http" |
| Servers.ProtocolFollowsHttps | src/Server.php:94-97 | "https" exactly when `HTTPS` is non-empty and not the string "off" |
| Servers.ProtocolCases | src/Server.php:94-97 | "on" and "1" give https; absent, "", "0" and "off" give http |
| Servers.DefaultHeaders | src/Server.php:164-170 | exactly two headers: `Content-Type: text/html` and `Cache-Control: no-cache, no-store, must-revalidate` |
| Servers.Headers | src/Server.php:177-188 | the reported headers always include `Content-Type` and `Cache-Control` |
| Servers.HeadersMeaning | src/Server.php:164-188 | a reported name is a default header name or the header name of some `HTTP_*` key; the last such key wins; otherwise the default value remains |
| Servers.OverlayMeaning | src/Server.php:180-185 | each `HTTP_*` entry, in order, overwrites the header of its canonical name |
| Servers.NoHttpEntriesGivesDefaults | src/Server.php:177-188 | with no `HTTP_*` key the headers are exactly the defaults |
| Servers.Header | src/Server.php:196-200 | looks up `HTTP_` followed by the name upper-cased with dashes as underscores; null when that key is absent |
| Servers.HeaderKey | src/Server.php:198 | the looked-up key starts with `HTTP_` and is five characters longer than the name |
| Servers.HeaderKeyIgnoresCase | src/Server.php:198 | the looked-up key is the same for a name and its lower- or upper-cased form |
| Servers.HeaderNameRoundTrip | src/Server.php:182 | for an upper-case, underscore key suffix, the name that `getHeaders` reports leads `getHeader` back to the same key |
| Servers.ReportedNameIsFound | src/Server.php:182-199 | a header reported under its canonical name is found by `getHeader` under that name |
| Servers.HeaderNameExample | src/Server.php:182 | `CONTENT_TYPE` is reported as `Content-Type` |
| Servers.HeaderKeyExample | src/Server.php:198 | `content-type` is looked up as `HTTP_CONTENT_TYPE` |
| Servers.MissingHeaderIsNull | src/Server.php:199 | a header missing from the environment reads as null |
| Responses.Create | src/Response.php:30-35 | the response holds exactly the given content, status and headers |
| Responses.AddHeader | src/Response.php:90-95 | the name now maps to the value, other headers are unchanged, and content and status are untouched |
| Responses.GetHeader | src/Response.php:124-127 | the stored value when the name is present, null otherwise |
| Responses.SetContent | src/Response.php:43-48 | the content is replaced; status and headers stay as they were |
| Responses.SetStatusCode | src/Response.php:66-71 | the status is replaced; content and headers stay as they were |
| Responses.SendHeaders | src/Response.php:103-116 | nothing once headers were sent; otherwise one line per stored header followed by the status, and never the body |
| Responses.SendContent | src/Response.php:134-139 | writes the content, once |
| Responses.Send | src/Response.php:146-151 | the body is written exactly once, last; when headers were already sent it is all that is written |
| Responses.EmptyDefaults | src/Response.php:30 | a new response has empty content, status 200 and no header |
| Responses.AddThenGet | src/Response.php:90-127 | a header just added reads back, and the last write wins; other names read as before |
| Responses.SettersAreIndependent | src/Response.php:43-71 | each setter changes its own field only |
| Responses.SendShape | src/Response.php:103-151 | with headers not yet sent, `send` emits one header line per stored header, each carrying the status code, then the status, then the body |
| Responses.EveryHeaderIsSent | src/Response.php:109-111 | every stored header is emitted with its stored value |
| Responses.OnlyStoredHeadersAreSent | src/Response.php:109-111 | every emitted header line is a stored header with its stored value |
| Responses.HeadersAlreadySent | src/Response.php:105-107 | once headers were sent, only the body is written |
| Responses.AddTwiceSendsOnce | src/Response.php:90-111 | a header added twice is emitted once, with the later value |
| Requests.Create | src/Request.php:41-53 | body parameters are the first argument and query parameters the second; every getter returns what was given |
| Requests.FromGlobals | src/Request.php:60-63 | the query view holds `$_GET`, the body view `$_POST`, and the cookie, upload and server views their superglobals |
| Requests.GetQuery | src/Request.php:70-73 | every stored query parameter once, with its value, and nothing else |
| Requests.GetPost | src/Request.php:82-85 | every stored body parameter once, with its value, and nothing else |
| Requests.GetCookie | src/Request.php:92-95 | every stored cookie once, with its value, and nothing else |
| Requests.GetFile | src/Request.php:103-106 | every stored upload entry once, with its value, and nothing else |
| Requests.GetServer | src/Request.php:114-117 | every stored server entry once, with its value, and nothing else |
| Requests.FromGlobalsRoutesSuperglobals | src/Request.php:60-117 | the factory routes `$_GET` to the query view and `$_POST` to the body view, despite the constructor's argument order |
| Requests.CreatedParameterIsReadable | src/Request.php:41-53 | a valid query or body parameter given at creation is read back through the validated view |
| Requests.UnknownParameterIsNull | src/Request.php:48 | an unknown query parameter reads as null |
| Requests.RequestUri | src/Request.php:125-128 | the URI is the server view's, defaulting to "/" |
| Requests.RequestUriDefault | src/Request.php:125-128 | with no `REQUEST_URI` the URI is "/"; a stored URI is returned |
| Json.EscapeChar | src/Exception/ExceptionHandler.php:54-60 | a character is written as itself or as an escape starting with a backslash |
| Json.ReadEscape | src/Exception/ExceptionHandler.php:54-60 | reading an escaped string up to its closing quote gives back the string and what follows |
| Json.ErrorBodyRoundTrip | src/Exception/ExceptionHandler.php:52-61 | the error body reads back as the code, class name and message it was made from |
| Json.ErrorBodyInjective | src/Exception/ExceptionHandler.php:52-61 | different failures give different bodies |
| Json.PlainUnchanged | src/Exception/ExceptionHandler.php:60 | characters that need no escape, including non-ASCII ones, are written unchanged |
| Json.EscapeHasNoBareQuote | src/Exception/ExceptionHandler.php:54-60 | every quote in an escaped string is preceded by a backslash |
| ExceptionHandler.StatusCode | src/Exception/ExceptionHandler.php:36-43 | 400 exactly for the bad-request family, 404 exactly for not-found, 500 exactly for everything else |
| ExceptionHandler.ErrorMessage | src/Exception/ExceptionHandler.php:52-61 | the body parses back to the failure's code, class name and message |
| ExceptionHandler.Handle | src/Exception/ExceptionHandler.php:22-28 | the response has the family's status, a body that identifies the failure, and exactly one header, `Content-Type: application/json` |
| ExceptionHandler.StatusIgnoresCodeAndMessage | src/Exception/ExceptionHandler.php:36-43 | the status depends only on the family |
| ExceptionHandler.StatusIsAnError | src/Exception/ExceptionHandler.php:36-43 | every status is a 4xx or 5xx code |
| ExceptionHandler.ResponseIdentifiesFailure | src/Exception/ExceptionHandler.php:22-61 | two failures with the same body have the same code, class and message, and the response announces JSON |
| ExceptionHandler.KnownFailures | src/Exception/ExceptionHandler.php:36-43 | BadRequestException gives 400 and NotFoundException 404; RuntimeException, InvalidArgumentException and TypeError give 500 |
| MiddlewareStack.AddMiddleware | src/MiddlewareStack.php:28-32 | the middleware goes at the back of the queue, and the earlier ones keep their places |
| MiddlewareStack.Handle | src/MiddlewareStack.php:40-54 | building by popping from the back gives the front-to-back chain, so the first middleware added is entered first; an empty stack answers 404 "No middleware processed the request" |
| MiddlewareStack.Unhandled | src/MiddlewareStack.php:44-46 | the terminal answer is 404 with "No middleware processed the request" and no header |
| MiddlewareStack.OnionOrder | src/MiddlewareStack.php:48-53 | when every middleware delegates, they are entered in the order added, the terminal handler runs once, and they are left in reverse order |
| MiddlewareStack.ShortCircuit | src/MiddlewareStack.php:48-53 | a middleware that answers or throws without calling `$next` hides every later one: the result is that of the stack cut after it, and the terminal handler never runs |
| MiddlewareStack.EmptyStackAnswers404 | src/MiddlewareStack.php:44-46 | an empty stack answers 404 for every request |
| MiddlewareStack.AppendersReverse | src/MiddlewareStack.php:48-53 | with appending middleware, the terminal text comes first and the tags follow from the last added to the first |
| MiddlewareStack.TwoAppenders | src/MiddlewareStack.php:40-54 | two appenders give "No middleware processed the requestMiddleware2 Middleware1 " |
| MiddlewareStack.StopsPropagation | src/MiddlewareStack.php:40-54 | a first middleware answering "Final response" stops propagation; only it is entered |
| MiddlewareStack.Translate | src/Exception/ExceptionHandler.php:22-28 | an example middleware built on `ExceptionHandler::handle`, not part of the component: it turns every failure from later middleware into the handler's response and passes responses through unchanged |
| MiddlewareStack.TranslatorCatchesEverything | src/MiddlewareStack.php:48-53 | a stack headed by that middleware never throws, whatever later middleware do |
| MiddlewareStack.ThrownBehindTranslator | src/MiddlewareStack.php:48-53 | a failure thrown behind it comes back as the exception handler's response; a bad request comes back as a 400 |

## Left out

- `src/Session.php` is not part of this model.
- `File::getMetadata` is left out. It reads a static array that nothing in the component writes, so it always returns null.
- The exact wording of the engine's `TypeError` messages is not modelled. Only the class and the family are.
- PHP turns numeric-string array keys into integer keys. Keys here are always strings.
- Integers are unbounded. PHP's overflow to float is not modelled.
- Floats are carried as their decimal text. Float arithmetic and float-to-string conversion are not modelled.
- `json_encode` can fail with `JsonException` on invalid UTF-8. Dafny strings cannot hold invalid UTF-8, so that failure cannot happen here. The body is modelled at the character level for the value types the handler writes: an integer code and two strings.
- The IP-address check is a parameter, not a model of `filter_var`.
- The filesystem and the transport are parameters, so nothing is modelled about concurrent changes to them.
- `mkdir`'s mode and its recursive creation of parent directories are not modelled. `Files.FsFacts` only answers whether creation succeeded.
- Responses.Create: header values are strings. An array holding a non-string value would fail later, in `getHeader` or `sprintf`, and that is not modelled.
- MiddlewareStack.Handle: a middleware calls `$next` at most once. A middleware that calls it twice or more, or keeps it for later, is not modelled. A middleware returning something that is not a `Response` is not modelled either.
- MiddlewareStack.Handle: the request is a value here. In the source it is one mutable object, passed down the chain (src/MiddlewareStack.php:50), whose views are public (src/Request.php:16-36). A change an inner middleware makes to it, such as `$request->query->set(...)`, is seen by the outer middleware after `$next` returns. In the model, what a middleware does with the inner result depends only on that result. Middleware objects that keep state from one request to the next are not modelled either.
- Cookies.Set: PHP's `setcookie` (src/Cookie.php:56) raises a `ValueError` for some arguments: an empty name, a name holding `=,; \t\r\n\v\f`, a path or domain holding `,; \t\r\n\v\f`, or an expiry after the year 9999. The model does not check these arguments. It returns success for them, while the source raises after already storing the record (src/Cookie.php:46-54).
- Cookies.Delete: the same `setcookie` check applies to the name at src/Cookie.php:77. When it fails, the record is not removed, because the `unset` at line 85 is never reached. The model does not check the name.
- Files.IsValid: an upload's name is a string here. In a multi-file field (`name="docs[]"`), PHP gives the name as an array. `pathinfo` at src/File.php:43 then raises a `TypeError`, so `isValid` and `move` fail. That error is not modelled.
- Responses.SendShape: the comment above `sendHeaders` (src/Response.php:99) says Content-Type defaults to text/html. The code sets no such default, and the model follows the code: only stored headers are sent.
- Servers.Header: the header lookup reads the process-wide server array, not the view's own bag. That array is the explicit `env` argument. The two can differ after `set`.
- Superglobals that PHP fills (`$_GET`, `$_POST`, `$_COOKIE`, `$_FILES`, `$_SERVER`) are arguments to `Requests.FromGlobals`. How the engine fills them is not modelled.

## Findings

| source | as written | input that shows it | evidently intended | confidence | as-written member | corrected member |
|---|---|---|---|---|---|---|
| src/Server.php:77-78 | behind a trusted proxy, the forwarded list is passed to `explode` unchecked; under `strict_types` a missing one (null) raises a TypeError | `REMOTE_ADDR` = 192.168.1.1 and no `HTTP_X_FORWARDED_FOR` | fall back to the peer's address, as the method's docblock and the final `return $remoteAddr` suggest | medium, not executed | Servers.TrustedPeerWithoutForwardedList | Servers.ClientIpIntended |
| src/Cookie.php:48 | the expiry is `time() + $expire`, so the default `$expire = 0`, documented as a session cookie, gives an expiry of the current time and the browser drops the cookie at once | `set('id', 'x')` with the clock at 1700000000 sends expiry 1700000000 | expiry 0 (a session cookie) when `$expire` is 0 | medium, not executed | Cookies.DefaultLifetimeExpiresAtOnce | Cookies.SetIntended |
