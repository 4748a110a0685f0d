# Natter API: space creation and response handling, in Dafny

This project models the core of the Natter API server: the `POST /spaces`
route and what the server does around it.

The route (`SpaceController.createSpace`) checks the requested space name and
owner. It then allocates a space id from the `space_id_seq` sequence, inserts
`(id, name, owner)` into the `spaces` table in one transaction, and answers
201 with a `Location` header and a `{name, uri}` body.

The server set-up (`Main.main`) adds the rest:
- the `after` filter that marks route output as `application/json`;
- the `afterAfter` filters that add an empty `Server` header and `X-XSS-Protection: 0`;
- the fixed internal-server-error and not-found pages;
- the exception handlers: `IllegalArgumentException` and `JSONException` become 400 with `{"error": "<message>"}`, and `EmptyResultException` becomes 404.

Modules, leaves first:
- `Wrappers` (Wrappers.dfy): `Option` and `Result`.
- `Text` (Text.dfy): the UTF-16 length that Java's `String.length()` reports, and decimal rendering of ids with its inverse.
- `Pattern` (Pattern.dfy): whole-string language semantics for the regular-expression fragment the owner check uses, and the meaning of `[a-zA-Z][a-zA-Z0-9]{1,29}` in plain terms.
- `Exceptions` (Exceptions.dfy): the exception kinds that can leave a route.
- `SpaceController` (SpaceController.dfy): the store, the request, and `CreateSpace`.
- `Server` (Server.dfy): exception handling, filters, error pages, and `Handle`, which runs one request through all of them.

The database is abstract. The `spaces` table is a map from id to
`Space(name, owner)`, and the sequence is a counter `nextId`. `Store.Valid`
says the counter is ahead of every stored id; the route requires it and keeps
it. The transaction is one atomic step. A run of requests is therefore a
sequence of such steps (`CreateAll`).

The JSON library is not modelled. A request body is either unparseable, with
the library's exception message, or an object in which `name` and `owner`
were each looked up with `getString`. A lookup gives a string, or the
exception message for a field that is missing or not a string.

Framework behaviour the model relies on, in the order `Handle` applies it:
- the `after` filter runs only when the route (or route lookup) finishes without an exception;
- exception handlers change the response as it stood when the exception was thrown;
- a response whose body was never set gets status 404 and the registered not-found page (this covers unmatched routes and the `EmptyResultException` handler, which sets only the status);
- the `afterAfter` filters run last on every response.

`response.header` adds a header line rather than replacing one, so headers are
a sequence of lines and `ValuesOf` lists every value of a name.

What the code sets, and what it does not:
- The `after` filter sets the content type to `application/json`, without a charset.
- The only headers added to every response are an empty `Server` header and `X-XSS-Protection: 0`.
- The 400 body embeds the exception message as it is, without JSON escaping.
- The 404 for `EmptyResultException` carries the registered not-found page, because the handler sets no body.

## Model

| member | source | states |
|---|---|---|
| Text.Utf16Length | src/main/java/com/manning/apisecurityinaction/controller/SpaceController.java:21 | The length the name check compares with 255 counts UTF-16 code units. It lies between the character count and twice that, and equals the character count exactly when every character is in the Basic Multilingual Plane. |
| Text.DecimalRoundTrip | src/main/java/com/manning/apisecurityinaction/controller/SpaceController.java:42 | The decimal text of an id, as string concatenation renders it, reads back to that id. |
| Pattern.RepeatOfClass | src/main/java/com/manning/apisecurityinaction/controller/SpaceController.java:27 | A character class repeated `{lo,hi}` times matches a whole string exactly when the string has lo to hi characters and each one is in the class. |
| Pattern.OwnerPatternMeaning | src/main/java/com/manning/apisecurityinaction/controller/SpaceController.java:27-29 | The owner matches `[a-zA-Z][a-zA-Z0-9]{1,29}` as a whole string exactly when it has 2 to 30 characters, starts with an ASCII letter, and has only ASCII letters and digits after that (both directions). |
| SpaceController.SpaceUriRoundTrip | src/main/java/com/manning/apisecurityinaction/controller/SpaceController.java:41-46 | The `/spaces/<id>` URI given as Location and as `uri` names the space it was built from. |
| SpaceController.SpaceUriInjective | src/main/java/com/manning/apisecurityinaction/controller/SpaceController.java:42 | Different space ids give different Location values. |
| SpaceController.Insert | src/main/java/com/manning/apisecurityinaction/controller/SpaceController.java:31-39 | The transaction takes the sequence's next value, which is not yet in the table, adds exactly one row under it with the given name and owner, leaves every existing row as it was, and keeps the sequence ahead of all ids. |
| SpaceController.CreateSpace | src/main/java/com/manning/apisecurityinaction/controller/SpaceController.java:17-48 | Success happens exactly when both fields are strings, the name has at most 255 UTF-16 code units, and the owner satisfies the owner rule. Each failure is the one the first failing check raises: JSON error (body, then `name`), "space name is too long", JSON error (`owner`), then "Invalid username". So an over-long name wins over a bad or missing owner. A failure leaves the store unchanged. On success, the new id is the sequence value and was not in use, and the store gains exactly `(id, name, owner)`. The Location is `/spaces/` followed by the id's decimal digits, and the body has only `name` (the input) and `uri` (equal to Location), never the owner. |
| SpaceController.CreatedSpaceIsRetrievable | src/main/java/com/manning/apisecurityinaction/controller/SpaceController.java:37-46 | Looking up the id named by the returned URI finds the requested name and owner. |
| SpaceController.SuccessiveCreatesAreDistinct | src/main/java/com/manning/apisecurityinaction/controller/SpaceController.java:31-42 | Two creates in a row get different ids and different Locations, and the second leaves the first space in place. |
| SpaceController.CreateAll | src/main/java/com/manning/apisecurityinaction/controller/SpaceController.java:31-39 | Over any run of requests, exactly one id is handed out per accepted request. Ids come in strictly increasing order, each from the sequence range the run used, and each is stored. Rows present before the run are never changed. |
| SpaceController.CreateAllStoresEachAccepted | src/main/java/com/manning/apisecurityinaction/controller/SpaceController.java:31-39 | Over any run of requests, the k-th id handed out is stored with the name and owner of the k-th accepted request. |
| SpaceController.CreateAllAddsNoOtherRow | src/main/java/com/manning/apisecurityinaction/controller/SpaceController.java:31-39 | Every row in the store after a run was either there before the run or is stored under one of the ids the run handed out. A run adds no other row. |
| SpaceController.AllocatedIdsAreDistinct | src/main/java/com/manning/apisecurityinaction/controller/SpaceController.java:32-33 | No space id is handed out twice in a run of requests. |
| Server.BadRequestBodyRoundTrip | src/main/java/com/manning/apisecurityinaction/Main.java:63-67 | The 400 body is `{"error": "`, the message verbatim, then `"}`. Cutting off that frame gives back exactly the message. |
| Server.OnException | src/main/java/com/manning/apisecurityinaction/Main.java:40-48 | `IllegalArgumentException` and `JSONException` give 400 with a body carrying only the message. `EmptyResultException` gives 404 and sets no body. An exception without a handler gives 500 with the fixed internal-server-error body. Headers and content type are left alone. |
| Server.ErrorResponsesHideExceptionDetails | src/main/java/com/manning/apisecurityinaction/Main.java:40-46 | The two 400 handlers give identical responses for the same message, so the exception class never shows. The 500 response does not depend on the exception's message. |
| Server.AfterRoute | src/main/java/com/manning/apisecurityinaction/Main.java:33-35 | The `after` filter sets the content type to `application/json` and changes nothing else. |
| Server.Harden | src/main/java/com/manning/apisecurityinaction/Main.java:37-53 | The `afterAfter` filters add `Server: ""` and `X-XSS-Protection: 0` after the existing headers. Every other header, the status, the content type and the body are unchanged. |
| Server.FillUnsetBody | src/main/java/com/manning/apisecurityinaction/Main.java:42-43 | A response left without a body becomes 404 with the fixed `{"error":"not found"}` page, keeping its headers and content type. A response with a body is untouched. |
| Server.Handle | src/main/java/com/manning/apisecurityinaction/Main.java:31-53 | Every response has exactly one `Server` value, `""`, and one `X-XSS-Protection` value, `"0"`. The status is 201, 400 or 404. It is 201 exactly for `POST /spaces` with an acceptable body. A rejected `POST /spaces` is 400 with the framed message of the first check that failed. Any other status leaves the store unchanged and has no Location. A 400 has no content type set. A request to any other route gets the not-found page. A 201 is `application/json`, has one Location equal to the body's `uri`, which is `/spaces/` followed by the new id's decimal digits, has a body with exactly the keys `name` (the requested name) and `uri`, so never the owner. It names the id the sequence handed out, and stores exactly the new row under the id the `uri` names. |
| Server.HardeningIsUniform | src/main/java/com/manning/apisecurityinaction/Main.java:37-53 | Any two responses, success or error, carry the same `Server` and `X-XSS-Protection` values. |

## Left out

- Database bootstrap (`createTables`, the connection pools, reading `schema.sql`): I/O and external libraries.
- The H2 sequence and SQL text: allocation is an abstract counter and the transaction is one atomic step. The 64-bit limit of the sequence and rollback after a storage failure are not modelled, so the route never raises an unhandled exception or `EmptyResultException` in this model. `OnException` still covers both.
- The SQL statements themselves, including the vulnerability the source comments warn about.
- JSON parsing and serialisation: the library's exception messages are inputs, and the success body is a field map, not text. The key order of the serialised object is not modelled.
- Route matching beyond an exact `POST` to `/spaces`. Trailing slashes, `HEAD`, and other framework matching rules are not modelled.
- Header names are compared exactly. HTTP's case-insensitive matching and the web server's own `Server` header are not modelled.
- The framework's default content type for responses that the `after` filter did not reach is not modelled. Those responses have no content type in the model.
- Code units and characters: Java applies the pattern to UTF-16 code units and the model applies it to Unicode characters. Neither surrogate units nor supplementary characters are in the classes, so the verdict is the same.
- Rate limiting, a content-type gate, authentication and an owner-equals-principal check: none of these is in `Main.java` or `createSpace`, so none is modelled.
- Strings holding unpaired surrogates: Java strings can hold them (the JSON library decodes a `\ud800` escape into one, which counts as one code unit), but a Dafny `string` cannot, so such names and owners are not representable in the model.
- Concurrency: simultaneous requests are modelled as a sequence of atomic transactions (`CreateAll`). Isolation is the database's job.
