# Generic document-store REST gateway: request translation, in Dafny

This project models the request-to-query layer of a generic REST gateway over
a schemaless document database (MongoDB). Any database, collection or document
name in the URL is accepted. The model covers:

- how each HTTP handler validates its path variables;
- how it builds the equality filter;
- which store operation it picks;
- how it shapes the store's answer into the HTTP response;
- the client's write-then-re-read wrappers.

Modules, one per concern:

- `Bson` (`bson.dfy`): documents as maps from field name to a tagged `Value`
  (string, integer, boolean, null, 12-byte `ObjectId`, nested document,
  array). A filter is a map of equality constraints. `IdFilter(v)` is `{_id: v}`.
- `Strconv` (`strconv.dfy`): Go's `strconv.ParseInt(s, 10, 0)` and
  `strconv.ParseBool`, with `FormatInt` as the inverse of `ParseInt`.
- `ObjectIds` (`objectids.dfy`): `ObjectIDFromHex` and `Hex` for the canonical
  identifier.
- `Filters` (`filters.dfy`): the `search` filter builder. Each value marked
  `_d` is typed as a 64-bit integer. The loop stops at the first marked value
  that does not parse. `BuildSearchFilter` is that loop. `SearchFilter` is the
  function it is proved equal to.
- `Handler` (`handler.dfy`): one planner per HTTP handler. Each returns either
  `Reject` (400 `BadRequest`) or `Perform(call, rule)`. `call` is the one store
  call to make. `rule` says how the store's answer `(data, err)` becomes the
  response: `Respond` and the three `Respond…` functions. The helpers
  `check`/`checkError` appear as `Reject` and as `BadRequest` replies.
- `Store` (`store.dfy`): `InsertOne`, `ReplaceOne`, `UpdateOne` and
  `InsertOrReplace` of the client, over a `Collection` class that holds a map
  from identifier value to document.

Inputs the source gets from outside become parameters:

- the path variables (`Vars`; a missing variable is `""`);
- the query string, as the sequence of `(key, values)` pairs in the order the
  handler iterates them;
- the decoded request body (`None` when reading or Extended-JSON decoding
  failed);
- the random identifier `uuid.New().String()`, as `freshId`;
- whether the Extended JSON encoder accepts a response (`marshalled`);
- store and network failures (`Faults`: resolving the collection, the write,
  the read).

The driver calls have no visible source. They are abstract stubs, and these
are all the assumptions made about them:

- a mutating call may leave the collection in any state that keeps every
  document under its own identifier;
- a single-document read returns some stored document that matches the filter,
  or "no documents";
- a driver write that fails (an injected write fault) leaves the collection's
  documents unchanged;
- the `InsertedID` the driver reports for a document that carries an `_id` is
  that `_id`;
- apart from an injected fault, the only error the driver's find-and-replace
  result carries is "no documents".

Each collection keeps a ghost log of the calls it received. The wrappers are
specified by that log (which filter is re-read, which instruction is sent) and
by what they return (which value, which error wins).

Behaviour worth knowing, each pinned by a contract below:

- A search stops silently at the first `_d` value whose remainder does not
  parse. That parameter and every later one are dropped. The parse error never
  reaches the client because it is shadowed (handler.go:162).
- The collection listing answers `[]` whenever the store returns nil data,
  even when it also returned an error. The nil check comes before the error
  check.
- `ReplaceOne` discards the replace's error. Its outcome is the re-read by the
  same filter.
- `UpdateOne` answers with the request body itself, not the stored document,
  together with the update's error.
- A search whose first parameter fails to type, or a search with no
  parameters, builds the empty filter. `FindMany` then matches every document
  in the collection.

## Model

| member | source | states |
|---|---|---|
| `Bson.IdFilter` | handler.go:172 | `{_id: v}` selects exactly the documents whose `_id` equals `v` |
| `Strconv.ParseInt` | handler.go:162 | accepts exactly an optional sign followed by at least one decimal digit whose value fits in 64 bits; so the empty remainder, a lone sign and `_d` are refused |
| `Strconv.ParseIntFormatInt` | handler.go:162 | every 64-bit integer parses back from its decimal text |
| `Strconv.Digits` | handler.go:162 | the decimal digits of `n` are non-empty digits whose value is `n` (the inverse used by the round trip) |
| `Strconv.ParseBool` | handler.go:39 | Go's six true spellings give true, its six false spellings give false, anything else is an error |
| `Handler.Lookup` | handler.go:35 | the values list of the first parameter with the key; absent exactly when no parameter has it |
| `Handler.NameOnly` | handler.go:35-40 | the flag is true exactly when the parameter is present with a first value Go reads as true; absent, empty or unparseable values give false |
| `ObjectIds.ObjectIdFromHex` | handler.go:258 | decoding succeeds exactly on 24 hexadecimal digits (either case) |
| `ObjectIds.ObjectIdFromHexOfHex` | handler.go:258 | every identifier decodes from its own hex rendering |
| `ObjectIds.HexOfObjectIdFromHex` | handler.go:258-262 | an accepted segment is, up to letter case, the rendering of the identifier it decodes to |
| `ObjectIds.DecodeEncode` | handler.go:258 | hex decoding undoes hex encoding for any byte sequence |
| `ObjectIds.EncodeDecode` | handler.go:258 | hex encoding of decoded text gives the text in lower case |
| `Filters.TypedValue` | handler.go:161-169 | an unmarked value is matched as its string; a value starting with `_d` has one marker removed and is the parsed integer, or fails when the remainder does not parse |
| `Filters.TypedValueOfMarkedInt` | handler.go:161-166 | `_d` followed by the decimal text of any 64-bit integer is typed as that integer |
| `Filters.TypedValueRejects` | handler.go:162-165 | `_d` alone, `_d_d5` (only one marker is removed) and `_d+` stop the search |
| `Filters.StopIndex` | handler.go:160-170 | the stopping index: every earlier parameter types, and the parameter at it (if any) does not |
| `Filters.BuildSearchFilter` | handler.go:155-170 | the loop with its early exit builds exactly the filter of the parameters before the first one that fails to type |
| `Filters.SearchFilterKeys` | handler.go:160-170 | the search filter holds a key exactly when some parameter before the stopping one has it |
| `Filters.SearchFilterValues` | handler.go:166-168 | with distinct keys, each parameter before the stop maps its key to its own typed first value (`v[0]` only) |
| `Filters.StopIndexAppend` | handler.go:163-165 | parameters after a failing one do not move the stop |
| `Filters.SearchFilterIgnoresRest` | handler.go:163-165 | once a parameter fails, nothing iterated after it changes the filter |
| `Filters.SearchFilterExamples` | handler.go:159-170 | `age=_d42` gives `{age: 42}`, `name=bob` gives `{name: "bob"}`, `name=bob, age=_dx, city=oslo` gives only `{name: "bob"}`, and both `age=_dx, name=bob` and no parameters give the empty filter, which matches every document |
| `Handler.RespondNilBeforeError` | handler.go:44-59 | nil data is answered `[]` even with an error; otherwise an error is 400; the envelope `{"body": data}` is written only on success |
| `Handler.RespondErrorBeforeNil` | handler.go:174-188 | an error is always 400; nil data gives the handler's nil reply (nothing, or `[]` for the document listing); otherwise `{"body": data}` in the handler's encoding, or 400 if encoding fails |
| `Handler.RespondStatusOnly` | handler.go:328-331 | a deletion answers 400 exactly on error and writes nothing otherwise |
| `Handler.Respond` | handler.go:44-59 | an error is always 400 except when the listing's nil-first rule meets nil data; an `{"body": data}` envelope is only ever written around data returned without error, and only if it was encoded |
| `Handler.GetCollections` | handler.go:32-61 | rejected exactly when the database is empty; otherwise lists its collections with the parsed `nameOnly` flag, nil-before-error reply, canonical encoding |
| `Handler.GetDocuments` | handler.go:63-88 | rejected exactly when database or collection is empty; otherwise finds all, error-before-nil with `[]` for nil, relaxed encoding |
| `Handler.DeleteDatabase` | handler.go:90-103 | rejected exactly when the database is empty; otherwise drops it and answers by status only |
| `Handler.DeleteCollection` | handler.go:105-118 | rejected exactly when database or collection is empty; otherwise drops the collection and answers by status only |
| `Handler.GetDatabases` | handler.go:120-143 | never rejected; lists databases with the parsed `nameOnly` flag, nothing written for nil |
| `Handler.GetDocument` | handler.go:145-190 | rejected exactly when a path variable is empty; the segment `search` uses the search filter, any other segment exactly `{_id: segment}` as a string; nothing written for nil; relaxed encoding (HTML-escaped) |
| `Handler.PutDocument` | handler.go:192-237 | rejected exactly when database or collection is empty or the body does not decode; with a segment, upsert-replace by `{_id: segment}` with the body unchanged; without one, insert the body with `_id` overwritten by the fresh identifier and every other field kept |
| `Handler.PatchDocument` | handler.go:239-279 | rejected exactly when a path variable is empty, the body does not decode or the segment is not 24 hex digits; otherwise updates with the body, filtered by the decoded identifier (not the string) whose hex is the segment |
| `Handler.PatchAnswersBody` | handler.go:262-273 | a PATCH that reaches the store answers `{"body": body}` with the request body itself (canonical encoding) when the update reports no error and encoding succeeds, and 400 otherwise |
| `Handler.DeleteDocument` | handler.go:318-333 | rejected exactly when a path variable is empty; otherwise deletes by the string filter `{_id: segment}`, the same filter a non-search GET uses |
| `Store.ReadByIdIsLookup` | insert.go:39-41 | a re-read by `{_id: id}` can only answer the document stored under `id`, or "no documents" when there is none |
| `Store.Client.GetCollection` | insert.go:14-17 | a resolution failure returns that error and no handle; resolving never changes what any namespace holds |
| `Store.Client.InsertOrReplace` | insert.go:10-25 | a resolution error returns it with nothing sent; otherwise one replace with upsert always on; a write fault returns `(nil, fault)` and leaves the documents as they were; otherwise the returned document, or `(nil, "no documents")` with the documents unconstrained |
| `Store.Client.InsertOne` | insert.go:27-42 | a resolution or insert error returns `(nil, err)` with no re-read; a nil result returns "result must not be nil"; otherwise the answer is the re-read by `{_id: insertedId}`, where the inserted id is the document's own `_id` when the document carries one (driver assumption) |
| `Store.Client.ReplaceOne` | insert.go:44-55 | a resolution error returns it with nothing sent; otherwise a replace then a read by the same filter, and the answer is that read's outcome whatever the replace reported; an injected write fault leaves the documents as they were |
| `Store.Client.UpdateOne` | insert.go:57-65 | a resolution error returns `(nil, err)`; otherwise exactly `{"$set": update}` is sent, and the answer is `update` itself with the update's error, so data is non-nil even on failure; a failed update leaves the documents as they were |

## Left out

- HTTP serving, TLS, CORS headers, route registration with its path regular
  expressions, and `GetRoutes`: the routing is done by gorilla/mux. The
  planners take the path variables as already matched.
- Connection setup, authentication, ping and disconnect (backend.go):
  network I/O.
- Reading the request body and Extended JSON decoding and encoding: these are
  opaque. The planners take the decoded body as `Option<Document>`. The
  `Respond…` functions take the encoder's success as `marshalled`. A failed
  `w.Write` after a successful encoding is not modelled.
- Store calls with no visible source (`FindMany`, `FindAll`, `DeleteOne`,
  `DropDatabase`, `DropCollection`, `GetCollections`, `GetDatabases`): they
  are named in the plan, not executed.
- The collection and database options passed to `GetCollection`: they have no
  effect on the model.
- Logging of errors: no observable behaviour at the HTTP boundary.
- Concurrency: requests are modelled one at a time. The write and re-read of
  a wrapper are treated as one sequential step.
- The order in which Go iterates `r.URL.Query()` is unspecified. The query is
  a sequence, and the search properties are stated relative to its order.
- `postDocument` and `checkDataAndError` in handler.go: they are never
  referenced.
- `check`, `checkError` and `enableCors` in helper.go: the first two duplicate
  handler.go and are modelled once, as `Reject`/`BadRequest`. The third only
  sets headers.
- Round trips across the store, such as insert then read, or delete then read:
  these need the driver's semantics, which are abstract here.
- `Strconv.ParseInt`: it models bit size 0 as 64 bits, the `int` size on
  64-bit platforms.
- `Handler.GetDocument`: it requires every query parameter to carry at least
  one value when the segment is `search`. The Go loop reads `v[0]` unguarded,
  and `url.ParseQuery` never produces an empty list.
- `Store.Client.InsertOrReplace`: a failure decoding the returned document is
  not modelled. Which document the driver returns is left open.
