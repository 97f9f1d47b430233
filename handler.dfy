/** The HTTP handlers, each as a planner: from the path variables, the query
    parameters and the decoded body to either a 400 `BadRequest` or the one
    store call to make together with the rule that shapes its reply. The
    store itself is not consulted here; `Respond` turns what it answers into
    the HTTP response. */
module Handler {
  import opened Bson
  import opened Strconv
  import opened ObjectIds
  import opened Filters

  /** The path variables; a variable the route does not bind reads as "". */
  datatype Vars = Vars(database: string, collection: string, document: string)

  /** The two flags of the Extended JSON encoder. */
  datatype Encoding = Encoding(canonical: bool, escapeHTML: bool)

  /** A call into the store (none of them is part of this model). */
  datatype StoreCall =
    | ListCollections(database: string, nameOnly: bool)
    | ListDatabases(nameOnly: bool)
    | FindAll(database: string, collection: string)
    | FindMany(database: string, collection: string, filter: Filter)
    | InsertOne(database: string, collection: string, doc: Document)
    | ReplaceOne(database: string, collection: string, filter: Filter, replacement: Document, upsert: bool)
    | UpdateOne(database: string, collection: string, filter: Filter, update: Document)
    | DeleteOne(database: string, collection: string, filter: Filter)
    | DropDatabase(database: string)
    | DropCollection(database: string, collection: string)

  /** What is written with status 200. */
  datatype Body =
    | Empty
    | EmptyArray
    | Envelope(payload: Value, encoding: Encoding)  // {"body": payload}

  datatype Response = BadRequest | Ok(reply: Body)

  /** How a handler answers once the store has replied. */
  datatype ResponseRule =
    | NilBeforeError(encoding: Encoding)
    | ErrorBeforeNil(onNil: Body, encoding: Encoding)
    | StatusOnly

  datatype Plan = Reject | Perform(call: StoreCall, rule: ResponseRule)

  /** The first values list a query gives for `key`. */
  function Lookup(query: Query, key: string): (r: Option<seq<string>>)
    ensures r.Some? <==> exists i :: 0 <= i < |query| && query[i].key == key
    ensures r.Some? ==> exists i :: 0 <= i < |query| && query[i].key == key && query[i].values == r.value &&
                                    forall j :: 0 <= j < i ==> query[j].key != key
  {
    if query == [] then None
    else if query[0].key == key then Some(query[0].values)
    else
      var r := Lookup(query[1..], key);
      assert forall i :: 1 <= i < |query| ==> query[i] == query[1..][i - 1];
      r
  }

  /** The `nameOnly` flag: false unless the parameter is present with a
      first value Go reads as true; a value it cannot read is false too. */
  function NameOnly(query: Query): (b: bool)
    ensures b <==> Lookup(query, "nameOnly").Some? && Lookup(query, "nameOnly").value != [] &&
                   Lookup(query, "nameOnly").value[0] in TrueSpellings
  {
    var v := Lookup(query, "nameOnly");
    if v.Some? && |v.value| > 0 then ParseBool(v.value[0]).GetOr(false) else false
  }

  /** The reply of the collection listing: a nil result is answered `[]`
      before the error is looked at, so it hides a failure. */
  function RespondNilBeforeError(encoding: Encoding, data: Option<Value>, err: Option<Error>, marshalled: bool): (resp: Response)
    ensures data.None? ==> resp == Ok(EmptyArray)
    ensures data.Some? && err.Some? ==> resp == BadRequest
    ensures resp.Ok? && resp.reply.Envelope? ==> data == Some(resp.reply.payload) && err.None? && marshalled
    ensures data.Some? && err.None? ==> resp == if marshalled then Ok(Envelope(data.value, encoding)) else BadRequest
  {
    if data.None? then Ok(EmptyArray)
    else if err.Some? then BadRequest
    else if !marshalled then BadRequest
    else Ok(Envelope(data.value, encoding))
  }

  /** The reply of every other reading or writing handler: an error wins,
      then a nil result gets `onNil`, then the payload is enveloped. */
  function RespondErrorBeforeNil(onNil: Body, encoding: Encoding, data: Option<Value>, err: Option<Error>, marshalled: bool): (resp: Response)
    ensures err.Some? ==> resp == BadRequest
    ensures err.None? && data.None? ==> resp == Ok(onNil)
    ensures err.None? && data.Some? ==> resp == if marshalled then Ok(Envelope(data.value, encoding)) else BadRequest
  {
    if err.Some? then BadRequest
    else if data.None? then Ok(onNil)
    else if !marshalled then BadRequest
    else Ok(Envelope(data.value, encoding))
  }

  /** The reply of the deletions: 400 on error, otherwise nothing. */
  function RespondStatusOnly(err: Option<Error>): (resp: Response)
    ensures resp == BadRequest <==> err.Some?
    ensures resp != BadRequest ==> resp == Ok(Empty)
  {
    if err.Some? then BadRequest else Ok(Empty)
  }

  /** The HTTP response for a plan's rule, the store's answer and whether
      the Extended JSON encoder accepted the envelope: an error is 400 except
      under the listing's nil-first rule, and an envelope is only ever
      written around data the store returned without error. */
  function Respond(rule: ResponseRule, data: Option<Value>, err: Option<Error>, marshalled: bool): (resp: Response)
    ensures err.Some? && !(rule.NilBeforeError? && data.None?) ==> resp == BadRequest
    ensures !(rule.ErrorBeforeNil? && rule.onNil.Envelope?) && resp.Ok? && resp.reply.Envelope? ==>
              err.None? && data.Some? && resp.reply.payload == data.value && marshalled
  {
    match rule
    case NilBeforeError(encoding) => RespondNilBeforeError(encoding, data, err, marshalled)
    case ErrorBeforeNil(onNil, encoding) => RespondErrorBeforeNil(onNil, encoding, data, err, marshalled)
    case StatusOnly => RespondStatusOnly(err)
  }

  /** GET /{database}: list its collections. */
  function GetCollections(vars: Vars, query: Query): (p: Plan)
    ensures p.Reject? <==> vars.database == ""
    ensures p.Perform? ==> p.call == ListCollections(vars.database, NameOnly(query))
    ensures p.Perform? ==> p.rule == NilBeforeError(Encoding(true, true))
  {
    if vars.database == "" then Reject
    else Perform(ListCollections(vars.database, NameOnly(query)), NilBeforeError(Encoding(true, true)))
  }

  /** GET /{database}/{collection}: every document. */
  function GetDocuments(vars: Vars): (p: Plan)
    ensures p.Reject? <==> vars.database == "" || vars.collection == ""
    ensures p.Perform? ==> p.call == FindAll(vars.database, vars.collection)
    ensures p.Perform? ==> p.rule == ErrorBeforeNil(EmptyArray, Encoding(false, false))
  {
    if vars.collection == "" || vars.database == "" then Reject
    else Perform(FindAll(vars.database, vars.collection), ErrorBeforeNil(EmptyArray, Encoding(false, false)))
  }

  /** DELETE /{database}. */
  function DeleteDatabase(vars: Vars): (p: Plan)
    ensures p.Reject? <==> vars.database == ""
    ensures p.Perform? ==> p.call == DropDatabase(vars.database) && p.rule == StatusOnly
  {
    if vars.database == "" then Reject
    else Perform(DropDatabase(vars.database), StatusOnly)
  }

  /** DELETE /{database}/{collection}. */
  function DeleteCollection(vars: Vars): (p: Plan)
    ensures p.Reject? <==> vars.database == "" || vars.collection == ""
    ensures p.Perform? ==> p.call == DropCollection(vars.database, vars.collection) && p.rule == StatusOnly
  {
    if vars.collection == "" || vars.database == "" then Reject
    else Perform(DropCollection(vars.database, vars.collection), StatusOnly)
  }

  /** GET /: list the databases; there is nothing to validate. */
  function GetDatabases(query: Query): (p: Plan)
    ensures p.Perform?
    ensures p.call == ListDatabases(NameOnly(query))
    ensures p.rule == ErrorBeforeNil(Empty, Encoding(true, true))
  {
    Perform(ListDatabases(NameOnly(query)), ErrorBeforeNil(Empty, Encoding(true, true)))
  }

  /** GET /{database}/{collection}/{document}: by identifier, or by the
      query parameters when the segment is `search`. */
  method GetDocument(vars: Vars, query: Query) returns (p: Plan)
    requires vars.document == "search" ==> HasValues(query)
    ensures p.Reject? <==> vars.database == "" || vars.collection == "" || vars.document == ""
    ensures p.Perform? ==> p.call.FindMany? && p.call.database == vars.database && p.call.collection == vars.collection
    ensures p.Perform? && vars.document == "search" ==> p.call.filter == SearchFilter(query)
    ensures p.Perform? && vars.document != "search" ==> p.call.filter == IdFilter(Str(vars.document))
    ensures p.Perform? ==> p.rule == ErrorBeforeNil(Empty, Encoding(false, true))
  {
    if vars.collection == "" || vars.database == "" || vars.document == "" {
      return Reject;
    }
    var filter: Filter := map[];
    if vars.document == "search" {
      filter := BuildSearchFilter(query);
    } else {
      filter := IdFilter(Str(vars.document));
    }
    p := Perform(FindMany(vars.database, vars.collection, filter), ErrorBeforeNil(Empty, Encoding(false, true)));
  }

  /** POST or PUT /{database}/{collection}[/{document}]: `doc` is the
      decoded body (None when reading or decoding it failed) and `freshId`
      the random identifier the handler would generate. */
  method PutDocument(vars: Vars, doc: Option<Document>, freshId: string) returns (p: Plan)
    ensures p.Reject? <==> vars.database == "" || vars.collection == "" || doc.None?
    ensures p.Perform? ==> p.rule == ErrorBeforeNil(Empty, Encoding(true, true))
    ensures p.Perform? && vars.document != "" ==>
              p.call == ReplaceOne(vars.database, vars.collection, IdFilter(Str(vars.document)), doc.value, true)
    ensures p.Perform? && vars.document == "" ==>
              && p.call.InsertOne? && p.call.database == vars.database && p.call.collection == vars.collection
              && p.call.doc.Keys == doc.value.Keys + {IdField}
              && p.call.doc[IdField] == Str(freshId)
              && forall k :: k in doc.value && k != IdField ==> p.call.doc[k] == doc.value[k]
  {
    if vars.collection == "" || vars.database == "" {
      return Reject;
    }
    if doc.None? {
      return Reject;
    }
    var body := doc.value;
    var rule := ErrorBeforeNil(Empty, Encoding(true, true));
    if vars.document != "" {
      var filter := IdFilter(Str(vars.document));
      p := Perform(ReplaceOne(vars.database, vars.collection, filter, body, true), rule);
    } else {
      body := body[IdField := Str(freshId)];
      p := Perform(InsertOne(vars.database, vars.collection, body), rule);
    }
  }

  /** PATCH /{database}/{collection}/{document}: a `$set` of the body on the
      document whose canonical identifier the segment spells in hex. */
  function PatchDocument(vars: Vars, doc: Option<Document>): (p: Plan)
    ensures p.Reject? <==> || vars.database == "" || vars.collection == "" || vars.document == ""
                           || doc.None? || |vars.document| != 24 || !AllHex(vars.document)
    ensures p.Perform? ==> && p.call.UpdateOne?
                           && p.call.database == vars.database && p.call.collection == vars.collection
                           && p.call.update == doc.value
                           && IdField in p.call.filter && p.call.filter == IdFilter(p.call.filter[IdField])
                           && p.call.filter[IdField].Oid?
                           && Hex(p.call.filter[IdField].id) == LowerAll(vars.document)
    ensures p.Perform? ==> p.rule == ErrorBeforeNil(Empty, Encoding(true, true))
  {
    if vars.collection == "" || vars.database == "" || vars.document == "" then Reject
    else if doc.None? then Reject
    else match ObjectIdFromHex(vars.document)
      case None => Reject
      case Some(id) =>
        HexOfObjectIdFromHex(vars.document);
        Perform(UpdateOne(vars.database, vars.collection, IdFilter(Oid(id)), doc.value),
                ErrorBeforeNil(Empty, Encoding(true, true)))
  }

  /** A PATCH that reaches the store is answered with the request body
      itself, whatever the update did: `UpdateOne` hands the body back as its
      data, so success writes `{"body": body}` and a failed update is 400. */
  lemma PatchAnswersBody(vars: Vars, body: Document, err: Option<Error>, marshalled: bool)
    requires PatchDocument(vars, Some(body)).Perform?
    ensures var rule := PatchDocument(vars, Some(body)).rule;
            Respond(rule, Some(Doc(body)), err, marshalled)
              == if err.Some? || !marshalled then BadRequest else Ok(Envelope(Doc(body), Encoding(true, true)))
  {
  }

  /** DELETE /{database}/{collection}/{document}: by the string identifier. */
  function DeleteDocument(vars: Vars): (p: Plan)
    ensures p.Reject? <==> vars.database == "" || vars.collection == "" || vars.document == ""
    ensures p.Perform? ==> p.call == DeleteOne(vars.database, vars.collection, IdFilter(Str(vars.document)))
    ensures p.Perform? ==> p.rule == StatusOnly
  {
    if vars.collection == "" || vars.database == "" || vars.document == "" then Reject
    else Perform(DeleteOne(vars.database, vars.collection, IdFilter(Str(vars.document))), StatusOnly)
  }
}
