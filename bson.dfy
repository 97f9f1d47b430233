/** Documents, filters and identifiers as the gateway handles them.

    A document is an open string-keyed map to a tagged value (the store's
    BSON); a filter is a map from field name to the value that field must
    equal. */
module Bson {

  datatype Option<+T> = None | Some(value: T) {
    function GetOr(default: T): T {
      match this
      case Some(v) => v
      case None => default
    }
  }

  /** An error as returned by the store or the code around it; only its
      message is observable. */
  datatype Error = Error(message: string)

  /** The error `InsertOne` reports when the driver returns no insert result. */
  const NilInsertResult: Error := Error("result must not be nil")

  /** The error a single-document read reports when nothing matches. */
  const NoDocuments: Error := Error("mongo: no documents in result")

  type byte = x: int | 0 <= x < 256

  /** The store's canonical 12-byte identifier. */
  type ObjectId = s: seq<byte> | |s| == 12 witness [0, 0, 0, 0, 0, 0, 0, 0, 0, 0, 0, 0]

  datatype Value =
    | Str(s: string)
    | Int(i: int)
    | Bool(b: bool)
    | Null
    | Oid(id: ObjectId)
    | Doc(fields: map<string, Value>)
    | Arr(items: seq<Value>)

  type Document = map<string, Value>

  type Filter = map<string, Value>

  /** The field every stored document is identified by. */
  const IdField: string := "_id"

  /** A document satisfies an equality filter when it holds every field the
      filter names, with the same value. */
  predicate Matches(doc: Document, filter: Filter) {
    forall k :: k in filter ==> k in doc && doc[k] == filter[k]
  }

  /** The one-entry filter `{_id: id}`: it selects exactly the documents
      whose identifier is `id`. */
  function IdFilter(id: Value): (f: Filter)
    ensures |f| == 1
    ensures forall doc :: Matches(doc, f) <==> IdField in doc && doc[IdField] == id
  {
    map[IdField := id]
  }
}
