/** The write-then-re-read wrappers of the client: each resolves a
    collection, makes one mutating driver call and sometimes reads back.

    The driver is abstract. Its mutating calls may leave the collection in
    any state that keeps documents keyed by their identifier; its read
    returns some matching document. Failures the store or the network would
    cause are inputs (`Faults`), one per kind of call, and every collection
    keeps a ghost log of the calls it received, so that the wrappers can be
    specified by what they asked the driver and what they give back. */
module Store {
  import opened Bson

  datatype Namespace = Namespace(database: string, collection: string)

  /** The failure, if any, each kind of call meets during one wrapper call. */
  datatype Faults = Faults(resolve: Option<Error>, write: Option<Error>, read: Option<Error>)

  /** A driver call as a collection received it. */
  datatype DriverCall =
    | InsertCall(doc: Document)
    | ReplaceCall(filter: Filter, replacement: Document, upsert: bool)
    | UpdateCall(filter: Filter, instruction: Document)
    | FindCall(filter: Filter)

  /** Every stored document sits under its own identifier. */
  predicate Keyed(docs: map<Value, Document>) {
    forall id :: id in docs ==> IdField in docs[id] && docs[id][IdField] == id
  }

  /** What a single-document read may answer: the fault if there is one;
      otherwise a stored document matching the filter, or "no documents"
      when none does. */
  ghost predicate ReadOutcome(docs: map<Value, Document>, filter: Filter, fault: Option<Error>,
                              doc: Option<Document>, err: Option<Error>)
  {
    if fault.Some? then doc.None? && err == fault
    else if exists id :: id in docs && Matches(docs[id], filter) then
      err.None? && doc.Some? && doc.value in docs.Values && Matches(doc.value, filter)
    else doc.None? && err == Some(NoDocuments)
  }

  /** A read by identifier has exactly one possible answer: the document
      stored under that identifier. */
  lemma ReadByIdIsLookup(docs: map<Value, Document>, id: Value, doc: Option<Document>, err: Option<Error>)
    requires Keyed(docs) && ReadOutcome(docs, IdFilter(id), None, doc, err)
    ensures id in docs ==> doc == Some(docs[id]) && err.None?
    ensures id !in docs ==> doc.None? && err == Some(NoDocuments)
  {
    if id in docs {
      assert Matches(docs[id], IdFilter(id));
      var k :| k in docs && docs[k] == doc.value;
      assert docs[k][IdField] == id;
    } else {
      forall k | k in docs
        ensures !Matches(docs[k], IdFilter(id))
      {
        assert docs[k][IdField] == k;
      }
    }
  }

  class Collection {
    var docs: map<Value, Document>
    ghost var calls: seq<DriverCall>

    ghost predicate Valid()
      reads this
    {
      Keyed(docs)
    }

    constructor ()
      ensures Valid() && docs == map[] && calls == []
    {
      docs := map[];
      calls := [];
    }

    /** Any new contents the store might leave behind. */
    method Havoc()
      requires Valid()
      modifies this`docs
      ensures Valid()
    {
      var next :| Keyed(next);
      docs := next;
    }

    /** The driver's InsertOne; `insertedId` is None for a nil result. */
    method InsertOne(doc: Document, fault: Option<Error>) returns (insertedId: Option<Value>, err: Option<Error>)
      requires Valid()
      modifies this
      ensures Valid() && calls == old(calls) + [InsertCall(doc)]
      ensures err == fault
      ensures fault.Some? ==> insertedId.None? && docs == old(docs)
      ensures insertedId.Some? && IdField in doc ==> insertedId.value == doc[IdField]
    {
      calls := calls + [InsertCall(doc)];
      if fault.Some? {
        return None, fault;
      }
      Havoc();
      var id: Value :| IdField in doc ==> id == doc[IdField];
      insertedId, err := Some(id), None;
    }

    /** The package's FindOneAndReplace helper, which reports only an error. */
    method FindOneAndReplace(filter: Filter, replacement: Document, upsert: bool, fault: Option<Error>) returns (err: Option<Error>)
      requires Valid()
      modifies this
      ensures Valid() && calls == old(calls) + [ReplaceCall(filter, replacement, upsert)]
      ensures err == fault && (fault.Some? ==> docs == old(docs))
    {
      calls := calls + [ReplaceCall(filter, replacement, upsert)];
      if fault.Some? {
        return fault;
      }
      Havoc();
      err := None;
    }

    /** The driver's FindOneAndReplace, whose single result is decoded: the
        returned document, or the error the result carries. Which document
        comes back is left open. */
    method FindOneAndReplaceResult(filter: Filter, replacement: Document, upsert: bool, fault: Option<Error>)
      returns (doc: Option<Document>, err: Option<Error>)
      requires Valid()
      modifies this
      ensures Valid() && calls == old(calls) + [ReplaceCall(filter, replacement, upsert)]
      ensures fault.Some? ==> doc.None? && err == fault && docs == old(docs)
      ensures fault.None? ==> (doc.Some? && err.None?) || (doc.None? && err == Some(NoDocuments))
    {
      calls := calls + [ReplaceCall(filter, replacement, upsert)];
      if fault.Some? {
        return None, fault;
      }
      Havoc();
      doc :| true;
      err := if doc.None? then Some(NoDocuments) else None;
    }

    /** The package's FindOneAndUpdate helper, which reports only an error. */
    method FindOneAndUpdate(filter: Filter, instruction: Document, fault: Option<Error>) returns (err: Option<Error>)
      requires Valid()
      modifies this
      ensures Valid() && calls == old(calls) + [UpdateCall(filter, instruction)]
      ensures err == fault && (fault.Some? ==> docs == old(docs))
    {
      calls := calls + [UpdateCall(filter, instruction)];
      if fault.Some? {
        return fault;
      }
      Havoc();
      err := None;
    }

    /** The package's FindOne helper: a read that changes nothing. */
    method FindOne(filter: Filter, fault: Option<Error>) returns (doc: Option<Document>, err: Option<Error>)
      requires Valid()
      modifies this`calls
      ensures Valid() && docs == old(docs) && calls == old(calls) + [FindCall(filter)]
      ensures ReadOutcome(docs, filter, fault, doc, err)
    {
      calls := calls + [FindCall(filter)];
      if fault.Some? {
        return None, fault;
      }
      if exists id :: id in docs && Matches(docs[id], filter) {
        var id :| id in docs && Matches(docs[id], filter);
        doc, err := Some(docs[id]), None;
      } else {
        doc, err := None, Some(NoDocuments);
      }
    }
  }

  /** The client: the collections resolved so far, one object each. */
  class Client {
    var collections: map<Namespace, Collection>
    ghost var Repr: set<object>

    ghost predicate Valid()
      reads this, Repr
    {
      && Repr == {this} + (set ns | ns in collections :: collections[ns])
      && (forall ns :: ns in collections ==> collections[ns].Valid())
      && (forall a, b :: a in collections && b in collections && a != b ==> collections[a] != collections[b])
    }

    constructor ()
      ensures Valid() && fresh(Repr) && collections == map[]
    {
      collections := map[];
      Repr := {this};
    }

    /** The documents of a namespace; one never resolved is empty. */
    ghost function Docs(ns: Namespace): map<Value, Document>
      requires Valid()
      reads this, Repr
    {
      if ns in collections then collections[ns].docs else map[]
    }

    /** The calls a namespace's collection has received. */
    ghost function Calls(ns: Namespace): seq<DriverCall>
      requires Valid()
      reads this, Repr
    {
      if ns in collections then collections[ns].calls else []
    }

    /** GetCollection: the handle for a namespace, created empty on first
        use; resolving never changes what any namespace holds. */
    method GetCollection(database: string, collection: string, fault: Option<Error>) returns (col: Collection?, err: Option<Error>)
      requires Valid()
      modifies this
      ensures Valid() && fresh(Repr - old(Repr))
      ensures err == fault
      ensures fault.Some? ==> col == null && collections == old(collections) && Repr == old(Repr)
      ensures fault.None? ==> col != null && Namespace(database, collection) in collections &&
                              collections[Namespace(database, collection)] == col
      ensures forall ns :: Docs(ns) == old(Docs(ns)) && Calls(ns) == old(Calls(ns))
      ensures forall ns :: ns in old(collections) ==> ns in collections && collections[ns] == old(collections[ns])
    {
      if fault.Some? {
        return null, fault;
      }
      var ns := Namespace(database, collection);
      if ns in collections {
        col := collections[ns];
      } else {
        col := new Collection();
        ghost var before := collections;
        collections := collections[ns := col];
        Repr := Repr + {col};
        ghost var now, was := set n | n in collections :: collections[n], set n | n in before :: before[n];
        forall x | x in was ensures x in now {
          var n :| n in before && before[n] == x;
          assert collections[n] == x;
        }
        assert collections[ns] == col;
        forall x | x in now ensures x in was + {col} {
          var n :| n in collections && collections[n] == x;
          if n != ns {
            assert before[n] == x;
          }
        }
        assert now == was + {col};
      }
      err := None;
    }

    /** InsertOrReplace: a replace that always upserts, answered with the
        document the driver returns. */
    method InsertOrReplace(database: string, collection: string, filter: Filter, update: Document, faults: Faults)
      returns (r: Option<Document>, err: Option<Error>)
      requires Valid()
      modifies this, Repr
      ensures Valid() && fresh(Repr - old(Repr))
      ensures forall ns :: ns != Namespace(database, collection) ==> Docs(ns) == old(Docs(ns)) && Calls(ns) == old(Calls(ns))
      ensures var ns := Namespace(database, collection);
              faults.resolve.Some? ==> r.None? && err == faults.resolve && Docs(ns) == old(Docs(ns)) && Calls(ns) == old(Calls(ns))
      ensures var ns := Namespace(database, collection);
              faults.resolve.None? ==> Calls(ns) == old(Calls(ns)) + [ReplaceCall(filter, update, true)]
      ensures var ns := Namespace(database, collection);
              faults.resolve.None? && faults.write.Some? ==> r.None? && err == faults.write && Docs(ns) == old(Docs(ns))
      ensures faults.resolve.None? && faults.write.None? ==> (r.Some? && err.None?) || (r.None? && err == Some(NoDocuments))
    {
      var col, e := GetCollection(database, collection, faults.resolve);
      if e.Some? {
        return None, e;
      }
      var resp, resultErr := col.FindOneAndReplaceResult(filter, update, true, faults.write);
      if resultErr.Some? {
        return None, resultErr;
      }
      r, err := resp, None;
    }

    /** InsertOne: insert, then re-read by the inserted identifier and
        answer with that read. */
    method InsertOne(database: string, collection: string, doc: Document, faults: Faults)
      returns (r: Option<Document>, err: Option<Error>)
      requires Valid()
      modifies this, Repr
      ensures Valid() && fresh(Repr - old(Repr))
      ensures forall ns :: ns != Namespace(database, collection) ==> Docs(ns) == old(Docs(ns)) && Calls(ns) == old(Calls(ns))
      ensures var ns := Namespace(database, collection);
              faults.resolve.Some? ==> r.None? && err == faults.resolve && Docs(ns) == old(Docs(ns)) && Calls(ns) == old(Calls(ns))
      ensures var ns := Namespace(database, collection);
              faults.resolve.None? && faults.write.Some? ==>
                r.None? && err == faults.write && Docs(ns) == old(Docs(ns)) && Calls(ns) == old(Calls(ns)) + [InsertCall(doc)]
      ensures var ns := Namespace(database, collection);
              faults.resolve.None? && faults.write.None? ==>
                || (r.None? && err == Some(NilInsertResult) && Calls(ns) == old(Calls(ns)) + [InsertCall(doc)])
                || exists id :: && (IdField in doc ==> id == doc[IdField])
                                && Calls(ns) == old(Calls(ns)) + [InsertCall(doc), FindCall(IdFilter(id))]
                                && ReadOutcome(Docs(ns), IdFilter(id), faults.read, r, err)
    {
      var col, e := GetCollection(database, collection, faults.resolve);
      if e.Some? {
        return None, e;
      }
      var res, insertErr := col.InsertOne(doc, faults.write);
      if insertErr.Some? {
        return None, insertErr;
      }
      if res.None? {
        return None, Some(NilInsertResult);
      }
      var id := res.value;
      r, err := col.FindOne(IdFilter(id), faults.read);
    }

    /** ReplaceOne: replace, then answer with a re-read by the same filter;
        the replace's own error is overwritten by the read's. */
    method ReplaceOne(database: string, collection: string, filter: Filter, replacement: Document, upsert: bool, faults: Faults)
      returns (r: Option<Document>, err: Option<Error>)
      requires Valid()
      modifies this, Repr
      ensures Valid() && fresh(Repr - old(Repr))
      ensures forall ns :: ns != Namespace(database, collection) ==> Docs(ns) == old(Docs(ns)) && Calls(ns) == old(Calls(ns))
      ensures var ns := Namespace(database, collection);
              faults.resolve.Some? ==> r.None? && err == faults.resolve && Docs(ns) == old(Docs(ns)) && Calls(ns) == old(Calls(ns))
      ensures var ns := Namespace(database, collection);
              faults.resolve.None? ==>
                && Calls(ns) == old(Calls(ns)) + [ReplaceCall(filter, replacement, upsert), FindCall(filter)]
                && ReadOutcome(Docs(ns), filter, faults.read, r, err)
      ensures var ns := Namespace(database, collection);
              faults.resolve.None? && faults.write.Some? ==> Docs(ns) == old(Docs(ns))
    {
      var col, e := GetCollection(database, collection, faults.resolve);
      if e.Some? {
        return None, e;
      }
      err := col.FindOneAndReplace(filter, replacement, upsert, faults.write);
      r, err := col.FindOne(filter, faults.read);
      if err.Some? {
        return None, err;
      }
    }

    /** UpdateOne: a `$set` of `update`, answered with `update` itself and
        the update's error, whatever the store now holds. */
    method UpdateOne(database: string, collection: string, filter: Filter, update: Document, faults: Faults)
      returns (r: Option<Document>, err: Option<Error>)
      requires Valid()
      modifies this, Repr
      ensures Valid() && fresh(Repr - old(Repr))
      ensures forall ns :: ns != Namespace(database, collection) ==> Docs(ns) == old(Docs(ns)) && Calls(ns) == old(Calls(ns))
      ensures var ns := Namespace(database, collection);
              faults.resolve.Some? ==> r.None? && err == faults.resolve && Docs(ns) == old(Docs(ns)) && Calls(ns) == old(Calls(ns))
      ensures var ns := Namespace(database, collection);
              faults.resolve.None? ==>
                && r == Some(update) && err == faults.write
                && Calls(ns) == old(Calls(ns)) + [UpdateCall(filter, map["$set" := Doc(update)])]
      ensures var ns := Namespace(database, collection);
              faults.resolve.None? && faults.write.Some? ==> Docs(ns) == old(Docs(ns))
    {
      var upd := map["$set" := Doc(update)];
      var col, e := GetCollection(database, collection, faults.resolve);
      if e.Some? {
        return None, e;
      }
      err := col.FindOneAndUpdate(filter, upd, faults.write);
      r := Some(update);
    }
  }
}
