/** The filter builder of the single-document GET: the `search` segment turns
    the query parameters into an equality filter, typing a value as a 64-bit
    integer when it carries the `_d` marker. The query is the sequence of
    (key, values) pairs in the order the handler iterates them. */
module Filters {
  import opened Bson
  import opened Strconv

  datatype Param = Param(key: string, values: seq<string>)

  type Query = seq<Param>

  /** Every parameter has a first value (url.ParseQuery never yields an
      empty list, and the search loop reads `v[0]` unguarded). */
  predicate HasValues(query: Query) {
    forall i :: 0 <= i < |query| ==> query[i].values != []
  }

  /** The keys are pairwise distinct, as they are in Go's url.Values map. */
  predicate DistinctKeys(query: Query) {
    forall i, j :: 0 <= i < j < |query| ==> query[i].key != query[j].key
  }

  const IntMarker: string := "_d"

  predicate HasIntMarker(s: string) {
    |s| >= 2 && s[..2] == IntMarker
  }

  /** The filter value for one raw parameter value: a marked value is the
      integer its remainder parses to (None when it does not parse), any
      other value is matched as the string itself. */
  function TypedValue(s: string): (r: Option<Value>)
    ensures !HasIntMarker(s) ==> r == Some(Str(s))
    ensures HasIntMarker(s) ==> (r.Some? <==> ParseInt(s[2..]).Some?)
    ensures HasIntMarker(s) && r.Some? ==> r.value == Int(ParseInt(s[2..]).value) && InInt64(r.value.i)
  {
    if HasIntMarker(s) then
      match ParseInt(s[2..])
      case None => None
      case Some(n) => Some(Int(n))
    else Some(Str(s))
  }

  /** A marked decimal of any 64-bit integer becomes that integer. */
  lemma TypedValueOfMarkedInt(n: int)
    requires InInt64(n)
    ensures TypedValue(IntMarker + FormatInt(n)) == Some(Int(n))
  {
    var s := IntMarker + FormatInt(n);
    assert s[..2] == IntMarker && s[2..] == FormatInt(n);
    ParseIntFormatInt(n);
  }

  /** The marker alone, or the marker twice, stops the search. */
  lemma TypedValueRejects()
    ensures TypedValue("_d") == None
    ensures TypedValue("_d_d5") == None
    ensures TypedValue("_d+") == None
  {
    assert "_d_d5"[2..] == "_d5";
    assert !IsDigit('_');
    assert "_d+"[2..] == "+";
  }

  function Typed(p: Param): Option<Value>
    requires p.values != []
  {
    TypedValue(p.values[0])
  }

  /** The index of the first parameter whose value fails to type, or the
      length of the query when every value types. */
  function StopIndex(query: Query): (k: nat)
    requires HasValues(query)
    ensures k <= |query|
    ensures forall j :: 0 <= j < k ==> Typed(query[j]).Some?
    ensures k < |query| ==> Typed(query[k]).None?
  {
    if query == [] || Typed(query[0]).None? then 0
    else
      var k := 1 + StopIndex(query[1..]);
      assert forall j :: 1 <= j < k ==> query[j] == query[1..][j - 1];
      k
  }

  predicate AllTyped(prefix: Query)
    requires HasValues(prefix)
  {
    forall j :: 0 <= j < |prefix| ==> Typed(prefix[j]).Some?
  }

  /** The filter built from parameters that all type: each one in turn sets
      its key, so a later repeated key wins. */
  function FilterOf(prefix: Query): Filter
    requires HasValues(prefix) && AllTyped(prefix)
  {
    if prefix == [] then map[]
    else
      var last := prefix[|prefix| - 1];
      FilterOf(prefix[..|prefix| - 1])[last.key := Typed(last).value]
  }

  /** The search filter: the parameters before the first one that fails to
      type, and none after it. */
  function SearchFilter(query: Query): Filter
    requires HasValues(query)
  {
    FilterOf(query[..StopIndex(query)])
  }

  /** The search loop as written: one parameter at a time, leaving the loop
      on the first marked value whose remainder does not parse. */
  method BuildSearchFilter(query: Query) returns (filter: Filter)
    requires HasValues(query)
    ensures filter == SearchFilter(query)
  {
    filter := map[];
    var i := 0;
    while i < |query|
      invariant i <= StopIndex(query)
      invariant filter == FilterOf(query[..i])
    {
      var k, v := query[i].key, query[i].values;
      if HasIntMarker(v[0]) {
        var numValue := ParseInt(v[0][2..]);
        if numValue.None? {
          break;
        }
        filter := filter[k := Int(numValue.value)];
      } else {
        filter := filter[k := Str(v[0])];
      }
      assert query[..i + 1][..i] == query[..i];
      i := i + 1;
    }
  }

  /** The keys of a filter built from typed parameters are exactly their
      keys. */
  lemma {:induction false} FilterOfKeys(prefix: Query)
    requires HasValues(prefix) && AllTyped(prefix)
    ensures forall k :: k in FilterOf(prefix) <==> exists j :: 0 <= j < |prefix| && prefix[j].key == k
  {
    if prefix != [] {
      var init := prefix[..|prefix| - 1];
      FilterOfKeys(init);
      assert forall j :: 0 <= j < |init| ==> init[j] == prefix[j];
    }
  }

  /** With distinct keys, each typed parameter maps its key to its own
      typed value. */
  lemma {:induction false} FilterOfValues(prefix: Query)
    requires HasValues(prefix) && AllTyped(prefix) && DistinctKeys(prefix)
    ensures forall j :: 0 <= j < |prefix| ==>
              prefix[j].key in FilterOf(prefix) && FilterOf(prefix)[prefix[j].key] == Typed(prefix[j]).value
  {
    if prefix != [] {
      var init := prefix[..|prefix| - 1];
      FilterOfValues(init);
      assert forall j :: 0 <= j < |init| ==> init[j] == prefix[j];
    }
  }

  /** The search filter holds a key exactly when a parameter before the
      stopping one has it. */
  lemma SearchFilterKeys(query: Query)
    requires HasValues(query)
    ensures forall k :: k in SearchFilter(query) <==> exists j :: 0 <= j < StopIndex(query) && query[j].key == k
  {
    var prefix := query[..StopIndex(query)];
    FilterOfKeys(prefix);
    assert forall j :: 0 <= j < |prefix| ==> prefix[j] == query[j];
  }

  /** With distinct keys, each parameter before the stopping one contributes
      its own typed first value. */
  lemma SearchFilterValues(query: Query)
    requires HasValues(query) && DistinctKeys(query)
    ensures forall j :: 0 <= j < StopIndex(query) ==>
              query[j].key in SearchFilter(query) && SearchFilter(query)[query[j].key] == Typed(query[j]).value
  {
    var prefix := query[..StopIndex(query)];
    assert forall j :: 0 <= j < |prefix| ==> prefix[j] == query[j];
    FilterOfValues(prefix);
  }

  /** Appending parameters does not move an earlier stop. */
  lemma {:induction false} StopIndexAppend(query: Query, rest: Query)
    requires HasValues(query) && HasValues(rest) && StopIndex(query) < |query|
    ensures HasValues(query + rest) && StopIndex(query + rest) == StopIndex(query)
  {
    if Typed(query[0]).Some? {
      assert (query + rest)[1..] == query[1..] + rest;
      StopIndexAppend(query[1..], rest);
    }
  }

  /** Once a parameter fails to type, nothing iterated after it reaches the
      filter. */
  lemma SearchFilterIgnoresRest(query: Query, rest: Query)
    requires HasValues(query) && HasValues(rest) && StopIndex(query) < |query|
    ensures HasValues(query + rest) && SearchFilter(query + rest) == SearchFilter(query)
  {
    StopIndexAppend(query, rest);
    var k := StopIndex(query);
    assert (query + rest)[..k] == query[..k];
  }

  /** Worked examples: an integer, a string, a stop that drops both the
      bad parameter and the one after it, and the two cases where the filter
      is empty and so matches every document: a stop at the first parameter
      and no parameters at all. */
  lemma SearchFilterExamples()
    ensures SearchFilter([Param("age", ["_d42"])]) == map["age" := Int(42)]
    ensures SearchFilter([Param("name", ["bob"])]) == map["name" := Str("bob")]
    ensures SearchFilter([Param("name", ["bob"]), Param("age", ["_dx"]), Param("city", ["oslo"])])
         == map["name" := Str("bob")]
    ensures SearchFilter([Param("age", ["_dx"]), Param("name", ["bob"])]) == map[]
    ensures SearchFilter([]) == map[]
    ensures forall doc :: Matches(doc, SearchFilter([Param("age", ["_dx"]), Param("name", ["bob"])]))
  {
    assert "_d42"[..2] == IntMarker && "_d42"[2..] == "42";
    assert DigitsValue("42") == 42 by {
      assert "42"[..1] == "4";
    }
    assert "bob"[..2] == "bo" && !HasIntMarker("bob");
    assert "_dx"[..2] == IntMarker && "_dx"[2..] == "x";
    assert !IsDigit('x');
    var q := [Param("name", ["bob"]), Param("age", ["_dx"]), Param("city", ["oslo"])];
    assert StopIndex(q) == 1;
    assert q[..1] == [Param("name", ["bob"])];
    assert StopIndex([Param("age", ["_dx"]), Param("name", ["bob"])]) == 0;
  }
}
