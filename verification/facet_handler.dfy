/** `FacetHandler` of the Solr plugin: the facets of the rules that fired,
    registered by field name in insertion order, the Solr parameters each
    facet asks for, and the facets handed back with the response. */
module FacetHandlers {
  import opened Wrappers
  import opened Strings

  /** One stored field of a Lucene document: its name and string value. */
  datatype Field = Field(name: string, value: string)

  /** A facet document: its fields in the order they were added. A `NamedList`
      of names and values has the same shape. */
  type Document = seq<Field>

  const FieldId: string := "id"
  const FieldFieldName: string := "fieldName"
  const FieldType: string := "type"
  const FieldMultiSelect: string := "isMultiSelect"
  const FieldLimit: string := "limit"
  const FieldMinCount: string := "minCount"
  const FieldSort: string := "sort"
  const FieldMissing: string := "isMissing"
  const FieldStart: string := "start"
  const FieldEnd: string := "end"
  const FieldGap: string := "gap"
  const FieldHardened: string := "isHardened"
  const FieldQueries: string := "queries"

  /** The fields `getFacets` leaves out. */
  const Ignored: set<string> := {"_version_", FieldId, FieldQueries}

  /** `Document.get(name)`: the value of the first field with the name. */
  function Get(doc: Document, name: string): (r: Option<string>)
    ensures r.None? <==> forall k :: 0 <= k < |doc| ==> doc[k].name != name
    ensures r.Some? ==> exists k :: (0 <= k < |doc| && doc[k] == Field(name, r.value)
      && forall j :: 0 <= j < k ==> doc[j].name != name)
  {
    if doc == [] then None
    else if doc[0].name == name then Some(doc[0].value)
    else
      var r := Get(doc[1..], name);
      assert forall k :: 0 <= k < |doc| - 1 ==> doc[1..][k] == doc[k + 1];
      r
  }

  /** `Document.getValues(name)`: the values of every field with the name, in order. */
  function Values(doc: Document, name: string): (r: seq<string>)
    ensures |r| <= |doc|
    ensures forall v :: v in r <==> Field(name, v) in doc
  {
    if doc == [] then []
    else
      var rest := Values(doc[1..], name);
      assert forall f :: f in doc <==> f == doc[0] || f in doc[1..];
      (if doc[0].name == name then [doc[0].value] else []) + rest
  }

  /** The values of two runs of fields are those of the first run followed by
      those of the second: order and repetitions are kept. */
  lemma {:induction false} ValuesConcat(a: Document, b: Document, name: string)
    ensures Values(a + b, name) == Values(a, name) + Values(b, name)
  {
    if a == [] {
      assert a + b == b;
    } else {
      assert (a + b)[0] == a[0];
      assert (a + b)[1..] == a[1..] + b;
      ValuesConcat(a[1..], b, name);
    }
  }

  /** One field contributes its value exactly when it has the name. */
  lemma ValuesOne(f: Field, name: string)
    ensures Values([f], name) == if f.name == name then [f.value] else []
  {
    assert [f][1..] == [];
  }

  /** `getBooleanFromField`: a Solr boolean field value is true when it is `t`
      in either case. */
  function BooleanFromField(value: Option<string>): (r: bool)
    ensures r <==> value == Some("t") || value == Some("T")
  {
    if value.None? then false
    else
      var s := value.value;
      assert ToLower(s) == "t" ==> |s| == 1 && LowerChar(s[0]) == 't';
      assert |s| == 1 && (s[0] == 't' || s[0] == 'T') ==> ToLower(s) == [LowerChar(s[0])];
      assert |s| == 1 ==> (s == "t" <==> s[0] == 't') && (s == "T" <==> s[0] == 'T');
      ToLower(s) == "t"
  }

  /** The fields of a document whose names are not in `drop`, in order. */
  function Keep(doc: Document, drop: set<string>): (r: Document)
    ensures |r| <= |doc|
  {
    if doc == [] then []
    else
      var init, last := doc[..|doc| - 1], doc[|doc| - 1];
      Keep(init, drop) + (if last.name !in drop then [last] else [])
  }

  /** Keeping drops exactly the fields with a dropped name. */
  lemma {:induction false} KeepMembers(doc: Document, drop: set<string>)
    ensures forall f :: f in Keep(doc, drop) <==> f in doc && f.name !in drop
  {
    if doc != [] {
      var init, last := doc[..|doc| - 1], doc[|doc| - 1];
      assert doc == init + [last];
      KeepMembers(init, drop);
    }
  }

  lemma KeepSnoc(init: Document, last: Field, drop: set<string>)
    requires last.name !in drop
    ensures Keep(init + [last], drop) == Keep(init, drop) + [last]
  {
    assert (init + [last])[..|init|] == init;
  }

  /** A document without a dropped name is kept whole. */
  lemma {:induction false} KeepAll(doc: Document, drop: set<string>)
    requires forall k :: 0 <= k < |doc| ==> doc[k].name !in drop
    ensures Keep(doc, drop) == doc
  {
    if doc != [] {
      var init, last := doc[..|doc| - 1], doc[|doc| - 1];
      assert forall k :: 0 <= k < |init| ==> init[k].name !in drop by {
        forall k | 0 <= k < |init| ensures init[k].name !in drop {
          assert init[k] == doc[k];
        }
      }
      KeepAll(init, drop);
      assert doc == init + [last];
      KeepSnoc(init, last, drop);
    }
  }

  /** The fields of a facet that `getFacets` hands back, in order. */
  function Visible(doc: Document): (r: Document)
    ensures |r| <= |doc|
    ensures forall f :: f in r <==> f in doc && f.name !in Ignored
  {
    KeepMembers(doc, Ignored);
    Keep(doc, Ignored)
  }

  /** Keeping the fields of two runs keeps those of the first run followed by
      those of the second: order and repetitions are kept. */
  lemma {:induction false} KeepConcat(a: Document, b: Document, drop: set<string>)
    ensures Keep(a + b, drop) == Keep(a, drop) + Keep(b, drop)
    decreases |b|
  {
    if b == [] {
      assert a + b == a;
    } else {
      var init, last := b[..|b| - 1], b[|b| - 1];
      assert (a + b)[..|a + b| - 1] == a + init;
      assert (a + b)[|a + b| - 1] == last;
      KeepConcat(a, init, drop);
    }
  }

  /** The fields of two runs are handed back run by run, in order. */
  lemma VisibleConcat(a: Document, b: Document)
    ensures Visible(a + b) == Visible(a) + Visible(b)
  {
    KeepConcat(a, b, Ignored);
  }

  /** One field is handed back exactly when its name is not ignored. */
  lemma VisibleOne(f: Field)
    ensures Visible([f]) == if f.name !in Ignored then [f] else []
  {
    assert [f][..0] == [];
  }

  /** A facet without ignored fields is handed back whole. */
  lemma VisibleKeepsAll(doc: Document)
    requires forall k :: 0 <= k < |doc| ==> doc[k].name !in Ignored
    ensures Visible(doc) == doc
  {
    KeepAll(doc, Ignored);
  }

  /** `FacetHandler.FacetType`. */
  datatype FacetType = FieldFacet | RangeFacet | DateFacet | QueryFacet

  function TypeName(t: FacetType): string {
    match t
    case FieldFacet => "fieldFacet"
    case RangeFacet => "rangeFacet"
    case DateFacet => "dateFacet"
    case QueryFacet => "queryFacet"
  }

  /** `FacetType.valueOf(type)`: a null name throws a NullPointerException, a name
      that is no facet type an illegal argument. */
  /** The message `Enum.valueOf` gives for a name no facet type has. */
  const NoFacetType: string := "No enum constant org.opencommercesearch.FacetHandler.FacetType."

  function ParseFacetType(name: Option<string>): (r: Result<FacetType>)
    ensures name.None? ==> r == Err(NullPointer)
    ensures r.Ok? ==> name == Some(TypeName(r.value))
    ensures forall t :: name == Some(TypeName(t)) ==> r == Ok(t)
    ensures name.Some? && r.Err? ==> r == Err(IllegalArgument(NoFacetType + name.value))
  {
    if name.None? then Err(NullPointer)
    else if name.value == "fieldFacet" then Ok(FieldFacet)
    else if name.value == "rangeFacet" then Ok(RangeFacet)
    else if name.value == "dateFacet" then Ok(DateFacet)
    else if name.value == "queryFacet" then Ok(QueryFacet)
    else Err(IllegalArgument(NoFacetType + name.value))
  }

  /** A call `setParams` makes on the query. `addFacetField`,
      `addNumericRangeFacet` and `addFacetQuery` are SolrJ helpers, kept as
      the calls they are. */
  datatype QueryCall =
    | AddFacetField(field: string)
    | AddNumericRangeFacet(field: string, start: int, end: int, gap: int)
    | AddFacetQuery(query: string)
    | QuerySet(name: string, value: string)
    | QueryAdd(name: string, value: string)

  /** The per-field facet parameter name `f.<field>.facet.<param>`. */
  function ParamName(fieldName: string, paramName: string): string {
    "f." + fieldName + ".facet." + paramName
  }

  /** `setParam`: nothing for a null value. */
  function SetParam(fieldName: string, paramName: string, value: Option<string>): (r: seq<QueryCall>)
    ensures |r| <= 1
    ensures r != [] <==> value.Some?
    ensures r != [] ==> r[0] == QuerySet(ParamName(fieldName, paramName), value.value)
  {
    if value.Some? then [QuerySet(ParamName(fieldName, paramName), value.value)] else []
  }

  /** The field name of a facet as it is concatenated: `null` when missing. */
  function NameOf(facet: Document): string {
    Text(Get(facet, FieldFieldName))
  }

  /** The `{!ex=<field>}` tag of a multi-select facet, empty otherwise. */
  function LocalParams(facet: Document): (r: string)
    ensures r == [] <==> !BooleanFromField(Get(facet, FieldMultiSelect))
  {
    if BooleanFromField(Get(facet, FieldMultiSelect)) then "{!ex=" + NameOf(facet) + "}" else ""
  }

  /** A call that sets one per-field parameter of the field. */
  predicate FieldParam(c: QueryCall, fieldName: string) {
    c.QuerySet? && StartsWith(c.name, ParamName(fieldName, ""))
  }

  /** Parameters of one field with different names have different full names. */
  lemma ParamNamesDiffer(fieldName: string, a: string, b: string)
    requires a != b
    ensures ParamName(fieldName, a) != ParamName(fieldName, b)
  {
    var prefix := ParamName(fieldName, "");
    assert ParamName(fieldName, a) == prefix + a && ParamName(fieldName, b) == prefix + b;
    assert (prefix + a)[|prefix|..] == a && (prefix + b)[|prefix|..] == b;
  }

  lemma SetParamIsFieldParam(fieldName: string, paramName: string, value: Option<string>)
    ensures forall c :: c in SetParam(fieldName, paramName, value) ==> FieldParam(c, fieldName)
  {
    assert ParamName(fieldName, paramName) == ParamName(fieldName, "") + paramName;
  }

  /** The per-field parameters of a field facet: limit, mincount and sort when
      present, and `missing` when the facet says so. */
  function FieldParams(facet: Document): (r: seq<QueryCall>)
    ensures |r| <= 4
    ensures forall c :: c in r ==> FieldParam(c, NameOf(facet))
    ensures QuerySet(ParamName(NameOf(facet), "missing"), "true") in r <==> BooleanFromField(Get(facet, FieldMissing))
    ensures (exists v :: QuerySet(ParamName(NameOf(facet), "limit"), v) in r) <==> Get(facet, FieldLimit).Some?
  {
    FieldParamsOf(NameOf(facet), Get(facet, FieldLimit), Get(facet, FieldMinCount), Get(facet, FieldSort),
                  BooleanFromField(Get(facet, FieldMissing)))
  }

  /** `FieldParams` once the field's values are read. */
  function FieldParamsOf(name: string, limit: Option<string>, minCount: Option<string>, sort: Option<string>, missing: bool)
    : (r: seq<QueryCall>)
    ensures |r| <= 4
    ensures forall c :: c in r ==> FieldParam(c, name)
    ensures QuerySet(ParamName(name, "missing"), "true") in r <==> missing
    ensures (exists v :: QuerySet(ParamName(name, "limit"), v) in r) <==> limit.Some?
  {
    var limits := SetParam(name, "limit", limit);
    var others := SetParam(name, "mincount", minCount) + SetParam(name, "sort", sort);
    var last: seq<QueryCall> := if missing then [QuerySet(ParamName(name, "missing"), "true")] else [];
    SetParamIsFieldParam(name, "limit", limit);
    SetParamIsFieldParam(name, "mincount", minCount);
    SetParamIsFieldParam(name, "sort", sort);
    SetParamIsFieldParam(name, "missing", Some("true"));
    ParamNamesDiffer(name, "missing", "limit");
    ParamNamesDiffer(name, "missing", "mincount");
    ParamNamesDiffer(name, "missing", "sort");
    ParamNamesDiffer(name, "limit", "mincount");
    ParamNamesDiffer(name, "limit", "sort");
    assert forall c :: c in others ==> c.name != ParamName(name, "missing") && c.name != ParamName(name, "limit");
    assert limit.Some? ==> QuerySet(ParamName(name, "limit"), limit.value) in limits;
    limits + others + last
  }

  /** `fieldFacet.setParams`: the facet field, tagged when multi-select, then
      its per-field parameters. */
  function FieldFacetCalls(facet: Document): (r: seq<QueryCall>)
    ensures 1 <= |r| <= 5
    ensures r[0] == AddFacetField(LocalParams(facet) + NameOf(facet))
    ensures forall k :: 1 <= k < |r| ==> FieldParam(r[k], NameOf(facet))
    ensures QuerySet(ParamName(NameOf(facet), "missing"), "true") in r <==> BooleanFromField(Get(facet, FieldMissing))
    ensures (exists v :: QuerySet(ParamName(NameOf(facet), "limit"), v) in r) <==> Get(facet, FieldLimit).Some?
  {
    var params := FieldParams(facet);
    assert forall k :: 1 <= k < |params| + 1 ==> ([AddFacetField(LocalParams(facet) + NameOf(facet))] + params)[k] == params[k - 1];
    [AddFacetField(LocalParams(facet) + NameOf(facet))] + params
  }

  /** A range bound: 0 when the field is missing, its integer value otherwise. */
  function Bound(value: Option<string>): (r: Result<int>)
    ensures value.None? ==> r == Ok(0)
    ensures value.Some? ==> r == ParseInt(value.value)
  {
    if value.None? then Ok(0) else ParseInt(value.value)
  }

  /** The calls of `rangeFacet.setParams` once the bounds are read. */
  function RangeCalls(facet: Document, start: int, end: int, gap: int): (r: seq<QueryCall>)
    ensures 5 <= |r| <= 7
    ensures r[0] == AddNumericRangeFacet(NameOf(facet), start, end, gap)
    ensures r[|r| - 4] == QuerySet(ParamName(NameOf(facet), "mincount"), "1")
    ensures r[|r| - 3..] == [QueryAdd(ParamName(NameOf(facet), "range.include"), "lower"),
                             QueryAdd(ParamName(NameOf(facet), "range.other"), "before"),
                             QueryAdd(ParamName(NameOf(facet), "range.other"), "after")]
    ensures QueryAdd("facet.range", LocalParams(facet) + NameOf(facet)) in r
        <==> BooleanFromField(Get(facet, FieldMultiSelect))
    ensures QuerySet(ParamName(NameOf(facet), "hardened"), "true") in r
        <==> BooleanFromField(Get(facet, FieldHardened))
  {
    RangeCallsOf(NameOf(facet), LocalParams(facet), BooleanFromField(Get(facet, FieldHardened)), start, end, gap)
  }

  /** `RangeCalls` once the field name, the local parameters and the
      hardened flag are read. */
  function RangeCallsOf(name: string, local: string, hardened: bool, start: int, end: int, gap: int)
    : (r: seq<QueryCall>)
    ensures 5 <= |r| <= 7
    ensures r[0] == AddNumericRangeFacet(name, start, end, gap)
    ensures r[|r| - 4] == QuerySet(ParamName(name, "mincount"), "1")
    ensures r[|r| - 3..] == [QueryAdd(ParamName(name, "range.include"), "lower"),
                             QueryAdd(ParamName(name, "range.other"), "before"),
                             QueryAdd(ParamName(name, "range.other"), "after")]
    ensures QueryAdd("facet.range", local + name) in r <==> local != []
    ensures QuerySet(ParamName(name, "hardened"), "true") in r <==> hardened
  {
    ParamNamesDiffer(name, "hardened", "mincount");
    ParamNamesDiffer(name, "hardened", "range.include");
    ParamNamesDiffer(name, "hardened", "range.other");
    [AddNumericRangeFacet(name, start, end, gap)]
      + (if local != [] then [QueryAdd("facet.range", local + name)] else [])
      + (if hardened then [QuerySet(ParamName(name, "hardened"), "true")] else [])
      + [QuerySet(ParamName(name, "mincount"), "1"),
         QueryAdd(ParamName(name, "range.include"), "lower"),
         QueryAdd(ParamName(name, "range.other"), "before"),
         QueryAdd(ParamName(name, "range.other"), "after")]
  }

  /** `rangeFacet.setParams`: start, end and gap are read in that order
      before any call is made, and the first that is not a number throws. */
  function RangeFacetCalls(facet: Document): (r: Result<seq<QueryCall>>)
    ensures r.Ok? <==> Bound(Get(facet, FieldStart)).Ok? && Bound(Get(facet, FieldEnd)).Ok?
                       && Bound(Get(facet, FieldGap)).Ok?
    ensures Bound(Get(facet, FieldStart)).Err? ==> r == Err(Bound(Get(facet, FieldStart)).error)
    ensures r.Ok? ==> r.value == RangeCalls(facet, Bound(Get(facet, FieldStart)).value,
                                            Bound(Get(facet, FieldEnd)).value, Bound(Get(facet, FieldGap)).value)
  {
    var start := Bound(Get(facet, FieldStart));
    var end := Bound(Get(facet, FieldEnd));
    var gap := Bound(Get(facet, FieldGap));
    if start.Err? then Err(start.error)
    else if end.Err? then Err(end.error)
    else if gap.Err? then Err(gap.error)
    else Ok(RangeCalls(facet, start.value, end.value, gap.value))
  }

  /** One query of a query facet: trimmed, and escaped unless it opens with
      `[` or closes with `]`. `escape` stands for `ClientUtils.escapeQueryChars`. */
  function FacetQuery(q: string, escape: string -> string): (r: string)
    ensures StartsWith(Trim(q), "[") || EndsWith(Trim(q), "]") ==> r == Trim(q)
    ensures !StartsWith(Trim(q), "[") && !EndsWith(Trim(q), "]") ==> r == escape(Trim(q))
  {
    var t := Trim(q);
    if !StartsWith(t, "[") && !EndsWith(t, "]") then escape(t) else t
  }

  /** `queryFacet.setParams`: one facet query per value of `queries`, in order. */
  function QueryFacetCalls(facet: Document, escape: string -> string): (r: seq<QueryCall>)
    ensures |r| == |Values(facet, FieldQueries)|
    ensures forall k :: 0 <= k < |r| ==>
      r[k] == AddFacetQuery(LocalParams(facet) + NameOf(facet) + ":" + FacetQuery(Values(facet, FieldQueries)[k], escape))
  {
    var queries := Values(facet, FieldQueries);
    seq(|queries|, k requires 0 <= k < |queries| =>
      AddFacetQuery(LocalParams(facet) + NameOf(facet) + ":" + FacetQuery(queries[k], escape)))
  }

  /** The calls one facet makes, or the exception it throws before making any. */
  function FacetCalls(facet: Document, escape: string -> string): (r: Result<seq<QueryCall>>)
    ensures ParseFacetType(Get(facet, FieldType)).Err? ==> r == Err(ParseFacetType(Get(facet, FieldType)).error)
    ensures Get(facet, FieldType) == Some("dateFacet") ==> r == Ok([])
    ensures Get(facet, FieldType) == Some("fieldFacet") ==> r == Ok(FieldFacetCalls(facet))
    ensures Get(facet, FieldType) == Some("rangeFacet") ==> r == RangeFacetCalls(facet)
    ensures Get(facet, FieldType) == Some("queryFacet") ==> r == Ok(QueryFacetCalls(facet, escape))
  {
    match ParseFacetType(Get(facet, FieldType))
    case Err(e) => Err(e)
    case Ok(FieldFacet) => Ok(FieldFacetCalls(facet))
    case Ok(RangeFacet) => RangeFacetCalls(facet)
    case Ok(DateFacet) => Ok([])
    case Ok(QueryFacet) => Ok(QueryFacetCalls(facet, escape))
  }

  /** The registered facets in registration order (`facets.values()`). */
  function Docs(keys: seq<Option<string>>, facets: map<Option<string>, Document>): (r: seq<Document>)
    requires forall k :: k in keys ==> k in facets
    ensures |r| == |keys|
    ensures forall i :: 0 <= i < |keys| ==> r[i] == facets[keys[i]]
  {
    seq(|keys|, i requires 0 <= i < |keys| => facets[keys[i]])
  }

  /** `type.setParams(query, facet)` for the facet's own type, as a value. */
  function CallsFor(escape: string -> string): Document -> Result<seq<QueryCall>> {
    facet => FacetCalls(facet, escape)
  }

  /** The outcome of each facet, in order. */
  function Outcomes(docs: seq<Document>, calls: Document -> Result<seq<QueryCall>>): (r: seq<Result<seq<QueryCall>>>)
    ensures |r| == |docs|
    ensures forall i :: 0 <= i < |docs| ==> r[i] == calls(docs[i])
  {
    seq(|docs|, i requires 0 <= i < |docs| => calls(docs[i]))
  }

  /** The calls of a run of outcomes taken in order, and the exception that
      stops the run, if any: the calls of the outcomes before the first
      failure. */
  function FirstFailure(outcomes: seq<Result<seq<QueryCall>>>): (r: (seq<QueryCall>, Option<Exception>))
    ensures outcomes == [] ==> r == ([], None)
    ensures r.1.None? <==> forall i :: 0 <= i < |outcomes| ==> outcomes[i].Ok?
    ensures r.1.Some? ==> exists i :: (0 <= i < |outcomes| && outcomes[i] == Err(r.1.value)
      && forall j :: 0 <= j < i ==> outcomes[j].Ok?)
  {
    if outcomes == [] then ([], None)
    else
      var init, last := outcomes[..|outcomes| - 1], outcomes[|outcomes| - 1];
      var (calls, error) := FirstFailure(init);
      var r := if error.Some? then (calls, error)
        else
          match last
          case Ok(cs) => (calls + cs, None)
          case Err(e) => (calls, Some(e));
      FirstFailureStep(outcomes, error, r.1);
      r
  }

  /** The error after one more outcome: the earlier error, else the new
      outcome's, else none. */
  lemma FirstFailureStep(outcomes: seq<Result<seq<QueryCall>>>, prior: Option<Exception>, error: Option<Exception>)
    requires outcomes != []
    requires var init := outcomes[..|outcomes| - 1];
      && (prior.None? <==> forall i :: 0 <= i < |init| ==> init[i].Ok?)
      && (prior.Some? ==> exists i :: (0 <= i < |init| && init[i] == Err(prior.value)
        && forall j :: 0 <= j < i ==> init[j].Ok?))
    requires var last := outcomes[|outcomes| - 1];
      error == if prior.Some? then prior else if last.Ok? then None else Some(last.error)
    ensures error.None? <==> forall i :: 0 <= i < |outcomes| ==> outcomes[i].Ok?
    ensures error.Some? ==> exists i :: (0 <= i < |outcomes| && outcomes[i] == Err(error.value)
      && forall j :: 0 <= j < i ==> outcomes[j].Ok?)
  {
    var init := outcomes[..|outcomes| - 1];
    assert forall i :: 0 <= i < |init| ==> init[i] == outcomes[i];
    if prior.Some? {
      var i :| 0 <= i < |init| && init[i] == Err(prior.value) && forall j :: 0 <= j < i ==> init[j].Ok?;
      assert outcomes[i] == Err(error.value);
    } else if error.Some? {
      assert outcomes[|outcomes| - 1] == Err(error.value);
    }
  }

  /** Once an outcome has failed, the later outcomes change nothing. */
  lemma {:induction false} FirstFailureStops(outcomes: seq<Result<seq<QueryCall>>>, i: nat)
    requires i <= |outcomes| && FirstFailure(outcomes[..i]).1.Some?
    ensures FirstFailure(outcomes) == FirstFailure(outcomes[..i])
    decreases |outcomes| - i
  {
    if i < |outcomes| {
      var init := outcomes[..|outcomes| - 1];
      assert init[..i] == outcomes[..i];
      FirstFailureStops(init, i);
    } else {
      assert outcomes[..i] == outcomes;
    }
  }

  /** The calls `setParams` makes for the registered facets `keys` in order,
      and the exception that stops it, if any: the calls of the facets
      before the first that throws. */
  function ParamsOf(keys: seq<Option<string>>, facets: map<Option<string>, Document>, escape: string -> string)
    : (r: (seq<QueryCall>, Option<Exception>))
    requires forall k :: k in keys ==> k in facets
    ensures keys == [] ==> r == ([], None)
    ensures r.1.None? <==> forall i :: 0 <= i < |keys| ==> FacetCalls(facets[keys[i]], escape).Ok?
    ensures r.1.Some? ==> exists i :: (0 <= i < |keys| && FacetCalls(facets[keys[i]], escape) == Err(r.1.value)
      && forall j :: 0 <= j < i ==> FacetCalls(facets[keys[j]], escape).Ok?)
  {
    var docs := Docs(keys, facets);
    var outcomes := Outcomes(docs, CallsFor(escape));
    var r := FirstFailure(outcomes);
    assert r.1.Some? ==> exists i :: (0 <= i < |keys| && FacetCalls(facets[keys[i]], escape) == Err(r.1.value)
      && forall j :: 0 <= j < i ==> FacetCalls(facets[keys[j]], escape).Ok?) by {
      if r.1.Some? {
        var i :| 0 <= i < |outcomes| && outcomes[i] == Err(r.1.value) && forall j :: 0 <= j < i ==> outcomes[j].Ok?;
        assert FacetCalls(facets[keys[i]], escape) == Err(r.1.value);
      }
    }
    r
  }

  /** Once a facet has thrown, the later facets make no calls. */
  lemma ParamsOfStops(keys: seq<Option<string>>, facets: map<Option<string>, Document>,
                      escape: string -> string, i: nat)
    requires forall k :: k in keys ==> k in facets
    requires i <= |keys| && ParamsOf(keys[..i], facets, escape).1.Some?
    ensures ParamsOf(keys, facets, escape) == ParamsOf(keys[..i], facets, escape)
  {
    var docs := Docs(keys, facets);
    DocsPrefix(keys, facets, i);
    OutcomesPrefix(docs, CallsFor(escape), i);
    FirstFailureStops(Outcomes(docs, CallsFor(escape)), i);
  }

  lemma DocsPrefix(keys: seq<Option<string>>, facets: map<Option<string>, Document>, i: nat)
    requires forall k :: k in keys ==> k in facets
    requires i <= |keys|
    ensures Docs(keys[..i], facets) == Docs(keys, facets)[..i]
  {
  }

  lemma OutcomesPrefix(docs: seq<Document>, calls: Document -> Result<seq<QueryCall>>, i: nat)
    requires i <= |docs|
    ensures Outcomes(docs[..i], calls) == Outcomes(docs, calls)[..i]
  {
  }

  /** The loop of `setParams` over the facets in registration order: each
      facet's calls are made in turn, and the first exception stops it. */
  method CallsOf(docs: seq<Document>, calls: Document -> Result<seq<QueryCall>>) returns (made: seq<QueryCall>, error: Option<Exception>)
    ensures (made, error) == FirstFailure(Outcomes(docs, calls))
  {
    made, error := [], None;
    ghost var outcomes := Outcomes(docs, calls);
    for i := 0 to |docs|
      invariant FirstFailure(outcomes[..i]) == (made, None)
    {
      assert outcomes[..i + 1][..i] == outcomes[..i];
      var facetCalls := calls(docs[i]);
      if facetCalls.Err? {
        error := Some(facetCalls.error);
        FirstFailureStops(outcomes, i + 1);
        return;
      }
      made := made + facetCalls.value;
    }
    assert outcomes[..|docs|] == outcomes;
  }

  /** The named list of one facet: its fields but the ignored ones, in order. */
  method VisibleFields(facet: Document) returns (namedList: Document)
    ensures namedList == Visible(facet)
  {
    namedList := [];
    for j := 0 to |facet|
      invariant namedList == Visible(facet[..j])
    {
      assert facet[..j + 1][..j] == facet[..j];
      if facet[j].name !in Ignored {
        namedList := namedList + [facet[j]];
      }
    }
    assert facet[..|facet|] == facet;
  }

  class FacetHandler {
    /** The keys of the `facets` LinkedHashMap, in insertion order. A facet
        without a field name is registered under null. */
    var keys: seq<Option<string>>
    var facets: map<Option<string>, Document>

    ghost predicate Valid()
      reads this
    {
      Distinct(keys) && forall n :: n in facets <==> n in keys
    }

    constructor()
      ensures Valid() && keys == [] && facets == map[]
    {
      keys := [];
      facets := map[];
    }

    /** `addFacet`: the facet is registered under its field name. A later
        facet for the same field replaces the earlier one in its place; a new
        field goes last. */
    method AddFacet(facet: Document)
      requires Valid()
      modifies this
      ensures Valid()
      ensures facets == old(facets)[Get(facet, FieldFieldName) := facet]
      ensures Get(facet, FieldFieldName) in old(facets) ==> keys == old(keys)
      ensures Get(facet, FieldFieldName) !in old(facets) ==> keys == old(keys) + [Get(facet, FieldFieldName)]
    {
      var fieldName := Get(facet, FieldFieldName);
      if fieldName !in facets {
        keys := keys + [fieldName];
      }
      facets := facets[fieldName := facet];
    }

    method Clear()
      modifies this
      ensures Valid() && keys == [] && facets == map[]
    {
      keys := [];
      facets := map[];
    }

    /** `getFacetItem`: null for a field no facet is registered under. */
    function GetFacetItem(fieldName: Option<string>): (r: Option<Document>)
      reads this
      ensures r.Some? <==> fieldName in facets
      ensures r.Some? ==> r.value == facets[fieldName]
    {
      if fieldName in facets then Some(facets[fieldName]) else None
    }

    /** `getFacets`: one list per registered facet, in registration order,
        holding the facet's fields but the ignored ones. */
    method GetFacets() returns (result: array<Document>)
      requires Valid()
      ensures fresh(result)
      ensures result.Length == |keys|
      ensures forall i :: 0 <= i < |keys| ==> result[i] == Visible(facets[keys[i]])
    {
      result := new Document[|keys|];
      for index := 0 to |keys|
        invariant forall i :: 0 <= i < index ==> result[i] == Visible(facets[keys[i]])
      {
        var namedList := VisibleFields(facets[keys[index]]);
        result[index] := namedList;
      }
    }

    /** `setParams`: the calls made on the query, facet by facet in
        registration order; an exception stops it. Nothing is called when
        no facet is registered. */
    method SetParams(escape: string -> string) returns (calls: seq<QueryCall>, error: Option<Exception>)
      requires Valid()
      ensures (calls, error) == ParamsOf(keys, facets, escape)
      ensures keys == [] ==> calls == [] && error == None
    {
      if |keys| == 0 {
        return [], None;
      }
      calls, error := CallsOf(Docs(keys, facets), CallsFor(escape));
    }
  }
}
