/**
  * Name-based binding of a request object (`resolveArgument`): a fresh object of the
  * handler's parameter type is filled from the request by a fixed sequence of
  * "set the field of this name, if declared, to this value, if not null and convertible"
  * steps. The order is: the JSON/XML body, the authenticated-user request attribute,
  * the path variables, the query parameters (first value), the pageable (always), the
  * filters (when there are any) and the authentication (when authenticated); a later
  * step overwrites an earlier one, and a step that cannot apply is skipped without
  * affecting the others.
  */
module Binding {
  import opened Wrappers
  import opened JavaStrings
  import opened CommonConstant
  import opened WebRequest
  import opened Pagination
  import opened FilterParsing

  /** The runtime class of a value, and the declared type of a field; every value is
      assignable to `KObject`. */
  datatype Kind = KString | KPageable | KFilters | KAuthentication | KUser | KNamed(name: string) | KObject

  /** A value handed to `setFieldIfExists`, or held by a bound field. `UserValue` is the
      opaque authenticated-user attribute and `Converted` a value the object mapper made
      of another type. */
  datatype Value =
    | Null
    | Text(s: string)
    | PageableValue(p: PageRequest)
    | FiltersValue(fs: seq<FilterCriteria>)
    | Principal(name: string)
    | UserValue(user: string)
    | Converted(kind: Kind, repr: string)

  function KindOf(v: Value): Kind
  {
    match v
    case Null => KObject
    case Text(_) => KString
    case PageableValue(_) => KPageable
    case FiltersValue(_) => KFilters
    case Principal(_) => KAuthentication
    case UserValue(_) => KUser
    case Converted(k, _) => k
  }

  /** `type.isAssignableFrom(value.getClass())` */
  predicate Assignable(t: Kind, v: Value)
  {
    t == KObject || KindOf(v) == t
  }

  /** The object mapper's `convertValue(value, type)`: `None` where it throws
      IllegalArgumentException. It is an argument of the model. */
  type Coercion = (Value, Kind) -> Option<Value>

  /** `convert(value, type)`: an assignable value as it is, any other through the mapper. */
  function ConvertTo(v: Value, t: Kind, coerce: Coercion): (r: Option<Value>)
    ensures Assignable(t, v) ==> r == Some(v)
    ensures r.None? ==> !Assignable(t, v) && coerce(v, t).None?
  {
    if Assignable(t, v) then Some(v) else coerce(v, t)
  }

  /** One `setFieldIfExists(target, name, value)` call. */
  type Write = (string, Value)

  /** Whether a call sets its field: the value is not null, a field of that name is
      declared, and the value converts to the field's type. */
  predicate Effective(declared: map<string, Kind>, w: Write, coerce: Coercion)
  {
    w.1 != Null && w.0 in declared && ConvertTo(w.1, declared[w.0], coerce).Some?
  }

  /** The fields after one `setFieldIfExists` call: the named field set to the converted
      value when the call is effective, all fields unchanged otherwise. */
  function SetField(declared: map<string, Kind>, fields: map<string, Value>, w: Write, coerce: Coercion): (r: map<string, Value>)
    ensures Effective(declared, w, coerce) ==> r == fields[w.0 := ConvertTo(w.1, declared[w.0], coerce).value]
    ensures !Effective(declared, w, coerce) ==> r == fields
  {
    var (name, value) := w;
    if value == Null || name !in declared then fields
    else match ConvertTo(value, declared[name], coerce)
      case None => fields
      case Some(c) => fields[name := c]
  }

  /** The fields after a sequence of calls, in order. */
  function SetFields(declared: map<string, Kind>, fields: map<string, Value>, ws: seq<Write>, coerce: Coercion): map<string, Value>
  {
    if ws == [] then fields
    else SetField(declared, SetFields(declared, fields, ws[..|ws| - 1], coerce), ws[|ws| - 1], coerce)
  }

  /** A request object under binding: the declared fields of its class and the values
      bound so far (a field without a value is null). */
  class BoundRequest {
    const declared: map<string, Kind>
    var fields: map<string, Value>

    /** Only declared fields hold values. */
    predicate Valid()
      reads this
    {
      fields.Keys <= declared.Keys
    }

    /** `clazz.getDeclaredConstructor().newInstance()`: every field null. */
    constructor (declared: map<string, Kind>)
      ensures this.declared == declared && fields == map[] && Valid()
    {
      this.declared := declared;
      fields := map[];
    }

    /** `setFieldIfExists(this, name, value)`: a null value, an undeclared name or a failed
        conversion leaves the object as it is; otherwise only the named field changes. */
    method SetFieldIfExists(name: string, value: Value, coerce: Coercion)
      requires Valid()
      modifies this
      ensures Valid()
      ensures fields == SetField(declared, old(fields), (name, value), coerce)
    {
      if value == Null || name !in declared {
        return;
      }
      var converted := ConvertTo(value, declared[name], coerce);
      if converted.Some? {
        fields := fields[name := converted.value];
      }
    }
  }

  // ---------------------------------------------------------------------------
  // The request

  /** The servlet side of a request: content length and type, the body object the mapper
      reads (given by its properties; `None` when it does not parse) and the
      authenticated-user attribute. */
  datatype ServletRequest = ServletRequest(contentLength: int, contentType: Option<string>,
                                           body: Option<map<string, Value>>, user: Option<Value>)

  /** The authentication of the security context. */
  datatype Authentication = Authentication(name: string, authenticated: bool)

  /** What `resolveArgument` reads: the servlet request (when the native request is one),
      the URI template variables, the query parameters and the authentication. */
  datatype Request = Request(servlet: Option<ServletRequest>, pathVars: Option<seq<(string, string)>>,
                             params: ParamMap, auth: Option<Authentication>)

  /** `hasRequestBody`: a positive content length and a JSON or XML content type. */
  predicate HasRequestBody(contentLength: int, contentType: Option<string>)
    ensures HasRequestBody(contentLength, contentType) ==> contentLength > 0 && contentType.Some?
  {
    contentLength > 0 && contentType.Some?
      && (Contains(contentType.value, "application/json") || Contains(contentType.value, "application/xml"))
  }

  /** A JSON content type with parameters (e.g. "; charset=UTF-8") announces a body, and
      an empty body never does. */
  lemma HasRequestBodyCases(n: int, parameters: string, ct: Option<string>)
    ensures n > 0 ==> HasRequestBody(n, Some("application/json" + parameters)) && HasRequestBody(n, Some("application/xml" + parameters))
    ensures n <= 0 ==> !HasRequestBody(n, ct)
    ensures ct.None? ==> !HasRequestBody(n, ct)
  {
    assert StartsWith("application/json" + parameters, "application/json");
    assert StartsWith("application/xml" + parameters, "application/xml");
  }

  /** `BeanUtils.copyProperties(body, target)` on a fresh target: every declared property
      of the body. */
  function CopyProperties(declared: map<string, Kind>, body: map<string, Value>): (r: map<string, Value>)
    ensures r.Keys <= declared.Keys
    ensures forall k :: k in r <==> k in body && k in declared
    ensures forall k :: k in r ==> r[k] == body[k]
  {
    map k | k in body.Keys && k in declared.Keys :: body[k]
  }

  /** Whether `bindRequestBody` reads a body: the request announces one and it parses. */
  predicate ReadsBody(req: Request)
  {
    req.servlet.Some? && HasRequestBody(req.servlet.value.contentLength, req.servlet.value.contentType)
    && req.servlet.value.body.Some?
  }

  /** The fields `bindRequestBody` leaves on the fresh object: every declared property of
      the body, with the body's value, when a body is read; none otherwise. */
  function BodyFields(declared: map<string, Kind>, req: Request): (r: map<string, Value>)
    ensures r.Keys <= declared.Keys
    ensures !ReadsBody(req) ==> r == map[]
    ensures ReadsBody(req) ==> forall k :: k in r <==> k in declared && k in req.servlet.value.body.value
    ensures ReadsBody(req) ==> forall k :: k in r ==> r[k] == req.servlet.value.body.value[k]
  {
    if ReadsBody(req) then CopyProperties(declared, req.servlet.value.body.value) else map[]
  }

  /** `bindAuthenticatedUser` */
  function UserWrites(req: Request): seq<Write>
  {
    if req.servlet.Some? && req.servlet.value.user.Some? && req.servlet.value.user.value != Null
    then [("user", req.servlet.value.user.value)] else []
  }

  /** `bindPathVariables` */
  function PathWrites(pathVars: Option<seq<(string, string)>>): seq<Write>
  {
    if pathVars.None? then [] else PathVarWrites(pathVars.value)
  }

  function PathVarWrites(vars: seq<(string, string)>): (ws: seq<Write>)
    ensures |ws| == |vars|
    ensures forall k :: 0 <= k < |vars| ==> ws[k] == (vars[k].0, Text(vars[k].1))
  {
    if vars == [] then [] else PathVarWrites(vars[..|vars| - 1]) + [(vars[|vars| - 1].0, Text(vars[|vars| - 1].1))]
  }

  /** `bindQueryParameters`: the first value of every parameter that has one. */
  function QueryWrites(params: ParamMap): (ws: seq<Write>)
    ensures |ws| <= |params|
  {
    if params == [] then []
    else
      var (key, values) := params[|params| - 1];
      QueryWrites(params[..|params| - 1]) + (if |values| > 0 then [(key, Text(values[0]))] else [])
  }

  /** `bindPagination`, `bindFilters` and `bindAuthentication`, given the parsed pageable
      and filters. */
  function LateWrites(pageable: PageRequest, filters: seq<FilterCriteria>, auth: Option<Authentication>): seq<Write>
  {
    [(ParamPageable, PageableValue(pageable))]
      + (if filters != [] then [(ParamFilters, FiltersValue(filters))] else [])
      + (if auth.Some? && auth.value.authenticated then [("authentication", Principal(auth.value.name))] else [])
  }

  /** The calls of `resolveArgument` after the body, in order. */
  function Writes(req: Request): (r: seq<Write>)
    ensures (ParamPageable, PageableValue(PageableOf(req.params))) in r
  {
    UserWrites(req) + PathWrites(req.pathVars) + QueryWrites(req.params)
      + LateWrites(PageableOf(req.params), Filters(req.params), req.auth)
  }

  /** The fields of the object `resolveArgument` returns. */
  function Bound(declared: map<string, Kind>, req: Request, coerce: Coercion): (r: map<string, Value>)
    ensures r.Keys <= declared.Keys
  {
    SetFieldsDeclared(declared, BodyFields(declared, req), Writes(req), coerce);
    SetFields(declared, BodyFields(declared, req), Writes(req), coerce)
  }

  // ---------------------------------------------------------------------------
  // Properties of a sequence of writes

  /** Running two sequences of calls is running the first, then the second. */
  lemma {:induction false} SetFieldsAppend(declared: map<string, Kind>, fields: map<string, Value>, a: seq<Write>, b: seq<Write>, coerce: Coercion)
    ensures SetFields(declared, fields, a + b, coerce) == SetFields(declared, SetFields(declared, fields, a, coerce), b, coerce)
    decreases |b|
  {
    if b == [] {
      assert a + b == a;
    } else {
      var b' := b[..|b| - 1];
      assert (a + b)[..|a + b| - 1] == a + b';
      SetFieldsAppend(declared, fields, a, b', coerce);
    }
  }

  /** Binding never sets an undeclared field. */
  lemma {:induction false} SetFieldsDeclared(declared: map<string, Kind>, fields: map<string, Value>, ws: seq<Write>, coerce: Coercion)
    requires fields.Keys <= declared.Keys
    ensures SetFields(declared, fields, ws, coerce).Keys <= declared.Keys
  {
    if ws != [] {
      SetFieldsDeclared(declared, fields, ws[..|ws| - 1], coerce);
    }
  }

  /** A field that no effective call names keeps its value (or stays null). */
  lemma {:induction false} SetFieldsUntouched(declared: map<string, Kind>, fields: map<string, Value>, ws: seq<Write>, coerce: Coercion, name: string)
    requires forall k :: 0 <= k < |ws| && ws[k].0 == name ==> !Effective(declared, ws[k], coerce)
    ensures var r := SetFields(declared, fields, ws, coerce);
      (name in r <==> name in fields) && (name in r ==> r[name] == fields[name])
  {
    if ws != [] {
      SetFieldsUntouched(declared, fields, ws[..|ws| - 1], coerce, name);
    }
  }

  /** The last effective call to a field decides its value. */
  lemma {:induction false} LastWriteWins(declared: map<string, Kind>, fields: map<string, Value>, ws: seq<Write>, coerce: Coercion, i: nat)
    requires i < |ws| && Effective(declared, ws[i], coerce)
    requires forall k :: i < k < |ws| && ws[k].0 == ws[i].0 ==> !Effective(declared, ws[k], coerce)
    ensures var r := SetFields(declared, fields, ws, coerce);
      ws[i].0 in r && r[ws[i].0] == ConvertTo(ws[i].1, declared[ws[i].0], coerce).value
  {
    var n := |ws| - 1;
    if i == n {
      assert ws[..n + 1] == ws;
    } else {
      LastWriteWins(declared, fields, ws[..n], coerce, i);
    }
  }

  // ---------------------------------------------------------------------------
  // Precedence

  /** A call in the tail of a run wins when no later call of the tail names its field. */
  lemma WinsInTail(declared: map<string, Kind>, fields: map<string, Value>, early: seq<Write>, late: seq<Write>, j: nat, coerce: Coercion)
    requires j < |late| && Effective(declared, late[j], coerce)
    requires forall k :: j < k < |late| ==> late[k].0 != late[j].0
    ensures var r := SetFields(declared, fields, early + late, coerce);
      late[j].0 in r && r[late[j].0] == ConvertTo(late[j].1, declared[late[j].0], coerce).value
  {
    var ws := early + late;
    assert forall k :: |early| <= k < |ws| ==> ws[k] == late[k - |early|];
    LastWriteWins(declared, fields, ws, coerce, |early| + j);
  }

  /** The calls of `resolveArgument` before the pageable. */
  function EarlyWrites(req: Request): seq<Write>
  {
    UserWrites(req) + PathWrites(req.pathVars) + QueryWrites(req.params)
  }

  /** The last three calls: the pageable first, then the filters when there are any, then
      the authentication. */
  lemma LateWritesShape(pageable: PageRequest, filters: seq<FilterCriteria>, auth: Option<Authentication>)
    ensures var late := LateWrites(pageable, filters, auth);
      && |late| >= 1 && late[0] == (ParamPageable, PageableValue(pageable))
      && (forall k :: 1 <= k < |late| ==> late[k].0 != ParamPageable)
      && (filters != [] ==> |late| >= 2 && late[1] == (ParamFilters, FiltersValue(filters)))
      && (filters == [] ==> forall k :: 0 <= k < |late| ==> late[k].0 != ParamFilters)
      && (forall k :: 0 <= k < |late| ==> late[k].0 in {ParamPageable, ParamFilters, "authentication"})
      && (auth.Some? && auth.value.authenticated ==> late[|late| - 1] == ("authentication", Principal(auth.value.name)))
  {
  }

  /** What the last three calls leave in the fields they name, after any earlier calls. */
  lemma LateWins(declared: map<string, Kind>, fields: map<string, Value>, early: seq<Write>, pageable: PageRequest,
                 filters: seq<FilterCriteria>, auth: Option<Authentication>, coerce: Coercion)
    ensures var r := SetFields(declared, fields, early + LateWrites(pageable, filters, auth), coerce);
      && (ParamPageable in declared && declared[ParamPageable] in {KPageable, KObject} ==>
            ParamPageable in r && r[ParamPageable] == PageableValue(pageable))
      && (ParamFilters in declared && declared[ParamFilters] in {KFilters, KObject} && filters != [] ==>
            ParamFilters in r && r[ParamFilters] == FiltersValue(filters))
      && ("authentication" in declared && declared["authentication"] in {KAuthentication, KObject}
          && auth.Some? && auth.value.authenticated ==>
            "authentication" in r && r["authentication"] == Principal(auth.value.name))
  {
    var late := LateWrites(pageable, filters, auth);
    LateWritesShape(pageable, filters, auth);
    if ParamPageable in declared && declared[ParamPageable] in {KPageable, KObject} {
      WinsInTail(declared, fields, early, late, 0, coerce);
    }
    if ParamFilters in declared && declared[ParamFilters] in {KFilters, KObject} && filters != [] {
      WinsInTail(declared, fields, early, late, 1, coerce);
    }
    if "authentication" in declared && declared["authentication"] in {KAuthentication, KObject}
       && auth.Some? && auth.value.authenticated {
      WinsInTail(declared, fields, early, late, |late| - 1, coerce);
    }
  }

  /** The pageable is always bound after the body, the path and the query: whatever they
      said (a query parameter named "pageable" included), a pageable field ends up holding
      the parsed page request. */
  lemma PageableAlwaysBound(declared: map<string, Kind>, req: Request, coerce: Coercion)
    requires ParamPageable in declared && declared[ParamPageable] in {KPageable, KObject}
    ensures var r := Bound(declared, req, coerce);
      ParamPageable in r && r[ParamPageable] == PageableValue(PageableOf(req.params))
  {
    LateWins(declared, BodyFields(declared, req), EarlyWrites(req), PageableOf(req.params), Filters(req.params), req.auth, coerce);
  }

  /** Filters are bound whenever there are any, overriding anything the body, path or
      query gave the field. */
  lemma FiltersBoundWhenPresent(declared: map<string, Kind>, req: Request, coerce: Coercion)
    requires ParamFilters in declared && declared[ParamFilters] in {KFilters, KObject}
    requires Filters(req.params) != []
    ensures var r := Bound(declared, req, coerce);
      ParamFilters in r && r[ParamFilters] == FiltersValue(Filters(req.params))
  {
    LateWins(declared, BodyFields(declared, req), EarlyWrites(req), PageableOf(req.params), Filters(req.params), req.auth, coerce);
  }

  /** Without filters the filters field keeps what the earlier steps gave it. */
  lemma FiltersUntouchedWhenAbsent(declared: map<string, Kind>, req: Request, coerce: Coercion)
    requires Filters(req.params) == []
    ensures var r := Bound(declared, req, coerce);
      var before := SetFields(declared, BodyFields(declared, req), EarlyWrites(req), coerce);
      (ParamFilters in r <==> ParamFilters in before) && (ParamFilters in r ==> r[ParamFilters] == before[ParamFilters])
  {
    var late := LateWrites(PageableOf(req.params), Filters(req.params), req.auth);
    LateWritesShape(PageableOf(req.params), Filters(req.params), req.auth);
    assert Writes(req) == EarlyWrites(req) + late;
    SetFieldsAppend(declared, BodyFields(declared, req), EarlyWrites(req), late, coerce);
    var before := SetFields(declared, BodyFields(declared, req), EarlyWrites(req), coerce);
    SetFieldsUntouched(declared, before, late, coerce, ParamFilters);
  }

  /** An authenticated principal is always bound, last of all. */
  lemma AuthenticationBoundLast(declared: map<string, Kind>, req: Request, coerce: Coercion)
    requires "authentication" in declared && declared["authentication"] in {KAuthentication, KObject}
    requires req.auth.Some? && req.auth.value.authenticated
    ensures var r := Bound(declared, req, coerce);
      "authentication" in r && r["authentication"] == Principal(req.auth.value.name)
  {
    LateWins(declared, BodyFields(declared, req), EarlyWrites(req), PageableOf(req.params), Filters(req.params), req.auth, coerce);
  }

  /** The query calls of two runs of parameters concatenate. */
  lemma {:induction false} QueryWritesAppend(a: ParamMap, b: ParamMap)
    ensures QueryWrites(a + b) == QueryWrites(a) + QueryWrites(b)
    decreases |b|
  {
    if b == [] {
      assert a + b == a;
    } else {
      var b' := b[..|b| - 1];
      assert (a + b)[..|a + b| - 1] == a + b';
      QueryWritesAppend(a, b');
    }
  }

  /** Query calls only name parameters of the map. */
  lemma {:induction false} QueryWritesNames(params: ParamMap, name: string)
    requires forall j :: 0 <= j < |params| ==> params[j].0 != name
    ensures forall k :: 0 <= k < |QueryWrites(params)| ==> QueryWrites(params)[k].0 != name
  {
    if params != [] {
      QueryWritesNames(params[..|params| - 1], name);
    }
  }

  /** The query calls around one parameter that has a value. */
  lemma QueryWritesAround(params: ParamMap, i: nat)
    requires i < |params| && |params[i].1| > 0
    ensures QueryWrites(params)
         == QueryWrites(params[..i]) + [(params[i].0, Text(params[i].1[0]))] + QueryWrites(params[i + 1..])
  {
    assert params == params[..i] + [params[i]] + params[i + 1..];
    QueryWritesAppend(params[..i] + [params[i]], params[i + 1..]);
    QueryWritesAppend(params[..i], [params[i]]);
    assert [params[i]][..0] == [];
  }

  /** A call followed only by calls to other fields wins. */
  lemma WinsBeforeOthers(declared: map<string, Kind>, fields: map<string, Value>, early: seq<Write>, w: Write,
                         others: seq<Write>, coerce: Coercion)
    requires Effective(declared, w, coerce)
    requires forall k :: 0 <= k < |others| ==> others[k].0 != w.0
    ensures var r := SetFields(declared, fields, early + ([w] + others), coerce);
      w.0 in r && r[w.0] == ConvertTo(w.1, declared[w.0], coerce).value
  {
    var tail := [w] + others;
    assert forall k :: 0 < k < |tail| ==> tail[k] == others[k - 1];
    WinsInTail(declared, fields, early, tail, 0, coerce);
  }

  /** Two runs of calls that both avoid a field avoid it together. */
  lemma OtherNames(a: seq<Write>, b: seq<Write>, name: string)
    requires forall k :: 0 <= k < |a| ==> a[k].0 != name
    requires forall k :: 0 <= k < |b| ==> b[k].0 != name
    ensures forall k :: 0 <= k < |a + b| ==> (a + b)[k].0 != name
  {
  }

  /** A query parameter overrides the body, the authenticated-user attribute and any path
      variable of the same name: when its first value converts, the field holds it. */
  lemma QueryOverridesEarlierSources(declared: map<string, Kind>, req: Request, coerce: Coercion, i: nat)
    requires i < |req.params| && |req.params[i].1| > 0
    requires forall j :: 0 <= j < |req.params| && j != i ==> req.params[j].0 != req.params[i].0
    requires req.params[i].0 !in {ParamPageable, ParamFilters, "authentication"}
    requires Effective(declared, (req.params[i].0, Text(req.params[i].1[0])), coerce)
    ensures var r := Bound(declared, req, coerce);
      var name := req.params[i].0;
      name in r && r[name] == ConvertTo(Text(req.params[i].1[0]), declared[name], coerce).value
  {
    var late := LateWrites(PageableOf(req.params), Filters(req.params), req.auth);
    LateWritesShape(PageableOf(req.params), Filters(req.params), req.auth);
    QueryWins(declared, BodyFields(declared, req), UserWrites(req) + PathWrites(req.pathVars), req.params, i, late, coerce);
  }

  /** The query part of the writes, between any earlier and later calls. */
  lemma QueryWins(declared: map<string, Kind>, fields: map<string, Value>, before: seq<Write>, params: ParamMap,
                  i: nat, late: seq<Write>, coerce: Coercion)
    requires i < |params| && |params[i].1| > 0
    requires forall j :: 0 <= j < |params| && j != i ==> params[j].0 != params[i].0
    requires forall k :: 0 <= k < |late| ==> late[k].0 != params[i].0
    requires Effective(declared, (params[i].0, Text(params[i].1[0])), coerce)
    ensures var r := SetFields(declared, fields, before + QueryWrites(params) + late, coerce);
      var name := params[i].0;
      name in r && r[name] == ConvertTo(Text(params[i].1[0]), declared[name], coerce).value
  {
    var name := params[i].0;
    var w := (name, Text(params[i].1[0]));
    var after := params[i + 1..];
    QueryWritesAround(params, i);
    assert forall j :: 0 <= j < |after| ==> after[j] == params[i + 1 + j];
    QueryWritesNames(after, name);
    var mid := QueryWrites(after);
    var early := before + QueryWrites(params[..i]);
    OtherNames(mid, late, name);
    assert before + QueryWrites(params) + late == early + ([w] + (mid + late));
    WinsBeforeOthers(declared, fields, early, w, mid + late, coerce);
  }

  // ---------------------------------------------------------------------------
  // resolveArgument

  /** `bindRequestBody` on the fresh object. */
  method BindRequestBody(obj: BoundRequest, req: Request)
    requires obj.Valid() && obj.fields == map[]
    modifies obj
    ensures obj.Valid() && obj.fields == BodyFields(obj.declared, req)
  {
    if req.servlet.None? {
      return;
    }
    var servlet := req.servlet.value;
    if !HasRequestBody(servlet.contentLength, servlet.contentType) {
      return;
    }
    if servlet.body.Some? {
      obj.fields := CopyProperties(obj.declared, servlet.body.value);
    }
  }

  /** Runs the calls one after the other on the object. */
  method SetEach(obj: BoundRequest, ws: seq<Write>, coerce: Coercion)
    requires obj.Valid()
    modifies obj
    ensures obj.Valid() && obj.fields == SetFields(obj.declared, old(obj.fields), ws, coerce)
  {
    ghost var start := obj.fields;
    for i := 0 to |ws|
      invariant obj.Valid() && obj.fields == SetFields(obj.declared, start, ws[..i], coerce)
    {
      assert ws[..i + 1][..i] == ws[..i];
      obj.SetFieldIfExists(ws[i].0, ws[i].1, coerce);
    }
    assert ws[..|ws|] == ws;
  }

  /** `bindQueryParameters`: each parameter with a value sets the field of its name to
      its first value, in order. */
  method BindQueryParameters(obj: BoundRequest, params: ParamMap, coerce: Coercion)
    requires obj.Valid()
    modifies obj
    ensures obj.Valid() && obj.fields == SetFields(obj.declared, old(obj.fields), QueryWrites(params), coerce)
  {
    ghost var start := obj.fields;
    for i := 0 to |params|
      invariant obj.Valid() && obj.fields == SetFields(obj.declared, start, QueryWrites(params[..i]), coerce)
    {
      assert params[..i + 1][..i] == params[..i];
      var (key, values) := params[i];
      if |values| > 0 {
        var one: seq<Write> := [(key, Text(values[0]))];
        assert QueryWrites(params[..i + 1]) == QueryWrites(params[..i]) + one;
        ghost var before := SetFields(obj.declared, start, QueryWrites(params[..i]), coerce);
        SetFieldsAppend(obj.declared, start, QueryWrites(params[..i]), one, coerce);
        assert one[..0] == [];
        assert SetFields(obj.declared, before, one, coerce) == SetField(obj.declared, before, (key, Text(values[0])), coerce);
        obj.SetFieldIfExists(key, Text(values[0]), coerce);
      } else {
        assert QueryWrites(params[..i + 1]) == QueryWrites(params[..i]);
      }
    }
    assert params[..|params|] == params;
  }

  /** `bindAuthenticatedUser`: the request's user, when there is one, into "user". */
  method BindAuthenticatedUser(obj: BoundRequest, req: Request, coerce: Coercion)
    requires obj.Valid()
    modifies obj
    ensures obj.Valid() && obj.fields == SetFields(obj.declared, old(obj.fields), UserWrites(req), coerce)
  {
    if req.servlet.Some? && req.servlet.value.user.Some? && req.servlet.value.user.value != Null {
      var w := ("user", req.servlet.value.user.value);
      obj.SetFieldIfExists(w.0, w.1, coerce);
      SetFieldsOne(obj.declared, old(obj.fields), w, coerce);
    }
  }

  /** `bindPathVariables`: every path variable, when the request has any, in order. */
  method BindPathVariables(obj: BoundRequest, pathVars: Option<seq<(string, string)>>, coerce: Coercion)
    requires obj.Valid()
    modifies obj
    ensures obj.Valid() && obj.fields == SetFields(obj.declared, old(obj.fields), PathWrites(pathVars), coerce)
  {
    if pathVars.Some? {
      SetEach(obj, PathVarWrites(pathVars.value), coerce);
    }
  }

  /** `bindPagination`: the parsed page request into "pageable". */
  method BindPagination(obj: BoundRequest, params: ParamMap, coerce: Coercion)
    requires obj.Valid()
    modifies obj
    ensures obj.Valid() && obj.fields == SetField(obj.declared, old(obj.fields), (ParamPageable, PageableValue(PageableOf(params))), coerce)
  {
    var pageable := CreatePageable(params);
    obj.SetFieldIfExists(ParamPageable, PageableValue(pageable), coerce);
  }

  /** `bindFilters`: the parsed filters into "filters", unless there are none. */
  method BindFilters(obj: BoundRequest, params: ParamMap, coerce: Coercion)
    requires obj.Valid()
    modifies obj
    ensures obj.Valid()
    ensures obj.fields == if Filters(params) != [] then SetField(obj.declared, old(obj.fields), (ParamFilters, FiltersValue(Filters(params))), coerce)
                         else old(obj.fields)
  {
    var filters := ParseFilters(params);
    if filters != [] {
      obj.SetFieldIfExists(ParamFilters, FiltersValue(filters), coerce);
    }
  }

  /** `bindAuthentication`: an authenticated principal into "authentication". */
  method BindAuthentication(obj: BoundRequest, auth: Option<Authentication>, coerce: Coercion)
    requires obj.Valid()
    modifies obj
    ensures obj.Valid()
    ensures obj.fields == if auth.Some? && auth.value.authenticated
                          then SetField(obj.declared, old(obj.fields), ("authentication", Principal(auth.value.name)), coerce)
                          else old(obj.fields)
  {
    if auth.Some? && auth.value.authenticated {
      obj.SetFieldIfExists("authentication", Principal(auth.value.name), coerce);
    }
  }

  /** `resolveArgument`: a fresh object of the declared fields, filled in binding order. */
  method ResolveArgument(declared: map<string, Kind>, req: Request, coerce: Coercion) returns (obj: BoundRequest)
    ensures fresh(obj) && obj.declared == declared && obj.Valid()
    ensures obj.fields == Bound(declared, req, coerce)
  {
    obj := new BoundRequest(declared);
    BindRequestBody(obj, req);
    ghost var body := obj.fields;
    BindAuthenticatedUser(obj, req, coerce);
    ghost var afterUser := obj.fields;
    BindPathVariables(obj, req.pathVars, coerce);
    ghost var afterPath := obj.fields;
    BindQueryParameters(obj, req.params, coerce);
    ghost var afterQuery := obj.fields;
    BindPagination(obj, req.params, coerce);
    BindFilters(obj, req.params, coerce);
    BindAuthentication(obj, req.auth, coerce);
    LateWritesApplied(declared, afterQuery, PageableOf(req.params), Filters(req.params), req.auth, coerce);
    WritesApplied(declared, body, afterUser, afterPath, afterQuery, obj.fields, req, coerce);
  }

  /** One call, as a run of calls. */
  lemma SetFieldsOne(declared: map<string, Kind>, fields: map<string, Value>, w: Write, coerce: Coercion)
    ensures SetFields(declared, fields, [w], coerce) == SetField(declared, fields, w, coerce)
  {
    assert [w][..0] == [];
  }

  /** The last three binding steps, as one run of calls. */
  lemma LateWritesApplied(declared: map<string, Kind>, fields: map<string, Value>, pageable: PageRequest,
                          filters: seq<FilterCriteria>, auth: Option<Authentication>, coerce: Coercion)
    ensures var f1 := SetField(declared, fields, (ParamPageable, PageableValue(pageable)), coerce);
      var f2 := if filters != [] then SetField(declared, f1, (ParamFilters, FiltersValue(filters)), coerce) else f1;
      var f3 := if auth.Some? && auth.value.authenticated
                then SetField(declared, f2, ("authentication", Principal(auth.value.name)), coerce) else f2;
      SetFields(declared, fields, LateWrites(pageable, filters, auth), coerce) == f3
  {
    var p := [(ParamPageable, PageableValue(pageable))];
    var f := if filters != [] then [(ParamFilters, FiltersValue(filters))] else [];
    var a := if auth.Some? && auth.value.authenticated then [("authentication", Principal(auth.value.name))] else [];
    assert LateWrites(pageable, filters, auth) == p + f + a;
    SetFieldsAppend(declared, fields, p + f, a, coerce);
    SetFieldsAppend(declared, fields, p, f, coerce);
    assert |p[..0]| == 0;
    if f != [] {
      assert f[..0] == [];
    }
    if a != [] {
      assert a[..0] == [];
    }
  }

  /** The binding steps compose to the whole run of calls. */
  lemma WritesApplied(declared: map<string, Kind>, body: map<string, Value>, afterUser: map<string, Value>,
                      afterPath: map<string, Value>, afterQuery: map<string, Value>, result: map<string, Value>,
                      req: Request, coerce: Coercion)
    requires afterUser == SetFields(declared, body, UserWrites(req), coerce)
    requires afterPath == SetFields(declared, afterUser, PathWrites(req.pathVars), coerce)
    requires afterQuery == SetFields(declared, afterPath, QueryWrites(req.params), coerce)
    requires result == SetFields(declared, afterQuery, LateWrites(PageableOf(req.params), Filters(req.params), req.auth), coerce)
    ensures result == SetFields(declared, body, Writes(req), coerce)
  {
    var u := UserWrites(req);
    var pv := PathWrites(req.pathVars);
    var q := QueryWrites(req.params);
    var l := LateWrites(PageableOf(req.params), Filters(req.params), req.auth);
    SetFieldsAppend(declared, body, u, pv, coerce);
    SetFieldsAppend(declared, body, u + pv, q, coerce);
    SetFieldsAppend(declared, body, u + pv + q, l, coerce);
  }
}
