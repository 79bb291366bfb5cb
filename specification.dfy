/**
  * The predicate builder: a list of filter criteria becomes the conjunction of one
  * predicate per criterion over the entity graph.
  *
  * The entity graph is a schema (`Model`) from entity names to their attributes, each a
  * basic column of some field type or an association to another entity. A criterion's
  * dotted field is resolved one segment at a time from the root entity; its raw value is
  * converted to the resolved field's type; the operator picks the predicate. A record is
  * selected when every predicate is TRUE; a NULL column makes every comparison UNKNOWN,
  * so only `is_null` selects it.
  */
module GenericSpecification {
  import opened Wrappers
  import opened JavaStrings
  import opened FilterOperator
  import opened FilterParsing

  // ---------------------------------------------------------------------------
  // Schema and records

  /** The Java type of a resolved path. `TEntity` is the type of an association (or of the
      root), which conversion treats like any other unlisted type. */
  datatype FieldType = TString | TInteger | TLong | TBoolean | TUuid | TOther(name: string) | TEntity(entity: string)

  /** `Class.getSimpleName()` of a field type. */
  function SimpleName(t: FieldType): string
  {
    match t
    case TString => "String"
    case TInteger => "Integer"
    case TLong => "Long"
    case TBoolean => "Boolean"
    case TUuid => "UUID"
    case TOther(name) => name
    case TEntity(entity) => entity
  }

  datatype Attr = Basic(t: FieldType) | Assoc(target: string)

  /** Entity name to attribute name to attribute. */
  type Model = map<string, map<string, Attr>>

  /** A stored value. `Num` holds Integer and Long columns alike; `Uuid` holds the
      lower-cased canonical text; `Raw` holds a value of any other type as its text. */
  datatype Val = Null | Str(s: string) | Num(n: int) | Bool(b: bool) | Uuid(u: string) | Raw(text: string) | Ref(rec: Rec)

  /** One row of an entity, with its associated rows inlined. */
  datatype Rec = Rec(fields: map<string, Val>)

  // ---------------------------------------------------------------------------
  // getPath

  /** The type reached by walking `segs` from a path of type `cur`: each segment must name
      an attribute of the entity the path is at. */
  function ResolveFrom(m: Model, cur: FieldType, segs: seq<string>): (r: Result<FieldType>)
    ensures r.Ok? && segs != [] ==> cur.TEntity?
    decreases |segs|
  {
    if segs == [] then Ok(cur)
    else match Step(m, cur, segs[0])
      case Err(e) => Err(e)
      case Ok(next) => ResolveFrom(m, next, segs[1..])
  }

  /** `path.get(seg)`: the attribute `seg` of the entity the path is at. */
  function Step(m: Model, cur: FieldType, seg: string): (r: Result<FieldType>)
    ensures r.Ok? <==> cur.TEntity? && cur.entity in m && seg in m[cur.entity]
  {
    if cur.TEntity? && cur.entity in m && seg in m[cur.entity] then
      match m[cur.entity][seg]
      case Basic(t) => Ok(t)
      case Assoc(target) => Ok(TEntity(target))
    else Err("Unable to locate attribute '" + seg + "'")
  }

  /** The segments of a dotted field (`field.split("\\.")`). */
  function Segments(field: string): seq<string>
  {
    Split(field, '.')
  }

  /** A dotted path resolves exactly when its first segment is an attribute of the entity
      and the rest resolves from there: `sender.id` walks to `sender`, then to `id`. */
  lemma ResolveDotted(m: Model, entity: string, seg: string, rest: seq<string>)
    ensures ResolveFrom(m, TEntity(entity), [seg] + rest).Ok? <==>
      entity in m && seg in m[entity] &&
      ResolveFrom(m, if m[entity][seg].Basic? then m[entity][seg].t else TEntity(m[entity][seg].target), rest).Ok?
  {
    assert ([seg] + rest)[1..] == rest;
  }

  /** An unknown segment anywhere in the path fails the whole resolution. */
  lemma {:induction false} ResolveUnknownSegment(m: Model, cur: FieldType, segs: seq<string>, i: nat)
    requires i < |segs|
    requires ResolveFrom(m, cur, segs[..i]).Ok?
    requires var at := ResolveFrom(m, cur, segs[..i]).value;
      !(at.TEntity? && at.entity in m && segs[i] in m[at.entity])
    ensures ResolveFrom(m, cur, segs).Err?
    decreases i
  {
    if i == 0 {
      assert Step(m, cur, segs[0]).Err?;
    } else {
      var next := Step(m, cur, segs[0]).value;
      assert segs[..i][1..] == segs[1..][..i - 1];
      ResolveUnknownSegment(m, next, segs[1..], i - 1);
    }
  }

  /** `getPath`: walks the segments from the root, replacing the path at each step. */
  method GetPath(m: Model, root: string, field: string) returns (r: Result<FieldType>)
    ensures r == ResolveFrom(m, TEntity(root), Segments(field))
  {
    var parts := Segments(field);
    var path := TEntity(root);
    for i := 0 to |parts|
      invariant ResolveFrom(m, TEntity(root), parts) == ResolveFrom(m, path, parts[i..])
    {
      assert parts[i..][1..] == parts[i + 1..];
      var next := Step(m, path, parts[i]);
      if next.Err? {
        return Err(next.msg);
      }
      path := next.value;
    }
    return Ok(path);
  }

  /** The value at a dotted path of a record; NULL when the path leaves the row, or passes
      through a NULL association. */
  function Lookup(rec: Rec, segs: seq<string>): Val
    decreases |segs|
  {
    if segs == [] then Ref(rec)
    else if segs[0] !in rec.fields then Null
    else if |segs| == 1 then rec.fields[segs[0]]
    else match rec.fields[segs[0]]
      case Ref(next) => Lookup(next, segs[1..])
      case _ => Null
  }

  // ---------------------------------------------------------------------------
  // convertValueToFieldType

  function ConvertError(raw: string, t: FieldType): string
  {
    "Cannot convert value '" + raw + "' to type " + SimpleName(t)
  }

  /** `convertValueToFieldType(raw, t)`: String passes through, Integer and Long are parsed
      without trimming, Boolean is "true" ignoring case, UUID must be in canonical form,
      and any other type keeps the raw text. */
  function Convert(raw: string, t: FieldType): (r: Result<Val>)
    ensures r.Err? ==> r.msg == ConvertError(raw, t)
    ensures r.Ok? ==> r.value != Null && !r.value.Ref?
  {
    match t
    case TString => Ok(Str(raw))
    case TInteger => (match ParseInt(raw) case Some(n) => Ok(Num(n)) case None => Err(ConvertError(raw, t)))
    case TLong => (match ParseLong(raw) case Some(n) => Ok(Num(n)) case None => Err(ConvertError(raw, t)))
    case TBoolean => Ok(Bool(EqualsIgnoreCase(raw, "true")))
    case TUuid => (match ParseUuid(raw) case Some(u) => Ok(Uuid(u)) case None => Err(ConvertError(raw, t)))
    case TOther(_) => Ok(Raw(raw))
    case TEntity(_) => Ok(Raw(raw))
  }

  /** Conversion fails only for Integer, Long and UUID, and exactly on text those types do
      not parse; Boolean conversion never fails. */
  lemma ConvertFailsIff(raw: string, t: FieldType)
    ensures Convert(raw, t).Err? <==>
      || (t == TInteger && ParseInt(raw).None?)
      || (t == TLong && ParseLong(raw).None?)
      || (t == TUuid && !IsCanonicalUuid(raw))
    ensures t == TBoolean ==> Convert(raw, t) == Ok(Bool(EqualsIgnoreCase(raw, "true")))
  {
  }

  /** Round trip: the decimal text of an in-range number converts back to that number. */
  lemma ConvertIntText(n: int, t: FieldType)
    requires (t == TInteger && IntMin <= n <= IntMax) || (t == TLong && LongMin <= n <= LongMax)
    ensures Convert(IntText(n), t) == Ok(Num(n))
  {
    if t == TInteger {
      ParseIntText(n, IntMin, IntMax);
    } else {
      ParseIntText(n, LongMin, LongMax);
    }
  }

  /** Each token trimmed and converted on its own, in order. */
  function ConvertEach(tokens: seq<string>, t: FieldType): (rs: seq<Result<Val>>)
    ensures |rs| == |tokens|
    ensures forall k :: 0 <= k < |tokens| ==> rs[k] == Convert(Trim(tokens[k]), t)
  {
    seq(|tokens|, k requires 0 <= k < |tokens| => Convert(Trim(tokens[k]), t))
  }

  /** `parseList`: the comma-separated tokens, each trimmed and converted, in order; the
      first token that does not convert fails the whole list. */
  function ParseList(t: FieldType, raw: string): (r: Result<seq<Val>>)
    ensures r.Ok? ==> |r.value| == |Split(raw, ',')|
  {
    Collect(ConvertEach(Split(raw, ','), t))
  }

  /** The list converts exactly when every trimmed token does, and then holds each token's
      value at its position. */
  lemma ParseListEach(t: FieldType, raw: string)
    ensures var tokens := Split(raw, ',');
      && (ParseList(t, raw).Ok? <==> forall k :: 0 <= k < |tokens| ==> Convert(Trim(tokens[k]), t).Ok?)
      && (ParseList(t, raw).Ok? ==>
            (|ParseList(t, raw).value| == |tokens| &&
             forall k :: 0 <= k < |tokens| ==> Convert(Trim(tokens[k]), t) == Ok(ParseList(t, raw).value[k])))
  {
    var tokens := Split(raw, ',');
    var rs := ConvertEach(tokens, t);
    CollectEach(rs);
  }

  // ---------------------------------------------------------------------------
  // Predicates and their evaluation

  datatype Pred =
    | Equal(path: seq<string>, v: Val)
    | NotEqual(path: seq<string>, v: Val)
    | Matches(path: seq<string>, pattern: string)
    | NotMatches(path: seq<string>, pattern: string)
    | Greater(path: seq<string>, v: Val)
    | Less(path: seq<string>, v: Val)
    | GreaterEq(path: seq<string>, v: Val)
    | LessEq(path: seq<string>, v: Val)
    | Within(path: seq<string>, vs: seq<Val>)
    | NotWithin(path: seq<string>, vs: seq<Val>)
    | Range(path: seq<string>, lo: Val, hi: Val)
    | Absent(path: seq<string>)
    | Present(path: seq<string>)

  /** `path.as(String.class)`: the text the store compares with a LIKE pattern. */
  function TextOf(v: Val): string
  {
    match v
    case Str(s) => s
    case Num(n) => IntText(n)
    case Bool(b) => if b then "true" else "false"
    case Uuid(u) => u
    case Raw(text) => text
    case _ => ""
  }

  /** Two values the store can order: both non-NULL, of the same kind, and not rows. */
  predicate Comparable(a: Val, b: Val)
  {
    match (a, b)
    case (Str(_), Str(_)) => true
    case (Num(_), Num(_)) => true
    case (Bool(_), Bool(_)) => true
    case (Uuid(_), Uuid(_)) => true
    case (Raw(_), Raw(_)) => true
    case _ => false
  }

  /** Lexicographic order on text, by character code. */
  predicate LexBefore(a: string, b: string)
  {
    if a == [] then b != []
    else b != [] && (a[0] < b[0] || (a[0] == b[0] && LexBefore(a[1..], b[1..])))
  }

  /** The strict order of two comparable values. */
  predicate Before(a: Val, b: Val)
    requires Comparable(a, b)
  {
    match (a, b)
    case (Str(x), Str(y)) => LexBefore(x, y)
    case (Num(x), Num(y)) => x < y
    case (Bool(x), Bool(y)) => !x && y
    case (Uuid(x), Uuid(y)) => LexBefore(x, y)
    case (Raw(x), Raw(y)) => LexBefore(x, y)
  }

  lemma {:induction false} LexTrichotomy(a: string, b: string)
    ensures a == b || LexBefore(a, b) || LexBefore(b, a)
    ensures !(LexBefore(a, b) && LexBefore(b, a)) && !LexBefore(a, a)
  {
    if a != [] && b != [] {
      LexTrichotomy(a[1..], b[1..]);
      if a[0] == b[0] && a[1..] == b[1..] {
        assert a == [a[0]] + a[1..] && b == [b[0]] + b[1..];
      }
    } else if a != [] {
      LexTrichotomy(a[1..], a[1..]);
    }
  }

  /** The order on comparable values is a strict total order. */
  lemma BeforeTrichotomy(a: Val, b: Val)
    requires Comparable(a, b)
    ensures a == b || Before(a, b) || Before(b, a)
    ensures !(Before(a, b) && Before(b, a)) && !Before(a, a)
  {
    match (a, b)
    case (Str(x), Str(y)) => LexTrichotomy(x, y);
    case (Num(x), Num(y)) =>
    case (Bool(x), Bool(y)) =>
    case (Uuid(x), Uuid(y)) => LexTrichotomy(x, y);
    case (Raw(x), Raw(y)) => LexTrichotomy(x, y);
  }

  /** Whether a predicate is TRUE for a record (NULL comparisons are UNKNOWN, not TRUE). */
  predicate Eval(p: Pred, rec: Rec)
    ensures Eval(p, rec) && !p.Absent? ==> Lookup(rec, p.path) != Null
  {
    var x := Lookup(rec, p.path);
    match p
    case Equal(_, v) => x != Null && x == v
    case NotEqual(_, v) => x != Null && x != v
    case Matches(_, pattern) => x != Null && Contains(Lower(TextOf(x)), pattern)
    case NotMatches(_, pattern) => x != Null && !Contains(Lower(TextOf(x)), pattern)
    case Greater(_, v) => Comparable(v, x) && Before(v, x)
    case Less(_, v) => Comparable(x, v) && Before(x, v)
    case GreaterEq(_, v) => Comparable(x, v) && !Before(x, v)
    case LessEq(_, v) => Comparable(v, x) && !Before(v, x)
    case Within(_, vs) => x != Null && x in vs
    case NotWithin(_, vs) => x != Null && x !in vs
    case Range(_, lo, hi) => Comparable(x, lo) && Comparable(hi, x) && !Before(x, lo) && !Before(hi, x)
    case Absent(_) => x == Null
    case Present(_) => x != Null
  }

  /** `criteriaBuilder.and(predicates)`: TRUE when every predicate is. */
  predicate Accepts(ps: seq<Pred>, rec: Rec)
  {
    ps == [] || (Eval(ps[0], rec) && Accepts(ps[1..], rec))
  }

  lemma {:induction false} AcceptsIff(ps: seq<Pred>, rec: Rec)
    ensures Accepts(ps, rec) <==> forall k :: 0 <= k < |ps| ==> Eval(ps[k], rec)
  {
    if ps != [] {
      AcceptsIff(ps[1..], rec);
      assert forall k :: 1 <= k < |ps| ==> ps[1..][k - 1] == ps[k];
    }
  }

  // ---------------------------------------------------------------------------
  // Operator semantics on non-NULL values

  /** `eq` and `ne` are complementary on a non-NULL field, and both reject NULL. */
  lemma EqualNotEqual(path: seq<string>, v: Val, rec: Rec)
    ensures Lookup(rec, path) != Null ==> (Eval(NotEqual(path, v), rec) <==> !Eval(Equal(path, v), rec))
    ensures Lookup(rec, path) == Null ==> !Eval(NotEqual(path, v), rec) && !Eval(Equal(path, v), rec)
  {
  }

  /** `like` and `not_like` are complementary on a non-NULL field. */
  lemma LikeNotLike(path: seq<string>, pattern: string, rec: Rec)
    ensures Lookup(rec, path) != Null ==> (Eval(NotMatches(path, pattern), rec) <==> !Eval(Matches(path, pattern), rec))
  {
  }

  /** `in` and `not_in` are complementary on a non-NULL field. */
  lemma InNotIn(path: seq<string>, vs: seq<Val>, rec: Rec)
    ensures Lookup(rec, path) != Null ==> (Eval(NotWithin(path, vs), rec) <==> !Eval(Within(path, vs), rec))
  {
  }

  /** `is_null` and `is_not_null` are complementary on every record. */
  lemma NullNotNull(path: seq<string>, rec: Rec)
    ensures Eval(Present(path), rec) <==> !Eval(Absent(path), rec)
  {
  }

  /** `gte` is `gt` or `eq`, `lte` is `lt` or `eq`, and `gt`/`lt` are strict. */
  lemma OrderingOperators(path: seq<string>, v: Val, rec: Rec)
    requires Comparable(Lookup(rec, path), v)
    ensures Eval(GreaterEq(path, v), rec) <==> Eval(Greater(path, v), rec) || Eval(Equal(path, v), rec)
    ensures Eval(LessEq(path, v), rec) <==> Eval(Less(path, v), rec) || Eval(Equal(path, v), rec)
    ensures Eval(Equal(path, v), rec) ==> !Eval(Greater(path, v), rec) && !Eval(Less(path, v), rec)
  {
    var x := Lookup(rec, path);
    BeforeTrichotomy(x, v);
    assert Comparable(v, x);
    BeforeTrichotomy(v, x);
  }

  /** `between lo,hi` is inclusive: the same as `gte lo` and `lte hi`. */
  lemma BetweenInclusive(path: seq<string>, lo: Val, hi: Val, rec: Rec)
    ensures Eval(Range(path, lo, hi), rec) <==> Eval(GreaterEq(path, lo), rec) && Eval(LessEq(path, hi), rec)
  {
  }

  // ---------------------------------------------------------------------------
  // buildPredicate

  /** Builds the predicate of one operator once the path and its type are known; `Convert`
      runs only where the operator uses the converted value. */
  function PredicateFor(path: seq<string>, t: FieldType, op: Op, value: string): (r: Result<Pred>)
    ensures r.Ok? ==> r.value.path == path
  {
    match op
    case In => (match ParseList(t, value) case Ok(vs) => Ok(Within(path, vs)) case Err(e) => Err(e))
    case NotIn => (match ParseList(t, value) case Ok(vs) => Ok(NotWithin(path, vs)) case Err(e) => Err(e))
    case Between =>
      var range := Split(value, ',');
      if |range| == 2 then
        match Convert(Trim(range[0]), t)
        case Err(e) => Err(e)
        case Ok(lo) =>
          match Convert(Trim(range[1]), t)
          case Err(e) => Err(e)
          case Ok(hi) => Ok(Range(path, lo, hi))
      else Err("Between operator requires exactly 2 values separated by comma")
    case IsNull => Ok(Absent(path))
    case IsNotNull => Ok(Present(path))
    case _ =>
      match Convert(value, t)
      case Err(e) => Err(e)
      case Ok(v) => Ok(ScalarPredicate(path, op, v))
  }

  /** The predicate of an operator that compares with one converted value. */
  function ScalarPredicate(path: seq<string>, op: Op, v: Val): (p: Pred)
    ensures p.path == path
  {
    match op
    case Eq => Equal(path, v)
    case Ne => NotEqual(path, v)
    case Like => Matches(path, Lower(TextOf(v)))
    case NotLike => NotMatches(path, Lower(TextOf(v)))
    case Gt => Greater(path, v)
    case Lt => Less(path, v)
    case Gte => GreaterEq(path, v)
    case _ => LessEq(path, v)
  }

  /** `buildPredicate`, corrected: resolve the path, then build the operator's predicate. */
  function BuildPredicate(m: Model, root: string, f: FilterCriteria): (r: Result<Pred>)
    ensures r.Ok? ==> r.value.path == Segments(f.field) && ResolveFrom(m, TEntity(root), Segments(f.field)).Ok?
  {
    var segs := Segments(f.field);
    match ResolveFrom(m, TEntity(root), segs)
    case Err(e) => Err(e)
    case Ok(t) => PredicateFor(segs, t, f.operator, f.value)
  }

  /** `buildPredicate` as written: the whole raw value is converted (line 32) before the
      operator is looked at, so a conversion failure fails every operator. */
  function BuildPredicateAsWritten(m: Model, root: string, f: FilterCriteria): (r: Result<Pred>)
    ensures r.Ok? ==> var t := ResolveFrom(m, TEntity(root), Segments(f.field));
      t.Ok? && Convert(f.value, t.value).Ok? && r.value.path == Segments(f.field)
  {
    var segs := Segments(f.field);
    match ResolveFrom(m, TEntity(root), segs)
    case Err(e) => Err(e)
    case Ok(t) =>
      match Convert(f.value, t)
      case Err(e) => Err(e)
      case Ok(_) => PredicateFor(segs, t, f.operator, f.value)
  }

  /** `between` needs exactly two comma-separated values (trailing empty ones are not
      counted) and otherwise fails with its arity message. */
  lemma BetweenArity(path: seq<string>, t: FieldType, value: string)
    requires |Split(value, ',')| != 2
    ensures PredicateFor(path, t, Between, value) == Err("Between operator requires exactly 2 values separated by comma")
  {
  }

  /** The correction changes nothing where the code as written succeeds. */
  lemma BuildCorrectionConservative(m: Model, root: string, f: FilterCriteria)
    requires BuildPredicateAsWritten(m, root, f).Ok?
    ensures BuildPredicate(m, root, f) == BuildPredicateAsWritten(m, root, f)
  {
  }

  /** As written, `is_null` on an Integer field fails when the value is not a number,
      although the nullity test ignores the value. */
  lemma IsNullConvertsAsWritten(m: Model, root: string, f: FilterCriteria)
    requires ResolveFrom(m, TEntity(root), Segments(f.field)) == Ok(TInteger)
    requires f.operator == IsNull && ParseInt(f.value).None?
    ensures BuildPredicateAsWritten(m, root, f) == Err(ConvertError(f.value, TInteger))
    ensures BuildPredicate(m, root, f) == Ok(Absent(Segments(f.field)))
  {
  }

  // ---------------------------------------------------------------------------
  // withFilters

  /** Each criterion built on its own, in order. */
  function BuildEach(m: Model, root: string, filters: seq<FilterCriteria>): (rs: seq<Result<Pred>>)
    ensures |rs| == |filters|
    ensures forall k :: 0 <= k < |filters| ==> rs[k] == BuildPredicate(m, root, filters[k])
  {
    seq(|filters|, k requires 0 <= k < |filters| => BuildPredicate(m, root, filters[k]))
  }

  /** The predicates `withFilters` collects: one per criterion, in order; the first
      criterion that fails to build fails the whole specification. */
  function BuildAll(m: Model, root: string, filters: seq<FilterCriteria>): (r: Result<seq<Pred>>)
    ensures r.Ok? ==> |r.value| == |filters|
  {
    Collect(BuildEach(m, root, filters))
  }

  /** The specification builds exactly when every criterion does, and then holds each
      criterion's own predicate at its position. */
  lemma BuildAllEach(m: Model, root: string, filters: seq<FilterCriteria>)
    ensures BuildAll(m, root, filters).Ok? <==> forall k :: 0 <= k < |filters| ==> BuildPredicate(m, root, filters[k]).Ok?
    ensures BuildAll(m, root, filters).Ok? ==>
      forall k :: 0 <= k < |filters| ==> BuildAll(m, root, filters).value[k] == BuildPredicate(m, root, filters[k]).value
  {
    CollectEach(BuildEach(m, root, filters));
  }

  /** `withFilters`: builds the predicates one criterion at a time. */
  method WithFilters(m: Model, root: string, filters: seq<FilterCriteria>) returns (r: Result<seq<Pred>>)
    ensures r == BuildAll(m, root, filters)
  {
    ghost var rs := BuildEach(m, root, filters);
    var predicates: seq<Pred> := [];
    for i := 0 to |filters|
      invariant Collect(rs[..i]) == Ok(predicates)
    {
      var p := BuildPredicate(m, root, filters[i]);
      assert p == rs[i];
      if p.Err? {
        WithFiltersFails(rs, i, predicates);
        return Err(p.msg);
      }
      CollectStep(rs, i, predicates);
      predicates := predicates + [p.value];
    }
    assert rs[..|rs|] == rs;
    return Ok(predicates);
  }

  lemma WithFiltersFails(rs: seq<Result<Pred>>, i: nat, ps: seq<Pred>)
    requires i < |rs| && Collect(rs[..i]) == Ok(ps) && rs[i].Err?
    ensures Collect(rs) == Err(rs[i].msg)
  {
    CollectEach(rs[..i]);
    assert forall k :: 0 <= k < i ==> rs[..i][k] == rs[k];
    CollectFirstFailure(rs, i);
  }

  /** No criteria: the specification accepts every record. */
  lemma NoFiltersAcceptAll(m: Model, root: string, rec: Rec)
    ensures BuildAll(m, root, []) == Ok([]) && Accepts([], rec)
  {
  }

  /** Adding a criterion can only shrink the set of accepted records. */
  lemma AddingFilterShrinks(m: Model, root: string, filters: seq<FilterCriteria>, f: FilterCriteria, rec: Rec)
    requires BuildAll(m, root, filters + [f]).Ok?
    ensures BuildAll(m, root, filters).Ok?
    ensures Accepts(BuildAll(m, root, filters + [f]).value, rec) ==> Accepts(BuildAll(m, root, filters).value, rec)
  {
    var fs := filters + [f];
    assert fs[..|filters|] == filters;
    var rs := BuildEach(m, root, fs);
    assert rs[..|filters|] == BuildEach(m, root, filters);
    CollectStep(rs, |filters|, BuildAll(m, root, filters).value);
    assert rs[..|filters| + 1] == rs;
    var ps := BuildAll(m, root, filters).value;
    var qs := BuildAll(m, root, fs).value;
    assert qs == ps + [rs[|filters|].value];
    AcceptsIff(ps, rec);
    AcceptsIff(qs, rec);
    assert forall k :: 0 <= k < |ps| ==> qs[k] == ps[k];
  }

  // ---------------------------------------------------------------------------
  // Worked examples on an Integer column

  /** A field without dots names a column of the root entity directly. */
  lemma ResolvePlainField(m: Model, root: string, field: string)
    requires root in m && field in m[root] && m[root][field].Basic? && '.' !in field
    ensures Segments(field) == [field]
    ensures ResolveFrom(m, TEntity(root), Segments(field)) == Ok(m[root][field].t)
  {
    assert [field][1..] == [];
  }

  /** An in-range Integer's decimal text is a token that trims to itself and converts back. */
  lemma ConvertIntToken(n: int)
    requires IntMin <= n <= IntMax
    ensures Convert(IntText(n), TInteger) == Ok(Num(n))
    ensures Trim(IntText(n)) == IntText(n) && ',' !in IntText(n) && IntText(n) != ""
  {
    ConvertIntText(n, TInteger);
    IntTextToken(n, ',');
  }

  /** A plain (undotted) Integer column of the root entity. */
  predicate PlainInteger(m: Model, root: string, field: string)
  {
    root in m && field in m[root] && m[root][field] == Basic(TInteger) && '.' !in field
  }

  /** The operators that compare with the whole converted value. */
  predicate IsScalar(op: Op)
  {
    !(op.In? || op.NotIn? || op.Between? || op.IsNull? || op.IsNotNull?)
  }

  /** A scalar operator on a resolved field compares with the converted value. */
  lemma BuildScalar(m: Model, root: string, f: FilterCriteria, t: FieldType, v: Val)
    requires ResolveFrom(m, TEntity(root), Segments(f.field)) == Ok(t)
    requires IsScalar(f.operator) && Convert(f.value, t) == Ok(v)
    ensures BuildPredicate(m, root, f) == Ok(ScalarPredicate(Segments(f.field), f.operator, v))
  {
  }

  /** `[f gte lo, f lte hi]` builds the two bounds on the column. */
  lemma BoundsBuild(m: Model, root: string, field: string, lo: int, hi: int)
    requires PlainInteger(m, root, field) && IntMin <= lo <= IntMax && IntMin <= hi <= IntMax
    ensures BuildAll(m, root, [FilterCriteria(field, Gte, IntText(lo)), FilterCriteria(field, Lte, IntText(hi))])
         == Ok([GreaterEq([field], Num(lo)), LessEq([field], Num(hi))])
  {
    ConvertIntToken(lo);
    ConvertIntToken(hi);
    BoundsBuildOf(m, root, field, IntText(lo), IntText(hi), lo, hi);
  }

  /** The two bounds, for any texts that convert to the numbers. */
  lemma BoundsBuildOf(m: Model, root: string, field: string, a: string, b: string, lo: int, hi: int)
    requires PlainInteger(m, root, field)
    requires Convert(a, TInteger) == Ok(Num(lo)) && Convert(b, TInteger) == Ok(Num(hi))
    ensures BuildAll(m, root, [FilterCriteria(field, Gte, a), FilterCriteria(field, Lte, b)])
         == Ok([GreaterEq([field], Num(lo)), LessEq([field], Num(hi))])
  {
    ResolvePlainField(m, root, field);
    var f1 := FilterCriteria(field, Gte, a);
    var f2 := FilterCriteria(field, Lte, b);
    BuildScalar(m, root, f1, TInteger, Num(lo));
    BuildScalar(m, root, f2, TInteger, Num(hi));
    BuildAllPair(m, root, f1, f2, GreaterEq([field], Num(lo)), LessEq([field], Num(hi)));
  }

  /** Two criteria that build on their own build together, in order. */
  lemma BuildAllPair(m: Model, root: string, f1: FilterCriteria, f2: FilterCriteria, p1: Pred, p2: Pred)
    requires BuildPredicate(m, root, f1) == Ok(p1) && BuildPredicate(m, root, f2) == Ok(p2)
    ensures BuildAll(m, root, [f1, f2]) == Ok([p1, p2])
  {
    var fs := [f1, f2];
    BuildAllEach(m, root, fs);
    assert fs[0] == f1 && fs[1] == f2;
    var ps := BuildAll(m, root, fs).value;
    assert |ps| == 2 && ps[0] == p1 && ps[1] == p2;
    assert ps == [p1, p2];
  }

  /** `[f gte lo, f lte hi]` accepts a record exactly when its value is a number in
      [lo, hi] (so `[age gte 18, age lte 65]` keeps the ages 18, 40 and 65 and drops 17
      and 66). */
  lemma BoundsSelect(m: Model, root: string, field: string, lo: int, hi: int, rec: Rec)
    requires PlainInteger(m, root, field) && IntMin <= lo <= IntMax && IntMin <= hi <= IntMax
    ensures var r := BuildAll(m, root, [FilterCriteria(field, Gte, IntText(lo)), FilterCriteria(field, Lte, IntText(hi))]);
      var x := Lookup(rec, [field]);
      r.Ok? && (Accepts(r.value, rec) <==> x.Num? && lo <= x.n <= hi)
  {
    BoundsBuild(m, root, field, lo, hi);
    var ps := [GreaterEq([field], Num(lo)), LessEq([field], Num(hi))];
    AcceptsIff(ps, rec);
  }

  /** `between "lo,hi"` on an Integer column builds the inclusive range; as written it
      fails, because line 32 converts "lo,hi" as a whole first. */
  lemma BetweenBuilds(m: Model, root: string, field: string, lo: int, hi: int)
    requires PlainInteger(m, root, field) && IntMin <= lo <= IntMax && IntMin <= hi <= IntMax
    ensures BuildPredicate(m, root, FilterCriteria(field, Between, IntText(lo) + "," + IntText(hi))) == Ok(Range([field], Num(lo), Num(hi)))
    ensures BuildPredicateAsWritten(m, root, FilterCriteria(field, Between, IntText(lo) + "," + IntText(hi))).Err?
  {
    ConvertIntToken(lo);
    ConvertIntToken(hi);
    BetweenBuildsOf(m, root, field, IntText(lo), IntText(hi), lo, hi);
  }

  /** The range, for any two comma-free tokens that convert to the numbers. */
  lemma BetweenBuildsOf(m: Model, root: string, field: string, a: string, b: string, lo: int, hi: int)
    requires PlainInteger(m, root, field)
    requires Convert(a, TInteger) == Ok(Num(lo)) && Convert(b, TInteger) == Ok(Num(hi))
    requires a != "" && b != "" && ',' !in a && ',' !in b && Trim(a) == a && Trim(b) == b
    ensures BuildPredicate(m, root, FilterCriteria(field, Between, a + "," + b)) == Ok(Range([field], Num(lo), Num(hi)))
    ensures BuildPredicateAsWritten(m, root, FilterCriteria(field, Between, a + "," + b)).Err?
  {
    ResolvePlainField(m, root, field);
    var value := a + "," + b;
    var ws := [a, b];
    assert ws[1..] == [b];
    assert Join(ws, ',') == value;
    SplitJoin(ws, ',');
    assert value[|a|] == ',';
    ParseIntRejectsNonDigit(value, IntMin, IntMax, |a|);
    var f := FilterCriteria(field, Between, value);
    BuildBetween(m, root, f, TInteger, a, b, Num(lo), Num(hi));
    AsWrittenConvertsWhole(m, root, f, TInteger);
  }

  /** `between` over two tokens that convert builds the range between them. */
  lemma BuildBetween(m: Model, root: string, f: FilterCriteria, t: FieldType, a: string, b: string, lo: Val, hi: Val)
    requires ResolveFrom(m, TEntity(root), Segments(f.field)) == Ok(t) && f.operator == Between
    requires Split(f.value, ',') == [a, b] && Convert(Trim(a), t) == Ok(lo) && Convert(Trim(b), t) == Ok(hi)
    ensures BuildPredicate(m, root, f) == Ok(Range(Segments(f.field), lo, hi))
  {
  }

  /** `in` and `not_in` over a list that parses build the membership test over it. */
  lemma BuildList(m: Model, root: string, f: FilterCriteria, t: FieldType, vs: seq<Val>)
    requires ResolveFrom(m, TEntity(root), Segments(f.field)) == Ok(t) && (f.operator == In || f.operator == NotIn)
    requires ParseList(t, f.value) == Ok(vs)
    ensures BuildPredicate(m, root, f) == Ok(if f.operator == In then Within(Segments(f.field), vs) else NotWithin(Segments(f.field), vs))
  {
  }

  /** As written, a value that does not convert as a whole fails every operator. */
  lemma AsWrittenConvertsWhole(m: Model, root: string, f: FilterCriteria, t: FieldType)
    requires ResolveFrom(m, TEntity(root), Segments(f.field)) == Ok(t) && Convert(f.value, t).Err?
    ensures BuildPredicateAsWritten(m, root, f) == Err(ConvertError(f.value, t))
  {
  }

  /** The decimal texts of a list of numbers. */
  function IntTexts(ns: seq<int>): (r: seq<string>)
    ensures |r| == |ns| && forall k :: 0 <= k < |ns| ==> r[k] == IntText(ns[k])
  {
    seq(|ns|, k requires 0 <= k < |ns| => IntText(ns[k]))
  }

  /** A list of numbers as stored values. */
  function Nums(ns: seq<int>): (r: seq<Val>)
    ensures |r| == |ns| && forall k :: 0 <= k < |ns| ==> r[k] == Num(ns[k])
  {
    seq(|ns|, k requires 0 <= k < |ns| => Num(ns[k]))
  }

  /** A list whose every token converts to the value at its position parses to those values. */
  lemma ParseListOf(t: FieldType, raw: string, vs: seq<Val>)
    requires |vs| == |Split(raw, ',')|
    requires forall k :: 0 <= k < |vs| ==> Convert(Trim(Split(raw, ',')[k]), t) == Ok(vs[k])
    ensures ParseList(t, raw) == Ok(vs)
  {
    var tokens := Split(raw, ',');
    var rs := ConvertEach(tokens, t);
    assert forall k :: 0 <= k < |rs| ==> rs[k] == Ok(vs[k]);
    CollectAll(rs, vs);
  }

  /** A comma-separated list of in-range Integers parses to those numbers, in order. */
  lemma ParseIntList(ns: seq<int>)
    requires |ns| >= 1 && forall k :: 0 <= k < |ns| ==> IntMin <= ns[k] <= IntMax
    ensures ParseList(TInteger, Join(IntTexts(ns), ',')) == Ok(Nums(ns))
  {
    var ws := IntTexts(ns);
    forall k | 0 <= k < |ns|
      ensures Convert(Trim(ws[k]), TInteger) == Ok(Nums(ns)[k]) && ',' !in ws[k] && ws[k] != ""
    {
      ConvertIntToken(ns[k]);
    }
    SplitJoin(ws, ',');
    ParseListOf(TInteger, Join(ws, ','), Nums(ns));
  }

  /** `in "1,2,3"` (any non-empty list of in-range Integers) on an Integer column builds
      the membership test over those numbers, and `not_in` its complement; as written both
      fail once there are two or more numbers, because line 32 converts the whole list as
      one Integer. */
  lemma InListBuilds(m: Model, root: string, field: string, ns: seq<int>, op: Op)
    requires PlainInteger(m, root, field) && (op == In || op == NotIn)
    requires |ns| >= 1 && forall k :: 0 <= k < |ns| ==> IntMin <= ns[k] <= IntMax
    ensures var value := Join(IntTexts(ns), ',');
      && BuildPredicate(m, root, FilterCriteria(field, op, value))
           == Ok(if op == In then Within([field], Nums(ns)) else NotWithin([field], Nums(ns)))
      && (|ns| >= 2 ==> BuildPredicateAsWritten(m, root, FilterCriteria(field, op, value)) == Err(ConvertError(value, TInteger)))
  {
    ResolvePlainField(m, root, field);
    ParseIntList(ns);
    var ws := IntTexts(ns);
    var value := Join(ws, ',');
    var f := FilterCriteria(field, op, value);
    BuildList(m, root, f, TInteger, Nums(ns));
    if |ns| >= 2 {
      ConvertIntToken(ns[0]);
      assert value == ws[0] + [','] + Join(ws[1..], ',');
      ParseIntRejectsNonDigit(value, IntMin, IntMax, |ws[0]|);
      AsWrittenConvertsWhole(m, root, f, TInteger);
    }
  }

  /** `in` over a list of numbers selects exactly the records whose value is one of them. */
  lemma InListSelects(m: Model, root: string, field: string, ns: seq<int>, rec: Rec)
    requires PlainInteger(m, root, field)
    requires |ns| >= 1 && forall k :: 0 <= k < |ns| ==> IntMin <= ns[k] <= IntMax
    ensures var r := BuildPredicate(m, root, FilterCriteria(field, In, Join(IntTexts(ns), ',')));
      var x := Lookup(rec, [field]);
      r.Ok? && (Eval(r.value, rec) <==> x.Num? && x.n in ns)
  {
    InListBuilds(m, root, field, ns, In);
    NumsMember(ns, Lookup(rec, [field]));
  }

  /** A value is among the stored numbers exactly when it is one of the numbers. */
  lemma NumsMember(ns: seq<int>, x: Val)
    ensures x in Nums(ns) <==> x.Num? && x.n in ns
  {
    if x.Num? && x.n in ns {
      var k :| 0 <= k < |ns| && ns[k] == x.n;
      assert Nums(ns)[k] == x;
    }
  }
}
