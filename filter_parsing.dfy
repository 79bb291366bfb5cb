/**
  * Filter query parameters: `filter.<dotted.field>[:<operator>]=<value>`.
  *
  * Every query parameter whose name starts with "filter." and that has at least one value
  * becomes one filter criterion, built from its first value. An entry whose field is blank
  * is ignored, and an entry whose operator is unknown is dropped with a warning; neither
  * affects the other entries.
  */
module FilterParsing {
  import opened Wrappers
  import opened JavaStrings
  import opened CommonConstant
  import opened FilterOperator
  import opened WebRequest

  /** One parsed filter: a (possibly dotted) field, an operator and the raw value. */
  datatype FilterCriteria = FilterCriteria(field: string, operator: Op, value: string)

  /** `parseFilterParameter(key, value)`: `Ok(None)` when the key has no field part or the
      field is blank, `Err` when the operator is unknown (the IllegalArgumentException of
      `FilterOperator.from`), and the criterion otherwise. */
  function ParseFilterParameter(key: string, value: string): (r: Result<Option<FilterCriteria>>)
    ensures r.Ok? && r.value.Some? ==> r.value.value.value == value && !IsBlank(r.value.value.field) && Trim(r.value.value.field) == r.value.value.field
    ensures r.Err? ==> StartsWith(r.msg, "Invalid operator: ")
  {
    var parts := SplitFirst(key, FieldDelimiter);
    if |parts| < 2 then Ok(None)
    else
      var fieldOp := SplitFirst(parts[1], OperatorDelimiter);
      CriteriaOf(fieldOp[0], if |fieldOp| > 1 then fieldOp[1] else DefaultOperator, value)
  }

  /** The second half of `parseFilterParameter`, once the field and operator token are cut. */
  function CriteriaOf(field: string, operator: string, value: string): (r: Result<Option<FilterCriteria>>)
    ensures r.Ok? && r.value.Some? ==> r.value.value.value == value && !IsBlank(r.value.value.field) && Trim(r.value.value.field) == r.value.value.field
    ensures r.Err? ==> StartsWith(r.msg, "Invalid operator: ")
  {
    if IsBlank(field) then Ok(None)
    else
      match From(Some(operator))
      case Ok(o) =>
        TrimTrimmed(field);
        Ok(Some(FilterCriteria(Trim(field), o, value)))
      case Err(msg) => Err(msg)
  }

  /** The key of a filter on `field`, with the operator token `op` when one is given. */
  function FilterKey(field: string, op: Option<string>): string
  {
    FilterPrefix + field + (if op.Some? then [OperatorDelimiter] + op.value else "")
  }

  /** Every key that starts with "filter." is written in the grammar: a field without ":"
      followed by an optional ":" and operator token. */
  lemma PrefixedKeyInGrammar(key: string) returns (field: string, op: Option<string>)
    requires StartsWith(key, FilterPrefix)
    ensures OperatorDelimiter !in field && key == FilterKey(field, op)
  {
    var rest := key[|FilterPrefix|..];
    assert key == FilterPrefix + rest;
    field, op := CutOperator(rest);
    var tail := if op.Some? then [OperatorDelimiter] + op.value else "";
    assert FilterKey(field, op) == FilterPrefix + field + tail;
    assert FilterPrefix + field + tail == FilterPrefix + (field + tail);
  }

  /** Any text is a field, optionally followed by ":" and an operator token. */
  lemma CutOperator(rest: string) returns (field: string, op: Option<string>)
    ensures OperatorDelimiter !in field
    ensures rest == field + (if op.Some? then [OperatorDelimiter] + op.value else "")
  {
    var fieldOp := SplitFirst(rest, OperatorDelimiter);
    field := fieldOp[0];
    op := if |fieldOp| == 2 then Some(fieldOp[1]) else None;
    if op.None? {
      assert rest == field + "";
    }
  }

  /** The key is cut at its first "." and the rest at its first ":": the field is trimmed,
      the operator defaults to "eq", is matched ignoring case and is otherwise rejected, and
      the value is kept as given. A blank field makes the entry ignored. */
  lemma ParseFilterKey(field: string, op: Option<string>, value: string)
    requires OperatorDelimiter !in field
    ensures var r := ParseFilterParameter(FilterKey(field, op), value);
      var tok := if op.Some? then op.value else DefaultOperator;
      && (IsBlank(field) ==> r == Ok(None))
      && (!IsBlank(field) ==>
            (r.Ok? <==> FindFirst(Values, tok).Some?)
            && (r.Ok? ==> r == Ok(Some(FilterCriteria(Trim(field), FindFirst(Values, tok).value, value))))
            && (r.Err? ==> r.msg == "Invalid operator: " + tok))
  {
    var tok := if op.Some? then op.value else DefaultOperator;
    CutFilterKey(field, op);
    assert ParseFilterParameter(FilterKey(field, op), value) == CriteriaOf(field, tok, value);
  }

  /** Cutting a key in the grammar recovers its field and operator token. */
  lemma CutFilterKey(field: string, op: Option<string>)
    requires OperatorDelimiter !in field
    ensures var parts := SplitFirst(FilterKey(field, op), FieldDelimiter);
      && |parts| == 2
      && SplitFirst(parts[1], OperatorDelimiter) == if op.Some? then [field, op.value] else [field]
  {
    var tail := if op.Some? then [OperatorDelimiter] + op.value else "";
    PrefixCut(field + tail);
    assert FilterKey(field, op) == FilterPrefix + (field + tail);
    OperatorCut(field, op);
  }

  lemma PrefixCut(rest: string)
    ensures SplitFirst(FilterPrefix + rest, FieldDelimiter) == ["filter", rest]
  {
    SplitFirstAt("filter", rest, FieldDelimiter);
    assert "filter" + [FieldDelimiter] + rest == FilterPrefix + rest;
  }

  lemma OperatorCut(field: string, op: Option<string>)
    requires OperatorDelimiter !in field
    ensures SplitFirst(field + (if op.Some? then [OperatorDelimiter] + op.value else ""), OperatorDelimiter)
         == if op.Some? then [field, op.value] else [field]
  {
    if op.Some? {
      SplitFirstAt(field, op.value, OperatorDelimiter);
      assert field + ([OperatorDelimiter] + op.value) == field + [OperatorDelimiter] + op.value;
    } else {
      assert field + "" == field;
    }
  }

  /** Round trip: the key written for a criterion parses back to that criterion. */
  lemma ParseFilterKeyOfCriteria(c: FilterCriteria)
    requires OperatorDelimiter !in c.field && !IsBlank(c.field) && Trim(c.field) == c.field
    ensures ParseFilterParameter(FilterKey(c.field, Some(Name(c.operator))), c.value) == Ok(Some(c))
  {
    ParseFilterKey(c.field, Some(Name(c.operator)), c.value);
    FromName(c.operator);
  }

  /** A key without an operator token filters by equality. */
  lemma ParseFilterDefaultsToEq(field: string, value: string)
    requires OperatorDelimiter !in field && !IsBlank(field)
    ensures ParseFilterParameter(FilterKey(field, None), value) == Ok(Some(FilterCriteria(Trim(field), Eq, value)))
  {
    ParseFilterKey(field, None, value);
    FromName(Eq);
  }

  /** What one query parameter contributes to the filter list: the criterion parsed from
      its first value, or nothing. */
  function FilterOf(entry: (string, seq<string>)): (r: seq<FilterCriteria>)
    ensures |r| <= 1
  {
    var (key, values) := entry;
    if StartsWith(key, FilterPrefix) && |values| > 0 then
      match ParseFilterParameter(key, values[0])
      case Ok(Some(c)) => [c]
      case _ => []
    else []
  }

  /** The filter list `parseFilters` returns, entry by entry in iteration order. */
  function Filters(params: ParamMap): (r: seq<FilterCriteria>)
    ensures |r| <= |params|
  {
    if params == [] then [] else Filters(params[..|params| - 1]) + FilterOf(params[|params| - 1])
  }

  /** Entries are parsed independently: the filters of two runs of parameters concatenate. */
  lemma {:induction false} FiltersAppend(a: ParamMap, b: ParamMap)
    ensures Filters(a + b) == Filters(a) + Filters(b)
    decreases |b|
  {
    if b != [] {
      var b' := b[..|b| - 1];
      assert (a + b)[..|a + b| - 1] == a + b';
      FiltersAppend(a, b');
    } else {
      assert a + b == a;
    }
  }

  lemma FiltersOfOne(e: (string, seq<string>))
    ensures Filters([e]) == FilterOf(e)
  {
    assert [e][..0] == [];
  }

  /** A malformed entry (blank field, unknown operator, no value, other prefix) is dropped
      without affecting any other entry. */
  lemma FiltersIsolateBadEntry(a: ParamMap, e: (string, seq<string>), b: ParamMap)
    requires FilterOf(e) == []
    ensures Filters(a + [e] + b) == Filters(a + b)
  {
    FiltersOfOne(e);
    FiltersAppend(a, [e]);
    assert Filters(a + [e]) == Filters(a);
    FiltersAppend(a + [e], b);
    FiltersAppend(a, b);
  }

  /** The output is exactly the well-formed filter entries, in order: a criterion is in
      the list if and only if some entry parses to it, and there are no more criteria than
      entries. */
  lemma {:induction false} FiltersExactly(params: ParamMap, c: FilterCriteria)
    ensures |Filters(params)| <= |params|
    ensures c in Filters(params) <==> exists i :: 0 <= i < |params| && FilterOf(params[i]) == [c]
  {
    if params != [] {
      var init := params[..|params| - 1];
      FiltersExactly(init, c);
      if c in Filters(params) && c !in Filters(init) {
        assert FilterOf(params[|params| - 1]) == [c];
      }
      if exists i :: 0 <= i < |params| && FilterOf(params[i]) == [c] {
        var i :| 0 <= i < |params| && FilterOf(params[i]) == [c];
        if i < |params| - 1 {
          assert init[i] == params[i];
        }
      }
    }
  }

  /** A criterion whose field is non-blank and already trimmed. */
  predicate FieldTrimmed(c: FilterCriteria)
  {
    !IsBlank(c.field) && Trim(c.field) == c.field
  }

  /** Every parsed criterion has a non-blank, trimmed field. */
  lemma {:induction false} FiltersWellFormed(params: ParamMap)
    ensures forall k :: 0 <= k < |Filters(params)| ==> FieldTrimmed(Filters(params)[k])
  {
    if params != [] {
      var init := params[..|params| - 1];
      FiltersWellFormed(init);
      FilterOfWellFormed(params[|params| - 1]);
      AllFieldsTrimmed(Filters(init), FilterOf(params[|params| - 1]));
    }
  }

  lemma FilterOfWellFormed(e: (string, seq<string>))
    ensures forall k :: 0 <= k < |FilterOf(e)| ==> FieldTrimmed(FilterOf(e)[k])
  {
  }

  lemma AllFieldsTrimmed(a: seq<FilterCriteria>, b: seq<FilterCriteria>)
    requires forall k :: 0 <= k < |a| ==> FieldTrimmed(a[k])
    requires forall k :: 0 <= k < |b| ==> FieldTrimmed(b[k])
    ensures forall k :: 0 <= k < |a + b| ==> FieldTrimmed((a + b)[k])
  {
  }

  /** `parseFilters`: walks the parameters, appending each well-formed filter. */
  method ParseFilters(params: ParamMap) returns (filters: seq<FilterCriteria>)
    ensures filters == Filters(params)
  {
    filters := [];
    for i := 0 to |params|
      invariant filters == Filters(params[..i])
    {
      assert params[..i + 1][..i] == params[..i];
      var (key, values) := params[i];
      if StartsWith(key, FilterPrefix) && |values| > 0 {
        var parsed := ParseFilterParameter(key, values[0]);
        if parsed.Ok? && parsed.value.Some? {
          filters := filters + [parsed.value.value];
        }
      }
    }
    assert params[..|params|] == params;
  }
}
