/**
  * Pagination and sort parsing of the request binder (`createPageable`,
  * `createSort`, `parseInt`): every parameter text, present or not, maps to a
  * page index >= 0, a page size in [1, MaxSize] and a non-empty list of sort keys.
  */
module Pagination {
  import opened Wrappers
  import opened JavaStrings
  import opened CommonConstant
  import opened WebRequest

  datatype Direction = Asc | Desc

  /** `Sort.Order`: one sort key. */
  datatype Order = Order(direction: Direction, property: string)

  /** `PageRequest.of(page, size, sort)` */
  datatype PageRequest = PageRequest(page: int, size: int, sort: seq<Order>)

  /** The IllegalArgumentException of `new Sort.Order` for a property without text. */
  const PropertyRequired: string := "Property must not be null or empty"

  // ---------------------------------------------------------------------------
  // parseInt

  /** `parseInt(val, def)`: the trimmed text as a 32-bit integer, or `def` when the text
      is missing, blank or not a 32-bit integer. */
  function ParseIntOr(val: Option<string>, def: int): (r: int)
    ensures r == def || (val.Some? && ParseInt(Trim(val.value)) == Some(r))
  {
    if val.None? || IsBlank(val.value) then def
    else match ParseInt(Trim(val.value))
      case Some(v) => v
      case None => def
  }

  lemma IntTextTrimmed(n: int)
    ensures Trim(IntText(n)) == IntText(n) && !IsBlank(IntText(n))
  {
    var t := IntText(n);
    var d := DecimalText(if n < 0 then -n else n);
    assert forall i :: 0 <= i < |d| ==> IsDigit(d[i]);
    assert t == if n < 0 then "-" + d else d;
    assert forall i :: 0 <= i < |t| ==> !IsTrimmable(t[i]) by {
      forall i | 0 <= i < |t| ensures !IsTrimmable(t[i]) {
        if n < 0 && i > 0 {
          assert t[i] == d[i - 1];
        }
      }
    }
    TrimNoTrimmable(t);
  }

  /** `parseInt` reads back the decimal text of every 32-bit integer. */
  lemma ParseIntOrText(n: int, def: int)
    requires IntMin <= n <= IntMax
    ensures ParseIntOr(Some(IntText(n)), def) == n
  {
    IntTextTrimmed(n);
    ParseIntText(n, IntMin, IntMax);
  }

  // ---------------------------------------------------------------------------
  // page and size

  /** The page index of `createPageable`: `page` parsed, negative values replaced by 0. */
  function PageIndexOf(raw: Option<string>): (r: int)
    ensures r >= 0
  {
    var page := ParseIntOr(raw, DefaultPage);
    if page < 0 then DefaultPage else page
  }

  /** The page size of `createPageable`: `size` parsed, values <= 0 replaced by the
      default 20 and values above the maximum capped at 1000. */
  function PageSizeOf(raw: Option<string>): (r: int)
    ensures 1 <= r <= MaxSize
  {
    var size := ParseIntOr(raw, DefaultSize);
    if size <= 0 then DefaultSize else if size > MaxSize then MaxSize else size
  }

  /** Page index: 0 when missing, blank, not an integer or negative; otherwise unchanged. */
  lemma PageIndexCases(raw: Option<string>)
    ensures raw.None? || IsBlank(raw.value) ==> PageIndexOf(raw) == 0
    ensures raw.Some? && !IsBlank(raw.value) && ParseInt(Trim(raw.value)).None? ==> PageIndexOf(raw) == 0
    ensures raw.Some? && !IsBlank(raw.value) && ParseInt(Trim(raw.value)).Some? ==>
      var n := ParseInt(Trim(raw.value)).value;
      PageIndexOf(raw) == if n < 0 then 0 else n
  {
  }

  /** Page size: 20 when missing, blank, not an integer or <= 0; 1000 when larger;
      otherwise unchanged. */
  lemma PageSizeCases(raw: Option<string>)
    ensures raw.None? || IsBlank(raw.value) ==> PageSizeOf(raw) == 20
    ensures raw.Some? && !IsBlank(raw.value) && ParseInt(Trim(raw.value)).None? ==> PageSizeOf(raw) == 20
    ensures raw.Some? && !IsBlank(raw.value) && ParseInt(Trim(raw.value)).Some? ==>
      var n := ParseInt(Trim(raw.value)).value;
      PageSizeOf(raw) == if n <= 0 then 20 else if n > 1000 then 1000 else n
  {
  }

  /** The decimal text of a size in [1, 1000] passes unchanged; of a larger 32-bit size,
      is capped at 1000; a negative page becomes 0. */
  lemma PageSizeOfText(n: int)
    requires IntMin <= n <= IntMax
    ensures 1 <= n <= 1000 ==> PageSizeOf(Some(IntText(n))) == n
    ensures n > 1000 ==> PageSizeOf(Some(IntText(n))) == 1000
    ensures n <= 0 ==> PageSizeOf(Some(IntText(n))) == 20
    ensures PageIndexOf(Some(IntText(n))) == if n < 0 then 0 else n
  {
    ParseIntOrText(n, DefaultSize);
    ParseIntOrText(n, DefaultPage);
  }

  /** A size beyond the 32-bit range is not an integer to `parseInt`, so it falls back to
      the default 20 rather than being capped. */
  lemma PageSizeOverflowFallsBack(n: int)
    requires n > IntMax
    ensures PageSizeOf(Some(IntText(n))) == 20
  {
    IntTextTrimmed(n);
    DigitsValueOfDecimalText(n);
  }

  // ---------------------------------------------------------------------------
  // direction

  /** The direction of `createPageable`: `dir`, with a missing or blank value replaced by
      "asc", is DESC exactly when it equals "desc" ignoring case. */
  function DirectionOf(raw: Option<string>): (r: Direction)
    ensures r == Desc <==> raw.Some? && EqualsIgnoreCase(raw.value, "desc")
  {
    DescIsNotBlank(if raw.Some? then raw.value else "");
    var dir := if raw.None? || IsBlank(raw.value) then DefaultSortDirection else raw.value;
    if EqualsIgnoreCase(dir, "desc") then Desc else Asc
  }

  /** "desc" in any case has text, and the default direction is not it. */
  lemma DescIsNotBlank(s: string)
    ensures EqualsIgnoreCase(s, "desc") ==> !IsBlank(s)
    ensures !EqualsIgnoreCase(DefaultSortDirection, "desc")
  {
    assert Lower("asc") == "asc" && Lower("desc") == "desc";
    if EqualsIgnoreCase(s, "desc") {
      assert |s| == 4 && LowerChar(s[0]) == 'd';
      assert !IsTrimmable(s[0]);
      BlankIffAllTrimmable(s);
    }
  }

  // ---------------------------------------------------------------------------
  // sort keys

  /** `sortBy`, with a missing or blank value replaced by the default field "id". */
  function SortByOf(raw: Option<string>): string
  {
    if raw.None? || IsBlank(raw.value) then DefaultSortField else raw.value
  }

  /** The trimmed pieces that have text, in order. */
  function TextFields(parts: seq<string>): seq<string>
  {
    if parts == [] then []
    else
      var t := Trim(parts[|parts| - 1]);
      TextFields(parts[..|parts| - 1]) + (if HasText(t) then [t] else [])
  }

  /** Every surviving field has text and is already trimmed. */
  lemma {:induction false} TextFieldsTrimmedWithText(parts: seq<string>)
    ensures |TextFields(parts)| <= |parts|
    ensures forall k :: 0 <= k < |TextFields(parts)| ==> HasText(TextFields(parts)[k]) && Trim(TextFields(parts)[k]) == TextFields(parts)[k]
  {
    if parts != [] {
      TextFieldsTrimmedWithText(parts[..|parts| - 1]);
      TrimTrimmed(parts[|parts| - 1]);
    }
  }

  /** One key per field, all with the same direction. */
  function OrdersOf(fields: seq<string>, dir: Direction): (r: seq<Order>)
    ensures |r| == |fields|
    ensures forall k :: 0 <= k < |r| ==> r[k] == Order(dir, fields[k])
  {
    if fields == [] then [] else OrdersOf(fields[..|fields| - 1], dir) + [Order(dir, fields[|fields| - 1])]
  }

  lemma TextFieldsStep(fields: seq<string>, i: nat)
    requires i < |fields|
    ensures TextFields(fields[..i + 1]) == TextFields(fields[..i]) + (if HasText(Trim(fields[i])) then [Trim(fields[i])] else [])
  {
    assert fields[..i + 1][..i] == fields[..i];
  }

  lemma OrdersOfAppend(fields: seq<string>, f: string, dir: Direction)
    ensures OrdersOf(fields + [f], dir) == OrdersOf(fields, dir) + [Order(dir, f)]
  {
    assert (fields + [f])[..|fields|] == fields;
  }

  /** The sort of `createSort`: one key per trimmed field of `sortBy` split on ",", in
      order and sharing `dir`; the single key ("id", `dir`) when `sortBy` is blank or no
      field survives. A field without text is dropped (see the findings in README.md). */
  function SortKeys(sortBy: string, dir: Direction): (r: seq<Order>)
    ensures |r| >= 1
  {
    if IsBlank(sortBy) then [Order(dir, DefaultSortField)]
    else
      var fields := TextFields(Split(sortBy, SortDelimiter));
      if fields == [] then [Order(dir, DefaultSortField)] else OrdersOf(fields, dir)
  }

  /** Sort keys are never empty, all share the parsed direction, and are exactly the
      surviving fields in order, or the single default field. */
  lemma SortKeysShape(sortBy: string, dir: Direction)
    ensures forall k :: 0 <= k < |SortKeys(sortBy, dir)| ==> SortKeys(sortBy, dir)[k].direction == dir
    ensures IsBlank(sortBy) || TextFields(Split(sortBy, SortDelimiter)) == [] ==> SortKeys(sortBy, dir) == [Order(dir, DefaultSortField)]
    ensures var fields := TextFields(Split(sortBy, SortDelimiter));
      !IsBlank(sortBy) && fields != [] ==>
        (|SortKeys(sortBy, dir)| == |fields| && forall k :: 0 <= k < |fields| ==> SortKeys(sortBy, dir)[k].property == fields[k])
  {
    var fields := TextFields(Split(sortBy, SortDelimiter));
    KeysShape(SortKeys(sortBy, dir), fields, dir, IsBlank(sortBy));
  }

  lemma KeysShape(keys: seq<Order>, fields: seq<string>, dir: Direction, blank: bool)
    requires keys == if blank || fields == [] then [Order(dir, DefaultSortField)] else OrdersOf(fields, dir)
    ensures forall k :: 0 <= k < |keys| ==> keys[k].direction == dir
    ensures blank || fields == [] ==> keys == [Order(dir, DefaultSortField)]
    ensures !blank && fields != [] ==> |keys| == |fields| && forall k :: 0 <= k < |fields| ==> keys[k].property == fields[k]
  {
  }

  /** A field name with neither whitespace nor control characters in it. */
  predicate PlainWord(w: string)
  {
    w != [] && forall i :: 0 <= i < |w| ==> !IsWhitespace(w[i]) && !IsTrimmable(w[i])
  }

  lemma {:induction false} TextFieldsOfPlainWords(ws: seq<string>)
    requires forall k :: 0 <= k < |ws| ==> PlainWord(ws[k])
    ensures TextFields(ws) == ws
  {
    if ws != [] {
      var w := ws[|ws| - 1];
      TextFieldsOfPlainWords(ws[..|ws| - 1]);
      TrimNoTrimmable(w);
      assert !IsWhitespace(w[0]);
    }
  }

  /** `sortBy=firstName,lastName` (or a single name): plain field names joined by "," give
      one key each, in the order written, all sharing the requested direction. */
  lemma SortOfPlainFields(ws: seq<string>, dir: Direction)
    requires |ws| >= 1
    requires forall k :: 0 <= k < |ws| ==> PlainWord(ws[k]) && SortDelimiter !in ws[k]
    ensures SortKeys(Join(ws, SortDelimiter), dir) == OrdersOf(ws, dir)
  {
    var s := Join(ws, SortDelimiter);
    SplitJoin(ws, SortDelimiter);
    TextFieldsOfPlainWords(ws);
    if |ws| >= 2 {
      assert s == ws[0] + [SortDelimiter] + Join(ws[1..], SortDelimiter);
    }
    assert s[0] == ws[0][0];
    BlankIffAllTrimmable(s);
  }

  /** One pass of `createSort`'s loop extends the keys of the fields seen so far. */
  lemma CreateSortStep(fields: seq<string>, i: nat, orders: seq<Order>, dir: Direction)
    requires i < |fields|
    requires orders == OrdersOf(TextFields(fields[..i]), dir)
    ensures var t := Trim(fields[i]);
      OrdersOf(TextFields(fields[..i + 1]), dir) == if HasText(t) then orders + [Order(dir, t)] else orders
  {
    TextFieldsStep(fields, i);
    OrdersOfAppend(TextFields(fields[..i]), Trim(fields[i]), dir);
  }

  /** After the loop, the fallback gives exactly `SortKeys`. */
  lemma CreateSortDone(sortBy: string, fields: seq<string>, orders: seq<Order>, dir: Direction)
    requires !IsBlank(sortBy) && fields == Split(sortBy, SortDelimiter)
    requires orders == OrdersOf(TextFields(fields[..|fields|]), dir)
    ensures SortKeys(sortBy, dir) == if orders == [] then [Order(dir, DefaultSortField)] else orders
  {
    assert fields[..|fields|] == fields;
  }

  /** `createSort` (as the request binder uses it): builds the keys by appending one
      `Sort.Order` per field with text, falling back to the default field. */
  method CreateSort(sortBy: string, direction: Direction) returns (sort: seq<Order>)
    ensures sort == SortKeys(sortBy, direction)
  {
    if IsBlank(sortBy) {
      return [Order(direction, DefaultSortField)];
    }
    var fields := Split(sortBy, SortDelimiter);
    var orders: seq<Order> := [];
    for i := 0 to |fields|
      invariant orders == OrdersOf(TextFields(fields[..i]), direction)
    {
      var trimmed := Trim(fields[i]);
      CreateSortStep(fields, i, orders, direction);
      if HasText(trimmed) {
        orders := orders + [Order(direction, trimmed)];
      }
    }
    CreateSortDone(sortBy, fields, orders, direction);
    sort := if orders == [] then [Order(direction, DefaultSortField)] else orders;
  }

  // ---------------------------------------------------------------------------
  // The code as written: a trimmed field that is not empty but has no text

  /** The trimmed pieces that are not empty, in order (the filter of `createSort`). */
  function NonEmptyTrimmed(parts: seq<string>): seq<string>
  {
    if parts == [] then []
    else
      var t := Trim(parts[|parts| - 1]);
      NonEmptyTrimmed(parts[..|parts| - 1]) + (if t != [] then [t] else [])
  }

  /** `createSort` as written: it keeps every trimmed field that is not empty and hands it
      to `new Sort.Order`, which throws unless the field has text. */
  function SortAsWritten(sortBy: string, dir: Direction): (r: Result<seq<Order>>)
    ensures r.Ok? ==> |r.value| >= 1 && forall k :: 0 <= k < |r.value| ==> r.value[k].direction == dir && HasText(r.value[k].property)
    ensures r.Err? ==> r.msg == PropertyRequired
  {
    if IsBlank(sortBy) then Ok([Order(dir, DefaultSortField)])
    else
      var fields := NonEmptyTrimmed(Split(sortBy, SortDelimiter));
      if exists k :: 0 <= k < |fields| && !HasText(fields[k]) then Err(PropertyRequired)
      else if fields == [] then Ok([Order(dir, DefaultSortField)])
      else Ok(OrdersOf(fields, dir))
  }

  /** `sortBy` made of one whitespace character that `trim` keeps (U+2003, an em space, is
      one): the code as written throws, while sort parsing is meant to be total; the
      corrected parser falls back to the default key. */
  lemma SortAsWrittenRejectsWideSpace(c: char, dir: Direction)
    requires IsWhitespace(c) && !IsTrimmable(c)
    ensures SortAsWritten([c], dir).Err?
    ensures SortKeys([c], dir) == [Order(dir, DefaultSortField)]
  {
    OneWideSpace(c);
    SortOfOneTextless([c], [c], dir);
  }

  /** A single whitespace char that `trim` keeps is a non-blank field without text. */
  lemma OneWideSpace(c: char)
    requires IsWhitespace(c) && !IsTrimmable(c)
    ensures !IsBlank([c]) && Trim([c]) == [c] && !HasText([c])
    ensures Split([c], SortDelimiter) == [[c]]
  {
    TrimOneKept(c);
    NoTextOneSpace(c);
    SplitOneOther([c], SortDelimiter);
  }

  lemma TrimOneKept(c: char)
    requires !IsTrimmable(c)
    ensures Trim([c]) == [c] && !IsBlank([c])
  {
    TrimNoTrimmable([c]);
  }

  lemma NoTextOneSpace(c: char)
    requires IsWhitespace(c)
    ensures !HasText([c])
  {
    assert [c][1..] == [];
  }

  lemma SplitOneOther(s: string, d: char)
    requires |s| == 1 && s[0] != d
    ensures Split(s, d) == [s]
  {
    assert d !in s;
  }

  /** `sortBy` that splits into a single trimmed field without text. */
  lemma SortOfOneTextless(sortBy: string, field: string, dir: Direction)
    requires !IsBlank(sortBy) && Split(sortBy, SortDelimiter) == [field]
    requires field != [] && Trim(field) == field && !HasText(field)
    ensures SortAsWritten(sortBy, dir).Err?
    ensures SortKeys(sortBy, dir) == [Order(dir, DefaultSortField)]
  {
    OneTextlessField(field);
    var kept := NonEmptyTrimmed(Split(sortBy, SortDelimiter));
    assert kept == [field];
    assert !HasText(kept[0]);
  }

  /** A single trimmed field without text is kept as written and dropped as corrected. */
  lemma OneTextlessField(field: string)
    requires field != [] && Trim(field) == field && !HasText(field)
    ensures NonEmptyTrimmed([field]) == [field] && TextFields([field]) == []
  {
    var one := [field];
    assert one[..0] == [] && one[0] == field;
    assert NonEmptyTrimmed(one) == NonEmptyTrimmed([]) + [field];
    assert TextFields(one) == TextFields([]) + [];
  }

  lemma {:induction false} NonEmptyTrimmedWithText(parts: seq<string>)
    requires forall k :: 0 <= k < |NonEmptyTrimmed(parts)| ==> HasText(NonEmptyTrimmed(parts)[k])
    ensures NonEmptyTrimmed(parts) == TextFields(parts)
  {
    if parts != [] {
      var init := parts[..|parts| - 1];
      var t := Trim(parts[|parts| - 1]);
      assert NonEmptyTrimmed(parts) == NonEmptyTrimmed(init) + (if t != [] then [t] else []);
      assert forall k :: 0 <= k < |NonEmptyTrimmed(init)| ==> NonEmptyTrimmed(parts)[k] == NonEmptyTrimmed(init)[k];
      NonEmptyTrimmedWithText(init);
      if t != [] {
        assert HasText(NonEmptyTrimmed(parts)[|NonEmptyTrimmed(parts)| - 1]);
      }
    }
  }

  /** The correction changes nothing where the code as written succeeds. */
  lemma SortCorrectionConservative(sortBy: string, dir: Direction)
    requires SortAsWritten(sortBy, dir).Ok?
    ensures SortAsWritten(sortBy, dir).value == SortKeys(sortBy, dir)
  {
    if !IsBlank(sortBy) {
      NonEmptyTrimmedWithText(Split(sortBy, SortDelimiter));
    }
  }

  // ---------------------------------------------------------------------------
  // createPageable

  /** The pageable `createPageable` builds from the query parameters. */
  function PageableOf(params: ParamMap): (p: PageRequest)
    ensures p.page >= 0 && 1 <= p.size <= MaxSize && |p.sort| >= 1
  {
    PageRequest(
      PageIndexOf(GetParameter(params, ParamPage)),
      PageSizeOf(GetParameter(params, ParamSize)),
      SortKeys(SortByOf(GetParameter(params, ParamSortBy)), DirectionOf(GetParameter(params, ParamDir))))
  }

  /** `createPageable`: parses page and size, then repairs them in place, then builds the
      sort. The result always satisfies `PageRequest.of`'s own checks. */
  method CreatePageable(params: ParamMap) returns (p: PageRequest)
    ensures p == PageableOf(params)
    ensures p.page >= 0 && 1 <= p.size <= MaxSize && |p.sort| >= 1
  {
    var page := ParseIntOr(GetParameter(params, ParamPage), DefaultPage);
    var size := ParseIntOr(GetParameter(params, ParamSize), DefaultSize);
    if size <= 0 {
      size := DefaultSize;
    } else if size > MaxSize {
      size := MaxSize;
    }
    if page < 0 {
      page := DefaultPage;
    }
    var sortBy := SortByOf(GetParameter(params, ParamSortBy));
    var dirParam := GetParameter(params, ParamDir);
    var dir := if dirParam.None? || IsBlank(dirParam.value) then DefaultSortDirection else dirParam.value;
    var direction := if EqualsIgnoreCase(dir, "desc") then Desc else Asc;
    var sort := CreateSort(sortBy, direction);
    p := PageRequest(page, size, sort);
  }
}
