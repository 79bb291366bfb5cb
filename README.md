# Request binding, filtering and pagination core — a Dafny model

This project models the request-handling core of a chat application's Spring backend:

- **Request binding** (`PageAndFilterResolver`). A fresh request object is filled by
  name from, in order: the JSON/XML body, the authenticated-user request attribute, the
  path variables, the query parameters (first value), the pageable (always), the filter
  list (when non-empty) and the authentication (when authenticated). Each step is a
  "set the field of this name, if it is declared, to this value, if it is not null and
  converts to the field's type" call; a later call overwrites an earlier one, and a call
  that cannot apply is skipped without affecting the others.
- **Pagination** (`createPageable`, `createSort`, `parseInt`). In the corrected model
  any parameter text maps to a page >= 0, a size in [1, 1000] and a non-empty list of
  sort keys; the code as written can throw on one kind of sort field (second row under
  Findings).
- **Filter parsing** (`parseFilters`, `parseFilterParameter`, `FilterOperator.from`).
  `filter.<dotted.field>[:<operator>]=<value>` becomes a filter criterion. A blank field
  or an unknown operator drops only that entry.
- **Predicate building** (`GenericSpecification`). The criteria are turned into predicates
  over an entity schema. The model resolves dotted paths, converts values to the field type
  and gives each operator its meaning over records (SQL NULL semantics included). A record
  is selected when all predicates hold.
- **The second pagination path** (`PageUtil.getPageable`), which neither clamps nor
  splits and falls back to the opposite direction.
- **File naming** (`FileService`): the lower-cased extension and the stored path.
- **Chat summaries** (`Chat` getters): the name shown to a participant, the unread
  count, and the newest message and its time.
- **Token mapping** (`UserMapper`): a user built from identity-token claims, and the
  response view of a user.

The Java library behaviour these rely on is written out in `java_strings.dfy`. This
covers `trim` (strips chars <= U+0020), `split` (drops trailing empty strings), `split`
with limit 2, `lastIndexOf`, `equalsIgnoreCase`, `Integer.parseInt` and `Long.parseLong`
with their ranges, `UUID.fromString`, and Spring's `StringUtils.hasText`.

Files: `wrappers.dfy` (Option, Result, collecting results), `java_strings.dfy`,
`constants.dfy` (`CommonConstant`), `web_request.dfy` (query parameters),
`filter_operator.dfy`, `pagination.dfy`, `filter_parsing.dfy`, `binding.dfy`,
`specification.dfy`, `page_util.dfy`, `file_service.dfy`, `chat.dfy`, `user_mapper.dfy`.

State that the source changes in place is modelled imperatively:
- The request object under binding is the class `Binding.BoundRequest`. Its `fields` map
  is updated by `SetFieldIfExists`.
- The bind methods are methods on it.
- `User` is a class whose fields `FromTokenAttributes` sets one by one.
- The loops of `parseFilters`, `createSort`, `bindQueryParameters`, `withFilters` and the
  role collection are `for` loops with invariants.

Each method is proved equal to a specification function. The properties are proved as
lemmas about those functions.

The model follows the code in these details:
- Operator names are matched ignoring case (`equalsIgnoreCase`), not case-sensitively.
- A `between` value with a trailing comma (`18,65,`) is accepted, because `split` drops
  trailing empty strings. A value with an empty first token (`,65`) fails conversion,
  not the arity check.
- The two Findings are modelled both ways. The `in`, `not_in` and `between` values are
  converted whole by the code, so those filters fail on non-text columns; and a sort
  field made only of whitespace that `trim` keeps makes `Sort.Order` throw. For each, an
  as-written member (`GenericSpecification.BuildPredicateAsWritten`,
  `Pagination.SortAsWritten`) follows the code, and the lemmas about it exhibit the
  failure. The resolver path (`Pagination.PageableOf`, `Binding.Bound`,
  `Binding.ResolveArgument`, `GenericSpecification.WithFilters`) uses the corrected
  definitions (`GenericSpecification.BuildPredicate`, `Pagination.SortKeys`), which are
  proved to agree with the code wherever the code succeeds.

## Model

| member | source | states |
|---|---|---|
| Wrappers.Collect | backend/src/main/java/com/example/demo/specification/GenericSpecification.java:16-27 | a list of results collects to the list of their values in order, or to the error of the first failure |
| Wrappers.CollectEach | backend/src/main/java/com/example/demo/specification/GenericSpecification.java:20-22 | the collection succeeds exactly when every element does, and then holds each element's value at its index |
| Wrappers.CollectFirstFailure | backend/src/main/java/com/example/demo/specification/GenericSpecification.java:20-22 | the first failing element decides the error of the whole collection |
| Wrappers.CollectStep | backend/src/main/java/com/example/demo/specification/GenericSpecification.java:20-22 | collecting one more successful result appends its value |
| Wrappers.CollectAll | backend/src/main/java/com/example/demo/specification/GenericSpecification.java:20-22 | results that are all successes collect to exactly their values |
| JavaStrings.TrimStart | backend/src/main/java/com/example/demo/resolver/PageAndFilterResolver.java:255 | strips exactly the leading chars <= U+0020: what it drops is all trimmable and what is left starts with a non-trimmable char |
| JavaStrings.TrimEnd | backend/src/main/java/com/example/demo/resolver/PageAndFilterResolver.java:255 | strips exactly the trailing chars <= U+0020 |
| JavaStrings.Trim | backend/src/main/java/com/example/demo/resolver/PageAndFilterResolver.java:255 | the result neither starts nor ends with a char <= U+0020 |
| JavaStrings.TrimNoTrimmable | backend/src/main/java/com/example/demo/resolver/PageAndFilterResolver.java:255 | a text without chars <= U+0020 is its own trim |
| JavaStrings.BlankIffAllTrimmable | backend/src/main/java/com/example/demo/resolver/PageAndFilterResolver.java:247 | `s.trim().isEmpty()` holds exactly when every char of `s` is <= U+0020 |
| JavaStrings.TrimTrimmed | backend/src/main/java/com/example/demo/resolver/PageAndFilterResolver.java:319 | trimming twice is trimming once |
| JavaStrings.Lower | backend/src/main/java/com/example/demo/service/FileService.java:63 | `toLowerCase` maps each char on its own and keeps the length |
| JavaStrings.Upper | backend/src/main/java/com/example/demo/model/FilterOperator.java:10 | `toUpperCase` maps each char on its own and keeps the length |
| JavaStrings.LowerSuffix | backend/src/main/java/com/example/demo/service/FileService.java:63 | lower-casing a suffix is the suffix of the lower-cased text |
| JavaStrings.LowerIdempotent | backend/src/main/java/com/example/demo/service/FileService.java:63 | lower-casing twice is lower-casing once |
| JavaStrings.UpperEqualsIgnoreCase | backend/src/main/java/com/example/demo/model/FilterOperator.java:10 | a text equals its upper-cased form ignoring case |
| JavaStrings.ContainsIff | backend/src/main/java/com/example/demo/resolver/PageAndFilterResolver.java:164 | `contains` holds exactly when the text occurs at some index |
| JavaStrings.IndexOf | backend/src/main/java/com/example/demo/resolver/PageAndFilterResolver.java:300 | `indexOf` finds the first occurrence of the char, or none when it does not occur |
| JavaStrings.LastIndexOf | backend/src/main/java/com/example/demo/service/FileService.java:59 | `lastIndexOf` finds the last occurrence of the char, or none when it does not occur |
| JavaStrings.LastIndexOfAt | backend/src/main/java/com/example/demo/service/FileService.java:59 | an occurrence with none after it is the one `lastIndexOf` finds |
| JavaStrings.SplitAll | backend/src/main/java/com/example/demo/resolver/PageAndFilterResolver.java:251 | cutting at every delimiter gives at least one piece and no piece holds the delimiter |
| JavaStrings.JoinSplitAll | backend/src/main/java/com/example/demo/resolver/PageAndFilterResolver.java:251 | round trip: joining the pieces with the delimiter gives the text back |
| JavaStrings.SplitAllJoin | backend/src/main/java/com/example/demo/resolver/PageAndFilterResolver.java:251 | round trip: cutting the join of delimiter-free pieces gives the pieces back |
| JavaStrings.SplitAllNoDelimiter | backend/src/main/java/com/example/demo/resolver/PageAndFilterResolver.java:251 | a text without the delimiter is one piece |
| JavaStrings.SplitAllPrefix | backend/src/main/java/com/example/demo/resolver/PageAndFilterResolver.java:251 | a delimiter-free prefix before the delimiter is the first piece |
| JavaStrings.Split | backend/src/main/java/com/example/demo/resolver/PageAndFilterResolver.java:251 | `split` pieces hold no delimiter, and when the delimiter occurs the last piece kept is not empty (trailing empties are dropped) |
| JavaStrings.SplitJoin | backend/src/main/java/com/example/demo/resolver/PageAndFilterResolver.java:251 | round trip for `split`: one or more delimiter-free pieces whose last is not empty come back from their join |
| JavaStrings.DropTrailingEmpty | backend/src/main/java/com/example/demo/resolver/PageAndFilterResolver.java:251 | drops exactly the trailing empty pieces and keeps the rest in order |
| JavaStrings.SplitFirst | backend/src/main/java/com/example/demo/resolver/PageAndFilterResolver.java:300 | `split(d, 2)`: one piece equal to the text when `d` does not occur, else the text before the first `d` and everything after it |
| JavaStrings.SplitFirstAt | backend/src/main/java/com/example/demo/resolver/PageAndFilterResolver.java:307 | round trip: `p + d + t` with `d` not in `p` splits into `p` and `t` |
| JavaStrings.ParseIntIn | backend/src/main/java/com/example/demo/resolver/PageAndFilterResolver.java:341 | `Integer.parseInt`/`Long.parseLong`: an optional sign and digits, accepted only within the type's range |
| JavaStrings.DecimalText | backend/src/main/java/com/example/demo/specification/GenericSpecification.java:92 | the decimal digits of a number are a non-empty digit string |
| JavaStrings.DigitsValueOfDecimalText | backend/src/main/java/com/example/demo/specification/GenericSpecification.java:92 | round trip: the digits of `n` read back as `n` |
| JavaStrings.ParseIntText | backend/src/main/java/com/example/demo/resolver/PageAndFilterResolver.java:341 | round trip: the decimal text of an in-range number parses to that number |
| JavaStrings.ParseNumeral | backend/src/main/java/com/example/demo/resolver/PageAndFilterResolver.java:341 | an optionally negative digit string in range parses to its value |
| JavaStrings.IntTextToken | backend/src/main/java/com/example/demo/specification/GenericSpecification.java:113-114 | a number's text is non-empty, already trimmed and holds no separator |
| JavaStrings.ParseIntRejectsNonDigit | backend/src/main/java/com/example/demo/specification/GenericSpecification.java:92 | a text with a non-digit after its first char does not parse |
| JavaStrings.ParseUuid | backend/src/main/java/com/example/demo/mapper/UserMapper.java:21 | the model of `UUID.fromString` accepts exactly the canonical 8-4-4-4-12 hexadecimal form and yields its lower-cased text |
| JavaStrings.LowerCanonicalUuid | backend/src/main/java/com/example/demo/mapper/UserMapper.java:21 | lower-casing keeps a UUID canonical |
| WebRequest.GetParameter | backend/src/main/java/com/example/demo/resolver/PageAndFilterResolver.java:213 | `getParameter` returns the first value of the first entry of that name (null when that entry has no value), and null when no entry has that name |
| FilterOperator.FindFirst | backend/src/main/java/com/example/demo/model/FilterOperator.java:9-12 | the first operator whose name equals the token ignoring case, or none exactly when no name matches |
| FilterOperator.From | backend/src/main/java/com/example/demo/model/FilterOperator.java:8-13 | a parsed operator's name equals the token ignoring case; a null token or one that matches no name fails with "Invalid operator: " |
| FilterOperator.ValuesEnumerateOp | backend/src/main/java/com/example/demo/model/FilterOperator.java:6 | `values()` lists the thirteen operators, each once |
| FilterOperator.NamesDistinctIgnoringCase | backend/src/main/java/com/example/demo/model/FilterOperator.java:6-11 | no two operators have names equal ignoring case, so the match is unique |
| FilterOperator.FromMatchesName | backend/src/main/java/com/example/demo/model/FilterOperator.java:8-13 | `from(tok)` yields an operator exactly when its name equals the token ignoring case |
| FilterOperator.FromName | backend/src/main/java/com/example/demo/model/FilterOperator.java:8-13 | round trip: every operator's name, in lower or upper case, parses back to it |
| FilterOperator.FromRejects | backend/src/main/java/com/example/demo/model/FilterOperator.java:12 | an unknown or null token fails with "Invalid operator: " and the token |
| Pagination.ParseIntOr | backend/src/main/java/com/example/demo/resolver/PageAndFilterResolver.java:335-346 | the result is the default or the trimmed text parsed as a 32-bit integer |
| Pagination.ParseIntOrText | backend/src/main/java/com/example/demo/resolver/PageAndFilterResolver.java:335-346 | round trip: an in-range number's text parses to that number |
| Pagination.PageIndexOf | backend/src/main/java/com/example/demo/resolver/PageAndFilterResolver.java:213-229 | the page index is never negative |
| Pagination.PageSizeOf | backend/src/main/java/com/example/demo/resolver/PageAndFilterResolver.java:214-223 | the page size lies in [1, 1000] |
| Pagination.PageIndexCases | backend/src/main/java/com/example/demo/resolver/PageAndFilterResolver.java:213-229 | page 0 when missing, blank or unparsable; the parsed value when >= 0; 0 when negative |
| Pagination.PageSizeCases | backend/src/main/java/com/example/demo/resolver/PageAndFilterResolver.java:214-223 | size 20 when missing, blank, unparsable or <= 0; 1000 when larger; the parsed value otherwise |
| Pagination.PageSizeOfText | backend/src/main/java/com/example/demo/resolver/PageAndFilterResolver.java:213-229 | the size of a number's text is kept in [1, 1000], capped above and reset below; the page keeps non-negative numbers |
| Pagination.PageSizeOverflowFallsBack | backend/src/main/java/com/example/demo/resolver/PageAndFilterResolver.java:340-344 | a size beyond the 32-bit range does not parse and falls back to 20, not to the cap |
| Pagination.DirectionOf | backend/src/main/java/com/example/demo/resolver/PageAndFilterResolver.java:231-238 | the direction is descending exactly when the parameter is present and is "desc" ignoring case; missing, blank or any other text is ascending |
| Pagination.TextFieldsTrimmedWithText | backend/src/main/java/com/example/demo/resolver/PageAndFilterResolver.java:254-259 | every kept sort field has text and is trimmed, and there are no more fields than pieces |
| Pagination.OrdersOf | backend/src/main/java/com/example/demo/resolver/PageAndFilterResolver.java:257 | one order per field, in order, all in the given direction |
| Pagination.SortKeys | backend/src/main/java/com/example/demo/resolver/PageAndFilterResolver.java:246-262 | the sort is never empty |
| Pagination.SortKeysShape | backend/src/main/java/com/example/demo/resolver/PageAndFilterResolver.java:246-262 | all keys share the direction; `id` when the text is blank or keeps no field; otherwise one key per kept field, in order |
| Pagination.TextFieldsOfPlainWords | backend/src/main/java/com/example/demo/resolver/PageAndFilterResolver.java:254-259 | plain words are all kept unchanged |
| Pagination.SortOfPlainFields | backend/src/main/java/com/example/demo/resolver/PageAndFilterResolver.java:240-262 | round trip: one or more plain fields joined by commas sort on exactly those fields, in order |
| Pagination.CreateSort | backend/src/main/java/com/example/demo/resolver/PageAndFilterResolver.java:246-262 | the loop builds exactly the specified sort |
| Pagination.SortAsWrittenRejectsWideSpace | backend/src/main/java/com/example/demo/resolver/PageAndFilterResolver.java:255-257 | the code as written fails on a sort field made of a whitespace char that `trim` keeps; the corrected sort falls back to `id` |
| Pagination.SortOfOneTextless | backend/src/main/java/com/example/demo/resolver/PageAndFilterResolver.java:255-257 | a single trimmed field without text fails as written and falls back as corrected |
| Pagination.NonEmptyTrimmedWithText | backend/src/main/java/com/example/demo/resolver/PageAndFilterResolver.java:255-257 | when every kept field has text, the code as written and the corrected filter keep the same fields |
| Pagination.SortCorrectionConservative | backend/src/main/java/com/example/demo/resolver/PageAndFilterResolver.java:255-261 | wherever the code as written succeeds, the corrected sort is the same |
| Pagination.SortAsWritten | backend/src/main/java/com/example/demo/resolver/PageAndFilterResolver.java:246-262 | as written, a successful sort is non-empty and every key has text and the requested direction; the only failure is `Sort.Order`'s "Property must not be null or empty" |
| Pagination.PageableOf | backend/src/main/java/com/example/demo/resolver/PageAndFilterResolver.java:208-244 | the specified pageable: page >= 0, size in [1, 1000], at least one sort key |
| Pagination.CreatePageable | backend/src/main/java/com/example/demo/resolver/PageAndFilterResolver.java:208-244 | the pageable is the specified one and always passes `PageRequest.of`'s checks: page >= 0, size in [1, 1000], at least one sort key |
| FilterParsing.ParseFilterParameter | backend/src/main/java/com/example/demo/resolver/PageAndFilterResolver.java:294-327 | a criterion keeps the value as given and has a non-blank trimmed field; an error is the unknown-operator error |
| FilterParsing.CriteriaOf | backend/src/main/java/com/example/demo/resolver/PageAndFilterResolver.java:308-322 | a blank field gives no criterion, an unknown operator the error, otherwise the trimmed field with the operator |
| FilterParsing.PrefixedKeyInGrammar | backend/src/main/java/com/example/demo/resolver/PageAndFilterResolver.java:300-307 | every key that starts with "filter." is a field without ":" followed by an optional ":" and operator token |
| FilterParsing.CutOperator | backend/src/main/java/com/example/demo/resolver/PageAndFilterResolver.java:307 | any text is a ":"-free field followed by an optional ":" and operator token |
| FilterParsing.ParseFilterKey | backend/src/main/java/com/example/demo/resolver/PageAndFilterResolver.java:294-327 | for every key in the grammar: blank field gives nothing; otherwise success exactly when the operator (default "eq") is known ignoring case, yielding the trimmed field, that operator and the raw value; failure names the token |
| FilterParsing.CutFilterKey | backend/src/main/java/com/example/demo/resolver/PageAndFilterResolver.java:300-308 | cutting a key in the grammar at "." and then ":" recovers its field and operator token |
| FilterParsing.PrefixCut | backend/src/main/java/com/example/demo/resolver/PageAndFilterResolver.java:300 | the first "." of a key is the one after "filter" |
| FilterParsing.OperatorCut | backend/src/main/java/com/example/demo/resolver/PageAndFilterResolver.java:307 | the first ":" after a ":"-free field separates the operator token |
| FilterParsing.ParseFilterKeyOfCriteria | backend/src/main/java/com/example/demo/resolver/PageAndFilterResolver.java:294-327 | round trip: the key written for a criterion parses back to it |
| FilterParsing.ParseFilterDefaultsToEq | backend/src/main/java/com/example/demo/resolver/PageAndFilterResolver.java:315 | a key without an operator filters by equality |
| FilterParsing.FilterOf | backend/src/main/java/com/example/demo/resolver/PageAndFilterResolver.java:277-288 | one parameter yields at most one criterion |
| FilterParsing.FiltersAppend | backend/src/main/java/com/example/demo/resolver/PageAndFilterResolver.java:276-289 | entries are parsed independently: the filters of two runs of parameters concatenate |
| FilterParsing.FiltersIsolateBadEntry | backend/src/main/java/com/example/demo/resolver/PageAndFilterResolver.java:283-287 | a malformed entry is dropped without affecting any other entry |
| FilterParsing.FiltersExactly | backend/src/main/java/com/example/demo/resolver/PageAndFilterResolver.java:276-289 | a criterion is in the list exactly when some entry parses to it; no more criteria than entries |
| FilterParsing.Filters | backend/src/main/java/com/example/demo/resolver/PageAndFilterResolver.java:264-292 | no more criteria than query parameters |
| FilterParsing.FiltersWellFormed | backend/src/main/java/com/example/demo/resolver/PageAndFilterResolver.java:310-319 | every parsed criterion has a non-blank trimmed field |
| FilterParsing.ParseFilters | backend/src/main/java/com/example/demo/resolver/PageAndFilterResolver.java:264-292 | the loop yields exactly the specified filter list |
| GenericSpecification.ResolveFrom | backend/src/main/java/com/example/demo/specification/GenericSpecification.java:72-79 | a path resolves through segments only from an entity |
| GenericSpecification.Step | backend/src/main/java/com/example/demo/specification/GenericSpecification.java:76 | `path.get(seg)` succeeds exactly on an attribute of the entity the path is at |
| GenericSpecification.ResolveDotted | backend/src/main/java/com/example/demo/specification/GenericSpecification.java:72-79 | a dotted path resolves exactly when its first segment is an attribute and the rest resolves from there |
| GenericSpecification.ResolveUnknownSegment | backend/src/main/java/com/example/demo/specification/GenericSpecification.java:76 | an unknown segment anywhere in the path fails the whole path |
| GenericSpecification.GetPath | backend/src/main/java/com/example/demo/specification/GenericSpecification.java:72-79 | the loop resolves exactly the specified path |
| GenericSpecification.Convert | backend/src/main/java/com/example/demo/specification/GenericSpecification.java:81-110 | a failure carries the "Cannot convert value" message; a success is a non-null scalar |
| GenericSpecification.ConvertFailsIff | backend/src/main/java/com/example/demo/specification/GenericSpecification.java:86-109 | conversion fails exactly for Integer, Long or UUID text those types do not parse; Boolean is "true" ignoring case and never fails |
| GenericSpecification.ConvertIntText | backend/src/main/java/com/example/demo/specification/GenericSpecification.java:90-95 | round trip: an in-range number's text converts to that number for Integer and Long |
| GenericSpecification.ConvertEach | backend/src/main/java/com/example/demo/specification/GenericSpecification.java:113-114 | each token is trimmed and converted on its own, in order |
| GenericSpecification.ParseListEach | backend/src/main/java/com/example/demo/specification/GenericSpecification.java:112-116 | the list converts exactly when every trimmed token does, and then holds their values in order |
| GenericSpecification.ParseList | backend/src/main/java/com/example/demo/specification/GenericSpecification.java:112-116 | a converted list has one value per comma-separated token |
| GenericSpecification.LexTrichotomy | backend/src/main/java/com/example/demo/specification/GenericSpecification.java:43-50 | the text order is a strict total order |
| GenericSpecification.BeforeTrichotomy | backend/src/main/java/com/example/demo/specification/GenericSpecification.java:43-50 | the value order on comparable values is a strict total order |
| GenericSpecification.AcceptsIff | backend/src/main/java/com/example/demo/specification/GenericSpecification.java:25 | the conjunction holds exactly when every predicate does |
| GenericSpecification.Eval | backend/src/main/java/com/example/demo/specification/GenericSpecification.java:35-66 | SQL NULL semantics: a NULL column satisfies no predicate except `is_null` |
| GenericSpecification.EqualNotEqual | backend/src/main/java/com/example/demo/specification/GenericSpecification.java:35-38 | on a non-null column `ne` is the negation of `eq`; on NULL neither holds |
| GenericSpecification.LikeNotLike | backend/src/main/java/com/example/demo/specification/GenericSpecification.java:39-42 | on a non-null column `not_like` is the negation of `like` |
| GenericSpecification.InNotIn | backend/src/main/java/com/example/demo/specification/GenericSpecification.java:51-54 | on a non-null column `not_in` is the negation of `in` |
| GenericSpecification.NullNotNull | backend/src/main/java/com/example/demo/specification/GenericSpecification.java:63-66 | `is_not_null` is the negation of `is_null` |
| GenericSpecification.OrderingOperators | backend/src/main/java/com/example/demo/specification/GenericSpecification.java:43-50 | `gte` is `gt` or `eq`, `lte` is `lt` or `eq`, and `eq` excludes both strict comparisons |
| GenericSpecification.BetweenInclusive | backend/src/main/java/com/example/demo/specification/GenericSpecification.java:55-60 | `between` is `gte` the low bound and `lte` the high bound |
| GenericSpecification.PredicateFor | backend/src/main/java/com/example/demo/specification/GenericSpecification.java:34-69 | a predicate is built on the resolved path |
| GenericSpecification.ScalarPredicate | backend/src/main/java/com/example/demo/specification/GenericSpecification.java:35-50 | a scalar predicate is built on the resolved path |
| GenericSpecification.BuildPredicate | backend/src/main/java/com/example/demo/specification/GenericSpecification.java:29-70 | a predicate is only built for a field that resolves, and it is on that field's path |
| GenericSpecification.BuildPredicateAsWritten | backend/src/main/java/com/example/demo/specification/GenericSpecification.java:29-70 | as written, a predicate is built only when the field resolves and the whole value converts to its type, and it is on the field's path |
| GenericSpecification.BetweenArity | backend/src/main/java/com/example/demo/specification/GenericSpecification.java:56-62 | a `between` value that does not split into two tokens fails with the arity message |
| GenericSpecification.BuildCorrectionConservative | backend/src/main/java/com/example/demo/specification/GenericSpecification.java:32 | wherever the code as written succeeds, the corrected builder gives the same predicate |
| GenericSpecification.IsNullConvertsAsWritten | backend/src/main/java/com/example/demo/specification/GenericSpecification.java:32 | as written, `is_null` on an Integer column fails on a non-numeric value; corrected, it ignores the value |
| GenericSpecification.BuildEach | backend/src/main/java/com/example/demo/specification/GenericSpecification.java:20-22 | one build per criterion, in order |
| GenericSpecification.BuildAll | backend/src/main/java/com/example/demo/specification/GenericSpecification.java:16-27 | on success there is one predicate per criterion |
| GenericSpecification.BuildAllEach | backend/src/main/java/com/example/demo/specification/GenericSpecification.java:16-27 | the build succeeds exactly when every criterion builds, and then holds each criterion's predicate in order |
| GenericSpecification.WithFilters | backend/src/main/java/com/example/demo/specification/GenericSpecification.java:16-27 | the loop yields exactly the specified predicates or the first failure |
| GenericSpecification.NoFiltersAcceptAll | backend/src/main/java/com/example/demo/specification/GenericSpecification.java:25 | no criteria select every record |
| GenericSpecification.AddingFilterShrinks | backend/src/main/java/com/example/demo/specification/GenericSpecification.java:25 | adding a criterion can only shrink the selected records |
| GenericSpecification.BuildScalar | backend/src/main/java/com/example/demo/specification/GenericSpecification.java:43-50 | a scalar operator on a resolved field with a convertible value builds its predicate |
| GenericSpecification.BoundsBuild | backend/src/main/java/com/example/demo/specification/GenericSpecification.java:47-50 | `gte lo` and `lte hi` on an Integer column build the two bounds |
| GenericSpecification.BoundsSelect | backend/src/main/java/com/example/demo/specification/GenericSpecification.java:47-50 | those two filters select exactly the records whose column lies in [lo, hi] |
| GenericSpecification.BetweenBuilds | backend/src/main/java/com/example/demo/specification/GenericSpecification.java:55-60 | corrected, "lo,hi" on an Integer column builds the inclusive range; as written it fails |
| GenericSpecification.BuildBetween | backend/src/main/java/com/example/demo/specification/GenericSpecification.java:55-60 | two convertible tokens build the range on the resolved path |
| GenericSpecification.BuildList | backend/src/main/java/com/example/demo/specification/GenericSpecification.java:51-54 | a convertible list builds the membership predicate |
| GenericSpecification.AsWrittenConvertsWhole | backend/src/main/java/com/example/demo/specification/GenericSpecification.java:32 | as written, a value that does not convert whole fails whatever the operator |
| GenericSpecification.ParseListOf | backend/src/main/java/com/example/demo/specification/GenericSpecification.java:112-116 | tokens that each convert give exactly their values |
| GenericSpecification.ParseIntList | backend/src/main/java/com/example/demo/specification/GenericSpecification.java:112-116 | round trip: the comma-joined texts of in-range numbers parse to those numbers |
| GenericSpecification.InListBuilds | backend/src/main/java/com/example/demo/specification/GenericSpecification.java:51-54 | corrected, `in`/`not_in` of one or more comma-joined numbers builds the list; as written it fails once there are two or more |
| GenericSpecification.InListSelects | backend/src/main/java/com/example/demo/specification/GenericSpecification.java:51-52 | that `in` filter selects exactly the records whose column is one of the numbers |
| Binding.SetField | backend/src/main/java/com/example/demo/resolver/PageAndFilterResolver.java:167-206 | an effective call sets the named field to the converted value; any other call changes nothing |
| Binding.ConvertTo | backend/src/main/java/com/example/demo/resolver/PageAndFilterResolver.java:191-206 | a value already assignable to the field type is kept as it is; conversion fails only when the value is not assignable and the object mapper fails too |
| Binding.BoundRequest.constructor | backend/src/main/java/com/example/demo/resolver/PageAndFilterResolver.java:67-74 | a fresh object has no field set |
| Binding.BoundRequest.SetFieldIfExists | backend/src/main/java/com/example/demo/resolver/PageAndFilterResolver.java:167-189 | one call updates the fields as specified and only declared fields ever hold values |
| Binding.HasRequestBodyCases | backend/src/main/java/com/example/demo/resolver/PageAndFilterResolver.java:155-165 | a body is read for a positive length with a JSON or XML content type, and never without a length or content type |
| Binding.HasRequestBody | backend/src/main/java/com/example/demo/resolver/PageAndFilterResolver.java:155-165 | a body is never read without a positive content length and a content type |
| Binding.CopyProperties | backend/src/main/java/com/example/demo/resolver/PageAndFilterResolver.java:81-84 | exactly the declared properties of the body are copied, each with the body's value |
| Binding.BodyFields | backend/src/main/java/com/example/demo/resolver/PageAndFilterResolver.java:76-89 | nothing is set unless a body is announced (`hasRequestBody`) and parses; then exactly the declared properties of the body, with its values |
| Binding.PathVarWrites | backend/src/main/java/com/example/demo/resolver/PageAndFilterResolver.java:99-108 | one call per path variable, in order, with its text |
| Binding.QueryWrites | backend/src/main/java/com/example/demo/resolver/PageAndFilterResolver.java:110-128 | at most one call per query parameter |
| Binding.SetFieldsAppend | backend/src/main/java/com/example/demo/resolver/PageAndFilterResolver.java:49-65 | the calls apply in order: two runs compose |
| Binding.SetFieldsDeclared | backend/src/main/java/com/example/demo/resolver/PageAndFilterResolver.java:174-177 | only declared fields are ever set |
| Binding.SetFieldsUntouched | backend/src/main/java/com/example/demo/resolver/PageAndFilterResolver.java:167-189 | a field no effective call names keeps its value |
| Binding.LastWriteWins | backend/src/main/java/com/example/demo/resolver/PageAndFilterResolver.java:49-65 | a field ends with the value of the last effective call that names it |
| Binding.LateWritesShape | backend/src/main/java/com/example/demo/resolver/PageAndFilterResolver.java:130-153 | the pageable is written first and only once, the filters next when non-empty, the authentication last when authenticated |
| Binding.LateWins | backend/src/main/java/com/example/demo/resolver/PageAndFilterResolver.java:61-63 | the pageable, the filters and the authentication override any earlier value of their fields |
| Binding.PageableAlwaysBound | backend/src/main/java/com/example/demo/resolver/PageAndFilterResolver.java:130-137 | a declared pageable field always holds the pageable built from the query |
| Binding.FiltersBoundWhenPresent | backend/src/main/java/com/example/demo/resolver/PageAndFilterResolver.java:139-145 | a declared filters field holds the parsed filters when there are any |
| Binding.FiltersUntouchedWhenAbsent | backend/src/main/java/com/example/demo/resolver/PageAndFilterResolver.java:139-145 | without filters the filters field keeps what the earlier sources gave it |
| Binding.AuthenticationBoundLast | backend/src/main/java/com/example/demo/resolver/PageAndFilterResolver.java:147-153 | an authenticated request always sets a declared authentication field |
| Binding.QueryWritesAppend | backend/src/main/java/com/example/demo/resolver/PageAndFilterResolver.java:117-123 | query parameters are bound independently, in order |
| Binding.QueryWritesNames | backend/src/main/java/com/example/demo/resolver/PageAndFilterResolver.java:117-123 | query calls only name query parameters |
| Binding.QueryWritesAround | backend/src/main/java/com/example/demo/resolver/PageAndFilterResolver.java:117-123 | the call of one parameter sits between those of the parameters before and after it |
| Binding.QueryOverridesEarlierSources | backend/src/main/java/com/example/demo/resolver/PageAndFilterResolver.java:56-60 | a query parameter overrides the body, user and path variable of the same name |
| Binding.QueryWins | backend/src/main/java/com/example/demo/resolver/PageAndFilterResolver.java:110-128 | the query call for a uniquely named parameter wins over everything before it |
| Binding.Bound | backend/src/main/java/com/example/demo/resolver/PageAndFilterResolver.java:49-65 | the fields of the returned object: only declared fields ever hold values |
| Binding.BindRequestBody | backend/src/main/java/com/example/demo/resolver/PageAndFilterResolver.java:76-89 | the fresh object holds the body's declared fields, or nothing without a readable body |
| Binding.BindAuthenticatedUser | backend/src/main/java/com/example/demo/resolver/PageAndFilterResolver.java:91-97 | the user attribute, when present, is set on the `user` field |
| Binding.BindPathVariables | backend/src/main/java/com/example/demo/resolver/PageAndFilterResolver.java:99-108 | the path variables are set in order |
| Binding.BindQueryParameters | backend/src/main/java/com/example/demo/resolver/PageAndFilterResolver.java:110-128 | the loop sets each parameter's first value in order |
| Binding.BindPagination | backend/src/main/java/com/example/demo/resolver/PageAndFilterResolver.java:130-137 | the pageable field is set to the pageable of the query |
| Binding.BindFilters | backend/src/main/java/com/example/demo/resolver/PageAndFilterResolver.java:139-145 | the filters field is set only when there are filters |
| Binding.BindAuthentication | backend/src/main/java/com/example/demo/resolver/PageAndFilterResolver.java:147-153 | the authentication field is set only when authenticated |
| Binding.ResolveArgument | backend/src/main/java/com/example/demo/resolver/PageAndFilterResolver.java:49-65 | the returned object is fresh and holds exactly the specified bound fields |
| Binding.LateWritesApplied | backend/src/main/java/com/example/demo/resolver/PageAndFilterResolver.java:61-63 | the last three steps set pageable, then filters, then authentication |
| Binding.WritesApplied | backend/src/main/java/com/example/demo/resolver/PageAndFilterResolver.java:56-63 | the bind steps in order compose to the specified sequence of calls |
| Binding.Writes | backend/src/main/java/com/example/demo/resolver/PageAndFilterResolver.java:49-65 | the calls after the body always include binding the pageable built from the query |
| PageUtil.GetPageable | backend/src/main/java/com/example/demo/util/PageUtil.java:10-28 | a success has page >= 0, size >= 1 and one sort key with text; the failures are the null direction, the field check and the page and size checks |
| PageUtil.GetPageableCases | backend/src/main/java/com/example/demo/util/PageUtil.java:18-27 | success exactly when a direction is given, the chosen field has text, the page (0 when missing) >= 0 and the size (5 when missing) >= 1; it then keeps them unchanged with one key, ascending exactly for "asc" ignoring case |
| PageUtil.GetPageableNoClamping | backend/src/main/java/com/example/demo/util/PageUtil.java:18-27 | page and size pass through unclamped |
| PageUtil.OppositeDirectionFallback | backend/src/main/java/com/example/demo/util/PageUtil.java:23-25 | an unknown direction sorts ascending in the binder and descending here |
| PageUtil.OtherDirectionDesc | backend/src/main/java/com/example/demo/util/PageUtil.java:21-25 | any given direction other than "asc" sorts descending |
| PageUtil.GetPageableDefaults | backend/src/main/java/com/example/demo/util/PageUtil.java:18-21 | with nothing passed, page 0 of size 5 on the default field and direction |
| FileService.GetFileExtension | backend/src/main/java/com/example/demo/service/FileService.java:54-65 | the extension is a dot-free lower-case suffix of the name, shorter than the name |
| FileService.LowerKeepsDots | backend/src/main/java/com/example/demo/service/FileService.java:63 | lower-casing neither adds nor removes dots |
| FileService.ExtensionEmptyIff | backend/src/main/java/com/example/demo/service/FileService.java:54-62 | no extension exactly for a null or empty name, a name without a dot, or a name ending in a dot |
| FileService.ExtensionOfName | backend/src/main/java/com/example/demo/service/FileService.java:59-63 | round trip: `base.ext` with a dot-free non-empty `ext` has extension `ext` lower-cased |
| FileService.StoredPath | backend/src/main/java/com/example/demo/service/FileService.java:30-41 | the file is stored inside the user's upload folder |
| FileService.SaveFile | backend/src/main/java/com/example/demo/service/FileService.java:24-52 | a path is returned exactly when the folder exists or is created and the write succeeds, and it is the stored path |
| FileService.StoredPathKeepsExtension | backend/src/main/java/com/example/demo/service/FileService.java:40-41 | the stored file keeps the uploaded file's extension |
| ChatModel.ChatName | backend/src/main/java/com/example/demo/model/Chat.java:39-41 | the name is one of the two participants' |
| ChatModel.ChatNameIsOtherParty | backend/src/main/java/com/example/demo/model/Chat.java:39-41 | each participant sees the other one's name |
| ChatModel.UnreadOf | backend/src/main/java/com/example/demo/model/Chat.java:44-49 | the unread messages are a selection of the messages |
| ChatModel.UnreadCount | backend/src/main/java/com/example/demo/model/Chat.java:44-49 | a count exists exactly when the messages are loaded, and is at most their number |
| ChatModel.UnreadOfExactly | backend/src/main/java/com/example/demo/model/Chat.java:45-47 | a message is counted exactly when it is addressed to the user and still SENT |
| ChatModel.UnreadOfAppend | backend/src/main/java/com/example/demo/model/Chat.java:44-49 | counting distributes over concatenation |
| ChatModel.UnreadCountOfNewMessage | backend/src/main/java/com/example/demo/model/Chat.java:44-49 | a new message adds one exactly when it is unread for the user |
| ChatModel.LastMessage | backend/src/main/java/com/example/demo/model/Chat.java:52-60 | null without messages; "Attachment" when the first message is not text; its content otherwise |
| ChatModel.LastMessageTime | backend/src/main/java/com/example/demo/model/Chat.java:63-68 | null exactly without messages |
| ChatModel.LastIsNewest | backend/src/main/java/com/example/demo/model/Chat.java:33-36 | with messages loaded newest first, the time is the newest and the text is that message's |
| UserMapper.RoleValueOf | backend/src/main/java/com/example/demo/mapper/UserMapper.java:43 | `Role.valueOf` accepts exactly the three names and fails with the enum's message otherwise |
| UserMapper.RoleValueOfName | backend/src/main/java/com/example/demo/mapper/UserMapper.java:43 | round trip: every role's name parses back to it |
| UserMapper.RolesOfExactly | backend/src/main/java/com/example/demo/mapper/UserMapper.java:44-51 | a collection gives a role set exactly when every element is a role name, and the set holds exactly the named roles |
| UserMapper.RolesOfFails | backend/src/main/java/com/example/demo/mapper/UserMapper.java:48-50 | the first unknown element fails the collection with its message |
| UserMapper.FromClaims | backend/src/main/java/com/example/demo/mapper/UserMapper.java:17-61 | a mapped user was last seen now and has a canonical lower-case id when it has one |
| UserMapper.FromClaimsIdentity | backend/src/main/java/com/example/demo/mapper/UserMapper.java:20-23 | "sub" sets both ids, the UUID and the text; a non-UUID "sub" fails; without "sub" neither id is set |
| UserMapper.FromClaimsNames | backend/src/main/java/com/example/demo/mapper/UserMapper.java:25-37 | first name from "given_name", else "nickname"; last name and email exactly when their claims are present |
| UserMapper.FromClaimsRoles | backend/src/main/java/com/example/demo/mapper/UserMapper.java:40-55 | roles default to USER, come from a single name or from every element of a collection, and are left unset for any other claim type |
| UserMapper.NamesOfRoundTrip | backend/src/main/java/com/example/demo/mapper/UserMapper.java:44-51 | round trip: the names of a list of roles parse back to the set of those roles |
| UserMapper.RoleNamesRoundTrip | backend/src/main/java/com/example/demo/mapper/UserMapper.java:44-51 | round trip: the names of a role set parse back to that set |
| UserMapper.ClaimsRoundTrip | backend/src/main/java/com/example/demo/mapper/UserMapper.java:17-61 | round trip: claims written for a user map back to that user |
| UserMapper.User.constructor | backend/src/main/java/com/example/demo/mapper/UserMapper.java:18 | a new user has no field set |
| UserMapper.FromTokenAttributes | backend/src/main/java/com/example/demo/mapper/UserMapper.java:17-61 | the method fills a fresh user exactly as specified, or fails with the specified error |
| UserMapper.ReadRoles | backend/src/main/java/com/example/demo/mapper/UserMapper.java:40-55 | the loop reads exactly the specified roles |
| UserMapper.ToUserResponse | backend/src/main/java/com/example/demo/mapper/UserMapper.java:63-73 | the response copies the user's fields and is online exactly when last seen less than five minutes ago |
| UserMapper.IsUserOnline | backend/src/main/java/com/example/demo/model/User.java:62-64 | a user is online exactly when last seen less than five minutes ago, and never without a last-seen time |
| UserMapper.MappedUserIsOnline | backend/src/main/java/com/example/demo/model/User.java:62-64 | a user just mapped is online now and no longer online five minutes later |

## Left out

- Binding.ResolveArgument: binds the corrected pageable and filters, so for `sortBy` made of a whitespace char that `trim` keeps (U+2003) it binds the `id` sort where the running code throws, and the `in`/`not_in`/`between` filters it binds on an Integer column are those the running code rejects when the predicate is built (both Findings).
- Pagination.CreatePageable: is proved equal to the corrected `PageableOf`; on a sort field that `trim` keeps but that has no text it returns the `id` sort, where the running code throws from `Sort.Order` (second Finding).
- GenericSpecification.WithFilters: builds with the corrected `BuildPredicate`; where the code as written fails (first Finding) it succeeds.
- Case folding and digit classes are ASCII only: `toLowerCase`, `toUpperCase` and `equalsIgnoreCase` map only `A`-`Z`/`a`-`z`, and the Unicode digits `Integer.parseInt` also accepts are not modelled.
- JavaStrings.ParseUuid: accepts only the canonical 8-4-4-4-12 hexadecimal form, while `UUID.fromString` also takes shorter groups, signed groups and (on texts of at most 36 chars) over-long groups it masks; the model is stricter than Java there. The mapper's failure message is always "Invalid UUID string: " and the text, while Java 17 and later throw "UUID string too large" for a text longer than 36 chars and a `NumberFormatException` message for bad hex digits; no caller reads that message.
- `like`/`not_like` are modelled as case-insensitive containment of the lower-cased value in the lower-cased column text, which is what the `%value%` pattern means when the value holds no `%` or `_`; those wildcards inside a value are not modelled.
- Double columns (`convertValueToFieldType`'s `Double.class` branch) are left out, because floating point is not modelled: a column of a type other than String, Integer, Long, Boolean and UUID keeps the raw text as its value.
- File I/O: whether the upload folder exists, whether it could be created, whether the write succeeded and the random UUID of the stored name are parameters of `FileService.SaveFile`.
- Logging (`log.warn`, `log.debug`, `log.error`) has no effect on results and is left out.
- The resolver's per-class field cache only saves reflection work and is left out; the declared fields of the request class are a map from field name to field type.
- Jackson (`readValue` of the body and `convertValue` of a value to a field type) is a `coerce` parameter; a body that cannot be read is an absent body.
- `BeanUtils.copyProperties` is modelled as copying every property of the parsed body that the request class declares onto the fresh object; property-type mismatches inside the copy are not modelled.
- Failure of the request class's no-argument constructor (the resolver's `IllegalArgumentException` "Unable to instantiate request object of type: …") is left out: the model always instantiates.
- Chat message types other than TEXT and states other than SENT are only told apart from TEXT and SENT, which is all the getters look at.
- Claim values are text, a collection of texts or another type; a null claim value is not modelled.
- `LocalDateTime` is integer seconds, and the clock (`now`) is a parameter of the mapper and of the online check.
- The JPA query itself is not run: a predicate is a meaning over records of the schema, and the NULL propagation of an implicit join through a missing related entity is left out.
- Null keys and null values inside the query parameter map are not modelled; a parameter always has a name and a list of texts.
- `supportsParameter` (the annotation test that routes a controller argument to the resolver) is left out; only resolution is modelled.
- The HTTP controllers, repositories, WebSocket handlers and security configuration that call this core are not part of this model.

## Findings

| source | as written | input that shows it | evidently intended | confidence | as-written member | corrected member |
|---|---|---|---|---|---|---|
| backend/src/main/java/com/example/demo/specification/GenericSpecification.java:32 | the whole filter value is converted to the column type before the operator is looked at | `filter.age:between=18,65`, `filter.age:in=1,2` or `filter.age:is_null=x` on an Integer column: "18,65" does not parse as an Integer, so the request fails | `in`, `not_in` and `between` convert each comma-separated token; `is_null` and `is_not_null` ignore the value | not executed | GenericSpecification.BetweenBuilds | GenericSpecification.BuildPredicate |
| backend/src/main/java/com/example/demo/resolver/PageAndFilterResolver.java:255-257 | a sort field is kept when its trimmed text is not empty, and `new Sort.Order` is then made with it | `sortBy` = " " (EM SPACE): `trim` keeps it, it is not empty, and `Sort.Order` throws "Property must not be null or empty" | skip a field without text and fall back to sorting by `id` | not executed | Pagination.SortAsWrittenRejectsWideSpace | Pagination.CreateSort |
