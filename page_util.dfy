/**
  * `PageUtil.getPageable`: the second pagination path, used by services that receive
  * page, size and sort arguments directly. Unlike the request binder it neither clamps
  * nor splits: a missing page is 0, a missing size is 5, a missing or empty sort field
  * or direction is replaced by the caller's default, and the one sort key is ascending
  * exactly when the direction is "asc" ignoring case.
  */
module PageUtil {
  import opened Wrappers
  import opened JavaStrings
  import opened Pagination

  /** The null dereference in `sortDirection.equalsIgnoreCase` when neither the
      direction nor its default is given. */
  const NoDirection: string := "sort direction is null"
  /** The IllegalArgumentException messages of `PageRequest.of`. */
  const NegativePage: string := "Page index must not be less than zero"
  const SmallSize: string := "Page size must not be less than one"

  const UnsetPage: int := 0
  const UnsetSize: int := 5

  /** A text argument, with a missing or empty value replaced by the default. */
  function OrDefault(s: Option<string>, def: Option<string>): Option<string>
  {
    if s.Some? && s.value != "" then s else def
  }

  /** `getPageable(page, size, sortBy, sortDir, defaultSortBy, defaultSortDir)`. The
      direction is read first (line 23), then `Sort.by` checks the field, then
      `PageRequest.of` checks the page and the size. */
  function GetPageable(page: Option<int>, size: Option<int>, sortBy: Option<string>, sortDir: Option<string>,
                       defaultSortBy: Option<string>, defaultSortDir: Option<string>): (r: Result<PageRequest>)
    ensures r.Ok? ==> r.value.page >= 0 && r.value.size >= 1 && |r.value.sort| == 1 && HasText(r.value.sort[0].property)
    ensures r.Err? ==> r.msg in {NoDirection, PropertyRequired, NegativePage, SmallSize}
  {
    var pageNumber := if page.Some? then page.value else UnsetPage;
    var pageSize := if size.Some? then size.value else UnsetSize;
    var sortField := OrDefault(sortBy, defaultSortBy);
    var sortDirection := OrDefault(sortDir, defaultSortDir);
    if sortDirection.None? then Err(NoDirection)
    else
      var direction := if EqualsIgnoreCase(sortDirection.value, "asc") then Asc else Desc;
      if sortField.None? || !HasText(sortField.value) then Err(PropertyRequired)
      else if pageNumber < 0 then Err(NegativePage)
      else if pageSize < 1 then Err(SmallSize)
      else Ok(PageRequest(pageNumber, pageSize, [Order(direction, sortField.value)]))
  }

  /** The call succeeds exactly when a direction is known, the chosen field has text, the
      page (0 when missing) is not negative and the size (5 when missing) is positive; it
      then carries that page and size unchanged (no clamping) and the one key on the
      chosen field, taken whole (no splitting on ","), ascending exactly when the chosen
      direction is "asc" ignoring case. */
  lemma GetPageableCases(page: Option<int>, size: Option<int>, sortBy: Option<string>, sortDir: Option<string>,
                         defaultSortBy: Option<string>, defaultSortDir: Option<string>)
    ensures var r := GetPageable(page, size, sortBy, sortDir, defaultSortBy, defaultSortDir);
      var p := if page.Some? then page.value else 0;
      var n := if size.Some? then size.value else 5;
      var field := if sortBy.Some? && sortBy.value != "" then sortBy else defaultSortBy;
      var dir := if sortDir.Some? && sortDir.value != "" then sortDir else defaultSortDir;
      && (r.Ok? <==> dir.Some? && field.Some? && HasText(field.value) && p >= 0 && n >= 1)
      && (r.Ok? ==> r.value.page == p && r.value.size == n
                    && r.value.sort == [Order(if EqualsIgnoreCase(dir.value, "asc") then Asc else Desc, field.value)])
  {
  }

  /** Page and size are passed through as given: a size of 5000, which the request binder
      would cap at 1000, stays 5000 here. */
  lemma GetPageableNoClamping(p: int, n: int, field: string, dir: string)
    requires p >= 0 && n >= 1 && HasText(field) && dir != ""
    ensures var r := GetPageable(Some(p), Some(n), Some(field), Some(dir), None, None);
      r.Ok? && r.value.page == p && r.value.size == n && r.value.sort[0].property == field
  {
    assert field != "";
  }

  /** The two pagination paths fall back in opposite directions: a direction text that is
      neither "asc" nor "desc" sorts ascending in the request binder and descending here. */
  lemma OppositeDirectionFallback(dir: string, field: string)
    requires !IsBlank(dir) && !EqualsIgnoreCase(dir, "asc") && !EqualsIgnoreCase(dir, "desc") && HasText(field)
    ensures DirectionOf(Some(dir)) == Asc
    ensures var r := GetPageable(None, None, Some(field), Some(dir), None, None);
      r.Ok? && r.value.sort == [Order(Desc, field)]
  {
    assert dir != "";
    OtherDirectionDesc(dir, field);
  }

  /** Any given direction other than "asc" (ignoring case) sorts descending here. */
  lemma OtherDirectionDesc(dir: string, field: string)
    requires dir != "" && !EqualsIgnoreCase(dir, "asc") && HasText(field)
    ensures var r := GetPageable(None, None, Some(field), Some(dir), None, None);
      r.Ok? && r.value.sort == [Order(Desc, field)]
  {
    assert field != "";
  }

  /** With the defaults in force (nothing passed), the result is page 0 of size 5 sorted on
      the default field, ascending exactly when the default direction is "asc". */
  lemma GetPageableDefaults(defaultSortBy: string, defaultSortDir: string)
    requires HasText(defaultSortBy)
    ensures GetPageable(None, None, None, None, Some(defaultSortBy), Some(defaultSortDir))
         == Ok(PageRequest(0, 5, [Order(if EqualsIgnoreCase(defaultSortDir, "asc") then Asc else Desc, defaultSortBy)]))
  {
  }
}
