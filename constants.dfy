/** The binder's fixed parameter names, defaults and delimiters. */
module CommonConstant {
  const DefaultPage: int := 0
  const DefaultSize: int := 20
  const MaxSize: int := 1000
  const DefaultOperator: string := "eq"
  const DefaultSortDirection: string := "asc"
  const DefaultSortField: string := "id"
  /** The regex `\\.` of the source: a literal dot. */
  const FieldDelimiter: char := '.'
  const FilterPrefix: string := "filter."
  const OperatorDelimiter: char := ':'
  const ParamDir: string := "dir"
  const ParamFilters: string := "filters"
  const ParamPage: string := "page"
  const ParamPageable: string := "pageable"
  const ParamSize: string := "size"
  const ParamSortBy: string := "sortBy"
  const SortDelimiter: char := ','
  const AuthenticatedUser: string := "AUTHENTICATED_USER"
}
