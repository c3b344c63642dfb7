# Application table view pipeline, in Dafny

This project models the client-side view pipeline of `TableComponent`, the
React component that shows student application records as a searchable,
sortable, paginated table. It covers:

- **Loading.** One request runs on mount and its outcome is an input here. Success stores the array in both
  `applicationData` and `filterData`. Failure stores the fixed message
  "Failed to fetch data from api". Either way `loading` ends.
- **Search.** The query is lowercased. A record is kept when `applicantName`, `status_En`,
  `status_Ar` or `studentID` is defined and its lowercase includes the
  query. Kept records stay in their original order, and the page goes back to 1.
- **Sort.** A header click picks the next direction. It sorts a copy of the displayed
  list with the three-way `<`/`>` comparator and stores `{key, direction}`.
  The raw list is not touched. A later search re-filters the raw list, so the sorted
  order is lost, but the sort state and its arrows stay.
- **Pagination.** Each page is a `slice` of ten records. `totalPages = ceil(len/10)`, and the
  buttons are numbered 1..totalPages. The page number is never clamped, but only those buttons set it, so the page stays 1 or a listed page.
- **Rendering.** The screen shows loading, the error, or the table. The "No data available"
  row shows when the page slice is empty. All three sortable headers show
  the arrow of `applicationNO`, because the component calls `getArrow("applicationNO")` for each.

Modules:

- `Wrappers`: `Option`.
- `Records`: the record and its eight properties.
- `Text`: `toLowerCase`, `includes` and string `<`.
- `Search`: the filter.
- `Sorting`: the direction toggle, the comparator, the sort of a copy, and `getArrow`.
- `Pagination`: `slice`, the page count and the page buttons.
- `TableComponentModel`: the `TableComponent` class. Its fields are the component's state. It has one method
  per event or effect, plus `Render`.

React runs effects by itself. Here each effect is an explicit method, and the caller runs it after the
state it depends on changes. The `Mount…` and `SortTwiceThenSearch` methods
show the order React uses.

Three behaviours of the code are easy to miss:

- An empty query does not keep every record. `includes("")` is only reached through `?.`, so
  a record with none of the four searched properties is dropped.
- The page slice itself does no range check. Page 0 and pages past the last one would give
  an empty slice, and a negative page would count back from the end, as `slice`
  does. No button produces such a page, and sorting keeps the list's length, so the
  current page stays in range.
- After a successful load, `filterData` first equals the fetched array. The search effect then
  re-runs, because `applicationData` changed, and drops unsearchable records.

## Model

| member | source | states |
|---|---|---|
| Records.Get | table-app/src/components/TableComponent.jsx:41-62 | `item[key]` is the value of the JSON property whose name the key stands for ("applicantName", "status_En", ...) |
| Text.Lower | table-app/src/components/TableComponent.jsx:38-41 | lowercasing keeps the length, turns each capital A-Z into its small letter, and changes no other character |
| Text.LowerIdempotent | table-app/src/components/TableComponent.jsx:38-41 | lowercasing an already lowercased string changes nothing |
| Text.Includes | table-app/src/components/TableComponent.jsx:41 | `includes` holds exactly when the pattern occurs at some index of the string |
| Text.IncludesEmpty | table-app/src/components/TableComponent.jsx:41 | every string includes the empty string |
| Text.LessStrIsLexBefore | table-app/src/components/TableComponent.jsx:62-63 | whenever `a < b`, `a` is a proper prefix of `b` or has the smaller character at the first difference |
| Text.LexBeforeIsLessStr | table-app/src/components/TableComponent.jsx:62-63 | a proper prefix, or a smaller character at the first difference, makes `a < b` |
| Text.LessStrLexicographic | table-app/src/components/TableComponent.jsx:62-63 | string `<` is lexicographic order: `a` is a proper prefix of `b`, or `a` has the smaller character at the first index where they differ |
| Text.LessStrIrreflexive | table-app/src/components/TableComponent.jsx:62-63 | no string is `<` itself |
| Text.LessStrAsymmetric | table-app/src/components/TableComponent.jsx:62-63 | `a < b` and `b < a` never both hold |
| Text.LessStrTransitive | table-app/src/components/TableComponent.jsx:62-63 | string `<` is transitive |
| Text.LessStrTotal | table-app/src/components/TableComponent.jsx:62-63 | two strings are equal or ordered one way round |
| Search.FieldIncludes | table-app/src/components/TableComponent.jsx:41 | `item[key]?.toLowerCase().includes(q)` holds exactly when the property is defined and the query occurs somewhere in its lowercase |
| Search.SomeFieldIncludes | table-app/src/components/TableComponent.jsx:40-42 | `.some` over the keys holds exactly when one key's property is defined and includes the query |
| Search.Matches | table-app/src/components/TableComponent.jsx:38-43 | a record matches exactly when one of the four searched properties is defined and its lowercase includes the lowercased query |
| Search.Filter | table-app/src/components/TableComponent.jsx:39-43 | the filtered list is no longer than the raw one, and it holds exactly the raw records that match |
| Search.QueryCaseInsensitive | table-app/src/components/TableComponent.jsx:38-41 | two queries that differ only in letter case, such as "ALI" and "aLi", select the same records |
| Search.EmptyQueryMatches | table-app/src/components/TableComponent.jsx:40-41 | with an empty query a record matches exactly when one of the four searched properties is defined |
| Search.FilterAppend | table-app/src/components/TableComponent.jsx:39-43 | filtering a concatenation gives the two filtered parts in order, so relative order is kept |
| Search.FilterCounts | table-app/src/components/TableComponent.jsx:39-43 | a matching record appears as often as in the raw list, and a non-matching one never does |
| Search.FilterEmptyQueryKeepsAll | table-app/src/components/TableComponent.jsx:39-43 | with an empty query, a list whose records all carry a searched property is returned unchanged |
| Search.AliScenario | table-app/src/components/TableComponent.jsx:38-43 | query "ali" matches applicant "Ali Hassan" and not applicant "Omar" |
| Sorting.NextDirection | table-app/src/components/TableComponent.jsx:60 | the new direction is descending exactly when the clicked key is the current key and the current direction is ascending |
| Sorting.ClickSort | table-app/src/components/TableComponent.jsx:60-67 | after a click the sort state holds the clicked key and the new direction |
| Sorting.RepeatedClickFlips | table-app/src/components/TableComponent.jsx:60-67 | clicking the same header again flips the direction |
| Sorting.TwoMoreClicksRestore | table-app/src/components/TableComponent.jsx:60-67 | clicking the same header twice more returns to the same sort state |
| Sorting.OtherKeyStartsAscending | table-app/src/components/TableComponent.jsx:60 | a header other than the current key always sorts ascending first |
| Sorting.KeyLessStrictOrder | table-app/src/components/TableComponent.jsx:62 | `a[key] < b[key]` never holds when either side is undefined, is irreflexive and transitive, and orders any two records that both carry the key unless their values are equal |
| Sorting.Compare | table-app/src/components/TableComponent.jsx:61-65 | the comparator is -1, 1 or 0 as `a` must come first, `b` must come first, or neither key is `<` the other; undefined keys compare level |
| Sorting.CompareSelf | table-app/src/components/TableComponent.jsx:62-64 | a record compares level with itself |
| Sorting.CompareDescReverses | table-app/src/components/TableComponent.jsx:62-63 | the descending comparator is the ascending one negated |
| Sorting.CompareAntisymmetric | table-app/src/components/TableComponent.jsx:62-64 | swapping the two records negates the comparator |
| Sorting.CompareTransitive | table-app/src/components/TableComponent.jsx:62-63 | "must come before" is transitive |
| Sorting.CompareTotalOnDefined | table-app/src/components/TableComponent.jsx:62-64 | when both records carry the key, they compare level only when their values are equal |
| Sorting.OrderedMeaning | table-app/src/components/TableComponent.jsx:61-65 | a list sorted ascending has no later value `<` an earlier one; a list sorted descending has no earlier value `<` a later one |
| Sorting.MinimalFrom | table-app/src/components/TableComponent.jsx:61-65 | finds a record in the unsorted part that no record there must precede |
| Sorting.SortedCopy | table-app/src/components/TableComponent.jsx:61-65 | the sorted copy is a permutation of the list, and every pair is in comparator order |
| Sorting.GetArrow | table-app/src/components/TableComponent.jsx:71-76 | up arrow exactly when the column is the sort key and the direction is ascending; down arrow when it is the key and descending; the neutral glyph otherwise |
| Sorting.ArrowAfterClick | table-app/src/components/TableComponent.jsx:67-76 | after a click only the clicked key's column would show a direction arrow, and it shows the new direction |
| Pagination.SliceIndex | table-app/src/components/TableComponent.jsx:49-52 | a `slice` index lands inside the list, and an in-range index is kept as it is |
| Pagination.Slice | table-app/src/components/TableComponent.jsx:49-52 | a slice is never longer than the list |
| Pagination.PageSlice | table-app/src/components/TableComponent.jsx:49-52 | a page holds at most ten records, whatever the page number |
| Pagination.TotalPages | table-app/src/components/TableComponent.jsx:55 | the page count is the ceiling of length/10: ten times it covers the list, with fewer than ten slots to spare |
| Pagination.PageButtons | table-app/src/components/TableComponent.jsx:131 | the buttons are exactly the numbers 1..totalPages, in increasing order |
| Pagination.PageSliceInRange | table-app/src/components/TableComponent.jsx:49-52 | page p ≥ 1 holds records `[(p-1)*10, min(p*10, len))`, and it is empty exactly when p is past the last page |
| Pagination.PageZeroEmpty | table-app/src/components/TableComponent.jsx:49-52 | page 0 is empty |
| Pagination.NegativePageFromEnd | table-app/src/components/TableComponent.jsx:49-52 | a negative page counts back from the end of the list, as `slice` does |
| Pagination.PagesUpToPrefix | table-app/src/components/TableComponent.jsx:49-55 | pages 1..n laid end to end are the first `min(10n, len)` records |
| Pagination.AllPagesReassemble | table-app/src/components/TableComponent.jsx:49-55 | pages 1..totalPages laid end to end reproduce the list, each record once and in order |
| Pagination.ButtonPagesNonEmpty | table-app/src/components/TableComponent.jsx:131 | every page that has a button shows at least one record |
| Pagination.TwentyFiveRecords | table-app/src/components/TableComponent.jsx:49-55 | 25 records make 3 pages: page 1 is records 0-9 and page 3 is records 20-24 |
| TableComponentModel.SortableHeaders | table-app/src/components/TableComponent.jsx:95-97 | three headers, sorting by applicationNO, applicantName and applicationDate, all showing the applicationNO arrow |
| TableComponentModel.HeaderArrowsFollowApplicationNO | table-app/src/components/TableComponent.jsx:95-97 | after sorting by name or date no header shows a direction; after sorting by number all three do |
| TableComponentModel.ErrorTruthiness | table-app/src/components/TableComponent.jsx:79 | `if (error)` fires for the failure message and not for the initial `null` |
| TableComponentModel.RenderScreen | table-app/src/components/TableComponent.jsx:78-141 | loading screen exactly while loading, then the error when it is truthy, otherwise the table with the sortable headers, the page's slice (at most ten rows, taken from the list), the "No data available" row exactly when the slice is empty (for page ≥ 1: past the last page), and the buttons 1..totalPages in order |
| TableComponentModel.TableComponent.Render | table-app/src/components/TableComponent.jsx:78-141 | in a reachable state, only the loading line while loading, only the fixed message after a failure, and otherwise the table with the current page of the displayed list |
| TableComponentModel.TableComponent.constructor | table-app/src/components/TableComponent.jsx:5-18 | starts loading, with no error, empty lists, page 1, empty query and sort `{null, asc}`; every method keeps the page at 1 or a listed page |
| TableComponentModel.TableComponent.CompleteFetch | table-app/src/components/TableComponent.jsx:22-31 | loading ends. On success both lists are the fetched array and there is no error. On failure the error is the fixed message and both lists stay empty |
| TableComponentModel.TableComponent.SearchEffect | table-app/src/components/TableComponent.jsx:37-46 | the displayed list becomes the filter of the raw list by the query, the page becomes 1, and the rest of the state is unchanged |
| TableComponentModel.TableComponent.ChangeQuery | table-app/src/components/TableComponent.jsx:37-46 | a new query re-filters from the raw list, discarding any sort order, and goes to page 1; the sort state is kept; the same query changes nothing |
| TableComponentModel.TableComponent.ChangePage | table-app/src/components/TableComponent.jsx:56 | the current page becomes the clicked button's number, one of 1..totalPages, and the state stays reachable |
| TableComponentModel.NoDataRowOnlyWhenEmpty | table-app/src/components/TableComponent.jsx:106-122 | in every reachable state that shows the table, the "No data available" row shows exactly when the displayed list is empty |
| TableComponentModel.TableComponent.ClickHeader | table-app/src/components/TableComponent.jsx:59-68 | the sort state becomes the clicked key and the next direction. The displayed list becomes a permutation of itself, in comparator order. It still holds exactly the records the query selects. The raw list, page and query are unchanged |
| TableComponentModel.MountWithFailure | table-app/src/components/TableComponent.jsx:21-34 | a failed request ends on the error screen with the fixed message and no rows |
| TableComponentModel.MountWithSuccess | table-app/src/components/TableComponent.jsx:21-46 | after a successful load and the effect it triggers, page 1 shows the first records that carry a searched property |
| TableComponentModel.SortTwiceThenSearch | table-app/src/components/TableComponent.jsx:37-68 | the second click on one header leaves the list in descending order, a permutation of the searchable records, and a later search re-filters from the raw list, losing that order while the sort state stays |

## Left out

- The HTTP GET and its URL are network I/O. The request's outcome is the `FetchOutcome` input. Network errors, non-2xx answers and bad bodies all become one failure, as in the code.
- React's scheduling of effects, batching and re-render timing are left out. Each effect is a method the caller invokes after the state it depends on has changed.
- A state update that arrives after the component is unmounted is left out. It is a lifecycle and asynchrony concern.
- JSX markup, CSS classes, inline styles and the `onChange`/`onClick` wiring are left out. `Screen` keeps only the data each render shows.
- table-app/src/App.js is not part of this model. It is a layout wrapper with no logic.
- Text.Lower: models `toLowerCase` on ASCII letters only; other characters are left as they are, unlike full Unicode case mapping.
- Text.LessStr: orders strings by Unicode scalar value, whereas JavaScript compares UTF-16 code units; the two differ only for characters outside the Basic Multilingual Plane.
- A successful response whose body is not an array is not modelled. The outcome is either an array of records or a failure.
- JSON `null` property values are not modelled; `Option.None` stands for an absent (`undefined`) property. The search would treat `null` like `undefined`, but `<` would not: `null < "5"` is true.
- Property values are `Option<string>`. A numeric or other non-string value, which would make `toLowerCase` throw or compare differently under `<`, is not modelled.
- Sorting.SortedCopy: states a permutation in comparator order, not the engine's exact placement. The engine's placement of records that compare level, and so its stability, is not modelled. When some records lack the key, the comparator is not a consistent order, and the engine's result is implementation-defined. The model returns one pairwise-ordered permutation.
