# Knitto ToDo landing page — a Dafny model

The repository is a single Next.js page, `pages/index.js`, whose `Landing`
component shows a list of todos fetched from a public todo API. Around the
markup and the HTTP calls it holds a small logical core, and this project
models that core and proves what it does:

- **Search filter**: keep the todos whose lower-cased title includes the
  lower-cased search term, in their original order (module `Todos`).
- **Pagination window**: page `currentPage` of size `todosPerPage` is
  `filtered.slice(currentPage*todosPerPage - todosPerPage, currentPage*todosPerPage)`,
  and the table's total is `filtered.length` (module `Pagination`, with the
  exact clamping rules of `Array.prototype.slice`).
- **CSV export**: every todo is projected to `{id, title, completed}`. The
  text is the header from the first record's keys, then one comma-joined line
  per record, all joined by `"\n"`, with no quoting (module `CsvExport`). A
  reader `ParseCsv` is the inverse it is proved against.
- **Page state**: the modal flag, the form draft, the page number, the page
  size and the search term are the fields of class `Landing.LandingPage`. Its
  methods are the event handlers. The outcome of the POST request is a
  parameter of the submit handler (module `Landing`).

The JavaScript string operations the core uses are in module `Strings`:
ASCII `toLowerCase`, `includes`, `join`, `split`, and the rendering of numbers
and booleans. `split` and the number and boolean readers do not appear in the
page. They serve as the partners against which `join` and the export are proved.

The page behaves as follows, which may be unexpected:

- The export serialises the full `todos` list, not the filtered list
  (pages/index.js:92).
- Closing or cancelling the modal hides it and keeps the draft
  (pages/index.js:40-42). `CancelScenario` shows this.
- A failed submit neither hides the modal nor clears the draft
  (pages/index.js:78-81). Only the success path does both (pages/index.js:70-77).
- A page-size change takes the page number the table passes. Nothing checks
  that number against the number of pages (pages/index.js:107-110). A page
  past the last one shows no rows (`Pagination.PageWindow`).

## Model

| member | source | states |
|---|---|---|
| Strings.Lower | pages/index.js:113 | ASCII `toLowerCase` of one character: upper-case letters move to the lower-case range, everything else is kept, and the result is never upper case |
| Strings.LowerStr | pages/index.js:113 | `toLowerCase` of a string keeps its length and folds each position independently |
| Strings.LowerStrIdempotent | pages/index.js:113 | lower-casing an already lower-cased string changes nothing |
| Strings.IncludesIff | pages/index.js:113 | `Strings.Includes`, the position-by-position `includes`, holds exactly when some window of the title equals the term |
| Strings.IncludesEmpty | pages/index.js:113 | every string includes the empty term |
| Strings.Split | pages/index.js:97-100 | the reader partner of `join`: at least one piece, no piece holds the separator, and joining the pieces gives the text back |
| Strings.SplitJoin | pages/index.js:97-100 | `Strings.Join`, the `join` of lines 98-100, is undone by `split` for a non-empty list of parts none of which holds the separator |
| Strings.SplitJoinIff | pages/index.js:97-100 | for a non-empty list of parts, `split` after `join` returns the parts if and only if no part holds the separator |
| Strings.SplitCount | pages/index.js:97-100 | `split` yields exactly one piece more than the text has separators |
| Strings.JoinThree | pages/index.js:99 | a three-field record is joined as field, separator, field, separator, field |
| Strings.NatToString | pages/index.js:99 | the decimal rendering of an id is a non-empty run of digits with no leading zero |
| Strings.ParseIntRoundTrip | pages/index.js:99 | `Strings.IntToString`, the rendering of an id by `join`, reads back to the id, negative ids included |
| Strings.ParseBoolRoundTrip | pages/index.js:99 | `Strings.BoolToString`, the rendering of the `completed` flag by `join`, reads back to the flag |
| Strings.IntToStringHasNoSeparator | pages/index.js:99 | a rendered id never holds a comma or a newline |
| Todos.Filter | pages/index.js:112-114 | the filtered list is no longer than `todos`, and each of its elements is a todo of the list that matches the term |
| Todos.MatchesIff | pages/index.js:113 | `Todos.Matches`, the filter's callback, holds exactly when the lower-cased term occurs somewhere in the lower-cased title; lower-casing the title or the term first does not change it |
| Todos.FilterMembership | pages/index.js:112-114 | a todo is in the filtered list if and only if it is in `todos` and its lower-cased title includes the lower-cased term |
| Todos.FilterAppend | pages/index.js:112-114 | filtering preserves order: the filter of a concatenation is the concatenation of the filters |
| Todos.MatchIndices | pages/index.js:112-114 | the matching positions increase strictly, stay in range, and a position is listed exactly when the todo there matches |
| Todos.FilterIsSubsequence | pages/index.js:112-114 | the filtered list is the subsequence of `todos` at exactly the matching positions, in their original relative order |
| Todos.FilterEmptyTerm | pages/index.js:112-114 | an empty search term leaves the collection unchanged |
| Todos.FilterCaseInsensitive | pages/index.js:113 | lower-casing the search term first gives the same result, so the search ignores the term's case |
| Pagination.PageWindow | pages/index.js:116-118 | `Pagination.PageRows`: for page and size of at least 1, the page is `filtered[(p-1)*n .. min(p*n, total))`, has at most `n` rows, and is empty when it starts past the last row |
| Pagination.PagesArePrefix | pages/index.js:116-118 | pages 1 to k laid end to end are exactly the first min(k*n, total) filtered rows |
| Pagination.PageCountTight | pages/index.js:120 | `Pagination.PageCount`: ceil(total / n) pages hold every row, and the last of them is not empty |
| Pagination.Slice | pages/index.js:118 | `slice` returns no more elements than the list has, and only elements of the list |
| Pagination.SliceWindow | pages/index.js:118 | `Pagination.Clamp` and `Pagination.Slice`: with bounds 0 <= begin <= end, `slice` is the window `[begin, min(end, length))`, and empty when begin is at or past the end |
| Pagination.SliceFromEnd | pages/index.js:118 | a negative begin counts back from the end: `slice(-k, length)` is the last k elements |
| Pagination.PagesReassemble | pages/index.js:116-120 | concatenating pages 1 to ceil(totalTodos / n) rebuilds the filtered list exactly |
| CsvExport.CsvStartsWithHeader | pages/index.js:98 | `CsvExport.Header`, the keys of the first projected record: the export starts with `id,title,completed` and a newline, whatever the records |
| CsvExport.LinesAppend | pages/index.js:99 | `CsvExport.Lines`: one line per todo in the collection's order, so the lines of two lists laid end to end are the lines of the first, then those of the second |
| CsvExport.LineHasNoNewline | pages/index.js:99 | a record's line holds a newline only if its title does |
| CsvExport.CsvLines | pages/index.js:92-100 | `CsvExport.Csv`: when no title holds a newline, the export splits into the header and then exactly one line per todo of `todos`, in order |
| CsvExport.LineFields | pages/index.js:99 | `CsvExport.Fields` and `CsvExport.Line`: when the title holds no comma, a line splits back into the rendered id, the title and the rendered flag |
| CsvExport.ParseLineRoundTrip | pages/index.js:99 | when the title holds no comma, a line reads back into its todo |
| CsvExport.ParseLinesRoundTrip | pages/index.js:99 | when no title holds a comma or newline, the lines read back into the todos in order |
| CsvExport.CsvRoundTrip | pages/index.js:92-100 | when no title holds a comma or a newline, reading the export back recovers every todo's id, title and completed flag, in order |
| CsvExport.CommaInTitleBreaksLine | pages/index.js:99 | fields are not quoted: for any todo whose title holds a comma, its line splits into at least four pieces and does not read back |
| CsvExport.LineCommaCount | pages/index.js:99 | a line holds the commas of its title plus the two separating commas |
| CsvExport.ParseLinesFails | pages/index.js:99 | one line that does not read back makes the whole list of lines fail to read back |
| CsvExport.CommaInTitleBreaksRoundTrip | pages/index.js:97-100 | when no title holds a newline and some title holds a comma, the export of the collection does not read back |
| Landing.ViewOf | pages/index.js:112-120 | every row shown is a todo of the collection that matches the search term, a page shows at most the page size, and the total never exceeds the collection |
| Landing.ViewEmptySearch | pages/index.js:112-120 | with an empty search term the total is the whole collection, and page p is the window `[(p-1)*n, min(p*n, total))` of the collection |
| Landing.RequestBodyShape | pages/index.js:61-64 | `Landing.RequestBody`: a draft with title and completed entries sends exactly those two; the initial draft sends itself; any other entry of the draft never reaches the request |
| Landing.LandingPage.constructor | pages/index.js:34-38 | the initial state: modal hidden, empty draft, page 1, 10 rows per page, empty search term |
| Landing.LandingPage.HandleCloseModal | pages/index.js:40-42 | hides the modal and keeps the draft |
| Landing.LandingPage.HandleShowModal | pages/index.js:44-46 | shows the modal and keeps the draft |
| Landing.LandingPage.HandleFormChange | pages/index.js:48-55 | `Landing.NewValue`: writes `checked` for a checkbox and `value` otherwise, under the input's name, keeps every other entry, and changes no other state |
| Landing.LandingPage.HandleSubmitForm | pages/index.js:57-82 | called only with a non-empty title, as the `required` title input (line 221) ensures. It sends the draft's title and completed entries. Success hides the modal and resets the draft to an empty title and false. Failure leaves both unchanged |
| Landing.LandingPage.HandlePageChange | pages/index.js:105 | sets the page number, unchecked, and nothing else |
| Landing.LandingPage.HandlePerPageChange | pages/index.js:107-110 | sets the page size and the page number, unchecked, and nothing else |
| Landing.LandingPage.HandleSearchChange | pages/index.js:193 | sets the search term to the text of the search box and nothing else |
| Landing.LandingPage.Rendered | pages/index.js:112-120 | the view rendered from the current state shows only matching todos of the collection, never counts more matches than todos, and counts every todo while the search term is empty |
| Landing.LandingPage.HandleExportToExcel | pages/index.js:89-103 | the download is the CSV of the whole collection whatever the search term and page, and it reads back into that collection when titles are plain |
| Landing.SubmitScenario | pages/index.js:40-82 | typing a non-empty title and submitting sends that title with `completed` false. The draft is then cleared on success and kept on failure |
| Landing.CancelScenario | pages/index.js:40-55 | cancelling after typing hides the modal and keeps the typed title in the draft |

## Left out

- The JSX markup, the Next.js `Image`, the CSS module and the Bootstrap `Modal`/`Form` markup (pages/index.js:121-268) are presentation only. From them the model keeps only the search box's `onChange` (pages/index.js:193) and the wiring of the handlers.
- The `react-data-table-component` columns and column sorting (pages/index.js:9-31, 252-263) are left out. Sorting happens inside a library whose code is not part of this model.
- The server-side GET in `getServerSideProps` (pages/index.js:272-280) is network I/O. The fetched list is the constructor's parameter.
- The POST `fetch` and `response.json()` (pages/index.js:59-69) are network I/O. Their combined outcome is the `succeeded` parameter of `HandleSubmitForm`, and the request is its returned body.
- `alert`, `console.error`, `Blob` and `saveAs`, with the file name and MIME type (pages/index.js:71, 79-80, 90-91, 101-102), are browser side effects. The export is modelled as the CSV string.
- The `loading` flag (pages/index.js:84) is never set to true, so it is left out.
- Landing.LandingPage.HandleSubmitForm: the request's continuation (pages/index.js:70-81) is applied in the same step as the submit. So a second submit, or an edit made while the request is pending and then wiped by the success reset, is not modelled.
- React's asynchronous and batched state updates are left out. Each handler applies its updates at once, in order.
- Strings.Lower: folds only the ASCII letters A-Z. It does not model the full Unicode `toLowerCase`.
- Todos.Todo: ids are unbounded integers and titles are strings. JavaScript numbers are doubles, and the API could send other JSON types, so an id beyond 2^53, a fractional id and a non-string title are not modelled. Strings.IntToString renders integers only.
- Pagination.PageRows: the page number and size are integers. The double-precision product `currentPage * todosPerPage` and non-integer arguments to `slice` are not modelled.
- CsvExport.Csv: an empty collection is excluded by a precondition. In the page, reading `data[0]` then fails at run time (pages/index.js:98).
