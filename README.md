# chixoy-formi: a Dafny model of its decision and data-shaping logic

chixoy-formi is a Next.js application. Institutions use it to report, once per project, how
much of a project's target (`meta`) they met. The report carries three plan flags
(POA, PEI, POM), clarifications, a justification that is required when compliance is 0,
and an optional PDF. This project models five pieces of the application in Dafny and proves
properties about them:

- **The report endpoint** (`POST /api/reportes`, module `ReportRoute`). It checks the body in
  a fixed order: the required fields, then the justification, then the project's meta. It then
  computes the percentage and inserts one row.
  - The database is a class `ReportStore`. It holds each project's meta and the inserted rows,
    and counts the connections that are opened and ended.
  - Which database calls throw is an input.
- **The route guard** (`middleware.ts`, module `Middleware`). It maps the path, the
  `auth_token` cookie and the outcome of token verification to one of these responses:
  - pass through;
  - redirect to `/`;
  - redirect to `/login`, optionally deleting the cookie.
- **The report form** (home page, module `ReportForm`). The class `ReportFormPage` holds the
  page's state, and each event handler is a method on it.
  - The three pre-submit checks run in order, and the first one that fails decides.
  - When each request fails, the page keeps its state and shows an error message.
  - After a successful save, the page resets its state.
  - It also models when the justification field is shown and when the submit button is
    disabled.
- **The annual matrix** (`tableFinal` page, module `AnnualReport`).
  - The year columns.
  - `useReportData`: an imperative loop that groups the selected institution's records by
    project code and year into nested maps, with a rowspan counter.
  - The institution selector, the detail modal and its page state.
  - The PDF's file name and its fallback texts.
- **The admin table** (`table` page, module `AdminTable`).
  - A case-insensitive search, a sort state machine, and a comparator applied to a copy of
    the list.
  - The "Ver más" rule for long notes, and the note modal.

Three support modules model the JavaScript semantics the code relies on. Each one is stated
and proved once:

- `JsNumbers`:
  - JavaScript numbers (finite, NaN, ±Infinity), with `/` and `*`;
  - `parseInt`, `parseFloat` and `Number(string)` on decimal input;
  - `String(n)` for integers;
  - truthiness;
  - the number `/` takes from a JSON value, which for an array goes through the array's joined text;
  - how JSON serialises a number.
- `JsStrings`: `toLowerCase` on ASCII and Latin-1 capitals, `includes`, and `<` on strings character by character.
- `JsArrays`:
  - `filter`;
  - a stable `sort` driven by a comparator;
  - `[...new Set(xs)]`.

Some facts about the code that the model keeps as they are:

- The stored percentage is not rounded.
- Nothing guards against a zero or negative meta.
- `reporte_id` counts as present through truthiness, so the value 0 counts as "no report".
- No route or form checks fiscal-year ranges or document links.

Sorting in the admin table runs on a copy, and the model's lists are values. So the
`reportes` state is unchanged by construction.

## Model

| member | source | states |
|---|---|---|
| ReportRoute.Respond | app/api/reportes/route.ts:6-94 | The status is one of 201/400/404/500. Each status holds exactly under its condition: 400 for a missing field or missing justification; 404 when the checks pass and the project has no meta; 500 for an unreadable body or a throwing connect, select or insert; 201 otherwise. |
| ReportRoute.Percentage | app/api/reportes/route.ts:59 | For a numeric compliance and a nonzero meta, the stored value is exactly `cumplimiento / meta * 100`, with no rounding. A zero meta gives a non-finite value, because there is no guard. |
| ReportRoute.FlagColumn | app/api/reportes/route.ts:61-63 | A flag is stored as 1 exactly when it is truthy, and as 0 otherwise. |
| ReportRoute.RowFor | app/api/reportes/route.ts:65-79 | The inserted row carries the body's id, compliance, path, clarifications and justification unchanged, the 0/1 flags and the percentage, in the INSERT's column order. |
| ReportRoute.ReportStore.constructor | app/api/reportes/route.ts:42-49 | The store starts with the given metas and rows and no connections. |
| ReportRoute.ReportStore.Connect | app/api/reportes/route.ts:42 | A connection is opened unless connecting throws. Either way the request is counted. |
| ReportRoute.ReportStore.End | app/api/reportes/route.ts:92 | Ending a connection closes exactly one and changes nothing else. |
| ReportRoute.ReportStore.SelectMeta | app/api/reportes/route.ts:45-49 | Gives the project's meta (None when the project is missing or its meta is NULL), or signals a throw. |
| ReportRoute.ReportStore.InsertRow | app/api/reportes/route.ts:65-79 | A successful insert appends exactly that row. A failed insert stores nothing. |
| ReportRoute.ReportStore.Post | app/api/reportes/route.ts:6-94 | The handler's reply is `Respond`'s. Exactly one row, `RowFor`, is appended when the reply is 201, and none otherwise. Every opened connection is closed again on every path. A connection is requested only once both body checks pass. |
| ReportRoute.BodyChecksIgnoreStore | app/api/reportes/route.ts:20-40 | A 400 does not depend on the store or on which database calls fail. |
| ReportRoute.PresenceCheckFirst | app/api/reportes/route.ts:20-40 | When a required field is missing, the missing-fields reply wins over the justification check. |
| ReportRoute.ZeroProjectIdRefused | app/api/reportes/route.ts:20-32 | Project id 0 is falsy. It is refused as missing before any connection. |
| ReportRoute.JustifiedZeroAccepted | app/api/reportes/route.ts:35-84 | Compliance 0 with a justification is stored (201) when the meta exists and nothing fails. |
| ReportRoute.HalfOfFifty | app/api/reportes/route.ts:59 | Compliance 25 against meta 50 stores exactly 50 percent. |
| ReportRoute.ArrayCompliancePercentage | app/api/reportes/route.ts:59 | An array compliance coerces through its text: `[]` and `[null]` store 0 percent, and `[n]` stores what `n` would. |
| ReportRoute.FortyInAnArrayOfFifty | app/api/reportes/route.ts:59 | The compliance `[40]` against meta 50 stores 80 percent, not NaN. |
| Middleware.Route | middleware.ts:5-34 | The full decision table. `/login` with a valid token goes to `/`, and otherwise passes. The auth API always passes. Any other path without a cookie goes to `/login`. With a cookie that fails verification it goes to `/login` and deletes the cookie. With a valid cookie it passes. |
| Middleware.ProtectedNeedsValidToken | middleware.ts:21-33 | A protected path passes if and only if the cookie is present and verifies. |
| Middleware.CookieDeletedOnlyWhenInvalid | middleware.ts:25-31 | The cookie is deleted if and only if a protected path carries a cookie that fails verification. |
| Middleware.HomeRedirectOnlyFromLogin | middleware.ts:11-19 | The redirect to `/` happens if and only if the path is `/login` and the session is valid. |
| Middleware.RedirectSettlesInOneStep | middleware.ts:5-34 | Following any redirect, without the cookie when it was deleted, passes through: the guard never loops. |
| AdminTable.HandleSort | app/table/page.tsx:122-132 | The new key is the clicked one. The direction is `desc` exactly when that key was already `asc`. |
| AdminTable.SortToggleCycle | app/table/page.tsx:122-132 | Repeated clicks on one header alternate asc and desc, starting from desc only when that column was ascending. |
| AdminTable.MatchesSearchIff | app/table/page.tsx:134-140 | A report is kept exactly when the lower-cased term occurs at some position of the lower-cased project, code or institution. |
| AdminTable.EmptySearchKeepsAll | app/table/page.tsx:134-140 | An empty search keeps every report. |
| AdminTable.Compare | app/table/page.tsx:141-159 | The comparator answers -1, 0 or 1, and always 0 when no column is chosen. |
| AdminTable.DescNegatesAsc | app/table/page.tsx:152-158 | The descending comparator is the ascending one negated. |
| AdminTable.PercentageSortsNumerically | app/table/page.tsx:147-150 | Percentages are compared as parsed numbers: 9 sorts before 10 ascending. |
| AdminTable.TextOrderDiffersFromNumeric | app/table/page.tsx:147-150 | As strings, "10" is less than "9", which is why the parse matters. |
| AdminTable.UnsortedKeepsFilterOrder | app/table/page.tsx:141-142 | With no sort chosen, the table shows the filtered reports in their original order. |
| AdminTable.InitialViewIsFetchOrder | app/table/page.tsx:134-159 | An empty search with no sort shows the reports exactly as fetched. |
| AdminTable.ShownIsPermutationOfMatches | app/table/page.tsx:134-159 | The table shows the matching reports, each as often as it occurs, and no others. |
| AdminTable.ComparatorConsistent | app/table/page.tsx:141-159 | On values `<` orders totally (strings, or percentages that parse), the comparator is antisymmetric and transitive in both directions. |
| AdminTable.ShownIsSorted | app/table/page.tsx:134-159 | When every report's value in the chosen column is comparable, the shown list is in the comparator's order. |
| AdminTable.OrEmpty | app/table/page.tsx:319 | `note \|\| ""` gives the text itself, or "" for null. |
| AdminTable.NoteCellFor | app/table/page.tsx:319-347 | A note longer than 30 characters becomes a "Ver más" button. Any other note is shown inline, unchanged. |
| AdminTable.OpenModal | app/table/page.tsx:112-116 | The modal opens with the given title and the content, where null content becomes "". |
| AdminTable.CloseModal | app/table/page.tsx:359 | Closing hides the modal and keeps its content and title. |
| AdminTable.VerMasShowsWholeNote | app/table/page.tsx:319-347 | A note too long for its cell opens whole and untruncated in the modal. |
| AnnualReport.Years | app/tableFinal/page.tsx:59 | There are 11 columns, column i shows year 2015 + i, and the years strictly increase. |
| AnnualReport.YearsAreTheRange | app/tableFinal/page.tsx:59 | A year is a column exactly when it lies between 2015 and 2025. |
| AnnualReport.FilteredRecords | app/tableFinal/page.tsx:67-69 | While no institution is selected, nothing is kept. Every kept record belongs to the selection. |
| AnnualReport.FilteredRecordsContents | app/tableFinal/page.tsx:67-68 | Every record of the selected institution is kept, as often as it occurs, and no other. |
| AnnualReport.FirstCodesMembers | app/tableFinal/page.tsx:89-96 | The projects created are exactly the codes of the records seen. |
| AnnualReport.FirstCodesDistinct | app/tableFinal/page.tsx:89-96 | No project is created twice. |
| AnnualReport.AddRecordKeepsSummary | app/tableFinal/page.tsx:86-99 | One pass of the loop keeps the grouping invariant: one project per distinct code, in first-appearance order; rowspan equals the number of projects; each project is named after its first record; each year key holds the last record with that code and year. |
| AnnualReport.GroupRecord | app/tableFinal/page.tsx:74-100 | The `forEach` body (create the institution, create the project and bump rowspan, store the record under `String(anio)`) takes the grouping of the first i records to that of the first i + 1. |
| AnnualReport.GroupRecords | app/tableFinal/page.tsx:72-100 | After the loop, the map holds only the selected institution (or nothing when there were no records), and its entry summarises all the records. |
| AnnualReport.ObjectKeyOrder | app/tableFinal/page.tsx:103-106 | `Object.values` lists the same keys, each the same number of times. |
| AnnualReport.ObjectKeyOrderShape | app/tableFinal/page.tsx:103-106 | For any keys: first come exactly the array-index keys, in ascending numeric value; then every other key, in creation order. |
| AnnualReport.SortedIndices | app/tableFinal/page.tsx:103-106 | The numeric sort of the array-index keys keeps each of them and lists them in ascending value. |
| AnnualReport.SortedByValue | app/tableFinal/page.tsx:103-106 | Array-index keys that the numeric comparator orders stand in ascending numeric value. |
| AnnualReport.IndexCompareConsistent | app/tableFinal/page.tsx:103-106 | Numeric comparison of numeral keys is a consistent comparator, so sorting the array-index keys really orders them. |
| AnnualReport.FinishAll | app/tableFinal/page.tsx:103-106 | The final array has one element per institution created. |
| AnnualReport.Finish | app/tableFinal/page.tsx:103-106 | Name and rowspan are kept, and row k is the project stored under the k-th key in `Object.values` order. |
| AnnualReport.UseReportData | app/tableFinal/page.tsx:61-110 | At most one institution results. Nothing results exactly when the selection has no records. Otherwise the result is the selected institution, with one row per distinct code in `Object.values` order, each row summarising that code's records, and rowspan equal to the number of rows. |
| AnnualReport.GroupedFinishes | app/tableFinal/page.tsx:103-108 | The final conversion of a completed grouping gives exactly that description. |
| AnnualReport.FinishDescribes | app/tableFinal/page.tsx:103-106 | An institution that summarises its records converts to rows that describe them. |
| AnnualReport.ProjectOrderIsDistinctCodes | app/tableFinal/page.tsx:89-106 | The rows are the distinct codes of the records, each once. Their number, the rowspan, is the number of distinct codes. |
| AnnualReport.ProjectOrderIsFirstAppearance | app/tableFinal/page.tsx:89-106 | When no code looks like an array index, rows follow first appearance. |
| AnnualReport.IndexCodesSortNumerically | app/tableFinal/page.tsx:103-106 | Codes that are array indices are listed by numeric value, "9" before "10", whatever order they were created in. |
| AnnualReport.IndicesSortByValue | app/tableFinal/page.tsx:103-106 | When every code is an array index, the order is that of their values alone. |
| AnnualReport.CellShowsLatestRecord | app/tableFinal/page.tsx:99 | Through the cell lookup at line 602, a cell is filled exactly when the project has a record for that year, and then it holds the last such record in input order. |
| AnnualReport.DefaultCompareConsistent | app/tableFinal/page.tsx:435 | The default string comparator of `sort()` is consistent. |
| AnnualReport.InstitutionNames | app/tableFinal/page.tsx:435 | `reportes.map(r => r.institucion)` has one name per record. |
| AnnualReport.UniqueInstitutions | app/tableFinal/page.tsx:433-437 | The options are strictly increasing, so sorted and duplicate-free, and are exactly the institutions of the records. |
| AnnualReport.FirstInstitutionIsOffered | app/tableFinal/page.tsx:453-458 | The institution selected after loading is among the options, and its matrix is not empty. |
| AnnualReport.OrFallback | app/tableFinal/page.tsx:198-202 | A nonempty text is shown as is. A null or empty text is replaced by the fallback, so the paragraph is never empty. |
| AnnualReport.AclaracionesText | app/tableFinal/page.tsx:198 | Clarifications, with "No se proporcionaron aclaraciones." when there are none. |
| AnnualReport.JustificacionText | app/tableFinal/page.tsx:202 | Justification, with "No aplica." when there is none. |
| AnnualReport.PdfFileName | app/tableFinal/page.tsx:247 | The name starts with `Reporte_Cumplimiento_` and ends with `.pdf`. |
| AnnualReport.PdfFileNameRoundTrip | app/tableFinal/page.tsx:247 | Splitting the name at its last underscore gives back the project code and the year. |
| AnnualReport.PdfFileNameInjective | app/tableFinal/page.tsx:247 | Two reports get the same file name only when they share code and year. |
| AnnualReport.AnnualReportPage.constructor | app/tableFinal/page.tsx:426-431 | The page starts loading, with no error, no records, no selection and no open record. |
| AnnualReport.AnnualReportPage.ReportsLoaded | app/tableFinal/page.tsx:451-467 | The records are stored, the first record's institution is selected when there is one, and loading stops. |
| AnnualReport.FetchErrorText | app/tableFinal/page.tsx:447-464 | A non-ok answer shows "Failed to fetch reports. Status: " followed by the status. A thrown Error shows its own message, and anything else thrown shows "An unknown error occurred during fetch." |
| AnnualReport.NotOkStatusReadBack | app/tableFinal/page.tsx:447-449 | The status of a non-ok answer is the number written after the message's prefix. |
| AnnualReport.AnnualReportPage.ReportsFailed | app/tableFinal/page.tsx:447-467 | The page shows the failure's text, loading stops, and nothing else changes. |
| AnnualReport.AnnualReportPage.SelectInstitution | app/tableFinal/page.tsx:526 | Choosing an option changes only the selection. |
| AnnualReport.AnnualReportPage.HandleCellClick | app/tableFinal/page.tsx:473-477 | A filled cell opens its record. An empty cell leaves the modal as it was. |
| AnnualReport.AnnualReportPage.CloseDetails | app/tableFinal/page.tsx:674 | Closing clears the open record only. |
| ReportForm.ErrorMessage | app/page.tsx:201 | The message is `Error: ` followed by exactly the error's text. |
| ReportForm.SubmitRejection | app/page.tsx:128-146 | The checks run in source order: no project; then an existing report; then compliance 0 with an empty justification. A submission passes exactly when it is none of these. |
| ReportForm.ReportedProjectBlocked | app/page.tsx:134-140 | A project with a report has its button disabled (line 404), and the check refuses it anyway. |
| ReportForm.JustificationAskedOnlyWhenShown | app/page.tsx:142-146 | The justification is demanded exactly when its textarea is visible (line 368: the value is 0) and empty. |
| ReportForm.FindProject | app/page.tsx:88 | `find` gives None exactly when no id equals the number. Otherwise it gives the first project whose id equals it. |
| ReportForm.OptionSelectsItsProject | app/page.tsx:88 | Choosing a project's option, whose value is `String(id)` parsed back by `parseInt`, selects the first project with that id. |
| ReportForm.PlaceholderSelectsNothing | app/page.tsx:88-99 | The placeholder option parses to NaN and selects nothing. |
| ReportForm.UpdateForm | app/page.tsx:106-109 | An edit changes exactly the field it names: a checkbox its flag, a text control its text. |
| ReportForm.ChosenFile | app/page.tsx:116 | The chosen file is the first of the list, or null when there is none. |
| ReportForm.UploadStep | app/page.tsx:149-162 | Without a file the path is null. Otherwise: an ok upload gives its answer; a non-ok one fails with "Failed to upload PDF"; a thrown fetch fails with its own message. |
| ReportForm.SaveStep | app/page.tsx:164-179 | The save succeeds exactly when the POST answers ok. A non-ok answer fails with "Failed to save report", and a thrown fetch with its message. |
| ReportForm.BuildBody | app/page.tsx:167-176 | The body carries the selected project's id and the upload's path. |
| ReportForm.Submit | app/page.tsx:128-179 | A failed check stops with its message. Otherwise a failed upload stops with `Error: ` and its reason. Otherwise the body is posted, and the submission fails exactly when the POST is not ok, with `Error: ` and the save step's reason. |
| ReportForm.InitialComplianceIsZero | app/page.tsx:43-50 | The field's initial text "0" parses to the initial compliance value 0. |
| ReportForm.ClientGateMatchesServer | app/page.tsx:142-176 | When the value the checks use is the parse of the field, a body the client lets through is never refused by the server for a missing justification. It reaches the database unless the project id is 0. |
| ReportForm.ServerRefusalCaughtByClient | app/page.tsx:142-146 | Conversely, a body the server would refuse for a missing justification is refused by the client first, and its textarea was visible. |
| ReportForm.SubmittedFlagsStored | app/page.tsx:170-172 | A ticked checkbox reaches the stored row as 1, and an unticked one as 0. |
| ReportForm.WholeComplianceSentExactly | app/page.tsx:169 | A whole number typed into the compliance field is sent as exactly that number. |
| ReportForm.SubmittedTextsStored | app/page.tsx:167-176 | The clarifications and the justification reach the stored row as typed, the path as uploaded, and the compliance as `parseFloat` of the field, with NaN sent as null. |
| ReportForm.EmptyComplianceSentAsNull | app/page.tsx:169 | An empty compliance field hides the justification, is sent as null, and is stored as 0 percent. |
| ReportForm.FractionalComplianceSent | app/page.tsx:169 | The typed text "2.5" is sent as the number 2.5. |
| ReportForm.ReportFormPage.constructor | app/page.tsx:31-50 | The page starts empty with the initial form and compliance value 0, and is consistent. |
| ReportForm.ReportFormPage.InstitucionesFetched | app/page.tsx:52-64 | Only an ok answer replaces the institution list. Nothing else changes. |
| ReportForm.ReportFormPage.HandleInstitucionChange | app/page.tsx:66-75 | The institution is set, and the project choice, the list and the message are cleared at once. A projects fetch starts exactly when an institution is chosen. The form is untouched. |
| ReportForm.ReportFormPage.ProyectosFetched | app/page.tsx:75-81 | A projects answer, whenever it arrives, replaces the list if it is ok, whichever institution is selected by then. A failed one changes nothing. |
| ReportForm.LateAnswerListsEarlierChoice | app/page.tsx:66-83 | Choosing A and then B, with A's answer arriving last, leaves B selected over A's projects. |
| ReportForm.ReportFormPage.HandleProyectoChange | app/page.tsx:85-100 | The selection is the first project with the parsed id. The warning is shown exactly when that project has a report, and an unknown id clears selection and message. |
| ReportForm.ReportFormPage.HandleFormChange | app/page.tsx:102-113 | The form takes the edit. An edit of the compliance field re-parses the value the checks use, so consistency between them is kept. |
| ReportForm.ReportFormPage.HandleFileChange | app/page.tsx:115-121 | Only the chosen file changes. |
| ReportForm.ReportFormPage.HandleSubmitAsWritten | app/page.tsx:123-205 | As the page has it. It posts `Submit`'s body and shows its message. A failure keeps the form and selection. A save resets form and selection, reloads the projects, and leaves the compliance value unchanged. |
| ReportForm.ReportFormPage.Conclude | app/page.tsx:179-204 | The message is set. After a save the form and selection are reset, the projects reloaded (or the refetch's error shown), and in every case loading ends. |
| ReportForm.ReportFormPage.HandleSubmit | app/page.tsx:123-205 | The same, with the reset also returning the compliance value to 0, so a consistent page stays consistent. |
| ReportForm.StaleComplianceRefusedByServer | app/page.tsx:181-191 | After the incomplete reset, with a nonzero stale value, the value differs from the parse of the field "0". The justification textarea is hidden and the client lets an empty justification through, but the server refuses the body with "Justification is required when compliance is 0". |
| JsNumbers.ParseIntRoundTrip | app/page.tsx:88 | `parseInt(String(n))` is n for every integer. |
| JsNumbers.ParseFloatRoundTrip | app/page.tsx:169 | `parseFloat(String(n))` is n for every integer. |
| JsArrays.SortSorted | app/table/page.tsx:141-159 | The stable sort's result is in order for every consistent comparator. |
| JsArrays.SortKeepsOrderWhenAllEqual | app/table/page.tsx:141-142 | A comparator that always answers 0 leaves the order unchanged. |
| JsArrays.SortStable | app/table/page.tsx:141-159 | The sort is stable: for a consistent comparator the elements tying with any given one come out in their input order. |
| JsArrays.InsertTies | app/table/page.tsx:141-159 | Inserting an element puts it in front of every element it ties with, and keeps their order. |
| JsNumbers.ToNumber | app/api/reportes/route.ts:59 | The number `/` reads from a JSON value: a number is itself, null is 0, undefined and a plain object are NaN, and an array is the number of its joined text. |
| JsNumbers.TextNumber | app/api/reportes/route.ts:59 | The number of a value's text as `join` writes it: null, undefined and `[]` give 0, a string gives `Number` of it, and a number gives itself. |
| JsNumbers.SingletonArrayNumber | app/api/reportes/route.ts:59 | A one-element array coerces as its element's text does. |
| JsNumbers.CommaTextIsNaN | app/api/reportes/route.ts:59 | `Number` of any text containing a comma is NaN. |
| JsNumbers.LongArrayIsNaN | app/api/reportes/route.ts:59 | The NaN given for an array of two or more elements agrees with `Number` of any joined text, since the text holds a comma. |
| JsArrays.DedupDistinct | app/tableFinal/page.tsx:435 | `[...new Set(xs)]` has no duplicates. |

## Left out

- SQL and the database driver: the store keys projects by the exact JSON value of `proyectoId`. MySQL's coercion between a number and its string is not modelled.
- Behaviour of the number value edge cases:
  - JavaScript's −0 (it counts as 0, as `=== 0` does);
  - floating-point rounding (every Number is an exact real);
  - hexadecimal input to `parseInt` and `Number`, and an explicit radix for `parseInt`.
- ReportRoute.Percentage: states the quotient over reals. When meta is 0 it states only that the result is not finite, not which infinity or NaN.
- JsNumbers.TextNumber: a number inside an array counts as its own value. This relies on `Number(String(n))` being `n` for a double. `String(n)` for a non-integer is not modelled, and `LongArrayIsNaN` takes the joined text as a parameter rather than building it.
- Objects as hash maps: keys such as `constructor` that collide with prototype members are not modelled.
- Strings are sequences of Unicode scalar values, where JavaScript strings are sequences of UTF-16 code units. So `AdminTable.NoteCellFor` counts a character above U+FFFF as one, where `.length` counts two. `JsStrings.CodeUnitLess` also orders characters above U+FFFF by scalar value, which differs from JavaScript's `<` against characters from U+E000 to U+FFFF.
- `toLowerCase` lowers the ASCII capitals and the Latin-1 capitals U+00C0 to U+00DE (except U+00D7). Other scripts' case mappings are not modelled.
- The matrix's PDF rendering in `generatePDF` (html2canvas, jsPDF, the page-splitting loop) is left out, because it is DOM and image work. So are `toFixed` and `toLocaleDateString`, which are number and date formatting, and all JSX and styling.
- ReportForm.ReportFormPage.HandleSubmit: the handler is modelled as one atomic step given the three request outcomes. The in-flight state (loading shown, a second click racing the first) belongs to the asynchronous runtime and is not modelled.
- ReportForm.BuildBody: its contract names only the id and the path. Where each other field ends up in the stored row is stated by `SubmittedTextsStored` and `SubmittedFlagsStored`. `WholeComplianceSentExactly`, `FractionalComplianceSent` and `EmptyComplianceSentAsNull` give the compliance for whole, decimal and empty input.
- HTML form validation (the `required` attributes) is not modelled: the browser enforces it before `handleSubmit` runs. The option label text shown for a project with a report is not modelled either.
- Token verification (signed-token checking and expiry) is an opaque predicate passed to `Middleware.Route`. The middleware's `matcher` configuration, which decides which paths reach the guard at all, is a regular expression for the framework and is not modelled.
- The other routes: institutions, projects and all-reports listings, login, logout, user creation and the password-hash script. Each is a database or crypto passthrough with no logic to model. Two of their queries matter for what the pages can show, and the model keeps those columns as inputs:
  - The projects listing (app/api/proyectos/route.ts:19-30) selects no `reporte_id` column. On the data it serves, `ReportForm.HasReport` is therefore always false, and the "already reported" refusal and the disabled button never take effect.
  - The all-reports listing (app/api/reportes/all/route.ts:8-28) selects no `anio` column. On the data it serves, every record is stored under the key `String(undefined)`, which is not a year, so no matrix cell is filled.
- The upload route: the page's upload request is a parameter, and the route is not part of this model.
- Every `fetch` is a parameter. Each one is an answer with a status and payload, or an exception with its message.
- ReportForm.ReportFormPage.HandleSubmit: the reload after a save ignores the answer's `ok`, as the page does. A payload that is not a project list is not modelled.
- ReportForm.ReportFormPage.HandleFormChange: events from controls whose `name` is not a field of the form are not modelled.
- `console.error` logging and the SweetAlert toasts are left out, because they are I/O with no effect on state.

## Findings

| source | as written | input that shows it | evidently intended | confidence | as-written member | corrected member |
|---|---|---|---|---|---|---|
| app/page.tsx:181-191 | After a successful save, the form is reset to compliance 0, but `cumplimientoValue`, the value the checks and the justification field's visibility use, is not reset. | Save a report with compliance 5. Then select another project without a report and submit the displayed 0 with an empty justification. The justification field stays hidden and the client check passes. The server answers 400 "Justification is required when compliance is 0", and the page shows "Error: Failed to save report". | The reset also sets `cumplimientoValue` back to 0, so the field's text and the checked value agree again. | not executed | ReportForm.StaleComplianceRefusedByServer | ReportForm.ReportFormPage.HandleSubmit |
