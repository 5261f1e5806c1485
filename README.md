# adminpanel, modelled in Dafny

The admin panel manages training registrations. Each registration is a record with contact details, a ticket number, the chosen programs and a status that is upcoming, pending or completed. This project models the logic the panel runs on those records:

- The dashboard table (`components/DashboardPage.tsx`):
  - it filters by search text, status and date range, then sorts by a column, then cuts out one page;
  - it counts records per status;
  - it keeps a set of selected rows;
  - it updates one status or the statuses of every selected row.
- The database editor (`app/managedatabase/page.tsx`):
  - an optimistic status change that is rolled back when the server refuses it;
  - the edit form's program checkboxes, file reset and save payload.
- The navigation sidebar (`components/Sidebar.tsx`):
  - which parent menus are expanded;
  - which entries are active for the URL path;
  - what a click does.
- The export endpoint (`app/api/export/route.ts`):
  - which records are exported;
  - which headers answer which format;
  - the text of the PDF report.
- The registrations endpoint (`app/api/registrations/route.ts`), over an in-memory document store.
- `capitalize` from the login page.

Modules:

- `Text`: the JavaScript string built-ins used by the code, on ASCII text.
- `Seqs`: `filter` and a stable sort, with their properties.
- `Records`: the shared record type.
- `DashboardQuery`: the table pipeline as functions.
- `DashboardTable`: the dashboard's state as a class.
- `ManageDatabase`, `Sidebar`, `ExportRoute`, `RegistrationsRoute` and `Login`: the other files.

Server replies, network errors and store exceptions are boolean inputs of the operations. Navigation is a returned action.

Where the code behaves in ways a user of the panel might not expect, the model follows the code:

- The search matches the raw `_id` and ticket-number text case-sensitively. Only name, email and profession are lower-cased (`DashboardQuery.IdMatchIsCaseSensitive`).
- The export route exports an empty selection as an empty file. It does not answer "no data".
- Sorting descending is not the ascending order reversed: rows with equal keys keep their input order both ways (`DashboardQuery.DescendingKeepsTies`).
- The status-update handler answers 400 only for a missing or empty id. An id the store cannot parse makes the update throw, which gives 500.
- The `PUT` handler reads the id from the query string, while both pages send their updates to `/api/registrations/{id}`. The handler for that path is `app/api/registrations/[id]/route.ts`, which is not part of this model.
- The store schema in `models/Registration.ts` declares neither `status` nor `isExpired`. The model follows what the handler asks the store to do.

## Model

| member | source | states |
|---|---|---|
| Text.Lower | components/DashboardPage.tsx:501-503 | `toLowerCase` keeps the length and lower-cases each character (ASCII letters only) |
| Text.Includes | components/DashboardPage.tsx:501-505 | `s.includes(t)` holds exactly when `t` occurs at some index of `s`; the empty string occurs everywhere |
| Text.IntToString | components/DashboardPage.tsx:505 | `String(n)` is at least one character: a digit or a minus sign first, digits after it |
| Text.ParseNatToString | components/DashboardPage.tsx:505 | the decimal text of a ticket number reads back to the number |
| Text.IntToStringInjective | components/DashboardPage.tsx:505 | different ticket numbers have different `String(ticketNo)` texts |
| Text.LowerIdempotent | components/DashboardPage.tsx:501-503 | lower-casing twice is lower-casing once |
| Text.Join | components/DashboardPage.tsx:444 | `join(',')` of no ids is empty; otherwise the first id comes first, followed by a comma when more ids follow |
| Text.Split | app/api/export/route.ts:27 | `split(',')` gives at least one piece, no piece holds a comma, and joining the pieces with commas gives the input back |
| Text.SplitJoin | app/api/export/route.ts:27 | splitting a comma-joined list of comma-free ids gives exactly those ids back |
| Seqs.FilterMembers | components/DashboardPage.tsx:499-506 | `filter` keeps exactly the elements that pass the test |
| Seqs.FilterIsSubsequence | components/DashboardPage.tsx:499-521 | `filter` keeps the kept elements in their original order |
| Seqs.FilterMultiplicity | app/managedatabase/page.tsx:798 | `filter` keeps every copy of an element that passes and drops every copy of one that fails |
| Seqs.FilterAppend | app/managedatabase/page.tsx:796-798 | filtering a concatenation filters each part |
| Seqs.FilterFilter | components/DashboardPage.tsx:499-521 | two successive filters are one filter by the conjunction of the tests |
| Seqs.InsertionSort | components/DashboardPage.tsx:527-535 | the array sort returns a permutation of its input, in which every neighbouring pair is in order when the order is total |
| Records.IdSet | components/DashboardPage.tsx:567 | `new Set(rows.map(r => r._id))` holds exactly the ids of the rows |
| Records.StatusNameInjective | components/DashboardPage.tsx:32 | the three status texts are distinct |
| DashboardQuery.TicketText | components/DashboardPage.tsx:505 | `String(r.ticketNo)` is "undefined" exactly when the ticket number is missing |
| DashboardQuery.Filtered | components/DashboardPage.tsx:495-524 | the table never holds more records than were loaded (which records, and in what order: `FilteredSpec`) |
| DashboardQuery.FilteredIsKept | components/DashboardPage.tsx:495-524 | the search, status and date filters, each run only when its input is set, are one filter by "meets every active condition" |
| DashboardQuery.FilteredSpec | components/DashboardPage.tsx:495-524 | a record is in the table iff it is loaded and meets every active filter; the table keeps the loaded order |
| DashboardQuery.StatusFilterExact | components/DashboardPage.tsx:509-511 | with only a status chosen, the table is exactly the records of that status |
| DashboardQuery.NoFilterKeepsAll | components/DashboardPage.tsx:496-523 | with no search, no status and no complete date range, every record is shown |
| DashboardQuery.SearchMatches | components/DashboardPage.tsx:498-506 | under a non-empty search, every shown record matches it on the lower-cased name, email or profession, or on the raw id or ticket text |
| DashboardQuery.DateRangeBounds | components/DashboardPage.tsx:513-521 | under a date range, every shown record has a call date between the two bounds, both inclusive: local midnight of the local day holding the start date's UTC midnight, and the last millisecond of the local day holding the end date's UTC midnight |
| DashboardQuery.MissingTicketMatchesUndefined | components/DashboardPage.tsx:505 | a record without a ticket number matches the search "undefined" |
| DashboardQuery.IdMatchIsCaseSensitive | components/DashboardPage.tsx:504 | the id is matched as typed: "abc" finds id "abc", "ABC" does not |
| DashboardQuery.SearchTextIgnoresCase | components/DashboardPage.tsx:501-503 | on name, email and profession, a search matches exactly when its lower-cased text does |
| DashboardQuery.CellOf | components/DashboardPage.tsx:529-530 | a sort cell is `undefined` exactly for an absent ticket number, profession or institution; the ticket number and the expiry flag are numbers |
| DashboardQuery.CellLe | components/DashboardPage.tsx:532-535 | a comparison with an `undefined` cell counts as a tie; under a total collation equal cells are in order |
| DashboardQuery.RowLe | components/DashboardPage.tsx:527-535 | a row whose sort cell is missing ties with every row, in both directions |
| DashboardQuery.Sorted | components/DashboardPage.tsx:526-536 | `sorted` holds the same rows as `filtered`, as many times each |
| DashboardQuery.RowLeTotal | components/DashboardPage.tsx:527-535 | the row comparator orders any two rows, in either direction, when string collation is total |
| DashboardQuery.SortedSpec | components/DashboardPage.tsx:526-536 | `sorted` is a permutation of `filtered`, with neighbours in ascending comparator order, or descending when `sortAsc` is false |
| DashboardQuery.DescendingKeepsTies | components/DashboardPage.tsx:527-535 | two rows with equal keys come out in input order both ascending and descending |
| DashboardQuery.Paginated | components/DashboardPage.tsx:538-541 | a page holds at most `itemsPerPage` rows; it is row `(page-1)*itemsPerPage + k` at position `k`; it is empty past the end |
| DashboardQuery.TotalPages | components/DashboardPage.tsx:543 | the page count is the ceiling of rows / `itemsPerPage`: enough pages for every row and no page to spare |
| DashboardQuery.PageNonEmptyIff | components/DashboardPage.tsx:538-543 | a page has rows iff its number is at most the page count |
| DashboardQuery.NextDisabled | components/DashboardPage.tsx:912 | "Next" is enabled exactly when a page follows the current one |
| DashboardQuery.PreviousDisabled | components/DashboardPage.tsx:902 | from a valid page, "Previous" is enabled exactly when a page precedes it |
| DashboardQuery.NextEnabledHasRows | components/DashboardPage.tsx:912 | while "Next" is enabled, the next page has rows |
| DashboardQuery.RowOnItsPage | components/DashboardPage.tsx:538-541 | every row appears on page `i / itemsPerPage + 1` at position `i % itemsPerPage` |
| DashboardQuery.ShowingRange | components/DashboardPage.tsx:895-896 | the counter never goes past the last record, and starts at 1 or later when there are records |
| DashboardQuery.ShowingMatchesPage | components/DashboardPage.tsx:895-896 | on a page with rows, "Showing a to b" names its first row and counts its rows |
| DashboardQuery.CountStatus | components/DashboardPage.tsx:575-577 | a status count is at most the number of records |
| DashboardQuery.StatusCountsSum | components/DashboardPage.tsx:575-577 | the upcoming, pending and completed counts add up to the number of records |
| DashboardQuery.SliceSumDropsEmpty | components/DashboardPage.tsx:177 | dropping the empty slices of the chart does not change its total |
| DashboardQuery.StatusData | components/DashboardPage.tsx:169-178 | the chart has at most one slice per status |
| DashboardQuery.StatusDataSpec | components/DashboardPage.tsx:169-178 | every chart slice is non-empty, and the slices together count every record |
| DashboardTable.WithDerivedStatus | components/DashboardPage.tsx:409 | a locally updated record has the new status and `isExpired` exactly when that status is completed; all other fields are kept |
| DashboardTable.ApplyStatus | components/DashboardPage.tsx:406-413 | after a successful update only the records with that id change, and only in `status` and `isExpired`; length and order are kept |
| DashboardTable.ApplyBulk | components/DashboardPage.tsx:426-439 | after a bulk update, exactly the records whose id was confirmed carry the new status and derived `isExpired`; nothing else changes |
| DashboardTable.ApplyStatusIdempotent | components/DashboardPage.tsx:406-413 | repeating a status change changes nothing more |
| DashboardTable.ApplyBulkStep | components/DashboardPage.tsx:430-432 | one more successful update in the loop adds its id to the updated ids |
| DashboardTable.ApplyBulkNone | components/DashboardPage.tsx:427 | a bulk update with no confirmed id leaves the list alone |
| DashboardTable.Toggled | components/DashboardPage.tsx:553-563 | a checkbox flips whether its id is selected and leaves every other id as it was |
| DashboardTable.ToggledTwice | components/DashboardPage.tsx:553-563 | ticking a row twice restores the selection |
| DashboardTable.HeaderChecked | components/DashboardPage.tsx:780 | the header box is never ticked with nothing selected; on a page with rows it is ticked exactly when every row is selected |
| DashboardTable.SelectAllChecksHeader | components/DashboardPage.tsx:780 | after "select all" on a page with rows, the header checkbox shows ticked |
| DashboardTable.Dashboard.constructor | components/DashboardPage.tsx:360-374 | the table starts empty, unfiltered, sorted by full name ascending, on page 1 of 10 rows, with nothing selected |
| DashboardTable.Dashboard.ToggleSort | components/DashboardPage.tsx:545-551 | clicking the sort column flips the direction; clicking another column sorts by it ascending |
| DashboardTable.Dashboard.HandleCheckboxChange | components/DashboardPage.tsx:553-563 | the selection becomes the toggled selection |
| DashboardTable.Dashboard.HandleSelectAll | components/DashboardPage.tsx:565-572 | ticking selects exactly the ids of the current page; unticking selects nothing |
| DashboardTable.Dashboard.UpdateStatus | components/DashboardPage.tsx:394-424 | on success the list becomes the updated list; on a failure or an exception it is left alone |
| DashboardTable.Dashboard.HandleBulkUpdate | components/DashboardPage.tsx:426-439 | the loop updates exactly the selected ids the server confirms, and the selection is always cleared |
| DashboardTable.Dashboard.SetSearch | components/DashboardPage.tsx:705-708 | typing a search replaces the search text and returns to page 1 |
| DashboardTable.Dashboard.SetFilterStatus | components/DashboardPage.tsx:274-292 | a status button replaces the status filter and keeps the page |
| DashboardTable.Dashboard.SetDateRange | components/DashboardPage.tsx:335-344 | the date fields replace the date range and keep the page |
| DashboardTable.Dashboard.NextPage | components/DashboardPage.tsx:911-912 | "Next" moves one page forward unless the page is the last or beyond |
| DashboardTable.Dashboard.PreviousPage | components/DashboardPage.tsx:901-902 | "Previous" moves one page back unless on page 1 |
| DashboardTable.Dashboard.SetItemsPerPage | components/DashboardPage.tsx:882-884 | choosing a page size sets it and returns to page 1 |
| ManageDatabase.FindStatus | app/managedatabase/page.tsx:324 | the status of a record with the id before which no record has the id, or none exactly when no record has it |
| ManageDatabase.WithStatus | app/managedatabase/page.tsx:327-331 | the optimistic step sets `status` on the records with the id; length, order, other records and other fields are kept |
| ManageDatabase.Reverted | app/managedatabase/page.tsx:343-348 | the revert step sets those records' status to the saved one, or keeps it when none was saved; nothing else changes |
| ManageDatabase.RollbackRestores | app/managedatabase/page.tsx:323-361 | when ids are unique, a failed update leaves the list exactly as before the call |
| ManageDatabase.UnknownIdUnchanged | app/managedatabase/page.tsx:324-331 | for an id not in the list, both steps leave the list unchanged |
| ManageDatabase.SharedIdRollback | app/managedatabase/page.tsx:346 | if two records shared an id, the revert would give both the first one's status |
| ManageDatabase.Editor.UpdateStatus | app/managedatabase/page.tsx:323-361 | the list becomes the optimistic list, then is reverted to the saved status when the server fails or the request throws |
| ManageDatabase.WithPrograms | app/managedatabase/page.tsx:799 | the form record gets the new list in the checkbox's group; the other group and every other field are kept |
| ManageDatabase.OnProgramChange | app/managedatabase/page.tsx:795-799 | a checkbox change puts the changed list in its own group and keeps the other group and every other field |
| ManageDatabase.ProgramsAfterChange | app/managedatabase/page.tsx:796-798 | ticking appends the program after the old list, an absent list counting as empty; unticking removes every copy and keeps the others in order |
| ManageDatabase.UncheckKeepsOthers | app/managedatabase/page.tsx:798 | unticking keeps the number of copies of every other program |
| ManageDatabase.IsSelected | app/managedatabase/page.tsx:417-420 | a box is ticked iff a record is being edited, its list is present and the list holds the program |
| ManageDatabase.ChangeShowsInCheckbox | app/managedatabase/page.tsx:795-799 | after a change, the box shows ticked iff it was ticked |
| ManageDatabase.CheckUncheckRestores | app/managedatabase/page.tsx:796-799 | ticking an unticked program and unticking it again restores the record |
| ManageDatabase.ClearFile | app/managedatabase/page.tsx:410-415 | clearing blanks the upload id and name, drops the picked file and changes nothing else; with no record edited it does nothing |
| ManageDatabase.EditPayload | app/managedatabase/page.tsx:297 | the saved ticket number is 0 when missing or 0, otherwise unchanged; every other field is sent as edited |
| Sidebar.IsChildActive | components/Sidebar.tsx:71 | a path is active iff it is the start of the URL path; an empty path always is |
| Sidebar.AnyChildActive | components/Sidebar.tsx:67 | `children.some(...)` holds iff some child path is the start of the URL path |
| Sidebar.IsParentActive | components/Sidebar.tsx:65-69 | an entry is active iff its own non-empty path, or one of its children's paths, is the start of the URL path |
| Sidebar.DashboardAlwaysActive | components/Sidebar.tsx:22 | the "Dashboard" entry, with path "/", is active on every path |
| Sidebar.ExpandedParents | components/Sidebar.tsx:49-57 | after a path change, a name is expanded iff it is the name of a menu item with an active child |
| Sidebar.ExpandedParentsInOrder | components/Sidebar.tsx:50-55 | the expanded names come in menu order |
| Sidebar.ContentActive | components/Sidebar.tsx:24-31 | the "Content" sub-menu has an active child iff the path starts with "/blogs" or "/media" |
| Sidebar.MenuExpandedParents | components/Sidebar.tsx:49-57 | for this menu, the path expands ["Content"] when it starts with "/blogs" or "/media", and nothing otherwise |
| Sidebar.ToggleName | components/Sidebar.tsx:59-63 | toggling a listed name removes every copy and keeps the rest in order, each other name as often as before; toggling an unlisted name appends it |
| Sidebar.ToggleTwiceRestores | components/Sidebar.tsx:59-63 | expanding a collapsed menu and collapsing it again restores the list |
| Sidebar.ItemClick | components/Sidebar.tsx:128-134 | a parent only toggles; a link to another page navigates and closes the sidebar on a phone; anything else does nothing |
| Sidebar.ChildClick | components/Sidebar.tsx:206-211 | a sub-menu entry navigates iff its path is not the current one, closing the sidebar on a phone |
| Sidebar.ClickOnCurrentPage | components/Sidebar.tsx:130 | clicking the entry of the page being shown does nothing |
| Sidebar.SidebarState.constructor | components/Sidebar.tsx:45 | nothing is expanded before the path effect runs |
| Sidebar.SidebarState.Toggle | components/Sidebar.tsx:59-63 | the expanded list becomes the toggled list |
| Sidebar.SidebarState.OnPathnameChange | components/Sidebar.tsx:49-57 | a new path replaces the expanded list by the expanded parents of that path |
| Sidebar.SidebarState.Click | components/Sidebar.tsx:128-134 | a click toggles a parent's sub-menu and otherwise leaves the list; it returns the click's action |
| ExportRoute.RequestedIds | app/api/export/route.ts:27 | no `ids` parameter gives no ids; otherwise the comma-free pieces that join back to the parameter |
| ExportRoute.Selected | app/api/export/route.ts:24-29 | `ids=all` exports the whole store; otherwise exactly the stored records whose id was requested; a missing `ids` exports nothing |
| ExportRoute.SelectedInStoreOrder | app/api/export/route.ts:28 | the exported records keep the store's order |
| ExportRoute.JoinedIdsRoundTrip | components/DashboardPage.tsx:444 | the ids the dashboard joins with commas reach the route unchanged, and select exactly the stored records with those ids |
| ExportRoute.ReportUnique | app/api/export/route.ts:59-67 | the report text is determined by the exported records |
| ExportRoute.StatusLinesTellStatuses | app/api/export/route.ts:65 | two status lines of the report are equal exactly when the records have the same status |
| ExportRoute.BlockHeadingsDistinct | app/api/export/route.ts:62 | different records get different "--- Registration n ---" headings |
| ExportRoute.BuildReport | app/api/export/route.ts:59-67 | the report is the title followed by four lines per record, in order: the 1-based number, the full name, the email and the status |
| ExportRoute.Get | app/api/export/route.ts:16-80 | a failing store answers 500 before the format is looked at; "excel" answers the xlsx type and file name with the selected rows; "pdf" answers the PDF type and file name with the report; any other format answers 400 |
| RegistrationsRoute.Listing | app/api/registrations/route.ts:19 | the listing holds the stored documents in the store's order |
| RegistrationsRoute.Patched | app/api/registrations/route.ts:39-43 | the update replaces `status` and `isExpired` with the body's values and keeps every other field |
| RegistrationsRoute.PutState | app/api/registrations/route.ts:27-51 | the store changes only when an id is given, the update does not throw and a document has that id; then only that document's status fields change |
| RegistrationsRoute.PutReply | app/api/registrations/route.ts:27-51 | a missing or empty id gives 400, a throwing update 500, an unknown id 404; otherwise success with the updated document |
| RegistrationsRoute.PutIdempotent | app/api/registrations/route.ts:39-43 | repeating the same update leaves the store as after the first |
| RegistrationsRoute.PutAgreesWithDashboard | app/api/registrations/route.ts:39-43 | the dashboard's body `{status, isExpired: status == completed}` changes the stored listing exactly as the dashboard changes its own list |
| RegistrationsRoute.RegistrationStore.Get | app/api/registrations/route.ts:16-24 | a successful GET returns every document in store order; a throwing query gives 500 |
| RegistrationsRoute.RegistrationStore.Put | app/api/registrations/route.ts:27-51 | the store becomes the PUT's new state and the reply is the PUT's reply; the store stays well formed |
| Login.Capitalize | app/login/page.tsx:36-37 | the empty string stays empty; otherwise the first character is upper-cased and the rest is kept, with the length unchanged |
| Login.CapitalizeIdempotent | app/login/page.tsx:37 | capitalising twice is capitalising once |

## Left out

- Rendering, animation, toasts, modals, alerts and the loading flags: they compute nothing the model could state.
- Date parsing: a `callDateTime` is an integer timestamp or none, and the two bounds of a date field are given inputs. They stand for `new Date(text).setHours(0, 0, 0, 0)` and `new Date(text).setHours(23, 59, 59, 999)`. A date-only text parses as midnight UTC and `setHours` then works in local time, so west of UTC both bounds fall on the local day before the one typed. `handleDatePreset` and the monthly chart are not modelled, because they only compute calendar dates.
- Text.Lower, Text.UpperChar: change ASCII letters only. JavaScript's full Unicode case mapping is not modelled.
- Text.IntToString: does not produce the exponent notation that `String(n)` uses from 10^21 on.
- DashboardQuery.SortedSpec: `localeCompare` is an abstract order that is assumed total.
  - A comparison with a missing value is NaN in the source, which the sort treats as equal.
  - When such "equal" pairs make the comparator inconsistent, the JavaScript order depends on the engine. The model gives the order of a stable insertion sort.
- DashboardQuery.Paginated: requires page ≥ 1 and rows per page ≥ 1. The page's controls never set smaller values.
- DashboardTable.Dashboard.HandleBulkUpdate: `accepted` stands for the set of ids whose update the server confirms. The iteration order of the selection is not modelled, because updates of different ids commute.
- ManageDatabase.Editor.UpdateStatus: the two list updates are applied to the list in sequence. React's queued state updates, and other updates landing between them, are not modelled.
- RegistrationsRoute.RegistrationStore.Put:
  - the body always carries `status` and `isExpired`; a malformed body makes `request.json()` throw outside the handler's `try`, which is not modelled;
  - the store's validators and strict-schema field dropping are not modelled.
- The database connection (`connectDB`) is awaited outside every `try`. A failing connection is not modelled.
- ExportRoute.Get:
  - the spreadsheet body is the list of selected records, not its XLSX bytes;
  - the PDF body is the report's text lines: font sizes, spacing and the byte stream are not modelled;
  - the PDF buffer callback calls an undefined `resolve`, which is not modelled.
- Login.Capitalize: the branch for a non-string argument is not modelled, since the argument is typed `string`.
- The uploaded-file endpoint, the ticket counter, the record creation path, the store connection cache and the login form flow are not modelled: they are input/output wrappers or schema declarations.
