# HRMS attendance reconciliation: a verified Dafny model

This project models two parts of an HR management system.

The first is the attendance state machine of the browser dashboard (`hrms-frontend/src/dashboard.js`). It holds the roster, the fetched attendance records, the selected date, and a per-employee map of reconciled statuses. Each entry in the map is a status plus a flag saying whether a bulk action set it. It also holds the bulk-confirmation dialog. The model covers these handlers:

- the rebuild (`syncAttendanceToState`);
- the optimistic single mark, and its revert when the write fails;
- the override check before a bulk mark, and the dialog's cancel;
- the confirmed bulk overwrite;
- the finalize gate and summary.

It also covers the pure helpers beside them: the two search filters, the per-date present/absent counts, the marked-progress figure that enables the finalize button, and the per-employee CSV text.

The second is the server's `POST /attendance/` handler (`hrms-backend/attendance/views.py`). It is an upsert keyed on (employee, date). If a record for the pair exists, it is partially updated in place and the answer is 200. Otherwise a new record is created and the answer is 201. If the serializer rejects the body, the answer is 400 and the table is unchanged.

Layout, one module per file:

- `text.dfy` (`Text`): ASCII `toUpperCase`/`toLowerCase`, `includes`, `join` with its inverse split, and the whitespace stripping the server applies to a status.
- `records.dfy` (`Records`): the record and request shapes shared by both sides. Also the "first record for (employee, date)" query, which serves both JavaScript's `find` and Django's `.filter(...).first()`.
- `store.dfy` (`Store`): the upsert as a function `Upsert`, with its lemmas. The class `AttendanceStore` holds the table, and its `Create` method is proved equal to `Upsert`.
- `dashboard.dfy` (`Dashboard`): the rebuild `Synced` and the bulk overwrite `BulkApplied` as specification functions, with their lemmas. The class `AttendanceBoard` holds the fields the handlers update. Its loops are proved equal to those functions.
- `views.dfy` (`DashboardViews`): filters, counts, finalize, and the CSV text.
- `roundtrip.dfy` (`EndToEnd`): lemmas linking the two sides. A mark or a bulk mark is upserted by the server, fetched back and rebuilt; the lemmas state what the rebuilt map shows.

Each `async` handler is split at its first `await`:

- `MarkOne` and `ConfirmBulk` make the synchronous optimistic update and return the request bodies to send.
- `Settle` is the continuation. Its outcome parameter is `Rejected`, or `Accepted(refetch)` where `refetch` is the refetched list or `None` when that fetch failed.
- When a write is rejected, the map is rebuilt from the unchanged records. When it is accepted, the refetched list is installed and the map is rebuilt. If the refetch failed, nothing changes, because `loadAttendance` swallows its own error.

Behaviour of the code worth knowing:

- Statuses are not limited to Present, Absent and Pending. The rebuild upper-cases any stored status other than "On-time", so "Late" shows as LATE. A stored "pending" shows as PENDING; `PendingIffUnrecorded` states this case exactly.
- When several records match (employee, date), the first in list order wins (`FirstRecordDecides`).
- The server strips surrounding whitespace from a status before it checks and stores it, and answers 400 to a status that is empty or only whitespace, or that holds a NUL character. That is what a Django `CharField` without `blank=True` does under a model serializer (`hrms-backend/attendance/models.py:7`).
- A bulk batch counts as failed only when a request is rejected at the network level. Non-ok HTTP answers are not checked in the bulk path, and a refetch follows them.
- The rebuild after a successful bulk mark clears the bulk flag. As a result, a second bulk request right afterwards warns that it will override individual selections (`BulkThenRefetchWarnsOverride`).

## Model

| member | source | states |
|---|---|---|
| Dashboard.SyncedCovers | hrms-frontend/src/dashboard.js:49-58 | After a rebuild there is exactly one entry per roster id. Each entry depends only on the records and the date. No entry is marked as bulk. |
| Dashboard.NoRecordIsPending | hrms-frontend/src/dashboard.js:52-54 | An employee with no record on the selected date is `{PENDING, false}`. |
| Dashboard.FirstRecordDecides | hrms-frontend/src/dashboard.js:52-54 | The first matching record in list order decides the status. "On-time" becomes PRESENT. Any other status is upper-cased. |
| Dashboard.PendingIffUnrecorded | hrms-frontend/src/dashboard.js:52-54 | An entry is PENDING exactly when the employee has no record for the date, or the first record's status upper-cases to PENDING. "On-time" never does. |
| Dashboard.AttendanceBoard.constructor | hrms-frontend/src/dashboard.js:12-18 | Starts with an empty roster, records and map, the given date, and a closed dialog. |
| Dashboard.AttendanceBoard.Sync | hrms-frontend/src/dashboard.js:49-59 | The loop installs exactly `Synced(employees, records, selectedDate)`. The result does not depend on the previous map, so syncing twice gives the same map. |
| Dashboard.AttendanceBoard.Load | hrms-frontend/src/dashboard.js:32-47 | Each list is replaced only when its fetch succeeds. If either list changed, the map is rebuilt; otherwise it is untouched. |
| Dashboard.AttendanceBoard.SelectDate | hrms-frontend/src/dashboard.js:45-47 | Picking a different date rebuilds the map for that date. Picking the same date changes nothing. |
| Dashboard.AttendanceBoard.MarkOne | hrms-frontend/src/dashboard.js:122-138 | Only `state[id]` changes, to `{ToUpper(status), false}`; every other entry is kept. The returned body is the write for that employee, date and status. |
| Dashboard.AttendanceBoard.Settle | hrms-frontend/src/dashboard.js:140-144 | A rejected write leaves the records alone and resets the map to their rebuild. An accepted write with a refetch installs the new list and its rebuild. An accepted write whose refetch failed changes nothing. |
| Dashboard.AttendanceBoard.RequestBulk | hrms-frontend/src/dashboard.js:163-167 | Opens the dialog with the requested status. `override` is true exactly when some entry is non-PENDING and not bulk-set. The map is not touched. |
| Dashboard.AttendanceBoard.CancelBulk | hrms-frontend/src/dashboard.js:535 | Closes the dialog and resets its status and flag. Nothing else changes. |
| Dashboard.AttendanceBoard.ConfirmBulk | hrms-frontend/src/dashboard.js:169-192 | Closes the dialog. Sets the map to `BulkApplied` of the old map, the roster and the dialog's status. Returns exactly `BulkWrites` of the roster, the date and that status: one write per roster employee, in roster order. `BulkRoundTrip` is about this batch. |
| Dashboard.BulkAppliedSpec | hrms-frontend/src/dashboard.js:174-177 | A bulk mark gives every roster id `{ToUpper(status), true}`. It keeps every entry whose id is not on the roster. Its keys are the old keys plus the roster ids. |
| Dashboard.BulkLeavesNoIndividuals | hrms-frontend/src/dashboard.js:163-177 | Once a bulk mark covers every entry, a new bulk request raises no override warning. |
| Dashboard.MarkRaisesOverride | hrms-frontend/src/dashboard.js:124-127 | After an individual mark with a non-PENDING status, the override condition holds. |
| Records.FirstFor | hrms-backend/attendance/views.py:16 | Returns the index of the first record for the pair, with no earlier match. Returns nothing exactly when no record matches. |
| Records.FindRecord | hrms-frontend/src/dashboard.js:52 | `find` returns nothing exactly when no record matches. Otherwise it returns the earliest matching record. |
| Records.FirstForUnique | hrms-backend/attendance/views.py:16 | When records are unique per (employee, date), the first match for a record's pair is that record. |
| Store.Upsert | hrms-backend/attendance/views.py:11-26 | The answer is 200, 201 or 400. A 400 leaves the table and carries no record. A 200 keeps the length; a 201 adds exactly one row. 400 is given exactly when the applicable validation fails: an unknown employee, or a status that is blank or too long once stripped or holds a NUL character, and for a new row also a missing employee, date or status. |
| Store.UpdateInPlace | hrms-backend/attendance/views.py:16-23 | With an existing record, the first match is patched in place and answered with 200. No row is added and every other row is untouched, including later duplicates. |
| Store.CreateNew | hrms-backend/attendance/views.py:25-26 | With no record for the pair, a valid body appends exactly one new row and answers 201 with it. |
| Store.PartialUpdateKeeps | hrms-backend/attendance/views.py:20-22 | The update is partial. Status, check-in and check-out left out of the body keep their stored values, and the key fields stay those of the matched row. |
| Store.OtherPairsUnchanged | hrms-backend/attendance/views.py:16-26 | Rows for any other (employee, date) pair are unchanged by either branch. |
| Store.UpsertKeepsUnique | hrms-backend/attendance/views.py:16-26 | If the table had at most one row per (employee, date) before the request, it still has after it. |
| Store.UpsertKeepsKnown | hrms-backend/attendance/views.py:20-26 | No request makes a row point at an unknown employee. |
| Store.UpsertIdempotent | hrms-backend/attendance/views.py:16-23 | Posting the same body twice leaves the table as posting it once. |
| Store.UpsertAccepts | hrms-backend/attendance/views.py:20-26 | A full body with a known employee and a status that, stripped, is non-empty and fits its column, and holds no NUL character, is never answered 400. |
| Store.BlankStatusRejected | hrms-backend/attendance/models.py:7 | A body whose status is empty or only whitespace is answered 400 with no record, and the table is unchanged, whichever branch the request takes. |
| Store.NulStatusRejected | hrms-backend/attendance/models.py:7 | A body whose status holds a NUL character is answered 400 with no record, and the table is unchanged, whichever branch the request takes. |
| Store.UniqueRowUpdated | hrms-backend/attendance/views.py:16-23 | When the table has one row per (employee, date), a valid body for the pair of any row updates that very row in place and answers 200 with it. |
| Store.UpdatedRowIsOnly | hrms-backend/attendance/views.py:16-23 | When the table has one row per (employee, date), the record a 200 answer carries is afterwards the only row for its pair. |
| Store.StatusStoredStripped | hrms-backend/attendance/models.py:7 | An accepted body's status is stored and answered without its surrounding whitespace, and that stored status fits the 20-character column. |
| Store.AttendanceStore.Create | hrms-backend/attendance/views.py:11-26 | The query, then the in-place save or the insert, gives exactly `Upsert`'s table and answer. It keeps the table unique per (employee, date) and free of unknown employees, so the record a 200 answer carries is the only row for its pair. |
| EndToEnd.UpsertFindsWritten | hrms-backend/attendance/views.py:16-26 | After an accepted write, `find` on the written pair returns the written status, stripped, and the written check-in, whichever branch the server took. |
| EndToEnd.UpsertFindsOthersUnchanged | hrms-backend/attendance/views.py:16-26 | A write for one pair does not change what `find` returns for any other pair. |
| EndToEnd.MarkRoundTrip | hrms-frontend/src/dashboard.js:122-141 | For every status the server accepts other than "On-time", mark, then upsert, then rebuild gives `{ToUpper(Strip(status)), false}`: the optimistic entry whenever the status has no surrounding whitespace. The stored record has status "On-time" for "Present", and a null check-in exactly for "Absent". |
| EndToEnd.BlankMarkRejected | hrms-frontend/src/dashboard.js:122-145 | A mark with a blank status is answered 400 and leaves the table unchanged, so its continuation is the revert by rebuild. |
| EndToEnd.EncodedReadsBack | hrms-frontend/src/dashboard.js:54 | The status a mark stores reads back in the rebuild as the upper-cased stripped status; "Present", sent as "On-time", reads back as PRESENT. |
| EndToEnd.OnTimeMarkReadsBackPresent | hrms-frontend/src/dashboard.js:126-136 | A direct "On-time" mark shows ON-TIME first and PRESENT after the rebuild: the one status that does not round-trip. |
| EndToEnd.ApplyAllFind | hrms-frontend/src/dashboard.js:181-195 | After a batch of accepted writes with one status, `find` gives that status and check-in for every written employee. It gives the old answer for everyone else. |
| EndToEnd.BulkRoundTrip | hrms-frontend/src/dashboard.js:169-195 | After the batch `ConfirmBulk` returns is upserted and refetched, the rebuild gives every roster id the bulk status (upper-cased, stripped), with the bulk flag cleared. |
| EndToEnd.BulkThenRefetchWarnsOverride | hrms-frontend/src/dashboard.js:163-198 | After a successful bulk mark and refetch, the next bulk request raises the override warning. |
| EndToEnd.MarkMovesDayCounts | hrms-frontend/src/dashboard.js:119-120 | An accepted mark changes the date's present and absent counts by exactly the record it replaces and the record it writes. |
| EndToEnd.ScenarioMaps | hrms-frontend/src/dashboard.js:49-58 | Two employees with no records rebuild to PENDING. A bulk "Absent" over one individual Present sets both to ABSENT with the bulk flag. |
| EndToEnd.FinalizeScenario | hrms-frontend/src/dashboard.js:148-160 | Three employees with one PENDING get no summary. After that employee is marked, the summary is two present and one absent out of three. |
| DashboardViews.Filter | hrms-frontend/src/dashboard.js:85-89 | The result is no longer than the input. An element is in the result exactly when it is in the input and satisfies the predicate. |
| DashboardViews.EmptySearchShowsAll | hrms-frontend/src/dashboard.js:85-89 | An empty search term keeps the whole roster, in order, on both tabs. |
| DashboardViews.AttendanceNarrowsDirectory | hrms-frontend/src/dashboard.js:323-326 | The attendance tab's result is the employees tab's result filtered on name or code only. |
| DashboardViews.DayCountsBounded | hrms-frontend/src/dashboard.js:226-227 | The present and absent counts of a date never count one record twice. Their sum is at most the number of records on that date. |
| DashboardViews.Finalize | hrms-frontend/src/dashboard.js:148-160 | There is no summary exactly when an entry is PENDING. Otherwise absent is the ABSENT count, and present is the PRESENT count when that is non-zero and the ON-TIME count otherwise. Their sum is at most the number of entries. |
| DashboardViews.GateAgreement | hrms-frontend/src/dashboard.js:492-500 | When the map has one entry per roster employee, the button is enabled exactly when finalize produces a summary. |
| DashboardViews.SyncedGateAgreement | hrms-frontend/src/dashboard.js:476-500 | Right after a rebuild from a roster with distinct ids, the marked-progress test and the finalize gate agree. |
| DashboardViews.CsvRowCells | hrms-frontend/src/dashboard.js:207 | A CSV row splits back into date, status, check-in and check-out when no cell holds a comma. A null time prints as "null". |
| DashboardViews.CsvTextLines | hrms-frontend/src/dashboard.js:205-207 | The report's lines are the header, then one row per record of that employee in list order. An employee with no records gets the header and one empty line. |
| Text.ToUpper | hrms-frontend/src/dashboard.js:54 | Upper-casing keeps the length, leaves no lower-case letter, and changes nothing but case: lower-casing the result gives the lower-cased input. |
| Text.StripSpec | hrms-backend/attendance/models.py:7 | The stripped status is empty exactly when the status is blank. It neither starts nor ends with whitespace, is no longer than the status, and equals the status when that has no surrounding whitespace. It is the status with a blank prefix and a blank suffix cut off. |
| Text.Contains | hrms-frontend/src/dashboard.js:86-88 | `includes` holds exactly when the term occurs at some position. |

## Left out

- Network calls are not modelled: `fetch`, `Promise.all` interleaving and React effect scheduling. Each write is an outcome parameter, and a bulk batch is "all accepted" or "some rejected". The server applies a batch in roster order (`ApplyAll`); other interleavings are not modelled.
- Clock and date work is not modelled. The check-in time is one opaque clock reading per mark, and one per batch rather than one per employee. Dates are opaque strings. The last-7-days chart window is left out.
- Display-only state is not modelled: the `loading` and `error` flags, alert texts, JSX, colours, icons, charts, tabs and routing.
- The rounded percentage uses floating point and is left out.
- `encodeURI`, the `data:` prefix and the DOM download of the report are left out. Only the CSV text is modelled.
- Adding employees (`addEmployee`) and loading shifts are left out. Neither touches attendance reconciliation.
- The bulk-applied banner test, which is display-only, is left out.
- Case mapping and search are ASCII only. JavaScript's Unicode `toUpperCase` and `toLowerCase` are not modelled.
- Ids are one string type compared by equality. The model does not capture that the API serialises employee `id` as a string while the attendance record's `employee` key is serialised by default. On the wire the strict comparison in the rebuild may therefore never match.
- Serializer validation covers a missing required field, an unknown employee, a status that is blank or over-long once stripped, and a status holding a NUL character. Date and time format parsing, and the DRF response body's extra fields (`id`, `employee_details`), are left out. A 400 answer is modelled with no record; its error body is not modelled.
- Text.Strip: only ASCII whitespace is stripped. Python's `str.strip` also removes Unicode spaces such as U+0085 and U+00A0, and this is not modelled.
- Store.Upsert: the unique-together validator that the serializer derives from `unique_together` is not modelled. It could only refuse an update when the table already held a second row for the pair, and the table's own constraint (`UniquePerDay`, kept by `UpsertKeepsUnique`) rules that out.
- The form and list pages, the axios setup, the employee views, and the seed and cleanup scripts are left out. They are UI or database tooling outside the reconciliation core.
