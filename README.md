# GateBuddy gate management, modelled in Dafny

GateBuddy is a web application for the security desk of a residential
society (a housing complex). A secretary signs in and runs the society
from a console. The console has these screens:

- a dashboard with today's counts and a link for the gate terminal;
- a register of residents;
- a register of regular staff (maids, drivers) with check-in and check-out;
- a delivery log;
- a notice board;
- an emergency panel;
- weekly reports;
- settings that wipe logs, reset the society or delete it.

The guard at the gate uses a separate terminal page, opened through a
link that carries the society id. On it the guard registers a guest or a
delivery, waits for the resident's decision, and toggles staff in and out.

This project models those screens and the store they share:

- **The store.** The hosted database is modelled as a value of type
  `Store.Tables`. It has one sequence per table and a `serial` counter
  that hands out ids and creation times.
- **Store operations.** Every insert, update and delete the screens issue
  is a method on `Store.Db`, the one mutable store.
- **Screens.** Each screen is a class. Its fields are the screen's state
  variables. Its methods are the screen's event handlers, and their
  contracts state the new state.
- **Queries.** Each query a screen runs is a specification function. Its
  ordering, scoping and limits are proved as lemmas.

The modules follow the source files:

| module | models |
|---|---|
| `Types` | `types.ts`: the record types and their enumerations |
| `Store` | the tables and the insert, update and delete operations of the hosted database |
| `VisitorEntryForm` | the guard terminal |
| `StaffManagement` | the staff register |
| `DeliveryLog` | the delivery log |
| `Dashboard` | the console dashboard |
| `Reports` | the weekly report |
| `Settings` | the settings screen |
| `ResidentManager` | the resident register |
| `NoticeBoard` | the notice board |
| `EmergencyPanel` | the emergency panel |
| `Text`, `Lists` | the string and array built-ins that the screens use, with their laws |
| `Wrappers` | `Option` |

Main results:

- **Society isolation.** Deleting a table's rows for one society empties
  that society's view of the table and leaves every other society's view
  unchanged (`Store.DeleteScoped`). Each settings action has the same
  property (`Settings.OthersUntouched`).
- **Terminal state machine.** The terminal's mode moves only along the
  transitions the handlers perform. ERROR is reached only at mount, when
  the link has no society id, and nothing leaves it
  (`VisitorEntryForm.ErrorAbsorbing`).
- **Visitor submission.** A submission either fails and changes nothing,
  or records exactly one new entry whose status is the resident's
  decision (`VisitorEntryForm.Terminal.Submit`).
- **Flat lists.** The comma-separated list of flats parses back to the
  flats it was written from (`StaffManagement.ParseFlatsRoundTrip`).
- **Delivery tabs.** The two delivery tabs are disjoint. Together with
  the rejected entries they account for every delivery
  (`DeliveryLog.TabsPartition`). Marking an item received moves it from
  the pending tab to the log (`DeliveryLog.MarkMovesToLog`).
- **Weekly report.** The report has seven rows, Sunday to Saturday, whose
  counts add up to the number of entries (`Reports.AggregateTotal`).
- **Newest-first lists.** The dashboard's five newest entries, the notice
  board and the emergency history are newest-first and scoped to the
  society. A new notice or alert appears on top
  (`NoticeBoard.PostedOnTop`, `EmergencyPanel.TriggeredOnTop`).

## Model

| member | source | states |
|---|---|---|
| Types.Flip | components/StaffManagement.tsx:51 | toggling a staff status always yields the other status |
| Text.Trim | components/StaffManagement.tsx:34 | the result is the slice of the input left after dropping whitespace at both ends: it has no leading or trailing whitespace, and everything cut off before and after it is whitespace |
| Text.TrimTrimmed | components/StaffManagement.tsx:34 | trimming a string that is already trimmed changes nothing |
| Text.Split | components/StaffManagement.tsx:34 | splitting yields at least one piece, no piece holds the separator, and joining the pieces with the separator gives back the input |
| Text.Join | components/VisitorEntry.tsx:206 | joining a non-empty list gives the parts' total length plus one separator between each pair |
| Text.SplitAtSeparator | components/StaffManagement.tsx:34 | a string split at its first separator gives the part before it followed by the split of the rest |
| Text.Lower | components/VisitorEntry.tsx:202 | lower-casing keeps the length and maps each character to its ASCII lower case |
| Text.ToLower | components/VisitorEntry.tsx:202 | an upper-case ASCII letter maps to its lower-case letter, 32 code points up; every other character is kept |
| Text.Includes | components/VisitorEntry.tsx:202 | the search test holds exactly when the needle occurs at some position of the haystack |
| Text.IncludesEmpty | components/VisitorEntry.tsx:202 | the empty query occurs in every string |
| Text.TextLeTotal | components/StaffManagement.tsx:26 | the ordering used for `order('name')` relates every pair of strings |
| Text.TextLeTransitive | components/StaffManagement.tsx:26 | the ordering used for `order('name')` is transitive |
| Lists.Filter | components/DeliveryLog.tsx:40-41 | a filtered array holds exactly the elements of the input that satisfy the predicate, and is no longer |
| Lists.FilterRejectLength | components/Dashboard.tsx:71-72 | the elements kept by a predicate and those kept by its negation together number the whole array |
| Lists.FilterAppend | components/DeliveryLog.tsx:40-41 | filtering distributes over concatenation |
| Lists.RejectAppend | components/Reports.tsx:33 | dropping the rows that pass a test distributes over concatenation |
| Lists.FilterAscending | components/NoticeBoard.tsx:22-26 | filtering keeps an ascending order |
| Lists.ReverseAscending | components/NoticeBoard.tsx:26 | reversing an ascending array gives a descending one |
| Lists.Take | components/Dashboard.tsx:64 | `limit(n)` keeps the first n rows, or all of them when there are fewer |
| Lists.SortBy | components/ResidentManager.tsx:26 | ordering by a text column yields a sorted permutation of the rows |
| Lists.AscendingUnique | components/ResidentManager.tsx:35 | in a table ordered by id, one id names one row |
| Store.Scoped | components/DeliveryLog.tsx:24 | `eq('society_id', sid)` returns exactly the rows of that society |
| Store.Unscoped | components/Settings.tsx:19 | `delete().eq('society_id', sid)` leaves exactly the rows of other societies |
| Store.UnscopedKeepsOthers | components/Settings.tsx:19 | deleting one society's rows keeps every row of any other society |
| Store.UnscopedClears | components/Settings.tsx:19 | after deleting one society's rows, none of its rows remain |
| Store.NewestFirstDescending | components/NoticeBoard.tsx:26 | the rows of a society in `created_at` descending order are newest first |
| Store.NewestFirst | components/NoticeBoard.tsx:26 | a society's rows in `created_at` descending order: the same count and exactly the society's rows |
| Store.NewestFirstAppend | components/NoticeBoard.tsx:40-48 | a row inserted for the society comes first in its newest-first list |
| Store.NewestFirstTake | components/Dashboard.tsx:60-64 | the first `n` of a society's rows newest first belong to the society and, on a table in creation order, are descending; a row of the society left out means more than `n` rows exist and it is older than the last one taken |
| Store.DeleteScoped | components/Settings.tsx:19-21 | deleting a table for one society empties that table in its view and leaves every other society's view unchanged |
| Store.Delete | components/Settings.tsx:62-70 | a scoped delete keeps the id counter, only removes rows, and leaves none of the society's rows in the named table (the societies table is matched on `id`) |
| Store.DeleteWellFormed | components/Settings.tsx:19-21 | a delete keeps every table ordered by id and creation time |
| Store.SetVisitorStatus | components/VisitorEntry.tsx:65-67 | updating a visitor's status by id changes only that row's status |
| Store.SetStaffStatus | components/VisitorEntry.tsx:75 | updating a staff status by id changes only that row's status |
| Store.SetStaffAttendance | components/StaffManagement.tsx:54-56 | updating status and last check-in by id changes only those fields of that row |
| Store.UpdateResidentRow | components/ResidentManager.tsx:35 | updating a resident by id replaces only that row's name, flat and WhatsApp number |
| Store.StaffRoster | components/VisitorEntry.tsx:38 | a society's staff ordered by name: sorted, and exactly its staff rows |
| Store.SetStatusOfNewest | components/VisitorEntry.tsx:46-67 | updating the status of the row just inserted changes only that last row |
| Store.Db.constructor | types.ts:1-51 | the store starts with empty tables |
| Store.Db.InsertVisitor | components/VisitorEntry.tsx:46-55 | appends one PENDING entry with a fresh id and creation time; nothing else changes |
| Store.Db.InsertStaff | components/StaffManagement.tsx:36-43 | appends one staff row with a fresh id; nothing else changes |
| Store.Db.InsertResident | components/ResidentManager.tsx:37 | appends one resident row with a fresh id; nothing else changes |
| Store.Db.InsertNotice | components/NoticeBoard.tsx:40-45 | appends one notice with a fresh id and creation time; nothing else changes |
| Store.Db.InsertEmergency | components/EmergencyPanel.tsx:30-34 | appends one emergency with a fresh id and creation time; nothing else changes |
| Store.Db.UpdateVisitorStatus | components/VisitorEntry.tsx:65-67 | the visitors table becomes its status update; the other tables are unchanged |
| Store.Db.UpdateStaffStatus | components/VisitorEntry.tsx:75 | the staff table becomes its status update; the other tables are unchanged |
| Store.Db.UpdateStaffAttendance | components/StaffManagement.tsx:54-56 | the staff table becomes its status and check-in update; the other tables are unchanged |
| Store.Db.UpdateResident | components/ResidentManager.tsx:35 | the residents table becomes its update; the other tables are unchanged |
| Store.Db.DeleteWhere | components/Settings.tsx:19 | the store becomes the delete of that table for that society |
| VisitorEntryForm.ErrorAbsorbing | components/VisitorEntry.tsx:86-96 | once the terminal shows ERROR it never shows anything else |
| VisitorEntryForm.Step | components/VisitorEntry.tsx:33-111 | every mode change the handlers make leaves the mode it starts from, never enters or leaves ERROR, and never goes from LOADING straight back to SELECT |
| VisitorEntryForm.ErrorOnlyAtMount | components/VisitorEntry.tsx:20-26 | a trace that starts in ERROR consists of that state alone |
| VisitorEntryForm.SocietyName | components/VisitorEntry.tsx:28-31 | `.single()`: when exactly one society row has the id the header is that row's name, otherwise "GateBuddy Terminal" |
| VisitorEntryForm.SocietyNameUnique | components/VisitorEntry.tsx:28-31 | a society whose id no other row holds is shown under its own name |
| VisitorEntryForm.SocietyNameAmbiguous | components/VisitorEntry.tsx:29 | two rows with the same id make `.single()` fail and the default header stays |
| VisitorEntryForm.Verdict | components/VisitorEntry.tsx:66 | the stored status is APPROVED exactly when the resident approved, and REJECTED otherwise |
| VisitorEntryForm.PendingEntry | components/VisitorEntry.tsx:46-55 | the inserted entry carries the society, the form's flat, name and purpose, the chosen type, no resident and status PENDING |
| VisitorEntryForm.Listed | components/VisitorEntry.tsx:202 | the staff shown are exactly those whose name or role contains the query, ignoring case |
| VisitorEntryForm.ListedMeans | components/VisitorEntry.tsx:202 | a staff member is shown exactly when the lower-cased name or role includes the lower-cased query |
| VisitorEntryForm.EmptySearchListsAll | components/VisitorEntry.tsx:202 | with an empty search the whole roster is shown in order |
| VisitorEntryForm.Terminal.constructor | components/VisitorEntry.tsx:12-26 | without a society id the terminal is in ERROR, otherwise in SELECT with the society's name and an empty form; the name is a constant, so no later step changes the header |
| VisitorEntryForm.Terminal.ChooseVisitorType | components/VisitorEntry.tsx:121-134 | the Guest and Delivery buttons set the type and open the form; nothing else changes |
| VisitorEntryForm.Terminal.ChooseStaff | components/VisitorEntry.tsx:33-40 | the Staff button opens the staff view holding the society's staff ordered by name |
| VisitorEntryForm.Terminal.SetFlat | components/VisitorEntry.tsx:173 | typing the flat changes only the flat field |
| VisitorEntryForm.Terminal.SetName | components/VisitorEntry.tsx:177 | typing the name changes only the name field |
| VisitorEntryForm.Terminal.SetSearch | components/VisitorEntry.tsx:193-198 | typing in the search box changes only the query |
| VisitorEntryForm.Terminal.Submit | components/VisitorEntry.tsx:42-71 | passes through LOADING; a failed insert returns to FORM and changes nothing stored; otherwise exactly one entry is added, its status set to the resident's verdict, and the result is shown |
| VisitorEntryForm.Terminal.Reset | components/VisitorEntry.tsx:79-84 | back to SELECT with an empty form, no result and an empty search |
| VisitorEntryForm.Terminal.ToggleStaff | components/VisitorEntry.tsx:73-77 | the listed staff member's status flips in the store, then the terminal resets |
| StaffManagement.Clean | components/StaffManagement.tsx:34 | the cleaned pieces are non-empty, trimmed, and each is the trim of an input piece |
| StaffManagement.ParseFlats | components/StaffManagement.tsx:34 | every parsed flat is non-empty, trimmed and free of commas |
| StaffManagement.ParseJoined | components/StaffManagement.tsx:34 | flats joined with ", " (after an optional leading space) parse back to the same flats |
| StaffManagement.ParseFlatsRoundTrip | components/StaffManagement.tsx:34 | parsing the comma-joined list of clean flats gives back that list |
| StaffManagement.FlipInvolutive | components/StaffManagement.tsx:51 | toggling twice restores the status |
| StaffManagement.CheckInStamp | components/StaffManagement.tsx:52 | checking in stamps the current time; checking out keeps the previous check-in |
| StaffManagement.ToggledRow | components/StaffManagement.tsx:50-56 | after a toggle the row's status is flipped and its check-in follows the stamp rule |
| StaffManagement.NewStaffRow | components/StaffManagement.tsx:36-43 | a new staff member starts Out, never checked in, in the society, with parsed flats |
| StaffManagement.StaffRegister.constructor | components/StaffManagement.tsx:10-18 | the register loads the society's staff ordered by name, with the add form hidden and empty |
| StaffManagement.StaffRegister.FetchStaff | components/StaffManagement.tsx:20-30 | the list becomes the society's staff ordered by name and loading ends |
| StaffManagement.StaffRegister.ToggleAddForm | components/StaffManagement.tsx:69 | the add form's visibility flips |
| StaffManagement.StaffRegister.EditNewStaff | components/StaffManagement.tsx:83-95 | typing in the add form changes only the form |
| StaffManagement.StaffRegister.HandleAddStaff | components/StaffManagement.tsx:32-48 | exactly one new staff row is stored, the form is cleared and hidden, and the new row appears in the reloaded list |
| StaffManagement.StaffRegister.ToggleStatus | components/StaffManagement.tsx:50-59 | the staff member's status flips with the check-in stamp rule, and the list reloads |
| DeliveryLog.DeliveriesOf | components/DeliveryLog.tsx:19-30 | exactly the society's Delivery entries, newest first |
| DeliveryLog.Pending | components/DeliveryLog.tsx:40 | the active tab holds exactly the PENDING and APPROVED deliveries |
| DeliveryLog.Completed | components/DeliveryLog.tsx:41 | the log tab holds exactly the CHECKED_IN and CHECKED_OUT deliveries |
| DeliveryLog.TabsDisjoint | components/DeliveryLog.tsx:40-41 | no delivery is on both tabs, and a rejected delivery is on neither |
| DeliveryLog.TabsPartition | components/DeliveryLog.tsx:40-41 | the two tab counts plus the rejected deliveries add up to all deliveries |
| DeliveryLog.ReceivedOffers | components/DeliveryLog.tsx:92-98 | every active item offers RECEIVED; a logged item offers it exactly when it is CHECKED_OUT |
| DeliveryLog.OffersReceived | components/DeliveryLog.tsx:92 | the RECEIVED button shows for every status but CHECKED_IN |
| DeliveryLog.MarkedDelivered | components/DeliveryLog.tsx:32-36 | the entry with the id becomes CHECKED_IN; every other row and table is unchanged |
| DeliveryLog.MarkMovesToLog | components/DeliveryLog.tsx:32-41 | a pending delivery marked received leaves the active tab and appears, CHECKED_IN, on the log tab |
| DeliveryLog.Desk.Shown | components/DeliveryLog.tsx:74 | the cards shown are deliveries of the loaded list |
| DeliveryLog.Desk.constructor | components/DeliveryLog.tsx:10-17 | the desk opens on the pending tab with the society's deliveries loaded |
| DeliveryLog.Desk.FetchDeliveries | components/DeliveryLog.tsx:19-30 | the list becomes the society's deliveries, newest first |
| DeliveryLog.Desk.SetActiveTab | components/DeliveryLog.tsx:53-70 | switching tabs changes only the active tab |
| DeliveryLog.Desk.MarkDelivered | components/DeliveryLog.tsx:32-38 | the store becomes the CHECKED_IN update of the item, and the list reloads |
| Dashboard.BeforeFirst | components/Dashboard.tsx:28 | the result is the longest prefix without the separator |
| Dashboard.BeforeFirstIsFirstPiece | components/Dashboard.tsx:28 | `split(c)[0]` is the prefix before the first separator |
| Dashboard.StripTrailingSlashes | components/Dashboard.tsx:28 | removes exactly the trailing run of slashes |
| Dashboard.StripBlobPrefix | components/Dashboard.tsx:30 | removes a leading "blob:" and nothing else |
| Dashboard.NormalizeBase | components/Dashboard.tsx:39 | the base with its trailing slashes removed, and then a leading "blob:" removed when there is one; it never ends in a slash |
| Dashboard.DetectBase | components/Dashboard.tsx:27-32 | the detected base is the normalised prefix of the address up to its first '#' or '?' (the whole address when it has neither); it does not end in a slash |
| Dashboard.TerminalLink | components/Dashboard.tsx:37-41 | the link is "#" exactly when there is no society id |
| Dashboard.TerminalLinkShape | components/Dashboard.tsx:39-40 | otherwise it is the normalised base, which has no trailing slash, then "/#/entry?sid=", then the society id |
| Dashboard.IsBlobUrl | components/Dashboard.tsx:44 | the blob warning shows exactly when "blob:" occurs in the link |
| Dashboard.CopiedText | components/Dashboard.tsx:83-87 | the placeholder link is never copied; any other link is copied unchanged |
| Dashboard.VisitorCount | components/Dashboard.tsx:71 | no data, or no rows, counts zero; otherwise the count is at most the rows returned |
| Dashboard.DeliveryCount | components/Dashboard.tsx:72 | no data, or no rows, counts zero; otherwise the count is at most the rows returned |
| Dashboard.CountsCons | components/Dashboard.tsx:71-72 | one more row adds one to the delivery count when it is a Delivery and one to the visitor count otherwise |
| Dashboard.CountsPartition | components/Dashboard.tsx:71-72 | visitors plus deliveries equals the rows returned |
| Dashboard.TodaysEntries | components/Dashboard.tsx:52-59 | exactly the society's entries created at or after midnight |
| Dashboard.StaffInCount | components/Dashboard.tsx:65-68 | no staff counts zero; the staff-in count is at most the society's staff |
| Dashboard.StaffInCountAppend | components/Dashboard.tsx:65-68 | one more staff row adds one to the count exactly when it belongs to the society and is In |
| Dashboard.RecentEntries | components/Dashboard.tsx:60-64 | the society's five newest entries (all of them when there are fewer), newest first; an entry of the society not shown is older than the fifth shown |
| Dashboard.RecentAreNewest | components/Dashboard.tsx:60-64 | an entry newer than the fifth shown is among those shown |
| Dashboard.Console.GuardLink | components/Dashboard.tsx:43 | the guard link is "#" exactly when there is no society id |
| Dashboard.Console.constructor | components/Dashboard.tsx:19-32 | the base is detected from the page address, and the data loads when there is a society id |
| Dashboard.Console.FetchDashboardData | components/Dashboard.tsx:51-81 | the stats and recent entries are reloaded; visitors plus deliveries equals today's entries |
| Dashboard.Console.SetManualBaseUrl | components/Dashboard.tsx:206-207 | editing the base changes only the base |
| Dashboard.Console.CopyGuardLink | components/Dashboard.tsx:83-87 | nothing is copied without a society id; otherwise the guard link is copied |
| Reports.DayEntries | components/Reports.tsx:26-29 | exactly the entries whose creation weekday has the day's name, or none without data |
| Reports.RowFor | components/Reports.tsx:31-35 | the row carries the day's name, and its two counts add up to the day's entries |
| Reports.Aggregate | components/Reports.tsx:24-36 | seven rows, named Sun to Sat in order |
| Reports.DaysDistinct | components/Reports.tsx:24 | the seven day names are pairwise different |
| Reports.SevenDays | components/Reports.tsx:24-29 | every entry falls on exactly one of the seven days |
| Reports.AggregateTotal | components/Reports.tsx:18-36 | the counts of the seven rows add up to the number of entries fetched |
| Reports.NoDataAllZero | components/Reports.tsx:29 | without data, or with no rows, every weekday's row counts zero |
| Reports.RowCounts | components/Reports.tsx:33-34 | one more entry adds one to its own weekday's deliveries when it is a Delivery and to its visitors otherwise; every other weekday is unchanged |
| Reports.ReportsScreen.constructor | components/Reports.tsx:10-16 | the screen loads the aggregate of the society's entries |
| Reports.ReportsScreen.FetchAggregates | components/Reports.tsx:18-40 | the data becomes the aggregate of the society's entries and loading ends |
| Settings.DeleteAllEmpties | components/Settings.tsx:18-22 | deleting a list of tables for the society empties exactly those tables in its view |
| Settings.DeleteAll | components/Settings.tsx:38-44 | deleting several tables together keeps the id counter and only removes rows, from every table |
| Settings.DeleteAllIsolated | components/Settings.tsx:18-22 | deleting for one society leaves every other society's view unchanged |
| Settings.DeleteAllKeeps | components/Settings.tsx:18-22 | tables not in the list are untouched |
| Settings.ClearLogsEffect | components/Settings.tsx:13-31 | clearing logs empties the society's visitor entries, notices and emergencies and keeps its residents and staff |
| Settings.ResetAllEffect | components/Settings.tsx:33-53 | a reset empties all five data tables of the society and keeps the society row |
| Settings.DeleteSocietyEffect | components/Settings.tsx:55-78 | deleting the society leaves nothing of it, its own row included |
| Settings.OthersUntouched | components/Settings.tsx:13-78 | none of the three actions changes another society's data |
| Settings.SettingsScreen.constructor | components/Settings.tsx:10-11 | not loading, signed in |
| Settings.SettingsScreen.DeleteTables | components/Settings.tsx:18-22 | the loop of deletes yields the same store as deleting the whole list, with loading on then off |
| Settings.SettingsScreen.ClearLogs | components/Settings.tsx:13-31 | unconfirmed: nothing changes; confirmed: the log tables are deleted for the society |
| Settings.SettingsScreen.ResetAllData | components/Settings.tsx:33-53 | unconfirmed: nothing changes; confirmed: the data tables are deleted for the society |
| Settings.SettingsScreen.DeleteSociety | components/Settings.tsx:55-78 | unconfirmed: nothing changes; confirmed: the data tables and the society row are deleted and the user is signed out |
| ResidentManager.ResidentList | components/ResidentManager.tsx:20-30 | the society's residents ordered by flat number, as a permutation of its rows |
| ResidentManager.FormOf | components/ResidentManager.tsx:46-50 | the edit form holds the resident's name, flat and WhatsApp number |
| ResidentManager.EditSaveUnchanged | components/ResidentManager.tsx:44-51 | saving an edit without changes leaves the table as it was |
| ResidentManager.EditSaveTouchesOne | components/ResidentManager.tsx:35 | saving an edit rewrites only the edited resident's row |
| ResidentManager.Register.constructor | components/ResidentManager.tsx:10-18 | the register loads the society's residents with no edit in progress |
| ResidentManager.Register.FetchResidents | components/ResidentManager.tsx:20-30 | the list becomes the society's residents ordered by flat |
| ResidentManager.Register.EditForm | components/ResidentManager.tsx:65-91 | typing changes only the form |
| ResidentManager.Register.HandleSave | components/ResidentManager.tsx:32-42 | while editing, the edited row is updated; otherwise one resident is inserted; then the form clears and the list reloads |
| ResidentManager.Register.HandleEdit | components/ResidentManager.tsx:44-51 | edit mode is entered for that resident with the form filled from the row |
| ResidentManager.Register.Cancel | components/ResidentManager.tsx:97-99 | edit mode is left and the form is cleared |
| NoticeBoard.NoticeTitle | components/NoticeBoard.tsx:42 | the title is the topic, or "Important Update" when the topic is empty |
| NoticeBoard.NoticesOf | components/NoticeBoard.tsx:21-28 | exactly the society's notices, newest first |
| NoticeBoard.PostedOnTop | components/NoticeBoard.tsx:38-49 | a new notice heads the society's list, above the old list |
| NoticeBoard.Board.constructor | components/NoticeBoard.tsx:11-19 | the board loads the society's notices with an empty topic and draft |
| NoticeBoard.Board.SetTopic | components/NoticeBoard.tsx:65-70 | typing changes only the topic |
| NoticeBoard.Board.HandleDraft | components/NoticeBoard.tsx:30-36 | no topic: nothing happens; otherwise the draft becomes the generated text, or empty |
| NoticeBoard.Board.PostNotice | components/NoticeBoard.tsx:38-49 | no draft: nothing happens; otherwise one notice is stored, it heads the list, and the draft and topic clear |
| EmergencyPanel.Description | components/EmergencyPanel.tsx:39-43 | each kind has its description among the three buttons |
| EmergencyPanel.ButtonsOnePerKind | components/EmergencyPanel.tsx:39-43 | the three buttons have distinct kinds and distinct descriptions |
| EmergencyPanel.History | components/EmergencyPanel.tsx:17-25 | the society's ten newest emergencies (all of them when there are fewer), newest first; an alert of the society not shown is older than the tenth shown |
| EmergencyPanel.TriggeredOnTop | components/EmergencyPanel.tsx:27-37 | an alert just raised heads the history |
| EmergencyPanel.Panel.constructor | components/EmergencyPanel.tsx:9-15 | no active alert, with the society's history loaded |
| EmergencyPanel.Panel.HandleTrigger | components/EmergencyPanel.tsx:27-37 | the alert becomes active, one emergency is appended, and it heads the reloaded history |
| EmergencyPanel.Panel.Dismiss | components/EmergencyPanel.tsx:83-84 | the active alert clears and the history stays |

## Left out

- Network, authentication and hosting: `App.tsx`, `components/Login.tsx` and `services/supabaseClient.ts` are not part of this model. Signing out is the `signedIn` flag of the settings screen. Creating a society at sign-up is not modelled.
- The hosted database is one in-memory value. Row-level security, query errors other than the terminal's failed insert, and network failure are not modelled. Every query succeeds and returns its rows.
- Ids are natural numbers drawn from a counter, not UUIDs. Timestamps are natural numbers from the same counter, not ISO strings, so creation order and id order coincide.
- Ordering by a text column compares character codes (`Text.TextLe`), not the database collation.
- The resident's decision (`simulateResidentResponse` in `services/geminiService.ts`) and the generated notice text are parameters of `VisitorEntryForm.Terminal.Submit` and `NoticeBoard.Board.HandleDraft`. The parameter covers the service's fallbacks: an empty reply is parsed as `{}`, whose missing `approved` reads as a rejection, and a reply that fails to parse, like a failed call, ends in the catch branch, which approves.
- The clock is a parameter. Today's midnight on the dashboard, the check-in time in the staff register and the weekday of a timestamp in the reports are passed in.
- `window.confirm` is the `confirmed` parameter of the settings actions. `alert`, `window.location.reload`, the clipboard write and the QR-code image URL with its `encodeURIComponent` are left out. `Dashboard.Console.CopyGuardLink` returns the text that would be copied.
- Handlers run atomically. The terminal's LOADING state is recorded in the ghost trace `modes` but is never observed at rest. A reset during LOADING and the interleaving of the `Promise.all` queries are not modelled.
- Lower-casing is ASCII only. Non-ASCII case mappings of `toLowerCase` are not modelled.
- Rendering, CSS, icons and the QR modal's visibility flag are not modelled.
- `StaffManagement.StaffRegister.HandleAddStaff`, `ResidentManager.Register.HandleSave` and `VisitorEntryForm.Terminal.Submit` require their `required` inputs to be non-empty, because the browser blocks the form submission otherwise.
- ResidentManager.Register.Cancel: the cancel button sits inside the form without a `type`, so a browser also submits the form when it is clicked. Only its own click handler (clear the edit) is modelled.
- VisitorEntryForm.Terminal.ToggleStaff writes only the status, not `last_check_in`, exactly as the terminal does. The staff register's toggle writes both.
- `photo` and `resident_id` are never set by the screens, so they are `None` on every insert.
- Reports.ReportsScreen.FetchAggregates states its result as `Reports.Aggregate`. That the seven rows add up to the fetched entries is the separate lemma `Reports.AggregateTotal`.
