# Smith Agency CRM — a Dafny model of its list and record logic

The Smith Agency CRM books trade-show staff. Its screens manage three kinds of records:
- staff members, with their home locations among ATL, NYC, LA and DAL;
- clients, with their contacts;
- bookings, which tie a client to a show and list the staff needed and assigned for each day of it.

The code is mostly React rendering and database plumbing. What it decides on its own is a set of small list and record transformations, and this project models those:

- **Daily staffing builder.** This is `BookingForm`. It expands a date range into days. It resizes a day to N empty slots, writes one slot, copies the previous day and sets every day's count. It also auto-fills a day from the roster.
- **Booking views.** The modules are `BookingList`, `BookingCard`, `BookingModal` and `BookingsPage`. They cover the conjunctive filters with their `'all'` sentinel and grouping by status. They also cover the needed and assigned totals, the status styles and the normalisation of a loaded booking. The page's prepend, replace and remove updates are modelled too, as is the booking → form mapping.
- **Roster and client screens.** The modules are `StaffAutocomplete`, `StaffForm`, `StaffList`, `ClientForm`, `ClientList`, `StaffData` and `Dashboard`. They cover:
  - the staff picker;
  - the location toggle, the size lists and the daysWorked parsing;
  - the search predicates and the shuffle;
  - replace-or-append on save;
  - the contact editors;
  - the `useStaffData` updaters;
  - per-location counting.
- **Schemas and the shows endpoint.** The modules are `StaffModel`, `BookingModel`, `ShowModel`, `ClientModel` and `ShowsApi`. Each schema is a function listing the fields that fail its rules. `ShowsApi.Handle` is the shows endpoint: GET in ascending start-date order, POST with its date check in front of the schema, and 405 for anything else.
- **Assistant chat.** The module is `ChatModal`. It models the scanner for Markdown image tokens `![alt](url)`, with the lazy pattern's own choice of match. It also models the formatter that strips the tokens and collapses whitespace, and the message list of a submit.

Modelling conventions:
- **Dates** are integer day numbers.
- **Absent fields** are `Option`s.
- **Ids and names** are strings.
- **React state** is a datatype passed into and out of each handler.
- **Effects** are functions from the old state to the new one.
- **Shared helpers** live in:
  - `Lists`: filtering, subsequences, keyed replace and remove, grouping, distinct values and sums;
  - `Text`: ASCII lower-casing, `includes`, `trim` and decimal strings;
  - `Wrappers`: `Option` and `Result`.
- **Several methods model the source's loops and are proved against the functions that specify them:**
  - `BookingForm.ExpandDays` is the date-expansion loop.
  - `BookingList.GroupByStatus` is the grouping reduce.
  - `Dashboard.ComputeStats` is the location count.
  - `StaffList.Shuffle` is the Fisher–Yates shuffle.
  - `ChatModal.ExtractImages` is the `exec` loop.

Auto-fill replaces the day's list with up to `staffNeeded` roster ids that were not already assigned; it does not keep the ids already on the day. `BookingForm.AutoFillReplacesRatherThanTopsUp` shows this on a concrete day.

## Model

| member | source | states |
|---|---|---|
| BookingForm.DayRange | components/Bookings/BookingForm.js:38-57 | start ≤ end gives end−start+1 days; start > end gives none. Day i has date start+i, staffNeeded 1 and no assigned staff |
| BookingForm.DayRangeConsecutive | components/Bookings/BookingForm.js:45-52 | neighbouring expanded days have consecutive dates |
| BookingForm.ExpandDays | components/Bookings/BookingForm.js:38-57 | the `while` loop that advances the date and pushes a day computes exactly DayRange(start, end) |
| BookingForm.OnDatesChanged | components/Bookings/BookingForm.js:38-57 | with both dates set, both copies of the daily staffing become the expansion, replacing what was there; with either date missing nothing changes |
| BookingForm.OnShowChanged | components/Bookings/BookingForm.js:21-35 | when the chosen show is found in the list, the form's dates and staffing are cleared; otherwise nothing changes. The component's local staffing copy is untouched |
| BookingForm.EffectsAfterChange | components/Bookings/BookingForm.js:21-57 | one commit of the two effects: with show and dates unchanged the state is kept; with the show unchanged only the date effect runs |
| BookingForm.DateEffectInCommit | components/Bookings/BookingForm.js:38-57 | the date effect inside a commit: it changes nothing unless a date changed and both are set |
| BookingForm.EffectsAfterUserChange | components/Bookings/BookingForm.js:21-57 | the effects as evidently meant: a form the modal has just filled is kept as filled; a user's change runs both effects |
| BookingForm.Commit | components/Bookings/BookingForm.js:71-72 | every handler writes the new day list to both the local state and the form data, and changes nothing else |
| BookingForm.EmptySlots | components/Bookings/BookingForm.js:66 | `Array(n).fill('')`: exactly n empty-string slots |
| BookingForm.MapDay | components/Bookings/BookingForm.js:60-70 | a `map` over the days that rewrites only the given index and keeps the length |
| BookingForm.HandleStaffCountChange | components/Bookings/BookingForm.js:59-73 | day i gets staffNeeded n and exactly n empty slots, keeping its date. Every other day and the length are unchanged |
| BookingForm.MinusCount | components/Bookings/BookingForm.js:271 | the minus button never goes below 1 and otherwise lowers the count by one |
| BookingForm.PlusMinusInverse | components/Bookings/BookingForm.js:271-279 | minus undoes plus on every count of at least 1; plus undoes minus on every count of at least 2, and below that plus after minus gives 2 |
| BookingForm.PlusAddsOneSlot | components/Bookings/BookingForm.js:59-73 | pressing plus on day i gives it one more needed person and exactly that many slots, all empty, written to both copies of the staffing |
| BookingForm.HandleIndividualStaffAssignment | components/Bookings/BookingForm.js:75-89 | slot p of day d becomes the id and every other slot and day is unchanged; the id is not checked for duplicates |
| BookingForm.CopyPreviousDay | components/Bookings/BookingForm.js:92-108 | day 0 is a no-op; day i > 0 takes day i−1's count and assigned list and keeps its date; other days are unchanged |
| BookingForm.SetAllDaysStaffCount | components/Bookings/BookingForm.js:111-119 | every day gets count n and n empty slots, keeping its date; the number of days is preserved |
| BookingForm.SetAllIsCountChangeEverywhere | components/Bookings/BookingForm.js:59-119 | setting all days agrees, day by day, with the single-day count change |
| BookingForm.AvailableIds | components/Bookings/BookingForm.js:124-125 | the roster ids not already assigned: disjoint from the old list, complete, drawn from the roster, and duplicate-free when roster ids are |
| BookingForm.AvailableIdsInRosterOrder | components/Bookings/BookingForm.js:123-131 | the available ids are the ids of `staffList.filter(..)`, the roster filtered to people not on the day, so they come in roster order as a subsequence of the roster's ids |
| BookingForm.AutoFillPicksInRosterOrder | components/Bookings/BookingForm.js:122-139 | the day's new list is exactly the ids of the first staffNeeded roster entries not already on it, in roster order: the source's filter, slice and map |
| BookingForm.AutoFillDay | components/Bookings/BookingForm.js:122-139 | day i's list becomes the first staffNeeded available ids; other days and the length are unchanged |
| BookingForm.AutoFillProperties | components/Bookings/BookingForm.js:122-139 | the new list is disjoint from the old one and drawn from the roster. It has length min(staffNeeded, available), is a prefix of the available ids (which AvailableIdsInRosterOrder puts in roster order), and is duplicate-free |
| BookingForm.AutoFillReplacesRatherThanTopsUp | components/Bookings/BookingForm.js:122-133 | a day needing 2 with "a" assigned, over roster a, b, c, gets ["b", "c"]: the list is replaced, not topped up |
| BookingList.FilteredBookings | components/Bookings/BookingList.js:23-40 | the order-preserving subsequence of bookings that pass; an empty search term returns every booking, whatever the other filters say |
| BookingList.FilterNeedsAllFour | components/Bookings/BookingList.js:26-39 | with a non-empty term, a kept booking matches the search, the lower-cased status filter, the location filter and the show-type filter, each unless 'all' |
| BookingList.OwnLowerStatusMatches | components/Bookings/BookingList.js:35-37 | a booking passes the status filter set to its own lower-cased status |
| BookingList.UpperCaseFilterMatchesNothing | components/Bookings/BookingList.js:35-37 | a status filter containing an upper-case letter matches no booking, because only the booking side is lower-cased |
| BookingList.StaffNameFindsBooking | components/Bookings/BookingList.js:26-33 | a term found, case-insensitively, in any assigned staff name on any day makes the booking match the search |
| BookingList.InitialFilterKeepsEverything | components/Bookings/BookingList.js:13-63 | the filters' initial values keep every booking, which is what the list renders |
| BookingList.PresentDistinct | components/Bookings/BookingList.js:19-20 | `[...new Set(..)].filter(Boolean)`: duplicate-free, exactly the non-empty values, in the order of their first occurrence |
| BookingList.Locations | components/Bookings/BookingList.js:19 | the distinct non-empty show locations of the bookings, each coming from some booking, every such location present, in the order the bookings first show them |
| BookingList.ShowTypes | components/Bookings/BookingList.js:20 | the same for show types |
| Lists.Distinct | components/Bookings/BookingList.js:19-20 | `[...new Set(s)]`: duplicate-free, exactly the values of s, a subsequence of s, and in the order of first occurrence |
| Lists.FilterMultiplicity | components/Bookings/BookingList.js:23-40 | a filter keeps every copy of a passing element and no copy of any other |
| Lists.FilterInOrder | components/Bookings/BookingList.js:19-20 | a list in first-occurrence order of the filtered values is in first-occurrence order of the original values |
| Lists.SelectKeyMultiplicity | components/Bookings/BookingList.js:43-48 | a status group keeps every copy of a booking with that status and no copy of any other |
| BookingList.GroupStep | components/Bookings/BookingList.js:43-48 | one reduce step appends the booking to its status group and leaves the other groups unchanged |
| BookingList.PushByStatus | components/Bookings/BookingList.js:44-46 | one reduce step adds the booking's status to the keys and leaves every other group as it was |
| BookingList.GroupingIsGroups | components/Bookings/BookingList.js:43-48 | the reduce from the empty object yields one group per status that occurs, holding that status's bookings in order |
| BookingList.GroupByStatus | components/Bookings/BookingList.js:43-48 | the loop computes the reduce: the keys are exactly the statuses that occur (a missing status is the key "undefined"); each group is the order-preserving subsequence with that status |
| BookingList.NoKeyNoGroup | components/Bookings/BookingList.js:43-48 | a status that no booking has selects nothing |
| BookingList.GroupsPartitionFiltered | components/Bookings/BookingList.js:43-48 | concatenating the groups gives back the filtered bookings as a multiset: every one exactly once |
| BookingList.StatusOrderCoversValidStatuses | components/Bookings/BookingList.js:51 | reading the groups in statusOrder shows every booking exactly once when each has a schema status |
| BookingCard.TotalsAdditive | components/Bookings/BookingCard.js:43-44 | total needed and total assigned are additive over concatenated day lists |
| BookingCard.TotalAssignedNonNegative | components/Bookings/BookingCard.js:44 | the assigned total is never negative |
| BookingCard.FullyStaffedTotals | components/Bookings/BookingCard.js:43-44 | if every day is fully staffed, the assigned total reaches the needed total |
| BookingCard.UnfilledPositions | components/Bookings/BookingCard.js:114-117 | the notice appears exactly when assigned < needed and shows the positive count needed − assigned |
| BookingCard.DisplayName | components/Bookings/BookingCard.js:111 | a staff entry with no name is shown as 'Unnamed Staff'; a named one by its name |
| BookingCard.StatusCase | components/Bookings/BookingCard.js:12-40 | the switch is total: the four statuses get their own case and everything else the default |
| BookingCard.StatusColor | components/Bookings/BookingCard.js:12-20 | a colour from the table, the default one exactly for unknown statuses |
| BookingCard.StatusBackground | components/Bookings/BookingCard.js:22-30 | a background from the table, the default one exactly for unknown statuses |
| BookingCard.StatusIcon | components/Bookings/BookingCard.js:32-40 | an icon from the table whose colour agrees with the status colour |
| BookingCard.StylesTellStatusesApart | components/Bookings/BookingCard.js:12-30 | two different statuses, one of them known, never share a colour or a background |
| BookingModal.StaffIdOf | components/Bookings/BookingModal.js:44-46 | an id string is kept and a populated entry is replaced by its id |
| BookingModal.NeededOrOne | components/Bookings/BookingModal.js:43 | `staffNeeded \|\| 1`: a zero count becomes 1 and every other count is kept |
| BookingModal.DayToForm | components/Bookings/BookingModal.js:41-47 | a day keeps its date and the number of assigned entries, each reduced to its id, and defaults its count |
| BookingModal.BookingToForm | components/Bookings/BookingModal.js:37-49 | ids of show and client, both dates, one form day per day, notes defaulting to '' and status to 'Pending' |
| BookingModal.OnOpenChanged | components/Bookings/BookingModal.js:32-64 | closed: nothing changes; opened with a booking: its form; opened without: the empty form |
| BookingModal.OpenedFormHasNoZeroCounts | components/Bookings/BookingModal.js:43 | no day of an opened form has count 0 |
| BookingModal.OpenedEditLosesSchedule | components/Bookings/BookingForm.js:21-35 | opening the modal on a listed booking whose show differs from the form's: the show effect clears both dates, and the staffing is either empty or fresh one-person days, never the booking's own |
| BookingModal.OpenedEditSameShowResetsStaffing | components/Bookings/BookingForm.js:38-57 | opening the modal on a booking of the form's own show with other dates keeps the dates, but the date effect replaces the booking's staffing by fresh one-person days in both copies |
| BookingModal.OpenedEditKeepsSchedule | components/Bookings/BookingModal.js:32-64 | with the effects answering only a user's edits, the opened form is exactly the booking's form |
| BookingsPage.FilteredBookings | pages/bookings/index.js:277-283 | the order-preserving subsequence satisfying all four of show type, season, location and status, each with 'all'; equal to the input when all four are 'all' |
| BookingsPage.BookingsByStatus | pages/bookings/index.js:286-288 | the order-preserving subsequence of the filtered bookings with exactly that status |
| BookingsPage.OtherColumnsEmpty | pages/bookings/index.js:281-288 | with a status filter set, every other status column is empty |
| BookingsPage.NormaliseShow | pages/bookings/index.js:93-96 | a populated show is kept; a bare id becomes a document holding that id |
| BookingsPage.NormaliseClient | pages/bookings/index.js:97-100 | the same for the client |
| BookingsPage.NormaliseStaff | pages/bookings/index.js:106-110 | every assigned entry becomes a document with its id and its display name, 'Unnamed Staff' when nameless |
| BookingsPage.NormaliseDay | pages/bookings/index.js:101-111 | a day keeps its date, count and every assigned entry, each normalised |
| BookingsPage.NormaliseBooking | pages/bookings/index.js:88-112 | the booking keeps its id, dates, notes, status and every day, with show, client and staff normalised |
| BookingsPage.NormalisedNamesPresent | pages/bookings/index.js:106-110 | after normalisation every assigned entry has a non-empty name |
| BookingsPage.NormaliseIdempotent | pages/bookings/index.js:88-112 | normalising twice is normalising once |
| BookingsPage.StoredBooking | pages/bookings/index.js:125-134 | a submitted form stored under its id with show and client as ids: the same start and end dates, notes, status and days |
| BookingsPage.ReopenRestoresForm | pages/bookings/index.js:88-112 | storing a form, loading and normalising it, and running the modal's initialising effect on it restores the form, when its status is non-empty and no count is zero; the form's own show effect is not part of this round trip |
| BookingsPage.HandleSubmit | pages/bookings/index.js:120-151 | a created booking is prepended, the form reset to the empty 'Pending' form and closed, the error cleared and the success text 'Booking created successfully!' set; a non-ok reply sets the error 'Failed to create booking' and a thrown error its own message, changing nothing else |
| BookingsPage.StatusRequest | pages/bookings/index.js:153-163 | a request is made exactly for a known id: that booking with the new status |
| BookingsPage.HandleStatusUpdate | pages/bookings/index.js:153-174 | the reply replaces each booking with the id and keeps the length and the others; an unknown id or a failed request changes nothing |
| BookingsPage.HandleDelete | pages/bookings/index.js:236-252 | after a confirmed, successful delete exactly the bookings with other ids remain, in order; otherwise nothing changes |
| BookingsPage.HandleSaveEdit | pages/bookings/index.js:254-274 | the reply replaces each booking with its id, keeping the length and the others; a failed request is an error |
| BookingsPage.PutTarget | pages/bookings/index.js:256 | the id part of the PUT path: the id when there is one, the text "undefined" when it is missing |
| BookingsPage.PutStatus | pages/bookings/index.js:254-262 | the status the PUT route (`pages/api/bookings/[id].js`, lines 8-33) answers this request with: 200 exactly when the id is an ObjectId, the body casts and a booking has the id; a non-ObjectId id is a 500; the answer is always 200, 404 or 500 |
| BookingsPage.SaveTo | pages/bookings/index.js:254-274 | a save to a target: any status other than 200 is the error 'Failed to update booking', a 200 is the list update |
| BookingsPage.ModalSaveAlwaysFails | pages/bookings/index.js:254-274 | a save from the edit modal, whose form data has no `_id`, goes to /api/bookings/undefined, gets a 500 and is the error, whatever is stored |
| BookingsPage.EditingBookingSaved | pages/bookings/index.js:254-274 | a save addressed by the edited booking's own stored id succeeds and replaces exactly the bookings with that id by the server's copy |
| BookingsPage.DeleteAfterSave | pages/bookings/index.js:246-269 | deleting an id after saving it is the same as deleting it from the list before the save |
| BookingsPage.CreatedBookingShownFirst | pages/bookings/index.js:134-283 | with the filters at 'all', a newly created booking is the first one shown |
| StaffAutocomplete.SelectedStaff | components/Bookings/StaffAutocomplete.js:34 | the first roster entry with the id, or none exactly when no entry has it |
| StaffAutocomplete.FilteredStaff | components/Bookings/StaffAutocomplete.js:37-40 | the order-preserving subsequence whose name contains the term case-insensitively and whose id is not the current value |
| StaffAutocomplete.DisplayValue | components/Bookings/StaffAutocomplete.js:50 | the selected name when there is a selection, else the search term |
| StaffAutocomplete.OnType | components/Bookings/StaffAutocomplete.js:51-56 | typing sets the term and opens the list, and emits '' exactly when a selection exists |
| StaffAutocomplete.OnSelect | components/Bookings/StaffAutocomplete.js:69-73 | choosing emits the chosen id, clears the term and closes the list |
| StaffAutocomplete.SelectThenDisplay | components/Bookings/StaffAutocomplete.js:34-73 | with distinct roster ids, choosing someone then displays their name |
| StaffAutocomplete.TypeOverSelection | components/Bookings/StaffAutocomplete.js:51-56 | typing over a selection clears it: afterwards nothing is selected and the typed text is shown |
| StaffAutocomplete.EmptyTermOffersEveryoneElse | components/Bookings/StaffAutocomplete.js:37-40 | with an empty term everybody but the current value is offered |
| StaffForm.ToggleLocation | components/Staff/StaffForm.js:102-109 | a present code is removed everywhere and the rest kept in order, every other code keeping its exact multiplicity; an absent one is appended |
| StaffForm.ToggleTwice | components/Staff/StaffForm.js:102-109 | toggling twice restores membership of every code, and restores the list itself when the code was absent |
| StaffForm.ToggleKeepsCodes | components/Staff/StaffForm.js:102-109 | toggling one of the four buttons keeps the list within the four codes |
| StaffForm.WarningMatchesValidator | components/Staff/StaffForm.js:357-359 | the warning is shown exactly when the schema's location validator would refuse the list |
| StaffForm.SizeOptions | components/Staff/StaffForm.js:28-29 | 17 options, the i-th being the decimal of i + offset |
| StaffForm.SizeOptionsExact | components/Staff/StaffForm.js:28-29 | the options are exactly the decimals of offset..offset+16 |
| StaffForm.SizeOptionsDistinct | components/Staff/StaffForm.js:28-29 | no option appears twice |
| StaffForm.SizeBounds | components/Staff/StaffForm.js:28-29 | shoe sizes run "5".."21" and dress sizes "0".."16" |
| StaffForm.FromInitialData | components/Staff/StaffForm.js:31-49 | copies name, email, phone, birthday, college, shoe and dress size, photo and resume urls and notes; an array location is kept and a single one wrapped; a missing or empty status becomes 'active' and a missing or zero daysWorked 0 |
| StaffForm.LoneLocationSelected | components/Staff/StaffForm.js:37 | a record holding one agency code as a bare string opens with exactly that code selected, no warning, and a list the schema accepts |
| StaffForm.InitialDataAgreesWithDefaults | components/Staff/StaffForm.js:44-45 | the form's defaults agree with the schema's defaults |
| StaffForm.DaysWorkedRoundTrip | components/Staff/StaffForm.js:275 | typing the decimal of n gives n |
| StaffForm.NonNumericDaysWorked | components/Staff/StaffForm.js:275 | an input without digits gives 0 |
| StaffForm.NoDeleteWhenPhotoKept | components/Staff/StaffForm.js:121 | the old photo is not deleted unless editing, with a non-empty initial url that differs from the current one |
| StaffList.Searched | components/Staff/StaffList.js:89-99 | the order-preserving subsequence whose name, email, role, department or some location contains the term case-insensitively |
| StaffList.EmptySearchShowsAll | components/Staff/StaffList.js:89-99 | an empty term keeps everyone |
| StaffList.Shuffle | components/Staff/StaffList.js:80-87 | the result is a permutation of the input, which is not modified |
| StaffList.LocationCount | components/Staff/StaffList.js:295-313 | the number of shown staff whose locations include the code, at most the number shown |
| StaffList.CountsIgnoreOrder | components/Staff/StaffList.js:295-313 | per-location counts do not depend on the shuffled order |
| StaffList.Summary | components/Staff/StaffList.js:89-313 | the total shown and the four per-location counts, each at most the total |
| StaffList.HandleStaffUpdated | components/Staff/StaffList.js:59-71 | an edit replaces the entries with the id and keeps the length; an add appends at the end |
| StaffList.EditOfUnknownIdChangesNothing | components/Staff/StaffList.js:59-71 | an edit whose id is not listed changes nothing |
| ClientForm.SavedClient | components/Clients/ClientForm.js:19-23 | the request body a save sends: every form field as it stands, notes included, under the client's id |
| ClientForm.StoredClient | pages/api/clients/index.js:17-24 | the record the server stores and returns: the body sent, without its notes |
| ClientForm.SavedFormRoundTrip | components/Clients/ClientForm.js:5-23 | reopening a saved client fills the form as it was saved, except that the notes come back empty |
| ClientForm.NotesLostOnReopen | components/Clients/ClientForm.js:5-23 | notes typed into the form are empty when the client is reopened, so the reopened form differs from the saved one |
| ClientForm.NotesPathRoundTrip | components/Clients/ClientForm.js:5-23 | with a notes path in the schema, reopening a saved client fills the form exactly as it was saved |
| ClientForm.OpenedClientRoundTrip | components/Clients/ClientForm.js:5-23 | saving an opened client untouched stores the same record, for every stored record (no notes) whose website and booth location are present |
| ClientForm.NewFormErrors | components/Clients/ClientForm.js:5-12 | the untouched new-client form, as stored, is refused for its company name and its category and nothing else |
| ClientForm.AddContact | components/Clients/ClientForm.js:34-39 | appends one blank contact, keeping every other field |
| ClientForm.RemoveAt | components/Clients/ClientForm.js:41-46 | removes exactly index i and keeps the rest in order; an out-of-range index changes nothing |
| ClientForm.RemoveContact | components/Clients/ClientForm.js:41-46 | applies RemoveAt to the contacts, keeping every other field |
| ClientForm.SetField | components/Clients/ClientForm.js:48-55 | sets exactly the named contact field |
| ClientForm.UpdateContact | components/Clients/ClientForm.js:48-55 | changes only field f of contact i; the other contacts, the other fields and the length are unchanged |
| ClientForm.RemoveAfterAdd | components/Clients/ClientForm.js:34-46 | removing the contact just added gives the form back |
| ClientForm.UpdateWithSameName | components/Clients/ClientForm.js:48-55 | writing a contact's own name back changes nothing |
| ClientForm.UpdatesCommute | components/Clients/ClientForm.js:48-55 | updates of two different fields commute |
| ClientList.FilteredClients | components/Clients/ClientList.js:31-41 | the order-preserving subsequence whose company name, category, or some contact's name or email contains the term case-insensitively |
| ClientList.HandleClientUpdated | components/Clients/ClientList.js:48-60 | an edit replaces the entries with the id and keeps the length; an add appends |
| ClientList.Summary | components/Clients/ClientList.js:226-249 | each figure is at most its overall counterpart: shown clients, contacts summed over contact lists, booths, and distinct categories |
| ClientList.CategoriesOfSubset | components/Clients/ClientList.js:83 | a sub-list has no more distinct categories than the whole |
| StaffData.UpdateStaff | hooks/useStaffData.js:25-29 | each entry with the id becomes the update; the others and the length are unchanged |
| StaffData.AddStaff | hooks/useStaffData.js:31-33 | appends at the end |
| StaffData.DeleteStaff | hooks/useStaffData.js:35-37 | exactly the entries with other ids remain, in order |
| Lists.RemoveKeyMultiplicity | hooks/useStaffData.js:35-37 | a delete by id keeps every copy of an entry with another id and no copy of an entry with that id |
| StaffData.UpdateUnknownId | hooks/useStaffData.js:25-29 | an unknown id changes nothing |
| StaffData.UpdateThenDelete | hooks/useStaffData.js:25-37 | update then delete of the same id is delete alone |
| StaffData.AddThenDelete | hooks/useStaffData.js:31-37 | deleting a freshly added, new id gives the list back |
| Dashboard.CountStep | pages/index.js:40-43 | one step of the reduce keeps each count equal to the occurrences seen so far |
| Dashboard.CountLocations | pages/index.js:40-43 | the inner loop over one member's locations keeps the counts exact |
| Dashboard.AllLocationsPrefix | pages/index.js:39-44 | the locations of the first i+1 staff are those of the first i plus member i's |
| Dashboard.AllLocationsLength | pages/index.js:39-44 | the flattened locations are as many as the sum of the list lengths |
| Dashboard.ComputeStats | pages/index.js:39-52 | totalStaff and totalClients are the list lengths and totalBookings is 0. Each count is the number of occurrences of its location, and only occurring locations are keys |
| Dashboard.CountsBounded | pages/index.js:39-44 | each present count is positive and at most the number of location entries |
| Dashboard.CountsSumToLocations | pages/index.js:39-44 | the counts sum to the total length of the staff location lists |
| StaffModel.Check | models/Staff.js:3-46 | one rule: its field is reported exactly when the rule fails, and no other field is |
| StaffModel.StaffErrors | models/Staff.js:3-46 | name required, at most 60 characters; email required; location non-empty and within ATL, NYC, LA, DAL; birthday required; daysWorked not negative; status one of active, inactive, on_leave |
| StaffModel.WithDefaults | models/Staff.js:37-46 | a missing status becomes 'active' and missing daysWorked 0; nothing else changes |
| StaffModel.DefaultsAreValid | models/Staff.js:37-46 | the defaults satisfy their own rules and add no error |
| BookingModel.DayErrors | models/Booking.js:3-17 | a day is refused exactly when its date is missing or its count is below 1 |
| BookingModel.FieldErrors | models/Booking.js:19-47 | show, client and both dates required; notes at most 1000 characters; status one of the four |
| BookingModel.BookingErrors | models/Booking.js:3-47 | the field errors and each refused day, by index, and nothing else |
| BookingModel.WithDefaults | models/Booking.js:43-47 | a missing status becomes 'Pending', which the enum accepts |
| BookingModel.OverstaffedDayAccepted | models/Booking.js:3-17 | a day with more assignees than needed is accepted: nothing ties the two |
| ShowModel.ShowErrors | models/Show.js:3-26 | location, type and season required and in their enums; both dates required |
| ShowModel.SchemaIgnoresDateOrder | models/Show.js:9-16 | a show ending before it starts passes the schema |
| ClientModel.ClientErrors | models/Client.js:3-32 | company name required, at most 100 characters; category required; every contact named |
| ClientModel.StrictCast | models/Client.js:16-37 | Mongoose's strict mode keeps every declared path and drops `notes`, which the schema does not declare |
| ClientModel.CastWithNotesPath | models/Client.js:16-37 | a schema with a notes path keeps the body whole, and agrees with the strict cast apart from the notes |
| ClientModel.StrictCastKeepsErrors | models/Client.js:16-37 | dropping the notes never changes what the validators report |
| ClientModel.OptionalFieldsUnchecked | models/Client.js:8-27 | changing contact emails and phones, the website or the booth location never changes the verdict |
| ShowsApi.Insert | pages/api/shows/index.js:10 | inserting into a start-date-sorted list keeps it sorted and adds exactly that show |
| ShowsApi.SortByStart | pages/api/shows/index.js:10 | a permutation of the shows in ascending start-date order, undated first |
| ShowsApi.Handle | pages/api/shows/index.js:7-46 | GET: 200 with the shows sorted. POST: 400 with the store unchanged when the end is before the start, 500 when the schema refuses, otherwise 201 and stored. Any other method: 405 |
| ShowsApi.SameDayShowAccepted | pages/api/shows/index.js:26-34 | equal start and end dates pass the strict comparison and are stored |
| ShowsApi.MissingDateFailsLater | pages/api/shows/index.js:23-41 | a missing start date passes the comparison but is refused by the schema: 500 and nothing stored |
| ShowsApi.StoredShowsOrdered | pages/api/shows/index.js:23-34 | no request adds a show whose dates are out of order |
| ChatModal.Find | features/ai-assistant/components/ChatModal.js:6 | a position found lies at or after the starting point, with room for the literal |
| ChatModal.FindIsFirst | features/ai-assistant/components/ChatModal.js:6 | a lazy `.*?` followed by a literal: the first occurrence reachable without a line terminator, and none when a line terminator comes first |
| ChatModal.MatchAt | features/ai-assistant/components/ChatModal.js:6 | a match found at p starts at p, with its `](` and `)` in order inside the text |
| ChatModal.MatchAtIsMatch | features/ai-assistant/components/ChatModal.js:6 | a match MatchAt finds satisfies every condition of the pattern there |
| ChatModal.MatchAtIsLazyMatch | features/ai-assistant/components/ChatModal.js:6 | whenever the pattern can match at p, MatchAt finds a match, and its choice is the lazy one: least `](` position first, then least `)` |
| ChatModal.Exec | features/ai-assistant/components/ChatModal.js:10 | one `exec`: the match found starts at or after lastIndex and ends inside the text |
| ChatModal.ExecFindsMatchAt | features/ai-assistant/components/ChatModal.js:10 | what `exec` returns is the match the pattern makes at its start position |
| ChatModal.ExecIsLeftmost | features/ai-assistant/components/ChatModal.js:10 | no match starts between lastIndex and the one `exec` returns |
| ChatModal.UrlOfMatch | features/ai-assistant/components/ChatModal.js:6 | a captured url has no `)` and no line terminator |
| ChatModal.ScanUrls | features/ai-assistant/components/ChatModal.js:5-15 | every url extracted has no `)` and no line terminator |
| ChatModal.ExtractImages | features/ai-assistant/components/ChatModal.js:5-15 | the `exec` loop computes the scan: the urls of the successive non-overlapping matches, left to right |
| ChatModal.FirstCloseEndsUrl | features/ai-assistant/components/ChatModal.js:6 | in `![a](b)c)` the url is `b`: the capture stops at the first `)` |
| ChatModal.NoImageSyntax | features/ai-assistant/components/ChatModal.js:5-22 | text without "![" yields no images, and stripping leaves it unchanged |
| ChatModal.Strip | features/ai-assistant/components/ChatModal.js:19 | removing the matches never lengthens the text |
| ChatModal.Collapse | features/ai-assistant/components/ChatModal.js:21 | whitespace runs become single spaces: no two neighbouring whitespace characters, and every whitespace character a space |
| ChatModal.CollapseKeepsWords | features/ai-assistant/components/ChatModal.js:21 | collapsing keeps the words exactly: the maximal runs of non-whitespace are the same, in order, none split, joined, lost or added |
| ChatModal.CollapseKeepsText | features/ai-assistant/components/ChatModal.js:21 | collapsing keeps every other character, in order |
| ChatModal.CollapseKeepsBlank | features/ai-assistant/components/ChatModal.js:21 | collapsing whitespace turns a blank text into a blank text and a non-blank one into a non-blank one |
| ChatModal.FormatMessageContent | features/ai-assistant/components/ChatModal.js:17-22 | the words of the stripped text, that is its maximal runs of non-whitespace, joined by single spaces: so no leading or trailing whitespace and no two adjacent whitespace characters, and empty exactly when the stripped text is blank |
| ChatModal.TrimCollapseIsJoin | features/ai-assistant/components/ChatModal.js:21 | collapsing whitespace runs and trimming is joining the text's words with single spaces |
| ChatModal.LeadingWord | features/ai-assistant/components/ChatModal.js:21 | the longest prefix without whitespace: a prefix, free of whitespace, ended by whitespace or the text's end, non-empty when the text starts with a non-space |
| ChatModal.PlainTextUnchanged | features/ai-assistant/components/ChatModal.js:17-22 | a message with no image token and no whitespace is shown as written |
| ChatModal.FirstTranscript | features/ai-assistant/components/ChatModal.js:25-64 | the first request sends the greeting as the assistant's message and then the typed input as the user's |
| ChatModal.FirstSubmit | features/ai-assistant/components/ChatModal.js:25-64 | a first non-blank submit shows the greeting then the user's message, clears the input, sets typing and sends that two-message transcript |
| ChatModal.RoleOf | features/ai-assistant/components/ChatModal.js:60 | 'user' maps to 'user' and every other type to 'assistant' |
| ChatModal.Transcript | features/ai-assistant/components/ChatModal.js:59-64 | one entry per prior message, with the same content and the mapped role, then the new input as the user's |
| ChatModal.Submit | features/ai-assistant/components/ChatModal.js:49-64 | a blank input changes nothing and sends nothing. Otherwise it appends exactly one user message, clears the input, sets typing, and sends the transcript |
| ChatModal.Reply | features/ai-assistant/components/ChatModal.js:80-93 | exactly one bot message is appended: the reply, or the apology flagged as an error. Typing stops |
| ChatModal.ExchangeAppendsTwo | features/ai-assistant/components/ChatModal.js:49-93 | a whole exchange adds the user's message then one bot message, and the transcript sent mirrors the conversation on screen |

## Left out

- **I/O and asynchrony.**
  - fetch calls, `async` ordering, `window.confirm`, the database and the S3 and AI proxies are not modelled.
  - The outcome of each request is a parameter. The parameters are the created or updated booking, the confirm answer, the delete result and the chat reply; the database gives a new show its id.
  - The order in which React schedules effects is not modelled.
  - The edit handler of pages/bookings/index.js fetches the full booking with `?populate=true` after opening the modal, and applies that copy only if the `isModalOpen` flag captured when the handler was created is set. This detail fetch is not modelled; the model opens the modal on the booking from the list.
- BookingsPage.PutStatus: whether the request body casts to the booking schema is a parameter, because Mongoose's casting rules are not modelled; only the ObjectId form of the id is checked.
- **Populate and EJSON.** A reference is modelled three ways: as populated, as a bare id, or as missing. `$oid`/`$date` wrappers are not modelled.
- **Dates and clocks.**
  - Dates are integer day numbers.
  - Locale and ISO formatting, time zones and `calculateAge` are not modelled.
  - `new Date(..)` on a missing value is an invalid date, and comparisons with it are false. The model treats a missing date the same way, so the comparison is false. It does not model a date that parses to something unexpected.
- **Text.**
  - `toLowerCase` is modelled on ASCII letters only.
  - Lengths are counted in characters, not UTF-16 units.
  - `\s` and `trim()` use the ECMAScript white-space and line-terminator set.
  - `parseInt` is modelled with leading white space, an optional sign, the leading decimal digits and the `|| 0` that turns NaN into 0. Only the `0x` prefix and the limits of double precision are not modelled.
- **Array holes.** `Array(n)` is modelled with a non-negative `n`, and a negative or NaN count is not modelled.
  - BookingForm.HandleIndividualStaffAssignment: requires the slot index to be at most the day's current length. JS assignment past the end creates holes, and holes are not modelled.
  - BookingForm.AutoFillDay: requires the day index to be in range. The code reads the day before it maps, and fails on a missing day.
- **Randomness.** StaffList.Shuffle: the swap index is chosen nondeterministically in [0, i], in place of `Math.random`, so only the permutation property is stated.
- **Sort order.** The database's sort is modelled as a sort on start date with undated shows first. ShowsApi.SortByStart: does not fix the relative order of shows with equal start dates, which the database does not promise either.
- **Unique email.** The unique index on staff email is the predicate `StaffModel.EmailAvailable` over a store. The index itself lives in the database and is not enforced.
- **Location input.** StaffForm.FromInitialData: a non-array initial location is modelled as a single string. The `[undefined]` that a missing location produces is not modelled.
- **Status key.** A missing booking status is grouped under the key "undefined". This is what indexing a JS object with `undefined` does.
- **Out of scope.** The simulated chat, the upload and photo-deletion routes, the seeding script, and pure presentation components are not part of this model.

## Findings

| source | as written | input that shows it | evidently intended | confidence | as-written member | corrected member |
|---|---|---|---|---|---|---|
| components/Bookings/BookingForm.js:21-35 | the show effect runs whenever `formData.show` changes, including when the edit modal fills the form from a saved booking, and clears both dates and the daily staffing | open the modal on a booking with show "s1", dates 10..12 and staffed days, from a form whose show was "" and "s1" is in the shows list: the form ends with no dates, and its staffing is three fresh one-person days in place of the booking's own | resetting the dates only when the user picks another show, keeping the loaded booking's schedule | not executed | BookingModal.OpenedEditLosesSchedule | BookingModal.OpenedEditKeepsSchedule |
| pages/bookings/index.js:254-274 | the PUT is addressed by `editedData._id`, but the edit modal passes its own form data, which has no `_id` field (components/Bookings/BookingModal.js:36-49), so the path is /api/bookings/undefined; `findByIdAndUpdate` cannot cast "undefined" to an ObjectId and the route answers 500 | save any edit from the booking modal: the reply is not ok and the page reports 'Failed to update booking' | addressing the PUT by the id of the booking being edited | not executed | BookingsPage.ModalSaveAlwaysFails | BookingsPage.EditingBookingSaved |
| models/Client.js:16-37 | the client schema declares no `notes` path, so strict mode drops the notes the form sends on create and on update, and the reply the list keeps has none | save a client with notes "VIP": reopening it shows an empty notes field, and the list's notes line (components/Clients/ClientList.js:209-211) never appears | a `notes: String` path in the schema, so saved notes are stored and shown | not executed | ClientForm.NotesLostOnReopen | ClientForm.NotesPathRoundTrip |
