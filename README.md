# Compound Assistant: a verified model of the data layer

Compound Assistant is an Android app for residents of a housing compound. It has a
phone directory, a visitor log with departure reminders, a "My ID" image, and a backup file.
All of its data logic is written inline in the Compose screens of `MainActivity.kt`. That
logic is modelled here:

- the four persisted records: `Contact`, `Profile`, `Visitor` and `SavedPerson`;
- the list operations behind every screen callback, as pure functions over sequences:
  - visitors: add, edit, delete and duplicate-for-tomorrow;
  - saved people: edit and delete;
  - contacts: add, favorite toggle, edit and delete;
- the views:
  - the today / upcoming / previous partition of the visitor log;
  - the dashboard's list of today's visits;
  - the directory's category chips, sorted and filtered list, and category groups;
- the rewriting of image references into the app's private storage;
- the reminder trigger arithmetic: `split`, `toIntOrNull`, `LocalDate`/`LocalTime`, and
  `minusMinutes(10)` rolling back across midnight;
- the preferences store with its four keys, the loaders and savers, export, and the
  section-by-section import;
- the screens' state, as classes. Each handler replaces a list with the result of one of the
  functions above, saves it, and schedules a reminder in the alarm slot keyed by visitor id.

Platform oracles are abstract inputs:
- the JSON library is an abstract `Codec`, one encoder/decoder pair per shape;
- "is this reference ours", "is it readable" and "copy it privately" are the fields of a
  `FileStore`;
- today's date and fresh UUIDs are parameters.

The properties that need these oracles to behave state that as a precondition:
- `Lawful`: every decoder reads back what its encoder wrote;
- `CopiesAreOwn`: a private copy is always served by the app's own file provider.

Module layout, in dependency order:
- `Base`: `Option`, `filter`, `take`, `takeLast`, `map`, `distinct`.
- `Text`: `trim`, `isBlank`, `ifBlank`, ASCII `lowercase`, `equals(ignoreCase)`, `contains`,
  `compareTo`, `split`, `toIntOrNull`, and zero-padded decimals.
- `Calendar`: `LocalDate` on the proleptic Gregorian calendar and its ISO text, the "HH:mm" and
  "hh:mm a" times, and `minusMinutes`.
- `Sorting`: a stable sort, proved sorted and stable.
- `Records`.
- `Images`: the reference migration.
- `Directory`.
- `Visits`.
- `Reminders`.
- `Persistence`: the `Store` class, export and import.
- `Screens`: the state-holding screen classes and the alarm slots.

Behaviours of the code that are easy to miss:
- The visitor list is sorted by (date, arrival) once, when the screen loads (line 877). Visits
  added, edited or duplicated later are appended or replaced in place, and the list is not
  re-sorted. `VisitorsScreen.Load` sorts; the other handlers do not. `ShownUpcomingAreSoonest`
  and `ShownPreviousAreLatest` therefore assume a sorted list (the state right after loading).
- Deleting a visit does not cancel its pending reminder.
- Dates are compared as ISO text (lines 885-887). `Calendar.FormatDateOrder` shows that this
  agrees with calendar order for years 0 to 9999. Outside that range the text order and the
  calendar order differ, and the model follows the text order, as the code does.

## Model

| member | source | states |
|---|---|---|
| Records.NewContact | app/src/main/java/com/samer/compoundassistant/MainActivity.kt:139-145 | a contact built without a favorite flag is not a favorite and keeps its name, phone, hours and category |
| Base.Filter | app/src/main/java/com/samer/compoundassistant/MainActivity.kt:884-887 | `filter` keeps exactly the elements satisfying the predicate and is no longer than its input |
| Base.FilterMultiset | app/src/main/java/com/samer/compoundassistant/MainActivity.kt:1141 | filtering keeps every occurrence that satisfies the predicate and drops every other one |
| Base.Take | app/src/main/java/com/samer/compoundassistant/MainActivity.kt:1165 | `take(n)` is the prefix of length min(n, size) |
| Base.TakeLast | app/src/main/java/com/samer/compoundassistant/MainActivity.kt:1197 | `takeLast(n)` is the suffix of length min(n, size) |
| Base.MapSeq | app/src/main/java/com/samer/compoundassistant/MainActivity.kt:669 | `map` has the same length and applies the function at every position |
| Base.Distinct | app/src/main/java/com/samer/compoundassistant/MainActivity.kt:562 | `distinct` holds the same values as its input, each once |
| Text.TrimBy | app/src/main/java/com/samer/compoundassistant/MainActivity.kt:566 | `trim(predicate)`: the ends of the result do not satisfy the predicate, and it is empty exactly when every character does |
| Text.TrimBySlice | app/src/main/java/com/samer/compoundassistant/MainActivity.kt:566 | the trimmed text is a contiguous piece of the input, with only matching characters before and after it |
| Text.Trim | app/src/main/java/com/samer/compoundassistant/MainActivity.kt:1305 | `trim()`: the result has no whitespace at either end, is empty exactly when the input is blank, and is blank exactly when the input is |
| Text.TrimIdempotent | app/src/main/java/com/samer/compoundassistant/MainActivity.kt:1305 | trimming a trimmed text changes nothing |
| Text.Lowercase | app/src/main/java/com/samer/compoundassistant/MainActivity.kt:566-577 | lowercasing keeps the length and folds each ASCII capital |
| Text.IfBlank | app/src/main/java/com/samer/compoundassistant/MainActivity.kt:562 | `ifBlank` keeps a non-blank text and gives the default for a blank one, so it is blank only when both are |
| Text.EqualsIgnoreCaseSpec | app/src/main/java/com/samer/compoundassistant/MainActivity.kt:1331 | `equals(ignoreCase = true)` is reflexive, symmetric and transitive, and relates texts of equal length whose characters agree after folding |
| Text.ContainsSpec | app/src/main/java/com/samer/compoundassistant/MainActivity.kt:575-579 | `contains` holds exactly when the query occurs at some position of the text |
| Text.Trichotomy | app/src/main/java/com/samer/compoundassistant/MainActivity.kt:884-887 | for two strings exactly one of `<`, `==`, `>` holds under `compareTo` |
| Text.LessTransitive | app/src/main/java/com/samer/compoundassistant/MainActivity.kt:568-572 | string order is transitive |
| Text.LessEqTotal | app/src/main/java/com/samer/compoundassistant/MainActivity.kt:568-572 | any two strings are ordered one way or the other |
| Text.LessEqAntisymmetric | app/src/main/java/com/samer/compoundassistant/MainActivity.kt:568-572 | two strings each no greater than the other are equal |
| Text.LessPrefix | app/src/main/java/com/samer/compoundassistant/MainActivity.kt:568-572 | a proper prefix sorts before the longer text |
| Text.LessAt | app/src/main/java/com/samer/compoundassistant/MainActivity.kt:568-572 | at the first position where two texts differ, their order is the order of those characters |
| Text.LessConcat | app/src/main/java/com/samer/compoundassistant/MainActivity.kt:884-887 | for equal-length heads, the order of two joined texts is that of the heads, or of the tails when the heads are equal |
| Text.DigitsLess | app/src/main/java/com/samer/compoundassistant/MainActivity.kt:884-887 | equal-length digit strings sort as their values do, and are equal exactly when their values are |
| Text.Split | app/src/main/java/com/samer/compoundassistant/MainActivity.kt:1872 | `split(":")` yields one more piece than there are separators, no piece holds one, and joining the pieces gives the input back |
| Text.SplitAt | app/src/main/java/com/samer/compoundassistant/MainActivity.kt:1872 | the first piece ends at the first separator |
| Text.ToIntOrNull | app/src/main/java/com/samer/compoundassistant/MainActivity.kt:1874-1875 | `toIntOrNull` only returns values inside the 32-bit range, and only for ASCII digits with at most one leading sign |
| Text.DigitsToInt | app/src/main/java/com/samer/compoundassistant/MainActivity.kt:1874-1875 | an unsigned digit string reads as its decimal value when that fits in 32 bits, and as null otherwise |
| Text.SignedDigitsToInt | app/src/main/java/com/samer/compoundassistant/MainActivity.kt:1874-1875 | a digit string after a leading '-' or '+' reads as its signed decimal value when that fits in 32 bits, and as null otherwise |
| Text.ToIntOrNullRejects | app/src/main/java/com/samer/compoundassistant/MainActivity.kt:1874-1875 | a text holding a character that is neither a digit nor a leading sign is rejected |
| Text.Padded | app/src/main/java/com/samer/compoundassistant/MainActivity.kt:1319-1320 | zero padding yields digits of the same value, exactly as wide as asked when the value fits |
| Calendar.MonthLength | app/src/main/java/com/samer/compoundassistant/MainActivity.kt:1148 | every month has 28 to 31 days |
| Calendar.DayNumberOrder | app/src/main/java/com/samer/compoundassistant/MainActivity.kt:1148 | the day count orders valid dates exactly as their fields do, and equal counts mean equal dates |
| Calendar.NextDay | app/src/main/java/com/samer/compoundassistant/MainActivity.kt:1148 | `plusDays(1)` gives a valid date one day later, and fails only on the last representable date |
| Calendar.PreviousDay | app/src/main/java/com/samer/compoundassistant/MainActivity.kt:1879 | stepping back gives a valid date one day earlier, and fails only on the first representable date |
| Calendar.NextPreviousInverse | app/src/main/java/com/samer/compoundassistant/MainActivity.kt:1148 | stepping forward then back, or back then forward, returns to the same date |
| Calendar.ParseYear | app/src/main/java/com/samer/compoundassistant/MainActivity.kt:1877 | a parsed year is inside the supported range |
| Calendar.ParseDate | app/src/main/java/com/samer/compoundassistant/MainActivity.kt:1877 | `LocalDate.parse` only yields valid dates |
| Calendar.ParseFormatYear | app/src/main/java/com/samer/compoundassistant/MainActivity.kt:160 | the year text `toString` writes parses back to the year, signs and five-digit years included |
| Calendar.ParseFormatDate | app/src/main/java/com/samer/compoundassistant/MainActivity.kt:1323 | the stored ISO date text parses back to the same date |
| Calendar.FormatDateOrder | app/src/main/java/com/samer/compoundassistant/MainActivity.kt:1323 | the stored ISO date texts of two dates in years 0 to 9999 sort as the dates do, and are equal exactly when the dates are |
| Calendar.ParseTime | app/src/main/java/com/samer/compoundassistant/MainActivity.kt:1401-1402 | parsing "HH:mm" only yields valid times ("24:00" reads as midnight) |
| Calendar.FormatTime | app/src/main/java/com/samer/compoundassistant/MainActivity.kt:1321-1322 | the "HH:mm" text is two digits, ':', two digits, holding the hour and the minute |
| Calendar.FormatTime12 | app/src/main/java/com/samer/compoundassistant/MainActivity.kt:1400-1404 | the "hh:mm a" text is a clock hour from 1 to 12, the minute, and "AM" before noon, "PM" from noon |
| Calendar.ParseFormatTime | app/src/main/java/com/samer/compoundassistant/MainActivity.kt:1319-1320 | the stored "HH:mm" text is five characters and parses back to the same time |
| Calendar.FormatTime12Injective | app/src/main/java/com/samer/compoundassistant/MainActivity.kt:1400-1404 | different times never show the same "hh:mm a" text |
| Calendar.DisplayTimes | app/src/main/java/com/samer/compoundassistant/MainActivity.kt:1400-1404 | both cells show "--:--" exactly when either stored time does not parse; otherwise they show the "hh:mm a" text of the two parsed times |
| Calendar.StampInjective | app/src/main/java/com/samer/compoundassistant/MainActivity.kt:1878 | different date-times have different minute stamps |
| Calendar.MinusMinutes | app/src/main/java/com/samer/compoundassistant/MainActivity.kt:1879 | `minusMinutes(n)` gives a date-time exactly n minutes earlier, and fails only before the first representable date |
| Sorting.SortBy | app/src/main/java/com/samer/compoundassistant/MainActivity.kt:877 | sorting is a permutation of its input |
| Sorting.SortBySorted | app/src/main/java/com/samer/compoundassistant/MainActivity.kt:877 | under a total preorder the result is sorted |
| Sorting.SortByStable | app/src/main/java/com/samer/compoundassistant/MainActivity.kt:877 | elements the comparator ties keep their relative order |
| Sorting.SortBySortedInput | app/src/main/java/com/samer/compoundassistant/MainActivity.kt:877 | an already sorted list is left as it is |
| Images.EnsurePrivate | app/src/main/java/com/samer/compoundassistant/MainActivity.kt:1987-1991 | an own reference is used as it is; any other goes through the private copy |
| Images.EnsurePrivateIsOwn | app/src/main/java/com/samer/compoundassistant/MainActivity.kt:1967-1991 | with copies served by the own provider, the result is own and asking again returns it unchanged |
| Images.MigratedRef | app/src/main/java/com/samer/compoundassistant/MainActivity.kt:856-862 | a reference changes only when it is foreign, readable and copied; then it becomes the copy, and otherwise it is kept |
| Images.MigratedRefIdempotent | app/src/main/java/com/samer/compoundassistant/MainActivity.kt:856-862 | migrating a migrated reference changes nothing |
| Images.MigrateVisitor | app/src/main/java/com/samer/compoundassistant/MainActivity.kt:856-862 | only the visitor's image reference changes |
| Images.MigrateSavedPerson | app/src/main/java/com/samer/compoundassistant/MainActivity.kt:864-871 | only the saved person's image reference changes |
| Images.MigrateVisitors | app/src/main/java/com/samer/compoundassistant/MainActivity.kt:855-862 | the migrated list has the same length, and each record changes only in its image |
| Images.MigrateSavedPeople | app/src/main/java/com/samer/compoundassistant/MainActivity.kt:864-871 | the same for saved people |
| Images.MigrateVisitorsChanged | app/src/main/java/com/samer/compoundassistant/MainActivity.kt:874 | the visitor list differs after migration exactly when some record's reference moved |
| Images.MigrateSavedPeopleChanged | app/src/main/java/com/samer/compoundassistant/MainActivity.kt:875 | the same for saved people |
| Images.MigrateVisitorsIdempotent | app/src/main/java/com/samer/compoundassistant/MainActivity.kt:855-862 | a second migration of the visitors changes nothing |
| Images.MigrateSavedPeopleIdempotent | app/src/main/java/com/samer/compoundassistant/MainActivity.kt:864-871 | a second migration of the saved people changes nothing |
| Images.MigratedMyId | app/src/main/java/com/samer/compoundassistant/MainActivity.kt:451-456 | a blank, own or unreadable ID reference is kept; a readable foreign one becomes its copy, or "" when the copy fails |
| Images.MigratedMyIdIdempotent | app/src/main/java/com/samer/compoundassistant/MainActivity.kt:451-456 | migrating the ID reference twice is migrating it once |
| Images.MigrateProfile | app/src/main/java/com/samer/compoundassistant/MainActivity.kt:457-461 | only the ID reference changes, and the profile differs exactly when it did |
| Directory.InitialDirectory | app/src/main/java/com/samer/compoundassistant/MainActivity.kt:543-547 | the shown list is the stored one when there is one, and the built-in one otherwise |
| Directory.CategoryLabel | app/src/main/java/com/samer/compoundassistant/MainActivity.kt:562 | the label is never blank and is the contact's own category when that is not blank |
| Directory.AddContact | app/src/main/java/com/samer/compoundassistant/MainActivity.kt:706-717 | refused exactly for a blank name or phone (the disabled Save at line 807); otherwise one non-favorite contact with trimmed fields and "Other" for a blank category is appended, earlier entries unchanged |
| Directory.ToggleFavorite | app/src/main/java/com/samer/compoundassistant/MainActivity.kt:669 | every entry equal to the target has its flag flipped; the rest are unchanged |
| Directory.ToggleFavoriteTwice | app/src/main/java/com/samer/compoundassistant/MainActivity.kt:669 | a second star undoes the first exactly when the list held no entry equal to the flipped contact |
| Directory.EditContact | app/src/main/java/com/samer/compoundassistant/MainActivity.kt:744-751 | refused exactly for a blank name or phone; otherwise every entry equal to the original gets the trimmed fields and keeps its flag, the rest are unchanged |
| Directory.DeleteContact | app/src/main/java/com/samer/compoundassistant/MainActivity.kt:770 | no entry equal to the target remains; every other entry does |
| Directory.DeleteContactCounts | app/src/main/java/com/samer/compoundassistant/MainActivity.kt:770 | the list shrinks by exactly the number of equal entries and other entries keep their counts |
| Directory.DeleteContactOrder | app/src/main/java/com/samer/compoundassistant/MainActivity.kt:770 | the same for contacts: the remaining entries keep their order |
| Directory.Categories | app/src/main/java/com/samer/compoundassistant/MainActivity.kt:561-563 | the chip list starts with "All" |
| Directory.CategoriesSpec | app/src/main/java/com/samer/compoundassistant/MainActivity.kt:561-563 | after "All" come exactly the labels in use, in strictly increasing string order |
| Directory.ContactPreorder | app/src/main/java/com/samer/compoundassistant/MainActivity.kt:568-572 | favorites-first, then category, then name is a total preorder |
| Directory.Visible | app/src/main/java/com/samer/compoundassistant/MainActivity.kt:565-582 | every shown contact matches the trimmed, lowercased query and the category chip |
| Directory.MatchesSpec | app/src/main/java/com/samer/compoundassistant/MainActivity.kt:573-581 | a blank query matches every contact, any other must occur in the lowercased name, phone or hours; a chip other than "All" admits only its own label |
| Directory.BlankQueryShowsAll | app/src/main/java/com/samer/compoundassistant/MainActivity.kt:565-582 | a blank query with the "All" chip shows the whole directory in comparator order |
| Directory.VisibleSpec | app/src/main/java/com/samer/compoundassistant/MainActivity.kt:565-582 | a contact is shown exactly when it is in the directory and matches, as often as it occurs there, in comparator order with favorites first |
| Directory.GroupKeyPreorder | app/src/main/java/com/samer/compoundassistant/MainActivity.kt:586 | "Emergency" first, then string order, is a total preorder |
| Directory.Grouped | app/src/main/java/com/samer/compoundassistant/MainActivity.kt:584-587 | each group pairs a key with the visible contacts carrying that label, in visible order |
| Directory.GroupedSpec | app/src/main/java/com/samer/compoundassistant/MainActivity.kt:584-587 | the keys are exactly the labels in use, in strictly increasing order with "Emergency" first; no group is empty and each holds only its own contacts, in visible order |
| Visits.AddVisit | app/src/main/java/com/samer/compoundassistant/MainActivity.kt:1303-1337 | refused exactly for a blank trimmed name, no image, a missing time or a failed copy; otherwise one visitor is appended with the fresh id, trimmed name, private image, "HH:mm" times and today's date, and the person is remembered exactly when reuse is on and no entry has the same name ignoring case and the same image |
| Visits.AddedVisitorReadable | app/src/main/java/com/samer/compoundassistant/MainActivity.kt:1316-1324 | the added visitor's stored times and date read back as the picked times and today |
| Visits.AddedNameClean | app/src/main/java/com/samer/compoundassistant/MainActivity.kt:1305 | the added visitor's name is non-blank and already trimmed |
| Visits.AddedImageOwn | app/src/main/java/com/samer/compoundassistant/MainActivity.kt:1312-1313 | the added visitor's image is served by the own provider |
| Visits.AddTwiceSavesOnce | app/src/main/java/com/samer/compoundassistant/MainActivity.kt:1330-1336 | saving the same form twice logs two visits and remembers the person at most once |
| Visits.KnownPersonAppend | app/src/main/java/com/samer/compoundassistant/MainActivity.kt:1330-1336 | after a person is appended, a name and image are known exactly when they were known before or match the new person, ignoring case in the name |
| Visits.PrefillFrom | app/src/main/java/com/samer/compoundassistant/MainActivity.kt:958-966 | a saved person fills in their name and image, clears the times and turns reuse off |
| Visits.ReuseSavedPerson | app/src/main/java/com/samer/compoundassistant/MainActivity.kt:958-966 | reusing a saved person logs a visit with their image and leaves the saved list unchanged |
| Visits.OpenEdit | app/src/main/java/com/samer/compoundassistant/MainActivity.kt:1497-1499 | the dialog opens with the stored name, and its times are what the stored arrival and departure texts parse to |
| Visits.EditedVisitor | app/src/main/java/com/samer/compoundassistant/MainActivity.kt:1521-1529 | refused exactly for a blank name or a missing time; otherwise id, image and date are kept, the name trimmed and the times stored as "HH:mm" |
| Visits.EditedVisitorReadable | app/src/main/java/com/samer/compoundassistant/MainActivity.kt:1525-1527 | the edited times read back as the picked ones |
| Visits.EditUnchanged | app/src/main/java/com/samer/compoundassistant/MainActivity.kt:1497-1529 | opening the editor on a stored visit and saving at once gives the same visit |
| Visits.ReplaceById | app/src/main/java/com/samer/compoundassistant/MainActivity.kt:1360 | exactly the records with the edited id are replaced, positions kept |
| Visits.ReplaceByIdKeepsIds | app/src/main/java/com/samer/compoundassistant/MainActivity.kt:1360 | every position keeps its id, and replacing twice is replacing once |
| Visits.EditVisit | app/src/main/java/com/samer/compoundassistant/MainActivity.kt:1360 | the list changes exactly when the dialog accepts, by replacing the edited id |
| Visits.DeleteById | app/src/main/java/com/samer/compoundassistant/MainActivity.kt:1367 | a record remains exactly when it is in the list and has another id |
| Visits.DeleteByIdCounts | app/src/main/java/com/samer/compoundassistant/MainActivity.kt:1141 | deleting removes every occurrence with that id and keeps every other occurrence |
| Visits.DeleteAbsentId | app/src/main/java/com/samer/compoundassistant/MainActivity.kt:1141 | deleting an id nobody has changes nothing |
| Visits.DeleteByIdOrder | app/src/main/java/com/samer/compoundassistant/MainActivity.kt:1367 | deleting from a joined list is deleting from each part, and a single record is kept exactly when it has another id: the survivors keep their order |
| Visits.DuplicateForTomorrow | app/src/main/java/com/samer/compoundassistant/MainActivity.kt:1146-1150 | the list gains one copy that differs from the original only by the fresh id and its date, which is the ISO text of the next calendar day (so it parses to a date one day later); it fails exactly when the date does not parse or is the last one |
| Visits.DeleteSavedPerson | app/src/main/java/com/samer/compoundassistant/MainActivity.kt:1024 | a saved person remains exactly when they have another id |
| Visits.DeleteSavedPersonCounts | app/src/main/java/com/samer/compoundassistant/MainActivity.kt:1580 | deleting removes every occurrence with that id and no other |
| Visits.DeleteSavedPersonOrder | app/src/main/java/com/samer/compoundassistant/MainActivity.kt:1024 | the same for saved people: the remaining people keep their order |
| Visits.EditSavedPerson | app/src/main/java/com/samer/compoundassistant/MainActivity.kt:1104-1111 | ids are kept; the matching person gets the trimmed name and the new image, or keeps the old image when there is none; others are unchanged |
| Visits.EditSavedPersonIdempotent | app/src/main/java/com/samer/compoundassistant/MainActivity.kt:1104-1111 | saving the same edit twice is saving it once |
| Visits.RenameSavedPerson | app/src/main/java/com/samer/compoundassistant/MainActivity.kt:1606-1612 | refused exactly for a blank trimmed name; otherwise only the matching person's name changes |
| Visits.ChangeSavedPersonImage | app/src/main/java/com/samer/compoundassistant/MainActivity.kt:1553-1558 | a failed copy changes nothing; otherwise only the matching person's image becomes the copy |
| Visits.PartitionExact | app/src/main/java/com/samer/compoundassistant/MainActivity.kt:884-887 | every visitor is in exactly one of today, upcoming and previous |
| Visits.TodayPart | app/src/main/java/com/samer/compoundassistant/MainActivity.kt:885 | today's part holds exactly the visitors dated today |
| Visits.UpcomingPart | app/src/main/java/com/samer/compoundassistant/MainActivity.kt:886 | the upcoming part holds exactly the visitors dated after today in text order |
| Visits.PreviousPart | app/src/main/java/com/samer/compoundassistant/MainActivity.kt:887 | the previous part holds exactly the visitors dated before today in text order |
| Visits.PartitionMultiset | app/src/main/java/com/samer/compoundassistant/MainActivity.kt:884-887 | the three parts together hold every visitor as often as the list does |
| Visits.PartitionCounts | app/src/main/java/com/samer/compoundassistant/MainActivity.kt:884-887 | the same, and the part sizes add up to the list size |
| Visits.ShownUpcoming | app/src/main/java/com/samer/compoundassistant/MainActivity.kt:1165 | the shown upcoming entries are the first min(20, n) of the part |
| Visits.ShownPrevious | app/src/main/java/com/samer/compoundassistant/MainActivity.kt:1197 | the shown previous entries are the last min(20, n) of the part |
| Visits.DateArrivalPreorder | app/src/main/java/com/samer/compoundassistant/MainActivity.kt:877 | by date, then arrival, is a total preorder |
| Visits.ArrivalPreorder | app/src/main/java/com/samer/compoundassistant/MainActivity.kt:371 | by arrival is a total preorder |
| Visits.LoadOrder | app/src/main/java/com/samer/compoundassistant/MainActivity.kt:877 | the loaded order is a permutation of the stored list |
| Visits.LoadOrderSorted | app/src/main/java/com/samer/compoundassistant/MainActivity.kt:877 | it is sorted by date then arrival, and ties keep their stored order |
| Visits.ShownUpcomingAreSoonest | app/src/main/java/com/samer/compoundassistant/MainActivity.kt:1165 | after loading, no upcoming visit left out is earlier than one shown |
| Visits.ShownPreviousAreLatest | app/src/main/java/com/samer/compoundassistant/MainActivity.kt:1197 | after loading, no previous visit left out is later than one shown |
| Visits.DashboardToday | app/src/main/java/com/samer/compoundassistant/MainActivity.kt:369-371 | the dashboard list is a permutation of today's part |
| Visits.DashboardTodaySpec | app/src/main/java/com/samer/compoundassistant/MainActivity.kt:369-371 | it holds exactly today's visits, by arrival, with equal arrivals in stored order |
| Reminders.DepartureTime | app/src/main/java/com/samer/compoundassistant/MainActivity.kt:1872-1878 | read exactly when the text splits into two integers within 0..23 and 0..59, which become hour and minute |
| Reminders.VisitDay | app/src/main/java/com/samer/compoundassistant/MainActivity.kt:1877 | the visit's date when it parses, today otherwise |
| Reminders.ReminderFor | app/src/main/java/com/samer/compoundassistant/MainActivity.kt:1871-1883 | no reminder exactly when the departure cannot be read or the local trigger would precede the first date (before any conversion to epoch milliseconds); otherwise it carries the visit's name and departure, and its trigger is ten minutes before the departure on the visit day (today when the date does not parse) |
| Reminders.ReminderSameDay | app/src/main/java/com/samer/compoundassistant/MainActivity.kt:1879 | from 00:10 on it fires the same day, ten clock minutes earlier |
| Reminders.ReminderPreviousDay | app/src/main/java/com/samer/compoundassistant/MainActivity.kt:1879 | before 00:10 it fires late on the previous day |
| Reminders.ReminderAt | app/src/main/java/com/samer/compoundassistant/MainActivity.kt:1871-1879 | when the departure reads as a time from 00:10 on and the date parses, the reminder fires on that date ten minutes earlier |
| Reminders.DepartureOfStored | app/src/main/java/com/samer/compoundassistant/MainActivity.kt:1872-1875 | a stored "HH:mm" departure is read back as the time it was written from |
| Reminders.Schedule | app/src/main/java/com/samer/compoundassistant/MainActivity.kt:1880-1888 | the visit's slot gets its reminder (or stays as it was when there is none), and every other slot is unchanged |
| Reminders.RescheduleReplaces | app/src/main/java/com/samer/compoundassistant/MainActivity.kt:1880-1888 | rescheduling the same id replaces the earlier alarm |
| Reminders.ExampleReminder | app/src/main/java/com/samer/compoundassistant/MainActivity.kt:1871-1879 | a departure that reads as 11:00 on a date that parses is reminded at 10:50 that day |
| Reminders.ElevenOClock | app/src/main/java/com/samer/compoundassistant/MainActivity.kt:1321-1322 | the stored text of 11:00 is "11:00" |
| Reminders.ElevenOClockDeparture | app/src/main/java/com/samer/compoundassistant/MainActivity.kt:1872-1875 | the departure text "11:00" reads as 11:00 |
| Reminders.FourteenthOfMarch | app/src/main/java/com/samer/compoundassistant/MainActivity.kt:1323 | the stored text of 14 March 2025 is "2025-03-14" |
| Reminders.FourteenthOfMarchParses | app/src/main/java/com/samer/compoundassistant/MainActivity.kt:1877 | the date text "2025-03-14" parses to 14 March 2025 |
| Persistence.SectionsDistinct | app/src/main/java/com/samer/compoundassistant/MainActivity.kt:172-175 | different sections have different names and keys |
| Persistence.LoadOr | app/src/main/java/com/samer/compoundassistant/MainActivity.kt:1796-1830 | a loader yields the default when the key is absent or the text does not decode, and the decoded value otherwise |
| Persistence.SavedLoads | app/src/main/java/com/samer/compoundassistant/MainActivity.kt:1801-1833 | what was saved under a key loads back from it |
| Persistence.OtherKeyLoads | app/src/main/java/com/samer/compoundassistant/MainActivity.kt:1801-1833 | saving one key does not change what loads from another |
| Persistence.Snapshot | app/src/main/java/com/samer/compoundassistant/MainActivity.kt:1898-1904 | the backup has exactly the four sections |
| Persistence.ApplySection | app/src/main/java/com/samer/compoundassistant/MainActivity.kt:1915-1934 | a section that decodes writes its own key and leaves every other key as it was |
| Persistence.ApplySections | app/src/main/java/com/samer/compoundassistant/MainActivity.kt:1914-1935 | import either completes or stops at a section that is present |
| Persistence.ImportAll | app/src/main/java/com/samer/compoundassistant/MainActivity.kt:1908-1936 | an unreadable file and a text that is not a document are the outcomes for exactly those cases and write nothing; an import stops only at a section the document holds |
| Persistence.ApplySectionsKeepsOthers | app/src/main/java/com/samer/compoundassistant/MainActivity.kt:1914-1935 | a key no present section writes keeps its value |
| Persistence.ImportRejectedWritesNothing | app/src/main/java/com/samer/compoundassistant/MainActivity.kt:1909-1912 | an unreadable file, or a text that is not a JSON object, writes nothing |
| Persistence.ImportAbsentSectionUntouched | app/src/main/java/com/samer/compoundassistant/MainActivity.kt:1915-1934 | the key of a section the document lacks keeps its value |
| Persistence.ImportContactsOnly | app/src/main/java/com/samer/compoundassistant/MainActivity.kt:1920-1924 | a contacts-only document rewrites the contacts and nothing else |
| Persistence.StoppedKeepsLater | app/src/main/java/com/samer/compoundassistant/MainActivity.kt:1914-1935 | a section that fails to decode stops the import: it and every later section's key keep their values |
| Persistence.ImportAllSections | app/src/main/java/com/samer/compoundassistant/MainActivity.kt:1915-1934 | a document whose four sections decode writes all four keys |
| Persistence.ExportImportRoundTrip | app/src/main/java/com/samer/compoundassistant/MainActivity.kt:1896-1936 | importing an export into any store completes and restores all four loaded values |
| Persistence.Store.LoadProfile | app/src/main/java/com/samer/compoundassistant/MainActivity.kt:1796-1800 | returns the loaded profile, `Profile()` by default |
| Persistence.Store.LoadContacts | app/src/main/java/com/samer/compoundassistant/MainActivity.kt:1805-1810 | returns the loaded contacts, empty by default |
| Persistence.Store.LoadVisitors | app/src/main/java/com/samer/compoundassistant/MainActivity.kt:1815-1820 | returns the loaded visitors, empty by default |
| Persistence.Store.LoadSavedPeople | app/src/main/java/com/samer/compoundassistant/MainActivity.kt:1825-1830 | returns the loaded saved people, empty by default |
| Persistence.Store.SaveProfile | app/src/main/java/com/samer/compoundassistant/MainActivity.kt:1801-1803 | rewrites the profile key only |
| Persistence.Store.SaveContacts | app/src/main/java/com/samer/compoundassistant/MainActivity.kt:1811-1813 | rewrites the contacts key only |
| Persistence.Store.SaveVisitors | app/src/main/java/com/samer/compoundassistant/MainActivity.kt:1821-1823 | rewrites the visitors key only |
| Persistence.Store.SaveSavedPeople | app/src/main/java/com/samer/compoundassistant/MainActivity.kt:1831-1833 | rewrites the saved-people key only |
| Persistence.Store.Export | app/src/main/java/com/samer/compoundassistant/MainActivity.kt:1896-1906 | writes the encoded snapshot of the four loaded values |
| Persistence.Store.ImportSection | app/src/main/java/com/samer/compoundassistant/MainActivity.kt:1915-1934 | an absent section succeeds and writes nothing; a present one succeeds exactly when it decodes, and then is saved |
| Persistence.Store.Import | app/src/main/java/com/samer/compoundassistant/MainActivity.kt:1908-1936 | the outcome and the new store are those of the section-by-section import |
| Screens.Alarms.ScheduleFor | app/src/main/java/com/samer/compoundassistant/MainActivity.kt:1871-1888 | the pending alarms become the scheduled slots |
| Screens.VisitorsLoadSettles | app/src/main/java/com/samer/compoundassistant/MainActivity.kt:851-875 | after the visitors screen loads, the store holds the migrated lists, and a second load writes nothing |
| Screens.VisitorsLoadWrites | app/src/main/java/com/samer/compoundassistant/MainActivity.kt:854-875 | loading the visitors screen writes only the visitors and saved-people keys, and nothing when migration changes neither list |
| Screens.DirectoryLoadSettles | app/src/main/java/com/samer/compoundassistant/MainActivity.kt:541-547 | after the directory loads, the store holds the shown list, and a second load writes nothing |
| Screens.DirectoryLoadWrites | app/src/main/java/com/samer/compoundassistant/MainActivity.kt:543-547 | loading the directory writes only the contacts key: nothing when contacts are stored, the encoded built-in list otherwise |
| Screens.MyIdLoadSettles | app/src/main/java/com/samer/compoundassistant/MainActivity.kt:448-461 | after My ID loads, the store holds the migrated profile, and a second load writes nothing |
| Screens.MyIdLoadWrites | app/src/main/java/com/samer/compoundassistant/MainActivity.kt:451-459 | loading My ID writes only the profile key, and nothing when migration leaves the profile unchanged |
| Screens.PickedProfile | app/src/main/java/com/samer/compoundassistant/MainActivity.kt:469-474 | a pick changes only the ID reference: the private copy, or "" when the copy failed |
| Screens.PickedIdSettles | app/src/main/java/com/samer/compoundassistant/MainActivity.kt:448-474 | a picked ID image loads back as stored and the next load migrates nothing |
| Screens.ShownReference | app/src/main/java/com/samer/compoundassistant/MainActivity.kt:461 | no reference is shown exactly when the stored text is blank |
| Screens.VisitorsScreen.Load | app/src/main/java/com/samer/compoundassistant/MainActivity.kt:851-878 | the screen shows the migrated lists with the visitors in load order, and writes back exactly what changed |
| Screens.VisitorsScreen.ConfirmAdd | app/src/main/java/com/samer/compoundassistant/MainActivity.kt:1303-1341 | a refused add changes nothing; an accepted one sets the two lists, saves the visitors (and the people when remembered) and schedules the new visit |
| Screens.VisitorsScreen.SaveEdit | app/src/main/java/com/samer/compoundassistant/MainActivity.kt:1358-1364 | a refused edit changes nothing; an accepted one replaces by id, saves and reschedules |
| Screens.VisitorsScreen.Delete | app/src/main/java/com/samer/compoundassistant/MainActivity.kt:1366-1370 | deletes by id and saves, leaving the alarms alone |
| Screens.VisitorsScreen.DuplicateTomorrow | app/src/main/java/com/samer/compoundassistant/MainActivity.kt:1146-1153 | appends the copy, saves and schedules it, or changes nothing where the app would fail |
| Screens.VisitorsScreen.DeletePerson | app/src/main/java/com/samer/compoundassistant/MainActivity.kt:1024-1026 | deletes the saved person by id and saves |
| Screens.VisitorsScreen.EditPerson | app/src/main/java/com/samer/compoundassistant/MainActivity.kt:1104-1113 | applies the saved-person edit and saves |
| Screens.VisitorsScreen.SaveAllPeople | app/src/main/java/com/samer/compoundassistant/MainActivity.kt:1377-1383 | replaces the saved people with the dialog's list and saves it |
| Screens.DirectoryScreen.Load | app/src/main/java/com/samer/compoundassistant/MainActivity.kt:541-553 | shows the stored list, seeding and saving the built-in one when none is stored |
| Screens.DirectoryScreen.Add | app/src/main/java/com/samer/compoundassistant/MainActivity.kt:706-719 | a refused add changes nothing; otherwise the appended list is shown and saved |
| Screens.DirectoryScreen.Toggle | app/src/main/java/com/samer/compoundassistant/MainActivity.kt:668-671 | toggles and saves |
| Screens.DirectoryScreen.Edit | app/src/main/java/com/samer/compoundassistant/MainActivity.kt:744-754 | a refused edit changes nothing; otherwise the edited list is shown and saved |
| Screens.DirectoryScreen.Delete | app/src/main/java/com/samer/compoundassistant/MainActivity.kt:768-772 | deletes every equal entry and saves |
| Screens.MyIdScreen.Load | app/src/main/java/com/samer/compoundassistant/MainActivity.kt:448-462 | shows the migrated profile and its non-blank reference, and saves the profile only when it changed |
| Screens.MyIdScreen.Pick | app/src/main/java/com/samer/compoundassistant/MainActivity.kt:466-475 | the copy becomes the shown reference and the stored one, "" when the copy failed |
| Screens.DashboardScreen.Load | app/src/main/java/com/samer/compoundassistant/MainActivity.kt:366-372 | shows the profile and today's visits by arrival, and writes nothing |

## Left out

- Compose layout, dialog visibility flags, Toasts, navigation, the window's secure flag, the
  theme and brand files. None of them changes data.
- File and URI plumbing is abstracted into the `FileStore` oracles:
  - content streams, `FileProvider`, the byte copy and file naming of `copyToPrivateFile`,
    `isUriReadable`, `resolveDisplayName`, and the email cache copy;
  - `Uri.parse` and `toString` are taken to return the text they were given.
- The JSON library is an abstract codec and DataStore a map.
  - A decoder's failure and a JSON `null` both count as "does not decode" for the loaders.
  - A section whose value is JSON `null` counts as absent for import.
  - What the library does with missing fields (Kotlin defaults are bypassed) is not modelled.
- Alarm delivery is left out: AlarmManager, PendingIntent, the notification receiver, channel
  creation, and the time-zone conversion of the trigger to epoch milliseconds.
  - Alarm slots are keyed by the visitor id itself. Two ids with the same `String.hashCode`
    would share a slot in the app.
- `UUID.randomUUID`, `LocalDate.now` and `LocalTime.now` are parameters. Time pickers supply
  valid times, so the forms hold an optional valid `Time`.
- Coroutines: `scope.launch` and `runBlocking` writes are taken to happen in program order.
- Unicode case folding: `lowercase()` and `equals(ignoreCase = true)` fold ASCII letters only.
- Text.Less: Kotlin's `compareTo` compares UTF-16 code units, and the model compares whole
  characters (code points). The two orders differ for texts where a character above U+FFFF meets
  one from U+E000 to U+FFFF at the first difference: Kotlin puts "\U0001F600" before "\uFF21",
  and the model puts it after. This reaches the contact, category, group and visit orders.
- Text.ToIntOrNull: Kotlin reads digits with `Character.digit`, which also accepts non-ASCII
  decimal digits such as Arabic-Indic ones. The model accepts ASCII digits only. So "exactly"
  in the rows of `Reminders.DepartureTime` and `Text.ToIntOrNullRejects` holds for ASCII text.
  The departures the app writes itself are ASCII "HH:mm" texts.
- ToIntOrNullRejects: a non-ASCII decimal digit counts as "neither a digit nor a sign" here,
  though Kotlin would read it (see `Text.ToIntOrNull` above).
- Directory.BuiltInContacts: the 38 built-in entries are transcribed one by one (lines 179-218).
  No property is proved about the literal list itself; the loaders treat it as any contact list.
- Calendar.FormatTime12: the AM/PM marker is the English one, and the locale-dependent
  "EEE, MMM d" date shown on each row is not modelled.
- Visits.DuplicateForTomorrow: where the app throws, the model returns None. This happens when
  the stored date does not parse (`LocalDate.parse` is outside any `runCatching`) or is the
  last representable date. The model does not capture the crash itself.
- Screens.VisitorsScreen.SaveAllPeople: its caller, the manage-saved-people dialog at lines
  1544-1612, is never opened. The flag that would show it is only ever cleared. Its operations
  are modelled anyway, as `Visits.RenameSavedPerson`, `Visits.ChangeSavedPersonImage` and
  `Visits.DeleteSavedPerson`.
- Persistence.Store.Import: a file that cannot be opened is modelled as `Unreadable` with no
  writes. An exception thrown while opening it is not modelled.
- Persistence.Store.Import: the outcome `StoppedAt` stands for a crash. Each section is decoded
  outside any `runCatching`, and `importAll` is called without one at line 1664. So in the app
  a section that fails to decode throws out of the file-picker callback: the sections before it
  stay written, and there is no profile reload and no "Import complete" message. The model
  returns `StoppedAt` with those same writes and does not capture the crash itself.
- Visits.AddTwiceSavesOnce: `FileStore.copy` is a function, so copying the same foreign
  reference twice gives the same private reference. `copyToPrivateFile` names the copy after
  the display name or `image_<current time>.jpg` (lines 1971 and 1977), so in the app two copies
  can differ, and the person would then be remembered twice. For an own reference (every
  picked image is copied when picked, line 844) the lemma needs no such assumption.
- Image-picking callbacks are left out as operations. They only set form fields to
  `EnsurePrivate` of the pick, and the model takes the picks as form inputs.
- The Profile screen (name, apartment, photo) and the email and dial intents are left out.
  They are I/O and string templating outside the data layer.
