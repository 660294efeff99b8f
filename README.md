# Panchakarma booking back end and sign-up form, modelled in Dafny

This project models the core of the Panchakarma patient-management system.
That core has five parts:

- **Time slots** (`utils/timeSlots.js`): the day's catalogue of bookable
  half-hour slots from the clinic configuration (09:00 to 18:00 with a lunch
  break), the free slots left after bookings, 12-hour display text,
  grouping into morning, afternoon and evening, and slot validation.
- **Date helpers** (`utils/dateHelper.js`): rewriting day texts into
  `YYYY-MM-DD`, the `DD-MM-YYYY` display form, and the "valid" and
  "in the past" tests.
- **Appointments** (`routes/appointments.js`): a store of appointments over
  the in-memory arrays of `data/storage.js`. It covers booking, a caller's
  own listing, status updates, doctor assignment, soft cancellation and the
  hourly free-slot query.
- **Notifications** (`routes/notifications.js`): a store of notifications
  with the inbox listing, marking one as read, and creating one.
- **Sign-up form** (`Signup.jsx`): the client-side validation of the form.

Each file of the model corresponds to one of these parts:

- `time_slots.dfy`, `date_helper.dfy`, `appointments.dfy`, `notifications.dfy`
  and `signup.dfy` model the parts above, one file each.
- `seqs.dfy` holds the array steps the handlers use: `filter`, `slice` and a
  stable descending `sort`.
- `js_strings.dfy` holds the JavaScript string operations the code relies
  on: `trim`, `split`, `join`, `padStart`, `parseInt`, string comparison and
  UTF-16 length.
- `wrappers.dfy` holds `Option` and the HTTP-style `Response`.

The source's state is modelled this way:

- The loops of `generateAllTimeSlots` are Dafny `while` loops, proved against
  the function `Catalog`.
- The two route files mutate shared arrays. Each becomes a class with a `seq`
  field. Every handler that changes the array is a method that states the
  new contents of that field; the listings, which only read it, are
  functions.
- An HTTP request's body and parameters are method arguments, and its reply
  is a `Response` value.
- The clock (`new Date()`) is a `now` or `today` parameter.
- The date parser (`new Date(text)`) is a `parse` function parameter.

## Model

| member | source | states |
|---|---|---|
| TimeSlots.GenerateAllTimeSlots | panchakarma-backend/utils/timeSlots.js:16-37 | the nested loops build exactly the catalogue `Catalog(config)` |
| TimeSlots.AddHourSlots | panchakarma-backend/utils/timeSlots.js:21-33 | the inner loop appends the hour's labels every `interval` minutes, stops after minute 0 of the closing hour and skips labels in the lunch window |
| TimeSlots.SlotLabelIsPadded | panchakarma-backend/utils/timeSlots.js:25 | a label is the template text: the zero-padded hour and minute joined by a colon |
| TimeSlots.LabelOrder | panchakarma-backend/utils/timeSlots.js:28 | on labels, JavaScript string comparison (used for the lunch test) is clock order |
| TimeSlots.HourSlotsFromSound | panchakarma-backend/utils/timeSlots.js:21-33 | every label one hour produces is on the grid, inside opening hours and outside lunch |
| TimeSlots.SlotsFromHourSound | panchakarma-backend/utils/timeSlots.js:20-34 | every label produced from an hour onward has the catalogue's shape |
| TimeSlots.CatalogMembership | panchakarma-backend/utils/timeSlots.js:16-37 | a string is in the catalogue iff it is a zero-padded label on the interval grid, within opening hours, not in lunch, and at minute 0 in the closing hour |
| TimeSlots.CatalogOrdered | panchakarma-backend/utils/timeSlots.js:16-37 | the catalogue is strictly increasing under string comparison, has no duplicates, and no slot lies in the lunch window |
| TimeSlots.ShippedLunch | panchakarma-backend/utils/timeSlots.js:6-9 | with the shipped configuration, a label is in the lunch break iff its hour is 13 |
| TimeSlots.ShippedCatalog | panchakarma-backend/utils/timeSlots.js:2-37 | the shipped configuration yields exactly the 17 slots 09:00 to 12:30, 14:00 to 17:30, and 18:00 |
| TimeSlots.CatalogEdges | panchakarma-backend/utils/timeSlots.js:2-37 | 18:00 and 09:30 are slots; 13:00, 13:30, 18:30, 08:30, the unpadded 9:00 and the empty string are not |
| TimeSlots.GetAvailableSlots | panchakarma-backend/utils/timeSlots.js:44-56 | the free slots are the catalogue, in order, minus the booked labels; the booked list is echoed; total is 17 and both counts are lengths |
| TimeSlots.AvailableCountLaw | panchakarma-backend/utils/timeSlots.js:44-56 | the free slots plus the catalogue slots that are booked number 17 |
| TimeSlots.FormatTimeSlot | panchakarma-backend/utils/timeSlots.js:63-68 | 12-hour text: hours above 12 lose 12, hour 0 shows as 12, from hour 12 on the period is PM, minutes are padded to two digits |
| TimeSlots.FormatTimeSlotShape | panchakarma-backend/utils/timeSlots.js:65-67 | the text of a label starts with the hour without a leading zero and ends in ` AM` before noon and ` PM` from noon on |
| TimeSlots.FormatMorningExample | panchakarma-backend/utils/timeSlots.js:59 | `09:00` displays as `9:00 AM` |
| TimeSlots.FormatNoonExample | panchakarma-backend/utils/timeSlots.js:65-66 | `12:30` displays as `12:30 PM` |
| TimeSlots.FormatEveningExample | panchakarma-backend/utils/timeSlots.js:66 | `18:00` displays as `6:00 PM` |
| TimeSlots.ParseDisplayText | panchakarma-backend/utils/timeSlots.js:63-68 | 12-hour text reads back as its 24-hour hour and minute, with 12 AM as hour 0 and 12 PM as hour 12 |
| TimeSlots.FormatTimeSlotRoundTrip | panchakarma-backend/utils/timeSlots.js:63-68 | the 12-hour text of any label of the day reads back as the same hour and minute |
| TimeSlots.GroupTimeSlotsByPeriod | panchakarma-backend/utils/timeSlots.js:75-90 | each group keeps the input's order and holds every slot of its period as often as the input does, and nothing else; the groups are disjoint and together no longer than the input |
| TimeSlots.SlotHourOfLabel | panchakarma-backend/utils/timeSlots.js:78 | `parseInt` of a label's first field is the label's hour |
| TimeSlots.SlotPeriods | panchakarma-backend/utils/timeSlots.js:79-86 | on labels, morning is hours 9 to 11, afternoon 14 to 16 and evening 17 to 18; hours 12 and 13 fall in no group |
| TimeSlots.IsValidTimeSlot | panchakarma-backend/utils/timeSlots.js:97-100 | a text is valid iff it is one of the 17 shipped slots, iff it has the catalogue's shape |
| DateHelper.Normalize | panchakarma-backend/utils/dateHelper.js:6-45 | the result is null exactly for a missing or empty argument |
| DateHelper.Rewrite | panchakarma-backend/utils/dateHelper.js:12-44 | an ISO day is kept; a text in none of the fixed layouts becomes the parsed day, or stays as it is when it does not parse |
| DateHelper.Fallback | panchakarma-backend/utils/dateHelper.js:29-44 | past the fixed layouts the result is the parsed day when the text parses and the text itself otherwise; the `M/D/YYYY` branch changes nothing |
| DateHelper.NormalizeTrims | panchakarma-backend/utils/dateHelper.js:10 | a non-blank argument normalises as its trimmed text does |
| DateHelper.NormalizeBlank | panchakarma-backend/utils/dateHelper.js:7-10 | a blank non-empty argument gives the empty string, and normalising that gives null |
| DateHelper.NormalizeIso | panchakarma-backend/utils/dateHelper.js:13-15 | an argument already in `YYYY-MM-DD` is returned unchanged |
| DateHelper.RewriteDayFirst | panchakarma-backend/utils/dateHelper.js:17-27 | the layout tests turn `DD-MM-YYYY` and `DD/MM/YYYY` into `YYYY-MM-DD` |
| DateHelper.NormalizeDayFirst | panchakarma-backend/utils/dateHelper.js:17-27 | `DD-MM-YYYY` and `DD/MM/YYYY` become `YYYY-MM-DD` with the fields reordered; the slash padding changes nothing |
| DateHelper.NormalizeParsed | panchakarma-backend/utils/dateHelper.js:29-44 | any other non-blank text becomes the parser's day, or stays as trimmed when the parser rejects it |
| DateHelper.NormalizeFixedIso | panchakarma-backend/utils/dateHelper.js:12-27 | every fixed layout normalises to a `YYYY-MM-DD` text |
| DateHelper.NormalizeIdempotent | panchakarma-backend/utils/dateHelper.js:6-27 | normalising a fixed-layout text twice gives the same result as once |
| DateHelper.FormatDateForDisplay | panchakarma-backend/utils/dateHelper.js:52-57 | the result is empty exactly for a missing or empty argument |
| DateHelper.FormatFields | panchakarma-backend/utils/dateHelper.js:55-56 | year, month and day fields come out as day, month and year |
| DateHelper.FormatRoundTrip | panchakarma-backend/utils/dateHelper.js:52-57 | an ISO day displays as `DD-MM-YYYY`, and normalising that gives the day back |
| DateHelper.DashRoundTrip | panchakarma-backend/utils/dateHelper.js:52-57 | a `DD-MM-YYYY` text, normalised and then displayed, is the text again |
| DateHelper.FormatMissingFields | panchakarma-backend/utils/dateHelper.js:55-56 | a text with no dash displays as `undefined-undefined-` followed by the text |
| DateHelper.IsValidDateAsWritten | panchakarma-backend/utils/dateHelper.js:64-68 | `isValidDate` as written: the normalised text parses, and a null normalisation (the epoch) counts as valid |
| DateHelper.IsValidDateAsWrittenAcceptsNothing | panchakarma-backend/utils/dateHelper.js:64-68 | as written, a missing or empty argument counts as a valid date |
| DateHelper.IsValidDate | panchakarma-backend/utils/dateHelper.js:64-68 | `isValidDate` as intended: a present argument whose normalised text parses |
| DateHelper.IsValidDateLaws | panchakarma-backend/utils/dateHelper.js:64-68 | as intended, only a present non-empty argument can be valid; such an argument is valid iff its normalised text parses; a fixed layout is valid iff its ISO rewrite parses |
| DateHelper.IsoDayOrder | panchakarma-backend/utils/dateHelper.js:80 | string order of `YYYY-MM-DD` days is their chronological order |
| DateHelper.IsDateInPast | panchakarma-backend/utils/dateHelper.js:75-81 | midnight UTC of the normalised date's day comes before local midnight of today: the day is before today, or west of UTC also today itself; an unparseable date is never past; a missing one is the epoch |
| DateHelper.DayBeforeByKey | panchakarma-backend/utils/dateHelper.js:77-80 | on ISO days the comparison is the order of their YYYYMMDD values, strict on UTC and east of it and non-strict west of it |
| DateHelper.IsDateInPastByDay | panchakarma-backend/utils/dateHelper.js:75-81 | a fixed-layout date naming a real day is in the past iff its day is before today, or on or before today west of UTC |
| DateHelper.IsDateInPastStrict | panchakarma-backend/utils/dateHelper.js:75-81 | a text that names no day is never in the past, and today itself is in the past exactly west of UTC |
| DateHelper.IsDateInPastMissing | panchakarma-backend/utils/dateHelper.js:75-81 | a missing argument stands for 1970-01-01, so it is in the past on any later day, and west of UTC on that day too |
| Appointments.OrElse | panchakarma-backend/routes/appointments.js:48 | `x \|\| d`: the value when present and non-empty, the default otherwise |
| Appointments.DoctorOrNull | panchakarma-backend/routes/appointments.js:44 | `doctorId \|\| null`: a missing id and id 0 both become null |
| Appointments.FindTherapy | panchakarma-backend/routes/appointments.js:35 | the therapy at the first position holding the parsed id, or none when no therapy has it (a non-numeric id matches none) |
| Appointments.FindDoctor | panchakarma-backend/routes/appointments.js:245 | the user at the first position with that id and the doctor role, or none when there is no such user |
| Appointments.SeedLookups | panchakarma-backend/data/storage.js:7-102 | in the development store therapy 1 exists and 5 does not, user 2 is a doctor, and the admin, user 1, is not |
| Appointments.IndexOfId | panchakarma-backend/routes/appointments.js:196 | `findIndex` by id: the first matching position, or -1 exactly when no appointment has that id |
| Appointments.IndexOfIdPositions | panchakarma-backend/routes/appointments.js:41 | while ids are positions plus one, id `k` is found at position `k - 1` |
| Appointments.HourlySlots | panchakarma-backend/routes/appointments.js:316-320 | the loop builds the nine hourly labels 09:00 to 17:00 |
| Appointments.HourlyRangeLabels | panchakarma-backend/routes/appointments.js:316-320 | the grid's element `i` is the label of hour `lo + i` |
| Appointments.HourlyGridLabels | panchakarma-backend/routes/appointments.js:316-320 | the grid has 9 zero-padded slot labels, one per hour 9 to 17 |
| Appointments.HourlyGridOrdered | panchakarma-backend/routes/appointments.js:316-320 | the grid is strictly increasing and free of duplicates |
| Appointments.BookedTimes | panchakarma-backend/routes/appointments.js:307-313 | one entry per appointment not cancelled that holds that day (for that doctor when one is named), its time, in store order; a time appears iff such an appointment holds it |
| Appointments.CeilDiv | panchakarma-backend/routes/appointments.js:114 | with a positive page size, the page count is the least that covers the total |
| Appointments.Selected | panchakarma-backend/routes/appointments.js:78-86 | exactly the caller's own appointments (and for a doctor those assigned to them), restricted to the requested status when a status filter other than `all` is given |
| Appointments.MyAppointments | panchakarma-backend/routes/appointments.js:74-120 | the page is the selection sorted newest first and sliced at page (default 1) and limit (default 10); total counts the selection; a page is never longer than the limit |
| Appointments.MyAppointmentsPages | panchakarma-backend/routes/appointments.js:88-94 | the listing is the selection sorted newest first with nothing lost, and each selected appointment appears on the page its position gives |
| Appointments.AppointmentStore.constructor | panchakarma-backend/data/storage.js:52 | the store starts with no appointments, over the given users and therapies |
| Appointments.AppointmentStore.Create | panchakarma-backend/routes/appointments.js:27-71 | 400 when a required field is falsy; 404 for an unknown therapy; otherwise 201 with the new record appended, with id length + 1, status pending, empty notes by default and `doctorId \|\| null` |
| Appointments.DoubleBooking | panchakarma-backend/routes/appointments.js:27-53 | two bookings of the same day, time and doctor both succeed and both are stored |
| Appointments.AppointmentStore.UpdateStatus | panchakarma-backend/routes/appointments.js:191-228 | 404 for an unknown id; 403 for a patient's foreign booking or a doctor's booking held by another doctor; otherwise that record alone gets the status, the notes or the old notes, and the time |
| Appointments.AppointmentStore.AssignDoctor | panchakarma-backend/routes/appointments.js:231-262 | 403 for non-admins; 404 for an unknown appointment or doctor; otherwise that record alone gets the doctor and status scheduled, and the assigned id names a doctor |
| Appointments.AppointmentStore.Cancel | panchakarma-backend/routes/appointments.js:265-295 | 404 for an unknown id; 403 for a patient's foreign booking; otherwise that record alone becomes cancelled and nothing is deleted |
| Appointments.AppointmentStore.AvailableSlots | panchakarma-backend/routes/appointments.js:298-333 | 400 without a date; otherwise a grid hour is offered iff no live appointment holds it on that day (for that doctor) |
| Appointments.AsWrittenCode | panchakarma-backend/routes/appointments.js:3-38 | as written, every route reply is an error: 400 or 403 from the guards, 500 from the unbound arrays otherwise |
| Appointments.AsWrittenNeverBooks | panchakarma-backend/routes/appointments.js:35 | as written, a booking with all fields present fails with 500 and no route ever answers 200 |
| Notifications.Inbox | panchakarma-backend/routes/notifications.js:30-39 | holds exactly the caller's and the broadcast notifications that pass the read filter |
| Notifications.Unread | panchakarma-backend/routes/notifications.js:52 | holds exactly the unread members |
| Notifications.TotalSplits | panchakarma-backend/routes/notifications.js:49-53 | with no read filter, unread and read notifications add up to the total |
| Notifications.NotificationStore.constructor | panchakarma-backend/data/storage.js:103 | the store starts with no notifications |
| Notifications.NotificationStore.List | panchakarma-backend/routes/notifications.js:26-58 | the page is the inbox sorted newest first and sliced at page (default 1) and limit (default 10); it holds only visible notifications passing the filter; total and unread count are over the whole inbox; a read-only listing has no unread; the page is at most the limit |
| Notifications.ListPages | panchakarma-backend/routes/notifications.js:41-47 | the listing is the inbox sorted newest first with nothing lost, and each inbox notification appears on the page its position gives |
| Notifications.IndexOfVisible | panchakarma-backend/routes/notifications.js:64-67 | `findIndex`: the first notification with that id that is the caller's or a broadcast, or -1 exactly when there is none |
| Notifications.NotificationStore.MarkRead | panchakarma-backend/routes/notifications.js:61-81 | 404 when no visible notification has that id; otherwise that one alone becomes read with the read time, and the length is unchanged |
| Notifications.MarkReadTwice | panchakarma-backend/routes/notifications.js:61-81 | marking the same notification read twice gives the same reply both times and leaves the same read flags |
| Notifications.IndexOfVisibleStable | panchakarma-backend/routes/notifications.js:64-67 | the lookup depends only on ids and recipients, so marking read does not move it |
| Notifications.NotificationStore.Create | panchakarma-backend/routes/notifications.js:84-108 | 201 with the notification appended, id length + 1, recipient `userId \|\| null`, type defaulting to info, unread |
| Signup.IsEmailLike | panchakarma-react/src/components/Auth/Signup.jsx:365 | the test holds iff the text matches `/^[^\s@]+@[^\s@]+\.[^\s@]+$/` |
| Signup.ValidateForm | panchakarma-react/src/components/Auth/Signup.jsx:358-375 | the first failing check's message, in order (name, email present, email shape, password length, confirmation), and none exactly when all pass |
| Signup.EmailPatternNotBlank | panchakarma-react/src/components/Auth/Signup.jsx:362-366 | an address matching the pattern is non-empty and has nothing to trim |
| Signup.PaddedEmailRejected | panchakarma-react/src/components/Auth/Signup.jsx:362-366 | an address with leading or trailing whitespace passes the presence check but fails the shape check |
| Signup.PasswordLengthUnits | panchakarma-react/src/components/Auth/Signup.jsx:368 | the length test counts UTF-16 units: six characters always pass, a passing password has at least three characters, and astral characters count two units each |
| Seqs.SortDesc | panchakarma-backend/routes/notifications.js:42 | the sort by creation time gives a permutation ordered newest first |
| Seqs.SortDescStable | panchakarma-backend/routes/notifications.js:42 | the sort keeps the original order among equal times |
| Seqs.PaginateCovers | panchakarma-backend/routes/notifications.js:45-47 | with a positive limit, element `i` is at place `i % limit` of page `i / limit + 1` |
| Seqs.PaginateSorted | panchakarma-backend/routes/notifications.js:45-47 | a page of a list sorted newest first is sorted |
| Seqs.SortedPagesCover | panchakarma-backend/routes/appointments.js:88-94 | a sorted listing cut into pages keeps its length, and element `i` is at place `i % limit` of page `i / limit + 1` |
| Seqs.Filter | panchakarma-backend/routes/notifications.js:30-32 | `filter` keeps order, keeps every passing element as often as it occurs, and drops the rest |
| JsStrings.SplitJoin | panchakarma-backend/utils/dateHelper.js:19 | splitting a join of separator-free fields gives the fields back |
| JsStrings.TrimIdempotent | panchakarma-backend/utils/dateHelper.js:10 | trimming twice is trimming once |
| JsStrings.ParseIntOfDigits | panchakarma-backend/utils/timeSlots.js:78 | `parseInt` of a digit string is its decimal value |

## Left out

- `new Date(text)`: the parser is the `parse` parameter, so the model says nothing about which texts JavaScript accepts or which day it picks.
- Time zones: `isDateInPast` compares midnight UTC of the date with local midnight of today. The model takes only the sign of the server's UTC offset (`westOfUtc`) and today's local day. Daylight-saving changes within a day are not modelled.
- `getTodayDate` (`utils/dateHelper.js:87-89`) reads the clock and is not modelled; the current day is the `today` parameter.
- Appointments.MyAppointments: `page` and `limit` are integers with the defaults 1 and 10; text such as `"2"` multiplied into the slice start, and `parseInt(page)` of the reply, are taken as already numeric.
- Numbers: ids, page and limit are unbounded integers. `NaN`, doubles above 2^53, non-numeric page or limit text, and the string-versus-number id mismatches that strict `===` can produce are not modelled.
- The admin listing `GET /` (`routes/appointments.js:123-188`) is not modelled. Its sort goes through `new Date` parsing of stored values.
- Reply contents: the therapy, patient and doctor objects added to replies are left out, and so are the fixed success-message texts of the create, status-update and doctor-assignment replies. Replies carry the stored record.
- The JWT middleware, the database pool, logging and the 500 replies of the `catch` blocks are outside the model, apart from the as-written finding below.
- Concurrency: Node runs each handler in one turn, so handlers are modelled as atomic methods.
- Appointments.AppointmentStore.UpdateStatus: a missing `status` field would store `undefined`; the model takes the status as a string.
- Notifications.NotificationStore.Create: an explicit `type: null` would be stored as null; the model takes the type as optional and defaults only a missing one.
- TimeSlots.FormatTimeSlot: specified only on clock texts (two digit fields of at most 15 digits); behaviour on other text is not modelled.
- Appointments.AppointmentStore: the store methods bind the route file's `users`, `appointments` and `therapies` to the arrays of `data/storage.js`, as evidently intended (see Findings). The as-written behaviour is `Appointments.AsWrittenCode`.
- Sign-up: only `validateForm` is modelled; the form's rendering, state handling and submission are React code with no logic to model.

## Findings

| source | as written | input that shows it | evidently intended | confidence | as-written member | corrected member |
|---|---|---|---|---|---|---|
| panchakarma-backend/utils/dateHelper.js:64-68 | `normalizeDate` returns null for a missing or empty argument, and `new Date(null)` is the epoch, a valid date | `isValidDate("")` and `isValidDate(undefined)` are true | a missing or empty date is not valid | not executed | DateHelper.IsValidDateAsWrittenAcceptsNothing | DateHelper.IsValidDateLaws |
| panchakarma-backend/routes/appointments.js:3 | the file imports only `pool`; `therapies`, `appointments` and `users` are never bound, so each handler throws a ReferenceError after its guards and replies 500 | `POST /` with `therapyId` "1", a date and a time replies 500 | the handlers use the arrays of `data/storage.js` | not executed | Appointments.AsWrittenNeverBooks | Appointments.AppointmentStore.Create |
