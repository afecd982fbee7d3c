# Clinic front-desk pages: list bookkeeping in Dafny

This project models the in-memory bookkeeping of the four list pages of a clinic
front-desk portal: the walk-in queue board, the appointment book, the doctor
directory and the patient register. Each page keeps a list of records in its
React state. The operations on that list are modelled here:

- a per-row menu that overwrites one enum field (queue status, appointment status,
  doctor availability, patient status) on the record with a given id;
- a button that appends a new record (queue and patients only);
- a search box that keeps the records whose fields contain the search term;
- stat cards that count the records per enum value.

Layout, one module per file:

- `text.dfy` (`Text`): ASCII `toLowerCase` and `includes`. `Includes` comes with a
  reference definition (an occurrence position exists).
- `decimal.dfy` (`Decimal`): `String(n)` and `n.toString()`, with a parser that
  inverts them. It also defines the id numbering `"1"`, `"2"`, ... that every page's
  sample data follows and that `String(length + 1)` extends.
- `seqs.dfy` (`Seqs`): `filter`, `filter(...).length` and `map`, with their
  laws: subsequence, membership, the count as a multiplicity, and the count after an
  append or a replacement.
- `queue.dfy`, `appointments.dfy`, `doctors.dfy`, `patients.dfy`: one module per
  page. Each holds the record datatype, the state updater that the handler passes to
  `setX`, the filter predicate, the statistics, and a class whose field is the page's
  list. The class's constructor sets the hardcoded initial list. Its methods are the
  handlers. `Valid()` is the invariant every reachable state keeps.

The page invariants are facts about the code. No record is ever removed. Ids are
`"1"`, `"2"`, ... in list order. On the queue board, queue numbers strictly increase
along the list, and the list is never empty. Because ids are unique, an update by id
changes at most one record, and exactly one when the id is that of a listed row.

No dialog checks its inputs before a record is added. The patient dialog's inputs
are uncontrolled, and `addNewPatient` ignores them and builds a fixed record. The
appointment and doctor dialogs' submit buttons only close the dialog, so those pages
have no add operation.

## Model

| member | source | states |
|---|---|---|
| `Text.Lower` | src/pages/Queue.tsx:114 | `toLowerCase` keeps the length and lower-cases each character (ASCII only) |
| `Text.Includes` | src/pages/Queue.tsx:114-115 | `includes` holds exactly when the needle occurs at some position of the haystack |
| `Text.OccursShift` | src/pages/Queue.tsx:114-115 | an occurrence is at position 0 or is an occurrence in the rest of the string |
| `Text.IncludesEmpty` | src/pages/Queue.tsx:114 | every string includes the empty term |
| `Text.LowerIdempotent` | src/pages/Doctors.tsx:131-133 | lower-casing an already lower-cased term changes nothing |
| `Decimal.NatToString` | src/pages/Queue.tsx:97 | `String(n)` is a non-empty string of digits with no leading zero |
| `Decimal.ParseNatToString` | src/pages/Queue.tsx:97 | reading the digits of `String(n)` back gives `n` |
| `Decimal.NatToStringInjective` | src/pages/Queue.tsx:97 | distinct numbers give distinct id strings |
| `Decimal.IntToString` | src/pages/Queue.tsx:115 | `queueNumber.toString()`, with a minus sign for negatives, parses back to the number |
| `Decimal.SequentialIdsDistinct` | src/pages/Queue.tsx:40-78 | in a list whose ids are "1", "2", ... in order, two positions share an id only if they are the same position |
| `Decimal.NextIdIsFresh` | src/pages/Patients.tsx:116 | `String(length + 1)` is no existing id, and appending it keeps the ids sequential |
| `Seqs.Filter` | src/pages/Queue.tsx:113-116 | `filter` keeps exactly the elements that satisfy the predicate, each as many times as it occurs in the list (rejected ones not at all), and never lengthens the list |
| `Seqs.MapSeqAppend` | src/pages/Patients.tsx:125 | the ids of the list after `[...prev, newRecord]` are the old ids followed by the new record's id |
| `Seqs.FilterIsSubsequence` | src/pages/Queue.tsx:113-116 | the filtered list is a subsequence of the list: order kept, elements only deleted |
| `Seqs.FilterKeepsAll` | src/pages/Queue.tsx:113-116 | a predicate true of every element keeps the whole list |
| `Seqs.FilterAgrees` | src/pages/Doctors.tsx:130-134 | two predicates that agree on the elements filter alike |
| `Seqs.CountKey` | src/pages/Queue.tsx:120-122 | `filter(x => key(x) === k).length` is at most the length, and is zero exactly when no element has key `k` |
| `Seqs.CountKeyIsMultiplicity` | src/pages/Queue.tsx:120-122 | `filter(x => key(x) === k).length` equals the multiplicity of `k` among the keys |
| `Seqs.CountKeyAppend` | src/pages/Queue.tsx:106 | appending an element adds one to its key's count and nothing to any other |
| `Seqs.CountKeyReplace` | src/pages/Queue.tsx:83-87 | replacing one element moves one unit of count from its old key to its new key |
| `QueuePage.StatusUpdated` | src/pages/Queue.tsx:81-88 | same length and order; an entry with id `patientId` becomes that entry with status `newStatus` and every other field kept; other entries are untouched |
| `QueuePage.StatusUpdateUnknownId` | src/pages/Queue.tsx:82-88 | an id that matches no entry leaves the list unchanged |
| `QueuePage.StatusUpdateIdempotent` | src/pages/Queue.tsx:82-88 | applying the same update twice equals applying it once |
| `QueuePage.IdAt` | src/pages/Queue.tsx:40-78 | on a valid board the entry at position i has id `String(i + 1)` |
| `QueuePage.StatusUpdateSingleEntry` | src/pages/Queue.tsx:81-88 | on a valid board the update by the id of position k changes only the status of entry k |
| `QueuePage.StatusUpdatePreservesInvariant` | src/pages/Queue.tsx:81-88 | the update keeps the board non-empty, sequentially numbered and strictly increasing in queue number |
| `QueuePage.MaxQueueNumber` | src/pages/Queue.tsx:98 | `Math.max` over the queue numbers of a non-empty list is at least each of them and equals one of them |
| `QueuePage.NewPatient` | src/pages/Queue.tsx:96-105 | the new entry's queue number is greater than every existing one and is one more than some existing one (max + 1) |
| `QueuePage.NewNumberFollowsLast` | src/pages/Queue.tsx:98 | on a strictly increasing board the new number is the last number plus one |
| `QueuePage.AddPreservesInvariant` | src/pages/Queue.tsx:95-106 | appending the new entry keeps the board invariant, so queue numbers stay strictly increasing; its id is fresh |
| `QueuePage.Matches` | src/pages/Queue.tsx:114-115 | an entry matches iff the lower-cased term occurs in its lower-cased name or the term as typed occurs in its decimal queue number; the empty term matches every entry |
| `QueuePage.Filtered` | src/pages/Queue.tsx:113-116 | a subsequence of the list; an entry is kept iff the lower-cased term is in its lower-cased name or the raw term is in its decimal queue number, and a kept entry appears as often as in the list |
| `QueuePage.EmptyTermKeepsAll` | src/pages/Queue.tsx:113-116 | an empty search term keeps every entry |
| `QueuePage.StatusCountsPartition` | src/pages/Queue.tsx:29 | the four statuses' counts add up to the length |
| `QueuePage.Stats` | src/pages/Queue.tsx:118-123 | total is the length; each card counts the entries with that status; waiting + in progress + urgent is the total less the completed entries |
| `QueuePage.StatsAfterAdd` | src/pages/Queue.tsx:95-123 | adding a patient adds one to total and one to waiting and changes no other card |
| `QueuePage.StatsAfterUpdate` | src/pages/Queue.tsx:81-123 | setting the status of entry k moves one unit from the old status's count to the new one's |
| `QueuePage.Queue.constructor` | src/pages/Queue.tsx:38-79 | the initial list is the four sample patients, and it satisfies the board invariant |
| `QueuePage.Queue.UpdatePatientStatus` | src/pages/Queue.tsx:81-88 | the new list is the updater applied to the old one, and the invariant is kept |
| `QueuePage.Queue.AddNewPatient` | src/pages/Queue.tsx:95-106 | the new list is the old one with exactly the new entry appended: id `String(length + 1)`, queue number max + 1, status waiting, priority normal; the invariant is kept |
| `AppointmentsPage.IdAt` | src/pages/Appointments.tsx:58-103 | on a valid book the entry at position i has id `String(i + 1)` |
| `AppointmentsPage.StatusUpdated` | src/pages/Appointments.tsx:105-112 | same length and order; entries with a matching id get `newStatus` with every other field kept; other entries are untouched |
| `AppointmentsPage.StatusUpdateUnknownId` | src/pages/Appointments.tsx:106-112 | a non-matching id leaves the list unchanged |
| `AppointmentsPage.StatusUpdateIdempotent` | src/pages/Appointments.tsx:106-112 | applying the same update twice equals applying it once |
| `AppointmentsPage.StatusUpdateSingleEntry` | src/pages/Appointments.tsx:105-112 | with sequential ids the update changes only the status of the one entry addressed |
| `AppointmentsPage.AnyStatusMayFollowAny` | src/pages/Appointments.tsx:319-330 | from any current status the menu reaches any of the four, e.g. completed back to scheduled, and nothing else of the entry changes |
| `AppointmentsPage.StatusUpdatePreservesInvariant` | src/pages/Appointments.tsx:105-112 | the update keeps the ids sequential |
| `AppointmentsPage.Matches` | src/pages/Appointments.tsx:120-122 | an entry matches iff the lower-cased term occurs in the lower-cased patient name, doctor name or specialization; the empty term matches every entry |
| `AppointmentsPage.Filtered` | src/pages/Appointments.tsx:119-123 | a subsequence; an entry is kept iff the lower-cased term is in the lower-cased patient name, doctor name or specialization, and a kept entry appears as often as in the list |
| `AppointmentsPage.EmptyTermKeepsAll` | src/pages/Appointments.tsx:119-123 | an empty term keeps every entry |
| `AppointmentsPage.SearchIgnoresCase` | src/pages/Appointments.tsx:119-123 | lower-casing the term does not change the result |
| `AppointmentsPage.StatusCountsPartition` | src/pages/Appointments.tsx:50 | the four statuses' counts add up to the length |
| `AppointmentsPage.Stats` | src/pages/Appointments.tsx:125-130 | total is the length; each card counts its status; scheduled + in progress + completed is the total less the cancelled entries |
| `AppointmentsPage.Appointments.constructor` | src/pages/Appointments.tsx:58-103 | the initial list is the four sample appointments, numbered "1" to "4" |
| `AppointmentsPage.Appointments.UpdateAppointmentStatus` | src/pages/Appointments.tsx:105-112 | the new list is the updater applied to the old one, and the invariant is kept |
| `DoctorsPage.IdAt` | src/pages/Doctors.tsx:58-114 | on a valid directory the entry at position i has id `String(i + 1)` |
| `DoctorsPage.AvailabilityUpdated` | src/pages/Doctors.tsx:116-123 | same length and order; entries with a matching id get `newAvailability` with every other field kept; other entries are untouched |
| `DoctorsPage.AvailabilityUpdateUnknownId` | src/pages/Doctors.tsx:117-123 | a non-matching id leaves the list unchanged |
| `DoctorsPage.AvailabilityUpdateIdempotent` | src/pages/Doctors.tsx:117-123 | applying the same update twice equals applying it once |
| `DoctorsPage.AvailabilityUpdateSingleEntry` | src/pages/Doctors.tsx:116-123 | with sequential ids the update changes only the availability of the one entry addressed |
| `DoctorsPage.AvailabilityUpdatePreservesInvariant` | src/pages/Doctors.tsx:116-123 | the update keeps the ids sequential |
| `DoctorsPage.Matches` | src/pages/Doctors.tsx:131-133 | an entry matches iff the lower-cased term occurs in the lower-cased name, specialization or location; the empty term matches every entry |
| `DoctorsPage.Filtered` | src/pages/Doctors.tsx:130-134 | a subsequence; an entry is kept iff the lower-cased term is in the lower-cased name, specialization or location, and a kept entry appears as often as in the list |
| `DoctorsPage.EmptyTermKeepsAll` | src/pages/Doctors.tsx:130-134 | an empty term keeps every entry |
| `DoctorsPage.SearchIgnoresCase` | src/pages/Doctors.tsx:130-134 | lower-casing the term does not change the result |
| `DoctorsPage.AvailabilityCountsPartition` | src/pages/Doctors.tsx:48 | the three availabilities' counts add up to the length |
| `DoctorsPage.Stats` | src/pages/Doctors.tsx:136-141 | total is the length; each card counts its availability; available + busy + off duty equals the total |
| `DoctorsPage.AvailabilityColor` | src/pages/Doctors.tsx:143-154 | each availability's text colour reads back as that availability |
| `DoctorsPage.AvailabilityBadgeVariant` | src/pages/Doctors.tsx:156-167 | each availability's badge variant reads back as that availability |
| `DoctorsPage.StylesDistinguishAvailability` | src/pages/Doctors.tsx:143-167 | both lookups are total on the enum and can be read back as the availability, so the three values get three distinct colours and three distinct variants |
| `DoctorsPage.Doctors.constructor` | src/pages/Doctors.tsx:58-114 | the initial list is the five sample doctors, numbered "1" to "5" |
| `DoctorsPage.Doctors.UpdateDoctorAvailability` | src/pages/Doctors.tsx:116-123 | the new list is the updater applied to the old one, and the invariant is kept |
| `PatientsPage.IdAt` | src/pages/Patients.tsx:51-112 | on a valid register the entry at position i has id `String(i + 1)` |
| `PatientsPage.NewPatient` | src/pages/Patients.tsx:115-124 | the new record's id reads back as length + 1; it is active, has no visits, last visit "Never", and the given registration date |
| `PatientsPage.AddPreservesInvariant` | src/pages/Patients.tsx:114-125 | appending the new record keeps the ids sequential, and its id is one no patient has |
| `PatientsPage.StatusUpdated` | src/pages/Patients.tsx:133-140 | same length and order; entries with a matching id get `newStatus` with every other field kept; other entries are untouched |
| `PatientsPage.StatusUpdateUnknownId` | src/pages/Patients.tsx:134-140 | a non-matching id leaves the list unchanged |
| `PatientsPage.StatusUpdateIdempotent` | src/pages/Patients.tsx:134-140 | applying the same update twice equals applying it once |
| `PatientsPage.StatusUpdateSingleEntry` | src/pages/Patients.tsx:133-140 | with sequential ids the update changes only the status of the one entry addressed |
| `PatientsPage.StatusUpdatePreservesInvariant` | src/pages/Patients.tsx:133-140 | the update keeps the ids sequential |
| `PatientsPage.Toggled` | src/pages/Patients.tsx:345 | the menu always offers the other status |
| `PatientsPage.ToggledAt` | src/pages/Patients.tsx:345 | the row toggle keeps the length and changes the status of the patient at that row, and only the status |
| `PatientsPage.ToggleTwiceRestores` | src/pages/Patients.tsx:345 | the toggle flips the status of exactly the patient on that row, and toggling that patient twice restores the list |
| `PatientsPage.Matches` | src/pages/Patients.tsx:148-150 | a patient matches iff the lower-cased term occurs in the lower-cased name, the term as typed occurs in the phone, or the lower-cased term occurs in the lower-cased email; the empty term matches every patient |
| `PatientsPage.Filtered` | src/pages/Patients.tsx:147-151 | a subsequence; an entry is kept iff the lower-cased term is in the lower-cased name, or the term as typed is in the phone, or the lower-cased term is in the lower-cased email, and a kept entry appears as often as in the list |
| `PatientsPage.EmptyTermKeepsAll` | src/pages/Patients.tsx:147-151 | an empty term keeps every entry |
| `PatientsPage.StatusCountsPartition` | src/pages/Patients.tsx:43 | the two statuses' counts add up to the length |
| `PatientsPage.Stats` | src/pages/Patients.tsx:153-156 | total is the length; each card counts its status; active + inactive equals the total |
| `PatientsPage.StatsAfterAdd` | src/pages/Patients.tsx:114-156 | registering adds one to the total and one to active |
| `PatientsPage.StatsAfterToggle` | src/pages/Patients.tsx:133-156 | a toggle keeps the total and moves one unit between active and inactive |
| `PatientsPage.Patients.constructor` | src/pages/Patients.tsx:51-112 | the initial list is the six sample patients, numbered "1" to "6" |
| `PatientsPage.Patients.AddNewPatient` | src/pages/Patients.tsx:114-125 | the new list is the old one with exactly the new record appended: id `String(length + 1)`, no visits, active, last visit "Never" |
| `PatientsPage.Patients.UpdatePatientStatus` | src/pages/Patients.tsx:133-140 | the new list is the updater applied to the old one, and the invariant is kept |
| `PatientsPage.Patients.ToggleStatus` | src/pages/Patients.tsx:345 | the row menu calls the update with the row patient's id and the other status |

## Left out

- Rendering, dialogs, dropdown menus and toast notifications, including the `replace("-", " ")` in labels. They only affect what is displayed.
- The search term and dialog-open flags in page state. `Filtered` takes the term as a parameter.
- Anything read from `Date`. The queue's `checkInTime` and the patient's `registrationDate` are parameters of the add handlers. The `newThisMonth` card is not modelled.
- `Math.max` over an empty list, which gives `-Infinity`. It cannot happen: the board starts with four patients, nothing removes one, and `Valid()` records that the list is non-empty.
- `Math.max(...spread)` at src/pages/Queue.tsx:98 passes every queue number as an argument, so a list longer than the engine's argument limit throws a `RangeError`. The model has no argument limit.
- `toLowerCase` beyond ASCII capital letters. Full Unicode case mapping is not modelled.
- JavaScript numbers are doubles. Queue numbers and visit counts are unbounded integers here, so precision loss above 2^53 is not modelled.
- Both `addNewPatient` handlers read the list from the render's closure but append to React's `prev`: on the queue the id and the maximum come from `patients` (src/pages/Queue.tsx:97-98) and the append is to `prev` (src/pages/Queue.tsx:106); on the register the id comes from `patients` (src/pages/Patients.tsx:116) and the append is to `prev` (src/pages/Patients.tsx:125). The model treats each handler as one step on a single current list, so React's batching of several updates within one render is not modelled.
- src/hooks/useSupabase.ts (remote store access and cache invalidation), src/pages/Login.tsx and the route guard in src/App.tsx (timers and browser storage), src/components/layout/sidebar.tsx, src/components/ui/status-badge.tsx, src/pages/Dashboard.tsx and src/main.tsx. These are network, storage or display code with no list logic.
