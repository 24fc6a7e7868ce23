# Fitness class booking: a Dafny model of the booking and capacity engine

This project models the core of a small fitness-class booking service.
Instructors run fitness classes; each class has a capacity (`total_slots`) and
a counter of remaining places (`available_slots`). Clients book a place by
class id, name and email, and list their bookings by email. The model covers
three parts:

- **Entity constraints** (`Models.dfy`, from `src/booking/models.py`): the
  class-type and booking-status choices, the weekday codes, the records for
  instructors, classes and bookings, the field validators (duration 30–180
  minutes, capacity 1–50, available slots at least 0), the unique instructor
  email, the unique (class, client email) pair, the default ordering of
  classes by start instant and of instructors by name, and the text form of
  a class, which turns weekday codes into day names. `Ordering.dfy` holds the
  generic insertion sort and the lexicographic string order behind the two
  orderings.
- **Booking creation** (`Ledger.dfy`, from `BookingSerializer` in
  `fitness_booking/src/booking/serializer.py`). First, request validation
  refuses an unknown class id and a (class, email) pair that is already
  booked. Then creation refuses a class with `available_slots <= 0`.
  Otherwise it takes exactly one slot from that class and appends one
  booking row, whose status and `booked_at` are the request's when given and
  otherwise CONFIRMED and the current time. `Book` states the whole effect on the tables as a
  value. `Store.CreateBooking` performs it in place on a `Store` object whose
  fields are the three tables. `Consistent` is the store invariant: the
  constraints the database enforces.
- **Read paths** (`Views.dfy`, from `src/booking/views.py`). The class list
  returns every class in start order. The timezone is the caller's
  `user_timezone`, or `Asia/Kolkata` when none is given. The booking list
  needs a non-empty `client_email` and returns exactly the bookings with that
  email, in table order.

Proved beyond the single-call contracts:

- The per-class ledger balances: available slots plus the class's booking
  rows is unchanged by every booking request (`LedgerBalance`).
- Hence a class whose available slots started within its capacity is never
  booked beyond it (`BookPreservesBalanced`).
- A second request for a booked pair is refused without change (`RebookingRefused`).
- Listings after a booking: the client's list gains exactly the new row, last,
  and other clients' lists do not change (`ListingAfterBooking`).
- The two-booking scenario of the model tests (`TwoBookingsScenario`).

- No field validator bounds `available_slots` by `total_slots`: the validators
  admit a class with more available slots than places (`CapacityNotChecked`),
  so the capacity bound is proved to be kept by booking where it already holds.

## Model

| member | source | states |
|---|---|---|
| `Models.ParseClassType` | src/booking/models.py:21-26 | a stored class name is accepted exactly when it is YOGA, ZUMBA, HIIT or PILATES, and parsing inverts the choice's code |
| `Models.ParseStatus` | src/booking/models.py:63-70 | a booking status is CONFIRMED or CANCELLED, and parsing inverts the choice's code (the default, `DefaultStatus`, is CONFIRMED) |
| `Models.ParseWeekday` | src/booking/models.py:28-36 | the seven weekday codes MON..SUN are recognised, each as its own weekday, and nothing else is |
| `Models.DayName` | src/booking/models.py:51 | a known weekday code renders as its full name; any other string is left unchanged |
| `Models.RenderDaysAppend` | src/booking/models.py:51 | rendering keeps list order: the rendering of a concatenation is the two renderings joined by ", " |
| `Models.RenderListedDays` | src/booking/models.py:51 | ["MON", "WED", "THU"] renders as "Monday, Wednesday, Thursday" |
| `Models.RenderTextDays` | src/booking/models.py:46-51 | a day value stored as the string "MON" renders character by character, as "M, O, N" |
| `Models.DescribeYogaClass` | src/booking/models.py:50-52 | the text form of a class is label, instructor, rendered days and start time: "Yoga with Jane Doe on Monday, Wednesday, Thursday at 08:00:00" |
| `Models.CapacityNotChecked` | src/booking/models.py:43-45 | the field validators admit a class whose available slots exceed its capacity |
| `Models.ClassesByStart` | src/booking/models.py:54-55 | the class table is returned as a permutation of its rows, in ascending start instant |
| `Models.InstructorsByName` | src/booking/models.py:17-18 | the instructor table is returned as a permutation of its rows, ordered by name |
| `Ordering.SortBy` | src/booking/models.py:55 | sorting under a total preorder yields a sorted permutation of the input |
| `Ordering.StringLeTotal` | src/booking/models.py:18 | any two names are comparable in the name order |
| `Ordering.StringLeTransitive` | src/booking/models.py:18 | the name order is transitive |
| `Ordering.StringLeAntisymmetric` | src/booking/models.py:18 | two names each ordered before the other are equal |
| `Ledger.FindClass` | fitness_booking/src/booking/serializer.py:39-43 | the primary-key lookup finds a position holding the id exactly when some class has that id |
| `Ledger.Validate` | fitness_booking/src/booking/serializer.py:39-53 | validation fails with ClassNotFound exactly when no class has the id, with DuplicateBooking exactly when the class exists and the (class, email) pair is already booked in any status, and otherwise yields the class's position |
| `Ledger.Reserve` | fitness_booking/src/booking/serializer.py:61-64 | decrementing the class's slots and inserting the row keeps every database constraint of the tables |
| `Ledger.Book` | fitness_booking/src/booking/serializer.py:55-65 | outcome order is missing class, then duplicate, then no slots; a refusal changes nothing; a booking appends one row for this class and client whose status is the request's, or CONFIRMED when the request gives none, and whose `booked_at` is the request's or the current time, lowers only that class's available slots, by exactly one, keeps them at least 0, and preserves the store invariant, the field validators and the bound by capacity |
| `Ledger.LedgerBalance` | fitness_booking/src/booking/serializer.py:58-64 | for every class, available slots plus its number of booking rows is the same before and after a booking request |
| `Ledger.BookPreservesBalanced` | fitness_booking/src/booking/serializer.py:58-62 | if every class's booked rows plus available slots fit its capacity, they still do after a booking, so no class is overbooked |
| `Ledger.RebookingRefused` | src/booking/models.py:76 | after a successful booking, any second request for the same class and email is DuplicateBooking and leaves the tables unchanged |
| `Ledger.YogaTables` | fitness_booking/tests/booking/test_model.py:45-61 | the test fixture (one instructor, one 20-slot Yoga class, no bookings) satisfies the store invariant |
| `Ledger.FirstBookingStep` | fitness_booking/tests/booking/test_model.py:75-80 | the first booking on the fixture is CONFIRMED and leaves 19 slots |
| `Ledger.SecondBookingStep` | fitness_booking/tests/booking/test_model.py:82-86 | a second client's booking then leaves 18 slots and two rows |
| `Ledger.TwoBookingsScenario` | fitness_booking/tests/booking/test_model.py:82-92 | two bookings with distinct emails on a 20-slot class both succeed, leave 18 slots, and list the two rows in creation order with increasing ids |
| `Ledger.CancelledRequestTakesSlot` | fitness_booking/src/booking/serializer.py:46-64 | a request that writes the status CANCELLED is stored with that status and still takes a slot of the fixture class, leaving 19 |
| `Ledger.Store.CreateBooking` | fitness_booking/src/booking/serializer.py:55-65 | the in-place update produces exactly the outcome and tables of `Book`, storing the request's status or CONFIRMED by default; the invariant is kept, instructors and all other classes are untouched, and a refusal changes no field |
| `Views.EffectiveTimezone` | src/booking/views.py:14 | with no `user_timezone` the timezone is "Asia/Kolkata"; a given value, even an empty one, is used as it is |
| `Views.ConvertToTimezone` | fitness_booking/src/booking/utils.py:6-12 | conversion never changes the absolute instant; a known zone sets its offset and an unknown zone name returns the input unchanged |
| `Views.ListClasses` | src/booking/views.py:12-18 | the class list holds every stored class, once each, ordered by start instant, with the effective timezone |
| `Views.BookingsFor` | src/booking/views.py:58 | a booking is in the filtered list exactly when it is stored and has the given client email, and it appears there as many times as it is stored |
| `Views.BookingsForAppend` | src/booking/views.py:58 | the filter keeps table order: the filter of a concatenation is the concatenation of the filters |
| `Views.ListBookings` | src/booking/views.py:52-60 | a missing or empty `client_email` is the error "client_email is required" whatever is stored; otherwise the result holds exactly the bookings with that email, each as many times as it is stored |
| `Views.ListingAfterBooking` | fitness_booking/tests/booking/test_views.py:79-87 | after a successful booking the client's list is their earlier list with the new booking last, and other clients' lists are unchanged |

## Left out

- Cancellation and slot release: the cancel view and the instructor view are
  routed but not defined in the views, so no such operation exists to model.
- Concurrency and atomicity: creation saves the decremented counter and then
  inserts the row with no transaction or row lock. The model runs requests one
  at a time and claims nothing about races, such as two requests taking the
  last slot or a slot debited whose row insert then fails.
- HTTP status codes, logging and the `try`/`except` blocks of the views: the
  validation errors raised during booking fall into the generic
  `except Exception` branch, so the service answers them with a 500 and not a
  400. The model returns the error outcomes and not the responses.
- Creating instructors and classes (admin site, class-create view, seed
  script): the store starts from given tables that satisfy `Consistent`.
  The seed script in particular inserts bookings without taking slots, which
  breaks the ledger balance `LedgerBalance` preserves.
- Field-level input checks on bookings: email syntax, name and email lengths.
  Client emails are compared as exact strings.
- Timestamps: `created_at` is not modelled; a `booked_at` the request leaves
  out is the parameter `now`, which stands for the clock.
- Booking list order: `BookingModel` declares no default ordering
  (`src/booking/models.py:75-76`) and the booking list filters without
  `order_by` (`src/booking/views.py:58`), so the database may return the rows
  in any order. The model returns them in table order and appends a new
  booking last; `BookingsForAppend`, `ListingAfterBooking` and
  `TwoBookingsScenario` state that chosen order, not one the code fixes.
- Class names outside the four choices: `objects.create` does not enforce
  `choices`, and the text form of such a class shows the raw stored value
  (`src/booking/models.py:52`). `ClassType` holds only the four choices, so
  such rows are not modelled.
- Timezones: `ConvertToTimezone` takes the zone database as a map from names
  to fixed UTC offsets, so daylight-saving rules are not modelled. Splitting
  the local time into the date and time fields of the class list is left out,
  and the class list returns the classes and the timezone, not serialized
  summaries.
- The name order is code-point order; a database collation may order names
  differently. Rows that tie on the ordering key come back in an order the
  model does not fix.
- `days_of_week` values other than a list or a string (numbers, objects) are
  not modelled. The start time in the text form of a class is a parameter
  (`Describe`), since it depends on how the stored timestamp is loaded.
- The error messages of booking refusals are outcomes without their text; only
  the booking list's "client_email is required" is modelled as a string.
