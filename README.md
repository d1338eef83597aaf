# Vehicle booking engine: a Dafny model

This project models the backend reservation engine of a vehicle-booking service. Vehicles (name, capacity in kg, tyre count, active flag) are registered. A search lists the vehicles that are free for a trip. A booking reserves one vehicle for a window `[startTime, startTime + hours·3600000)`. The number of hours is estimated from the two pincodes as `max(|to − from| mod 24, 1)`. A booking is refused with 409 when an active booking of the same vehicle overlaps that window. Cancelling moves a booking from `active` to `cancelled`. `cancelled` and `completed` are terminal, and re-cancelling is an error.

The modules follow the source:

- `JsText` models the JavaScript primitives the code relies on: `String.prototype.trim`, `parseInt` without a radix, and the `/^\d{6}$/` pincode pattern.
- `RideDuration` models `backend/utils/rideDuration.js`: the estimator and the half-open overlap test.
- `Models` models `backend/models/Booking.js` and `backend/models/Vehicle.js`. It holds the record datatypes, the status enum, the defaults and trim setters applied at construction, and the validators applied on save. Each validator's first failing message is given in schema field order.
- `Api` holds the request values the controllers inspect: JSON truthiness and `typeof` for the vehicle body, and a start time that is missing, invalid or an instant in milliseconds. It also holds the failure kinds with their HTTP status and exact message.
- `BookingEngine` models `createBooking`, `getBookings`, `getBookingById` and `cancelBooking` from `backend/controllers/bookingsController.js`. Each is a pure decision function over the stored records. The module also defines the central invariant `NoDoubleBooking`: the active bookings of each vehicle are pairwise non-overlapping.
- `Fleet` models `addVehicle`, `getAvailableVehicles` and `getVehicles` from `backend/controllers/vehiclesController.js`. It also proves lemmas relating search and booking.
- `FleetStore` holds the store. `Store` is a class whose fields are the vehicle and booking collections and a `clock`. The clock provides each inserted document's id and `createdAt`, and advances on every insert.
  - Four methods apply the controllers' decisions:
    - `AddVehicle` and `CreateBooking` append a record;
    - `CancelBooking` overwrites one booking's status in place;
    - `GetAvailableVehicles` is read-only and runs the controller's per-vehicle loop.
  - The store invariant `StoreInvariant` (`Store.Valid`) is kept by every method. It includes `NoDoubleBooking`.

All inputs arrive already decoded:
- Request strings are `seq<char>`, and an absent or empty field is `""`.
- Vehicle and booking ids are natural numbers.
- Times are integer milliseconds.

The store's queries are modelled as filters over the stored sequences, in store order. The `createdAt`-descending sort is an insertion sort on createdAt.

Three behaviours of the code are easy to miss, and the model follows them:
- `createBooking` does not validate the pincodes before the duration estimate. Any string with a leading number is estimated. A pincode that is not six digits is refused only when the booking is saved, as a 500.
- `addVehicle` has two more kinds of failure than its explicit checks suggest. One is the "missing fields" answer for falsy values, including capacity 0 or tyres 0. The other is a 500 for values the schema refuses but the controller lets through: a capacity above 10000, more than 20 tyres, a name that is blank after trimming or longer than 100 characters, and a name that is not a string.
- The check-then-insert in `createBooking` is not atomic.

## Model

| member | source | states |
|---|---|---|
| JsText.TrimSpec | backend/models/Vehicle.js:7 | trimming yields a string with no white space at either end; a trimmed string is its own trim; trimming is idempotent |
| JsText.LeadingDigits | backend/utils/rideDuration.js:13-14 | the digit run parseInt reads is a prefix of the input, all decimal digits, and maximal (the next character is not a digit) |
| JsText.ParseIntDefined | backend/utils/rideDuration.js:13-18 | parseInt gives a number exactly when a digit follows the leading white space and the optional sign; otherwise NaN |
| JsText.SixDigitsParse | backend/models/Booking.js:13 | a string matching /^\d{6}$/ parses as its decimal value, which lies in [0, 999999] |
| JsText.DigitsValueBound | backend/models/Booking.js:13 | a string of n decimal digits denotes a number below 10^n |
| RideDuration.CalculateRideDuration | backend/utils/rideDuration.js:11-28 | the estimate succeeds iff both pincodes parse; a success lies in [1, 23]; a failure carries "Error calculating ride duration: Invalid pincode format" |
| RideDuration.HoursBetween | backend/utils/rideDuration.js:21-24 | the hour count `max(|to − from| mod 24, 1)` lies in [1, 23] |
| RideDuration.DurationSymmetric | backend/utils/rideDuration.js:21 | the estimate is the same in both directions of travel, including which inputs fail |
| RideDuration.DurationSameCode | backend/tests/rideDuration.test.js:16-18 | a trip within one pincode is estimated at exactly one hour |
| RideDuration.DurationOfPincodes | backend/utils/rideDuration.js:13-24 | on two six-digit pincodes the estimate always succeeds, with the hour count of their decimal values |
| RideDuration.DurationExamples | backend/tests/rideDuration.test.js:5-22 | the expected estimates 1, 9, 3, 9, 1, 1 and 22 for the tested pincode pairs, on their decimal values |
| RideDuration.DurationRejectsNonNumeric | backend/tests/rideDuration.test.js:24-32 | "invalid", "" and "abc123" fail on either side with the wrapped "Invalid pincode format" message |
| RideDuration.DurationFailureMentionsPincode | backend/utils/rideDuration.js:16-27 | whatever the inputs, a failing estimate's message contains the thrown "Invalid pincode format" behind the wrapper prefix, as the unit tests' `toThrow` expects |
| RideDuration.OverlapIffSharedInstant | backend/utils/rideDuration.js:38-40 | two non-empty half-open intervals overlap iff some instant lies in both |
| RideDuration.OverlapSymmetric | backend/utils/rideDuration.js:38-40 | overlap does not depend on the order of the two intervals |
| RideDuration.AdjacentDoNotOverlap | backend/tests/rideDuration.test.js:57-64 | an interval ending where the other starts does not overlap it, in either order |
| RideDuration.IdenticalOverlap | backend/tests/rideDuration.test.js:66-73 | a non-empty interval overlaps itself |
| RideDuration.OverlapExamples | backend/tests/rideDuration.test.js:39-73 | the four tested cases: half-hour shift overlaps, a later hour and the adjacent hour do not, the same hour does |
| Models.ParseStatus | backend/models/Booking.js:34-38 | the enum accepts exactly "active", "completed" and "cancelled", and reads each back as the status of that name |
| Models.StatusNameRoundTrip | backend/models/Booking.js:34-36 | every status's name is accepted by the enum as that same status |
| Models.NewBookingShape | backend/models/Booking.js:9-38 | a newly built booking is active, keeps the id, vehicle, times, hours and stamp it is given, and holds the trimmed pincodes and customer id, each unchanged when already trimmed |
| Models.BookingViolation | backend/models/Booking.js:4-42 | the schema reports no violation exactly when both pincodes are six digits and the customer id is non-empty |
| Models.StatusChangeKeepsValid | backend/models/Booking.js:34-38 | changing only the status keeps a booking schema-valid |
| Models.NewVehicleShape | backend/models/Vehicle.js:4-25 | a newly built vehicle is active, keeps its id and creation stamp, holds the trimmed name (unchanged when already trimmed), and keeps capacity and tyres as given |
| Models.VehicleViolation | backend/models/Vehicle.js:4-21 | the schema reports no violation exactly when the name is non-empty and at most 100 characters, capacity is in [1, 10000] and tyres in [2, 20] |
| Api.StatusCode | backend/controllers/bookingsController.js:10-70 | 404 exactly for unknown vehicles and bookings, 409 exactly for conflicts, 500 exactly for internal failures, 400 otherwise |
| Collections.SortDesc | backend/controllers/bookingsController.js:86 | the sort yields a permutation of its input ordered by descending key |
| Collections.SortMembers | backend/controllers/bookingsController.js:86 | sorting keeps exactly the same elements |
| BookingEngine.FindVehicle | backend/controllers/bookingsController.js:22-25 | the lookup returns a stored vehicle with that id, and returns nothing exactly when no stored vehicle has it |
| BookingEngine.ConflictingBookings | backend/controllers/bookingsController.js:34-43 | the conflict query returns exactly the stored active bookings of the vehicle with startTime < end and endTime > start |
| BookingEngine.CreateErrorOrder | backend/controllers/bookingsController.js:10-29 | missing fields are reported iff a field is missing; then an invalid start time; then an unknown vehicle; then an inactive one; no success or 409 without passing all of them |
| BookingEngine.CreatedBooking | backend/controllers/bookingsController.js:31-63 | a created booking has the clock's id, the requested vehicle, trimmed pincodes and customer, status active, the estimated hours in [1, 23], endTime = startTime + hours·3600000, is schema-valid, and overlaps no active booking of its vehicle |
| BookingEngine.AdmittedBooking | backend/controllers/bookingsController.js:45-63 | once past the conflict query, the inserted document is the one built from the request, schema-valid and free of overlaps |
| BookingEngine.SaveBooking | backend/controllers/bookingsController.js:63 | the save succeeds exactly when the document passes the schema validators and then stores it unchanged; a rejected document is a 500 |
| BookingEngine.CreateConflictIff | backend/controllers/bookingsController.js:34-51 | past the earlier checks, the answer is 409 iff some stored active booking of the vehicle overlaps the window, and the 409 lists exactly those bookings as (id, startTime, endTime) in store order |
| BookingEngine.NonBlockingBookingsIrrelevant | backend/controllers/bookingsController.js:34-43 | adding or removing a booking of another vehicle, or a non-active one, never changes the decision |
| BookingEngine.OverlappingRequestRefused | backend/tests/bookings.test.js:128-156 | a request overlapping a stored active booking of its vehicle is refused with 409 and the refusal lists that booking |
| BookingEngine.BackToBackNotBlocked | backend/tests/bookings.test.js:158-184 | a request starting when every active booking of its vehicle has ended is not refused as taken; at most the save can fail, and with six-digit pincodes and a customer id the booking is created |
| BookingEngine.CreatePreservesNoDoubleBooking | backend/controllers/bookingsController.js:34-63 | appending the booking createBooking accepts keeps every vehicle's active bookings pairwise non-overlapping |
| BookingEngine.ListBookingsSpec | backend/controllers/bookingsController.js:76-86 | the listing holds exactly the bookings matching the status filter and the customer filter (cast through the schema's trim setter, backend/models/Booking.js:32), each as often as stored, newest createdAt first |
| BookingEngine.ListBookingsTrimsCustomer | backend/controllers/bookingsController.js:79-80 | white space around a non-blank customerId filter does not change the listing, because the query value is trimmed like the stored field |
| BookingEngine.ListBookingsUnfiltered | backend/controllers/bookingsController.js:78-86 | with no filters every stored booking is listed |
| BookingEngine.ListBookingsUnknownStatus | backend/controllers/bookingsController.js:82-86 | a status filter naming no status lists nothing |
| BookingEngine.FindBookingIndex | backend/controllers/bookingsController.js:114-118 | the lookup returns a position holding that id, and returns nothing exactly when no stored booking has it |
| BookingEngine.GetBookingById | backend/controllers/bookingsController.js:96-109 | the answer is a stored booking with that id, and 404 exactly when there is none |
| BookingEngine.CancelTransitions | backend/controllers/bookingsController.js:112-131 | 404 iff no booking has the id; for the booking with that id: active gives it back cancelled, cancelled gives "already cancelled", completed gives "cannot cancel a completed booking" |
| BookingEngine.ApplyCancelFrame | backend/controllers/bookingsController.js:128-129 | cancelling changes at most the booking with that id, and of it only an active status, to cancelled |
| BookingEngine.CancelTwiceRefused | backend/tests/bookings.test.js:337-347 | cancelling a booking that was just cancelled is refused as already cancelled (not idempotent) |
| BookingEngine.CancelPreservesNoDoubleBooking | backend/controllers/bookingsController.js:128-129 | a cancellation keeps every vehicle's active bookings pairwise non-overlapping |
| Fleet.AddVehicleOutcome | backend/controllers/vehiclesController.js:6-28 | a vehicle is registered iff the name is a string whose trim is 1..100 characters, capacity a number in [1, 10000] and tyres a number in [2, 20]; it then holds the trimmed name, the given values, isActive true and the clock's id and stamp |
| Fleet.AddedVehicle | backend/controllers/vehiclesController.js:25-26 | for a string name and numeric fields, registration succeeds iff the built vehicle is schema-valid, and yields that vehicle |
| Fleet.AddVehicleErrorOrder | backend/controllers/vehiclesController.js:10-23 | "missing fields" iff a field is falsy (so capacity 0 or tyres 0 give it); then a non-number or negative capacity; then a non-number or below-2 tyre count |
| Fleet.SchemaBoundsAnswer500 | backend/controllers/vehiclesController.js:17-31 | a capacity above 10000 passes the controller's checks and is refused on save with 500 "Capacity cannot exceed 10,000 KG" |
| Fleet.CheckSearchSpec | backend/controllers/vehiclesController.js:40-58 | missing parameters iff one is falsy; then, each as an iff, an unparseable or non-positive capacity, an invalid start time, and a 500 from a failing estimate; on success the window is [start, start + hours·3600000) with the estimate's hours |
| Fleet.FreeIffAvailable | backend/controllers/vehiclesController.js:64-77 | for a candidate, the conflict query is empty iff no active booking of it overlaps the window |
| Fleet.AvailableVehiclesExactly | backend/controllers/vehiclesController.js:60-78 | the search returns exactly the active vehicles with enough capacity and no overlapping active booking, as the store-order subsequence of all vehicles |
| Fleet.ListedVehicleCanBeBooked | backend/controllers/vehiclesController.js:60-78 | booking a listed vehicle for the searched trip is never refused as unknown, inactive or taken, and succeeds when the pincodes and customer id are valid |
| Fleet.UnlistedVehicleIsTaken | backend/controllers/vehiclesController.js:60-78 | booking an eligible vehicle the search left out, for the searched trip, is refused with 409 |
| Fleet.BookingRemovesFromSearch | backend/tests/vehicles.test.js:160-186 | after an active booking overlapping the window is added, a repeat search drops that vehicle and keeps all others |
| Fleet.ListVehiclesSpec | backend/controllers/vehiclesController.js:98 | the listing holds exactly the active vehicles, each as often as stored, newest createdAt first |
| FleetStore.AddVehicleKeepsInvariant | backend/controllers/vehiclesController.js:25-26 | inserting the registered vehicle keeps the store invariant |
| FleetStore.CreateBookingKeepsInvariant | backend/controllers/bookingsController.js:53-63 | inserting the created booking keeps the store invariant, including no double booking |
| FleetStore.CancelKeepsInvariant | backend/controllers/bookingsController.js:128-129 | the cancellation write keeps the store invariant |
| FleetStore.Store.AddVehicle | backend/controllers/vehiclesController.js:6-33 | answers as addVehicle decides; on success appends the vehicle and advances the clock, otherwise changes nothing; bookings untouched; invariant kept |
| FleetStore.Store.CreateBooking | backend/controllers/bookingsController.js:6-71 | answers as createBooking decides; on success appends the booking and advances the clock, otherwise changes nothing; vehicles untouched; invariant kept |
| FleetStore.Store.CancelBooking | backend/controllers/bookingsController.js:112-136 | answers as cancelBooking decides and overwrites only the cancelled booking's status; invariant kept |
| FleetStore.Store.GetAvailableVehicles | backend/controllers/vehiclesController.js:36-93 | answers as the search decides, reports the estimate's hours, lists exactly the available vehicles, and changes nothing |
| FleetStore.Store.CollectFree | backend/controllers/vehiclesController.js:62-78 | the loop collects, in order, exactly the candidates whose conflict query is empty |

## Left out

- Concurrency: each method is atomic, so the race between the conflict query and the insert in createBooking is not covered; the invariant holds for sequential runs only.
- Date parsing: a start time arrives as missing, invalid, or an integer millisecond instant; the `Date` constructor's ISO-8601 rules and its range limit are not modelled.
- parseInt's `0x` hexadecimal prefix and the Unicode space-separator class beyond the listed white-space characters are not modelled; trim uses the same character set.
- JavaScript numbers are modelled as integers: fractional or non-finite capacity and tyre values are not covered, and a numeric query parameter arrives as its string form.
- String length: a string is a sequence of Unicode scalar values, while Mongoose's `maxlength` on the vehicle name counts UTF-16 code units; a name of at most 100 characters that needs more than 100 code units (60 emoji, say) is refused with a 500 by the code but registered by `Fleet.PlanVehicle`.
- Number precision: `ParseInt` and `HoursBetween` compute exactly, while JavaScript rounds every parseInt result to a double; for pincodes with more than 15 significant digits (from "9007199254740993" to "0") the code's estimate can differ from the model's (8 hours against 9), and with it the booking window and the search answer. Six-digit pincodes are exact in both.
- Non-string booking fields: `BookingRequest` holds the pincodes and the customer id as strings, so a body field of another type (a number `110001` that parseInt and Mongoose's cast accept, an object, an array) is not modelled.
- Query parameters given as arrays or objects (repeated keys) are not modelled; each parameter is one string.
- Ids that are not valid ObjectIds make Mongoose raise a cast error (a 500); ids here are natural numbers, so that path is not modelled.
- Models.BookingViolation: the 500 body carries Mongoose's combined validation text naming every failing path; the model keeps the first failing message in schema field order.
- Models.VehicleViolation: the same, for the vehicle schema.
- `populate`, `timestamps` and the indexes are not modelled: `createdAt` is the store clock, and `updatedAt` is absent.
- The success envelopes (`success`, `message`, `data`) and the 201/200 codes are not modelled; each answer is the record or the failure kind.
- No controller sets a booking to `completed`; such documents can exist (a status written outside these controllers) and the model accepts them in the store.
- RideDuration.DurationExamples: the tested estimates are proved on the pincodes' decimal values; DurationOfPincodes links them to the six-digit strings, so the literal string calls are not each proved.
- The Express server, routes, logging, database connection and the frontend are outside this model.
