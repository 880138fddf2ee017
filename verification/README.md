# Flight booking: seat allocation, flight records, sign-in and client validation

This project models the logic of a small flight-booking web application: an
HTTP API over three tables (users, flights, bookings) and a browser client
that validates forms and reshapes records for its grids.

- **Booking creation** looks a flight up, refuses a request that does not fit
  in the flight's remaining economy and business seat pools, takes the seats
  out of both pools, and appends one ledger row per seat class with a positive
  count. It is specified by the function `BookingController.Book` over the rows
  of the flight table and the booking ledger, and performed in place by the
  method `BookingController.Create` on the two table objects.
- **Flight records** are created and updated from a nested request body
  (fares, seat pools, airports) flattened into the table's columns by one
  mapping, `FlightController.Columns`. Update goes through
  `FlightController.Patch`, which keeps the stored status when the body has
  none, as the ORM's instance update skips `undefined` attributes.
- **Signup and login** are operations on the user table. Signup keeps mobile
  numbers unique. Login compares the password against the stored hash and
  issues a token for the user's id. Password hashing, hash comparison and
  token signing are library calls; the model takes them as function
  parameters.
- **The admin gate** decides between calling the next handler, 401 and 403.
- **The crop price calculation** converts a quantity into priced units per
  crop.
- **Client side**: the booking form's schema and its zero/zero guard; the
  flight form's schema, initial values and request body; the login schema,
  whose two regular expressions are modelled as anchored sequences of
  quantified character classes; the flight grid's regrouping of a flat row
  into the nested form record (the inverse of the server's flattening); the
  booking grid's rows; and the grid cell texts.

Modules: `Wrappers` (Option), `JsText` (the JavaScript value and string
semantics the code relies on: `undefined`/`null`, truthiness, `\d`, `\s`,
ASCII `toLowerCase`, how a template literal renders an integer, with a proved
parse-back), `Models` (row shapes), `Tables` (the tables as objects, key
lookups, uniqueness invariants), then one module per source file.

Three behaviours of the code that a reader might not expect, all modelled as
written:

- Booking against an unknown flight answers 500, not 404. The not-found
  branch builds its message from a variable that is not bound, and the
  resulting ReferenceError reaches the error handler.
- The server does not reject a request for zero seats in both classes. Such a
  request changes no pool and answers 201 with no rows. Only the client form
  stops it.
- The server never checks that the requested counts are non-negative. Counts
  are integers here, and "pools stay non-negative" is proved for non-negative
  requests.

## Model

| member | source | states |
|---|---|---|
| `Tables.FindFlight` | server/controllers/booking.js:31 | the primary-key lookup finds the position of the flight with that id, and finds nothing for a missing id or an id no flight has |
| `Tables.FlightOf` | server/controllers/booking.js:9-14 | the flight joined to a booking is a stored flight with the booking's `flightId`, or nothing when no flight has it |
| `Tables.FindUserByMobile` | server/controllers/auth.js:13 | finds the first user with the mobile number, and finds nothing when no user has it |
| `BookingController.Reserve` | server/controllers/booking.js:45-48 | the flight keeps its id, each pool drops by exactly its requested count, every other column is unchanged |
| `BookingController.NewBookings` | server/controllers/booking.js:50-68 | one row per class with a positive count, none for a zero count; each row carries the caller's user id, the flight id, that class and its count (so at least 1 seat) |
| `BookingController.Book` | server/controllers/booking.js:31-70 | unknown or missing flight: 500, nothing changes; a count over its pool: 400, nothing changes (no partial booking); otherwise that flight's pools drop by the counts, other flights stay, the ledger grows by exactly the new rows; non-negative requests keep every pool non-negative |
| `BookingController.Create` | server/controllers/booking.js:25-76 | the in-place operation on the flight table and the ledger answers and leaves the tables exactly as `Book` says; it keeps both tables' invariants (unique keys, every booking for at least 1 seat) |
| `BookingController.BookingsOf` | server/controllers/booking.js:7-8 | a booking is selected exactly when it is in the ledger and belongs to the user, and appears as often as the ledger holds it (never repeated) |
| `BookingController.BookingsOfKeepsKeysDistinct` | server/controllers/booking.js:7-8 | a ledger with distinct keys gives the user's rows with distinct keys |
| `BookingController.Get` | server/controllers/booking.js:3-23 | returns the caller's bookings position by position as `BookingsOf` selects them, so each once, each joined with its flight |
| `FlightController.Columns` | server/controllers/flight.js:30-45 | fares come from `pricing`, seat pools from `availability`, airport codes and names from the two airport objects, every other field as given; the body is refused when a nested object is missing or the status is absent or null |
| `FlightController.Patch` | server/controllers/flight.js:57-99 | the update's columns: an absent status keeps the stored one, a null status or a missing nested object refuses the body, a present status gives exactly the creation mapping |
| `FlightController.GetAll` | server/controllers/flight.js:3-13 | lists every stored flight, in the table's insertion order, the one order the model fixes for the unordered query |
| `FlightController.Create` | server/controllers/flight.js:15-55 | adds exactly one row, under a fresh key, holding the body's columns; a body that cannot be stored answers 500 and adds nothing |
| `FlightController.Update` | server/controllers/flight.js:57-107 | unknown id: 404, nothing changes; a body `Patch` refuses: 500, nothing changes; otherwise the one row with that id gets the patched columns, keeps its id, and every other row is unchanged |
| `AuthController.PasswordGuard` | server/controllers/auth.js:55 | the guard before hashing holds for every password, including a missing or null one |
| `AuthController.Signup` | server/controllers/auth.js:37-71 | a taken mobile number answers 404 and adds no user; a free number adds no user exactly when hashing fails, the digest is shorter than 8 or the number is not 10 characters long, and then answers 500; otherwise exactly one user is added with the given name and mobile number, the digest and the default USER role, and the answer is 201 with a token signed over the new id, or 500 with the user still added when signing fails; mobile numbers stay unique |
| `AuthController.Login` | server/controllers/auth.js:9-35 | 404 exactly when no user has the mobile number; a token only for a stored user whose hash matches the password, signed over that user's id; 401 when the comparison fails; 500 only for a null stored hash or a failed signing, and a matching password with a successful signing always logs in |
| `AdminMiddleware.IsAdmin` | server/middlewares/isAdmin.js:1-15 | no user: 401; an ADMIN: the next handler and no response; any other role: 403; exactly one of the three for each request |
| `Common.UnitsPerMeasure` | server/utils/common.js:76-96 | banana, coconut, dryCoconut, turmeric, ragi and corn have a positive conversion; every other crop has none |
| `Common.CalculateTotalAmount` | server/utils/common.js:73-100 | banana: value × 1000 × price; coconut and dryCoconut: value × price; turmeric, ragi, corn: value × 100 × price; a zero value or price gives 0; any other crop throws "unsupported crop: <crop>" |
| `BookingForm.OnSubmit` | client/components/forms/booking/create.js:63-76 | nothing is sent exactly when both counts are zero; otherwise the request names the selected flight and carries exactly the two validated counts |
| `BookingForm.DefaultsAreStopped` | client/components/forms/booking/create.js:42-45 | the initial (0, 0) passes the schema and is always stopped by the zero/zero guard |
| `BookingForm.SentRequestBooksSomething` | client/components/forms/booking/create.js:27-76 | a request the form sends either fails with the tables unchanged or inserts at least one booking, and keeps the pools non-negative |
| `FlightForm.DefaultsAreInvalid` | client/components/forms/flight/create.js:99-117 | the initial values fail the schema (zero numbers, empty texts) |
| `FlightForm.OnSubmit` | client/components/forms/flight/create.js:138-149 | the body renames `status` to `flightStatus`, keeps every other field and adds both date-times |
| `FlightForm.SubmittedFormIsStorable` | client/components/forms/flight/create.js:36-97 | the server stores a submitted form exactly when its status is not null, and then the stored pools, fares and duration are positive and the airport codes filled |
| `LoginForm.TenDigitPatternMeaning` | client/app/login/page.js:46-49 | `^\d{10}$` accepts exactly the strings of ten ASCII digits |
| `LoginForm.TenDigitsMatchLoosePattern` | client/app/login/page.js:42-45 | every ten-digit string also matches the first, looser pattern |
| `LoginForm.ValidMobileMeaning` | client/app/login/page.js:39-49 | the mobile field accepts exactly the strings of ten ASCII digits |
| `LoginForm.ValidPasswordMeaning` | client/app/login/page.js:51-54 | the password field accepts exactly the strings whose UTF-16 length is at least six: all of six characters or more, none of fewer than three |
| `LoginForm.ThreeEmojiPass` | client/app/login/page.js:51-54 | three emoji, six UTF-16 code units, pass the length check |
| `FlightGrid.Regroup` | client/components/grids/flight/index.js:104-144 | airport codes and names, fares and seat pools are regrouped into nested objects; id, number, airline, duration, status and date-times are copied |
| `FlightGrid.UpdateBody` | client/redux/api/index.js:61-72 | the update body of a record carries every nested object and a status |
| `FlightGrid.RegroupThenFlatten` | client/components/grids/flight/index.js:105-139 | flattening the regrouped row as the server does gives back exactly the row's columns |
| `FlightGrid.FlattenThenRegroup` | client/components/grids/flight/index.js:105-139 | regrouping a flattened record gives back the record, so the two shapes correspond one to one |
| `FlightGrid.AirportCell` | client/components/grids/flight/index.js:213 | an empty or missing airport code shows "N/A", any other code shows itself |
| `FlightGrid.DurationLabel` | client/components/grids/flight/index.js:243 | the duration cell is always "<d> hrs." and never "N/A" |
| `FlightGrid.PriceLabel` | client/components/grids/flight/index.js:250 | "Rs. N/A" for a zero or missing fare, "Rs. <fare>" otherwise |
| `FlightGrid.SeatCountLabel` | client/components/grids/flight/index.js:257-258 | "1 seat" only for exactly 1; "<n> seats" for any other number; "0 seats" when missing |
| `FlightGrid.SeatCountLabelInjective` | client/components/grids/flight/index.js:257-258 | a seat count cell determines the count it shows |
| `FlightGrid.SeatsLeftLabel` | client/components/grids/flight/index.js:257-258 | "1 seat left" for 1, "<n> seats left" otherwise, "0 seats left" for 0 or missing |
| `FlightGrid.DashRuns` | client/components/grids/flight/index.js:73 | replacing white-space runs leaves no white space and never lengthens |
| `FlightGrid.DashRunsOfWord` | client/components/grids/flight/index.js:73 | a prefix without white space is kept as it is in front of the rest's replacement |
| `FlightGrid.DashRunsKeepsWord` | client/components/grids/flight/index.js:73 | a string without white space is left unchanged |
| `FlightGrid.DashRunsOfRun` | client/components/grids/flight/index.js:73 | a word, one maximal white-space run and the rest become the word, a single dash and the rest's replacement; with the previous row this fixes the result of every string |
| `FlightGrid.DashRunsIdempotent` | client/components/grids/flight/index.js:73 | a second pass of the replacement changes nothing |
| `FlightGrid.StatusKey` | client/components/grids/flight/index.js:73 | the palette key is "flight-" followed by the lower-cased status with its white-space runs replaced, so it has no white space and no upper-case ASCII letter |
| `FlightGrid.StatusKeyOnTime` | client/components/grids/flight/index.js:73 | the default status "On Time" gets the key "flight-on-time" |
| `BookingGrid.ToRow` | client/components/grids/booking/index.js:159-163 | a row is the flight's fields overlaid with the booking's id and seat count, so its id is the booking's, not the flight's |
| `BookingGrid.Rows` | client/components/grids/booking/index.js:157-165 | one row per booking, in order; no rows without data |
| `BookingGrid.RowIdsAreBookingIds` | client/components/grids/booking/index.js:157-169 | distinct bookings give rows with distinct ids, even for the same flight |
| `BookingGrid.BookedSeatsLabel` | client/components/grids/booking/index.js:139-140 | "1 seat booked" for 1, "<n> seats booked" otherwise, "0 seats booked" when missing |

The booking grid's status chip (client/components/grids/booking/index.js:57)
builds its key with the same expression as the flight grid's, and the flight
grid's book action (client/components/grids/flight/index.js:147-181) builds
the same record literal as its edit action; each is modelled once, by
`FlightGrid.StatusKey` and `FlightGrid.Regroup`. The schemas are predicates
(`BookingForm.Schema`, `FlightForm.Schema`, `LoginForm.Schema`) whose meaning
the lemmas above state.

## Left out

- Password hashing, hash comparison and token signing (bcrypt, JWT) are function parameters; signing may fail, as when the secret or the token lifetime is not set, and hashing may fail, as bcrypt does on every missing or non-string password (so such a signup answers 500). The model leaves `hashPassword` unconstrained and does not impose that failure. Salts, expiry and token verification are not modelled.
- Key generation (UUIDv4) and the default booking date are parameters; fresh keys are a precondition of the inserting operations.
- Date-times are opaque values (`Models.DateTime`, a bare millisecond count): the dayjs values the flight form sends, the departure and arrival columns and the booking date are compared only for equality, never parsed, formatted or ordered.
- The authentication middleware that attaches the user to a request is not part of this model; the booking operations take the caller's id as given. Without an `Authorization` header the middleware sets the user to null, and both booking handlers then throw while reading its id, before their `try`; that request is not modelled.
- Concurrency: the two ledger inserts run in parallel in the source, and the capacity check and the decrement are separate database calls. Each operation is modelled as one sequential step.
- Floating point: fares and duration (FLOAT columns) and form numbers are integers here. Fractional seat counts, which the forms accept with step 0.1, are not modelled, and neither is the `NaN` fallback in the price calculation, which cannot arise for integers.
- `FlightController.Columns`: only missing nested objects and an absent or null status are modelled; a missing leaf or top-level field (such as a missing airline), which fails NOT NULL on creation, is not.
- `FlightController.Update`: a missing leaf or top-level field other than the status, which the instance update skips so that the stored column is kept, is not modelled; only the status is.
- `BookingController.Book`: a request without `economy` or `business` (or with a non-numeric count) is not modelled; the capacity check lets `undefined` through, the decrement writes NaN into the integer column, the update is refused and the answer is 500 with nothing changed. A `null` count behaves as 0, which the model covers.
- `FlightController.GetAll`, `BookingController.Get`: the queries have no ORDER BY; the model fixes one order, the table's insertion order.
- `BookingController.NewBookings`: both rows of one request get the same booking date `now`; each insert takes its own default NOW in the source.
- `AuthController.Signup`: a missing or null name, which the table refuses, is not modelled; nor is a missing mobile number, on which the lookup throws.
- `AuthController.Login`: a missing mobile number, on which the lookup throws, is not modelled. The submitted password is always a string.
- Integer width: seat pools and counts are unbounded; the 32-bit INTEGER column is not modelled.
- `JsText.IntToString` renders every integer in plain decimal; JavaScript switches to exponent notation from 10^21.
- `JsText.ToLower` lower-cases ASCII letters only; JavaScript's full Unicode case mapping is not modelled.
- The random code generator and the time-frame helper of the server utilities (random numbers, the wall clock), the HTTP routing, the ORM setup, the client's request wrapper and cookie redirect, and all rendering and styling are not part of this model.
