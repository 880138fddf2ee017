/**
 * The booking controller: reading a user's bookings, and creating bookings
 * against a flight's seat pools. Creation is specified by the function
 * `Book` over the two tables' rows; the method `Create` performs it in place
 * on the flight table and the booking ledger.
 */
module BookingController {
  import opened Wrappers
  import opened Models
  import opened Tables

  /** The body of a booking request. `flightId` is `None` when the client sent none. */
  datatype CreateRequest = CreateRequest(flightId: Option<string>, economy: int, business: int)

  /** The answer of booking creation. */
  datatype CreateResponse =
    | Created(bookings: seq<Booking>)  // 201 with the inserted rows
    | NoSeatsAvailable                 // 400
    | SomethingWentWrong               // 500

  /** The rows of the flight table and of the booking ledger. */
  datatype Store = Store(flights: seq<Flight>, ledger: seq<Booking>)

  datatype Outcome = Outcome(response: CreateResponse, store: Store)

  /** Both requested counts fit in what remains of the flight's two pools. */
  predicate Fits(f: Flight, economy: int, business: int) {
    economy <= f.columns.economySeats && business <= f.columns.businessSeats
  }

  /** Every flight in the table has non-negative seat pools. */
  predicate AllPoolsNonNegative(flights: seq<Flight>) {
    forall i :: 0 <= i < |flights| ==> SeatPoolsNonNegative(flights[i])
  }

  /** The flight after `flight.update` has taken the seats out of its pools. */
  function Reserve(f: Flight, economy: int, business: int): (r: Flight)
    ensures r.id == f.id
    ensures r.columns.economySeats == f.columns.economySeats - economy
    ensures r.columns.businessSeats == f.columns.businessSeats - business
    ensures r.columns.(economySeats := 0, businessSeats := 0)
         == f.columns.(economySeats := 0, businessSeats := 0)
  {
    Flight(f.id, f.columns.(economySeats := f.columns.economySeats - economy,
                            businessSeats := f.columns.businessSeats - business))
  }

  /**
   * The ledger rows a successful request inserts: one per seat class whose
   * count is positive, economy first.
   */
  function NewBookings(userId: string, flightId: string, economy: int, business: int,
                       economyId: string, businessId: string, now: DateTime): (r: seq<Booking>)
    ensures |r| == (if economy > 0 then 1 else 0) + (if business > 0 then 1 else 0)
    ensures forall b :: b in r ==>
      b.userId == userId && b.flightId == flightId && b.bookingDate == now && b.numberOfSeats >= 1
    ensures (exists b :: b in r && b.seatClass == Economy) <==> economy > 0
    ensures (exists b :: b in r && b.seatClass == Business) <==> business > 0
    ensures forall b :: b in r && b.seatClass == Economy ==> b.id == economyId && b.numberOfSeats == economy
    ensures forall b :: b in r && b.seatClass == Business ==> b.id == businessId && b.numberOfSeats == business
  {
    (if economy > 0 then [Booking(economyId, userId, flightId, now, Economy, economy)] else [])
    + (if business > 0 then [Booking(businessId, userId, flightId, now, Business, business)] else [])
  }

  /**
   * Booking creation on the rows of both tables. A request naming no stored
   * flight fails with 500 (the not-found branch reads an unbound variable and
   * the error handler answers it); a request that does not fit fails with
   * 400; in both cases nothing changes. Otherwise the flight's pools drop by
   * exactly the requested counts and the new rows are appended.
   */
  function Book(s: Store, userId: string, req: CreateRequest,
                economyId: string, businessId: string, now: DateTime): (r: Outcome)
    requires UniqueFlightIds(s.flights)
    ensures r.response.SomethingWentWrong? <==>
      (req.flightId.None? || forall j :: 0 <= j < |s.flights| ==> s.flights[j].id != req.flightId.value)
    ensures r.response.NoSeatsAvailable? <==>
      exists j :: 0 <= j < |s.flights| && Some(s.flights[j].id) == req.flightId
                  && !Fits(s.flights[j], req.economy, req.business)
    ensures !r.response.Created? ==> r.store == s
    ensures r.response.Created? ==>
      && |r.store.flights| == |s.flights|
      && (forall j :: 0 <= j < |s.flights| && Some(s.flights[j].id) != req.flightId ==>
            r.store.flights[j] == s.flights[j])
      && (forall j :: 0 <= j < |s.flights| && Some(s.flights[j].id) == req.flightId ==>
            r.store.flights[j] == Reserve(s.flights[j], req.economy, req.business))
      && r.store.ledger == s.ledger + r.response.bookings
      && r.response.bookings == NewBookings(userId, req.flightId.value, req.economy, req.business,
                                            economyId, businessId, now)
    ensures req.economy >= 0 && req.business >= 0 && AllPoolsNonNegative(s.flights) ==>
      AllPoolsNonNegative(r.store.flights)
  {
    match FindFlight(s.flights, req.flightId)
    case None => Outcome(SomethingWentWrong, s)
    case Some(i) =>
      var f := s.flights[i];
      if req.economy > f.columns.economySeats || req.business > f.columns.businessSeats then
        Outcome(NoSeatsAvailable, s)
      else
        var rows := NewBookings(userId, f.id, req.economy, req.business, economyId, businessId, now);
        Outcome(Created(rows), Store(s.flights[i := Reserve(f, req.economy, req.business)], s.ledger + rows))
  }

  /**
   * Booking creation in place: looks the flight up, refuses a request that
   * does not fit, takes the seats out of the flight's pools and appends the
   * new rows to the ledger. `economyId` and `businessId` are the fresh UUIDs
   * the database assigns, `now` the default booking date.
   */
  method Create(flights: FlightTable, ledger: BookingTable, userId: string, req: CreateRequest,
                economyId: string, businessId: string, now: DateTime) returns (res: CreateResponse)
    requires flights.Valid() && ledger.Valid()
    requires economyId != businessId
    requires forall b :: b in ledger.rows ==> b.id != economyId && b.id != businessId
    modifies flights, ledger
    ensures flights.Valid() && ledger.Valid()
    ensures Book(Store(old(flights.rows), old(ledger.rows)), userId, req, economyId, businessId, now)
         == Outcome(res, Store(flights.rows, ledger.rows))
  {
    var found := FindFlight(flights.rows, req.flightId);
    if found.None? {
      return SomethingWentWrong;
    }
    var flight := flights.rows[found.value];
    if req.economy > flight.columns.economySeats || req.business > flight.columns.businessSeats {
      return NoSeatsAvailable;
    }
    flights.rows := flights.rows[found.value := Reserve(flight, req.economy, req.business)];
    var bookings := NewBookings(userId, flight.id, req.economy, req.business, economyId, businessId, now);
    ledger.rows := ledger.rows + bookings;
    res := Created(bookings);
  }

  /** A booking together with the flight it refers to, as the read joins them. */
  datatype BookingWithFlight = BookingWithFlight(booking: Booking, flight: Option<Flight>)

  /**
   * The ledger rows of one user, in ledger order: each of the user's rows
   * as often as the ledger holds it, and no other row, so distinct keys
   * stay distinct.
   */
  function BookingsOf(ledger: seq<Booking>, userId: string): (r: seq<Booking>)
    ensures forall b :: b in r <==> b in ledger && b.userId == userId
    ensures forall b :: multiset(r)[b] == if b.userId == userId then multiset(ledger)[b] else 0
    ensures |r| <= |ledger|
  {
    if ledger == [] then []
    else
      assert ledger == [ledger[0]] + ledger[1..];
      if ledger[0].userId == userId then [ledger[0]] + BookingsOf(ledger[1..], userId)
      else BookingsOf(ledger[1..], userId)
  }

  /** A ledger with distinct keys gives one user's rows with distinct keys. */
  lemma {:induction false} BookingsOfKeepsKeysDistinct(ledger: seq<Booking>, userId: string)
    requires UniqueBookingIds(ledger)
    ensures UniqueBookingIds(BookingsOf(ledger, userId))
  {
    if ledger != [] {
      var tail := ledger[1..];
      var rest := BookingsOf(tail, userId);
      assert UniqueBookingIds(tail) by {
        forall i, j | 0 <= i < j < |tail| ensures tail[i].id != tail[j].id {
          assert tail[i] == ledger[i + 1] && tail[j] == ledger[j + 1];
        }
      }
      BookingsOfKeepsKeysDistinct(tail, userId);
      if ledger[0].userId == userId {
        assert forall b :: b in rest ==> b.id != ledger[0].id by {
          forall b | b in rest ensures b.id != ledger[0].id {
            var k :| 0 <= k < |tail| && tail[k] == b;
            assert ledger[k + 1] == b;
          }
        }
        UniqueAfterDistinctHead(ledger[0], rest);
      }
    }
  }

  /** A key that no row of a keyed list has can be put in front of it. */
  lemma UniqueAfterDistinctHead(head: Booking, rest: seq<Booking>)
    requires UniqueBookingIds(rest)
    requires forall b :: b in rest ==> b.id != head.id
    ensures UniqueBookingIds([head] + rest)
  {
    var r := [head] + rest;
    forall i, j | 0 <= i < j < |r| ensures r[i].id != r[j].id {
      assert r[j] == rest[j - 1];
      if i > 0 {
        assert r[i] == rest[i - 1];
      }
    }
  }

  /** Reading the caller's bookings: exactly the rows whose `userId` is the caller's, each with its flight. */
  method Get(ledger: BookingTable, flights: FlightTable, userId: string)
    returns (bookings: seq<BookingWithFlight>)
    ensures |bookings| == |BookingsOf(ledger.rows, userId)|
    ensures forall k :: 0 <= k < |bookings| ==> bookings[k].booking == BookingsOf(ledger.rows, userId)[k]
    ensures forall k :: 0 <= k < |bookings| ==>
      bookings[k].booking in ledger.rows && bookings[k].booking.userId == userId
    ensures forall b :: b in ledger.rows && b.userId == userId ==>
      exists k :: 0 <= k < |bookings| && bookings[k].booking == b
    ensures forall k :: 0 <= k < |bookings| ==>
      bookings[k].flight == FlightOf(flights.rows, bookings[k].booking.flightId)
  {
    var own := BookingsOf(ledger.rows, userId);
    var table := flights.rows;
    bookings := seq(|own|, k requires 0 <= k < |own| =>
                      BookingWithFlight(own[k], FlightOf(table, own[k].flightId)));
    forall b | b in ledger.rows && b.userId == userId
      ensures exists k :: 0 <= k < |bookings| && bookings[k].booking == b
    {
      var k :| 0 <= k < |own| && own[k] == b;
      assert bookings[k].booking == b;
    }
  }
}
