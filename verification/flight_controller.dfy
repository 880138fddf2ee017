/**
 * The flight controller: listing, creating and updating flights. A request
 * body carries fares, seat pools and airports as nested objects; both
 * creation and update flatten it into the table's columns with the one
 * mapping `Columns`.
 */
module FlightController {
  import opened Wrappers
  import opened JsText
  import opened Models
  import opened Tables

  datatype Airport = Airport(code: string, name: string)
  datatype Pricing = Pricing(baseFare: int, totalFare: int)
  datatype Availability = Availability(economy: int, business: int)

  /**
   * The body of a flight creation or update. A nested object may be
   * missing, and `flightStatus` may be absent or null.
   */
  datatype FlightBody = FlightBody(
    flightNumber: string,
    airline: string,
    duration: int,
    flightStatus: Nullish<string>,
    pricing: Option<Pricing>,
    availability: Option<Availability>,
    departureAirport: Option<Airport>,
    arrivalAirport: Option<Airport>,
    departureDateTime: DateTime,
    arrivalDateTime: DateTime)

  /**
   * The columns a body is stored as, or `None` when storing it throws:
   * reading a field of a missing nested object raises a TypeError, and an
   * absent or null `flightStatus` violates that column's NOT NULL constraint.
   */
  function Columns(body: FlightBody): (r: Option<FlightColumns>)
    ensures r.Some? <==>
      && body.flightStatus.Defined? && body.pricing.Some? && body.availability.Some?
      && body.departureAirport.Some? && body.arrivalAirport.Some?
    ensures r.Some? ==>
      && r.value.flightNumber == body.flightNumber
      && r.value.airline == body.airline
      && r.value.duration == body.duration
      && r.value.flightStatus == body.flightStatus.value
      && r.value.baseFare == body.pricing.value.baseFare
      && r.value.totalFare == body.pricing.value.totalFare
      && r.value.economySeats == body.availability.value.economy
      && r.value.businessSeats == body.availability.value.business
      && r.value.departureAirportCode == body.departureAirport.value.code
      && r.value.departureAirportName == body.departureAirport.value.name
      && r.value.arrivalAirportCode == body.arrivalAirport.value.code
      && r.value.arrivalAirportName == body.arrivalAirport.value.name
      && r.value.departureDateTime == body.departureDateTime
      && r.value.arrivalDateTime == body.arrivalDateTime
  {
    match (body.flightStatus, body.pricing, body.availability, body.departureAirport, body.arrivalAirport)
    case (Defined(status), Some(p), Some(a), Some(dep), Some(arr)) =>
      Some(FlightColumns(
        body.flightNumber, body.airline, body.duration, status,
        p.baseFare, p.totalFare, a.economy, a.business,
        dep.code, dep.name, arr.code, arr.name,
        body.departureDateTime, body.arrivalDateTime))
    case _ => None
  }

  /**
   * The columns an update leaves in a row that held `stored`: the instance
   * update skips the attributes whose value is `undefined`, so an absent
   * `flightStatus` keeps the stored status, while a null one still violates
   * NOT NULL and a missing nested object still throws before the update.
   */
  function Patch(stored: FlightColumns, body: FlightBody): (r: Option<FlightColumns>)
    ensures r.Some? <==>
      && !body.flightStatus.Null? && body.pricing.Some? && body.availability.Some?
      && body.departureAirport.Some? && body.arrivalAirport.Some?
    ensures body.flightStatus.Defined? ==> r == Columns(body)
    ensures body.flightStatus.Undefined? ==>
      r == Columns(body.(flightStatus := Defined(stored.flightStatus)))
    ensures r.Some? && body.flightStatus.Undefined? ==> r.value.flightStatus == stored.flightStatus
  {
    match body.flightStatus
    case Undefined => Columns(body.(flightStatus := Defined(stored.flightStatus)))
    case _ => Columns(body)
  }

  /** Listing: every stored flight, in insertion order (the query itself has no ORDER BY). */
  method GetAll(table: FlightTable) returns (flights: seq<Flight>)
    ensures |flights| == |table.rows|
    ensures forall i :: 0 <= i < |flights| ==> flights[i] == table.rows[i]
  {
    flights := table.rows;
  }

  /** The answers of creation (201) and update (200), an unknown key (404), an exception (500). */
  datatype Response =
    | Created(flight: Flight)
    | Updated(flight: Flight)
    | NotFound
    | SomethingWentWrong

  /**
   * Creation: one new row under the fresh key `newId` holding the body's
   * columns, or a 500 and no change.
   */
  method Create(table: FlightTable, body: FlightBody, newId: string) returns (res: Response)
    requires table.Valid()
    requires forall f :: f in table.rows ==> f.id != newId
    modifies table
    ensures table.Valid()
    ensures Columns(body).None? ==> res == SomethingWentWrong && table.rows == old(table.rows)
    ensures Columns(body).Some? ==>
      && res == Created(Flight(newId, Columns(body).value))
      && table.rows == old(table.rows) + [res.flight]
  {
    var columns := Columns(body);
    if columns.None? {
      return SomethingWentWrong;
    }
    var flight := Flight(newId, columns.value);
    table.rows := table.rows + [flight];
    res := Created(flight);
  }

  /**
   * Update: an unknown key answers 404; otherwise that one row gets the
   * columns `Patch` gives for it, its key and every other row staying as
   * they were (or a 500 and no change when the body cannot be stored).
   */
  method Update(table: FlightTable, id: string, body: FlightBody) returns (res: Response)
    requires table.Valid()
    modifies table
    ensures table.Valid()
    ensures FindFlight(old(table.rows), Some(id)).None? ==>
      res == NotFound && table.rows == old(table.rows)
    ensures FindFlight(old(table.rows), Some(id)).Some? ==>
      var stored := old(table.rows)[FindFlight(old(table.rows), Some(id)).value].columns;
      && (Patch(stored, body).None? ==> res == SomethingWentWrong && table.rows == old(table.rows))
      && (Patch(stored, body).Some? ==>
            && res == Updated(Flight(id, Patch(stored, body).value))
            && |table.rows| == |old(table.rows)|
            && forall j :: 0 <= j < |table.rows| ==>
                 table.rows[j] == if old(table.rows)[j].id == id then res.flight else old(table.rows)[j])
  {
    var found := FindFlight(table.rows, Some(id));
    if found.None? {
      return NotFound;
    }
    var columns := Patch(table.rows[found.value].columns, body);
    if columns.None? {
      return SomethingWentWrong;
    }
    var flight := Flight(id, columns.value);
    table.rows := table.rows[found.value := flight];
    res := Updated(flight);
  }
}
