/**
 * The three tables as mutable objects holding their rows in insertion
 * order, with the key lookups the controllers perform through the ORM
 * (`findByPk`, `findOne`) and the invariants that keep them consistent.
 */
module Tables {
  import opened Wrappers
  import opened Models

  predicate UniqueFlightIds(rows: seq<Flight>) {
    forall i, j :: 0 <= i < j < |rows| ==> rows[i].id != rows[j].id
  }

  predicate UniqueBookingIds(rows: seq<Booking>) {
    forall i, j :: 0 <= i < j < |rows| ==> rows[i].id != rows[j].id
  }

  predicate UniqueUserIds(rows: seq<User>) {
    forall i, j :: 0 <= i < j < |rows| ==> rows[i].id != rows[j].id
  }

  predicate UniqueMobileNumbers(rows: seq<User>) {
    forall i, j :: 0 <= i < j < |rows| ==> rows[i].mobileNumber != rows[j].mobileNumber
  }

  /**
   * `Flight.findByPk(id)`: the position of the flight with that primary key,
   * or nothing. A missing key (`undefined`) finds nothing.
   */
  function FindFlight(rows: seq<Flight>, id: Option<string>): (r: Option<nat>)
    ensures r.Some? ==> id.Some? && r.value < |rows| && rows[r.value].id == id.value
    ensures r.Some? ==> forall j :: 0 <= j < r.value ==> rows[j].id != id.value
    ensures r.None? && id.Some? ==> forall j :: 0 <= j < |rows| ==> rows[j].id != id.value
  {
    if id.None? || rows == [] then None
    else if rows[0].id == id.value then Some(0)
    else
      match FindFlight(rows[1..], id)
      case None => None
      case Some(k) => Some(k + 1)
  }

  /** The flight a booking's `flightId` refers to, as the ORM's `include` joins it. */
  function FlightOf(rows: seq<Flight>, id: string): (r: Option<Flight>)
    ensures r.Some? ==> r.value in rows && r.value.id == id
    ensures r.None? ==> forall f :: f in rows ==> f.id != id
  {
    match FindFlight(rows, Some(id))
    case None => None
    case Some(i) => Some(rows[i])
  }

  /** `User.findOne({ where: { mobileNumber } })`: the first user with that mobile number. */
  function FindUserByMobile(rows: seq<User>, mobileNumber: string): (r: Option<nat>)
    ensures r.Some? ==> r.value < |rows| && rows[r.value].mobileNumber == mobileNumber
    ensures r.Some? ==> forall j :: 0 <= j < r.value ==> rows[j].mobileNumber != mobileNumber
    ensures r.None? ==> forall j :: 0 <= j < |rows| ==> rows[j].mobileNumber != mobileNumber
  {
    if rows == [] then None
    else if rows[0].mobileNumber == mobileNumber then Some(0)
    else
      match FindUserByMobile(rows[1..], mobileNumber)
      case None => None
      case Some(k) => Some(k + 1)
  }

  class FlightTable {
    var rows: seq<Flight>

    /** An empty table, which satisfies the invariant. */
    constructor()
      ensures Valid() && rows == []
    {
      rows := [];
    }

    /** The primary key is unique. */
    ghost predicate Valid()
      reads this
    {
      UniqueFlightIds(rows)
    }
  }

  class BookingTable {
    var rows: seq<Booking>

    /** An empty table, which satisfies the invariant. */
    constructor()
      ensures Valid() && rows == []
    {
      rows := [];
    }

    /**
     * The primary key is unique and every row satisfies the `min: 1`
     * validation of `numberOfSeats`.
     */
    ghost predicate Valid()
      reads this
    {
      && UniqueBookingIds(rows)
      && forall i :: 0 <= i < |rows| ==> rows[i].numberOfSeats >= 1
    }
  }

  class UserTable {
    var rows: seq<User>

    /** An empty table, which satisfies the invariant. */
    constructor()
      ensures Valid() && rows == []
    {
      rows := [];
    }

    /**
     * The primary key is unique, and so is the mobile number: the table
     * declares no such constraint, signup keeps it.
     */
    ghost predicate Valid()
      reads this
    {
      UniqueUserIds(rows) && UniqueMobileNumbers(rows)
    }
  }
}
