/**
 * The rows of the three tables (users, flights, bookings) as the ORM
 * definitions declare them. Primary keys are strings (UUIDs). FLOAT columns
 * (duration, fares) are modelled as integers; DATE columns as opaque
 * instants.
 */
module Models {
  import opened Wrappers

  /** A DATE column value; nothing in the model looks inside it. */
  datatype DateTime = DateTime(epochMillis: int)

  /** The `seatClass` enumeration of a booking. */
  datatype SeatClass = Economy | Business

  /** The `role` enumeration of a user; USER is the column default. */
  datatype Role = UserRole | AdminRole

  /**
   * Every column of a flight except its primary key: the fourteen columns
   * that flight creation and update write.
   */
  datatype FlightColumns = FlightColumns(
    flightNumber: string,
    airline: string,
    duration: int,
    flightStatus: string,
    baseFare: int,
    totalFare: int,
    economySeats: int,
    businessSeats: int,
    departureAirportCode: string,
    departureAirportName: string,
    arrivalAirportCode: string,
    arrivalAirportName: string,
    departureDateTime: DateTime,
    arrivalDateTime: DateTime)

  datatype Flight = Flight(id: string, columns: FlightColumns)

  datatype Booking = Booking(
    id: string,
    userId: string,
    flightId: string,
    bookingDate: DateTime,
    seatClass: SeatClass,
    numberOfSeats: int)

  /** `password` is nullable in the table; `avatar` is optional. */
  datatype User = User(
    id: string,
    name: string,
    mobileNumber: string,
    password: Option<string>,
    role: Role,
    avatar: Option<string>)

  /** Neither seat pool of the flight is negative. */
  predicate SeatPoolsNonNegative(f: Flight) {
    f.columns.economySeats >= 0 && f.columns.businessSeats >= 0
  }
}
