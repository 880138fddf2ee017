/**
 * The booking grid of the client: one row per booking of the user, built
 * from the booking and the flight it was read together with.
 */
module BookingGrid {
  import opened Wrappers
  import opened JsText
  import opened Models
  import opened BookingController
  import FlightGrid

  /**
   * A grid row: the flight's fields spread first, then the booking's `id`
   * and `numberOfSeats` written over them. Without a flight (`null`) the row
   * has only those two fields.
   */
  datatype BookingRow = BookingRow(id: string, numberOfSeats: int, flight: Option<FlightColumns>)

  /** The row of one booking. */
  function ToRow(d: BookingWithFlight): (r: BookingRow)
    ensures r.id == d.booking.id
    ensures r.numberOfSeats == d.booking.numberOfSeats
    ensures d.flight.None? <==> r.flight.None?
    ensures d.flight.Some? ==> r.flight == Some(d.flight.value.columns)
  {
    BookingRow(d.booking.id, d.booking.numberOfSeats,
               match d.flight case Some(f) => Some(f.columns) case None => None)
  }

  /** The grid's rows: one per booking, in order; none while there is no data. */
  function Rows(data: Option<seq<BookingWithFlight>>): (rows: seq<BookingRow>)
    ensures data.None? ==> rows == []
    ensures data.Some? ==> |rows| == |data.value|
    ensures data.Some? ==> forall k :: 0 <= k < |rows| ==> rows[k] == ToRow(data.value[k])
  {
    match data
    case None => []
    case Some(d) => seq(|d|, k requires 0 <= k < |d| => ToRow(d[k]))
  }

  /**
   * Rows built from a read of the ledger are keyed by booking: distinct rows
   * have distinct ids, even when several bookings share a flight.
   */
  lemma RowIdsAreBookingIds(data: seq<BookingWithFlight>)
    requires forall i, j :: 0 <= i < j < |data| ==> data[i].booking.id != data[j].booking.id
    ensures var rows := Rows(Some(data));
      forall i, j :: 0 <= i < j < |rows| ==> rows[i].id != rows[j].id
  {
  }

  /** The booked-seats cell: singular only for exactly one seat. */
  function BookedSeatsLabel(n: Nullish<int>): (r: string)
    ensures n == Defined(1) ==> r == "1 seat booked"
    ensures n.Defined? && n.value != 1 ==> r == IntToString(n.value) + " seats booked"
    ensures !n.Defined? ==> r == "0 seats booked"
  {
    FlightGrid.SeatCountLabel(n, "booked")
  }
}
