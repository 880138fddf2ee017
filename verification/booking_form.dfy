/**
 * The booking form of the client: two seat counts, validated, then sent as
 * a booking request for the selected flight unless both are zero.
 */
module BookingForm {
  import opened Wrappers
  import opened JsText
  import Models
  import Tables
  import BookingController

  /** The form's fields as `parseFloat` leaves them. */
  datatype BookingValues = BookingValues(economy: FormNumber, business: FormNumber)

  /**
   * A seat count the schema accepts: a number (the number type already
   * refuses `NaN`, so the later `isNaN` refinement never fails) that is not
   * negative.
   */
  predicate ValidCount(v: FormNumber) {
    v.Number? && v.value >= 0
  }

  predicate Schema(values: BookingValues) {
    ValidCount(values.economy) && ValidCount(values.business)
  }

  const DefaultValues := BookingValues(Number(0), Number(0))

  /**
   * Submission of validated values: nothing is sent when both counts are
   * zero; otherwise the request names the selected flight (`None` when no
   * flight is selected) and carries exactly the two counts.
   */
  function OnSubmit(values: BookingValues, selectedFlightId: Option<string>)
    : (r: Option<BookingController.CreateRequest>)
    requires Schema(values)
    ensures r.None? <==> values.economy.value == 0 && values.business.value == 0
    ensures r.Some? ==>
      && r.value.flightId == selectedFlightId
      && r.value.economy == values.economy.value
      && r.value.business == values.business.value
    ensures r.Some? ==> r.value.economy >= 0 && r.value.business >= 0
                        && (r.value.economy > 0 || r.value.business > 0)
  {
    if values.economy.value == 0 && values.business.value == 0 then None
    else Some(BookingController.CreateRequest(selectedFlightId, values.economy.value, values.business.value))
  }

  /** The initial values pass the schema, and submitting them sends nothing. */
  lemma DefaultsAreStopped(selectedFlightId: Option<string>)
    ensures Schema(DefaultValues)
    ensures OnSubmit(DefaultValues, selectedFlightId).None?
  {
  }

  /**
   * A request the form sends never books nothing: against a table whose
   * pools are not negative it either fails, leaving both tables as they
   * were, or inserts at least one booking and leaves every pool non-negative.
   */
  lemma SentRequestBooksSomething(values: BookingValues, selectedFlightId: Option<string>,
                                  s: BookingController.Store, userId: string,
                                  economyId: string, businessId: string, now: Models.DateTime)
    requires Schema(values)
    requires OnSubmit(values, selectedFlightId).Some?
    requires Tables.UniqueFlightIds(s.flights) && BookingController.AllPoolsNonNegative(s.flights)
    ensures var r := BookingController.Book(s, userId, OnSubmit(values, selectedFlightId).value,
                                             economyId, businessId, now);
      && (r.response.Created? ==> |r.response.bookings| >= 1)
      && (!r.response.Created? ==> r.store == s)
      && BookingController.AllPoolsNonNegative(r.store.flights)
  {
  }
}
