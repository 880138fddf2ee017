/**
 * The flight creation form of the client: a schema over its fields, the
 * initial values, and the request body built from validated values.
 */
module FlightForm {
  import opened Wrappers
  import opened JsText
  import opened Models
  import opened FlightController

  datatype PricingValues = PricingValues(baseFare: FormNumber, totalFare: FormNumber)
  datatype AvailabilityValues = AvailabilityValues(economy: FormNumber, business: FormNumber)

  /** The form's fields; `status` comes from a select and may be null. */
  datatype FlightValues = FlightValues(
    flightNumber: string,
    airline: string,
    duration: FormNumber,
    status: Option<string>,
    pricing: PricingValues,
    availability: AvailabilityValues,
    departureAirport: Airport,
    arrivalAirport: Airport)

  /** A number that is not negative and not zero (`NaN` is refused by the number type). */
  predicate PositiveNumber(v: FormNumber) {
    v.Number? && v.value >= 0 && v.value != 0
  }

  predicate FilledAirport(a: Airport) {
    |a.code| >= 1 && |a.name| >= 1
  }

  /** The schema: every number positive, every text filled, a status other than "". */
  predicate Schema(v: FlightValues) {
    && |v.flightNumber| >= 1
    && |v.airline| >= 1
    && PositiveNumber(v.duration)
    && v.status != Some("")
    && PositiveNumber(v.pricing.baseFare)
    && PositiveNumber(v.pricing.totalFare)
    && PositiveNumber(v.availability.economy)
    && PositiveNumber(v.availability.business)
    && FilledAirport(v.departureAirport)
    && FilledAirport(v.arrivalAirport)
  }

  const DefaultValues := FlightValues(
    "", "", Number(0), Some("On Time"),
    PricingValues(Number(0), Number(0)),
    AvailabilityValues(Number(0), Number(0)),
    Airport("", ""), Airport("", ""))

  /** The initial values do not pass: their numbers are zero and their texts empty. */
  lemma DefaultsAreInvalid()
    ensures !Schema(DefaultValues)
    ensures !PositiveNumber(DefaultValues.duration) && DefaultValues.flightNumber == ""
  {
  }

  /**
   * The request body of validated values: `status` renamed to
   * `flightStatus` (a null status is sent as null), every other field kept,
   * both picked date-times added.
   */
  function OnSubmit(v: FlightValues, departureDateTime: DateTime, arrivalDateTime: DateTime)
    : (body: FlightBody)
    requires Schema(v)
    ensures body.flightStatus == if v.status.Some? then Defined(v.status.value) else Null
    ensures body.flightNumber == v.flightNumber && body.airline == v.airline
    ensures body.duration == v.duration.value
    ensures body.pricing == Some(Pricing(v.pricing.baseFare.value, v.pricing.totalFare.value))
    ensures body.availability == Some(Availability(v.availability.economy.value, v.availability.business.value))
    ensures body.departureAirport == Some(v.departureAirport)
    ensures body.arrivalAirport == Some(v.arrivalAirport)
    ensures body.departureDateTime == departureDateTime && body.arrivalDateTime == arrivalDateTime
  {
    FlightBody(
      v.flightNumber, v.airline, v.duration.value,
      if v.status.Some? then Defined(v.status.value) else Null,
      Some(Pricing(v.pricing.baseFare.value, v.pricing.totalFare.value)),
      Some(Availability(v.availability.economy.value, v.availability.business.value)),
      Some(v.departureAirport), Some(v.arrivalAirport),
      departureDateTime, arrivalDateTime)
  }

  /**
   * What the server stores for a submitted form: it refuses the body exactly
   * when the status is null; otherwise the stored flight has positive seat
   * pools, fares and duration, and filled texts.
   */
  lemma SubmittedFormIsStorable(v: FlightValues, departureDateTime: DateTime, arrivalDateTime: DateTime)
    requires Schema(v)
    ensures var c := Columns(OnSubmit(v, departureDateTime, arrivalDateTime));
      && (c.Some? <==> v.status.Some?)
      && (c.Some? ==>
            && c.value.economySeats > 0 && c.value.businessSeats > 0
            && c.value.baseFare > 0 && c.value.totalFare > 0 && c.value.duration > 0
            && c.value.flightStatus != ""
            && |c.value.departureAirportCode| >= 1 && |c.value.arrivalAirportCode| >= 1)
  {
  }
}
