/** The price calculation of the server's utilities: a per-crop unit conversion. */
module Common {
  import opened Wrappers

  /** A value, or the message of the error thrown instead. */
  datatype Result<T> = Ok(value: T) | Failure(message: string)

  /**
   * How many priced units one unit of the crop's measure holds: tons of
   * banana count 1000, nuts of coconut count one each, quintals of turmeric,
   * ragi and corn count 100. Any other crop has no conversion.
   */
  function UnitsPerMeasure(crop: string): (r: Option<int>)
    ensures r.Some? <==> crop in {"banana", "coconut", "dryCoconut", "turmeric", "ragi", "corn"}
    ensures r.Some? ==> r.value > 0
  {
    match crop
    case "banana" => Some(1000)
    case "coconut" => Some(1)
    case "dryCoconut" => Some(1)
    case "turmeric" => Some(100)
    case "ragi" => Some(100)
    case "corn" => Some(100)
    case _ => None
  }

  /**
   * The total amount for `value` measures of `crop` at `price` per unit;
   * an unsupported crop throws.
   */
  function CalculateTotalAmount(crop: string, value: int, price: int): (r: Result<int>)
    ensures crop == "banana" ==> r == Ok(value * 1000 * price)
    ensures crop == "coconut" || crop == "dryCoconut" ==> r == Ok(value * price)
    ensures crop == "turmeric" || crop == "ragi" || crop == "corn" ==> r == Ok(value * 100 * price)
    ensures r.Failure? <==> UnitsPerMeasure(crop).None?
    ensures r.Failure? ==> r.message == "unsupported crop: " + crop
    ensures r.Ok? && (value == 0 || price == 0) ==> r.value == 0
  {
    match UnitsPerMeasure(crop)
    case Some(units) => Ok(value * units * price)
    case None => Failure("unsupported crop: " + crop)
  }
}
