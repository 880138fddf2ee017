/**
 * The flight grid of the client: the nested record its edit and book
 * actions build from a flat row, and the texts its columns display.
 */
module FlightGrid {
  import opened Wrappers
  import opened JsText
  import opened Models
  import opened FlightController

  /** A flight in the nested shape the flight forms work with. */
  datatype FlightRecord = FlightRecord(
    id: string,
    flightNumber: string,
    airline: string,
    duration: int,
    departureAirport: Airport,
    arrivalAirport: Airport,
    pricing: Pricing,
    availability: Availability,
    flightStatus: string,
    departureDateTime: DateTime,
    arrivalDateTime: DateTime)

  /**
   * The record the edit action (and, with the very same literal, the book
   * action) builds from a grid row: airports, fares and seat pools regrouped
   * into nested objects, every other field copied.
   */
  function Regroup(row: Flight): (r: FlightRecord)
    ensures r.id == row.id
    ensures r.departureAirport == Airport(row.columns.departureAirportCode, row.columns.departureAirportName)
    ensures r.arrivalAirport == Airport(row.columns.arrivalAirportCode, row.columns.arrivalAirportName)
    ensures r.pricing == Pricing(row.columns.baseFare, row.columns.totalFare)
    ensures r.availability == Availability(row.columns.economySeats, row.columns.businessSeats)
    ensures r.flightNumber == row.columns.flightNumber && r.airline == row.columns.airline
    ensures r.duration == row.columns.duration && r.flightStatus == row.columns.flightStatus
    ensures r.departureDateTime == row.columns.departureDateTime
    ensures r.arrivalDateTime == row.columns.arrivalDateTime
  {
    var c := row.columns;
    FlightRecord(
      row.id, c.flightNumber, c.airline, c.duration,
      Airport(c.departureAirportCode, c.departureAirportName),
      Airport(c.arrivalAirportCode, c.arrivalAirportName),
      Pricing(c.baseFare, c.totalFare),
      Availability(c.economySeats, c.businessSeats),
      c.flightStatus, c.departureDateTime, c.arrivalDateTime)
  }

  /** The update request body of a record: everything but its `id`, which goes into the URL. */
  function UpdateBody(r: FlightRecord): (body: FlightBody)
    ensures body.flightStatus == Defined(r.flightStatus) && body.pricing.Some? && body.availability.Some?
    ensures body.departureAirport.Some? && body.arrivalAirport.Some?
  {
    FlightBody(
      r.flightNumber, r.airline, r.duration, Defined(r.flightStatus),
      Some(r.pricing), Some(r.availability),
      Some(r.departureAirport), Some(r.arrivalAirport),
      r.departureDateTime, r.arrivalDateTime)
  }

  /** Flattening a regrouped row, as the server does, gives back the row's columns. */
  lemma RegroupThenFlatten(row: Flight)
    ensures Columns(UpdateBody(Regroup(row))) == Some(row.columns)
  {
  }

  /** Regrouping the flattened record gives back the record: the two shapes are in one-to-one correspondence. */
  lemma FlattenThenRegroup(r: FlightRecord)
    ensures Columns(UpdateBody(r)).Some?
    ensures Regroup(Flight(r.id, Columns(UpdateBody(r)).value)) == r
  {
  }

  /** The airport code cells: `code || "N/A"`. */
  function AirportCell(code: Nullish<string>): (r: string)
    ensures r != ""
    ensures TruthyString(code) ==> r == code.value
    ensures !TruthyString(code) ==> r == "N/A"
  {
    if TruthyString(code) then code.value else "N/A"
  }

  /**
   * The duration cell, `${d} hrs.` || "N/A": the template is never the empty
   * string, so the fallback is never used.
   */
  function DurationLabel(d: Nullish<int>): (r: string)
    ensures r != "N/A"
    ensures |r| >= 6 && r[|r| - 5..] == " hrs."
    ensures r[..|r| - 5] == Template(d)
  {
    var template := Template(d) + " hrs.";
    if template != "" then template else "N/A"
  }

  /** The price cell: `Rs. ` followed by the fare, or by N/A for a zero or missing fare. */
  function PriceLabel(fare: Nullish<int>): (r: string)
    ensures |r| > 4 && r[..4] == "Rs. "
    ensures TruthyNumber(fare) ==> r[4..] == IntToString(fare.value)
    ensures !TruthyNumber(fare) ==> r == "Rs. N/A"
  {
    "Rs. " + (if TruthyNumber(fare) then IntToString(fare.value) else "N/A")
  }

  /** What follows the number in a seat count cell: ` seat`, an `s` unless the count is exactly 1, the verb. */
  function SeatCountSuffix(n: Nullish<int>, verb: string): (r: string)
    ensures |r| >= 1 && r[0] == ' '
  {
    " seat" + (if n != Defined(1) then "s" else "") + " " + verb
  }

  /**
   * A seat count cell: `${n || 0} seat${n !== 1 ? "s" : ""} <verb>`,
   * singular only for exactly 1.
   */
  function SeatCountLabel(n: Nullish<int>, verb: string): (r: string)
    ensures n == Defined(1) ==> r == "1 seat " + verb
    ensures n.Defined? && n.value != 1 ==> r == IntToString(n.value) + " seats " + verb
    ensures !n.Defined? ==> r == "0 seats " + verb
  {
    IntToString(OrZero(n)) + SeatCountSuffix(n, verb)
  }

  /** The part of `s` before its first space. */
  function BeforeSpace(s: string): (r: string)
    ensures |r| <= |s|
  {
    if s == [] || s[0] == ' ' then [] else [s[0]] + BeforeSpace(s[1..])
  }

  /** A string without white space followed by text starting with a space splits back at that space. */
  lemma {:induction false} BeforeSpaceOfConcat(a: string, tail: string)
    requires NoWhitespace(a)
    requires |tail| >= 1 && tail[0] == ' '
    ensures BeforeSpace(a + tail) == a
  {
    if a == [] {
      assert a + tail == tail;
    } else {
      assert (a + tail)[1..] == a[1..] + tail;
      assert !IsWhitespace(a[0]);
      BeforeSpaceOfConcat(a[1..], tail);
    }
  }

  /** A seat count cell determines the count it shows (`n || 0`). */
  lemma SeatCountLabelInjective(m: Nullish<int>, n: Nullish<int>, verb: string)
    requires SeatCountLabel(m, verb) == SeatCountLabel(n, verb)
    ensures OrZero(m) == OrZero(n)
  {
    BeforeSpaceOfConcat(IntToString(OrZero(m)), SeatCountSuffix(m, verb));
    BeforeSpaceOfConcat(IntToString(OrZero(n)), SeatCountSuffix(n, verb));
    IntToStringInjective(OrZero(m), OrZero(n));
  }

  /** The seat pool cells. */
  function SeatsLeftLabel(n: Nullish<int>): (r: string)
    ensures n == Defined(1) ==> r == "1 seat left"
    ensures n.Defined? && n.value != 1 ==> r == IntToString(n.value) + " seats left"
    ensures !n.Defined? || n == Defined(0) ==> r == "0 seats left"
  {
    SeatCountLabel(n, "left")
  }

  /** Drops the leading white space of `s`. */
  function DropWhitespace(s: string): (r: string)
    ensures |r| <= |s|
    ensures r == [] || !IsWhitespace(r[0])
  {
    if s != [] && IsWhitespace(s[0]) then DropWhitespace(s[1..]) else s
  }

  /** What `DropWhitespace` leaves is a suffix of its input. */
  lemma {:induction false} DropWhitespaceSuffix(s: string)
    ensures DropWhitespace(s) == s[|s| - |DropWhitespace(s)|..]
  {
    if s != [] && IsWhitespace(s[0]) {
      DropWhitespaceSuffix(s[1..]);
    }
  }

  /** `replace(/\s+/g, "-")`: each maximal run of white space becomes one dash. */
  function DashRuns(s: string): (r: string)
    ensures NoWhitespace(r)
    ensures |r| <= |s|
    decreases |s|
  {
    if s == [] then []
    else if IsWhitespace(s[0]) then "-" + DashRuns(DropWhitespace(s[1..]))
    else [s[0]] + DashRuns(s[1..])
  }

  /**
   * The palette key of a status chip: `flight-` and the status lower-cased
   * with its runs of white space turned into dashes.
   */
  function StatusKey(status: string): (r: string)
    ensures r == "flight-" + DashRuns(ToLower(status))
    ensures |r| >= 7 && r[..7] == "flight-"
    ensures NoWhitespace(r)
    ensures forall i :: 0 <= i < |r| ==> !IsUpper(r[i])
    ensures |r| <= 7 + |status|
  {
    var lowered := ToLower(status);
    var dashed := DashRuns(lowered);
    LowerStaysLower(lowered);
    PrefixIsClean();
    KeyParts("flight-", dashed);
    "flight-" + dashed
  }

  /** The key prefix has no white space and no upper-case letter. */
  lemma PrefixIsClean()
    ensures NoWhitespace("flight-") && forall i :: 0 <= i < 7 ==> !IsUpper("flight-"[i])
  {
    var p := "flight-";
    forall i | 0 <= i < 7
      ensures !IsWhitespace(p[i]) && !IsUpper(p[i])
    {
      assert 'a' <= p[i] <= 'z' || p[i] == '-';
    }
  }

  /** Joining two strings free of white space and upper-case letters keeps them so. */
  lemma KeyParts(p: string, s: string)
    requires NoWhitespace(p) && forall i :: 0 <= i < |p| ==> !IsUpper(p[i])
    requires NoWhitespace(s) && forall i :: 0 <= i < |s| ==> !IsUpper(s[i])
    ensures NoWhitespace(p + s) && forall i :: 0 <= i < |p + s| ==> !IsUpper((p + s)[i])
  {
    forall i | 0 <= i < |p + s|
      ensures !IsWhitespace((p + s)[i]) && !IsUpper((p + s)[i])
    {
      if i >= |p| {
        assert (p + s)[i] == s[i - |p|];
      }
    }
  }

  /** The white space `DropWhitespace` skips is exactly the leading run. */
  lemma {:induction false} DropWhitespaceRun(w: string, b: string)
    requires forall i :: 0 <= i < |w| ==> IsWhitespace(w[i])
    requires b == [] || !IsWhitespace(b[0])
    ensures DropWhitespace(w + b) == b
    decreases |w|
  {
    if w != [] {
      assert (w + b)[1..] == w[1..] + b;
      DropWhitespaceRun(w[1..], b);
    }
  }

  /** A prefix without white space is kept as it is. */
  lemma {:induction false} DashRunsOfWord(a: string, t: string)
    requires NoWhitespace(a)
    ensures DashRuns(a + t) == a + DashRuns(t)
    decreases |a|
  {
    if a != [] {
      assert (a + t)[0] == a[0] && !IsWhitespace(a[0]);
      assert (a + t)[1..] == a[1..] + t;
      assert NoWhitespace(a[1..]) by {
        forall i | 0 <= i < |a[1..]| ensures !IsWhitespace(a[1..][i]) {
          assert a[1..][i] == a[i + 1];
        }
      }
      DashRunsOfWord(a[1..], t);
      assert a + DashRuns(t) == [a[0]] + (a[1..] + DashRuns(t));
    } else {
      assert a + t == t;
    }
  }

  /** A string without white space is left as it is. */
  lemma DashRunsKeepsWord(s: string)
    requires NoWhitespace(s)
    ensures DashRuns(s) == s
  {
    DashRunsOfWord(s, []);
    assert s + [] == s;
  }

  /** A leading run of white space becomes a single dash. */
  lemma DashRunsOfLeadingRun(w: string, b: string)
    requires |w| >= 1 && forall i :: 0 <= i < |w| ==> IsWhitespace(w[i])
    requires b == [] || !IsWhitespace(b[0])
    ensures DashRuns(w + b) == "-" + DashRuns(b)
  {
    assert (w + b)[0] == w[0];
    assert (w + b)[1..] == w[1..] + b;
    DropWhitespaceRun(w[1..], b);
  }

  /**
   * A word, then one maximal run of white space, then the rest: the word is
   * kept and the whole run becomes a single dash. With `DashRunsKeepsWord`,
   * this determines the result for every string.
   */
  lemma DashRunsOfRun(a: string, w: string, b: string)
    requires NoWhitespace(a)
    requires |w| >= 1 && forall i :: 0 <= i < |w| ==> IsWhitespace(w[i])
    requires b == [] || !IsWhitespace(b[0])
    ensures DashRuns(a + w + b) == a + "-" + DashRuns(b)
  {
    var rest := w + b;
    assert a + w + b == a + rest;
    DashRunsOfLeadingRun(w, b);
    DashRunsOfWord(a, rest);
  }

  /** The default status lower-cased. */
  lemma LowerOnTime(status: string)
    requires status == "On Time"
    ensures ToLower(status) == "on time"
  {
    var lowered := ToLower(status);
    assert lowered[0] == ToLowerChar('O') == 'o';
    assert lowered[3] == ToLowerChar('T') == 't';
  }

  /** The default status "On Time" gets the palette key "flight-on-time". */
  lemma StatusKeyOnTime(status: string)
    requires status == "On Time"
    ensures StatusKey(status) == "flight-on-time"
  {
    LowerOnTime(status);
    assert NoWhitespace("on") by {
      forall i | 0 <= i < 2 ensures !IsWhitespace("on"[i]) {
        assert 'a' <= "on"[i] <= 'z';
      }
    }
    assert NoWhitespace("time") by {
      forall i | 0 <= i < 4 ensures !IsWhitespace("time"[i]) {
        assert 'a' <= "time"[i] <= 'z';
      }
    }
    DashRunsOfRun("on", " ", "time");
    DashRunsKeepsWord("time");
    assert "on" + " " + "time" == ToLower(status);
  }

  /** White-space runs turned to dashes keep a string free of upper-case letters. */
  lemma {:induction false} LowerStaysLower(s: string)
    requires forall i :: 0 <= i < |s| ==> !IsUpper(s[i])
    ensures forall i :: 0 <= i < |DashRuns(s)| ==> !IsUpper(DashRuns(s)[i])
    decreases |s|
  {
    if s != [] {
      if IsWhitespace(s[0]) {
        var rest := DropWhitespace(s[1..]);
        DropWhitespaceSuffix(s[1..]);
        assert forall i :: 0 <= i < |rest| ==> rest[i] == s[1..][|s[1..]| - |rest| + i];
        LowerStaysLower(rest);
        assert DashRuns(s) == "-" + DashRuns(rest);
      } else {
        LowerStaysLower(s[1..]);
        assert DashRuns(s) == [s[0]] + DashRuns(s[1..]);
      }
    }
  }

  /** A key is left as it is by a second pass of the same replacement. */
  lemma DashRunsIdempotent(s: string)
    ensures DashRuns(DashRuns(s)) == DashRuns(s)
  {
    DashRunsKeepsWord(DashRuns(s));
  }
}
