/**
 * The Reading Validator of the streaming service: what the TCP "data" handler
 * does with one parsed payload before any state is touched. It accepts the
 * payload only when `battery_temperature` is a number other than NaN, picks the
 * reading's timestamp (the payload's own when truthy, else the clock), and
 * normalises the temperature to three decimals.
 *
 * Temperatures are kept exactly: a finite input is a `real`, and a normalised
 * temperature is an integer number of milli-degrees, so that the source's
 * `Math.round(t * 1000) / 1000` becomes `Round3(t)` milli-degrees.
 */
module Telemetry {
  import opened Wrappers

  /** Bounds of the safe range, inclusive, in degrees. */
  const SafeTempMin: int := 20
  const SafeTempMax: int := 80

  /** A JavaScript number: finite, an infinity (what an overflowing literal such as 1e400 parses to), or NaN. */
  datatype Num = Finite(value: real) | Infinity(negative: bool) | NaN

  /**
   * The JSON value the payload parsed to. Of an object only the two properties
   * the handler reads are kept; `None` is an undefined property. A numeric
   * `timestamp` is an integer number of milliseconds; for `timestamp`, `None`
   * also stands for the other falsy values (`null`, `false`, `""`), which
   * `parsedData.timestamp || Date.now()` replaces with the clock as it does 0.
   */
  datatype Value =
    | Null
    | Bool(b: bool)
    | Number(n: Num)
    | Str(s: string)
    | Array
    | Object(batteryTemperature: Option<Value>, timestamp: Option<int>)

  /** The result of `JSON.parse` on the received text. */
  datatype Document = Malformed | Parsed(root: Value)

  /** Why a payload was dropped: an exception caught by the handler, or a temperature that is not a usable number. */
  datatype Rejection = ParseError | InvalidTemperature

  /** A normalised temperature: milli-degrees, or an infinity that rounding leaves as it is. */
  datatype Temp = Milli(m: int) | Overflow(negative: bool)

  /** The cleaned reading every later stage works on. */
  datatype Reading = Reading(temperature: Temp, timestamp: int)

  /** `Math.round(x * 1000)`: the nearest integer to 1000x, a tie going up (towards +infinity). */
  function Round3(x: real): (m: int)
    ensures m as real - 0.5 <= x * 1000.0 < m as real + 0.5
  {
    (x * 1000.0 + 0.5).Floor
  }

  /** The temperature after rounding to three decimals; an infinity stays infinite. */
  function Normalise(n: Num): Temp
    requires !n.NaN?
  {
    match n
    case Finite(x) => Milli(Round3(x))
    case Infinity(neg) => Overflow(neg)
  }

  /** `parsedData.timestamp || Date.now()`, with the clock passed in. */
  function ReadingTime(timestamp: Option<int>, now: int): int
  {
    if timestamp.Some? && timestamp.value != 0 then timestamp.value else now
  }

  /** The test `typeof t === "number" && !isNaN(t)` on an (optional) property value. */
  predicate IsUsableNumber(t: Option<Value>)
  {
    t.Some? && t.value.Number? && !t.value.n.NaN?
  }

  /**
   * One payload through the validator. A malformed document, and a `null` one
   * (reading a property of `null` throws inside the same `try`), are caught;
   * any other root without a usable number in `battery_temperature` is refused.
   */
  function Validate(doc: Document, now: int): (r: Result<Reading, Rejection>)
    ensures r == Failure(ParseError) <==> doc.Malformed? || doc == Parsed(Null)
    ensures r.Success? <==> doc.Parsed? && doc.root.Object? && IsUsableNumber(doc.root.batteryTemperature)
    ensures r.Success? ==>
      var ts := doc.root.timestamp;
      (ts.Some? && ts.value != 0 ==> r.value.timestamp == ts.value) &&
      (ts.None? || ts.value == 0 ==> r.value.timestamp == now)
    ensures r.Success? && doc.root.batteryTemperature.value.n.Finite? ==>
      var x := doc.root.batteryTemperature.value.n.value;
      r.value.temperature.Milli? &&
      r.value.temperature.m as real - 0.5 <= x * 1000.0 < r.value.temperature.m as real + 0.5
    ensures r.Success? && doc.root.batteryTemperature.value.n.Infinity? ==>
      r.value.temperature == Overflow(doc.root.batteryTemperature.value.n.negative)
  {
    match doc
    case Malformed => Failure(ParseError)
    case Parsed(Null) => Failure(ParseError)
    case Parsed(Object(t, ts)) =>
      if IsUsableNumber(t) then Success(Reading(Normalise(t.value.n), ReadingTime(ts, now)))
      else Failure(InvalidTemperature)
    case Parsed(_) => Failure(InvalidTemperature)
  }

  /** Delivery test (`formattedTemp >= 20 && formattedTemp <= 80`); `m / 1000` compares with 20 and 80 exactly as `m` does with 20000 and 80000. */
  predicate InSafeRange(t: Temp)
  {
    t.Milli? && SafeTempMin * 1000 <= t.m <= SafeTempMax * 1000
  }

  /** Violation test (`formattedTemp < 20 || formattedTemp > 80`); an infinity compares outside the range. */
  predicate IsViolation(t: Temp)
  {
    match t
    case Milli(m) => m < SafeTempMin * 1000 || m > SafeTempMax * 1000
    case Overflow(_) => true
  }

  /** The two range tests of the handler are complements: a reading is either a violation or deliverable. */
  lemma RangeTestsComplementary(t: Temp)
    ensures IsViolation(t) <==> !InSafeRange(t)
  {
  }

  /** The bounds themselves are safe; one milli-degree beyond either is a violation. */
  lemma SafeRangeInclusive()
    ensures InSafeRange(Milli(20000)) && InSafeRange(Milli(80000))
    ensures IsViolation(Milli(19999)) && IsViolation(Milli(80001))
  {
  }

  /** The rounding is determined by its contract: the only integer within half a unit (ties up) of 1000x. */
  lemma Round3Unique(x: real, m: int)
    requires m as real - 0.5 <= x * 1000.0 < m as real + 0.5
    ensures Round3(x) == m
  {
  }

  /** Re-normalising an already normalised temperature leaves it unchanged. */
  lemma NormaliseIdempotent(m: int)
    ensures Normalise(Finite(m as real / 1000.0)) == Milli(m)
  {
  }

  /** Rounding preserves order, so a raw temperature never overtakes another through normalisation. */
  lemma Round3Monotone(x: real, y: real)
    requires x <= y
    ensures Round3(x) <= Round3(y)
  {
  }

  /** A finite raw temperature is delivered exactly when it lies in [19.9995, 80.0005). */
  lemma SafeRangeOfRaw(x: real)
    ensures InSafeRange(Normalise(Finite(x))) <==> 19999.5 <= x * 1000.0 < 80000.5
  {
  }

  /** Worked values: 36.45678 gives 36.457; 19.9999 rounds into range while 19.99 stays out; -0.0005 rounds up to 0. */
  lemma RoundingExamples()
    ensures Round3(36.45678) == 36457
    ensures Round3(19.9999) == 20000 && InSafeRange(Milli(Round3(19.9999)))
    ensures Round3(19.99) == 19990 && IsViolation(Milli(Round3(19.99)))
    ensures Round3(-0.0005) == 0 && Round3(-0.0015) == -1
  {
  }
}
