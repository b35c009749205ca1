/**
 * The TCP "data" handler of the streaming service, for one payload: validate,
 * then (only for an accepted reading) update the violation log and raise the
 * alert, then send the reading to the OPEN viewers when it is in the safe
 * range. The parse result, the clock and the viewers' states are inputs; the
 * violation log is the detector's.
 *
 * Logging the alert formats the reading's timestamp as a date. A timestamp
 * outside the range of JavaScript dates makes that formatting throw, and the
 * handler's `catch` then swallows the error before the fanout runs.
 */
module StreamingServer {
  import opened Wrappers
  import opened Telemetry
  import opened ViolationWindow
  import opened Broadcaster

  /** Largest distance from the epoch, in milliseconds, of a valid JavaScript date. */
  const MaxDateMs: int := 8_640_000_000_000_000

  /** `new Date(t)` is a valid date, so `toISOString` does not throw. */
  predicate IsValidDate(t: int)
  {
    -MaxDateMs <= t <= MaxDateMs
  }

  /**
   * What the handler did with one payload: refused it; processed it (alert and
   * sends); or raised the alert and then threw while formatting the reading's
   * timestamp, so that nothing was sent.
   */
  datatype Outcome =
    | Rejected(reason: Rejection)
    | Handled(reading: Reading, alert: bool, sent: seq<Delivery>)
    | DateRangeError(reading: Reading)

  /** The sends an outcome made. */
  function Sent(out: Outcome): seq<Delivery>
  {
    if out.Handled? then out.sent else []
  }

  /** Whether the alert was logged. */
  predicate Alerted(out: Outcome)
  {
    match out
    case Rejected(_) => false
    case Handled(_, alert, _) => alert
    case DateRangeError(_) => true
  }

  /** The handler as a function: the new violation log and the outcome. */
  function Handle(log: seq<int>, doc: Document, now: int, clients: seq<ReadyState>): (seq<int>, Outcome)
  {
    match Validate(doc, now)
    case Failure(e) => (log, Rejected(e))
    case Success(r) =>
      var log' := Step(log, r);
      if Alerting(log') && !IsValidDate(r.timestamp) then (log', DateRangeError(r))
      else
        var sent := if InSafeRange(r.temperature) then OpenDeliveries(clients, ToMessage(r)) else [];
        (log', Handled(r, Alerting(log'), sent))
  }

  /** The handler as the service runs it, on the detector's log and a snapshot of the viewers. */
  method HandleData(detector: Detector, doc: Document, now: int, clients: seq<ReadyState>) returns (outcome: Outcome)
    modifies detector
    ensures (detector.violations, outcome) == Handle(old(detector.violations), doc, now, clients)
  {
    match Validate(doc, now) {
      case Failure(e) =>
        outcome := Rejected(e);
      case Success(r) =>
        var alert := detector.Process(r);
        if alert && !IsValidDate(r.timestamp) {
          outcome := DateRangeError(r);
        } else {
          var sent: seq<Delivery> := [];
          if InSafeRange(r.temperature) {
            sent := Broadcast(clients, ToMessage(r));
          }
          outcome := Handled(r, alert, sent);
        }
    }
  }

  /** A refused payload (caught exception or unusable temperature) leaves the log alone, sends nothing and raises no alert. */
  lemma RejectionIsInert(log: seq<int>, doc: Document, now: int, clients: seq<ReadyState>)
    requires !(doc.Parsed? && doc.root.Object? && IsUsableNumber(doc.root.batteryTemperature))
    ensures Handle(log, doc, now, clients).0 == log
    ensures Handle(log, doc, now, clients).1.Rejected?
    ensures Handle(log, doc, now, clients).1.reason == if doc.Malformed? || doc.root.Null? then ParseError else InvalidTemperature
  {
  }

  /**
   * An accepted reading either becomes a violation (its timestamp ends the new
   * log and nobody is sent it) or is a candidate for delivery (nothing is
   * appended), never both and never neither. A candidate reaches the OPEN
   * clients unless the alert's date formatting throws first.
   */
  lemma AppendOrDeliver(log: seq<int>, doc: Document, now: int, clients: seq<ReadyState>)
    requires Validate(doc, now).Success?
    ensures var r := Validate(doc, now).value;
      var (log', out) := Handle(log, doc, now, clients);
      (IsViolation(r.temperature) <==> !InSafeRange(r.temperature)) &&
      (IsViolation(r.temperature) ==> log' == Prune(log, r.timestamp) + [r.timestamp] && Sent(out) == []) &&
      (InSafeRange(r.temperature) ==> log' == Prune(log, r.timestamp)) &&
      (InSafeRange(r.temperature) ==> Sent(out) == if out.DateRangeError? then [] else OpenDeliveries(clients, ToMessage(r)))
  {
  }

  /**
   * After an accepted reading no log entry is more than 5000 ms older than that
   * reading's timestamp, every appended-to entry within that bound (later
   * entries included) stays, the alert is logged exactly when
   * more than 3 entries remain, and the handler throws exactly when it alerts
   * on a timestamp that is not a valid date.
   */
  lemma WindowAfterHandling(log: seq<int>, doc: Document, now: int, clients: seq<ReadyState>)
    requires Validate(doc, now).Success?
    ensures var r := Validate(doc, now).value;
      var (log', out) := Handle(log, doc, now, clients);
      (forall e :: e in log' ==> r.timestamp - e <= ViolationTimeWindow) &&
      (forall e :: e in Record(log, r) ==> (e in log' <==> WithinWindow(r.timestamp, e))) &&
      (Alerted(out) <==> |log'| > ViolationThreshold) &&
      (out.DateRangeError? <==> |log'| > ViolationThreshold && !IsValidDate(r.timestamp))
  {
    var r := Validate(doc, now).value;
    PruneSound(Record(log, r), r.timestamp);
    PruneCounts(Record(log, r), r.timestamp);
    forall e | e in Record(log, r)
      ensures e in Prune(Record(log, r), r.timestamp) <==> WithinWindow(r.timestamp, e)
    {
      assert e in multiset(Record(log, r));
    }
  }

  /**
   * An in-range reading reaches no viewer that is not OPEN; each OPEN viewer
   * receives `{battery_temperature, timestamp}` exactly once unless the handler
   * threw while logging the alert, in which case nobody receives it.
   */
  lemma DeliveredOncePerOpenClient(log: seq<int>, doc: Document, now: int, clients: seq<ReadyState>)
    requires Validate(doc, now).Success? && InSafeRange(Validate(doc, now).value.temperature)
    ensures var r := Validate(doc, now).value;
      var out := Handle(log, doc, now, clients).1;
      (forall d :: d in Sent(out) ==> d.message == Message(r.temperature, r.timestamp) && d.client < |clients| && clients[d.client] == Open) &&
      (out.DateRangeError? ==> Sent(out) == []) &&
      (!out.DateRangeError? ==> forall i: nat :: i < |clients| && clients[i] == Open ==> multiset(Sent(out))[Delivery(i, ToMessage(r))] == 1)
  {
    var r := Validate(doc, now).value;
    OnlyOpenClientsReceive(clients, ToMessage(r));
    EachOpenClientOnce(clients, ToMessage(r));
  }

  /**
   * A timestamp beyond the date range: four violations at T = 9e15 ms fill the
   * log, so an in-range reading at T raises the alert, the date formatting
   * throws, and the OPEN client is not sent the reading.
   */
  lemma DateRangeErrorSuppressesFanout()
    ensures var t := 9_000_000_000_000_000;
      var doc := Parsed(Object(Some(Number(Finite(50.0))), Some(t)));
      Handle([t, t, t, t], doc, 0, [Open]) == ([t, t, t, t], DateRangeError(Reading(Milli(50000), t)))
  {
    var t := 9_000_000_000_000_000;
    Round3Unique(50.0, 50000);
    PruneIdentity([t, t, t, t], t);
  }
}
