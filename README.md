# Battery-temperature streaming service: the per-payload pipeline

This project models, in Dafny, the core of the telemetry relay in
`spyder/streaming-service/src/server.ts`: the TCP `"data"` handler that takes
one payload from the producer and carries it through four stages.

1. **Validate** (`Telemetry`): the payload is accepted only when its
   `battery_temperature` is a number other than NaN. A malformed document is
   caught and dropped, and so is a `null` one, because reading a property of
   `null` throws inside the same `try`. The timestamp is the payload's own when
   it is truthy, otherwise the clock. A `timestamp` of 0 counts as absent. The
   temperature is rounded to three decimals.
2. **Detect** (`ViolationWindow`): the process-wide violation log
   (`temperatureViolations`) is a `Detector` object. For each accepted reading
   it appends the reading's timestamp when the temperature is outside
   [20, 80]. It then keeps only the entries at most 5000 ms older than that
   reading's timestamp, in order. Entries later than the reading are kept
   however far ahead they are. It reports an alert when more than 3 remain.
3. **Fan out** (`Broadcaster`): an in-range reading is sent as
   `{battery_temperature, timestamp}` to every viewer whose WebSocket state is
   OPEN, in the server's client order.
4. **Handler** (`StreamingServer`): the three stages in sequence, as a method
   on the detector (`HandleData`) and as a function (`Handle`) that the lemmas
   reason about. Logging the alert formats the reading's timestamp with
   `toISOString`, which throws for a timestamp beyond ±8.64e15 ms. The
   `catch` swallows that error, so such a reading is sent to nobody. The log
   has already been updated by then.

Representation choices:
- A finite temperature is an exact `real`.
- A normalised temperature is an integer number of milli-degrees, so
  `Math.round(t * 1000) / 1000` becomes `Round3(t)` milli-degrees.
- Comparing `m / 1000` with 20 or 80 gives the same answer as comparing `m`
  with 20000 or 80000.
- An infinite input, which is what an overflowing literal such as `1e400`
  parses to, is kept as `Overflow`. The code accepts it, and it counts as a
  violation.
- The parse result, the clock (`Date.now()`) and the viewers' states are
  parameters.

Behaviours of the code worth knowing:
- `Math.round` breaks ties towards +infinity, not away from zero, so -0.0005
  becomes 0.000. `RoundingExamples` states this.
- The code rejects only NaN, so an infinite temperature is accepted and counts
  as a violation.
- A `null` payload ends in the `catch` like a syntax error. It is not the
  invalid-temperature warning.

## Model

| member | source | states |
|---|---|---|
| `Telemetry.Validate` | spyder/streaming-service/src/server.ts:29-34 | The exception path (malformed or `null` document) holds exactly for those two inputs. A payload is accepted exactly when it is an object whose `battery_temperature` is a number and not NaN. The timestamp is the payload's when non-zero, else the clock. A finite temperature becomes the milli-degree value nearest to 1000·t, ties going up. An infinity stays an infinity of the same sign. |
| `Telemetry.Round3` | spyder/streaming-service/src/server.ts:34 | `Math.round(x*1000)` is the integer m with m − ½ ≤ 1000x < m + ½. |
| `Telemetry.Round3Unique` | spyder/streaming-service/src/server.ts:34 | That bracket determines the rounded value uniquely. |
| `Telemetry.NormaliseIdempotent` | spyder/streaming-service/src/server.ts:34 | Normalising an already normalised temperature (m/1000) gives back m milli-degrees. |
| `Telemetry.Round3Monotone` | spyder/streaming-service/src/server.ts:34 | Rounding preserves the order of temperatures. |
| `Telemetry.RoundingExamples` | spyder/streaming-service/src/server.ts:34 | 36.45678 → 36.457. 19.9999 → 20.000, which is in range, while 19.99 → 19.990 is a violation. -0.0005 → 0 and -0.0015 → -0.001 (ties towards +infinity). |
| `Telemetry.SafeRangeOfRaw` | spyder/streaming-service/src/server.ts:34-56 | A finite raw temperature is delivered exactly when 19999.5 ≤ 1000·t < 80000.5. |
| `Telemetry.SafeRangeInclusive` | spyder/streaming-service/src/server.ts:14-15 | 20 and 80 are inside the safe range. 19.999 and 80.001 are violations. |
| `Telemetry.RangeTestsComplementary` | spyder/streaming-service/src/server.ts:43-56 | The violation test and the delivery test are exact complements. |
| `ViolationWindow.PruneSound` | spyder/streaming-service/src/server.ts:47-49 | Every entry kept by the filter satisfies now − e ≤ 5000. |
| `ViolationWindow.PruneCounts` | spyder/streaming-service/src/server.ts:47-49 | The filter keeps every occurrence of an in-window entry and drops every other entry. Future entries (e > now) are in the window. |
| `ViolationWindow.PruneSubsequence` | spyder/streaming-service/src/server.ts:47-49 | The kept entries form an order-preserving subsequence of the log. |
| `ViolationWindow.PruneIdentity` | spyder/streaming-service/src/server.ts:47-49 | A log whose entries are all in the window is left unchanged. |
| `ViolationWindow.PruneIdempotent` | spyder/streaming-service/src/server.ts:47-49 | Pruning twice against the same timestamp is the same as pruning once. |
| `ViolationWindow.PruneSnoc` | spyder/streaming-service/src/server.ts:47-49 | Filtering `log + [e]` is filtering `log`, followed by `e` when it is in the window. |
| `ViolationWindow.ViolationRetained` | spyder/streaming-service/src/server.ts:43-49 | A violating reading's timestamp is appended, survives the pruning and ends the log. |
| `ViolationWindow.InRangeOnlyPrunes` | spyder/streaming-service/src/server.ts:43-49 | An in-range reading appends nothing. The log is still pruned. |
| `ViolationWindow.SlidingWindowScenario` | spyder/streaming-service/src/server.ts:43-54 | Violations at 0, 1000, 2000 and 3000 ms raise the alert at 3000 with 4 entries, and not at 2000. A violation at 6000 drops 0, keeps 1000 (boundary inclusive) and leaves 4 entries. |
| `ViolationWindow.Detector.constructor` | spyder/streaming-service/src/server.ts:19 | The violation log starts empty. |
| `ViolationWindow.Detector.Process` | spyder/streaming-service/src/server.ts:43-54 | The log becomes the filtered append of the old log. No remaining entry is more than 5000 ms older than the reading. The alert is returned exactly when more than 3 entries remain, and raising it leaves the log unchanged. |
| `Broadcaster.Broadcast` | spyder/streaming-service/src/server.ts:57-61 | The loop's sends are exactly `OpenDeliveries`: one per OPEN client, in client order. |
| `Broadcaster.EachOpenClientOnce` | spyder/streaming-service/src/server.ts:57-61 | Each OPEN client receives the message exactly once. Every other client never receives it. |
| `Broadcaster.OnlyOpenClientsReceive` | spyder/streaming-service/src/server.ts:57-61 | Every send carries the given message to an OPEN client of the snapshot. |
| `Broadcaster.DeliveriesInClientOrder` | spyder/streaming-service/src/server.ts:57-61 | Sends follow the clients' order strictly, so no client is visited twice. |
| `StreamingServer.HandleData` | spyder/streaming-service/src/server.ts:24-71 | One payload changes the detector's log and produces an outcome, both as `Handle` prescribes. The outcomes are: rejection; detection, alert and gated fanout; or an alert whose date formatting throws, which is caught before any send. |
| `StreamingServer.RejectionIsInert` | spyder/streaming-service/src/server.ts:65-70 | A rejected payload leaves the log unchanged, sends nothing and raises no alert. The reason is the caught exception for malformed or `null` documents and the invalid-temperature warning otherwise. |
| `StreamingServer.AppendOrDeliver` | spyder/streaming-service/src/server.ts:43-64 | An accepted reading either appends its timestamp and is sent to nobody, or appends nothing and is a candidate for fanout. Never both, never neither. A candidate is sent to the OPEN clients unless the alert's date formatting threw. |
| `StreamingServer.WindowAfterHandling` | spyder/streaming-service/src/server.ts:47-54 | After an accepted reading, no log entry is more than 5000 ms older than its timestamp. An entry of the log after the append stays exactly when it is at most 5000 ms older, so every later entry stays. The alert is logged exactly when the log has more than 3 entries. The handler throws exactly when it alerts on a timestamp that is not a valid date. |
| `StreamingServer.DeliveredOncePerOpenClient` | spyder/streaming-service/src/server.ts:36-61 | An in-range reading never reaches a viewer that is not OPEN. Unless the alert's date formatting threw, each OPEN viewer receives it exactly once, carrying `{battery_temperature: formattedTemp, timestamp}`. If it threw, nobody receives it. |
| `StreamingServer.DateRangeErrorSuppressesFanout` | spyder/streaming-service/src/server.ts:51-70 | With four violations logged at T = 9e15 ms, an in-range reading at T raises the alert. `toISOString` then throws, and the OPEN client receives nothing. The log keeps its four entries. |

## Left out

- The TCP and WebSocket servers, their ports, listening, and the `connection`, `end` and `error` events. These are transport plumbing.
- `msg.toString()`, `JSON.parse` and stream chunk framing. The parse result is an input (`Document`), with one payload per chunk.
- `Date.now()` is a parameter. Every `console` call is logging, and the alert is a boolean result. Of `new Date(...).toISOString()`, only its failure on timestamps beyond ±8.64e15 ms is modelled; the text it produces is not.
- Floating-point behaviour. Finite temperatures are exact reals, so the rounding error of `x * 1000` is not modelled. Neither is a large finite value overflowing to infinity.
- Validate: the `timestamp` property is modelled as an optional integer, with 0 and the other falsy values (`null`, `false`, `""`) as absent. A truthy timestamp that is not an integer is not modelled. JavaScript's `-` at line 48 converts such a value to a number first. A numeric string (`"1000"`), `true` or `[5]` is then filtered like that number. A non-numeric string or an object gives NaN, so the comparison fails and the entry is dropped. When the reading's own timestamp is such a value, every entry is dropped. A fractional timestamp is not modelled either, because the log holds integers. An infinite timestamp (`1e400`) is not modelled, because it breaks the window arithmetic: `Infinity - Infinity` is NaN, so a violation at +Infinity drops its own entry and every finite one, unlike `ViolationRetained`. At -Infinity an alert makes `toISOString` throw.
- Concurrency between producer connections sharing the log. Each payload is one atomic step.
- Viewer registration (join and leave) and what a viewer sees across payloads. Each call gets a snapshot of the viewers' states.
- The dashboard (`spyder/ui/...`): rendering, the last-10 slice and the colour map are presentation.
