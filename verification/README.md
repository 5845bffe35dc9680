# ble-rssirecorder, modelled in Dafny

The recorder scans for Bluetooth LE advertisements. It keeps those whose
local name contains `"Co"` and stamps each with the capture time. It
collects them per device name into `valueByName`, a map from name to the
series of `(time, RSSI)` rows. When scanning ends, it reports each device's
sample count and elapsed seconds and charts the series against time.

This project models the sequential logic of `main.go`:

- `records.dfy` (`Records`): the `BLEDevice` and `Row` records. Timestamps are
  integer Unix nanoseconds, and `UnixSeconds` is Go's `Time.Unix()` (floor
  division).
- `adv_filter.dfy` (`AdvFilter`): the callback built by `createAdvHandler`. It has
  a recursive `strings.Contains`, proved equal to an index-based definition.
  The acceptance test is `Accepts` and the mapping to a `BLEDevice` is
  `Handle`. The clock reading is a parameter.
- `acquirer.dfy` (`Acquirer`): the loop of `startAcquirer`. It appears twice: as
  the left fold `Aggregate`, and as the class `SeriesStore`, whose `Append`
  updates `valueByName` in place. `StartAcquirer` drives `Append` over the
  received sequence and is proved to produce `Aggregate` of it. The fold is
  proved against the reference `RowsOf`, which is the per-name subsequence in
  arrival order. Further lemmas cover the key set, non-empty series, the
  one-row append and the total row count.
- `report.dfy` (`Report`): `rows2PlotterXYS` as an index loop filling a
  preallocated buffer. It has an inverse `ToRows` and a round-trip lemma.
  Also here: the elapsed-seconds figure of the summary line and the
  per-device summary.
- `scan_result.dfy` (`ScanResult`): `chkErr`, with `errors.Cause` unwrapping of
  the two `github.com/pkg/errors` wrappers. `Wrapped` is `withMessage`, which
  puts its message before the cause's text. `Stack` is `withStack`, whose text
  is the cause's text unchanged. `errors.Wrap` builds both, one around the other.
- `pipeline.dfy` (`Pipeline`): filter, then the FIFO channel, then the
  aggregator, end to end. Includes a two-device scenario.

## Model

| member | source | states |
|---|---|---|
| `Records.UnixSeconds` | main.go:84 | `Unix()` is the whole number of seconds `s` with `s*1e9 <= t < (s+1)*1e9` (rounded down) |
| `AdvFilter.Contains` | main.go:134 | `strings.Contains`: a match needs the substring to be no longer than the name; the empty substring always matches |
| `AdvFilter.ContainsIffOccurs` | main.go:134 | the recursive `strings.Contains` holds exactly when the substring occurs at some index of the name |
| `AdvFilter.Accepts` | main.go:134 | the callback's test; an accepted name is at least as long as the marker `"Co"` |
| `AdvFilter.Handle` | main.go:133-137 | an advertisement yields an observation iff it is accepted; the observation has the advertisement's name and RSSI, the supplied time, and a non-empty name |
| `AdvFilter.AcceptsIffMarkerAt` | main.go:134 | the `!= ""` test is redundant: acceptance is equivalent to containing `"Co"` alone, and to some `'C'` being immediately followed by `'o'` |
| `AdvFilter.RejectsWithoutCapitalC` | main.go:134 | the test is case-sensitive: a name without a capital `C` is always dropped |
| `AdvFilter.HandleExamples` | main.go:134-136 | the empty name and `"co-sensor"` are dropped; `"CoSensor"` yields the observation with the given RSSI and time |
| `Records.RowOf` | main.go:127 | the row built from a device keeps its time and RSSI and drops the name |
| `Acquirer.Lookup` | main.go:127 | `valueByName[name]`: the stored series for a present key, the empty (nil) slice for a missing one |
| `Acquirer.Step` | main.go:127 | one iteration adds the device's name to the keys, appends exactly one row at the tail of its series, and leaves every other series unchanged (a missing key reads as empty) |
| `Acquirer.Aggregate` | main.go:125-128 | the store after the loop, as a left fold from the empty map; keys are created only by an append, so no key maps to an empty series; the last device's name is a key |
| `Acquirer.AggregateIsPerNameSubsequence` | main.go:125-128 | after the loop, each name's series equals the subsequence of received devices with that name, in arrival order, mapped to `(T, RSSI)`: nothing is dropped, duplicated or reordered |
| `Acquirer.AggregateKeys` | main.go:125-128 | the map's keys are exactly the names received, and every key maps to a non-empty series |
| `Acquirer.AggregateAppendsAtTail` | main.go:126-127 | consuming one more device appends one row at the tail of its name's series; all other series are unchanged |
| `Acquirer.AggregateTotal` | main.go:126-127 | the number of rows over all keys equals the number of devices consumed |
| `Acquirer.SeriesStore.constructor` | main.go:125 | the store starts as the empty map, the fold of no devices |
| `Acquirer.SeriesStore.Append` | main.go:127 | the in-place append keeps the map equal to the fold of everything consumed; it adds one row at the tail of the device's series and changes no other key |
| `Acquirer.StartAcquirer` | main.go:124-130 | the loop over the received devices leaves `valueByName` equal to the fold `Aggregate` of that sequence |
| `Report.Offsets` | main.go:60-67 | one point per row; the first X is 0; X differences equal time differences between any two rows; Y is the row's RSSI |
| `Report.Rows2PlotterXYs` | main.go:60-67 | the buffer loop returns one point per row; point `i` has `X = T_i - T_0` and `Y = RSSI_i`, so the first point has `X = 0` |
| `Report.OffsetsRoundTrip` | main.go:61-65 | the conversion loses nothing: the rows are rebuilt from the points and the first row's time |
| `Report.OffsetsMonotone` | main.go:63 | when the row times never decrease, the X offsets are non-negative and never decrease |
| `Report.Elapsed` | main.go:84 | last `Unix()` minus first `Unix()`; a single-row series gives 0 |
| `Report.ElapsedNearLastOffset` | main.go:63-84 | the whole-second elapsed figure times 1e9 is strictly within one second of the last point's nanosecond offset |
| `Report.Summarize` | main.go:83-84 | one summary per key of the store; its sample count is the series length (at least 1) and its seconds figure is `Elapsed` of that series |
| `Report.SummaryOfAggregate` | main.go:83-84 | after aggregation every series is non-empty, so the summary line is defined; each count equals that device's number of observations; a single-sample device reports 0 seconds |
| `ScanResult.Text` | main.go:169 | `err.Error()`: a `withStack` wrapper has its cause's text unchanged; a `withMessage` wrapper's text is longer and ends with its cause's text |
| `ScanResult.Cause` | main.go:162 | `errors.Cause` returns an error on the input's chain of causes that is not itself a wrapper; by `InnermostIsUnique` that is the innermost error of the chain; an unwrapped error is its own cause |
| `ScanResult.InnermostIsUnique` | main.go:162 | a chain of causes holds exactly one error that is not a wrapper, so the two ensures of `Cause` determine its result |
| `ScanResult.ChkErr` | main.go:161-171 | the scan outcome is fatal exactly when the error is non-nil and its cause is neither deadline-exceeded nor canceled; the fatal message is the full error text; nil, deadline and cancel continue, printing nothing, `done` and `canceled` |
| `ScanResult.WrappingKeepsClass` | main.go:162-170 | wrapping an error in either wrapper leaves its cause unchanged; adding a message never changes whether `chkErr` treats an error as fatal, nor what it prints when it is not; adding a stack changes nothing at all |
| `ScanResult.StackKeepsMessage` | main.go:162-169 | `errors.WithStack(errors.New(x))` is fatal with the message `x` itself |
| `Pipeline.Emitted` | main.go:133-136 | the callback sends at most one observation per advertisement; each one sent has a non-empty name containing `"Co"` |
| `Pipeline.EmittedOne` | main.go:133-136 | one callback sends exactly `BLEDevice{Name, RSSI, now}` when the advertisement is accepted, and nothing otherwise |
| `Pipeline.EmittedAppend` | main.go:133-136 | filtering distributes over concatenation: later callbacks never reorder or alter what earlier ones sent |
| `Pipeline.Run` | main.go:124-137 | the store the aggregator builds from everything the callback sent; no key maps to an empty series |
| `Pipeline.RunKeysAccepted` | main.go:124-137 | every key of the final map is a non-empty name containing `"Co"` and has at least one sample |
| `Pipeline.ScenarioTwoDevices` | main.go:124-137 | readings of `CoSensor` at 0 s and 1 s, followed by one of `Other` stamped 0.5 s, give exactly `{"CoSensor": [(0, -40), (1e9, -42)]}` |

## Left out

- Channels, goroutines and shutdown. This covers the `gotValues` channel (capacity 100, backpressure), the `go startAcquirer` goroutine, the `done` channel and the signal handler's `close(gotValues)` (main.go:33-35, 44-47, 51, 129). The model keeps only their effect on data: the aggregator consumes, in FIFO order, the finite sequence the callback sent.
- Shutdown behaviour of the code: `close(gotValues)` happens only in the interrupt handler. If the scan ends any other way, nothing closes the channel and `<-done` on main.go:51 never returns. The `du` flag is parsed but never used for a deadline. The handler also closes the channel while callbacks may still be sending on it. These are races and liveness questions, which this sequential model does not capture.
- BLE device creation and scanning (`dev.NewDevice`, `ble.SetDefaultDevice`, `ble.Scan`): a foreign library and radio I/O. The scan's result enters `ChkErr` as a parameter.
- Chart construction, PNG saving and `displayImage`'s external `open` command: a foreign library, file I/O and process spawning.
- The float conversions in `rows2PlotterXYS`. `Rows2PlotterXYs` keeps X as an integer nanosecond offset instead of `float64` seconds, and Y as an integer RSSI instead of `float64`.
- `time.Now()`: the clock reading is a parameter (`Handle`'s `now`, `Pipeline.Event.now`). Timestamps are unbounded integers, so the int64 range of `UnixNano()` and overflow in `T_i - T_0` are not modelled.
- AdvFilter.Contains: works on characters, while Go's `strings.Contains` works on UTF-8 bytes. For the ASCII marker `"Co"` the two agree.
- ChkErr: `log.Fatalf` reads the message as a format string; the model keeps the raw error text and models the process exit as the `Fatal` outcome. Only the `github.com/pkg/errors` wrappers (`withMessage`, `withStack`) are unwrapped, as `errors.Cause` does. An error wrapped with `fmt.Errorf("%w")` around a context error is classified as other, and so fatal.
- Flag parsing, the `fmt`/`log` printing (including the `%+v` dump of the map), `adPrettyPrint` and the commented-out block on main.go:138-157.
- The iteration order of `printSummary` over the map is unspecified in Go. `Summarize` is a map and states no order over keys.
