/**
 * The records that flow through the recorder: one observation of an
 * advertising device (BLEDevice) and one retained sample of its series (Row).
 *
 * Timestamps are Unix times in integer nanoseconds, the value Go's
 * time.Time.UnixNano() gives; time.Time itself is not modelled.
 */
module Records {

  /** A timestamp: nanoseconds since the Unix epoch. */
  type Nanos = int

  const NanosPerSecond: int := 1_000_000_000

  /** Go's time.Time.Unix(): whole seconds, rounded towards minus infinity. */
  function UnixSeconds(t: Nanos): (s: int)
    ensures s * NanosPerSecond <= t < (s + 1) * NanosPerSecond
  {
    t / NanosPerSecond
  }

  /** An accepted advertisement: the device's local name, its RSSI and the capture time. */
  datatype BLEDevice = BLEDevice(name: string, rssi: int, t: Nanos)

  /** One sample of a device's series: capture time and RSSI (the name is the map key). */
  datatype Row = Row(t: Nanos, rssi: int)

  /** The sample a BLEDevice contributes, as built on main.go:127. */
  function RowOf(d: BLEDevice): (r: Row)
    ensures r.t == d.t && r.rssi == d.rssi
  {
    Row(d.t, d.rssi)
  }

  datatype Option<T> = None | Some(value: T)
}
