/** The point triples the script keeps in `path` and `drawPath`, and the
    JavaScript number comparisons the time filter and the ingestion guard use. */
module Points {
  import opened Wrappers

  /** An IEEE 754 double, kept as its 64-bit pattern. Latitudes and longitudes
      are parsed, stored, serialised and printed, but never computed on. */
  datatype Double = Double(bits: bv64)

  /** A result of `Date.parse`: milliseconds since the epoch, or `None` for NaN. */
  type Millis = Option<int>

  /** One element of `path`: the array `[lat, lon, time]`. */
  datatype Point = Point(lat: Double, lon: Double, time: Millis)

  /** JavaScript `a < b` on numbers: false as soon as either side is NaN. */
  predicate Less(a: Millis, b: Millis)
  {
    a.Some? && b.Some? && a.value < b.value
  }

  /** JavaScript `a != b` on numbers: true as soon as either side is NaN. */
  predicate NotEqual(a: Millis, b: Millis)
  {
    !(a.Some? && b.Some? && a.value == b.value)
  }

  /** The literal `NaN` of the script. */
  const NaN: Millis := None
}
