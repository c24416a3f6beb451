/** Optional telemetry values.

    The conversion callbacks test each input against `null` (which in
    JavaScript also matches `undefined`) and omit the corresponding output
    field when it is missing. `Opt` makes that absence explicit. */
module Values {

  /** A value that is either present or absent (null / undefined). */
  datatype Opt<+T> = Absent | Present(value: T)

  /** One entry of a device mapping option: the Signal K id of a battery or
      engine and the NMEA 2000 instance number its records carry. */
  datatype DeviceMapping = DeviceMapping(signalkId: string, instanceId: int)

  /** The records an optional value contributes to an output list: none
      when absent, the value itself when present. */
  function ToSeq<T>(o: Opt<T>): (s: seq<T>)
    ensures |s| <= 1
    ensures o.Present? <==> |s| == 1
    ensures |s| == 1 ==> s[0] == o.value
  {
    match o
    case Absent => []
    case Present(x) => [x]
  }

  /** Two keys under the same path prefix are equal only if their suffixes
      are; used to show that subscription keys are distinct. */
  lemma PrefixCancel(p: string, a: string, b: string)
    requires p + a == p + b
    ensures a == b
  {
    assert a == (p + a)[|p|..];
    assert b == (p + b)[|p|..];
  }
}
