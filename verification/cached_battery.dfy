/** The caching battery conversion: seven telemetry keys per configured
    battery, a last-known-value cache that only present values overwrite,
    and a callback that composes Battery Status (PGN 127508) when voltage
    and current are both known and DC Detailed Status (PGN 127506) when the
    state of charge is known, with lower-camel field names (`instance`,
    `stateOfCharge`, `timeRemaining`, ...). Time remaining
    saturates at 65535 and ripple voltage is clamped at 0. */
module CachedBattery {
  import opened Values
  import opened Rounding

  const PgnBatteryStatus: nat := 127508
  const PgnDcDetailedStatus: nat := 127506

  /** Staleness timeout the host applies to each key, in milliseconds. */
  const KeyTimeoutMs: nat := 5000

  /** Largest time remaining, in seconds, that the record carries. */
  const TimeRemainingMax: int := 65535

  /** DC type code of a battery. */
  const DcTypeBattery: int := 0

  /** A raw callback argument as the host delivers it. */
  datatype Raw =
    | Missing                   // null or undefined
    | Number(x: real)           // a bare number
    | Tagged(value: Opt<real>)  // an object; `value` is its `.value` property, Absent when null or undefined
    | NotNumber                 // any other value: a string, a boolean, an object without `.value`

  /** `extractValue`: a bare number or the number inside a tagged value;
      absent for everything else. */
  function ExtractValue(v: Raw): (r: Opt<real>)
    ensures r.Present? <==> v.Number? || (v.Tagged? && v.value.Present?)
    ensures v.Number? ==> r == Present(v.x)
    ensures v.Tagged? ==> r == v.value
  {
    match v
    case Missing => Absent
    case Tagged(value) => value
    case Number(x) => Present(x)
    case NotNumber => Absent
  }

  /** Extraction is a normal form: a bare number and the same number tagged
      extract alike, and wrapping an extracted value and extracting again
      changes nothing. */
  lemma ExtractValueNormalForm(v: Raw, x: real)
    ensures ExtractValue(Number(x)) == ExtractValue(Tagged(Present(x)))
    ensures ExtractValue(Tagged(ExtractValue(v))) == ExtractValue(v)
  {
  }

  /** The cached quantities, one per key. */
  datatype Slot = Voltage | Current | Temperature | Soc | TimeRemain | Soh | Ripple

  /** The last known value of each quantity of one battery. */
  datatype BatteryCache = BatteryCache(
    voltage: Opt<real>,
    current: Opt<real>,
    temperature: Opt<real>,
    soc: Opt<real>,
    timeRemain: Opt<real>,
    soh: Opt<real>,
    ripple: Opt<real>)
  {
    function Get(s: Slot): Opt<real> {
      match s
      case Voltage => voltage
      case Current => current
      case Temperature => temperature
      case Soc => soc
      case TimeRemain => timeRemain
      case Soh => soh
      case Ripple => ripple
    }
  }

  /** The cache every battery starts with. */
  const EmptyCache := BatteryCache(Absent, Absent, Absent, Absent, Absent, Absent, Absent)

  /** The callback's positional arguments, in key order. */
  datatype Sample = Sample(
    voltage: Raw,
    current: Raw,
    temperature: Raw,
    soc: Raw,
    timeRemaining: Raw,
    soh: Raw,
    ripple: Raw)
  {
    function At(s: Slot): Raw {
      match s
      case Voltage => voltage
      case Current => current
      case Temperature => temperature
      case Soc => soc
      case TimeRemain => timeRemaining
      case Soh => soh
      case Ripple => ripple
    }
  }

  /** A composed record. Fields the source always leaves undefined
      (`sid`, `remainingCapacity`) are not represented. */
  datatype Record =
    | BatteryStatus(instance: int, voltage: real, current: real, temperature: Opt<real>)
    | DcDetailedStatus(
        instance: int,
        dcType: int,
        stateOfCharge: int,
        stateOfHealth: Opt<int>,
        timeRemaining: Opt<int>,
        rippleVoltage: Opt<real>)
  {
    function Pgn(): nat {
      if BatteryStatus? then PgnBatteryStatus else PgnDcDetailedStatus
    }
  }

  /** One configured battery's registration: its keys, their timeouts and
      the cache its callback starts from. */
  datatype Conversion = Conversion(
    battery: DeviceMapping,
    keys: seq<string>,
    timeouts: seq<nat>,
    cache: BatteryCache)

  // ---------------------------------------------------------------------
  // The cache
  // ---------------------------------------------------------------------

  function Keep(known: Opt<real>, incoming: Opt<real>): Opt<real> {
    if incoming.Present? then incoming else known
  }

  /** The cache update: a quantity is overwritten exactly when its newly
      extracted value is present, and otherwise keeps its last known value. */
  function Update(c: BatteryCache, s: Sample): (c': BatteryCache)
    ensures forall slot: Slot :: ExtractValue(s.At(slot)).Present? ==>
      c'.Get(slot) == ExtractValue(s.At(slot))
    ensures forall slot: Slot :: ExtractValue(s.At(slot)).Absent? ==>
      c'.Get(slot) == c.Get(slot)
  {
    BatteryCache(
      Keep(c.voltage, ExtractValue(s.voltage)),
      Keep(c.current, ExtractValue(s.current)),
      Keep(c.temperature, ExtractValue(s.temperature)),
      Keep(c.soc, ExtractValue(s.soc)),
      Keep(c.timeRemain, ExtractValue(s.timeRemaining)),
      Keep(c.soh, ExtractValue(s.soh)),
      Keep(c.ripple, ExtractValue(s.ripple)))
  }

  /** A callback whose every argument extracts to absent leaves the cache
      unchanged. */
  lemma UpdateWithNothingNew(c: BatteryCache, s: Sample)
    requires forall slot: Slot :: ExtractValue(s.At(slot)).Absent?
    ensures Update(c, s) == c
  {
    var c' := Update(c, s);
    assert c'.Get(Voltage) == c.Get(Voltage);
    assert c'.Get(Current) == c.Get(Current);
    assert c'.Get(Temperature) == c.Get(Temperature);
    assert c'.Get(Soc) == c.Get(Soc);
    assert c'.Get(TimeRemain) == c.Get(TimeRemain);
    assert c'.Get(Soh) == c.Get(Soh);
    assert c'.Get(Ripple) == c.Get(Ripple);
  }

  /** The cache after a sequence of callbacks, oldest sample first. */
  function Replay(c: BatteryCache, samples: seq<Sample>): BatteryCache
    decreases |samples|
  {
    if |samples| == 0 then c
    else Update(Replay(c, samples[..|samples| - 1]), samples[|samples| - 1])
  }

  /** The extracted values one quantity received, oldest first. */
  function Column(samples: seq<Sample>, slot: Slot): (col: seq<Opt<real>>)
    ensures |col| == |samples|
    ensures forall i :: 0 <= i < |samples| ==> col[i] == ExtractValue(samples[i].At(slot))
  {
    seq(|samples|, i requires 0 <= i < |samples| => ExtractValue(samples[i].At(slot)))
  }

  /** The most recent present value in `xs`, or `init` when there is none. */
  function LastPresent(xs: seq<Opt<real>>, init: Opt<real>): Opt<real>
    decreases |xs|
  {
    if |xs| == 0 then init
    else if xs[|xs| - 1].Present? then xs[|xs| - 1]
    else LastPresent(xs[..|xs| - 1], init)
  }

  /** After any sequence of callbacks each cached quantity is the most recent
      present value it received, or its starting value if it received none. */
  lemma {:induction false} ReplayKeepsLastPresent(c: BatteryCache, samples: seq<Sample>, slot: Slot)
    ensures Replay(c, samples).Get(slot) == LastPresent(Column(samples, slot), c.Get(slot))
    decreases |samples|
  {
    if |samples| > 0 {
      var n := |samples| - 1;
      ReplayKeepsLastPresent(c, samples[..n], slot);
      assert Column(samples, slot)[..n] == Column(samples[..n], slot);
    }
  }

  /** A known quantity never becomes unknown again. */
  lemma {:induction false} ReplayKeepsKnown(c: BatteryCache, samples: seq<Sample>, slot: Slot)
    requires c.Get(slot).Present?
    ensures Replay(c, samples).Get(slot).Present?
    decreases |samples|
  {
    if |samples| > 0 {
      ReplayKeepsKnown(c, samples[..|samples| - 1], slot);
    }
  }

  // ---------------------------------------------------------------------
  // Clamps
  // ---------------------------------------------------------------------

  /** `Math.min(65535, Math.round(t))`: whole seconds, saturating at 65535.
      Below the saturation point it is the nearest integer to `t`. */
  function ClampTimeRemaining(t: real): (r: int)
    ensures r <= TimeRemainingMax
    ensures t < 65535.5 ==> r as real - 0.5 <= t < r as real + 0.5
    ensures t >= 65535.5 ==> r == TimeRemainingMax
  {
    var n := RoundInt(t);
    if n < TimeRemainingMax then n else TimeRemainingMax
  }

  /** Saturation, not wrap-around: every value at or past the limit is sent
      as the limit itself. */
  lemma TimeRemainingSaturates(t: real)
    requires t >= 65535.0
    ensures ClampTimeRemaining(t) == ClampTimeRemaining(65535.0) == TimeRemainingMax
  {
  }

  /** `Math.max(0, roundVoltage(ripple))`: never negative; the rounded ripple
      from 0.005 V up, and 0 below that. */
  function ClampRipple(ripple: real): (r: real)
    ensures r >= 0.0
    ensures ripple >= 0.005 ==> RoundedTo(r, ripple, Hundredths)
    ensures ripple < 0.005 ==> r == 0.0
  {
    var v := RoundVoltage(ripple);
    RoundedToCharacterizes(v, ripple, Hundredths);
    RoundToOnGrid(v, Hundredths);
    RoundIntIdempotent(v * 100.0);
    if v < 0.0 then 0.0 else v
  }

  // ---------------------------------------------------------------------
  // The composer
  // ---------------------------------------------------------------------

  /** Battery Status needs both voltage and current. */
  predicate WantsStatus(c: BatteryCache) {
    c.voltage.Present? && c.current.Present?
  }

  /** DC Detailed Status needs the state of charge. */
  predicate WantsDcStatus(c: BatteryCache) {
    c.soc.Present?
  }

  /** A Battery Status record carries the cached values it was built from. */
  predicate StatusFaithful(r: Record, battery: DeviceMapping, c: BatteryCache)
    requires r.BatteryStatus? && WantsStatus(c)
  {
    && r.instance == battery.instanceId
    && RoundedTo(r.voltage, c.voltage.value, Hundredths)
    && RoundedTo(r.current, c.current.value, Tenths)
    && r.temperature.Present? == c.temperature.Present?
    && (c.temperature.Present? ==> RoundedTo(r.temperature.value, c.temperature.value, Tenths))
  }

  /** A DC Detailed Status record carries the cached values it was built
      from, with time remaining saturated and ripple clamped. */
  predicate DcStatusFaithful(r: Record, battery: DeviceMapping, c: BatteryCache)
    requires r.DcDetailedStatus? && WantsDcStatus(c)
  {
    && r.instance == battery.instanceId
    && r.dcType == DcTypeBattery
    && r.stateOfCharge as real - 0.5 <= c.soc.value * 100.0 < r.stateOfCharge as real + 0.5
    && r.stateOfHealth.Present? == c.soh.Present?
    && (c.soh.Present? ==>
          r.stateOfHealth.value as real - 0.5 <= c.soh.value * 100.0 < r.stateOfHealth.value as real + 0.5)
    && r.timeRemaining.Present? == c.timeRemain.Present?
    && (c.timeRemain.Present? ==> r.timeRemaining.value <= TimeRemainingMax)
    && (c.timeRemain.Present? && c.timeRemain.value < 65535.5 ==>
          r.timeRemaining.value as real - 0.5 <= c.timeRemain.value < r.timeRemaining.value as real + 0.5)
    && (c.timeRemain.Present? && c.timeRemain.value >= 65535.5 ==> r.timeRemaining.value == TimeRemainingMax)
    && r.rippleVoltage.Present? == c.ripple.Present?
    && (c.ripple.Present? ==> r.rippleVoltage.value >= 0.0)
    && (c.ripple.Present? && c.ripple.value >= 0.005 ==>
          RoundedTo(r.rippleVoltage.value, c.ripple.value, Hundredths))
    && (c.ripple.Present? && c.ripple.value < 0.005 ==> r.rippleVoltage.value == 0.0)
  }

  /** `out` contains a Battery Status record. */
  predicate EmitsStatus(out: seq<Record>) {
    exists i :: 0 <= i < |out| && out[i].BatteryStatus?
  }

  /** `out` contains a DC Detailed Status record. */
  predicate EmitsDcStatus(out: seq<Record>) {
    exists i :: 0 <= i < |out| && out[i].DcDetailedStatus?
  }

  /** PGN 127508 from the cache. */
  function StatusRecord(battery: DeviceMapping, c: BatteryCache): (r: Opt<Record>)
    ensures r.Present? <==> WantsStatus(c)
    ensures r.Present? ==> r.value.BatteryStatus? && StatusFaithful(r.value, battery, c)
  {
    if WantsStatus(c) then
      RoundedToCharacterizes(RoundVoltage(c.voltage.value), c.voltage.value, Hundredths);
      RoundedToCharacterizes(RoundCurrent(c.current.value), c.current.value, Tenths);
      Present(BatteryStatus(
        battery.instanceId,
        RoundVoltage(c.voltage.value),
        RoundCurrent(c.current.value),
        match c.temperature
        case Absent => Absent
        case Present(t) =>
          RoundedToCharacterizes(RoundTempK(t), t, Tenths);
          Present(RoundTempK(t))))
    else Absent
  }

  /** PGN 127506 from the cache. */
  function DcStatusRecord(battery: DeviceMapping, c: BatteryCache): (r: Opt<Record>)
    ensures r.Present? <==> WantsDcStatus(c)
    ensures r.Present? ==> r.value.DcDetailedStatus? && DcStatusFaithful(r.value, battery, c)
  {
    if WantsDcStatus(c) then
      Present(DcDetailedStatus(
        battery.instanceId,
        DcTypeBattery,
        RoundInt(c.soc.value * 100.0),
        match c.soh
        case Absent => Absent
        case Present(h) => Present(RoundInt(h * 100.0)),
        match c.timeRemain
        case Absent => Absent
        case Present(t) => Present(ClampTimeRemaining(t)),
        match c.ripple
        case Absent => Absent
        case Present(v) => Present(ClampRipple(v))))
    else Absent
  }

  /** The records composed from a cache: Battery Status first when voltage
      and current are known, then DC Detailed Status when the state of charge
      is known. */
  function Compose(battery: DeviceMapping, c: BatteryCache): (out: seq<Record>)
    ensures |out| <= 2
    ensures EmitsStatus(out) <==> WantsStatus(c)
    ensures EmitsDcStatus(out) <==> WantsDcStatus(c)
    ensures forall i, j :: 0 <= i < j < |out| ==> out[i].BatteryStatus? && out[j].DcDetailedStatus?
    ensures forall i :: 0 <= i < |out| ==> out[i].instance == battery.instanceId
    ensures forall i :: 0 <= i < |out| && out[i].BatteryStatus? ==>
      WantsStatus(c) && StatusFaithful(out[i], battery, c)
    ensures forall i :: 0 <= i < |out| && out[i].DcDetailedStatus? ==>
      WantsDcStatus(c) && DcStatusFaithful(out[i], battery, c)
  {
    var status := StatusRecord(battery, c);
    var dc := DcStatusRecord(battery, c);
    var out := ToSeq(status) + ToSeq(dc);
    assert status.Present? ==> out[0] == status.value;
    assert dc.Present? ==> out[|out| - 1] == dc.value;
    out
  }

  /** The callback: update the cache with the new arguments, then compose
      from the updated cache. Returns the new cache and the records. Every
      newly present value overwrites its cached one, every absent one leaves
      it as it was, and the records describe the updated cache. */
  function Callback(battery: DeviceMapping, c: BatteryCache, s: Sample): (r: (BatteryCache, seq<Record>))
    ensures forall slot: Slot :: ExtractValue(s.At(slot)).Present? ==>
      r.0.Get(slot) == ExtractValue(s.At(slot))
    ensures forall slot: Slot :: ExtractValue(s.At(slot)).Absent? ==>
      r.0.Get(slot) == c.Get(slot)
    ensures |r.1| <= 2
    ensures EmitsStatus(r.1) <==>
      (c.voltage.Present? || ExtractValue(s.voltage).Present?) &&
      (c.current.Present? || ExtractValue(s.current).Present?)
    ensures EmitsDcStatus(r.1) <==>
      (c.soc.Present? || ExtractValue(s.soc).Present?)
    ensures forall i, j :: 0 <= i < j < |r.1| ==> r.1[i].BatteryStatus? && r.1[j].DcDetailedStatus?
    ensures forall i :: 0 <= i < |r.1| ==> r.1[i].instance == battery.instanceId
    ensures forall i :: 0 <= i < |r.1| && r.1[i].BatteryStatus? ==>
      WantsStatus(r.0) && StatusFaithful(r.1[i], battery, r.0)
    ensures forall i :: 0 <= i < |r.1| && r.1[i].DcDetailedStatus? ==>
      WantsDcStatus(r.0) && DcStatusFaithful(r.1[i], battery, r.0)
  {
    var c' := Update(c, s);
    assert c'.Get(Voltage).Present? <==> (c.voltage.Present? || ExtractValue(s.voltage).Present?);
    assert c'.Get(Current).Present? <==> (c.current.Present? || ExtractValue(s.current).Present?);
    assert c'.Get(Soc).Present? <==> (c.soc.Present? || ExtractValue(s.soc).Present?);
    (c', Compose(battery, c'))
  }

  /** Callbacks run one after another: the callback on the cache left by
      earlier samples yields the replay of all of them, and composes its
      records from that replayed cache. */
  lemma {:induction false} CallbackExtendsReplay(battery: DeviceMapping, c: BatteryCache, samples: seq<Sample>, s: Sample)
    ensures Callback(battery, Replay(c, samples), s).0 == Replay(c, samples + [s])
    ensures Callback(battery, Replay(c, samples), s).1 == Compose(battery, Replay(c, samples + [s]))
  {
    var all := samples + [s];
    assert all[..|all| - 1] == samples;
    assert all[|all| - 1] == s;
  }

  /** Once Battery Status has been emitted, every later callback emits it
      too, whatever arrives: voltage and current stay known. */
  lemma StatusPersists(battery: DeviceMapping, c: BatteryCache, samples: seq<Sample>)
    requires EmitsStatus(Compose(battery, c))
    ensures EmitsStatus(Compose(battery, Replay(c, samples)))
  {
    assert WantsStatus(c);
    ReplayKeepsKnown(c, samples, Voltage);
    ReplayKeepsKnown(c, samples, Current);
    assert WantsStatus(Replay(c, samples));
  }

  /** Likewise DC Detailed Status: once emitted, always emitted. */
  lemma DcStatusPersists(battery: DeviceMapping, c: BatteryCache, samples: seq<Sample>)
    requires EmitsDcStatus(Compose(battery, c))
    ensures EmitsDcStatus(Compose(battery, Replay(c, samples)))
  {
    assert WantsDcStatus(c);
    ReplayKeepsKnown(c, samples, Soc);
    assert WantsDcStatus(Replay(c, samples));
  }

  // ---------------------------------------------------------------------
  // Registration
  // ---------------------------------------------------------------------

  /** The per-battery key suffixes, in callback argument order. */
  const KeySuffixes: seq<string> := [
    ".voltage",
    ".current",
    ".temperature",
    ".capacity.stateOfCharge",
    ".capacity.timeRemaining",
    ".capacity.stateOfHealth",
    ".ripple"
  ]

  /** `electrical.batteries.<signalkId>` followed by each suffix. */
  function Keys(signalkId: string): (ks: seq<string>)
    ensures |ks| == 7
    ensures forall i :: 0 <= i < 7 ==> ks[i] == "electrical.batteries." + signalkId + KeySuffixes[i]
  {
    seq(|KeySuffixes|, i requires 0 <= i < |KeySuffixes| =>
      "electrical.batteries." + signalkId + KeySuffixes[i])
  }

  /** Seven timeouts of 5000 ms, one per key. */
  function Timeouts(): (ts: seq<nat>)
    ensures |ts| == 7
    ensures forall i :: 0 <= i < 7 ==> ts[i] == KeyTimeoutMs
  {
    [5000, 5000, 5000, 5000, 5000, 5000, 5000]
  }

  /** Each callback argument comes from its own key. */
  lemma KeysDistinct(signalkId: string)
    ensures forall i, j :: 0 <= i < j < 7 ==> Keys(signalkId)[i] != Keys(signalkId)[j]
  {
    var ks := Keys(signalkId);
    var p := "electrical.batteries." + signalkId;
    forall i, j | 0 <= i < j < 7
      ensures ks[i] != ks[j]
    {
      var a := KeySuffixes[i];
      var b := KeySuffixes[j];
      assert |a| != |b| || a[1] != b[1] || a[10] != b[10] || a[17] != b[17];
      if ks[i] == ks[j] {
        PrefixCancel(p, a, b);
      }
    }
  }

  /** `conversions(options)`: null when the battery mapping is missing,
      otherwise one registration per configured battery, in order, each with
      its own empty cache. */
  function Conversions(batteries: Opt<seq<DeviceMapping>>): (r: Opt<seq<Conversion>>)
    ensures r.Absent? <==> batteries.Absent?
    ensures r.Present? ==> |r.value| == |batteries.value|
    ensures r.Present? ==> forall i :: 0 <= i < |r.value| ==>
      && r.value[i].battery == batteries.value[i]
      && |r.value[i].keys| == |r.value[i].timeouts| == 7
      && r.value[i].keys == Keys(batteries.value[i].signalkId)
      && (forall k :: 0 <= k < 7 ==> r.value[i].timeouts[k] == KeyTimeoutMs)
      && (forall slot: Slot :: r.value[i].cache.Get(slot).Absent?)
  {
    match batteries
    case Absent => Absent
    case Present(bs) =>
      Present(seq(|bs|, i requires 0 <= i < |bs| =>
        Conversion(bs[i], Keys(bs[i].signalkId), Timeouts(), EmptyCache)))
  }
}
