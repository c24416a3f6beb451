/** The stateless battery conversion: eight telemetry keys per configured
    battery, and a callback that turns their current values into at most two
    NMEA 2000 records, Battery Status (PGN 127508) and DC Detailed Status
    (PGN 127506), whose fields carry the NMEA 2000 field titles as property
    names (`Battery Instance`, `State of Charge`, ...). An absent input
    leaves its output field out of the record. */
module Battery {
  import opened Values
  import opened Rounding
  import opened Durations

  const PgnBatteryStatus: nat := 127508
  const PgnDcDetailedStatus: nat := 127506

  /** Staleness timeout the host applies to each key, in milliseconds. */
  const KeyTimeoutMs: nat := 60000

  /** The per-battery key suffixes, in callback argument order. */
  const BatteryKeys: seq<string> := [
    "voltage",
    "current",
    "temperature",
    "capacity.stateOfCharge",
    "capacity.timeRemaining",
    "capacity.stateOfHealth",
    "ripple",
    "ampHours"
  ]

  /** The callback's positional arguments, one per key in `BatteryKeys`
      order; `Absent` is a null or undefined value. */
  datatype Inputs = Inputs(
    voltage: Opt<real>,
    current: Opt<real>,
    temperature: Opt<real>,
    soc: Opt<real>,
    timeRemaining: Opt<real>,
    soh: Opt<real>,
    ripple: Opt<real>,
    ampHours: Opt<real>)

  /** A composed record; `Absent` fields are omitted from the output object. */
  datatype Record =
    | BatteryStatus(
        batteryInstance: int,
        voltage: Opt<real>,
        current: Opt<real>,
        temperature: Opt<real>)
    | DcDetailedStatus(
        dcInstance: int,
        dcType: string,
        stateOfCharge: Opt<int>,
        stateOfHealth: Opt<int>,
        timeRemaining: Opt<string>,
        rippleVoltage: Opt<real>,
        ampHours: Opt<int>)
  {
    function Pgn(): nat {
      if BatteryStatus? then PgnBatteryStatus else PgnDcDetailedStatus
    }

    function Instance(): int {
      if BatteryStatus? then batteryInstance else dcInstance
    }
  }

  /** One configured battery's registration with the host. */
  datatype Conversion = Conversion(battery: DeviceMapping, keys: seq<string>, timeouts: seq<nat>)

  // ---------------------------------------------------------------------
  // What a faithful output field is
  // ---------------------------------------------------------------------

  /** Any input that feeds Battery Status is present. */
  predicate WantsStatus(inputs: Inputs) {
    inputs.voltage.Present? || inputs.current.Present? || inputs.temperature.Present?
  }

  /** Any input that feeds DC Detailed Status is present. */
  predicate WantsDcStatus(inputs: Inputs) {
    inputs.soc.Present? || inputs.timeRemaining.Present? || inputs.soh.Present? ||
    inputs.ripple.Present? || inputs.ampHours.Present?
  }

  /** `out` contains a Battery Status record. */
  predicate EmitsStatus(out: seq<Record>) {
    exists i :: 0 <= i < |out| && out[i].BatteryStatus?
  }

  /** `out` contains a DC Detailed Status record. */
  predicate EmitsDcStatus(out: seq<Record>) {
    exists i :: 0 <= i < |out| && out[i].DcDetailedStatus?
  }

  /** A Battery Status record carries the inputs it was built from. */
  predicate StatusFaithful(r: Record, battery: DeviceMapping, inputs: Inputs)
    requires r.BatteryStatus?
  {
    r.batteryInstance == battery.instanceId &&
    RoundedField(r.voltage, inputs.voltage, Hundredths) &&
    RoundedField(r.current, inputs.current, Tenths) &&
    RoundedField(r.temperature, inputs.temperature, Tenths)
  }

  /** A DC Detailed Status record carries the inputs it was built from. */
  predicate DcStatusFaithful(r: Record, battery: DeviceMapping, inputs: Inputs)
    requires r.DcDetailedStatus?
  {
    r.dcInstance == battery.instanceId &&
    r.dcType == "Battery" &&
    WholeField(r.stateOfCharge, inputs.soc, 100.0) &&
    WholeField(r.stateOfHealth, inputs.soh, 100.0) &&
    DurationField(r.timeRemaining, inputs.timeRemaining) &&
    RoundedField(r.rippleVoltage, inputs.ripple, Hundredths) &&
    WholeField(r.ampHours, inputs.ampHours, 1.0)
  }

  // ---------------------------------------------------------------------
  // The composer
  // ---------------------------------------------------------------------

  /** PGN 127508, built when voltage, current or temperature is present. */
  function StatusRecord(battery: DeviceMapping, inputs: Inputs): (r: Opt<Record>)
    ensures r.Present? <==> WantsStatus(inputs)
    ensures r.Present? ==> r.value.BatteryStatus? && StatusFaithful(r.value, battery, inputs)
  {
    if WantsStatus(inputs) then
      Present(BatteryStatus(
        battery.instanceId,
        RoundOpt(inputs.voltage, Hundredths),
        RoundOpt(inputs.current, Tenths),
        RoundOpt(inputs.temperature, Tenths)))
    else Absent
  }

  /** PGN 127506, built when any of state of charge, time remaining, state of
      health, ripple or amp hours is present. */
  function DcStatusRecord(battery: DeviceMapping, inputs: Inputs): (r: Opt<Record>)
    ensures r.Present? <==> WantsDcStatus(inputs)
    ensures r.Present? ==> r.value.DcDetailedStatus? && DcStatusFaithful(r.value, battery, inputs)
  {
    if WantsDcStatus(inputs) then
      Present(DcDetailedStatus(
        battery.instanceId,
        "Battery",
        PercentOpt(inputs.soc),
        PercentOpt(inputs.soh),
        DurationOpt(inputs.timeRemaining),
        RoundOpt(inputs.ripple, Hundredths),
        WholeOpt(inputs.ampHours)))
    else Absent
  }

  /** The callback: Battery Status first, then DC Detailed Status, each only
      when its emission predicate holds, each carrying the battery's
      instance and its inputs' rounded values. */
  function Callback(battery: DeviceMapping, inputs: Inputs): (out: seq<Record>)
    ensures |out| <= 2
    ensures EmitsStatus(out) <==> WantsStatus(inputs)
    ensures EmitsDcStatus(out) <==> WantsDcStatus(inputs)
    ensures forall i, j :: 0 <= i < j < |out| ==> out[i].BatteryStatus? && out[j].DcDetailedStatus?
    ensures forall i :: 0 <= i < |out| ==> out[i].Instance() == battery.instanceId
    ensures forall i :: 0 <= i < |out| && out[i].BatteryStatus? ==> StatusFaithful(out[i], battery, inputs)
    ensures forall i :: 0 <= i < |out| && out[i].DcDetailedStatus? ==> DcStatusFaithful(out[i], battery, inputs)
  {
    var status := StatusRecord(battery, inputs);
    var dc := DcStatusRecord(battery, inputs);
    var out := ToSeq(status) + ToSeq(dc);
    assert status.Present? ==> out[0] == status.value;
    assert dc.Present? ==> out[|out| - 1] == dc.value;
    assert forall i :: 0 <= i < |out| ==>
      (out[i].BatteryStatus? && out[i] == status.value) || (out[i].DcDetailedStatus? && out[i] == dc.value);
    out
  }

  /** The field description of Battery Status is complete: the only record
      that satisfies it is the one the composer builds. */
  lemma StatusSpecDetermines(r: Record, battery: DeviceMapping, inputs: Inputs)
    requires WantsStatus(inputs)
    requires r.BatteryStatus? && StatusFaithful(r, battery, inputs)
    ensures StatusRecord(battery, inputs) == Present(r)
  {
    RoundedFieldUnique(r.voltage, inputs.voltage, Hundredths);
    RoundedFieldUnique(r.current, inputs.current, Tenths);
    RoundedFieldUnique(r.temperature, inputs.temperature, Tenths);
  }

  lemma RoundedFieldUnique(o: Opt<real>, x: Opt<real>, s: Scale)
    requires RoundedField(o, x, s)
    ensures o == RoundOpt(x, s)
  {
    if x.Present? {
      RoundedToCharacterizes(o.value, x.value, s);
    }
  }

  /** With every input absent nothing is emitted, and with every input
      present both records are. */
  lemma CallbackExtremes(battery: DeviceMapping, x: real)
    ensures Callback(battery, Inputs(Absent, Absent, Absent, Absent, Absent, Absent, Absent, Absent)) == []
    ensures |Callback(battery, Inputs(Present(x), Present(x), Present(x), Present(x),
                                      Present(x), Present(x), Present(x), Present(x)))| == 2
  {
    var none := Inputs(Absent, Absent, Absent, Absent, Absent, Absent, Absent, Absent);
    assert StatusRecord(battery, none).Absent? && DcStatusRecord(battery, none).Absent?;
    var full := Inputs(Present(x), Present(x), Present(x), Present(x),
                       Present(x), Present(x), Present(x), Present(x));
    var st, dc := StatusRecord(battery, full), DcStatusRecord(battery, full);
    assert st.Present? && dc.Present?;
    assert Callback(battery, full) == [st.value] + [dc.value];
  }

  /** The worked example: 12.5 V, 23.1 A, 290.15 K, 93 % charge, 12340 s
      remaining, 60 % health and 12 V ripple, no amp hours. */
  lemma CallbackExample(battery: DeviceMapping)
    ensures Callback(battery, ExampleInputs())
         == [BatteryStatus(battery.instanceId, Present(12.5), Present(23.1), Present(290.2)),
             DcDetailedStatus(battery.instanceId, "Battery", Present(93), Present(60),
                              Present("PT3H25M40S"), Present(12.0), Absent)]
  {
    var inputs := ExampleInputs();
    ExampleStatus(battery);
    ExampleDcStatus(battery);
    assert Callback(battery, inputs) == ToSeq(StatusRecord(battery, inputs)) + ToSeq(DcStatusRecord(battery, inputs));
  }

  /** The inputs of `CallbackExample`: 12.5 V, 23.1 A, 290.15 K, soc 0.93,
      12340 s, soh 0.6, 12 V ripple and no amp hours. */
  function ExampleInputs(): Inputs {
    Inputs(Present(12.5), Present(23.1), Present(290.15), Present(0.93),
           Present(12340.0), Present(0.6), Present(12.0), Absent)
  }

  /** The Battery Status half of `CallbackExample`. */
  lemma ExampleStatus(battery: DeviceMapping)
    ensures StatusRecord(battery, ExampleInputs())
         == Present(BatteryStatus(battery.instanceId, Present(12.5), Present(23.1), Present(290.2)))
  {
    assert RoundTo(12.5, Hundredths) == 12.5;
    assert RoundTo(23.1, Tenths) == 23.1;
    assert RoundTo(290.15, Tenths) == 290.2;
  }

  /** The DC Detailed Status half of `CallbackExample`. */
  lemma ExampleDcStatus(battery: DeviceMapping)
    ensures DcStatusRecord(battery, ExampleInputs())
         == Present(DcDetailedStatus(battery.instanceId, "Battery", Present(93), Present(60),
                                     Present("PT3H25M40S"), Present(12.0), Absent))
  {
    SecondsToDurationExample();
    assert RoundInt(0.93 * 100.0) == 93;
    assert RoundInt(0.6 * 100.0) == 60;
    assert RoundTo(12.0, Hundredths) == 12.0;
  }

  // ---------------------------------------------------------------------
  // Registration
  // ---------------------------------------------------------------------

  /** `electrical.batteries.<signalkId>.<k>` for every `k` in `BatteryKeys`. */
  function Keys(signalkId: string): (ks: seq<string>)
    ensures |ks| == |BatteryKeys|
    ensures forall i :: 0 <= i < |ks| ==>
      ks[i] == "electrical.batteries." + signalkId + "." + BatteryKeys[i]
  {
    seq(|BatteryKeys|, i requires 0 <= i < |BatteryKeys| =>
      "electrical.batteries." + signalkId + "." + BatteryKeys[i])
  }

  /** One staleness timeout per key. */
  function Timeouts(): (ts: seq<nat>)
    ensures |ts| == |BatteryKeys|
    ensures forall i :: 0 <= i < |ts| ==> ts[i] == KeyTimeoutMs
  {
    seq(|BatteryKeys|, _ => KeyTimeoutMs)
  }

  /** The key suffixes are pairwise different. */
  lemma BatteryKeysDistinct()
    ensures forall i, j :: 0 <= i < j < |BatteryKeys| ==> BatteryKeys[i] != BatteryKeys[j]
  {
    forall i, j | 0 <= i < j < |BatteryKeys|
      ensures BatteryKeys[i] != BatteryKeys[j]
    {
      var a := BatteryKeys[i];
      var b := BatteryKeys[j];
      assert |a| != |b| || a[0] != b[0] || a[9] != b[9] || a[16] != b[16];
    }
  }

  /** A battery subscribes to eight distinct keys, so each callback argument
      comes from its own path. */
  lemma KeysDistinct(signalkId: string)
    ensures |Keys(signalkId)| == 8
    ensures forall i, j :: 0 <= i < j < 8 ==> Keys(signalkId)[i] != Keys(signalkId)[j]
  {
    var ks := Keys(signalkId);
    var p := "electrical.batteries." + signalkId + ".";
    BatteryKeysDistinct();
    forall i, j | 0 <= i < j < 8
      ensures ks[i] != ks[j]
    {
      assert ks[i] == p + BatteryKeys[i];
      assert ks[j] == p + BatteryKeys[j];
      if ks[i] == ks[j] {
        PrefixCancel(p, BatteryKeys[i], BatteryKeys[j]);
      }
    }
  }

  /** `conversions(options)`: null when the battery mapping is missing,
      otherwise one registration per configured battery, in order. */
  function Conversions(batteries: Opt<seq<DeviceMapping>>): (r: Opt<seq<Conversion>>)
    ensures r.Absent? <==> batteries.Absent?
    ensures r.Present? ==> |r.value| == |batteries.value|
    ensures r.Present? ==> forall i :: 0 <= i < |r.value| ==>
      && r.value[i].battery == batteries.value[i]
      && |r.value[i].keys| == |r.value[i].timeouts| == 8
      && r.value[i].keys == Keys(batteries.value[i].signalkId)
      && (forall k :: 0 <= k < 8 ==> r.value[i].timeouts[k] == KeyTimeoutMs)
  {
    match batteries
    case Absent => Absent
    case Present(bs) =>
      Present(seq(|bs|, i requires 0 <= i < |bs| =>
        Conversion(bs[i], Keys(bs[i].signalkId), Timeouts())))
  }
}
