/** The engine conversion: for every configured engine, a rapid job
    (every 250 ms) that builds Engine Parameters Rapid Update (PGN 127488)
    from the shaft speed, and a dynamic job (every 1000 ms) that builds
    Engine Parameters Dynamic (PGN 127489) from ten engine readings; the
    fields carry the NMEA 2000 field titles as property names
    (`Engine Instance`, `Oil pressure`, ...).

    Each job's body is modelled as a pure builder from the values the host's
    self-path lookup returns. A reading is `Absent` whenever it is not a
    finite number (undefined, null, an object, a string, NaN or an infinity):
    every field of these records is guarded by `typeof x === 'number' &&
    isFinite(x)`. */
module EngineParameters {
  import opened Values
  import opened Rounding
  import opened Durations

  const PgnRapidUpdate: nat := 127488
  const PgnDynamic: nat := 127489

  /** Mandated update periods, in milliseconds. */
  const RapidIntervalMs: nat := 250
  const DynamicIntervalMs: nat := 1000

  /** `Math.PI`: the double nearest to pi, written out exactly. */
  const Pi: real := 3.141592653589793115997963468544185161590576171875

  /** The `engines` option as the source inspects it. */
  datatype EnginesOption =
    | Missing                          // no such option
    | NotArray                         // present but not an array
    | Engines(list: seq<DeviceMapping>)

  /** A periodic job `conversions` installs for one engine. */
  datatype Job = Job(engine: DeviceMapping, pgn: nat, intervalMs: nat)

  /** PGN 127488 as emitted. */
  datatype RapidUpdate = RapidUpdate(engineInstance: int, speed: int)

  /** The ten readings of one dynamic tick, looked up under
      `propulsion.<signalkId>.`: `oilPressure`, `oilTemperature`,
      `temperature`, `alternatorVoltage`, `fuel.rate`, `runTime`,
      `coolantPressure`, `fuel.pressure`, `engineLoad`, `engineTorque`.
      SI units: pascal, kelvin, volt, cubic metres per second, seconds, and
      ratios for load and torque. */
  datatype Readings = Readings(
    oilPressure: Opt<real>,
    oilTemperature: Opt<real>,
    coolantTemperature: Opt<real>,
    alternatorVoltage: Opt<real>,
    fuelRate: Opt<real>,
    runTime: Opt<real>,
    coolantPressure: Opt<real>,
    fuelPressure: Opt<real>,
    engineLoad: Opt<real>,
    engineTorque: Opt<real>)

  /** PGN 127489 as emitted; `Absent` fields are omitted. Pressures are in
      kPa, temperatures in K, fuel rate in L/h, load and torque in percent. */
  datatype DynamicRecord = DynamicRecord(
    engineInstance: int,
    oilPressure: Opt<real>,
    coolantPressure: Opt<real>,
    fuelPressure: Opt<real>,
    oilTemperature: Opt<real>,
    temperature: Opt<real>,
    alternatorPotential: Opt<real>,
    fuelRate: Opt<real>,
    totalEngineHours: Opt<string>,
    discreteStatus1: seq<nat>,
    discreteStatus2: seq<nat>,
    engineLoad: Opt<int>,
    engineTorque: Opt<int>)

  // ---------------------------------------------------------------------
  // PGN 127488
  // ---------------------------------------------------------------------

  /** `radPerSecToRPM`: radians per second to revolutions per minute. */
  function RadPerSecToRpm(rad: real): (rpm: real)
    ensures rpm * (2.0 * Pi) == rad * 60.0
  {
    rad * 60.0 / (2.0 * Pi)
  }

  /** The rapid job's body: nothing unless the shaft speed is a finite
      number; then the engine's instance and the speed as the whole number of
      revolutions per minute nearest to it. */
  function RapidRecord(engine: DeviceMapping, revolutions: Opt<real>): (r: Opt<RapidUpdate>)
    ensures r.Present? <==> revolutions.Present?
    ensures r.Present? ==> r.value.engineInstance == engine.instanceId
    ensures r.Present? ==>
      r.value.speed as real - 0.5 <= RadPerSecToRpm(revolutions.value) < r.value.speed as real + 0.5
  {
    match revolutions
    case Absent => Absent
    case Present(rad) => Present(RapidUpdate(engine.instanceId, RoundInt(RadPerSecToRpm(rad))))
  }

  /** A faster shaft never reports a lower speed. */
  lemma RapidSpeedMonotone(engine: DeviceMapping, a: real, b: real)
    requires a <= b
    ensures RapidRecord(engine, Present(a)).value.speed <= RapidRecord(engine, Present(b)).value.speed
  {
    assert RadPerSecToRpm(a) <= RadPerSecToRpm(b);
  }

  /** 209.44 rad/s is reported as 2000 rpm; the speed is not quantised any
      further. */
  lemma RapidExample(engine: DeviceMapping)
    ensures RapidRecord(engine, Present(209.44)) == Present(RapidUpdate(engine.instanceId, 2000))
    ensures RapidRecord(engine, Present(209.0)) == Present(RapidUpdate(engine.instanceId, 1996))
  {
    var rpm := RadPerSecToRpm(209.44);
    assert 1999.5 <= rpm < 2000.5;
    RoundIntUnique(rpm, 2000);
    var rpm' := RadPerSecToRpm(209.0);
    assert 1995.5 <= rpm' < 1996.5;
    RoundIntUnique(rpm', 1996);
  }

  // ---------------------------------------------------------------------
  // PGN 127489
  // ---------------------------------------------------------------------

  /** A present value that also passes `keep`; absent otherwise. */
  function Only(o: Opt<real>, keep: real -> bool): (r: Opt<real>)
    ensures r.Present? <==> o.Present? && keep(o.value)
    ensures r.Present? ==> r == o
  {
    if o.Present? && keep(o.value) then o else Absent
  }

  /** A present value multiplied by a constant factor. */
  function Scaled(o: Opt<real>, factor: real): (r: Opt<real>)
    ensures r.Present? <==> o.Present?
    ensures r.Present? ==> r.value == o.value * factor
  {
    match o
    case Absent => Absent
    case Present(x) => Present(x * factor)
  }

  /** Every field of a dynamic record agrees with the readings it was built
      from: pressures in kPa to 0.1, temperatures to 0.1 K, alternator
      potential to 0.01 V, fuel rate in L/h to 0.1 and only for a positive
      rate, engine hours only for a non-negative run time, load and torque
      in whole percent, and empty discrete status lists. */
  predicate DynamicFaithful(r: DynamicRecord, engine: DeviceMapping, readings: Readings) {
    && r.engineInstance == engine.instanceId
    && RoundedField(r.oilPressure, Scaled(readings.oilPressure, 0.001), Tenths)
    && RoundedField(r.coolantPressure, Scaled(readings.coolantPressure, 0.001), Tenths)
    && RoundedField(r.fuelPressure, Scaled(readings.fuelPressure, 0.001), Tenths)
    && RoundedField(r.oilTemperature, readings.oilTemperature, Tenths)
    && RoundedField(r.temperature, readings.coolantTemperature, Tenths)
    && RoundedField(r.alternatorPotential, readings.alternatorVoltage, Hundredths)
    && RoundedField(r.fuelRate, Scaled(Only(readings.fuelRate, x => x > 0.0), 3600000.0), Tenths)
    && DurationField(r.totalEngineHours, Only(readings.runTime, x => x >= 0.0))
    && r.discreteStatus1 == [] && r.discreteStatus2 == []
    && WholeField(r.engineLoad, readings.engineLoad, 100.0)
    && WholeField(r.engineTorque, readings.engineTorque, 100.0)
  }

  /** The dynamic job's body. It always emits a record; each field is left
      out exactly when its reading is unusable. */
  function DynamicRecordOf(engine: DeviceMapping, readings: Readings): (r: DynamicRecord)
    ensures DynamicFaithful(r, engine, readings)
    ensures r.fuelRate.Present? ==> readings.fuelRate.Present? && readings.fuelRate.value > 0.0
    ensures r.totalEngineHours.Present? ==>
      readings.runTime.Present? && readings.runTime.value >= 0.0 &&
      WellFormed(Parse(r.totalEngineHours.value).value) &&
      TotalSeconds(Parse(r.totalEngineHours.value).value) == readings.runTime.value.Floor
  {
    DynamicRecord(
      engine.instanceId,
      RoundOpt(Scaled(readings.oilPressure, 0.001), Tenths),
      RoundOpt(Scaled(readings.coolantPressure, 0.001), Tenths),
      RoundOpt(Scaled(readings.fuelPressure, 0.001), Tenths),
      RoundOpt(readings.oilTemperature, Tenths),
      RoundOpt(readings.coolantTemperature, Tenths),
      RoundOpt(readings.alternatorVoltage, Hundredths),
      RoundOpt(Scaled(Only(readings.fuelRate, x => x > 0.0), 3600000.0), Tenths),
      DurationOpt(Only(readings.runTime, x => x >= 0.0)),
      [],
      [],
      PercentOpt(readings.engineLoad),
      PercentOpt(readings.engineTorque))
  }

  /** A pressure reading of `pa` pascal is sent as `round1(pa / 1000)` kPa. */
  lemma PressureInKilopascal(engine: DeviceMapping, readings: Readings, pa: real)
    requires readings.oilPressure == Present(pa)
    ensures DynamicRecordOf(engine, readings).oilPressure == Present(Round1(pa / 1000.0))
  {
    var r := DynamicRecordOf(engine, readings);
    RoundedToCharacterizes(r.oilPressure.value, pa * 0.001, Tenths);
    assert pa * 0.001 == pa / 1000.0;
  }

  /** With no usable reading at all, the record still goes out, carrying
      only the engine instance and the two empty status lists. */
  lemma DynamicWithNoReadings(engine: DeviceMapping)
    ensures DynamicRecordOf(engine, Readings(Absent, Absent, Absent, Absent, Absent,
                                             Absent, Absent, Absent, Absent, Absent))
         == DynamicRecord(engine.instanceId, Absent, Absent, Absent, Absent, Absent, Absent,
                          Absent, Absent, [], [], Absent, Absent)
  {
  }

  // ---------------------------------------------------------------------
  // Setup
  // ---------------------------------------------------------------------

  /** `conversions(options)`: null when the engines option is missing, not
      an array, or empty. Otherwise the source installs one rapid job per
      engine, then one dynamic job per engine, and returns an empty list of
      event-driven conversions; the result here is the list of jobs. */
  function Conversions(option: EnginesOption): (r: Opt<seq<Job>>)
    ensures r.Absent? <==> !option.Engines? || |option.list| == 0
    ensures r.Present? ==> |r.value| == 2 * |option.list|
    ensures r.Present? ==> forall i :: 0 <= i < |option.list| ==>
      && r.value[i] == Job(option.list[i], PgnRapidUpdate, RapidIntervalMs)
      && r.value[|option.list| + i] == Job(option.list[i], PgnDynamic, DynamicIntervalMs)
  {
    match option
    case Missing => Absent
    case NotArray => Absent
    case Engines(list) =>
      if |list| == 0 then Absent
      else
        Present(seq(|list|, i requires 0 <= i < |list| => Job(list[i], PgnRapidUpdate, RapidIntervalMs)) +
                seq(|list|, i requires 0 <= i < |list| => Job(list[i], PgnDynamic, DynamicIntervalMs)))
  }

  /** Every installed job is one of the two kinds at its own period, and
      every configured engine gets one job of each kind. */
  lemma JobsCoverEveryEngine(option: EnginesOption)
    requires Conversions(option).Present?
    ensures forall j :: j in Conversions(option).value ==>
      (j.pgn == PgnRapidUpdate && j.intervalMs == RapidIntervalMs) ||
      (j.pgn == PgnDynamic && j.intervalMs == DynamicIntervalMs)
    ensures forall e :: e in option.list ==>
      Job(e, PgnRapidUpdate, RapidIntervalMs) in Conversions(option).value &&
      Job(e, PgnDynamic, DynamicIntervalMs) in Conversions(option).value
  {
    var jobs := Conversions(option).value;
    var n := |option.list|;
    forall e | e in option.list
      ensures Job(e, PgnRapidUpdate, RapidIntervalMs) in jobs
      ensures Job(e, PgnDynamic, DynamicIntervalMs) in jobs
    {
      var i :| 0 <= i < n && option.list[i] == e;
      assert jobs[i] == Job(e, PgnRapidUpdate, RapidIntervalMs);
      assert jobs[n + i] == Job(e, PgnDynamic, DynamicIntervalMs);
    }
    forall j | j in jobs
      ensures (j.pgn == PgnRapidUpdate && j.intervalMs == RapidIntervalMs) ||
              (j.pgn == PgnDynamic && j.intervalMs == DynamicIntervalMs)
    {
      var k :| 0 <= k < |jobs| && jobs[k] == j;
      if k >= n {
        assert jobs[n + (k - n)] == j;
      }
    }
  }
}
