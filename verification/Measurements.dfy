/**
 Validation of a raw meter reading and the deterministic simulation profile
 (lib/energy_core/src/measurement_core.cpp).
 */
module Measurements {
  import opened Words
  import opened Floats

  datatype Source = PZEM | SIMULATION

  datatype Status = NOT_INITIALIZED | OK | SENSOR_ERROR | OUT_OF_RANGE | INCONSISTENT

  datatype Measurement = Measurement(
    voltage: Float,
    current: Float,
    power: Float,
    energy: Float,
    apparentPower: Float,
    powerFactor: Float,
    valid: bool,
    status: Status,
    source: Source,
    timestamp: Word)

  datatype RawReading = RawReading(voltage: Float, current: Float, power: Float, energy: Float, powerFactor: Float)

  datatype Limits = Limits(
    maxVoltage: Float,
    maxCurrent: Float,
    maxPower: Float,
    maxEnergyKwh: Float,
    powerOverApparentRatio: Float,
    powerOverApparentMarginW: Float)

  /** Measurement{}: value-initialised, as `latestMeasurement` is before the first sample. */
  const ZERO_MEASUREMENT := Measurement(
    Finite(0.0), Finite(0.0), Finite(0.0), Finite(0.0), Finite(0.0), Finite(0.0),
    false, NOT_INITIALIZED, PZEM, 0)

  const DEFAULT_LIMITS := Limits(
    Finite(300.0), Finite(100.0), Finite(25000.0), Finite(10000.0), Finite(0.10), Finite(2.0))

  function Invalid(source: Source, status: Status, timestamp: Word): Measurement {
    ZERO_MEASUREMENT.(valid := false, status := status, source := source, timestamp := timestamp)
  }

  predicate AllFinite(raw: RawReading) {
    && IsFinite(raw.voltage) && IsFinite(raw.current) && IsFinite(raw.power)
    && IsFinite(raw.energy) && IsFinite(raw.powerFactor)
  }

  predicate OutOfRange(raw: RawReading, limits: Limits) {
    var zero := Finite(0.0);
    || Lt(raw.voltage, zero) || Gt(raw.voltage, limits.maxVoltage)
    || Lt(raw.current, zero) || Gt(raw.current, limits.maxCurrent)
    || Lt(raw.power, zero) || Gt(raw.power, limits.maxPower)
    || Lt(raw.energy, zero) || Gt(raw.energy, limits.maxEnergyKwh)
    || Lt(raw.powerFactor, zero) || Gt(raw.powerFactor, Finite(1.0))
  }

  predicate Inconsistent(raw: RawReading, limits: Limits) {
    var apparent := Mul(raw.voltage, raw.current);
    Gt(raw.power,
       Add(Mul(apparent, Add(Finite(1.0), limits.powerOverApparentRatio)), limits.powerOverApparentMarginW))
  }

  function BuildMeasurement(raw: RawReading, source: Source, timestamp: Word, limits: Limits): Measurement {
    if !AllFinite(raw) then Invalid(source, SENSOR_ERROR, timestamp)
    else if OutOfRange(raw, limits) then Invalid(source, OUT_OF_RANGE, timestamp)
    else if Inconsistent(raw, limits) then Invalid(source, INCONSISTENT, timestamp)
    else
      Measurement(raw.voltage, raw.current, raw.power, raw.energy, Mul(raw.voltage, raw.current),
                  raw.powerFactor, true, OK, source, timestamp)
  }

  /** A number the meter could have reported: finite and between 0 and max. */
  predicate Within(a: Float, max: real) {
    a.Finite? && 0.0 <= a.v <= max
  }

  /** What a sample marked valid promises its consumers. */
  predicate Plausible(m: Measurement) {
    && Within(m.voltage, 300.0) && Within(m.current, 100.0) && Within(m.power, 25000.0)
    && Within(m.energy, 10000.0) && Within(m.powerFactor, 1.0)
    && m.apparentPower == Finite(m.voltage.v * m.current.v)
    && m.power.v <= 1.1 * (m.voltage.v * m.current.v) + 2.0
  }

  /** Every field of the reading is a number the meter could have reported. */
  predicate InRange(raw: RawReading) {
    && Within(raw.voltage, 300.0) && Within(raw.current, 100.0) && Within(raw.power, 25000.0)
    && Within(raw.energy, 10000.0) && Within(raw.powerFactor, 1.0)
  }

  /** The reading is physically plausible. */
  predicate Acceptable(raw: RawReading) {
    InRange(raw) && raw.power.v <= 1.1 * (raw.voltage.v * raw.current.v) + 2.0
  }

  /**
   For every raw reading, NaN and infinities included: the sample is marked valid exactly when
   the reading is plausible; a valid sample carries the meter's own values, and a rejected one
   has every number zeroed and the first reason that applies: not a number, out of range, or more
   power than the apparent power allows. The timestamp and source always survive.
   */
  lemma BuildMeasurementMeaning(raw: RawReading, source: Source, timestamp: Word)
    ensures var m := BuildMeasurement(raw, source, timestamp, DEFAULT_LIMITS);
            && (m.valid <==> Acceptable(raw))
            && (m.valid <==> m.status == OK)
            && (m.valid ==>
                  && Plausible(m)
                  && m.voltage == raw.voltage && m.current == raw.current && m.power == raw.power
                  && m.energy == raw.energy && m.powerFactor == raw.powerFactor)
            && (!m.valid ==>
                  && m.voltage == Finite(0.0) && m.current == Finite(0.0) && m.power == Finite(0.0)
                  && m.energy == Finite(0.0) && m.apparentPower == Finite(0.0) && m.powerFactor == Finite(0.0))
            && (m.status == SENSOR_ERROR <==> !AllFinite(raw))
            && (m.status == OUT_OF_RANGE <==> AllFinite(raw) && !InRange(raw))
            && (m.status == INCONSISTENT <==> InRange(raw) && !Acceptable(raw))
            && m.timestamp == timestamp && m.source == source
  {
    if AllFinite(raw) {
      var apparent := raw.voltage.v * raw.current.v;
      assert Mul(raw.voltage, raw.current) == Finite(apparent);
      assert Add(Finite(1.0), DEFAULT_LIMITS.powerOverApparentRatio) == Finite(1.1);
      assert Mul(Finite(apparent), Finite(1.1)) == Finite(apparent * 1.1);
    }
  }

  /** Every number of every built sample stays in a range a fixed-width printer can hold. */
  lemma BuiltNumbersBounded(raw: RawReading, source: Source, timestamp: Word)
    ensures var m := BuildMeasurement(raw, source, timestamp, DEFAULT_LIMITS);
            && Within(m.voltage, 300.0) && Within(m.current, 100.0) && Within(m.power, 25000.0)
            && Within(m.energy, 10000.0) && Within(m.apparentPower, 30000.0) && Within(m.powerFactor, 1.0)
  {
    BuildMeasurementMeaning(raw, source, timestamp);
    if Acceptable(raw) {
      ProductBounded(raw.voltage.v, 300.0, raw.current.v, 100.0);
    }
  }

  lemma ProductBounded(a: real, maxA: real, b: real, maxB: real)
    requires 0.0 <= a <= maxA && 0.0 <= b <= maxB
    ensures 0.0 <= a * b <= maxA * maxB
  {
    assert a * b <= maxA * b <= maxA * maxB;
  }

  /** The raw reading of the simulated profile at a given phase of its 15 s cycle. */
  function SimulatedReading(phase: nat): RawReading {
    var current := if phase < 5000 then 0.20 else if phase < 10000 then 2.17 else 2.60;
    var power := if phase < 5000 then 40.0 else if phase < 10000 then 500.0 else 600.0;
    var apparent := 230.0 * current;
    var ratio := if apparent > 0.0 then power / apparent else 0.0;
    RawReading(Finite(230.0), Finite(current), Finite(power), Finite(0.0),
               Finite(if ratio > 1.0 then 1.0 else ratio))
  }

  function SimulationSample(now: Word): Measurement {
    BuildMeasurement(SimulatedReading(now % 15000), SIMULATION, now, DEFAULT_LIMITS)
  }

  /**
   The profile as the documentation promises it: always valid, 230 V, and 40 W, then 500 W, then 600 W, with the
   current and the power factor that belong to them, the latter at most 1.
   */
  lemma SimulationProfile(now: Word)
    ensures var m := SimulationSample(now);
            && m.valid && m.source == SIMULATION && m.timestamp == now
            && m.voltage == Finite(230.0) && m.energy == Finite(0.0)
            && m.current == Finite(if now % 15000 < 5000 then 0.20 else if now % 15000 < 10000 then 2.17 else 2.60)
            && m.apparentPower == Finite(230.0 * m.current.v)
            && m.power == Finite(if now % 15000 < 5000 then 40.0 else if now % 15000 < 10000 then 500.0 else 600.0)
            && Within(m.powerFactor, 1.0)
            && (m.powerFactor.v < 1.0 ==> m.powerFactor.v * m.apparentPower.v == m.power.v)
  {
    var raw := SimulatedReading(now % 15000);
    BuildMeasurementMeaning(raw, SIMULATION, now);
    assert raw.power.v <= 1.1 * (raw.voltage.v * raw.current.v) + 2.0;
  }
}
