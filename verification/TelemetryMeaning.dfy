/**
 What a subscriber finds in the telemetry: under each key the item of the input that belongs there, as a reader of
 the text understands it. No statement below refers to how the text is composed.
 */
module TelemetryMeaning {
  import opened Options
  import opened Words
  import opened Floats
  import opened Measurements
  import opened ProtectionModel
  import opened Decimal
  import opened Json
  import opened Telemetry
  import opened TelemetryTheorems
  import opened TelemetryFits

  // ---- Looking up a key ----

  /** The value of the first member with this key. */
  function Lookup(fs: seq<Field>, key: string): Option<Value> {
    if fs == [] then None
    else if fs[0].key == key then Some(fs[0].value)
    else Lookup(fs[1..], key)
  }

  predicate NoKeyTwice(fs: seq<Field>) {
    forall i, j :: 0 <= i < j < |fs| ==> fs[i].key != fs[j].key
  }

  lemma {:induction false} LookupFinds(fs: seq<Field>, k: nat)
    requires NoKeyTwice(fs) && k < |fs|
    ensures Lookup(fs, fs[k].key) == Some(fs[k].value)
  {
    if k > 0 {
      assert fs[0].key != fs[k].key;
      assert NoKeyTwice(fs[1..]);
      LookupFinds(fs[1..], k - 1);
    }
  }

  // ---- What a value says ----

  predicate SaysWord(v: Option<Value>, n: Word) {
    v.Some? && v.value.Num? && v.value.token != "" && AllDigits(v.value.token) && ToNat(v.value.token) == n
  }

  predicate WithinHalfUnit(r: Option<nat>, x: real) {
    r.Some? && -0.5 <= r.value as real - x <= 0.5
  }

  /**
   null for a value that is not finite; otherwise a number with the value's sign which, in units of 10^-d, is within
   half a unit of it if and only if nothing that counts was cut off, and has d decimals if nothing was cut at all.
   */
  predicate SaysFloat(v: Option<Value>, x: Float, d: nat) {
    if !x.Finite? then v == Some(Null)
    else
      && v.Some? && v.value.Num? && v.value.token != ""
      && (v.value.token[0] == '-' <==> x.v < 0.0)
      && (WithinHalfUnit(ReadUnits(v.value.token, d), Units(x.v, d)) <==> NothingLost(x.v, d))
      && (|IntegerText(x.v, d)| + 1 + d <= 31 ==> |Decimals(v.value.token)| == d)
  }

  predicate SaysSource(v: Option<Value>, s: Source) {
    (v == Some(Str("PZEM")) <==> s == PZEM) && (v == Some(Str("SIMULATION")) <==> s == SIMULATION)
  }

  predicate SaysStatus(v: Option<Value>, s: Status) {
    && (v == Some(Str("OK")) <==> s == OK)
    && (v == Some(Str("NOT_INITIALIZED")) <==> s == NOT_INITIALIZED)
    && (v == Some(Str("SENSOR_ERROR")) <==> s == SENSOR_ERROR)
    && (v == Some(Str("OUT_OF_RANGE")) <==> s == OUT_OF_RANGE)
    && (v == Some(Str("INCONSISTENT")) <==> s == INCONSISTENT)
  }

  predicate SaysState(v: Option<Value>, s: SystemState) {
    && (v == Some(Str("INIT")) <==> s == INIT)
    && (v == Some(Str("NORMAL")) <==> s == NORMAL)
    && (v == Some(Str("WARNING")) <==> s == WARNING)
    && (v == Some(Str("FAULT")) <==> s == FAULT)
  }

  predicate SaysFault(v: Option<Value>, f: FaultCode) {
    && (v == Some(Str("NONE")) <==> f == NO_FAULT)
    && (v == Some(Str("SENSOR_INVALID")) <==> f == SENSOR_INVALID)
    && (v == Some(Str("OVERPOWER")) <==> f == OVERPOWER)
    && (v == Some(Str("SENSOR_STALE")) <==> f == SENSOR_STALE)
    && (v == Some(Str("PROTECTION_INTERNAL")) <==> f == PROTECTION_INTERNAL)
  }

  predicate SaysReset(v: Option<Value>, r: ResetResult) {
    && (v == Some(Str("NONE")) <==> r == NOT_REQUESTED)
    && (v == Some(Str("ACCEPTED")) <==> r == ACCEPTED)
    && (v == Some(Str("REJECTED_NO_ACTIVE_FAULT")) <==> r == REJECTED_NO_ACTIVE_FAULT)
    && (v == Some(Str("REJECTED_NO_MEASUREMENT")) <==> r == REJECTED_NO_MEASUREMENT)
    && (v == Some(Str("REJECTED_STALE_MEASUREMENT")) <==> r == REJECTED_STALE_MEASUREMENT)
    && (v == Some(Str("REJECTED_INVALID_MEASUREMENT")) <==> r == REJECTED_INVALID_MEASUREMENT)
    && (v == Some(Str("REJECTED_UNSAFE_CONDITION")) <==> r == REJECTED_UNSAFE_CONDITION)
    && (v == Some(Str("REJECTED_BUSY")) <==> r == REJECTED_BUSY)
  }

  /** A C string is said as itself, a null pointer as the empty string. */
  predicate SaysString(v: Option<Value>, s: CString) {
    v == Some(Str(if s.None? then "" else s.value))
  }

  // ---- The 22 members ----

  predicate SaysIdentity(fs: seq<Field>, input: TelemetryInput) {
    var m := input.measurement;
    && SaysWord(Lookup(fs, "schema_version"), 2)
    && SaysString(Lookup(fs, "device_id"), input.deviceId)
    && SaysString(Lookup(fs, "firmware_version"), input.firmwareVersion)
    && SaysSource(Lookup(fs, "source"), m.source)
    && Lookup(fs, "simulated") == Some(Bool(m.source == SIMULATION))
    && SaysWord(Lookup(fs, "uptime_ms"), input.uptimeMs)
    && Lookup(fs, "valid") == Some(Bool(m.valid))
    && SaysStatus(Lookup(fs, "measurement_status"), m.status)
    && SaysWord(Lookup(fs, "measurement_age_ms"), input.measurementAgeMs)
  }

  predicate SaysReading(fs: seq<Field>, m: Measurement) {
    && SaysFloat(Lookup(fs, "voltage"), m.voltage, 2)
    && SaysFloat(Lookup(fs, "current"), m.current, 3)
    && SaysFloat(Lookup(fs, "power"), m.power, 2)
    && SaysFloat(Lookup(fs, "energy"), m.energy, 3)
    && SaysFloat(Lookup(fs, "apparent_power"), m.apparentPower, 2)
    && SaysFloat(Lookup(fs, "power_factor"), m.powerFactor, 3)
  }

  predicate SaysProtection(fs: seq<Field>, input: TelemetryInput) {
    var p := input.protection;
    && SaysState(Lookup(fs, "state"), p.state)
    && SaysFault(Lookup(fs, "fault"), p.fault.activeFault)
    && Lookup(fs, "fault_active") == Some(Bool(p.fault.active))
    && Lookup(fs, "fault_acknowledged") == Some(Bool(p.fault.acknowledged))
    && SaysReset(Lookup(fs, "last_reset_result"), p.lastResetResult)
    && Lookup(fs, "relay_commanded_on") == Some(Bool(input.relayCommandedOn))
    && Lookup(fs, "relay_output_enabled") == Some(Bool(input.relayOutputEnabled))
  }

  // ---- No key occurs twice ----

  const KEYS: seq<string> :=
    [ "schema_version", "device_id", "firmware_version", "source", "simulated", "uptime_ms", "valid",
      "measurement_status", "measurement_age_ms", "voltage", "current", "power", "energy",
      "apparent_power", "power_factor", "state", "fault", "fault_active", "fault_acknowledged",
      "last_reset_result", "relay_commanded_on", "relay_output_enabled" ]

  /** The place of a key, told by its length and one or two of its characters. */
  function Place(key: string): nat {
    var n := 1000 * |key| + (if key == "" then 0 else key[0] as int) + if |key| == 18 then key[12] as int else 0;
    if n == 14115 then 0
    else if n == 9100 then 1
    else if n == 16102 then 2
    else if n == 6115 then 3
    else if n == 9115 then 4
    else if n == 9117 then 5
    else if n == 5118 then 6
    else if n == 18224 then 7
    else if n == 18206 then 8
    else if n == 7118 then 9
    else if n == 7099 then 10
    else if n == 5112 then 11
    else if n == 6101 then 12
    else if n == 14097 then 13
    else if n == 12112 then 14
    else if n == 5115 then 15
    else if n == 5102 then 16
    else if n == 12102 then 17
    else if n == 18210 then 18
    else if n == 17108 then 19
    else if n == 18214 then 20
    else if n == 20114 then 21
    else |KEYS|
  }

  lemma PlacesOfIdentity()
    ensures Place("schema_version") == 0 && Place("device_id") == 1 && Place("firmware_version") == 2
    ensures Place("source") == 3 && Place("simulated") == 4 && Place("uptime_ms") == 5
    ensures Place("valid") == 6 && Place("measurement_status") == 7 && Place("measurement_age_ms") == 8
  {
  }

  lemma PlacesOfReading()
    ensures Place("voltage") == 9 && Place("current") == 10 && Place("power") == 11
    ensures Place("energy") == 12 && Place("apparent_power") == 13 && Place("power_factor") == 14
  {
  }

  lemma PlacesOfProtection()
    ensures Place("state") == 15 && Place("fault") == 16 && Place("fault_active") == 17
    ensures Place("fault_acknowledged") == 18 && Place("last_reset_result") == 19 && Place("relay_commanded_on") == 20
    ensures Place("relay_output_enabled") == 21
  {
  }

  lemma KeysOf(input: TelemetryInput)
    ensures |Fields(input)| == 22 && forall i :: 0 <= i < 22 ==> Fields(input)[i].key == KEYS[i]
  {
    var m := input.measurement;
    var a, b, c := IdentityFields(input), ReadingFields(m), ProtectionFields(input);
    hide StrOf, U32Of, FloatOf, SourceName, StatusName, StateName, FaultName, ResetName;
    assert |a| == 8 && |b| == 6 && |c| == 7;
    var keys := [SCHEMA_FIELD] + a + b + c;
    assert keys == Fields(input);
  }

  lemma PlacesOfKeys()
    ensures |KEYS| == 22 && forall i :: 0 <= i < 22 ==> Place(KEYS[i]) == i
  {
    PlacesOfIdentity();
    PlacesOfReading();
    PlacesOfProtection();
    hide Place;
  }

  lemma KeysDistinct(input: TelemetryInput)
    ensures |Fields(input)| == 22 && NoKeyTwice(Fields(input))
  {
    KeysOf(input);
    PlacesOfKeys();
    hide Place, Fields, KEYS;
    var fs := Fields(input);
    forall i, j | 0 <= i < j < |fs|
      ensures fs[i].key != fs[j].key
    {
      assert Place(fs[i].key) == i && Place(fs[j].key) == j;
    }
  }

  // ---- Each value says its item ----

  lemma WordSaid(v: Word)
    ensures SaysWord(Some(U32Of(v)), v)
  {
    DigitsReadBack(v);
  }

  lemma SignKept(v: real, d: nat)
    ensures Clipped(FixedText(v, d)) != "" && (Clipped(FixedText(v, d))[0] == '-' <==> v < 0.0)
  {
    var whole := Digits(Quotient(Scaled(v, d), Pow10(d)));
    var text := FixedText(v, d);
    assert IsDigit(whole[0]);
    assert text[0] == if v < 0.0 then '-' else whole[0];
  }

  lemma DecimalsKept(v: real, d: nat)
    requires |IntegerText(v, d)| + 1 + d <= 31
    ensures |Decimals(Clipped(FixedText(v, d)))| == d
  {
    var sign := if v < 0.0 then "-" else "";
    var whole := Digits(Quotient(Scaled(v, d), Pow10(d)));
    var fraction := FractionText(v, d);
    assert |fraction| == d && ("." + fraction)[1..] == fraction;
    WholeDigits(v, d, sign, whole);
    hide Digits, Scaled, Pow10, FractionText, IntegerText, Decimals, Quotient;
    assert FixedText(v, d) == sign + whole + ("." + fraction);
    PartsOf(sign, whole, "." + fraction);
  }

  lemma FloatSaid(v: Float, d: nat)
    requires d > 0
    ensures SaysFloat(Some(FloatOf(v, d)), v, d)
  {
    if v.Finite? {
      SignKept(v.v, d);
      ClippedReadBack(v.v, d);
      hide FixedText, Clipped, IntegerText, Decimals, ReadUnits, Units, NothingLost;
      if |IntegerText(v.v, d)| + 1 + d <= 31 {
        DecimalsKept(v.v, d);
      }
    }
  }

  lemma SourceSaid(s: Source)
    ensures SaysSource(Some(Str(SourceName(s))), s)
  {
  }

  lemma StatusSaid(s: Status)
    ensures SaysStatus(Some(Str(StatusName(s))), s)
  {
  }

  lemma StateSaid(s: SystemState)
    ensures SaysState(Some(Str(StateName(s))), s)
  {
  }

  lemma FaultSaid(f: FaultCode)
    ensures SaysFault(Some(Str(FaultName(f))), f)
  {
  }

  lemma ResetSaid(r: ResetResult)
    ensures SaysReset(Some(Str(ResetName(r))), r)
  {
  }

  /** The k-th member is the one found under its key. */
  lemma FoundAt(input: TelemetryInput, k: nat, f: Field)
    requires k < |Fields(input)| && Fields(input)[k] == f
    ensures Lookup(Fields(input), f.key) == Some(f.value)
  {
    KeysDistinct(input);
    hide Fields;
    LookupFinds(Fields(input), k);
  }

  lemma IdentitySaid(input: TelemetryInput)
    ensures SaysIdentity(Fields(input), input)
  {
    var m := input.measurement;
    var a := IdentityFields(input);
    IdentityAt(input);
    WordSaid(2);
    WordSaid(input.uptimeMs);
    WordSaid(input.measurementAgeMs);
    SourceSaid(m.source);
    StatusSaid(m.status);
    hide Fields, Lookup, SaysWord, SaysSource, SaysStatus, U32Of, SourceName, StatusName;
    FoundAt(input, 0, SCHEMA_FIELD);
    FoundAt(input, 1, a[0]);
    FoundAt(input, 2, a[1]);
    FoundAt(input, 3, a[2]);
    FoundAt(input, 4, a[3]);
    FoundAt(input, 5, a[4]);
    FoundAt(input, 6, a[5]);
    FoundAt(input, 7, a[6]);
    FoundAt(input, 8, a[7]);
  }

  lemma IdentityAt(input: TelemetryInput)
    ensures |Fields(input)| == 22 && |IdentityFields(input)| == 8 && Fields(input)[0] == SCHEMA_FIELD
    ensures forall i :: 0 <= i < 8 ==> Fields(input)[1 + i] == IdentityFields(input)[i]
  {
    assert |IdentityFields(input)| == 8 && |ReadingFields(input.measurement)| == 6 && |ProtectionFields(input)| == 7;
    hide IdentityFields, ReadingFields, ProtectionFields;
  }

  lemma ReadingSaid(input: TelemetryInput)
    ensures SaysReading(Fields(input), input.measurement)
  {
    var m := input.measurement;
    var b := ReadingFields(m);
    RestAt(input);
    FloatSaid(m.voltage, 2);
    FloatSaid(m.current, 3);
    FloatSaid(m.power, 2);
    FloatSaid(m.energy, 3);
    FloatSaid(m.apparentPower, 2);
    FloatSaid(m.powerFactor, 3);
    hide Fields, Lookup, SaysFloat, FloatOf;
    FoundAt(input, 9, b[0]);
    FoundAt(input, 10, b[1]);
    FoundAt(input, 11, b[2]);
    FoundAt(input, 12, b[3]);
    FoundAt(input, 13, b[4]);
    FoundAt(input, 14, b[5]);
  }

  lemma RestAt(input: TelemetryInput)
    ensures |Fields(input)| == 22 && |ReadingFields(input.measurement)| == 6 && |ProtectionFields(input)| == 7
    ensures forall i :: 0 <= i < 6 ==> Fields(input)[9 + i] == ReadingFields(input.measurement)[i]
    ensures forall i :: 0 <= i < 7 ==> Fields(input)[15 + i] == ProtectionFields(input)[i]
  {
    assert |IdentityFields(input)| == 8 && |ReadingFields(input.measurement)| == 6 && |ProtectionFields(input)| == 7;
    hide IdentityFields, ReadingFields, ProtectionFields;
  }

  lemma ProtectionSaid(input: TelemetryInput)
    ensures SaysProtection(Fields(input), input)
  {
    var p := input.protection;
    var e := ProtectionFields(input);
    RestAt(input);
    StateSaid(p.state);
    FaultSaid(p.fault.activeFault);
    ResetSaid(p.lastResetResult);
    hide Fields, Lookup, SaysState, SaysFault, SaysReset, StateName, FaultName, ResetName;
    FoundAt(input, 15, e[0]);
    FoundAt(input, 16, e[1]);
    FoundAt(input, 17, e[2]);
    FoundAt(input, 18, e[3]);
    FoundAt(input, 19, e[4]);
    FoundAt(input, 20, e[5]);
    FoundAt(input, 21, e[6]);
  }

  /**
   For every legible input and any text that follows, the reader gets an object of 22 members without a repeated
   key, and under each key finds a value that says the item of the input which belongs there.
   */
  lemma TelemetryTells(input: TelemetryInput, rest: string)
    requires AllLegible(input.measurement)
    ensures exists fs ::
              && ReadObject(Render(input) + rest) == Some((fs, rest))
              && |fs| == 22 && NoKeyTwice(fs)
              && SaysIdentity(fs, input) && SaysReading(fs, input.measurement) && SaysProtection(fs, input)
  {
    hide *;
    TelemetryRoundTrip(input, rest);
    KeysDistinct(input);
    IdentitySaid(input);
    ReadingSaid(input);
    ProtectionSaid(input);
  }

  /** The printed value loses nothing if its integer part leaves room for all decimals. */
  lemma ShortLosesNothing(v: real, d: nat)
    requires d > 0 && |IntegerText(v, d)| + 1 + d <= 31
    ensures NothingLost(v, d)
  {
    assert |FractionText(v, d)| == d;
    hide IntegerText, FractionText;
  }

  predicate Precise(v: Option<Value>, x: Float, d: nat) {
    && x.Finite? && v.Some? && v.value.Num?
    && WithinHalfUnit(ReadUnits(v.value.token, d), Units(x.v, d)) && |Decimals(v.value.token)| == d
  }

  lemma RangedIsPrecise(v: Option<Value>, x: Float, max: nat, d: nat)
    requires SaysFloat(v, x, d) && Within(x, max as real) && max < 100000 && 0 < d <= 3
    ensures Precise(v, x, d)
  {
    PowersOfTen();
    FixedTextLength(x.v, max, d, 5);
    hide IntegerText, NothingLost, Decimals, ReadUnits, Units;
    ShortLosesNothing(x.v, d);
  }

  /**
   For every sample the firmware can hold, the six readings are published under their own keys to within half a unit
   of the second or third decimal.
   */
  lemma ReadingsArePrecise(fs: seq<Field>, m: Measurement)
    requires Ranged(m) && SaysReading(fs, m)
    ensures Precise(Lookup(fs, "voltage"), m.voltage, 2) && Precise(Lookup(fs, "current"), m.current, 3)
    ensures Precise(Lookup(fs, "power"), m.power, 2) && Precise(Lookup(fs, "energy"), m.energy, 3)
    ensures Precise(Lookup(fs, "apparent_power"), m.apparentPower, 2)
    ensures Precise(Lookup(fs, "power_factor"), m.powerFactor, 3)
  {
    hide Lookup, SaysFloat, Precise;
    RangedIsPrecise(Lookup(fs, "voltage"), m.voltage, 300, 2);
    RangedIsPrecise(Lookup(fs, "current"), m.current, 100, 3);
    RangedIsPrecise(Lookup(fs, "power"), m.power, 25000, 2);
    RangedIsPrecise(Lookup(fs, "energy"), m.energy, 10000, 3);
    RangedIsPrecise(Lookup(fs, "apparent_power"), m.apparentPower, 30000, 2);
    RangedIsPrecise(Lookup(fs, "power_factor"), m.powerFactor, 1, 3);
  }
}
