/**
 The telemetry text always fits the 768-byte buffer of src/mqtt_manager.cpp.
 */
module TelemetryFits {
  import opened Options
  import opened Words
  import opened Floats
  import opened Measurements
  import opened Decimal
  import opened Json
  import opened Telemetry
  import opened TelemetryTheorems

  const BUFFER_SIZE: nat := 768

  /** 1 to 32 characters, none of which needs an escape. */
  predicate LegalDeviceId(s: string) {
    1 <= |s| <= 32 && Plain(s)
  }

  /** Every number in the range validation allows, as in any built, simulated or zero sample. */
  predicate Ranged(m: Measurement) {
    && Within(m.voltage, 300.0) && Within(m.current, 100.0) && Within(m.power, 25000.0)
    && Within(m.energy, 10000.0) && Within(m.apparentPower, 30000.0) && Within(m.powerFactor, 1.0)
  }

  lemma {:induction false} PlainNeedsNoEscape(s: string)
    requires Plain(s)
    ensures EscapeAll(s) == s
  {
    if s != "" {
      assert s[0] in s && forall c :: c in s[1..] ==> c in s;
      PlainNeedsNoEscape(s[1..]);
      assert s == [s[0]] + s[1..];
    }
  }

  /** Every field of fs renders to at most cap characters. */
  ghost predicate Capped(fs: seq<Field>, cap: nat) {
    forall i :: 0 <= i < |fs| ==> |RenderField(fs[i])| <= cap
  }

  lemma {:induction false} CappedLength(fs: seq<Field>, cap: nat)
    requires Capped(fs, cap)
    ensures |RenderFields(fs)| <= |fs| * (cap + 1)
  {
    hide RenderField;
    if |fs| > 1 {
      CappedLength(fs[1..], cap);
      assert |fs| * (cap + 1) == |fs[1..]| * (cap + 1) + (cap + 1);
    }
  }

  lemma {:induction false} ConcatLength(a: seq<Field>, b: seq<Field>)
    ensures |RenderFields(a + b)| <= |RenderFields(a)| + 1 + |RenderFields(b)|
    decreases |b|
  {
    hide RenderField;
    if b == [] {
      assert a + b == a;
    } else if |b| == 1 {
      RenderFieldsAppend(a, b[0]);
      assert b == [b[0]];
    } else {
      var n := |b| - 1;
      ConcatLength(a, b[..n]);
      RenderFieldsAppend(a + b[..n], b[n]);
      RenderFieldsAppend(b[..n], b[n]);
      assert a + b == a + b[..n] + [b[n]] && b == b[..n] + [b[n]];
    }
  }

  lemma FieldLength(k: string, v: Value)
    requires Plain(k)
    ensures |RenderField(Field(k, v))| == |k| + 3 + |RenderValue(v)|
  {
    PlainNeedsNoEscape(k);
  }

  lemma NameLength(k: string, s: string)
    requires Plain(k) && Plain(s)
    ensures |RenderField(Field(k, Str(s)))| == |k| + 5 + |s|
  {
    FieldLength(k, Str(s));
    PlainNeedsNoEscape(s);
  }

  lemma FlagLength(k: string, b: bool)
    requires Plain(k)
    ensures |RenderField(Field(k, Bool(b)))| <= |k| + 8
  {
    FieldLength(k, Bool(b));
  }

  lemma PowersOfTen()
    ensures Pow10(1) == 10 && Pow10(3) == 1000 && Pow10(5) == 100000 && Pow10(10) == 10000000000
  {
    assert Pow10(4) == 10000;
    assert Pow10(8) == 100000000;
  }

  lemma U32Length(k: string, v: Word)
    requires Plain(k)
    ensures |RenderField(Field(k, U32Of(v)))| <= |k| + 13
  {
    FieldLength(k, U32Of(v));
    PowersOfTen();
    DigitsLength(v, 10);
  }

  /** max has at most five digits, so the printed value has at most six characters besides its d decimals. */
  lemma FloatLength(k: string, v: Float, max: nat, d: nat)
    requires Plain(k) && Within(v, max as real) && max < 100000
    ensures |RenderField(Field(k, FloatOf(v, d)))| <= |k| + 9 + d
    ensures |IntegerText(v.v, d)| <= 5
  {
    FieldLength(k, FloatOf(v, d));
    PowersOfTen();
    FixedTextLength(v.v, max, d, 5);
  }

  lemma IdentityKeysPlain()
    ensures Plain("firmware_version") && Plain("source") && Plain("simulated") && Plain("uptime_ms")
    ensures Plain("valid") && Plain("measurement_status") && Plain("measurement_age_ms") && Plain("1.3.0")
  {
    assert Plain("firmware_version");
    assert Plain("measurement_status");
    assert Plain("measurement_age_ms");
  }

  lemma ReadingKeysPlain()
    ensures Plain("voltage") && Plain("current") && Plain("power") && Plain("energy")
    ensures Plain("apparent_power") && Plain("power_factor")
  {
  }

  lemma ProtectionKeysPlain()
    ensures Plain("state") && Plain("fault") && Plain("fault_active") && Plain("fault_acknowledged")
    ensures Plain("last_reset_result") && Plain("relay_commanded_on") && Plain("relay_output_enabled")
  {
  }

  lemma OuterKeysPlain()
    ensures Plain("schema_version") && Plain("device_id")
  {
  }

  lemma IdentityLength(input: TelemetryInput)
    requires input.firmwareVersion == Some("1.3.0")
    ensures Capped(IdentityFields(input)[1..], 38)
  {
    IdentityKeysPlain();
    hide Plain, RenderField, U32Of, FloatOf, SourceName, StatusName, StateName, FaultName, ResetName, IntegerText;
    var m := input.measurement;
    NameLength("firmware_version", "1.3.0");
    NameLength("source", SourceName(m.source));
    FlagLength("simulated", m.source == SIMULATION);
    U32Length("uptime_ms", input.uptimeMs);
    FlagLength("valid", m.valid);
    NameLength("measurement_status", StatusName(m.status));
    U32Length("measurement_age_ms", input.measurementAgeMs);
    assert IdentityFields(input)[1..] ==
      [ Field("firmware_version", Str("1.3.0")), Field("source", Str(SourceName(m.source))),
        Field("simulated", Bool(m.source == SIMULATION)), Field("uptime_ms", U32Of(input.uptimeMs)),
        Field("valid", Bool(m.valid)), Field("measurement_status", Str(StatusName(m.status))),
        Field("measurement_age_ms", U32Of(input.measurementAgeMs)) ];
  }

  lemma ReadingLength(m: Measurement)
    requires Ranged(m)
    ensures Capped(ReadingFields(m), 25) && AllLegible(m)
  {
    ReadingKeysPlain();
    hide Plain, RenderField, U32Of, FloatOf, SourceName, StatusName, StateName, FaultName, ResetName, IntegerText;
    FloatLength("voltage", m.voltage, 300, 2);
    FloatLength("current", m.current, 100, 3);
    FloatLength("power", m.power, 25000, 2);
    FloatLength("energy", m.energy, 10000, 3);
    FloatLength("apparent_power", m.apparentPower, 30000, 2);
    FloatLength("power_factor", m.powerFactor, 1, 3);
  }

  lemma ProtectionLength(input: TelemetryInput)
    ensures var fs := ProtectionFields(input);
            Capped(fs[..4], 29) && Capped(fs[4..5], 50) && Capped(fs[5..], 29)
  {
    ProtectionKeysPlain();
    hide Plain, RenderField, U32Of, FloatOf, SourceName, StatusName, StateName, FaultName, ResetName, IntegerText;
    var p := input.protection;
    NameLength("state", StateName(p.state));
    NameLength("fault", FaultName(p.fault.activeFault));
    FlagLength("fault_active", p.fault.active);
    FlagLength("fault_acknowledged", p.fault.acknowledged);
    NameLength("last_reset_result", ResetName(p.lastResetResult));
    FlagLength("relay_commanded_on", input.relayCommandedOn);
    FlagLength("relay_output_enabled", input.relayOutputEnabled);
  }

  /**
   For every sample whose numbers are in the validated ranges, every protection snapshot, all 32-bit times and flags and
   every legal device ID, the text and its NUL fit the buffer, and the text is one a reader recovers.
   */
  lemma TelemetryAlwaysFits(input: TelemetryInput)
    requires Ranged(input.measurement)
    requires input.deviceId.Some? && LegalDeviceId(input.deviceId.value)
    requires input.firmwareVersion == Some("1.3.0")
    ensures |Render(input)| + 1 <= BUFFER_SIZE
    ensures AllLegible(input.measurement)
  {
    hide Plain, RenderFields, RenderField, IdentityFields, ReadingFields, ProtectionFields, Fields, AllLegible, Capped;
    var id, reading, prot := IdentityFields(input), ReadingFields(input.measurement), ProtectionFields(input);
    PiecesOf(input);
    OuterLength(input);
    IdentityLength(input);
    ReadingLength(input.measurement);
    ProtectionLength(input);
    SevenPieces([SCHEMA_FIELD], [id[0]], id[1..], reading, prot[..4], prot[4..5], prot[5..]);
    RenderIs(input);
  }

  lemma PiecesOf(input: TelemetryInput)
    ensures var id, reading, prot := IdentityFields(input), ReadingFields(input.measurement), ProtectionFields(input);
            && |id| == 8 && |reading| == 6 && |prot| == 7
            && Fields(input) == [SCHEMA_FIELD] + ([id[0]] + id[1..]) + reading + (prot[..4] + (prot[4..5] + prot[5..]))
  {
    var id, reading, prot := IdentityFields(input), ReadingFields(input.measurement), ProtectionFields(input);
    assert |id| == 8 && |reading| == 6 && |prot| == 7;
    hide IdentityFields, ReadingFields, ProtectionFields;
    assert id == [id[0]] + id[1..] && prot == prot[..4] + (prot[4..5] + prot[5..]);
  }

  lemma RenderIs(input: TelemetryInput)
    ensures |Render(input)| == |RenderFields(Fields(input))| + 2
  {
  }

  lemma OuterLength(input: TelemetryInput)
    requires input.deviceId.Some? && LegalDeviceId(input.deviceId.value)
    ensures Capped([SCHEMA_FIELD], 27) && Capped([IdentityFields(input)[0]], 46)
  {
    OuterKeysPlain();
    hide Plain, RenderField;
    U32Length("schema_version", TELEMETRY_SCHEMA_VERSION);
    NameLength("device_id", input.deviceId.value);
  }

  /** 27 + 46 + 7 * 38 + 6 * 25 + 4 * 29 + 50 + 2 * 29 and a comma for each of the 22 fields. */
  lemma SevenPieces(a: seq<Field>, b: seq<Field>, c: seq<Field>, d: seq<Field>,
                    e: seq<Field>, f: seq<Field>, g: seq<Field>)
    requires |a| == 1 && |b| == 1 && |c| == 7 && |d| == 6 && |e| == 4 && |f| == 1 && |g| == 2
    requires Capped(a, 27) && Capped(b, 46) && Capped(c, 38) && Capped(d, 25)
    requires Capped(e, 29) && Capped(f, 50) && Capped(g, 29)
    ensures |RenderFields(a + (b + c) + d + (e + (f + g)))| <= 765
  {
    hide *;
    CappedLength(a, 27);
    CappedLength(b, 46);
    CappedLength(c, 38);
    CappedLength(d, 25);
    CappedLength(e, 29);
    CappedLength(f, 50);
    CappedLength(g, 29);
    ConcatLength(b, c);
    ConcatLength(a, b + c);
    ConcatLength(a + (b + c), d);
    ConcatLength(f, g);
    ConcatLength(e, f + g);
    ConcatLength(a + (b + c) + d, e + (f + g));
  }

  /** Every sample the firmware can hold is in range: built from any reading, simulated, or not yet taken. */
  lemma EverySampleRanged(raw: RawReading, source: Source, timestamp: Word)
    ensures Ranged(BuildMeasurement(raw, source, timestamp, DEFAULT_LIMITS))
    ensures Ranged(SimulationSample(timestamp))
    ensures Ranged(ZERO_MEASUREMENT)
  {
    BuiltNumbersBounded(raw, source, timestamp);
    BuiltNumbersBounded(SimulatedReading(timestamp % 15000), SIMULATION, timestamp);
  }

  /** The publish buffer never fails: the writer returns the full length for all such inputs. */
  method PublishTelemetry(payload: array<char>, input: TelemetryInput) returns (n: int)
    requires payload.Length == BUFFER_SIZE
    requires Ranged(input.measurement)
    requires input.deviceId.Some? && LegalDeviceId(input.deviceId.value)
    requires input.firmwareVersion == Some("1.3.0")
    modifies payload
    ensures n == |Render(input)| && n < BUFFER_SIZE && payload[..n] == Render(input) && payload[n] == '\0'
  {
    TelemetryAlwaysFits(input);
    n := BuildTelemetryJson(payload, BUFFER_SIZE, input);
  }
}
