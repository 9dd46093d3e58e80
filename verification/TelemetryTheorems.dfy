/**
 What a subscriber may rely on: the telemetry text reads back to exactly the fields it was made from.
 */
module TelemetryTheorems {
  import opened Options
  import opened Words
  import opened Floats
  import opened Measurements
  import opened ProtectionModel
  import opened Decimal
  import opened Json
  import opened Telemetry

  // ---- Round trip ----

  /** The printed float is not cut off right after its decimal point. */
  predicate Legible(v: Float, d: nat) {
    v.Finite? ==> |IntegerText(v.v, d)| != 30
  }

  predicate AllLegible(m: Measurement) {
    && Legible(m.voltage, 2) && Legible(m.current, 3) && Legible(m.power, 2)
    && Legible(m.energy, 3) && Legible(m.apparentPower, 2) && Legible(m.powerFactor, 3)
  }

  predicate NumberChars(s: string) {
    forall i :: 0 <= i < |s| ==> IsNumberChar(s[i])
  }

  lemma {:induction false} NumberCharsLength(s: string)
    requires NumberChars(s)
    ensures NumberLength(s) == |s|
  {
    if s != "" {
      NumberCharsLength(s[1..]);
    }
  }

  lemma FloatWellFormed(v: Float, d: nat)
    requires d > 0
    ensures WellFormed(FloatOf(v, d)) <==> Legible(v, d)
  {
    if v.Finite? {
      var whole := Digits(Quotient(Scaled(v.v, d), Pow10(d)));
      var fraction := FractionText(v.v, d);
      assert AllDigits(whole) && AllDigits(fraction);
      assert NumberChars(FixedText(v.v, d));
      NumberCharsLength(Clipped(FixedText(v.v, d)));
      ClippedIsNumber(v.v, d);
    }
  }

  lemma U32WellFormed(v: Word)
    ensures WellFormed(U32Of(v))
  {
    DigitsAreNumber(v);
    NumberCharsLength(Digits(v));
  }

  ghost predicate AllWellFormed(fs: seq<Field>) {
    forall i :: 0 <= i < |fs| ==> WellFormed(fs[i].value)
  }

  lemma FieldsWellFormed(input: TelemetryInput)
    ensures AllWellFormed(Fields(input)) <==> AllLegible(input.measurement)
  {
    var m := input.measurement;
    var a, b, c := [SCHEMA_FIELD] + IdentityFields(input), ReadingFields(m), ProtectionFields(input);
    U32WellFormed(TELEMETRY_SCHEMA_VERSION);
    U32WellFormed(input.uptimeMs);
    U32WellFormed(input.measurementAgeMs);
    ReadingWellFormed(m);
    hide U32Of, FloatOf, SourceName, StatusName, StateName, FaultName, ResetName, ReadingFields, AllLegible;
    assert AllWellFormed(a) && AllWellFormed(c);
    AllWellFormedConcat(a, b);
    AllWellFormedConcat(a + b, c);
  }

  lemma AllWellFormedConcat(a: seq<Field>, b: seq<Field>)
    ensures AllWellFormed(a + b) <==> AllWellFormed(a) && AllWellFormed(b)
  {
    if AllWellFormed(a + b) {
      forall i | 0 <= i < |a|
        ensures WellFormed(a[i].value)
      {
        assert (a + b)[i] == a[i];
      }
      forall i | 0 <= i < |b|
        ensures WellFormed(b[i].value)
      {
        assert (a + b)[|a| + i] == b[i];
      }
    }
  }

  lemma ReadingWellFormed(m: Measurement)
    ensures AllWellFormed(ReadingFields(m)) <==> AllLegible(m)
  {
    FloatWellFormed(m.voltage, 2);
    FloatWellFormed(m.current, 3);
    FloatWellFormed(m.power, 2);
    FloatWellFormed(m.energy, 3);
    FloatWellFormed(m.apparentPower, 2);
    FloatWellFormed(m.powerFactor, 3);
    hide FloatOf, Legible, WellFormed;
    var fs := ReadingFields(m);
    if AllWellFormed(fs) {
      assert WellFormed(fs[0].value) && WellFormed(fs[1].value) && WellFormed(fs[2].value)
          && WellFormed(fs[3].value) && WellFormed(fs[4].value) && WellFormed(fs[5].value);
    }
  }

  /** The reader never returns a number the grammar does not allow. */
  lemma {:induction false} ReaderIsSound(t: string)
    ensures ReadFields(t).Some? ==>
              forall i :: 0 <= i < |ReadFields(t).value.0| ==>
                ReadFields(t).value.0[i].value.Num? ==> IsNumber(ReadFields(t).value.0[i].value.token)
    decreases |t|
  {
    hide IsNumber, NumberLength, ReadString, SkipSpace;
    var f := ReadField(t);
    if f.Some? && f.value.1 != "" && f.value.1[0] == ',' {
      ReaderIsSound(f.value.1[1..]);
    }
  }

  ghost predicate AllTokens(fs: seq<Field>) {
    forall i :: 0 <= i < |fs| ==> WellFormed(fs[i].value) || Illegible(fs[i].value)
  }

  lemma FloatIsToken(v: Float, d: nat)
    requires d > 0
    ensures WellFormed(FloatOf(v, d)) || Illegible(FloatOf(v, d))
  {
    if v.Finite? {
      assert AllDigits(FractionText(v.v, d));
      assert NumberChars(FixedText(v.v, d));
      hide IsNumber;
      NumberCharsLength(Clipped(FixedText(v.v, d)));
    }
  }

  lemma AllTokensConcat(a: seq<Field>, b: seq<Field>)
    requires AllTokens(a) && AllTokens(b)
    ensures AllTokens(a + b)
  {
  }

  lemma FieldsAreTokens(input: TelemetryInput)
    ensures AllTokens(Fields(input))
  {
    var m := input.measurement;
    var a, b, c := [SCHEMA_FIELD] + IdentityFields(input), ReadingFields(m), ProtectionFields(input);
    U32WellFormed(TELEMETRY_SCHEMA_VERSION);
    U32WellFormed(input.uptimeMs);
    U32WellFormed(input.measurementAgeMs);
    FloatIsToken(m.voltage, 2);
    FloatIsToken(m.current, 3);
    FloatIsToken(m.power, 2);
    FloatIsToken(m.energy, 3);
    FloatIsToken(m.apparentPower, 2);
    FloatIsToken(m.powerFactor, 3);
    hide U32Of, FloatOf, SourceName, StatusName, StateName, FaultName, ResetName, Illegible, IsNumber, NumberLength;
    assert AllTokens(a) && AllTokens(b) && AllTokens(c);
    AllTokensConcat(a, b);
    AllTokensConcat(a + b, c);
  }

  /**
   Whatever text follows, the reader recovers the fields of the telemetry object exactly, unless a float is
   so large that the 32-byte number buffer cuts it right after its decimal point; then it refuses the object
   altogether. The strings may hold any bytes at all.
   */
  lemma TelemetryRoundTrip(input: TelemetryInput, rest: string)
    ensures ReadObject(Render(input) + rest) ==
            if AllLegible(input.measurement) then Some((Fields(input), rest)) else None
  {
    hide Fields, AllLegible, IsNumber, ReadFields, RenderFields, Illegible, NumberLength;
    FieldsWellFormed(input);
    FieldsAreTokens(input);
    var fs := Fields(input);
    if AllLegible(input.measurement) {
      ObjectRoundTrip(fs, rest);
    } else {
      var k :| 0 <= k < |fs| && !WellFormed(fs[k].value);
      ObjectRefused(fs, rest, k);
    }
  }

  /** Such inputs exist: any telemetry with a power of 2^97 W is not JSON. */
  lemma HugePowerRefused(input: TelemetryInput, rest: string)
    requires input.measurement.power == Finite(FLOAT_OF_30_DIGITS as real)
    ensures !AllLegible(input.measurement) && ReadObject(Render(input) + rest) == None
  {
    hide IntegerText, Render, ReadObject, Fields;
    CutFloats(2);
    TelemetryRoundTrip(input, rest);
  }

  /** Equal texts come from inputs that agree in every string, flag, name and 32-bit number. */
  lemma TextDeterminesInput(a: TelemetryInput, b: TelemetryInput)
    requires AllLegible(a.measurement) && AllLegible(b.measurement) && Render(a) == Render(b)
    ensures TextOf(a.deviceId) == TextOf(b.deviceId) && TextOf(a.firmwareVersion) == TextOf(b.firmwareVersion)
    ensures a.uptimeMs == b.uptimeMs && a.measurementAgeMs == b.measurementAgeMs
    ensures a.measurement.valid == b.measurement.valid
    ensures a.measurement.source == b.measurement.source && a.measurement.status == b.measurement.status
    ensures a.protection.state == b.protection.state
    ensures a.protection.fault.activeFault == b.protection.fault.activeFault
    ensures a.protection.fault.active == b.protection.fault.active
    ensures a.protection.fault.acknowledged == b.protection.fault.acknowledged
    ensures a.protection.lastResetResult == b.protection.lastResetResult
    ensures a.relayCommandedOn == b.relayCommandedOn && a.relayOutputEnabled == b.relayOutputEnabled
  {
    assert Fields(a) == Fields(b) by {
      hide Fields, AllLegible, Render, ReadObject;
      TelemetryRoundTrip(a, "");
      TelemetryRoundTrip(b, "");
    }
    SectionsEqual(a, b);
    IdentityDetermines(a, b);
    ProtectionDetermines(a, b);
  }

  lemma SectionsEqual(a: TelemetryInput, b: TelemetryInput)
    requires Fields(a) == Fields(b)
    ensures IdentityFields(a) == IdentityFields(b) && ProtectionFields(a) == ProtectionFields(b)
  {
    assert |IdentityFields(a)| == |IdentityFields(b)| == 8 && |ProtectionFields(a)| == |ProtectionFields(b)| == 7
        && |ReadingFields(a.measurement)| == |ReadingFields(b.measurement)| == 6;
    hide IdentityFields, ReadingFields, ProtectionFields;
    assert Fields(a)[1..9] == IdentityFields(a) && Fields(b)[1..9] == IdentityFields(b);
    assert Fields(a)[15..] == ProtectionFields(a) && Fields(b)[15..] == ProtectionFields(b);
  }

  lemma IdentityDetermines(a: TelemetryInput, b: TelemetryInput)
    requires IdentityFields(a) == IdentityFields(b)
    ensures TextOf(a.deviceId) == TextOf(b.deviceId) && TextOf(a.firmwareVersion) == TextOf(b.firmwareVersion)
    ensures a.uptimeMs == b.uptimeMs && a.measurementAgeMs == b.measurementAgeMs
    ensures a.measurement.valid == b.measurement.valid
    ensures a.measurement.source == b.measurement.source && a.measurement.status == b.measurement.status
  {
    DigitsReadBack(a.uptimeMs);
    DigitsReadBack(b.uptimeMs);
    DigitsReadBack(a.measurementAgeMs);
    DigitsReadBack(b.measurementAgeMs);
    SourceNameInjective(a.measurement.source, b.measurement.source);
    StatusNameInjective(a.measurement.status, b.measurement.status);
    hide Digits, ToNat, SourceName, StatusName, TextOf;
    var x, y := IdentityFields(a), IdentityFields(b);
    assert x[0] == y[0] && x[1] == y[1] && x[2] == y[2] && x[4] == y[4] && x[5] == y[5] && x[6] == y[6] && x[7] == y[7];
  }

  lemma ProtectionDetermines(a: TelemetryInput, b: TelemetryInput)
    requires ProtectionFields(a) == ProtectionFields(b)
    ensures a.protection.state == b.protection.state
    ensures a.protection.fault.activeFault == b.protection.fault.activeFault
    ensures a.protection.fault.active == b.protection.fault.active
    ensures a.protection.fault.acknowledged == b.protection.fault.acknowledged
    ensures a.protection.lastResetResult == b.protection.lastResetResult
    ensures a.relayCommandedOn == b.relayCommandedOn && a.relayOutputEnabled == b.relayOutputEnabled
  {
    var p, q := a.protection, b.protection;
    StateNameInjective(p.state, q.state);
    FaultNameInjective(p.fault.activeFault, q.fault.activeFault);
    ResetNameInjective(p.lastResetResult, q.lastResetResult);
    hide StateName, FaultName, ResetName;
    var x, y := ProtectionFields(a), ProtectionFields(b);
    assert x[0] == y[0] && x[1] == y[1] && x[2] == y[2] && x[3] == y[3] && x[4] == y[4] && x[5] == y[5] && x[6] == y[6];
  }

  lemma SourceNameInjective(a: Source, b: Source)
    ensures SourceName(a) == SourceName(b) ==> a == b
  {
  }

  lemma StatusNameInjective(a: Status, b: Status)
    ensures StatusName(a) == StatusName(b) ==> a == b
  {
  }

  lemma StateNameInjective(a: SystemState, b: SystemState)
    ensures StateName(a) == StateName(b) ==> a == b
  {
  }

  lemma FaultNameInjective(a: FaultCode, b: FaultCode)
    ensures FaultName(a) == FaultName(b) ==> a == b
  {
  }

  lemma ResetNameInjective(a: ResetResult, b: ResetResult)
    ensures ResetName(a) == ResetName(b) ==> a == b
  {
  }
}
