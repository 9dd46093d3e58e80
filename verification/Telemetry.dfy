/**
 The telemetry object and the bounded in-place writer that serialises it
 (lib/energy_core/src/telemetry_json.cpp). Characters stand for the bytes of C strings.
 */
module Telemetry {
  import opened Options
  import opened Words
  import opened Floats
  import opened Measurements
  import opened ProtectionModel
  import opened Decimal
  import opened Json

  const TELEMETRY_SCHEMA_VERSION: Word := 2

  predicate NoNul(s: string) {
    '\0' !in s
  }

  /** A const char* that may be null, and what follows it up to its NUL. */
  type CString = s: Option<string> | s.Some? ==> NoNul(s.value) witness None

  datatype TelemetryInput = TelemetryInput(
    deviceId: CString,
    firmwareVersion: CString,
    measurement: Measurement,
    protection: Snapshot,
    uptimeMs: Word,
    measurementAgeMs: Word,
    relayCommandedOn: bool,
    relayOutputEnabled: bool)

  /** Characters that need no escape, as in every name the firmware publishes. */
  predicate PlainChar(c: char) {
    'a' <= c <= 'z' || 'A' <= c <= 'Z' || '0' <= c <= '9' || c == '_' || c == '-' || c == '.'
  }

  predicate Plain(s: string) {
    forall c :: c in s ==> PlainChar(c)
  }

  function SourceName(s: Source): (name: string)
    ensures Plain(name) && NoNul(name) && |name| <= 10
  {
    match s
    case PZEM => "PZEM"
    case SIMULATION => "SIMULATION"
  }

  function StatusName(s: Status): (name: string)
    ensures Plain(name) && NoNul(name) && |name| <= 15
  {
    match s
    case OK => "OK"
    case NOT_INITIALIZED => "NOT_INITIALIZED"
    case SENSOR_ERROR => "SENSOR_ERROR"
    case OUT_OF_RANGE => "OUT_OF_RANGE"
    case INCONSISTENT => "INCONSISTENT"
  }

  function StateName(s: SystemState): (name: string)
    ensures Plain(name) && NoNul(name) && |name| <= 7
  {
    match s
    case INIT => "INIT"
    case NORMAL => "NORMAL"
    case WARNING => "WARNING"
    case FAULT => "FAULT"
  }

  function FaultName(f: FaultCode): (name: string)
    ensures Plain(name) && NoNul(name) && |name| <= 19
  {
    match f
    case NO_FAULT => "NONE"
    case SENSOR_INVALID => "SENSOR_INVALID"
    case OVERPOWER => "OVERPOWER"
    case SENSOR_STALE => "SENSOR_STALE"
    case PROTECTION_INTERNAL => "PROTECTION_INTERNAL"
  }

  function ResetName(r: ResetResult): (name: string)
    ensures Plain(name) && NoNul(name) && |name| <= 28
  {
    match r
    case NOT_REQUESTED => "NONE"
    case ACCEPTED => "ACCEPTED"
    case REJECTED_NO_ACTIVE_FAULT => "REJECTED_NO_ACTIVE_FAULT"
    case REJECTED_NO_MEASUREMENT => "REJECTED_NO_MEASUREMENT"
    case REJECTED_STALE_MEASUREMENT => "REJECTED_STALE_MEASUREMENT"
    case REJECTED_INVALID_MEASUREMENT => "REJECTED_INVALID_MEASUREMENT"
    case REJECTED_UNSAFE_CONDITION => "REJECTED_UNSAFE_CONDITION"
    case REJECTED_BUSY => "REJECTED_BUSY"
  }

  // ---- The object, unbounded ----

  function TextOf(s: CString): string {
    if s.Some? then s.value else ""
  }

  function StrOf(s: CString): Value {
    Str(TextOf(s))
  }

  function U32Of(v: Word): Value {
    Num(Digits(v))
  }

  /** A float with d decimals, through the writer's 32-byte buffer; null unless it is finite. */
  function FloatOf(v: Float, d: nat): Value {
    if IsFinite(v) then Num(Clipped(FixedText(v.v, d))) else Null
  }

  function IdentityFields(input: TelemetryInput): seq<Field> {
    var m := input.measurement;
    [ Field("device_id", StrOf(input.deviceId)),
      Field("firmware_version", StrOf(input.firmwareVersion)),
      Field("source", Str(SourceName(m.source))),
      Field("simulated", Bool(m.source == SIMULATION)),
      Field("uptime_ms", U32Of(input.uptimeMs)),
      Field("valid", Bool(m.valid)),
      Field("measurement_status", Str(StatusName(m.status))),
      Field("measurement_age_ms", U32Of(input.measurementAgeMs)) ]
  }

  function ReadingFields(m: Measurement): seq<Field> {
    [ Field("voltage", FloatOf(m.voltage, 2)),
      Field("current", FloatOf(m.current, 3)),
      Field("power", FloatOf(m.power, 2)),
      Field("energy", FloatOf(m.energy, 3)),
      Field("apparent_power", FloatOf(m.apparentPower, 2)),
      Field("power_factor", FloatOf(m.powerFactor, 3)) ]
  }

  function ProtectionFields(input: TelemetryInput): seq<Field> {
    var p := input.protection;
    [ Field("state", Str(StateName(p.state))),
      Field("fault", Str(FaultName(p.fault.activeFault))),
      Field("fault_active", Bool(p.fault.active)),
      Field("fault_acknowledged", Bool(p.fault.acknowledged)),
      Field("last_reset_result", Str(ResetName(p.lastResetResult))),
      Field("relay_commanded_on", Bool(input.relayCommandedOn)),
      Field("relay_output_enabled", Bool(input.relayOutputEnabled)) ]
  }

  const SCHEMA_FIELD := Field("schema_version", U32Of(TELEMETRY_SCHEMA_VERSION))

  function Fields(input: TelemetryInput): seq<Field> {
    [SCHEMA_FIELD] + IdentityFields(input) + ReadingFields(input.measurement) + ProtectionFields(input)
  }

  function Render(input: TelemetryInput): string {
    RenderObject(Fields(input))
  }

  // ---- The writer ----

  /**
   Bounded appender over a caller's buffer. `text` is everything it was ever asked to append. `ok` stays true exactly as
   long as that and its NUL fit, and while it does the buffer holds exactly that; nothing past it is touched.
   */
  class Writer {
    const buf: array<char>
    const size: nat
    var len: nat
    var ok: bool
    ghost var text: string
    ghost const before: seq<char>

    ghost predicate Valid()
      reads this, buf
    {
      && 1 <= size <= buf.Length == |before|
      && len < size
      && (ok <==> |text| + 1 <= size)
      && (ok ==> len == |text| && buf[..len] == text && buf[len] == '\0')
      && (forall i :: len < i < buf.Length ==> buf[i] == before[i])
    }

    constructor (buf: array<char>, size: nat, ghost before: seq<char>)
      requires 1 <= size <= buf.Length == |before| && buf[0] == '\0'
      requires forall i :: 0 < i < buf.Length ==> buf[i] == before[i]
      ensures Valid() && text == "" && this.buf == buf && this.size == size && this.before == before
    {
      this.buf := buf;
      this.size := size;
      len := 0;
      ok := true;
      text := "";
      this.before := before;
    }

    method Raw(s: string)
      requires Valid() && '\0' !in s
      modifies this, buf
      ensures Valid() && text == old(text) + s
    {
      var n := |s|;
      text := text + s;
      if !ok || len + n + 1 > size {
        ok := false;
        return;
      }
      forall i | 0 <= i < n {
        buf[len + i] := s[i];
      }
      buf[len + n] := '\0';
      len := len + n;
    }

    method Ch(c: char)
      requires Valid() && c != '\0'
      modifies this, buf
      ensures Valid() && text == old(text) + [c]
    {
      Raw([c]);
    }

    /** One character of a string, escaped where the grammar asks for it. */
    method Escaped(c: char)
      requires Valid() && c != '\0'
      modifies this, buf
      ensures Valid() && text == old(text) + Escape(c)
    {
      hide Valid;
      if c == '"' || c == '\\' {
        Ch('\\');
        Ch(c);
        assert text == old(text) + Escape(c);
      } else if c as int < 0x20 {
        Raw("\\u00" + [HexDigit(c as int / 16), HexDigit(c as int % 16)]);
      } else {
        Ch(c);
      }
    }

    method Str(s: CString)
      requires Valid()
      modifies this, buf
      ensures Valid() && text == old(text) + Quote(TextOf(s))
    {
      hide Valid, EscapeAll, Escape;
      var t := if s.Some? then s.value else "";
      Ch('"');
      assert EscapeAll(t[..0]) == "" by { EscapeNothing(t); }
      for i := 0 to |t|
        invariant Valid() && text == old(text) + "\"" + EscapeAll(t[..i])
      {
        Escaped(t[i]);
        EscapeOneMore(t, i);
      }
      assert t[..|t|] == t;
      Ch('"');
      assert text == old(text) + ("\"" + EscapeAll(t) + "\"");
    }

    method Key(k: string, first: bool)
      requires Valid() && NoNul(k)
      modifies this, buf
      ensures Valid() && text == old(text) + (if first then "" else ",") + Quote(k) + ":"
    {
      if !first {
        Ch(',');
      }
      Str(Some(k));
      Ch(':');
    }

    method PutFloat(v: Float, d: nat)
      requires Valid()
      modifies this, buf
      ensures Valid() && text == old(text) + RenderValue(FloatOf(v, d))
    {
      if !IsFinite(v) {
        Raw("null");
        return;
      }
      FixedTextHasNoNul(v.v, d);
      Raw(Clipped(FixedText(v.v, d)));
    }

    method PutU32(v: Word)
      requires Valid()
      modifies this, buf
      ensures Valid() && text == old(text) + Digits(v)
    {
      Raw(Digits(v));
    }

    method Boolean(v: bool)
      requires Valid()
      modifies this, buf
      ensures Valid() && text == old(text) + RenderValue(Bool(v))
    {
      Raw(if v then "true" else "false");
    }

    // A key and its value. fs is what was written so far, and is not empty: the first key takes no comma.

    method StringField(k: string, s: CString, ghost fs: seq<Field>) returns (ghost all: seq<Field>)
      requires Valid() && NoNul(k) && fs != [] && text == "{" + RenderFields(fs)
      modifies this, buf
      ensures Valid() && all == fs + [Field(k, StrOf(s))] && text == "{" + RenderFields(all)
    {
      hide Valid, RenderFields, Quote;
      Key(k, false);
      Str(s);
      FieldWritten(fs, Field(k, StrOf(s)));
      all := fs + [Field(k, StrOf(s))];
    }

    method FloatField(k: string, v: Float, d: nat, ghost fs: seq<Field>) returns (ghost all: seq<Field>)
      requires Valid() && NoNul(k) && fs != [] && text == "{" + RenderFields(fs)
      modifies this, buf
      ensures Valid() && all == fs + [Field(k, FloatOf(v, d))] && text == "{" + RenderFields(all)
    {
      hide Valid, RenderFields, Quote, FloatOf, RenderValue;
      Key(k, false);
      PutFloat(v, d);
      FieldWritten(fs, Field(k, FloatOf(v, d)));
      all := fs + [Field(k, FloatOf(v, d))];
    }

    method U32Field(k: string, v: Word, ghost fs: seq<Field>) returns (ghost all: seq<Field>)
      requires Valid() && NoNul(k) && fs != [] && text == "{" + RenderFields(fs)
      modifies this, buf
      ensures Valid() && all == fs + [Field(k, U32Of(v))] && text == "{" + RenderFields(all)
    {
      hide Valid, RenderFields, Quote;
      Key(k, false);
      PutU32(v);
      FieldWritten(fs, Field(k, U32Of(v)));
      all := fs + [Field(k, U32Of(v))];
    }

    method BoolField(k: string, b: bool, ghost fs: seq<Field>) returns (ghost all: seq<Field>)
      requires Valid() && NoNul(k) && fs != [] && text == "{" + RenderFields(fs)
      modifies this, buf
      ensures Valid() && all == fs + [Field(k, Bool(b))] && text == "{" + RenderFields(all)
    {
      hide Valid, RenderFields, Quote, RenderValue;
      Key(k, false);
      Boolean(b);
      FieldWritten(fs, Field(k, Bool(b)));
      all := fs + [Field(k, Bool(b))];
    }
  }

  lemma FieldWritten(fs: seq<Field>, f: Field)
    requires fs != []
    ensures "{" + RenderFields(fs) + "," + Quote(f.key) + ":" + RenderValue(f.value) == "{" + RenderFields(fs + [f])
  {
    RenderFieldsAppend(fs, f);
  }

  lemma EscapeNothing(t: string)
    ensures EscapeAll(t[..0]) == ""
  {
  }

  lemma EscapeOneMore(t: string, i: nat)
    requires i < |t|
    ensures EscapeAll(t[..i + 1]) == EscapeAll(t[..i]) + Escape(t[i])
  {
    assert t[..i + 1] == t[..i] + [t[i]];
    EscapeAllConcat(t[..i], [t[i]]);
    assert [t[i]][1..] == "";
    assert EscapeAll([t[i]]) == Escape(t[i]) + EscapeAll("");
  }

  lemma FixedTextHasNoNul(v: real, d: nat)
    ensures '\0' !in FixedText(v, d) && '\0' !in Clipped(FixedText(v, d))
  {
    assert AllDigits(FractionText(v, d));
  }

  /**
   For every input, buffer and size: the text is written with its NUL if and only if it fits, and then nothing past the
   NUL changes; otherwise the result is -1 and, unless there is no room at all, the empty string.
   */
  method BuildTelemetryJson(out: array?<char>, outSize: nat, input: TelemetryInput) returns (n: int)
    requires out != null ==> outSize <= out.Length
    modifies out
    ensures out == null || outSize == 0 ==> n == -1 && (out != null ==> out[..] == old(out[..]))
    ensures out != null && outSize > 0 ==>
              var text := Render(input);
              if |text| + 1 <= outSize then
                && n == |text| && out[..n] == text && out[n] == '\0'
                && forall i :: n < i < out.Length ==> out[i] == old(out[i])
              else n == -1 && out[0] == '\0'
  {
    if out == null || outSize == 0 {
      return -1;
    }
    ghost var before := out[..];
    out[0] := '\0';
    var w := new Writer(out, outSize, before);
    hide Render;
    WriteObject(w, input);
    if !w.ok {
      out[0] := '\0';
      return -1;
    }
    n := w.len;
  }

  method WriteObject(w: Writer, input: TelemetryInput)
    requires w.Valid() && w.text == ""
    modifies w, w.buf
    ensures w.Valid() && w.text == Render(input)
  {
    hide RenderFields, IdentityFields, ReadingFields, ProtectionFields;
    WriteSchema(w);
    ghost var fs := WriteIdentity(w, input, [SCHEMA_FIELD]);
    fs := WriteReading(w, input.measurement, fs);
    fs := WriteProtection(w, input, fs);
    assert fs == Fields(input);
    w.Ch('}');
  }

  method WriteSchema(w: Writer)
    requires w.Valid() && w.text == ""
    modifies w, w.buf
    ensures w.Valid() && w.text == "{" + RenderFields([SCHEMA_FIELD])
  {
    hide RenderFields, Quote, Digits;
    w.Ch('{');
    assert w.text == "{";
    w.Key("schema_version", true);
    assert w.text == "{" + Quote("schema_version") + ":";
    w.PutU32(TELEMETRY_SCHEMA_VERSION);
    FirstFieldWritten(SCHEMA_FIELD);
  }

  lemma FirstFieldWritten(f: Field)
    ensures "{" + Quote(f.key) + ":" + RenderValue(f.value) == "{" + RenderFields([f])
  {
  }

  lemma IdentityKeysAreCStrings()
    ensures NoNul("device_id") && NoNul("firmware_version") && NoNul("source") && NoNul("simulated")
    ensures NoNul("uptime_ms") && NoNul("valid") && NoNul("measurement_status") && NoNul("measurement_age_ms")
  {
  }

  lemma ProtectionKeysAreCStrings()
    ensures NoNul("state") && NoNul("fault") && NoNul("fault_active") && NoNul("fault_acknowledged")
    ensures NoNul("last_reset_result") && NoNul("relay_commanded_on") && NoNul("relay_output_enabled")
  {
  }

  /** device_id to measurement_age_ms. */
  method WriteIdentity(w: Writer, input: TelemetryInput, ghost fs: seq<Field>) returns (ghost all: seq<Field>)
    requires w.Valid() && fs != [] && w.text == "{" + RenderFields(fs)
    modifies w, w.buf
    ensures w.Valid() && all == fs + IdentityFields(input) && w.text == "{" + RenderFields(all)
  {
    var m := input.measurement;
    IdentityKeysAreCStrings();
    hide RenderFields, SourceName, StatusName, U32Of, Plain, NoNul, Writer.Valid;
    all := w.StringField("device_id", input.deviceId, fs);
    all := w.StringField("firmware_version", input.firmwareVersion, all);
    all := w.StringField("source", Some(SourceName(m.source)), all);
    all := w.BoolField("simulated", m.source == SIMULATION, all);
    all := w.U32Field("uptime_ms", input.uptimeMs, all);
    all := w.BoolField("valid", m.valid, all);
    all := w.StringField("measurement_status", Some(StatusName(m.status)), all);
    all := w.U32Field("measurement_age_ms", input.measurementAgeMs, all);
  }

  /** voltage to power_factor. */
  method WriteReading(w: Writer, m: Measurement, ghost fs: seq<Field>) returns (ghost all: seq<Field>)
    requires w.Valid() && fs != [] && w.text == "{" + RenderFields(fs)
    modifies w, w.buf
    ensures w.Valid() && all == fs + ReadingFields(m) && w.text == "{" + RenderFields(all)
  {
    hide RenderFields, FloatOf, Writer.Valid;
    all := w.FloatField("voltage", m.voltage, 2, fs);
    all := w.FloatField("current", m.current, 3, all);
    all := w.FloatField("power", m.power, 2, all);
    all := w.FloatField("energy", m.energy, 3, all);
    all := w.FloatField("apparent_power", m.apparentPower, 2, all);
    all := w.FloatField("power_factor", m.powerFactor, 3, all);
  }

  /** state to relay_output_enabled. */
  method WriteProtection(w: Writer, input: TelemetryInput, ghost fs: seq<Field>) returns (ghost all: seq<Field>)
    requires w.Valid() && fs != [] && w.text == "{" + RenderFields(fs)
    modifies w, w.buf
    ensures w.Valid() && all == fs + ProtectionFields(input) && w.text == "{" + RenderFields(all)
  {
    var p := input.protection;
    ProtectionKeysAreCStrings();
    hide RenderFields, StateName, FaultName, ResetName, Plain, NoNul, Writer.Valid;
    all := w.StringField("state", Some(StateName(p.state)), fs);
    all := w.StringField("fault", Some(FaultName(p.fault.activeFault)), all);
    all := w.BoolField("fault_active", p.fault.active, all);
    all := w.BoolField("fault_acknowledged", p.fault.acknowledged, all);
    all := w.StringField("last_reset_result", Some(ResetName(p.lastResetResult)), all);
    all := w.BoolField("relay_commanded_on", input.relayCommandedOn, all);
    all := w.BoolField("relay_output_enabled", input.relayOutputEnabled, all);
  }
}
