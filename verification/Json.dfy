/**
 A flat JSON object as text: how the telemetry writer renders it, and a reader after RFC 8259 (section 2 white
 space, section 4 objects, section 6 numbers, section 7 strings) that accepts any text of that shape,
 not only rendered ones.
 */
module Json {
  import opened Options
  import opened Decimal

  datatype Value = Str(s: string) | Bool(b: bool) | Num(token: string) | Null

  datatype Field = Field(key: string, value: Value)

  // ---- Rendering ----

  function HexDigit(n: nat): char
    requires n < 16
  {
    "0123456789abcdef"[n]
  }

  function Escape(c: char): string {
    if c == '"' || c == '\\' then ['\\', c]
    else if c as int < 0x20 then "\\u00" + [HexDigit(c as int / 16), HexDigit(c as int % 16)]
    else [c]
  }

  function EscapeAll(s: string): string {
    if s == "" then "" else Escape(s[0]) + EscapeAll(s[1..])
  }

  function Quote(s: string): string {
    "\"" + EscapeAll(s) + "\""
  }

  function RenderValue(v: Value): string {
    match v
    case Str(s) => Quote(s)
    case Bool(b) => if b then "true" else "false"
    case Num(token) => token
    case Null => "null"
  }

  function RenderField(f: Field): string {
    Quote(f.key) + ":" + RenderValue(f.value)
  }

  function RenderFields(fs: seq<Field>): string {
    if fs == [] then ""
    else if |fs| == 1 then RenderField(fs[0])
    else RenderField(fs[0]) + "," + RenderFields(fs[1..])
  }

  function RenderObject(fs: seq<Field>): string {
    "{" + RenderFields(fs) + "}"
  }

  lemma {:induction false} EscapeAllConcat(a: string, b: string)
    ensures EscapeAll(a + b) == EscapeAll(a) + EscapeAll(b)
    decreases |a|
  {
    hide Escape;
    if a == "" {
      assert a + b == b;
    } else {
      EscapeAllConcat(a[1..], b);
      assert (a + b)[1..] == a[1..] + b && (a + b)[0] == a[0];
    }
  }

  /** The writer's order: each field after the first is preceded by a comma. */
  lemma {:induction false} RenderFieldsAppend(fs: seq<Field>, f: Field)
    ensures RenderFields(fs + [f]) == RenderFields(fs) + (if fs == [] then "" else ",") + RenderField(f)
  {
    hide RenderField;
    if |fs| <= 1 {
      assert |fs| == 1 ==> (fs + [f])[1..] == [f];
    } else {
      RenderFieldsAppend(fs[1..], f);
      assert (fs + [f])[1..] == fs[1..] + [f];
    }
  }

  // ---- Reading ----

  predicate IsSpace(c: char) {
    c == ' ' || c == '\t' || c == '\n' || c == '\r'
  }

  function SkipSpace(t: string): (r: string)
    ensures |r| <= |t|
  {
    if t != "" && IsSpace(t[0]) then SkipSpace(t[1..]) else t
  }

  function HexValue(c: char): Option<nat> {
    if '0' <= c <= '9' then Some(c as int - '0' as int)
    else if 'a' <= c <= 'f' then Some(c as int - 'a' as int + 10)
    else if 'A' <= c <= 'F' then Some(c as int - 'A' as int + 10)
    else None
  }

  /** The four hexadecimal digits of a \u escape; surrogates are not characters and are refused. */
  function ReadHex(t: string): (r: Option<char>)
    requires |t| >= 4
  {
    var a, b, c, d := HexValue(t[0]), HexValue(t[1]), HexValue(t[2]), HexValue(t[3]);
    if a.None? || b.None? || c.None? || d.None? then None
    else
      var code := 4096 * a.value + 256 * b.value + 16 * c.value + d.value;
      if code < 0xD800 || (0xE000 <= code < 0x10000) then Some(code as char) else None
  }

  /** What a two-character escape stands for. */
  function ShortEscape(c: char): Option<char> {
    match c
    case '"' => Some('"')
    case '\\' => Some('\\')
    case '/' => Some('/')
    case 'b' => Some(8 as char)
    case 'f' => Some(12 as char)
    case 'n' => Some('\n')
    case 'r' => Some('\r')
    case 't' => Some('\t')
    case _ => None
  }

  /** The first character of a string's body and the text after it; None at a quote or malformed text. */
  function ReadChar(t: string): (r: Option<(char, string)>)
    ensures r.Some? ==> |r.value.1| < |t|
  {
    if t == "" || t[0] == '"' || t[0] as int < 0x20 then None
    else if t[0] != '\\' then Some((t[0], t[1..]))
    else if |t| < 2 then None
    else if t[1] == 'u' then
      if |t| < 6 then None
      else
        var c := ReadHex(t[2..6]);
        if c.None? then None else Some((c.value, t[6..]))
    else
      var c := ShortEscape(t[1]);
      if c.None? then None else Some((c.value, t[2..]))
  }

  /** The body of a string up to its closing quote, and the text after that. */
  function ReadBody(t: string): (r: Option<(string, string)>)
    ensures r.Some? ==> |r.value.1| < |t|
    decreases |t|
  {
    if t != "" && t[0] == '"' then Some(("", t[1..]))
    else
      var c := ReadChar(t);
      if c.None? then None
      else
        var rest := ReadBody(c.value.1);
        if rest.None? then None else Some(([c.value.0] + rest.value.0, rest.value.1))
  }

  function ReadString(t: string): (r: Option<(string, string)>)
    ensures r.Some? ==> |r.value.1| < |t|
  {
    if t != "" && t[0] == '"' then ReadBody(t[1..]) else None
  }

  predicate IsNumberChar(c: char) {
    IsDigit(c) || c == '-' || c == '+' || c == '.' || c == 'e' || c == 'E'
  }

  function NumberLength(t: string): (n: nat)
    ensures n <= |t|
  {
    if t == "" || !IsNumberChar(t[0]) then 0 else 1 + NumberLength(t[1..])
  }

  function ReadValue(t: string): (r: Option<(Value, string)>)
    ensures r.Some? ==> |r.value.1| < |t|
  {
    if t == "" then None
    else if t[0] == '"' then
      var s := ReadString(t);
      if s.None? then None else Some((Str(s.value.0), s.value.1))
    else if "true" <= t then Some((Bool(true), t[4..]))
    else if "false" <= t then Some((Bool(false), t[5..]))
    else if "null" <= t then Some((Null, t[4..]))
    else ReadNumber(t)
  }

  function ReadNumber(t: string): (r: Option<(Value, string)>)
    ensures r.Some? ==> |r.value.1| < |t|
  {
    var n := NumberLength(t);
    if n > 0 && IsNumber(t[..n]) then Some((Num(t[..n]), t[n..])) else None
  }

  /** One member: a string, a colon, a value. */
  function ReadField(t: string): (r: Option<(Field, string)>)
    ensures r.Some? ==> |r.value.1| < |t|
  {
    var k := ReadString(SkipSpace(t));
    if k.None? then None
    else
      var u := SkipSpace(k.value.1);
      if u == "" || u[0] != ':' then None
      else
        var v := ReadValue(SkipSpace(u[1..]));
        if v.None? then None else Some((Field(k.value.0, v.value.0), SkipSpace(v.value.1)))
  }

  /** At least one member, separated by commas, up to and including the closing brace. */
  function ReadFields(t: string): (r: Option<(seq<Field>, string)>)
    decreases |t|
  {
    var f := ReadField(t);
    if f.None? then None
    else
      var u := f.value.1;
      if u == "" then None
      else if u[0] == '}' then Some(([f.value.0], u[1..]))
      else if u[0] != ',' then None
      else
        var rest := ReadFields(u[1..]);
        if rest.None? then None else Some(([f.value.0] + rest.value.0, rest.value.1))
  }

  /** An object at the head of the text, and the text that follows it. */
  function ReadObject(t: string): Option<(seq<Field>, string)> {
    var u := SkipSpace(t);
    if u == "" || u[0] != '{' then None
    else
      var v := SkipSpace(u[1..]);
      if v != "" && v[0] == '}' then Some(([], v[1..])) else ReadFields(v)
  }

  // ---- Round trip ----

  lemma ReadEscaped(c: char, rest: string)
    ensures ReadChar(Escape(c) + rest) == Some((c, rest))
    ensures Escape(c)[0] != '"'
  {
    var t := Escape(c) + rest;
    if c == '"' || c == '\\' {
      assert t[2..] == rest;
    } else if c as int < 0x20 {
      var hi, lo := c as int / 16, c as int % 16;
      HexRoundTrip(hi);
      HexRoundTrip(lo);
      assert t[2..6] == ['0', '0', HexDigit(hi), HexDigit(lo)];
      assert t[6..] == rest;
    } else {
      assert t[1..] == rest;
    }
  }

  /** Only what the grammar forbids is escaped, a control character as exactly four lower-case hexadecimal digits. */
  lemma EscapeOnlyForbidden(c: char)
    ensures Escape(c) == [c] <==> c != '"' && c != '\\' && c as int >= 0x20
    ensures c == '"' || c == '\\' ==> Escape(c) == ['\\', c]
    ensures c as int < 0x20 ==>
              && |Escape(c)| == 6 && Escape(c)[..2] == "\\u" && ReadHex(Escape(c)[2..]) == Some(c)
              && forall i :: 2 <= i < 6 ==> !('A' <= Escape(c)[i] <= 'F')
  {
    if c as int < 0x20 {
      var hi, lo := c as int / 16, c as int % 16;
      HexRoundTrip(hi);
      HexRoundTrip(lo);
      assert Escape(c) == ['\\', 'u', '0', '0', HexDigit(hi), HexDigit(lo)];
      assert Escape(c)[2..] == ['0', '0', HexDigit(hi), HexDigit(lo)];
    }
  }

  lemma HexRoundTrip(n: nat)
    requires n < 16
    ensures HexValue(HexDigit(n)) == Some(n) && !('A' <= HexDigit(n) <= 'F')
  {
  }

  /** Any string at all is read back from its quoted form, whatever follows it. */
  lemma {:induction false} StringRoundTrip(s: string, rest: string)
    ensures ReadBody(EscapeAll(s) + "\"" + rest) == Some((s, rest))
    decreases |s|
  {
    hide Escape, ReadChar;
    if s == "" {
      assert (EscapeAll(s) + "\"" + rest)[1..] == rest;
    } else {
      var tail := EscapeAll(s[1..]) + "\"" + rest;
      assert EscapeAll(s) + "\"" + rest == Escape(s[0]) + tail;
      ReadEscaped(s[0], tail);
      StringRoundTrip(s[1..], rest);
      assert s == [s[0]] + s[1..];
    }
  }

  lemma QuoteRoundTrip(s: string, rest: string)
    ensures ReadString(Quote(s) + rest) == Some((s, rest))
    ensures Quote(s)[0] == '"'
  {
    assert (Quote(s) + rest)[1..] == EscapeAll(s) + "\"" + rest;
    StringRoundTrip(s, rest);
  }

  /** A value the grammar allows: a number's token must be one. */
  predicate WellFormed(v: Value) {
    v.Num? ==> IsNumber(v.token) && NumberLength(v.token) == |v.token|
  }

  /** The text goes on with a character that ends a member. */
  predicate EndsMember(rest: string) {
    rest != "" && (rest[0] == ',' || rest[0] == '}')
  }

  lemma NumberLengthHead(t: string)
    requires t != ""
    ensures NumberLength(t) == if IsNumberChar(t[0]) then 1 + NumberLength(t[1..]) else 0
  {
  }

  lemma {:induction false} NumberLengthOf(token: string, rest: string)
    requires NumberLength(token) == |token| && EndsMember(rest)
    ensures NumberLength(token + rest) == |token|
    decreases |token|
  {
    var t := token + rest;
    assert rest != "" && !IsNumberChar(rest[0]);
    hide NumberLength, IsNumberChar, EndsMember;
    NumberLengthHead(t);
    if token == "" {
      assert t == rest;
    } else {
      NumberLengthHead(token);
      assert t[0] == token[0] && t[1..] == token[1..] + rest;
      NumberLengthOf(token[1..], rest);
    }
  }

  lemma NumberNotEmpty(token: string)
    requires IsNumber(token)
    ensures token != ""
  {
  }

  lemma ValueRoundTrip(v: Value, rest: string)
    requires WellFormed(v) && EndsMember(rest)
    ensures ReadValue(RenderValue(v) + rest) == Some((v, rest))
    ensures RenderValue(v) != "" && !IsSpace(RenderValue(v)[0])
  {
    var t := RenderValue(v) + rest;
    match v
    case Str(s) => QuoteRoundTrip(s, rest);
    case Bool(b) =>
      assert b ==> "true" <= t && t[4..] == rest;
      assert !b ==> "false" <= t && t[5..] == rest && t[0] == 'f';
    case Null =>
      assert "null" <= t && t[4..] == rest && t[0] == 'n';
    case Num(token) =>
      NumberNotEmpty(token);
      NumberRead(token, rest);
  }

  /** A number token is read up to its end, and accepted if and only if it is grammatical. */
  lemma NumberRead(token: string, rest: string)
    requires token != "" && NumberLength(token) == |token| && EndsMember(rest)
    ensures ReadValue(token + rest) == if IsNumber(token) then Some((Num(token), rest)) else None
    ensures !IsSpace(token[0])
  {
    var t := token + rest;
    hide IsNumber, NumberLength, ReadValue, IsNumberChar, IsSpace;
    NumberCharFirst(token);
    NumberLengthOf(token, rest);
    assert t[0] == token[0] && t[..|token|] == token && t[|token|..] == rest;
    NumberDispatch(t);
  }

  lemma NumberDispatch(t: string)
    requires t != "" && IsNumberChar(t[0])
    ensures ReadValue(t) == ReadNumber(t) && !IsSpace(t[0])
  {
    hide ReadNumber, ReadString;
  }

  lemma NumberCharFirst(token: string)
    requires token != "" && NumberLength(token) == |token|
    ensures IsNumberChar(token[0])
  {
  }

  lemma FieldRoundTrip(f: Field, rest: string)
    requires WellFormed(f.value) && EndsMember(rest)
    ensures ReadField(RenderField(f) + rest) == Some((f, rest))
    ensures RenderField(f)[0] == '"'
  {
    hide ReadString, ReadValue, RenderValue, Quote, WellFormed;
    var tail := ":" + RenderValue(f.value) + rest;
    assert RenderField(f) + rest == Quote(f.key) + tail;
    QuoteRoundTrip(f.key, tail);
    ValueRoundTrip(f.value, rest);
    assert tail[1..] == RenderValue(f.value) + rest;
  }

  lemma {:induction false} FieldsRoundTrip(fs: seq<Field>, rest: string)
    requires fs != [] && forall i :: 0 <= i < |fs| ==> WellFormed(fs[i].value)
    ensures ReadFields(RenderFields(fs) + "}" + rest) == Some((fs, rest))
    ensures RenderFields(fs) != "" && RenderFields(fs)[0] == '"'
    decreases |fs|
  {
    hide ReadField, RenderField, WellFormed;
    assert fs == [fs[0]] + fs[1..];
    if |fs| == 1 {
      FieldRoundTrip(fs[0], "}" + rest);
      assert RenderFields(fs) + "}" + rest == RenderField(fs[0]) + ("}" + rest);
      assert ("}" + rest)[1..] == rest && fs == [fs[0]];
    } else {
      var more := RenderFields(fs[1..]) + "}" + rest;
      FieldRoundTrip(fs[0], "," + more);
      assert RenderFields(fs) + "}" + rest == RenderField(fs[0]) + ("," + more);
      assert ("," + more)[1..] == more;
      hide RenderFields;
      FieldsRoundTrip(fs[1..], rest);
    }
  }

  lemma RenderNothing()
    ensures RenderFields([]) == ""
  {
  }

  /**
   The reader recovers every field of every rendered object, in order, and stops right after it whatever text
   follows: no string content can add, drop, merge or reorder fields.
   */
  lemma ObjectRoundTrip(fs: seq<Field>, rest: string)
    requires forall i :: 0 <= i < |fs| ==> WellFormed(fs[i].value)
    ensures ReadObject(RenderObject(fs) + rest) == Some((fs, rest))
  {
    hide ReadFields, WellFormed, RenderFields;
    assert RenderFields([]) == "" by { RenderNothing(); }
    var t := RenderObject(fs) + rest;
    assert t[1..] == RenderFields(fs) + "}" + rest;
    if fs == [] {
      assert t[1..][1..] == rest;
    } else {
      FieldsRoundTrip(fs, rest);
    }
  }

  // ---- Refusal ----

  /** A number token that breaks the grammar although all its characters belong to numbers. */
  predicate Illegible(v: Value) {
    v.Num? && v.token != "" && NumberLength(v.token) == |v.token| && !IsNumber(v.token)
  }

  lemma FieldRefused(f: Field, rest: string)
    requires Illegible(f.value) && EndsMember(rest)
    ensures ReadField(RenderField(f) + rest) == None
    ensures RenderField(f) != "" && RenderField(f)[0] == '"'
  {
    hide ReadString, ReadValue, Quote, IsNumber, NumberLength;
    var token := f.value.token;
    var tail := ":" + token + rest;
    assert RenderField(f) + rest == Quote(f.key) + tail;
    QuoteRoundTrip(f.key, tail);
    NumberRead(token, rest);
    assert tail[1..] == token + rest;
  }

  lemma FirstRefused(f: Field, more: string)
    requires Illegible(f.value) && EndsMember(more)
    ensures ReadFields(RenderField(f) + more) == None
  {
    FieldRefused(f, more);
    hide ReadField, RenderField, Illegible;
  }

  lemma LaterRefused(f: Field, others: string)
    requires WellFormed(f.value) && ReadFields(others) == None
    ensures ReadFields(RenderField(f) + ("," + others)) == None
  {
    FieldRoundTrip(f, "," + others);
    hide ReadField, RenderField, WellFormed;
    assert ("," + others)[1..] == others;
  }

  lemma FirstCharacter(fs: seq<Field>)
    requires fs != []
    ensures RenderFields(fs) != "" && RenderFields(fs)[0] == '"'
  {
  }

  lemma Reassociate(a: string, b: string, rest: string)
    ensures a + "," + b + "}" + rest == a + ("," + (b + "}" + rest))
  {
    var tail := b + "}" + rest;
    assert a + "," + b + "}" + rest == a + "," + tail;
    assert a + "," + tail == a + ("," + tail);
  }

  /** How the text of the fields starts: with the first, and then a comma and the others or the closing brace. */
  lemma FieldsSplit(fs: seq<Field>, rest: string)
    requires fs != []
    ensures RenderFields(fs) + "}" + rest ==
            RenderField(fs[0]) + if |fs| == 1 then "}" + rest else "," + (RenderFields(fs[1..]) + "}" + rest)
  {
    if |fs| == 1 {
      assert RenderFields(fs) == RenderField(fs[0]);
      hide *;
      assert RenderField(fs[0]) + "}" + rest == RenderField(fs[0]) + ("}" + rest);
    } else {
      assert RenderFields(fs) == RenderField(fs[0]) + "," + RenderFields(fs[1..]);
      hide *;
      Reassociate(RenderField(fs[0]), RenderFields(fs[1..]), rest);
    }
  }

  lemma {:induction false} FieldsRefused(fs: seq<Field>, rest: string, k: nat)
    requires forall i :: 0 <= i < |fs| ==> WellFormed(fs[i].value) || Illegible(fs[i].value)
    requires k < |fs| && Illegible(fs[k].value)
    ensures ReadFields(RenderFields(fs) + "}" + rest) == None
    decreases |fs|
  {
    hide ReadFields, RenderFields, RenderField, WellFormed, Illegible;
    FieldsSplit(fs, rest);
    if Illegible(fs[0].value) {
      FirstRefused(fs[0], if |fs| == 1 then "}" + rest else "," + (RenderFields(fs[1..]) + "}" + rest));
    } else {
      FieldsRefused(fs[1..], rest, k - 1);
      LaterRefused(fs[0], RenderFields(fs[1..]) + "}" + rest);
    }
  }

  /** One such token anywhere makes the reader refuse the whole object. */
  lemma ObjectRefused(fs: seq<Field>, rest: string, k: nat)
    requires forall i :: 0 <= i < |fs| ==> WellFormed(fs[i].value) || Illegible(fs[i].value)
    requires k < |fs| && Illegible(fs[k].value)
    ensures ReadObject(RenderObject(fs) + rest) == None
  {
    hide ReadFields, WellFormed, RenderFields, Illegible;
    assert (RenderObject(fs) + rest)[1..] == RenderFields(fs) + "}" + rest;
    FieldsRefused(fs, rest, k);
    FirstCharacter(fs);
  }
}
