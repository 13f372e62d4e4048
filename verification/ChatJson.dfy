/**
  The chat server's JSON: a printer for flat objects of strings, which escapes, and a
  hand-written five-state parser.

  Both run in place over positions and are proved against functions on suffixes.  The string
  escapes are those of section 7 of RFC 8259 except \u.
 */
module ChatJson {
  import opened Collections

  type Fields = map<string, string>

  // -------------------------------------------------------------------- the printer

  function EscapeChar(c: char): string {
    if c == '\\' then "\\\\"
    else if c == '"' then "\\\""
    else if c == '\n' then "\\n"
    else if c == '\r' then "\\r"
    else if c == '\t' then "\\t"
    else [c]
  }

  function Escape(value: string): string {
    if value == "" then "" else EscapeChar(value[0]) + Escape(value[1..])
  }

  function Quote(s: string): string { ['"'] + Escape(s) + ['"'] }

  function FieldText(f: (string, string)): string { [','] + Quote(f.0) + [':'] + Quote(f.1) }

  function FieldTexts(fields: seq<(string, string)>): string {
    if fields == [] then "" else FieldText(fields[0]) + FieldTexts(fields[1..])
  }

  function Payload(kind: string, fields: seq<(string, string)>): string {
    ['{'] + Quote("type") + [':'] + Quote(kind) + FieldTexts(fields) + ['}']
  }

  lemma {:induction false} EscapeOneMore(value: string, c: char)
    ensures Escape(value + [c]) == Escape(value) + EscapeChar(c)
  {
    if value == "" {
      assert (value + [c])[1..] == "";
    } else {
      assert (value + [c])[1..] == value[1..] + [c];
      EscapeOneMore(value[1..], c);
    }
  }

  lemma {:induction false} FieldOneMore(fields: seq<(string, string)>, f: (string, string))
    ensures FieldTexts(fields + [f]) == FieldTexts(fields) + FieldText(f)
  {
    if fields == [] {
      assert (fields + [f])[1..] == [];
    } else {
      assert (fields + [f])[1..] == fields[1..] + [f];
      FieldOneMore(fields[1..], f);
    }
  }

  method EscapeJson(value: string) returns (escaped: string)
    ensures escaped == Escape(value)
  {
    escaped := "";
    for i := 0 to |value|
      invariant escaped == Escape(value[..i])
    {
      EscapeOneMore(value[..i], value[i]);
      assert value[..i + 1] == value[..i] + [value[i]];
      escaped := AppendEscaped(escaped, value[i]);
    }
    assert value[..|value|] == value;
  }

  method AppendEscaped(s: string, c: char) returns (t: string)
    ensures t == s + EscapeChar(c)
  {
    match c
    case '\\' => t := s + "\\\\";
    case '"' => t := s + "\\\"";
    case '\n' => t := s + "\\n";
    case '\r' => t := s + "\\r";
    case '\t' => t := s + "\\t";
    case _ => t := s + [c];
  }

  lemma Assoc(a: string, b: string, c: string, d: string)
    ensures a + (b + (c + d)) == a + b + c + d
    ensures (a + b) + c == a + (b + c)
  {
  }

  lemma PlainWord()
    ensures Escape("type") == "type"
  {
    assert "type"[1..] == "ype" && "ype"[1..] == "pe" && "pe"[1..] == "e" && "e"[1..] == "";
  }

  lemma HeadText(kind: string)
    ensures "{\"type\":\"" + Escape(kind) + "\"" == ['{'] + Quote("type") + [':'] + Quote(kind)
  {
    PlainWord();
    var front := ['{'] + Quote("type") + [':'] + ['"'];
    assert "{\"type\":\"" == front;
    assert ['{'] + Quote("type") + [':'] + (['"'] + Escape(kind) + ['"']) == front + Escape(kind) + ['"'];
  }

  method MakePayload(kind: string, fields: seq<(string, string)>) returns (json: string)
    ensures json == Payload(kind, fields)
  {
    json := StartPayload(kind);
    json := AppendFields(json, fields);
    json := json + "}";
  }

  method StartPayload(kind: string) returns (json: string)
    ensures json == ['{'] + Quote("type") + [':'] + Quote(kind)
  {
    json := "{\"type\":\"";
    var t := EscapeJson(kind);
    json := json + t;
    json := json + "\"";
    HeadText(kind);
  }

  lemma FieldsTo(s: string, fields: seq<(string, string)>, i: nat)
    requires i < |fields|
    ensures s + FieldTexts(fields[..i]) + FieldText(fields[i]) == s + FieldTexts(fields[..i + 1])
  {
    FieldOneMore(fields[..i], fields[i]);
    assert fields[..i + 1] == fields[..i] + [fields[i]];
    Assoc(s, FieldTexts(fields[..i]), FieldText(fields[i]), "");
  }

  method AppendFields(s: string, fields: seq<(string, string)>) returns (json: string)
    ensures json == s + FieldTexts(fields)
  {
    json := s;
    for i := 0 to |fields|
      invariant json == s + FieldTexts(fields[..i])
    {
      FieldsTo(s, fields, i);
      json := AppendField(json, fields[i]);
    }
    assert fields[..|fields|] == fields;
  }

  method AppendField(s: string, f: (string, string)) returns (json: string)
    ensures json == s + FieldText(f)
  {
    json := s + ",\"";
    var k := EscapeJson(f.0);
    json := json + k;
    json := json + "\":\"";
    var v := EscapeJson(f.1);
    json := json + v;
    json := json + "\"";
  }

  // --------------------------------------------------------------------- the parser

  datatype State = ObjectStart | KeyOrEnd | Colon | Value | CommaOrEnd

  datatype Outcome = Outcome(ok: bool, fields: Fields)

  /** Result of reading a string literal: its value and the text after it. */
  datatype Scanned = Fail | Done(value: string, rest: string)

  /** `std::isspace` in the C locale. */
  predicate IsSpace(c: char) {
    c == ' ' || c == '\t' || c == '\n' || c == '\U{0B}' || c == '\U{0C}' || c == '\r'
  }

  function DropSpace(s: string): (r: string)
    ensures |r| <= |s|
    ensures r != [] ==> !IsSpace(r[0])
  {
    if s != [] && IsSpace(s[0]) then DropSpace(s[1..]) else s
  }

  function Unescape(c: char): Option<char> {
    if c == '\\' || c == '"' || c == '/' then Some(c)
    else if c == 'b' then Some('\U{08}')
    else if c == 'f' then Some('\U{0C}')
    else if c == 'n' then Some('\n')
    else if c == 'r' then Some('\r')
    else if c == 't' then Some('\t')
    else None
  }

  /** The inside of a string literal, after the opening quote. */
  function Scan(s: string, acc: string): (r: Scanned)
    ensures r.Done? ==> |r.rest| < |s|
    decreases |s|
  {
    if s == [] then Fail
    else if s[0] == '"' then Done(acc, s[1..])
    else if s[0] == '\\' then
      if |s| < 2 then Fail
      else match Unescape(s[1])
        case None => Fail
        case Some(c) => Scan(s[2..], acc + [c])
    else Scan(s[1..], acc + [s[0]])
  }

  function ScanString(s: string): (r: Scanned)
    ensures r.Done? ==> |r.rest| < |s|
  {
    if s == [] || s[0] != '"' then Fail else Scan(s[1..], "")
  }

  function ParseFrom(s: string, state: State, key: string, fields: Fields): Outcome
    decreases |s|
  {
    var r := DropSpace(s);
    if r == [] then Outcome(state.CommaOrEnd?, fields)
    else match state
      case ObjectStart =>
        if r[0] == '{' then ParseFrom(r[1..], KeyOrEnd, key, fields) else Outcome(false, fields)
      case KeyOrEnd =>
        if r[0] == '}' then Outcome(true, fields)
        else (match ScanString(r)
          case Fail => Outcome(false, fields)
          case Done(k, rest) => ParseFrom(rest, Colon, k, fields))
      case Colon =>
        if r[0] == ':' then ParseFrom(r[1..], Value, key, fields) else Outcome(false, fields)
      case Value =>
        (match ScanString(r)
          case Fail => Outcome(false, fields)
          case Done(v, rest) => ParseFrom(rest, CommaOrEnd, key, fields[key := v]))
      case CommaOrEnd =>
        if r[0] == ',' then ParseFrom(r[1..], KeyOrEnd, key, fields)
        else Outcome(r[0] == '}', fields)
  }

  function Parse(payload: string): Outcome { ParseFrom(payload, ObjectStart, "", map[]) }

  method SkipSpace(s: string, start: nat) returns (pos: nat)
    requires start <= |s|
    ensures start <= pos <= |s| && s[pos..] == DropSpace(s[start..])
  {
    pos := start;
    while pos < |s| && IsSpace(s[pos])
      invariant start <= pos <= |s| && DropSpace(s[pos..]) == DropSpace(s[start..])
    {
      assert s[pos..][1..] == s[pos + 1..];
      pos := pos + 1;
    }
  }

  method ParseString(s: string, start: nat) returns (value: string, pos: nat, success: bool)
    requires start <= |s|
    ensures start <= pos <= |s|
    ensures if success then ScanString(s[start..]) == Done(value, s[pos..]) else ScanString(s[start..]).Fail?
  {
    value, pos, success := "", start, false;
    if pos >= |s| || s[pos] != '"' {
      return;
    }
    pos := pos + 1;
    assert s[start..][1..] == s[pos..];
    while pos < |s|
      invariant start < pos <= |s| && !success
      invariant ScanString(s[start..]) == Scan(s[pos..], value)
    {
      var c := s[pos];
      assert s[pos..][1..] == s[pos + 1..];
      pos := pos + 1;
      if c == '"' {
        success := true;
        return;
      }
      if c == '\\' {
        if pos >= |s| {
          return;
        }
        assert s[pos - 1..][2..] == s[pos + 1..];
        var decoded := Unescape(s[pos]);
        pos := pos + 1;
        if decoded.None? {
          return;
        }
        value := value + [decoded.value];
      } else {
        value := value + [c];
      }
    }
  }

  method ParseJsonObject(payload: string) returns (ok: bool, result: Fields)
    ensures Outcome(ok, result) == Parse(payload)
  {
    ok, result := false, map[];
    var state, pos, key := ObjectStart, 0, "";
    while pos < |payload|
      invariant pos <= |payload| && !ok
      invariant Parse(payload) == ParseFrom(payload[pos..], state, key, result)
    {
      pos := SkipSpace(payload, pos);
      if pos >= |payload| {
        break;
      }
      ghost var r := payload[pos..];
      assert r[1..] == payload[pos + 1..];
      match state {
        case ObjectStart =>
          if payload[pos] != '{' {
            return;
          }
          pos, state := pos + 1, KeyOrEnd;
        case KeyOrEnd =>
          if payload[pos] == '}' {
            ok := true;
            return;
          }
          var k, p, success := ParseString(payload, pos);
          if !success {
            return;
          }
          key, pos, state := k, p, Colon;
        case Colon =>
          if payload[pos] != ':' {
            return;
          }
          pos, state := pos + 1, Value;
        case Value =>
          var v, p, success := ParseString(payload, pos);
          if !success {
            return;
          }
          result := result[key := v];
          pos, state := p, CommaOrEnd;
        case CommaOrEnd =>
          if payload[pos] == ',' {
            pos, state := pos + 1, KeyOrEnd;
          } else {
            ok := payload[pos] == '}';
            return;
          }
      }
    }
    assert payload[pos..] == [];
    ok := state == CommaOrEnd;
  }
}
