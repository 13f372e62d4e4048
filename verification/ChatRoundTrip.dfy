/** What the chat server prints, it parses back: every payload is a document with the printed meaning. */
module ChatRoundTrip {
  import opened ChatJson
  import opened ChatGrammar

  function UnitOf(c: char): Unit {
    if c == '\\' then Escaped('\\')
    else if c == '"' then Escaped('"')
    else if c == '\n' then Escaped('n')
    else if c == '\r' then Escaped('r')
    else if c == '\t' then Escaped('t')
    else Plain(c)
  }

  function LiteralOf(s: string): Literal {
    if s == "" then [] else [UnitOf(s[0])] + LiteralOf(s[1..])
  }

  /** Escaping loses nothing: the literal printed for `s` has value `s`. */
  lemma {:induction false} EscapeIsLiteral(s: string)
    ensures LiteralOk(LiteralOf(s)) && LiteralText(LiteralOf(s)) == Escape(s) && LiteralValue(LiteralOf(s)) == s
  {
    if s != "" {
      EscapeIsLiteral(s[1..]);
      EscapeIsUnit(s[0]);
      LiteralCons(UnitOf(s[0]), LiteralOf(s[1..]));
      assert s == [s[0]] + s[1..];
    }
  }

  lemma EscapeIsUnit(c: char)
    ensures UnitOk(UnitOf(c)) && UnitValue(UnitOf(c)) == c && EscapeChar(c) == UnitText(UnitOf(c))
  {
  }

  function MemberOf(key: string, value: string, after: After): Body {
    Member("", LiteralOf(key), "", "", LiteralOf(value), after)
  }

  function AfterOf(fields: seq<(string, string)>): After {
    if fields == [] then Brace("", "")
    else Comma("", MemberOf(fields[0].0, fields[0].1, AfterOf(fields[1..])))
  }

  /** The fields inserted in order. */
  function Inserted(m: Fields, fields: seq<(string, string)>): Fields
    decreases |fields|
  {
    if fields == [] then m else Inserted(m[fields[0].0 := fields[0].1], fields[1..])
  }

  lemma MemberIsPrinted(key: string, value: string, after: After)
    requires AfterOk(after)
    ensures var b := MemberOf(key, value, after);
            BodyOk(b) && BodyText(b) == Quote(key) + [':'] + Quote(value) + AfterText(after)
  {
    EscapeIsLiteral(key);
    EscapeIsLiteral(value);
    var vt := Quote(value) + AfterText(after);
    assert "" + vt == vt && "" + [':'] == [':'];
    assert Quoted(LiteralOf(value), AfterText(after)) == vt;
    assert "" + (Quote(key) + ([':'] + vt)) == Quote(key) + ([':'] + vt);
    Assoc(Quote(key), [':'], Quote(value), AfterText(after));
  }

  lemma MemberIsInserted(key: string, value: string, after: After, m: Fields)
    requires AfterOk(after) && BodyOk(MemberOf(key, value, after))
    ensures BodyFields(MemberOf(key, value, after), m) == AfterFields(after, m[key := value])
  {
    EscapeIsLiteral(key);
    EscapeIsLiteral(value);
  }

  lemma {:induction false} FieldsArePrinted(fields: seq<(string, string)>)
    ensures AfterOk(AfterOf(fields)) && AfterText(AfterOf(fields)) == FieldTexts(fields) + ['}']
  {
    if fields == [] {
      assert "" + ['}'] + "" == "" + ['}'];
    } else {
      var rest, f := AfterOf(fields[1..]), fields[0];
      FieldsArePrinted(fields[1..]);
      MemberIsPrinted(f.0, f.1, rest);
      FieldIsPrinted(f, BodyText(MemberOf(f.0, f.1, rest)), FieldTexts(fields[1..]));
    }
  }

  lemma FieldIsPrinted(f: (string, string), body: string, rest: string)
    requires body == Quote(f.0) + [':'] + Quote(f.1) + (rest + ['}'])
    ensures "" + [','] + body == FieldText(f) + rest + ['}']
  {
    var member := Quote(f.0) + [':'] + Quote(f.1);
    assert "" + [','] == [','];
    Assoc([','], Quote(f.0), [':'], Quote(f.1));
    Assoc([','], member, rest, ['}']);
    Assoc(Quote(f.0), [':'], Quote(f.1), "");
    assert FieldText(f) == [','] + member;
  }

  lemma {:induction false} FieldsAreInserted(fields: seq<(string, string)>, m: Fields)
    requires AfterOk(AfterOf(fields))
    ensures AfterFields(AfterOf(fields), m) == Inserted(m, fields)
    decreases |fields|
  {
    if fields != [] {
      var rest, f := AfterOf(fields[1..]), fields[0];
      MemberIsInserted(f.0, f.1, rest, m);
      FieldsAreInserted(fields[1..], m[f.0 := f.1]);
    }
  }

  /** Parsing what the printer made succeeds and returns exactly the type and the fields, for all strings. */
  lemma RoundTrip(kind: string, fields: seq<(string, string)>)
    ensures Parse(Payload(kind, fields)) == Outcome(true, Inserted(map["type" := kind], fields))
  {
    var after := AfterOf(fields);
    FieldsArePrinted(fields);
    FieldsAreInserted(fields, map["type" := kind]);
    MemberIsPrinted("type", kind, after);
    MemberIsInserted("type", kind, after, map[]);
    var d := Document("", MemberOf("type", kind, after));
    PayloadIsDocument(kind, FieldTexts(fields), BodyText(d.body));
    DocumentIsParsed(d);
  }

  lemma PayloadIsDocument(kind: string, rest: string, body: string)
    requires body == Quote("type") + [':'] + Quote(kind) + (rest + ['}'])
    ensures "" + ['{'] + body == ['{'] + Quote("type") + [':'] + Quote(kind) + rest + ['}']
  {
    var member := Quote("type") + [':'] + Quote(kind);
    assert "" + ['{'] == ['{'];
    Assoc(['{'], member, rest, ['}']);
    Assoc(['{'], Quote("type"), [':'], Quote(kind));
    Assoc(Quote("type"), [':'], Quote(kind), "");
  }

  /** A repeated name keeps its last value. */
  lemma {:induction false} LastFieldWins(m: Fields, fields: seq<(string, string)>, key: string, value: string)
    ensures var r := Inserted(m, fields + [(key, value)]); key in r && r[key] == value
    decreases |fields|
  {
    if fields == [] {
      assert (fields + [(key, value)])[1..] == [];
    } else {
      assert (fields + [(key, value)])[1..] == fields[1..] + [(key, value)];
      LastFieldWins(m[fields[0].0 := fields[0].1], fields[1..], key, value);
    }
  }

  lemma FieldLiteral(key: string, value: string)
    ensures FieldText((key, value)) == ",\"" + Escape(key) + "\":\"" + Escape(value) + "\""
  {
    var k, v := Escape(key), Escape(value);
    assert [','] + (['"'] + k + ['"']) == ",\"" + k + ['"'];
    assert (",\"" + k + ['"']) + [':'] + (['"'] + v + ['"']) == ",\"" + k + "\":\"" + v + "\"";
  }

  lemma InsertBeforeBrace(head: string, fields: string, last: string)
    ensures var before := head + fields + ['}'];
            head + (fields + last) + ['}'] == before[..|before| - 1] + (last + ['}'])
  {
    var before := head + fields + ['}'];
    assert before[..|before| - 1] == head + fields;
  }

  /** The text of a payload without further fields: no blanks anywhere. */
  lemma BarePayload(kind: string)
    ensures Payload(kind, []) == "{\"type\":\"" + Escape(kind) + "\"}"
  {
    HeadText(kind);
    var head := ['{'] + Quote("type") + [':'] + Quote(kind);
    assert head + "" + ['}'] == head + ['}'];
    assert "{\"type\":\"" + Escape(kind) + "\"" + ['}'] == "{\"type\":\"" + Escape(kind) + "\"}";
  }

  /** Each further field goes in front of the closing brace. */
  lemma PayloadGrows(kind: string, fields: seq<(string, string)>, key: string, value: string)
    ensures var before := Payload(kind, fields);
            Payload(kind, fields + [(key, value)])
            == before[..|before| - 1] + (",\"" + Escape(key) + "\":\"" + Escape(value) + "\"" + ['}'])
  {
    FieldOneMore(fields, (key, value));
    FieldLiteral(key, value);
    InsertBeforeBrace(['{'] + Quote("type") + [':'] + Quote(kind), FieldTexts(fields), FieldText((key, value)));
  }
}
