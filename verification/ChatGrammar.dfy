/**
  The language the chat parser accepts, as a grammar: white space, escapes, trailing commas, a
  final brace that may be missing, and anything at all after one that is there.  The parser is
  proved to accept exactly the texts of this grammar, each with its meaning.
 */
module ChatGrammar {
  import opened Collections
  import opened ChatJson

  // ---------------------------------------------------------- the accepted language

  datatype Unit = Plain(c: char) | Escaped(c: char)

  type Literal = seq<Unit>

  /** The members of an object, from just after an opening brace or a comma. */
  datatype Body =
    | Close(ws: string, garbage: string)
    | Member(ws: string, key: Literal, wsColon: string, wsValue: string, value: Literal, after: After)

  /** What follows a member's value. */
  datatype After =
    | Comma(ws: string, body: Body)
    | Brace(ws: string, garbage: string)
    | EndOfInput(ws: string)

  datatype Document = Document(ws: string, body: Body)

  /** Blank, tab, line feed, vertical tab, form feed and carriage return. */
  const BLANKS: set<char> := {' ', '\t', '\n', '\U{0B}', '\U{0C}', '\r'}

  /** What may follow a backslash, and what the two stand for. */
  const ESCAPES: map<char, char> :=
    map['\\' := '\\', '"' := '"', '/' := '/', 'b' := '\U{08}', 'f' := '\U{0C}', 'n' := '\n', 'r' := '\r', 't' := '\t']

  predicate UnitOk(u: Unit) {
    match u
    case Plain(c) => c != '"' && c != '\\'
    case Escaped(c) => c in ESCAPES
  }

  predicate LiteralOk(l: Literal) { forall i :: 0 <= i < |l| ==> UnitOk(l[i]) }

  predicate AllSpace(s: string) { forall i :: 0 <= i < |s| ==> s[i] in BLANKS }

  predicate BodyOk(b: Body) {
    match b
    case Close(ws, _) => AllSpace(ws)
    case Member(ws, key, wsColon, wsValue, value, after) =>
      AllSpace(ws) && LiteralOk(key) && AllSpace(wsColon) && AllSpace(wsValue) && LiteralOk(value) && AfterOk(after)
  }

  predicate AfterOk(a: After) {
    match a
    case Comma(ws, body) => AllSpace(ws) && BodyOk(body)
    case Brace(ws, _) => AllSpace(ws)
    case EndOfInput(ws) => AllSpace(ws)
  }

  predicate DocumentOk(d: Document) { AllSpace(d.ws) && BodyOk(d.body) }

  function UnitText(u: Unit): string { if u.Plain? then [u.c] else ['\\', u.c] }

  function LiteralText(l: Literal): string {
    if l == [] then "" else UnitText(l[0]) + LiteralText(l[1..])
  }

  function UnitValue(u: Unit): char
    requires UnitOk(u)
  {
    if u.Plain? then u.c else ESCAPES[u.c]
  }

  function LiteralValue(l: Literal): string
    requires LiteralOk(l)
  {
    if l == [] then "" else [UnitValue(l[0])] + LiteralValue(l[1..])
  }

  function Quoted(l: Literal, rest: string): string { ['"'] + LiteralText(l) + ['"'] + rest }

  function BodyText(b: Body): string {
    match b
    case Close(ws, garbage) => ws + ['}'] + garbage
    case Member(ws, key, wsColon, wsValue, value, after) =>
      ws + Quoted(key, wsColon + [':'] + (wsValue + Quoted(value, AfterText(after))))
  }

  function AfterText(a: After): string {
    match a
    case Comma(ws, body) => ws + [','] + BodyText(body)
    case Brace(ws, garbage) => ws + ['}'] + garbage
    case EndOfInput(ws) => ws
  }

  function Text(d: Document): string { d.ws + ['{'] + BodyText(d.body) }

  /** Later members overwrite earlier ones with the same key. */
  function BodyFields(b: Body, fields: Fields): Fields
    requires BodyOk(b)
  {
    match b
    case Close(_, _) => fields
    case Member(_, key, _, _, value, after) => AfterFields(after, fields[LiteralValue(key) := LiteralValue(value)])
  }

  function AfterFields(a: After, fields: Fields): Fields
    requires AfterOk(a)
  {
    if a.Comma? then BodyFields(a.body, fields) else fields
  }

  function Meaning(d: Document): Fields
    requires DocumentOk(d)
  {
    BodyFields(d.body, map[])
  }

  // --------------------------------------------------- every document is accepted

  /** The parser skips exactly the blanks and knows exactly the escapes of the grammar. */
  lemma Lexicon(c: char)
    ensures IsSpace(c) <==> c in BLANKS
    ensures Unescape(c) == if c in ESCAPES then Some(ESCAPES[c]) else None
  {
  }

  lemma {:induction false} SpaceIsDropped(ws: string, r: string)
    requires AllSpace(ws) && (r == [] || !IsSpace(r[0]))
    ensures DropSpace(ws + r) == r
  {
    if ws == "" {
      assert ws + r == r;
    } else {
      Lexicon(ws[0]);
      SpaceIsDropped(ws[1..], r);
      assert (ws + r)[1..] == ws[1..] + r;
    }
  }

  lemma {:induction false} LiteralIsScanned(l: Literal, rest: string, acc: string)
    requires LiteralOk(l)
    ensures Scan(LiteralText(l) + ['"'] + rest, acc) == Done(acc + LiteralValue(l), rest)
    decreases |l|
  {
    var s := LiteralText(l) + ['"'] + rest;
    if l == [] {
      assert s[1..] == rest;
    } else {
      var v := UnitValue(l[0]);
      LiteralIsScanned(l[1..], rest, acc + [v]);
      Assoc(acc, [v], LiteralValue(l[1..]), "");
      ScanUnit(l, rest, acc);
    }
  }

  lemma ScanUnit(l: Literal, rest: string, acc: string)
    requires l != [] && LiteralOk(l)
    ensures Scan(LiteralText(l) + ['"'] + rest, acc)
         == Scan(LiteralText(l[1..]) + ['"'] + rest, acc + [UnitValue(l[0])])
  {
    var u, tail := l[0], LiteralText(l[1..]);
    assert UnitText(u) + tail + ['"'] + rest == UnitText(u) + (tail + ['"'] + rest);
    ScanOne(u, tail + ['"'] + rest, acc);
  }

  lemma ScanOne(u: Unit, tail: string, acc: string)
    requires UnitOk(u)
    ensures Scan(UnitText(u) + tail, acc) == Scan(tail, acc + [UnitValue(u)])
  {
    Lexicon(u.c);
    var s := UnitText(u) + tail;
    assert s[|UnitText(u)|..] == tail;
  }

  lemma QuotedIsScanned(l: Literal, rest: string)
    requires LiteralOk(l)
    ensures ScanString(Quoted(l, rest)) == Done(LiteralValue(l), rest)
    ensures Quoted(l, rest)[0] == '"'
  {
    LiteralIsScanned(l, rest, "");
    assert Quoted(l, rest)[1..] == LiteralText(l) + ['"'] + rest;
    assert "" + LiteralValue(l) == LiteralValue(l);
  }

  lemma {:induction false} BodyIsParsed(b: Body, key: string, fields: Fields)
    requires BodyOk(b)
    ensures ParseFrom(BodyText(b), KeyOrEnd, key, fields) == Outcome(true, BodyFields(b, fields))
    decreases b
  {
    match b
    case Close(ws, garbage) =>
      SpaceIsDropped(ws, ['}'] + garbage);
      assert ws + ['}'] + garbage == ws + (['}'] + garbage);
    case Member(ws, k, wsColon, wsValue, v, after) =>
      var kv, vv := LiteralValue(k), LiteralValue(v);
      var fromValue := wsValue + Quoted(v, AfterText(after));
      var fromColon := wsColon + [':'] + fromValue;
      SpaceIsDropped(ws, Quoted(k, fromColon));
      QuotedIsScanned(k, fromColon);
      ColonIsParsed(wsColon, fromValue, kv, fields);
      SpaceIsDropped(wsValue, Quoted(v, AfterText(after)));
      QuotedIsScanned(v, AfterText(after));
      AfterIsParsed(after, kv, fields[kv := vv]);
  }

  lemma ColonIsParsed(ws: string, rest: string, key: string, fields: Fields)
    requires AllSpace(ws)
    ensures ParseFrom(ws + [':'] + rest, Colon, key, fields) == ParseFrom(rest, Value, key, fields)
  {
    SpaceIsDropped(ws, [':'] + rest);
    assert ws + [':'] + rest == ws + ([':'] + rest);
    assert ([':'] + rest)[1..] == rest;
  }

  lemma {:induction false} AfterIsParsed(a: After, key: string, fields: Fields)
    requires AfterOk(a)
    ensures ParseFrom(AfterText(a), CommaOrEnd, key, fields) == Outcome(true, AfterFields(a, fields))
    decreases a
  {
    match a
    case Comma(ws, body) =>
      var r := [','] + BodyText(body);
      SpaceIsDropped(ws, r);
      assert ws + [','] + BodyText(body) == ws + r;
      assert r[1..] == BodyText(body);
      BodyIsParsed(body, key, fields);
    case Brace(ws, garbage) =>
      SpaceIsDropped(ws, ['}'] + garbage);
      assert ws + ['}'] + garbage == ws + (['}'] + garbage);
    case EndOfInput(ws) =>
      SpaceIsDropped(ws, "");
      assert ws + "" == ws;
  }

  /** Completeness: every document is accepted, with its meaning. */
  lemma DocumentIsParsed(d: Document)
    requires DocumentOk(d)
    ensures Parse(Text(d)) == Outcome(true, Meaning(d))
  {
    var r := ['{'] + BodyText(d.body);
    SpaceIsDropped(d.ws, r);
    assert Text(d) == d.ws + r;
    assert r[1..] == BodyText(d.body);
    BodyIsParsed(d.body, "", map[]);
  }

  // -------------------------------------------------- only documents are accepted

  lemma {:induction false} DroppedIsSpace(s: string) returns (ws: string)
    ensures AllSpace(ws) && s == ws + DropSpace(s)
  {
    if s != [] && IsSpace(s[0]) {
      Lexicon(s[0]);
      var tail := DroppedIsSpace(s[1..]);
      ws := [s[0]] + tail;
    } else {
      ws := "";
    }
  }

  lemma {:induction false} ScannedIsLiteral(s: string, acc: string) returns (l: Literal)
    requires Scan(s, acc).Done?
    ensures LiteralOk(l) && s == LiteralText(l) + ['"'] + Scan(s, acc).rest
    ensures Scan(s, acc).value == acc + LiteralValue(l)
    decreases |s|
  {
    if s[0] == '"' {
      l := [];
    } else {
      var u := if s[0] == '\\' then Escaped(s[1]) else Plain(s[0]);
      Lexicon(u.c);
      var rest := s[|UnitText(u)|..];
      assert s == UnitText(u) + rest;
      ScanOne(u, rest, acc);
      var tail := ScannedIsLiteral(rest, acc + [UnitValue(u)]);
      l := [u] + tail;
      LiteralConsText(u, tail, rest, Scan(s, acc).rest);
      LiteralConsValue(u, tail, acc);
    }
  }

  lemma LiteralConsText(u: Unit, tail: Literal, rest: string, end: string)
    requires UnitOk(u) && LiteralOk(tail) && rest == LiteralText(tail) + ['"'] + end
    ensures LiteralOk([u] + tail) && UnitText(u) + rest == LiteralText([u] + tail) + ['"'] + end
  {
    LiteralCons(u, tail);
    Assoc(UnitText(u), LiteralText(tail), ['"'], end);
    Assoc(LiteralText(tail), ['"'], end, "");
  }

  lemma LiteralConsValue(u: Unit, tail: Literal, acc: string)
    requires UnitOk(u) && LiteralOk(tail)
    ensures LiteralOk([u] + tail) && acc + [UnitValue(u)] + LiteralValue(tail) == acc + LiteralValue([u] + tail)
  {
    LiteralCons(u, tail);
    Assoc(acc, [UnitValue(u)], LiteralValue(tail), "");
  }

  lemma LiteralCons(u: Unit, tail: Literal)
    requires UnitOk(u) && LiteralOk(tail)
    ensures LiteralText([u] + tail) == UnitText(u) + LiteralText(tail)
    ensures LiteralOk([u] + tail) && LiteralValue([u] + tail) == [UnitValue(u)] + LiteralValue(tail)
  {
    assert ([u] + tail)[1..] == tail;
  }

  lemma ScannedIsQuoted(s: string) returns (l: Literal)
    requires ScanString(s).Done?
    ensures LiteralOk(l) && s == Quoted(l, ScanString(s).rest) && ScanString(s).value == LiteralValue(l)
  {
    l := ScannedIsLiteral(s[1..], "");
    assert s == ['"'] + s[1..];
  }

  lemma {:induction false} ParsedIsBody(s: string, key: string, fields: Fields) returns (b: Body)
    requires ParseFrom(s, KeyOrEnd, key, fields).ok
    ensures BodyOk(b) && BodyText(b) == s
    ensures ParseFrom(s, KeyOrEnd, key, fields).fields == BodyFields(b, fields)
    decreases |s|
  {
    var ws := DroppedIsSpace(s);
    var r := DropSpace(s);
    if r[0] == '}' {
      b := Close(ws, r[1..]);
      assert r == ['}'] + r[1..];
    } else {
      var k := ScannedIsQuoted(r);
      var fromColon := ScanString(r).rest;
      var wsColon, fromValue := ParsedIsColon(fromColon, LiteralValue(k), fields);
      var wsValue := DroppedIsSpace(fromValue);
      var v := ScannedIsQuoted(DropSpace(fromValue));
      var rest := ScanString(DropSpace(fromValue)).rest;
      var after := ParsedIsAfter(rest, LiteralValue(k), fields[LiteralValue(k) := LiteralValue(v)]);
      b := Member(ws, k, wsColon, wsValue, v, after);
    }
  }

  lemma ParsedIsColon(s: string, key: string, fields: Fields) returns (ws: string, rest: string)
    requires ParseFrom(s, Colon, key, fields).ok
    ensures AllSpace(ws) && s == ws + [':'] + rest && |rest| < |s|
    ensures ParseFrom(s, Colon, key, fields) == ParseFrom(rest, Value, key, fields)
  {
    ws := DroppedIsSpace(s);
    rest := DropSpace(s)[1..];
    assert DropSpace(s) == [':'] + rest;
  }

  lemma {:induction false} ParsedIsAfter(s: string, key: string, fields: Fields) returns (a: After)
    requires ParseFrom(s, CommaOrEnd, key, fields).ok
    ensures AfterOk(a) && AfterText(a) == s
    ensures ParseFrom(s, CommaOrEnd, key, fields).fields == AfterFields(a, fields)
    decreases |s|
  {
    var ws := DroppedIsSpace(s);
    var r := DropSpace(s);
    if r == [] {
      a := EndOfInput(ws);
    } else if r[0] == ',' {
      var body := ParsedIsBody(r[1..], key, fields);
      a := Comma(ws, body);
      assert r == [','] + r[1..];
    } else {
      a := Brace(ws, r[1..]);
      assert r == ['}'] + r[1..];
    }
  }

  lemma ParsedIsOpen(s: string) returns (ws: string, rest: string)
    ensures Parse(s).ok ==> AllSpace(ws) && s == ws + ['{'] + rest && Parse(s) == ParseFrom(rest, KeyOrEnd, "", map[])
  {
    ws, rest := "", "";
    if Parse(s).ok {
      ws := DroppedIsSpace(s);
      rest := DropSpace(s)[1..];
      assert DropSpace(s) == ['{'] + rest;
    }
  }

  /** Soundness: whatever is accepted is a document, and the result is its meaning. */
  lemma ParsedIsDocument(s: string) returns (d: Document)
    ensures Parse(s).ok ==> DocumentOk(d) && Text(d) == s && Parse(s).fields == Meaning(d)
  {
    var ws, rest := ParsedIsOpen(s);
    d := Document(ws, Close("", ""));
    if Parse(s).ok {
      var body := ParsedIsBody(rest, "", map[]);
      d := Document(ws, body);
    }
  }

  ghost predicate Denotes(s: string, fields: Fields) {
    exists d :: DocumentOk(d) && Text(d) == s && Meaning(d) == fields
  }

  /** The parser accepts exactly the texts of documents, and returns what they denote. */
  lemma AcceptsExactly(s: string, fields: Fields)
    ensures Parse(s) == Outcome(true, fields) <==> Denotes(s, fields)
  {
    if Parse(s).ok {
      var d := ParsedIsDocument(s);
    }
    if Denotes(s, fields) {
      var d :| DocumentOk(d) && Text(d) == s && Meaning(d) == fields;
      DocumentIsParsed(d);
    }
  }
}
