/** Field lines without the space behind the colon, which section 5 of RFC 9112 allows: what the
    parser makes of them, and exactly when it still reads the header map that was meant. */
module CompactFields {
  import opened TextStream
  import opened Decimal
  import opened HttpParser
  import opened HttpRoundTrip

  /** A field, and whether its line has a space behind the colon. */
  datatype LooseField = LooseField(field: Field, spaced: bool)

  function LooseLine(l: LooseField): string {
    l.field.name + (if l.spaced then ": " else ":") + l.field.value
  }

  function PrintLoose(lines: seq<LooseField>): string {
    if lines == [] then "" else LooseLine(lines[0]) + "\r\n" + PrintLoose(lines[1..])
  }

  function FieldsIn(lines: seq<LooseField>): (fields: seq<Field>)
    ensures |fields| == |lines|
    ensures forall i | 0 <= i < |fields| :: fields[i] == lines[i].field
  {
    seq(|lines|, i requires 0 <= i < |lines| => lines[i].field)
  }

  /** A name has no colon, a value does not begin with a space, and neither holds an LF. */
  predicate FitsLoose(l: LooseField) {
    && '\n' !in l.field.name && ':' !in l.field.name && '\n' !in l.field.value
    && (l.field.value != "" ==> l.field.value[0] != ' ')
  }

  predicate FitLoose(lines: seq<LooseField>) { forall i | 0 <= i < |lines| :: FitsLoose(lines[i]) }

  /** How many lines in front have the space. */
  function Leading(lines: seq<LooseField>): (n: nat)
    ensures n <= |lines|
    ensures forall i | 0 <= i < n :: lines[i].spaced
    ensures n < |lines| ==> !lines[n].spaced
  {
    if lines == [] || !lines[0].spaced then 0 else 1 + Leading(lines[1..])
  }

  // ---------------------------------------------------------------- one line

  predicate SeparatesAt(line: string, p: nat) { p + 2 <= |line| && line[p] == ':' && line[p + 1] == ' ' }

  lemma {:induction false} SeparatorIs(line: string, p: nat)
    requires SeparatesAt(line, p)
    ensures HasSeparator(line)
  {
    if p > 0 && !SeparatesAt(line, 0) {
      assert SeparatesAt(line[1..], p - 1);
      SeparatorIs(line[1..], p - 1);
    }
  }

  lemma NoColonFits(l: LooseField)
    requires FitsLoose(l)
    ensures FitsLine(l.field)
  {
  }

  /** A line without the space has a ": " only inside its value, and then the parser takes
      something else for the name: it holds a colon. */
  lemma CompactLine(l: LooseField)
    requires FitsLoose(l) && !l.spaced
    ensures var line := LooseLine(l) + "\r";
            && line != "" && '\n' !in line
            && (HasSeparator(line) <==> HasSeparator(l.field.value))
            && ':' in HeaderName(line)
  {
    var name, value := l.field.name, l.field.value;
    var line := LooseLine(l) + "\r";
    assert line == name + ":" + value + "\r" && line[|name|] == ':';
    if HasSeparator(value) {
      SeparatorIs(line, |name| + 1 + Separator(value));
    }
    if HasSeparator(line) {
      var p := Separator(line);
      assert forall i | 0 <= i < |name| :: line[i] == name[i] && name[i] in name;
      assert p > |name| && SeparatesAt(value, p - |name| - 1);
      SeparatorIs(value, p - |name| - 1);
    }
    assert HeaderName(line)[|name|] == ':';
  }

  // ---------------------------------------------------------------- header maps

  lemma {:induction false} FirstWinsAppend(headers: Headers, a: seq<Field>, b: seq<Field>)
    ensures FirstWins(headers, a + b) == FirstWins(FirstWins(headers, a), b)
    decreases |a|
  {
    if a == [] {
      assert a + b == b;
    } else {
      assert (a + b)[0] == a[0] && (a + b)[1..] == a[1..] + b;
      FirstWinsAppend(Emplace(headers, a[0].name, a[0].value), a[1..], b);
    }
  }

  lemma {:induction false} FirstWinsKeys(headers: Headers, fields: seq<Field>, name: string)
    ensures name in FirstWins(headers, fields) <==>
            name in headers || exists i :: 0 <= i < |fields| && fields[i].name == name
    decreases |fields|
  {
    if fields != [] {
      var rest := fields[1..];
      FirstWinsKeys(Emplace(headers, fields[0].name, fields[0].value), rest, name);
      assert forall i | 0 < i < |fields| :: fields[i] == rest[i - 1];
      if i :| 0 <= i < |rest| && rest[i].name == name {
        assert fields[i + 1].name == name;
      }
    }
  }

  /** More fields change nothing exactly if their names are all there. */
  lemma {:induction false} FirstWinsSame(headers: Headers, fields: seq<Field>)
    ensures FirstWins(headers, fields) == headers <==> forall f | f in fields :: f.name in headers
    decreases |fields|
  {
    if fields != [] {
      var f, rest := fields[0], fields[1..];
      FirstWinsSame(Emplace(headers, f.name, f.value), rest);
      assert fields == [f] + rest;
      if f.name !in headers {
        FirstWinsKeys(headers, fields, f.name);
      }
    }
  }

  // ---------------------------------------------------------------- the field block

  predicate Named(lines: seq<LooseField>, name: string) {
    exists j :: 0 <= j < |lines| && lines[j].field.name == name
  }

  /** All lines have the space; or the first that has not is not the first line, does not hold
      another ": ", and from there on come only names that came before it. */
  predicate ReadsBack(lines: seq<LooseField>) {
    var n := Leading(lines);
    n < |lines| ==>
      && n > 0 && !HasSeparator(lines[n].field.value)
      && forall l | l in lines[n..] :: Named(lines[..n], l.field.name)
  }

  /** What stands behind the line at which the loop stops: the blank line, or the first line
      without the space. */
  function Behind(lines: seq<LooseField>, body: string): string {
    var n := Leading(lines);
    if n == |lines| then body else PrintLoose(lines[n + 1..]) + ("\r" + ['\n'] + body)
  }

  /** The header loop reads the intended header map from a field block exactly then. */
  lemma LooseBlock(lines: seq<LooseField>, body: string)
    requires FitLoose(lines) && lines != []
    ensures var headers := FirstWins(map[], FieldsIn(lines));
            var block := ParseFields(Open(PrintLoose(lines) + ("\r" + ['\n'] + body)), 0, map[]);
            && (block.headers == headers <==> ReadsBack(lines))
            && (ReadsBack(lines) ==> block == FieldBlock(headers, Open(Behind(lines, body))))
  {
    var n := Leading(lines);
    var front, rest := lines[..n], lines[n..];
    var after := "\r" + ['\n'] + body;
    var fields := FieldsIn(front);
    SplitLoose(lines, n, after);
    forall i | 0 <= i < n ensures FitsLine(fields[i]) {
      NoColonFits(lines[i]);
    }
    if rest == [] {
      assert PrintLoose(rest) + after == after && fields == FieldsIn(lines);
      BlockEnds(fields, "\r", body, 0, map[]);
    } else {
      LooseCons(rest, after);
      CompactLine(rest[0]);
      assert rest[1..] == lines[n + 1..];
      if n > 0 && !HasSeparator(rest[0].field.value) {
        BlockEnds(fields, LooseLine(rest[0]) + "\r", PrintLoose(rest[1..]) + after, 0, map[]);
        OnlyRepeats(lines, n);
      } else {
        NameStays(fields, LooseLine(rest[0]) + "\r", PrintLoose(rest[1..]) + after, 0, map[]);
        NoSuchName(lines, HeaderName(LooseLine(rest[0]) + "\r"));
      }
    }
  }

  lemma {:induction false} SplitLoose(lines: seq<LooseField>, n: nat, after: string)
    requires n <= |lines| && forall i | 0 <= i < n :: lines[i].spaced
    ensures PrintLoose(lines) + after == PrintFields(FieldsIn(lines[..n])) + (PrintLoose(lines[n..]) + after)
    decreases n
  {
    if n == 0 {
      assert FieldsIn(lines[..0]) == [] && lines[0..] == lines;
      assert "" + (PrintLoose(lines) + after) == PrintLoose(lines) + after;
    } else {
      SplitLoose(lines[1..], n - 1, after);
      assert lines[1..][..n - 1] == lines[..n][1..] && lines[1..][n - 1..] == lines[n..];
      assert FieldsIn(lines[..n]) == [lines[0].field] + FieldsIn(lines[..n][1..]);
      FieldsCons(lines[0].field, FieldsIn(lines[..n][1..]), PrintLoose(lines[n..]) + after);
      LooseCons(lines, after);
    }
  }

  lemma LooseCons(lines: seq<LooseField>, after: string)
    requires lines != []
    ensures PrintLoose(lines) + after == (LooseLine(lines[0]) + "\r") + ['\n'] + (PrintLoose(lines[1..]) + after)
  {
  }

  lemma OnlyRepeats(lines: seq<LooseField>, n: nat)
    requires n <= |lines|
    ensures FirstWins(map[], FieldsIn(lines)) == FirstWins(map[], FieldsIn(lines[..n]))
            <==> forall l | l in lines[n..] :: Named(lines[..n], l.field.name)
  {
    var front, rest := lines[..n], lines[n..];
    var headers := FirstWins(map[], FieldsIn(front));
    assert FieldsIn(lines) == FieldsIn(front) + FieldsIn(rest);
    FirstWinsAppend(map[], FieldsIn(front), FieldsIn(rest));
    FirstWinsSame(headers, FieldsIn(rest));
    AllNamed(front, rest);
  }

  lemma AllNamed(front: seq<LooseField>, rest: seq<LooseField>)
    ensures (forall f | f in FieldsIn(rest) :: f.name in FirstWins(map[], FieldsIn(front)))
            <==> forall l | l in rest :: Named(front, l.field.name)
  {
    forall l | l in rest
      ensures l.field in FieldsIn(rest)
      ensures l.field.name in FirstWins(map[], FieldsIn(front)) <==> Named(front, l.field.name)
    {
      var i :| 0 <= i < |rest| && rest[i] == l;
      assert FieldsIn(rest)[i] == l.field;
      NamedIs(front, l.field.name);
    }
    forall f | f in FieldsIn(rest) ensures exists l :: l in rest && l.field == f {
      var i :| 0 <= i < |rest| && FieldsIn(rest)[i] == f;
      assert rest[i] in rest && rest[i].field == f;
    }
  }

  lemma NamedIs(lines: seq<LooseField>, name: string)
    ensures name in FirstWins(map[], FieldsIn(lines)) <==> Named(lines, name)
  {
    FirstWinsKeys(map[], FieldsIn(lines), name);
  }

  /** A line that is taken for a header behind printed fields leaves its name in the map for good. */
  lemma {:induction false} NameStays(fields: seq<Field>, line: string, after: string, count: nat, headers: Headers)
    requires FitLines(fields) && line != "" && '\n' !in line
    requires HasSeparator(line) || (fields == [] && count == 0)
    ensures HeaderName(line) in
            ParseFields(Open(PrintFields(fields) + (line + ['\n'] + after)), count, headers).headers
    decreases |fields|
  {
    var end := line + ['\n'] + after;
    if fields == [] {
      assert "" + end == end;
      TakenNameStays(line, after, count, headers);
    } else {
      var f, rest := fields[0], fields[1..];
      assert [f] + rest == fields;
      ParseOneField(f, rest, end, count, headers);
      NameStays(rest, line, after, count + 1, Emplace(headers, f.name, f.value));
    }
  }

  lemma TakenNameStays(line: string, after: string, count: nat, headers: Headers)
    requires line != "" && '\n' !in line && (HasSeparator(line) || count == 0)
    ensures HeaderName(line) in ParseFields(Open(line + ['\n'] + after), count, headers).headers
  {
    TakeLine(line, after, count, headers);
    HeadersStay(Open(after), count + 1, Emplace(headers, HeaderName(line), HeaderValue(line)), HeaderName(line));
  }

  lemma NoSuchName(lines: seq<LooseField>, name: string)
    requires FitLoose(lines) && ':' in name
    ensures name !in FirstWins(map[], FieldsIn(lines))
  {
    FirstWinsKeys(map[], FieldsIn(lines), name);
  }

  // ---------------------------------------------------------------- requests

  datatype LooseRequest =
    LooseRequest(verb: string, target: string, version: string, lines: seq<LooseField>, body: string)

  function PrintLooseRequest(m: LooseRequest): string {
    m.verb + " " + m.target + " " + m.version + "\r\n" + (PrintLoose(m.lines) + ("\r" + ['\n'] + m.body))
  }

  predicate FitsRequest(m: LooseRequest) {
    IsWord(m.verb) && IsWord(m.target) && IsWord(m.version) && FitLoose(m.lines)
  }

  predicate Recovers(m: LooseRequest) {
    ParseRequest(PrintLooseRequest(m)) ==
    Ok(Request(m.verb, m.target, m.version, FirstWins(map[], FieldsIn(m.lines)), m.body))
  }

  /** A request as section 5 of RFC 9112 allows it, with or without the spaces, is read as meant
      exactly when there is a field, the header map is read, the body is declared, and, in case the
      loop stops early, the text at which it stops begins like the body. */
  lemma LooseRoundTrip(m: LooseRequest)
    requires FitsRequest(m)
    ensures Recovers(m) <==>
              && m.lines != [] && ReadsBack(m.lines) && DeclaresBody(FieldsIn(m.lines), m.body)
              && m.body <= Behind(m.lines, m.body)
  {
    if m.lines == [] {
      EmptyBlock(m);
    } else {
      var text := PrintLoose(m.lines) + ("\r" + ['\n'] + m.body);
      ThreeWordsLine(m.verb, m.target, m.version, text);
      RestRecovers(StartLine(m.verb, m.target, m.version, Open(text)), m.lines, m.body);
    }
  }

  lemma RestRecovers(start: StartLine, lines: seq<LooseField>, body: string)
    requires FitLoose(lines) && lines != []
    requires start.after == Open(PrintLoose(lines) + ("\r" + ['\n'] + body))
    ensures ParseRest(start) ==
            Ok(Request(start.verb, start.target, start.version, FirstWins(map[], FieldsIn(lines)), body))
            <==> ReadsBack(lines) && DeclaresBody(FieldsIn(lines), body) && body <= Behind(lines, body)
  {
    LooseBlock(lines, body);
    if ReadsBack(lines) {
      assert ParseRest(start) == Assembled(start, FirstWins(map[], FieldsIn(lines)), Behind(lines, body));
      AssembledFrom(start, FieldsIn(lines), Behind(lines, body), body);
    } else {
      OnlyBlankHeader(start);
    }
  }

  lemma EmptyBlock(m: LooseRequest)
    requires FitsRequest(m) && m.lines == []
    ensures !Recovers(m)
  {
    var plain := ClientRequest(m.verb, m.target, m.version, [], m.body);
    TailIs([], m.body);
    assert PrintLooseRequest(m) == PrintRequest(plain);
    RequestRoundTrip(plain);
  }

  /** The body is read from a text that is at least as long. */
  lemma AssembledFrom(start: StartLine, fields: seq<Field>, behind: string, body: string)
    requires |body| <= |behind|
    ensures var headers := FirstWins(map[], fields);
            Assembled(start, headers, behind) == Ok(Request(start.verb, start.target, start.version, headers, body))
            <==> DeclaresBody(fields, body) && body <= behind
  {
    ReadBodyIs(FirstWins(map[], fields), behind);
    PaddedIsFront(behind, body);
  }

  lemma PaddedIsFront(behind: string, body: string)
    requires |body| <= |behind|
    ensures forall n: nat :: Padded(behind, n) == body <==> n == |body| && body <= behind
  {
  }

  // ---------------------------------------------------------------- what can go wrong

  /** A request whose field block goes on, behind some printed fields, with a line without ": ": the
      rest of the block is taken for the body text. */
  function Interrupted(m: ClientRequest, line: string, tail: string): string {
    m.verb + " " + m.target + " " + m.version + "\r\n" + (PrintFields(m.fields) + (line + ['\n'] + tail))
  }

  lemma LineWithoutSeparator(m: ClientRequest, line: string, tail: string)
    requires WellFormed(m) && m.fields != [] && '\n' !in line && !HasSeparator(line)
    ensures ParseRequest(Interrupted(m, line, tail)) ==
            Assembled(StartLine(m.verb, m.target, m.version, Open(tail)), FirstWins(map[], m.fields), tail)
  {
    var text := PrintFields(m.fields) + (line + ['\n'] + tail);
    ThreeWordsLine(m.verb, m.target, m.version, text);
    BlockEnds(m.fields, line, tail, 0, map[]);
  }

  /** A Content-Length without the space behind the colon is not seen: the body is lost. */
  lemma CompactLengthIsLost(m: ClientRequest, length: string, tail: string)
    requires WellFormed(m) && m.fields != [] && CONTENT_LENGTH !in FirstWins(map[], m.fields)
    requires '\n' !in length && !HasSeparator(CONTENT_LENGTH + ":" + length)
    ensures ParseRequest(Interrupted(m, CONTENT_LENGTH + ":" + length, tail)) ==
            Ok(Request(m.verb, m.target, m.version, FirstWins(map[], m.fields), ""))
  {
    LineWithoutSeparator(m, CONTENT_LENGTH + ":" + length, tail);
  }

  /** Five octets are declared, and none is read. */
  lemma CompactLengthExample()
    ensures ParseRequest("POST / HTTP/1.1\r\n" + "Host: h\r\n" + "Content-Length:5\r\n" + "\r\nhello") ==
            Ok(Request("POST", "/", "HTTP/1.1", map["Host" := "h"], ""))
  {
    var m := ClientRequest("POST", "/", "HTTP/1.1", [Field("Host", "h")], "");
    ExampleFits(m);
    ExampleHeaders(m.fields);
    SeparatorHasSpace(CONTENT_LENGTH + ":" + "5\r");
    CompactLengthIsLost(m, "5\r", "\r\nhello");
    ExampleText(m);
  }

  lemma SeparatorHasSpace(line: string)
    ensures HasSeparator(line) ==> ' ' in line
  {
  }

  lemma ExampleFits(m: ClientRequest)
    requires m == ClientRequest("POST", "/", "HTTP/1.1", [Field("Host", "h")], "")
    ensures WellFormed(m)
  {
  }

  lemma ExampleHeaders(fields: seq<Field>)
    requires fields == [Field("Host", "h")]
    ensures FirstWins(map[], fields) == map["Host" := "h"]
    ensures CONTENT_LENGTH !in FirstWins(map[], fields)
  {
  }

  lemma ExampleText(m: ClientRequest)
    requires m == ClientRequest("POST", "/", "HTTP/1.1", [Field("Host", "h")], "")
    ensures Interrupted(m, CONTENT_LENGTH + ":" + "5\r", "\r\nhello") ==
            "POST / HTTP/1.1\r\n" + "Host: h\r\n" + "Content-Length:5\r\n" + "\r\nhello"
  {
  }
}
