/** What the parser and the printer are for: a printed message parses to the fields it was printed
    from. Each law comes with the exact condition under which the code meets it. */
module HttpRoundTrip {
  import opened TextStream
  import opened Decimal
  import opened HttpParser

  /** A request as a client writes it. */
  datatype ClientRequest =
    ClientRequest(verb: string, target: string, version: string, fields: seq<Field>, body: string)

  function PrintRequest(m: ClientRequest): string {
    m.verb + " " + m.target + " " + m.version + "\r\n" + PrintTail(m.fields, m.body)
  }

  predicate IsWord(s: string) { s != "" && NoSpace(s) }

  /** A field that fits on a line: no LF, and no ": " inside the name. */
  predicate FitsLine(f: Field) { '\n' !in f.name && '\n' !in f.value && !HasSeparator(f.name) }

  predicate FitLines(fields: seq<Field>) { forall i | 0 <= i < |fields| :: FitsLine(fields[i]) }

  predicate WellFormed(m: ClientRequest) {
    IsWord(m.verb) && IsWord(m.target) && IsWord(m.version) && FitLines(m.fields)
  }

  // ---------------------------------------------------------------- one line

  lemma {:induction false} SeparatorAt(name: string, rest: string)
    requires !HasSeparator(name)
    ensures Separator(name + ": " + rest) == |name|
  {
    var all := name + ": " + rest;
    if name == "" {
      assert all[0] == ':' && all[1] == ' ';
    } else {
      assert all[1..] == name[1..] + ": " + rest;
      if |name| >= 2 {
        assert all[0] == name[0] && all[1] == name[1];
      } else {
        assert all[1] == ':';
        assert !HasSeparator(name[1..]);
      }
      SeparatorAt(name[1..], rest);
    }
  }

  /** A line is cut behind its first ": " and in front of its last character, whatever that is: in a
      printed line it is the CR. */
  lemma LineParts(f: Field, last: char)
    requires FitsLine(f)
    ensures var line := FieldLine(f) + [last];
            HasSeparator(line) && HeaderName(line) == f.name && HeaderValue(line) == f.value
  {
    var line := FieldLine(f) + [last];
    assert line == f.name + ": " + (f.value + [last]);
    SeparatorAt(f.name, f.value + [last]);
    assert line[|f.name| + 2..|line| - 1] == f.value;
  }

  lemma FieldLineParts(f: Field)
    requires FitsLine(f)
    ensures var line := FieldLine(f) + "\r";
            && '\n' !in line && HasSeparator(line)
            && HeaderName(line) == f.name && HeaderValue(line) == f.value
  {
    LineParts(f, '\r');
  }

  /** A line that ends with its separator has an empty value, and loses no character. */
  lemma BareSeparator(name: string)
    requires !HasSeparator(name)
    ensures HeaderName(name + ": ") == name && HeaderValue(name + ": ") == ""
  {
    SeparatorAt(name, "");
    assert name + ": " + "" == name + ": ";
  }

  // ---------------------------------------------------------------- the field block

  /** The header map of a field list: every name keeps its first value. */
  function FirstWins(headers: Headers, fields: seq<Field>): Headers
    decreases |fields|
  {
    if fields == [] then headers
    else FirstWins(Emplace(headers, fields[0].name, fields[0].value), fields[1..])
  }

  /** `i` is the first field called `name`. */
  predicate FirstAt(fields: seq<Field>, name: string, i: nat) {
    i < |fields| && fields[i].name == name && forall j | 0 <= j < i :: fields[j].name != name
  }

  /** FirstWins, said without a fold. */
  lemma {:induction false} FirstWinsIs(headers: Headers, fields: seq<Field>, name: string)
    ensures name in headers ==> name in FirstWins(headers, fields) && FirstWins(headers, fields)[name] == headers[name]
    ensures name !in headers ==>
              (name in FirstWins(headers, fields) <==> exists i: nat :: FirstAt(fields, name, i))
    ensures name !in headers ==> forall i: nat | FirstAt(fields, name, i) ::
              name in FirstWins(headers, fields) && FirstWins(headers, fields)[name] == fields[i].value
    decreases |fields|
  {
    if fields != [] {
      var rest := fields[1..];
      FirstWinsIs(Emplace(headers, fields[0].name, fields[0].value), rest, name);
      if fields[0].name == name {
        assert FirstAt(fields, name, 0);
      } else {
        forall i: nat ensures FirstAt(fields, name, i + 1) <==> FirstAt(rest, name, i) {
          assert FirstAt(rest, name, i) ==> forall j | 0 < j < i + 1 :: fields[j].name == rest[j - 1].name;
          assert FirstAt(fields, name, i + 1) ==> forall j | 0 <= j < i :: rest[j].name == fields[j + 1].name;
        }
        assert !FirstAt(fields, name, 0);
        assert forall i: nat | FirstAt(fields, name, i) :: FirstAt(rest, name, i - 1);
      }
    }
  }

  /** One turn of the loop: a line with ": " is taken as a header, and so is any line that comes first. */
  lemma TakeLine(line: string, after: string, count: nat, headers: Headers)
    requires line != "" && '\n' !in line && (HasSeparator(line) || count == 0)
    ensures ParseFields(Open(line + ['\n'] + after), count, headers) ==
            ParseFields(Open(after), count + 1, Emplace(headers, HeaderName(line), HeaderValue(line)))
  {
    GetLineAt(line, '\n', after, "");
  }

  lemma ParseOneField(f: Field, rest: seq<Field>, after: string, count: nat, headers: Headers)
    requires FitsLine(f)
    ensures ParseFields(Open(PrintFields([f] + rest) + after), count, headers) ==
            ParseFields(Open(PrintFields(rest) + after), count + 1, Emplace(headers, f.name, f.value))
  {
    FieldLineParts(f);
    FieldsCons(f, rest, after);
    TakeLine(FieldLine(f) + "\r", PrintFields(rest) + after, count, headers);
  }

  /** Behind printed fields the loop ends at the first line without ": ", whatever it is, provided
      that it is empty or not the first line it sees: the line is gone, and nothing behind it is read. */
  lemma {:induction false} BlockEnds(fields: seq<Field>, line: string, tail: string, count: nat, headers: Headers)
    requires FitLines(fields) && (fields != [] || count > 0 || line == "")
    requires '\n' !in line && !HasSeparator(line)
    ensures ParseFields(Open(PrintFields(fields) + (line + ['\n'] + tail)), count, headers) ==
            FieldBlock(FirstWins(headers, fields), Open(tail))
    decreases |fields|
  {
    var end := line + ['\n'] + tail;
    if fields == [] {
      assert "" + end == end;
      GetLineAt(line, '\n', tail, "");
    } else {
      var f, rest := fields[0], fields[1..];
      assert [f] + rest == fields;
      ParseOneField(f, rest, end, count, headers);
      BlockEnds(rest, line, tail, count + 1, Emplace(headers, f.name, f.value));
    }
  }

  /** An empty line ends the loop at once, whether or not it is the first. */
  lemma EmptyLineEnds(tail: string, count: nat, headers: Headers)
    ensures ParseFields(Open("\n" + tail), count, headers) == FieldBlock(headers, Open(tail))
  {
    assert "" + ['\n'] + tail == "\n" + tail;
    GetLineAt("", '\n', tail, "");
  }

  /** The header loop reads a printed field block back and stops in front of the body, provided
      that the blank line is not the first line it sees. */
  lemma ParsePrintedFields(fields: seq<Field>, body: string, count: nat, headers: Headers)
    requires FitLines(fields) && (fields != [] || count > 0)
    ensures ParseFields(Open(PrintTail(fields, body)), count, headers) ==
            FieldBlock(FirstWins(headers, fields), Open(body))
  {
    BlockEnds(fields, "\r", body, count, headers);
    TailIs(fields, body);
  }

  lemma TailIs(fields: seq<Field>, body: string)
    ensures PrintTail(fields, body) == PrintFields(fields) + ("\r" + ['\n'] + body)
  {
  }

  lemma FieldsCons(f: Field, rest: seq<Field>, after: string)
    ensures PrintFields([f] + rest) + after == (FieldLine(f) + "\r") + ['\n'] + (PrintFields(rest) + after)
  {
  }

  lemma TailCons(f: Field, rest: seq<Field>, body: string)
    ensures PrintTail([f] + rest, body) == (FieldLine(f) + "\r") + ['\n'] + PrintTail(rest, body)
  {
  }

  /** As the first line that the loop sees, a line without ": " does not end it: it is stored as a
      header, called like the whole line, with the line less its first and last characters for a value. */
  lemma FirstLineStored(line: string, after: string)
    requires line != "" && '\n' !in line && !HasSeparator(line)
    ensures ParseFields(Open(line + ['\n'] + after), 0, map[]) ==
            ParseFields(Open(after), 1, map[line := if |line| == 1 then "" else line[1..|line| - 1]])
  {
    GetLineAt(line, '\n', after, "");
    assert HeaderName(line) == line;
  }

  // ---------------------------------------------------------------- the start line

  /** The first word of a line that has one. */
  function FirstWord(line: string): string
  {
    var w := line[SpaceRun(line)..];
    w[..WordRun(w)]
  }

  /** Two words, any white space, and then a line with a word in it: the third word is taken from
      that line, and the rest of it is thrown away. */
  lemma StartLineAt(a: string, b: string, blanks: string, line: string, tail: string)
    requires IsWord(a) && IsWord(b) && AllSpace(blanks) && '\n' !in line && !AllSpace(line)
    ensures ParseStartLine(a + " " + b + " " + blanks + line + "\r\n" + tail) ==
            StartLine(a, b, FirstWord(line), Open(tail))
  {
    var front, word, dropped := WordOf(line);
    Regroup(a, b, blanks, line, tail);
    RegroupLine(blanks, front, word, dropped, tail);
    ThreeWords(a, b, " " + blanks + front, word, dropped + "\r", tail);
  }

  lemma WordOf(line: string) returns (front: string, word: string, dropped: string)
    requires '\n' !in line && !AllSpace(line)
    ensures line == front + word + dropped && word == FirstWord(line)
    ensures AllSpace(front) && IsWord(word)
    ensures '\n' !in dropped && (dropped == "" || IsSpace(dropped[0]))
  {
    var k := SpaceRun(line);
    var n := WordRun(line[k..]);
    TwoCuts(line, k, n);
    front, word, dropped := line[..k], line[k..][..n], line[k..][n..];
  }

  lemma ThreeWords(a: string, b: string, blanks: string, word: string, dropped: string, tail: string)
    requires IsWord(a) && IsWord(b) && IsWord(word) && AllSpace(blanks) && '\n' !in dropped
    requires dropped == "" || IsSpace(dropped[0])
    requires blanks != ""
    ensures ParseStartLine(a + (" " + b + (blanks + word + (dropped + ['\n'] + tail)))) ==
            StartLine(a, b, word, Open(tail))
  {
    ThirdWord(blanks, word, dropped, tail);
    FirstTwoWords(a, b, blanks + word + (dropped + ['\n'] + tail));
  }

  lemma FirstTwoWords(a: string, b: string, after: string)
    requires IsWord(a) && IsWord(b) && after != "" && IsSpace(after[0])
    ensures Extract(Open(a + (" " + b + after)), "") == Reading(Open(" " + b + after), a)
    ensures Extract(Open(" " + b + after), "") == Reading(Open(after), b)
  {
    assert "" + a == a;
    assert (" " + b + after)[0] == ' ';
    ExtractAt("", a, " " + b + after, "");
    ExtractAt(" ", b, after, "");
  }

  lemma ThirdWord(blanks: string, word: string, dropped: string, tail: string)
    requires IsWord(word) && AllSpace(blanks) && blanks != "" && '\n' !in dropped
    requires dropped == "" || IsSpace(dropped[0])
    ensures var after := dropped + ['\n'] + tail;
            && IsSpace((blanks + word + after)[0])
            && Extract(Open(blanks + word + after), "") == Reading(Open(after), word)
            && GetLine(Open(after), "", '\n').after == Open(tail)
  {
    var after := dropped + ['\n'] + tail;
    assert after[0] == if dropped == "" then '\n' else dropped[0];
    assert (blanks + word + after)[0] == blanks[0];
    ExtractAt(blanks, word, after, "");
    GetLineAt(dropped, '\n', tail, "");
  }

  lemma Regroup(a: string, b: string, blanks: string, line: string, tail: string)
    ensures a + " " + b + " " + blanks + line + "\r\n" + tail ==
            a + (" " + b + (" " + (blanks + (line + ("\r\n" + tail)))))
  {
  }

  lemma RegroupLine(blanks: string, front: string, word: string, dropped: string, tail: string)
    ensures " " + (blanks + (front + word + dropped + ("\r\n" + tail))) ==
            " " + blanks + front + word + (dropped + "\r" + ['\n'] + tail)
  {
  }

  // ---------------------------------------------------------------- requests

  /** The length that the first Content-Length field declares is the length of the body, or there
      is no such field and no body. */
  predicate DeclaresBody(fields: seq<Field>, body: string) {
    var headers := FirstWins(map[], fields);
    if CONTENT_LENGTH in headers then Stoi(headers[CONTENT_LENGTH]) == Ok(|body|) else body == ""
  }

  /** The same without the header map: the first field called exactly "Content-Length" tells the
      length of the body, or no field is called so and there is no body. */
  lemma DeclaredByName(fields: seq<Field>, body: string)
    ensures DeclaresBody(fields, body) <==>
            if exists i: nat :: FirstAt(fields, "Content-Length", i)
            then exists i: nat :: FirstAt(fields, "Content-Length", i) && Stoi(fields[i].value) == Ok(|body|)
            else body == ""
  {
    FirstWinsIs(map[], fields, CONTENT_LENGTH);
  }

  /** The body read in front of an intact body text. */
  lemma ReadBodyIs(headers: Headers, body: string)
    ensures ReadBody(headers, Open(body)) ==
            if CONTENT_LENGTH !in headers then Ok("")
            else match Stoi(headers[CONTENT_LENGTH])
              case Err(e) => Err(e)
              case Ok(n) => if n < 0 then Err(LengthError) else Ok(Padded(body, n))
  {
    if CONTENT_LENGTH in headers && Stoi(headers[CONTENT_LENGTH]).Ok? && Stoi(headers[CONTENT_LENGTH]).value >= 0 {
      PaddedIsRead(Open(body), Stoi(headers[CONTENT_LENGTH]).value);
    }
  }

  lemma PaddedIsRead(s: Stream, n: nat)
    requires s.Sane()
    ensures var r := ReadBlock(s, n); r.text + Zeros(n)[|r.text|..] == Padded(s.rest, n)
  {
    var r := ReadBlock(s, n);
    if n <= |s.rest| {
      assert s.rest[..n] + [] == s.rest[..n];
    } else {
      assert Zeros(n)[|s.rest|..] == Zeros(n - |s.rest|);
    }
  }

  /** The parse once the start line and the header map are known and the body text is next. */
  function Assembled(start: StartLine, headers: Headers, body: string): Result<Request> {
    match ReadBody(headers, Open(body))
    case Err(e) => Err(e)
    case Ok(read) => Ok(Request(start.verb, start.target, start.version, headers, read))
  }

  /** Whatever stood on the start line: printed fields and body behind it are read back; if there
      is no field, the blank line itself becomes a header. */
  lemma ParseAfterStart(start: StartLine, fields: seq<Field>, body: string)
    requires FitLines(fields) && start.after == Open(PrintTail(fields, body))
    ensures fields != [] ==> ParseRest(start) == Assembled(start, FirstWins(map[], fields), body)
    ensures fields == [] && ParseRest(start).Ok? ==>
              "\r" in ParseRest(start).value.headers && ParseRest(start).value.headers["\r"] == ""
    ensures fields == [] && body == "" ==>
              ParseRest(start) == Ok(Request(start.verb, start.target, start.version, map["\r" := ""], ""))
  {
    if fields != [] {
      ParsePrintedFields(fields, body, 0, map[]);
    } else {
      BlankAfterStart(start, body);
    }
  }

  lemma BlankAfterStart(start: StartLine, body: string)
    requires start.after == Open(PrintTail([], body))
    ensures ParseRest(start).Ok? ==>
              "\r" in ParseRest(start).value.headers && ParseRest(start).value.headers["\r"] == ""
    ensures body == "" ==>
              ParseRest(start) == Ok(Request(start.verb, start.target, start.version, map["\r" := ""], ""))
  {
    BlankFirstLine(body);
    HeadersStay(Open(body), 1, map["\r" := ""], "\r");
    OnlyBlankHeader(start);
  }

  /** The assembled request has the intended headers and body exactly when the body is declared. */
  lemma AssembledExactly(start: StartLine, fields: seq<Field>, body: string)
    ensures var headers := FirstWins(map[], fields);
            var r := Assembled(start, headers, body);
            && (r.Ok? ==> r.value.headers == headers)
            && (DeclaresBody(fields, body) <==> r.Ok? && r.value.body == body)
            && (r.Ok? ==> r.value == Request(start.verb, start.target, start.version, headers, r.value.body))
  {
    var headers := FirstWins(map[], fields);
    ReadBodyIs(headers, body);
    if CONTENT_LENGTH in headers {
      PaddedWhole(body);
    }
  }

  lemma RequestStartLine(m: ClientRequest)
    requires WellFormed(m)
    ensures ParseStartLine(PrintRequest(m)) ==
            StartLine(m.verb, m.target, m.version, Open(PrintTail(m.fields, m.body)))
  {
    ThreeWordsLine(m.verb, m.target, m.version, PrintTail(m.fields, m.body));
  }

  lemma ThreeWordsLine(verb: string, target: string, version: string, tail: string)
    requires IsWord(verb) && IsWord(target) && IsWord(version)
    ensures ParseStartLine(verb + " " + target + " " + version + "\r\n" + tail) ==
            StartLine(verb, target, version, Open(tail))
  {
    NoSpaceLine(version);
    assert verb + " " + target + " " + "" == verb + " " + target + " ";
    StartLineAt(verb, target, "", version, tail);
  }

  lemma NoSpaceLine(word: string)
    requires IsWord(word)
    ensures '\n' !in word && !AllSpace(word) && FirstWord(word) == word
  {
    assert SpaceRun(word) == 0 && word[0..] == word && word[..|word|] == word;
  }

  /** Everything the parser makes of a printed well-formed request with a header: its words and its
      first-wins header map, and the body or the exception that the first Content-Length asks for. */
  lemma ParsePrintedRequest(m: ClientRequest)
    requires WellFormed(m) && m.fields != []
    ensures ParseRequest(PrintRequest(m)) ==
            Assembled(StartLine(m.verb, m.target, m.version, Open(PrintTail(m.fields, m.body))),
                      FirstWins(map[], m.fields), m.body)
  {
    RequestStartLine(m);
    ParseAfterStart(ParseStartLine(PrintRequest(m)), m.fields, m.body);
  }

  /** The request round trip, and exactly when it succeeds: there is a header, and the body is as
      long as the first Content-Length says. */
  lemma RequestRoundTrip(m: ClientRequest)
    requires WellFormed(m)
    ensures ParseRequest(PrintRequest(m)) ==
              Ok(Request(m.verb, m.target, m.version, FirstWins(map[], m.fields), m.body))
            <==> m.fields != [] && DeclaresBody(m.fields, m.body)
  {
    RequestStartLine(m);
    ParseAfterStart(ParseStartLine(PrintRequest(m)), m.fields, m.body);
    if m.fields != [] {
      AssembledExactly(ParseStartLine(PrintRequest(m)), m.fields, m.body);
    }
  }

  /** Reading n characters returns the whole text exactly when n is its length. */
  lemma PaddedWhole(body: string)
    ensures forall n: nat :: Padded(body, n) == body <==> n == |body|
  {
    forall n: nat ensures Padded(body, n) == body <==> n == |body| {
      assert |Padded(body, n)| == n;
      assert body[..|body|] == body;
    }
  }

  /** A decimal Content-Length declares its number, up to the largest int; beyond it the conversion
      throws and the request is lost. */
  lemma DecimalDeclares(fields: seq<Field>, body: string)
    requires FirstWins(map[], fields).Keys >= {CONTENT_LENGTH}
    requires FirstWins(map[], fields)[CONTENT_LENGTH] == ToDecimal(|body|)
    ensures DeclaresBody(fields, body) <==> |body| <= 2147483647
  {
    StoiOfDecimal(|body|);
  }

  // ---------------------------------------------------------------- no header at all

  /** Without headers the blank line is taken for a header: the parse of a request that has no
      header never has an empty header map, and without a body this is the only header. */
  lemma BlankLineBecomesHeader(m: ClientRequest)
    requires WellFormed(m) && m.fields == []
    ensures var r := ParseRequest(PrintRequest(m)); r.Ok? ==> "\r" in r.value.headers
    ensures m.body == "" ==>
              ParseRequest(PrintRequest(m)) == Ok(Request(m.verb, m.target, m.version, map["\r" := ""], ""))
  {
    RequestStartLine(m);
    BlankAfterStart(ParseStartLine(PrintRequest(m)), m.body);
  }

  lemma OnlyBlankHeader(start: StartLine)
    ensures var r := ParseRest(start); r.Ok? ==> r.value.headers == ParseFields(start.after, 0, map[]).headers
    ensures ParseFields(start.after, 0, map[]).headers == map["\r" := ""] ==>
              ParseRest(start) == Ok(Request(start.verb, start.target, start.version, map["\r" := ""], ""))
  {
    assert |CONTENT_LENGTH| != |"\r"|;
  }

  lemma BlankFirstLine(body: string)
    ensures ParseFields(Open(PrintTail([], body)), 0, map[]) == ParseFields(Open(body), 1, map["\r" := ""])
  {
    TailIs([], body);
    assert "" + ("\r" + ['\n'] + body) == "\r" + ['\n'] + body;
    FirstLineStored("\r", body);
  }

  /** A header that is in the map stays there. */
  lemma {:induction false} HeadersStay(s: Stream, count: nat, headers: Headers, name: string)
    requires name in headers
    ensures name in ParseFields(s, count, headers).headers
    ensures ParseFields(s, count, headers).headers[name] == headers[name]
    ensures s == Open("") ==> ParseFields(s, count, headers).headers == headers
    decreases |s.rest|
  {
    var r := GetLine(s, "", '\n');
    if !(r.after.fail || r.text == "" || (!HasSeparator(r.text) && count > 0)) {
      HeadersStay(r.after, count + 1, Emplace(headers, HeaderName(r.text), HeaderValue(r.text)), name);
    }
  }

  // ---------------------------------------------------------------- every buffer

  predicate Suffix(a: string, b: string) { |a| <= |b| && b[|b| - |a|..] == a }

  lemma SuffixOf(front: string, a: string, b: string)
    requires Suffix(front + a, b)
    ensures Suffix(a, b)
  {
  }

  lemma ExtractSuffix(s: Stream, text: string)
    requires s.Sane() && Suffix(s.rest, text)
    ensures Suffix(Extract(s, "").after.rest, text) && Extract(s, "").after.Sane()
  {
    var r := Extract(s, "");
    if s.Good() && !AllSpace(s.rest) {
      ExtractConserves(s, "");
      SuffixOf(s.rest[..SpaceRun(s.rest)] + r.text, r.after.rest, text);
    } else {
      SuffixOf(s.rest, "", text) by { assert s.rest + "" == s.rest; }
    }
  }

  lemma GetLineSuffix(s: Stream, text: string)
    requires s.Sane() && Suffix(s.rest, text)
    ensures Suffix(GetLine(s, "", '\n').after.rest, text) && GetLine(s, "", '\n').after.Sane()
  {
    var r := GetLine(s, "", '\n');
    if s.Good() {
      SuffixOf(r.text + (if r.after.eof then "" else ['\n']), r.after.rest, text);
    }
  }

  lemma {:induction false} ParseFieldsSuffix(s: Stream, count: nat, headers: Headers, text: string)
    requires s.Sane() && Suffix(s.rest, text)
    ensures var block := ParseFields(s, count, headers); Suffix(block.after.rest, text) && block.after.Sane()
    decreases |s.rest|
  {
    var r := GetLine(s, "", '\n');
    GetLineSuffix(s, text);
    if !(r.after.fail || r.text == "" || (!HasSeparator(r.text) && count > 0)) {
      ParseFieldsSuffix(r.after, count + 1, Emplace(headers, HeaderName(r.text), HeaderValue(r.text)), text);
    }
  }

  /** The text that is still unread when the body is about to be read. */
  function Unread(text: string): string {
    ParseFields(ParseStartLine(text).after, 0, map[]).after.rest
  }

  function ParsedHeaders(text: string): Headers {
    ParseFields(ParseStartLine(text).after, 0, map[]).headers
  }

  /** Parsing throws exactly when the first Content-Length is not a number that an int can hold, or is
      negative, and then with the exception of the conversion or of the string; otherwise the body has
      the declared length, and is the unread text, with a '0' in every place that this does not reach. */
  predicate Verdict(headers: Headers, unread: string, r: Result<Request>) {
    match r
    case Err(e) =>
      && CONTENT_LENGTH in headers
      && var length := Stoi(headers[CONTENT_LENGTH]);
      && (if length.Err? then e == length.error else length.value < 0 && e == LengthError)
    case Ok(req) => req.headers == headers && BodyFits(headers, unread, req.body)
  }

  predicate BodyFits(headers: Headers, unread: string, body: string) {
    && (CONTENT_LENGTH !in headers ==> body == "")
    && (CONTENT_LENGTH in headers ==>
          && Stoi(headers[CONTENT_LENGTH]) == Ok(|body|)
          && forall k | 0 <= k < |body| :: body[k] == if k < |unread| then unread[k] else '0')
  }

  /** For every buffer whatever, the parse is as the header map and the unread text demand, and the
      latter is an end piece of the buffer. */
  lemma ParsedBody(text: string)
    ensures Suffix(Unread(text), text) && Verdict(ParsedHeaders(text), Unread(text), ParseRequest(text))
  {
    UnreadIsSuffix(text);
    RestVerdict(ParseStartLine(text));
  }

  lemma RestVerdict(start: StartLine)
    requires ParseFields(start.after, 0, map[]).after.Sane()
    ensures var block := ParseFields(start.after, 0, map[]); Verdict(block.headers, block.after.rest, ParseRest(start))
  {
    var block := ParseFields(start.after, 0, map[]);
    ReadBodyVerdict(block.headers, block.after);
  }

  lemma ReadBodyVerdict(headers: Headers, s: Stream)
    requires s.Sane()
    ensures match ReadBody(headers, s)
            case Err(e) =>
              && CONTENT_LENGTH in headers
              && var length := Stoi(headers[CONTENT_LENGTH]);
              && (if length.Err? then e == length.error else length.value < 0 && e == LengthError)
            case Ok(body) => BodyFits(headers, s.rest, body)
  {
    if CONTENT_LENGTH in headers {
      var length := Stoi(headers[CONTENT_LENGTH]);
      if length.Ok? && length.value >= 0 {
        PaddedIsRead(s, length.value);
        assert |Padded(s.rest, length.value)| == length.value;
      }
    }
  }

  lemma UnreadIsSuffix(text: string)
    ensures Suffix(Unread(text), text)
    ensures ParseFields(ParseStartLine(text).after, 0, map[]).after.Sane()
  {
    var verb := Extract(Open(text), "");
    var target := Extract(verb.after, "");
    ExtractSuffix(Open(text), text);
    ExtractSuffix(verb.after, text);
    ExtractSuffix(target.after, text);
    GetLineSuffix(Extract(target.after, "").after, text);
    ParseFieldsSuffix(ParseStartLine(text).after, 0, map[], text);
  }
}
