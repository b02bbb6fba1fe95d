/** The gateway's own HTTP/1.x text parser and printer (message format of sections 3, 4, 5 and 6.3
    of RFC 9112), as it reads and writes it: not as the standard would. */
module HttpParser {
  import opened TextStream
  import opened Decimal

  // std::size_t: 64 bits, wrapping; npos is its largest value. No string is longer than MAX_SIZE.
  const SIZE_MODULUS := 0x1_0000_0000_0000_0000
  const NPOS: nat := SIZE_MODULUS - 1
  const MAX_SIZE := 0x7FFF_FFFF_FFFF_FFFF
  const CONTENT_LENGTH := "Content-Length"

  type Headers = map<string, string>

  /** What the parser returns. */
  datatype Request = Request(verb: string, target: string, version: string, headers: Headers, body: string)

  datatype Field = Field(name: string, value: string)

  /** A response as Beast hands it over: the reason is the text that `reason()` returns. */
  datatype Response = Response(version: nat, status: nat, reason: string, fields: seq<Field>, body: string)

  function Wrap(n: int): nat { n % SIZE_MODULUS }

  /** The position of the first ": ", or the length when there is none. */
  function Separator(line: string): (p: nat)
    ensures p == |line| || (p + 2 <= |line| && line[p] == ':' && line[p + 1] == ' ')
  {
    if |line| < 2 then |line|
    else if line[0] == ':' && line[1] == ' ' then 0
    else 1 + Separator(line[1..])
  }

  predicate HasSeparator(line: string) { Separator(line) < |line| }

  /** `line.find(": ")`. */
  function Find(line: string): nat { if HasSeparator(line) then Separator(line) else NPOS }

  /** `s.substr(pos, count)`, which throws when it would start behind the end. */
  function Substr(s: string, pos: nat, count: nat): Result<string> {
    if pos > |s| then Err(OutOfRange)
    else Ok(if pos + count <= |s| then s[pos..pos + count] else s[pos..])
  }

  function HeaderName(line: string): string { line[..Separator(line)] }

  /** What stands between the separator and the last character of the line. A line without a
      separator loses its first and its last character instead. */
  function HeaderValue(line: string): string {
    var start := if HasSeparator(line) then Separator(line) + 2 else 1;
    if start < |line| then line[start..|line| - 1] else ""
  }

  /** No `substr` of the parser throws, and the wrapped sizes mean what HeaderValue says. */
  lemma SubstrNeverThrows(line: string)
    requires line != "" && |line| <= MAX_SIZE
    ensures var p := Find(line);
            && Substr(line, 0, p) == Ok(HeaderName(line))
            && Wrap(p + 2) <= |line|
            && Substr(line, Wrap(p + 2), Wrap(|line| - Wrap(p + 2) - 1)) == Ok(HeaderValue(line))
  {
    var start := if HasSeparator(line) then Separator(line) + 2 else 1;
    assert line[..|line|] == line;
    WrapIs(Find(line) + 2, start);
    ValueCut(line, start);
  }

  lemma WrapIs(n: int, w: nat)
    requires w < SIZE_MODULUS && (n == w || n == w + SIZE_MODULUS || n == w - SIZE_MODULUS)
    ensures Wrap(n) == w
  {
  }

  /** From `start` up to the last character; a start at the end asks for npos characters. */
  lemma ValueCut(line: string, start: nat)
    requires start <= |line| <= MAX_SIZE
    ensures Substr(line, start, Wrap(|line| - start - 1)) ==
            Ok(if start < |line| then line[start..|line| - 1] else "")
  {
    if start == |line| {
      WrapIs(-1, NPOS);
      assert line[start..] == "";
    } else {
      WrapIs(|line| - start - 1, |line| - start - 1);
    }
  }

  /** `headers.try_emplace(name, value)`: the first occurrence of a name stays. */
  function Emplace(headers: Headers, name: string, value: string): Headers {
    if name in headers then headers else headers[name := value]
  }

  datatype FieldBlock = FieldBlock(headers: Headers, after: Stream)

  /** The header loop, with `count` lines taken and the next one, `r`, just read. */
  function ParseFrom(r: Reading, count: nat, headers: Headers): FieldBlock
    decreases if r.after.fail then 0 else |r.after.rest| + 1
  {
    if r.after.fail || r.text == "" || (!HasSeparator(r.text) && count > 0) then FieldBlock(headers, r.after)
    else
      ParseFrom(GetLine(r.after, "", '\n'), count + 1, Emplace(headers, HeaderName(r.text), HeaderValue(r.text)))
  }

  function ParseFields(s: Stream, count: nat, headers: Headers): FieldBlock {
    ParseFrom(GetLine(s, "", '\n'), count, headers)
  }

  function Zeros(n: nat): string { seq(n, i => '0') }

  /** `n` characters: the unread text, filled up with '0' when it is too short. */
  function Padded(unread: string, n: nat): string {
    if n <= |unread| then unread[..n] else unread + Zeros(n - |unread|)
  }

  function ReadBody(headers: Headers, s: Stream): Result<string> {
    if CONTENT_LENGTH !in headers then Ok("")
    else match Stoi(headers[CONTENT_LENGTH])
      case Err(e) => Err(e)
      case Ok(n) =>
        if n < 0 then Err(LengthError)
        else var r := ReadBlock(s, n); Ok(r.text + Zeros(n)[|r.text|..])
  }

  datatype StartLine = StartLine(verb: string, target: string, version: string, after: Stream)

  /** The three words, and the rest of the line of the third one dropped. */
  function ParseStartLine(text: string): StartLine {
    var verb := Extract(Open(text), "");
    var target := Extract(verb.after, "");
    var version := Extract(target.after, "");
    StartLine(verb.text, target.text, version.text, GetLine(version.after, "", '\n').after)
  }

  function ParseRequest(text: string): Result<Request> { ParseRest(ParseStartLine(text)) }

  /** The headers and the body behind the start line. */
  function ParseRest(start: StartLine): Result<Request> {
    var block := ParseFields(start.after, 0, map[]);
    match ReadBody(block.headers, block.after)
    case Err(e) => Err(e)
    case Ok(body) => Ok(Request(start.verb, start.target, start.version, block.headers, body))
  }

  /** The text that the line variable holds beforehand is irrelevant. */
  lemma ParseFieldsTurn(s: Stream, previous: string, count: nat, headers: Headers)
    ensures ParseFields(s, count, headers) == ParseFrom(GetLine(s, previous, '\n'), count, headers)
    ensures GetLine(s, previous, '\n').after == GetLine(s, "", '\n').after
    ensures |GetLine(s, previous, '\n').text| <= |s.rest| || GetLine(s, previous, '\n').text == previous
  {
  }

  method CreateRequestFromBuffer(buffer: string) returns (result: Result<Request>)
    requires |buffer| <= MAX_SIZE
    ensures result == ParseRequest(buffer)
  {
    var stream := new InputStringStream(buffer);
    var verb := stream.ExtractWord("");
    var target := stream.ExtractWord("");
    var version := stream.ExtractWord("");
    assert stream.data == buffer;
    var headers, headerLine := ReadHeaders(stream);
    var body := FillBody(stream, headers);
    if body.Err? {
      return Err(body.error);
    }
    return Ok(Request(verb, target, version, headers, body.value));
  }

  /** The part of the function that reads the body; its exceptions leave the function. */
  method FillBody(stream: InputStringStream, headers: Headers) returns (result: Result<string>)
    requires stream.Valid()
    modifies stream
    ensures stream.Valid() && result == ReadBody(headers, old(stream.State()))
  {
    var body := "";
    if CONTENT_LENGTH in headers {
      var contentLength := Stoi(headers[CONTENT_LENGTH]);
      if contentLength.Err? {
        return Err(contentLength.error);
      }
      if contentLength.value < 0 {
        return Err(LengthError);
      }
      body := Zeros(contentLength.value);
      body := stream.Read(body);
    }
    return Ok(body);
  }

  /** The two `substr` calls of the header loop; neither of them throws. */
  method CutHeaderLine(line: string, delimiterPos: nat) returns (name: string, value: string)
    requires line != "" && |line| <= MAX_SIZE && delimiterPos == Find(line)
    ensures name == HeaderName(line) && value == HeaderValue(line)
  {
    SubstrNeverThrows(line);
    name := Substr(line, 0, delimiterPos).value;
    var start := Wrap(delimiterPos + 2);
    value := Substr(line, start, Wrap(|line| - start - 1)).value;
  }

  /** The part of the function that reads lines. */
  method ReadHeaders(stream: InputStringStream) returns (headers: Headers, headerLine: string)
    requires stream.Valid() && |stream.data| <= MAX_SIZE
    modifies stream
    ensures stream.Valid()
    ensures ParseFields(GetLine(old(stream.State()), "", '\n').after, 0, map[]) ==
            FieldBlock(headers, stream.State())
  {
    headers := map[];
    var ok: bool;
    var mycount := 0;
    headerLine, ok := stream.ReadLine("", '\n');
    ghost var block := ParseFields(stream.State(), 0, map[]);
    ParseFieldsTurn(stream.State(), headerLine, 0, headers);
    headerLine, ok := stream.ReadLine(headerLine, '\n');
    while ok && headerLine != ""
      invariant stream.Valid() && ok == !stream.fail && |headerLine| <= |stream.data|
      invariant block == ParseFrom(Reading(stream.State(), headerLine), mycount, headers)
      decreases ok, |stream.State().rest|
    {
      mycount := mycount + 1;
      var delimiterPos := Find(headerLine);
      if delimiterPos == NPOS && mycount > 1 {
        break;
      }
      var headerName, headerValue := CutHeaderLine(headerLine, delimiterPos);
      headers := Emplace(headers, headerName, headerValue);
      ParseFieldsTurn(stream.State(), headerLine, mycount, headers);
      headerLine, ok := stream.ReadLine(headerLine, '\n');
    }
  }

  // ---------------------------------------------------------------- printing

  function VersionText(version: nat): string {
    if version == 10 then "HTTP/1.0"
    else if version == 11 then "HTTP/1.1"
    else "HTTP/" + ToDecimal(version / 10) + "." + ToDecimal(version % 10)
  }

  function FieldLine(f: Field): string { f.name + ": " + f.value }

  function PrintFields(fields: seq<Field>): string {
    if fields == [] then "" else FieldLine(fields[0]) + "\r\n" + PrintFields(fields[1..])
  }

  /** The fields, the blank line and the body. */
  function PrintTail(fields: seq<Field>, body: string): string { PrintFields(fields) + "\r\n" + body }

  function PrintResponse(res: Response): string {
    VersionText(res.version) + " " + ToDecimal(res.status) + " " + res.reason + "\r\n"
    + PrintTail(res.fields, res.body)
  }

  method BuildResponseStringBuffer(res: Response) returns (text: string)
    ensures text == PrintResponse(res)
  {
    var version: string;
    match res.version {
      case 10 => version := "HTTP/1.0";
      case 11 => version := "HTTP/1.1";
      case _ => version := "HTTP/" + ToDecimal(res.version / 10) + "." + ToDecimal(res.version % 10);
    }
    var oss := version + " " + ToDecimal(res.status) + " " + res.reason + "\r\n";
    ghost var startLine := oss;
    for i := 0 to |res.fields|
      invariant oss + PrintFields(res.fields[i..]) == startLine + PrintFields(res.fields)
    {
      var field := res.fields[i];
      assert res.fields[i..][1..] == res.fields[i + 1..];
      Assoc(oss, FieldLine(field) + "\r\n", PrintFields(res.fields[i + 1..]));
      oss := oss + (field.name + ": " + field.value + "\r\n");
    }
    oss := oss + "\r\n";
    text := oss + res.body;
    Assoc(startLine, PrintFields(res.fields) + "\r\n", res.body);
    Assoc(startLine, PrintFields(res.fields), "\r\n");
  }
}
