/** One WebSocket connection: its listener object, and the coroutine that forwards a message to the
    upstream server and hands back a reply. */
module Listener {
  import opened Decimal
  import opened HttpParser
  import opened HttpRoundTrip
  import opened ResponseRoundTrip
  import opened Forwarding
  import opened Reassembly

  datatype Option<+T> = None | Some(value: T)

  /** How the exchange with the upstream server goes. An exception is a std::exception or not, and
      strikes before or after the request has been handed to the socket. */
  datatype Exchange =
    | ResolveFailed
    | ConnectFailed
    | WriteFailed
    | ReadFailed
    | Threw(standard: bool, written: bool)
    | Responded(res: Response)

  /** How the coroutine ends: with its result, or with an exception that it did not catch. */
  datatype Completion = Returned(text: string) | Raised(standard: bool)

  function Coroutine(msg: string, x: Exchange): Completion {
    if ParseRequest(msg).Err? then Returned("error")
    else match x
      case Responded(res) => Returned(PrintResponse(res))
      case Threw(standard, _) => if standard then Returned("error") else Raised(false)
      case _ => Returned("error")
  }

  /** The completion handler: the text that is sent to the client, if any. */
  function Handler(completion: Completion): Option<string> {
    match completion
    case Raised(_) => None
    case Returned(text) => if text == "" then None else Some(text)
  }

  /** The request is handed to the upstream socket. */
  predicate ReachesSocket(x: Exchange) { x.WriteFailed? || x.ReadFailed? || x.Responded? || (x.Threw? && x.written) }

  predicate IsReply(text: string) { text == "error" || "HTTP/" <= text }

  predicate Sendable(sent: Option<string>) { sent.Some? ==> sent.value != "" && IsReply(sent.value) }

  /** An exception that the coroutine does not catch. */
  predicate IsForeign(x: Exchange) { x.Threw? && !x.standard }

  /** What a client gets for a message that could be parsed, or could not: the upstream server's response,
      printed; nothing after a foreign exception; "error" in every other case. */
  predicate FitsExchange(parsed: bool, x: Exchange, sent: Option<string>) {
    if parsed && x.Responded? then sent == Some(PrintResponse(x.res))
    else if parsed && IsForeign(x) then sent == None
    else sent == Some("error")
  }

  /** Which text the handler sends for which exchange; it is "error" or begins like a status line. An
      empty text would not be sent. */
  lemma HandlerReplies(msg: string, x: Exchange)
    ensures FitsExchange(ParseRequest(msg).Ok?, x, Handler(Coroutine(msg, x))) && Handler(Returned("")) == None
    ensures Sendable(Handler(Coroutine(msg, x)))
  {
    if x.Responded? {
      var res := x.res;
      VersionWord(res.version);
      var rest := " " + ToDecimal(res.status) + " " + res.reason + "\r\n" + PrintTail(res.fields, res.body);
      var version := VersionText(res.version);
      assert PrintResponse(res) == version + rest;
      assert (version + rest)[..5] == version[..5];
    }
  }

  function LastDigit(drawn: nat): char { ('2' as int + drawn % 4) as char }

  /** `port.back() = '0' + drawn % 4 + 2`. */
  function Rotate(port: string, drawn: nat): string
    requires port != ""
  {
    port[..|port| - 1] + [LastDigit(drawn)]
  }

  function RotateAll(port: string, draws: seq<nat>): string
    requires port != ""
    decreases |draws|
  {
    if draws == [] then port else RotateAll(Rotate(port, draws[0]), draws[1..])
  }

  /** However often the port is rotated, only its last character changes, as the last draw says. */
  lemma {:induction false} RotateAllIs(port: string, draws: seq<nat>)
    requires port != "" && draws != []
    ensures RotateAll(port, draws) == port[..|port| - 1] + ["2345"[draws[|draws| - 1] % 4]]
    decreases |draws|
  {
    var p := Rotate(port, draws[0]);
    assert p[..|p| - 1] == port[..|port| - 1];
    if |draws| > 1 {
      RotateAllIs(p, draws[1..]);
    }
  }

  /** For a decimal port: the tens stay, the last digit ends up in 2 to 5, and a valid port number
      stays valid. */
  lemma RotationIsBounded(port: string, draws: seq<nat>)
    requires port != "" && draws != [] && AllDigits(port)
    ensures var p := RotateAll(port, draws);
            && AllDigits(p)
            && Value(p) / 10 == Value(port) / 10
            && Value(p) % 10 == 2 + draws[|draws| - 1] % 4
            && (Value(port) <= 65535 ==> Value(p) <= 65535)
  {
    var front, last, drawn := port[..|port| - 1], port[|port| - 1], LastDigit(draws[|draws| - 1]);
    RotateAllIs(port, draws);
    assert port == front + [last];
    LastDigitValue(front, last);
    LastDigitValue(front, drawn);
    Tens(Value(front), Digit(last), Digit(drawn));
  }

  lemma LastDigitValue(front: string, digit: char)
    requires AllDigits(front) && IsDigit(digit)
    ensures AllDigits(front + [digit])
    ensures Value(front + [digit]) == 10 * Value(front) + Digit(digit)
  {
    assert (front + [digit])[..|front|] == front;
  }

  lemma Tens(tens: nat, a: nat, b: nat)
    requires a < 10 && 2 <= b <= 5
    ensures (10 * tens + a) / 10 == (10 * tens + b) / 10 == tens && (10 * tens + b) % 10 == b
    ensures 10 * tens + a <= 65535 ==> 10 * tens + b <= 65535
  {
  }

  datatype ForwardedRequest =
    ForwardedRequest(verb: string, target: string, version: nat, fields: FieldMap, body: string)

  // Beast's default is version 1.1.
  function VersionNumber(version: string): nat { if version == "HTTP/1.0" then 10 else 11 }

  ghost predicate IsForwardOf(sent: ForwardedRequest, req: Request, stamp: Stamp) {
    && sent.verb == req.verb && sent.target == req.target && sent.body == req.body
    && sent.version == VersionNumber(req.version)
    && exists loop :: ForwardedSomehow(req.headers, loop) && sent.fields == Stamped(loop, stamp, req.body)
  }

  /** The request that is sent when the headers are walked through in the given order. */
  function MakeForward(req: Request, order: seq<string>, stamp: Stamp): ForwardedRequest {
    ForwardedRequest(req.verb, req.target, VersionNumber(req.version),
                     Stamped(Forwarded(req.headers, order), stamp, req.body), req.body)
  }

  lemma ForwardIs(req: Request, order: seq<string>, stamp: Stamp)
    requires OrderOf(req.headers, order)
    ensures IsForwardOf(MakeForward(req, order, stamp), req, stamp)
  {
    assert ForwardedSomehow(req.headers, Forwarded(req.headers, order));
  }

  /** The fields are the gateway's own for these names. Every other one is a clean client field, and
      there is one for the name of each clean client field: itself, if nothing competes with it. */
  ghost predicate CarriesFields(m: ClientRequest, fields: FieldMap, stamp: Stamp) {
    && Overridden(m.body) <= fields.Keys
    && fields["x-arrived-time"] == stamp.arrived
    && fields["x-client-id"] == stamp.clientID
    && fields["host"] == stamp.host
    && (m.body != "" ==> fields["content-length"] == ToDecimal(|m.body|))
    && (forall i: nat | Passes(m, i) :: Lower(m.fields[i].name) in fields)
    && (forall i: nat | Passes(m, i) && Unopposed(FirstWins(map[], m.fields), m.fields[i].name, m.fields[i].value) ::
          fields[Lower(m.fields[i].name)] == m.fields[i].value)
    && forall key | key in fields && key !in Overridden(m.body) :: FromClient(m, key, fields[key])
  }

  /** The `i`-th field is the first of its name, clean, and not called like one of the gateway's. */
  predicate Passes(m: ClientRequest, i: nat) {
    && i < |m.fields| && FirstAt(m.fields, m.fields[i].name, i)
    && '\r' !in m.fields[i].name && '\n' !in m.fields[i].name
    && '\r' !in m.fields[i].value && '\n' !in m.fields[i].value
    && Lower(m.fields[i].name) !in Overridden(m.body)
  }

  /** Some field that passes has this name, up to case, and this value. */
  ghost predicate FromClient(m: ClientRequest, key: string, value: string) {
    && '\r' !in key && '\n' !in key && '\r' !in value && '\n' !in value
    && exists i: nat :: Passes(m, i) && Lower(m.fields[i].name) == key && m.fields[i].value == value
  }

  /** The client's words, version and body, and its fields as far as the gateway lets them pass. */
  ghost predicate CarriesRequest(m: ClientRequest, sent: ForwardedRequest, stamp: Stamp) {
    && sent.verb == m.verb && sent.target == m.target && sent.body == m.body
    && VersionText(sent.version) == (if m.version in {"HTTP/1.0", "HTTP/1.1"} then m.version else "HTTP/1.1")
    && CarriesFields(m, sent.fields, stamp)
  }

  /** What reaches the upstream server of a client's printed request is that request, with nothing
      added but the gateway's own fields. */
  lemma RequestArrives(m: ClientRequest, sent: ForwardedRequest, stamp: Stamp)
    requires WellFormed(m) && m.fields != [] && DeclaresBody(m.fields, m.body)
    requires ParseRequest(PrintRequest(m)).Ok? && IsForwardOf(sent, ParseRequest(PrintRequest(m)).value, stamp)
    ensures CarriesRequest(m, sent, stamp)
  {
    RequestRoundTrip(m);
    FieldsArrive(m, sent.fields, stamp);
  }

  lemma FieldsArrive(m: ClientRequest, fields: FieldMap, stamp: Stamp)
    requires exists loop :: ForwardedSomehow(FirstWins(map[], m.fields), loop) && fields == Stamped(loop, stamp, m.body)
    ensures CarriesFields(m, fields, stamp)
  {
    var headers := FirstWins(map[], m.fields);
    var loop :| ForwardedSomehow(headers, loop) && fields == Stamped(loop, stamp, m.body);
    var order :| OrderOf(headers, order) && loop == Forwarded(headers, order);
    StampedIs(loop, stamp, m.body);
    forall i: nat | Passes(m, i)
      ensures Lower(m.fields[i].name) in fields
      ensures Unopposed(headers, m.fields[i].name, m.fields[i].value) ==>
                fields[Lower(m.fields[i].name)] == m.fields[i].value
    {
      HeaderArrives(m, order, stamp, i);
    }
    forall key | key in fields && key !in Overridden(m.body) ensures FromClient(m, key, fields[key]) {
      ForwardingIsSafe(headers, order, stamp, m.body, key);
      var h :| Survives(headers, h) && Lower(h) == key && fields[key] == headers[h];
      IsFromClient(m, h);
    }
  }

  lemma IsFromClient(m: ClientRequest, h: string)
    requires Survives(FirstWins(map[], m.fields), h) && Lower(h) !in Overridden(m.body)
    ensures FromClient(m, Lower(h), FirstWins(map[], m.fields)[h])
  {
    FirstWinsIs(map[], m.fields, h);
    LowerKeepsClean(h);
    var i: nat :| FirstAt(m.fields, h, i);
    assert Passes(m, i);
  }

  class WebSocketListener {
    var m_messageBuffer: string
    const clientID: string
    const http_server_address_: string
    var http_server_port_: string

    constructor (id: string, host: string, port: string)
      ensures m_messageBuffer == "" && clientID == id
      ensures http_server_address_ == host && http_server_port_ == port
    {
      m_messageBuffer, clientID, http_server_address_, http_server_port_ := "", id, host, port;
    }

    /** Returns the message that is handed to the coroutine, if the call completes one. */
    method ReadMessage(data: string, size: int) returns (wholeMessage: Option<string>)
      requires size <= |data|
      modifies this`m_messageBuffer
      ensures size == 0 ==> wholeMessage == Some(old(m_messageBuffer)) && m_messageBuffer == ""
      ensures size > 0 ==> wholeMessage == None && m_messageBuffer == old(m_messageBuffer) + data[..size]
      ensures size < 0 ==> wholeMessage == None && m_messageBuffer == old(m_messageBuffer)
      ensures var after := Receive(Inbox(old(m_messageBuffer), []), FrameOf(Call(data, size)));
              && m_messageBuffer == after.buffer
              && after.messages == (if wholeMessage.Some? then [wholeMessage.value] else [])
    {
      wholeMessage := None;
      if size == 0 {
        wholeMessage := Some(m_messageBuffer);
        m_messageBuffer := "";
      } else if size > 0 {
        m_messageBuffer := m_messageBuffer + data[..size];
      }
    }

    /** The fields of the request before the connection is made: only the host is missing. */
    method PrepareFields(req: Request, arrived: string) returns (fields: FieldMap)
      ensures exists loop :: ForwardedSomehow(req.headers, loop) && forall host ::
                Set(fields, HOST, host) == Stamped(loop, Stamp(arrived, clientID, host), req.body)
    {
      var loop := SetHeaders(req.headers);
      fields := Set(loop, ARRIVED, arrived);
      fields := Set(fields, CLIENT, clientID);
      if req.body != "" {
        fields := Set(fields, CONTENT_LENGTH, ToDecimal(|req.body|));
      }
      assert forall host :: Set(fields, HOST, host) == Stamped(loop, Stamp(arrived, clientID, host), req.body);
    }

    /** Two versions are set; otherwise the new request keeps Beast's own. */
    method ChooseVersion(version: string) returns (number: nat)
      ensures number == VersionNumber(version)
      ensures VersionText(number) == if version in {"HTTP/1.0", "HTTP/1.1"} then version else "HTTP/1.1"
    {
      number := 11;
      if version == "HTTP/1.1" {
        number := 11;
      } else if version == "HTTP/1.0" {
        number := 10;
      }
    }

    /** The coroutine, with the outcome of its network operations as a parameter. `sent` is the
        request it hands to the upstream socket, if it gets that far. */
    method AsyncHttpClient(msg: string, drawn: nat, arrived: string, x: Exchange)
      returns (completion: Completion, sent: Option<ForwardedRequest>)
      requires http_server_port_ != "" && |msg| <= MAX_SIZE
      modifies this`http_server_port_
      ensures http_server_port_ == Rotate(old(http_server_port_), drawn)
      ensures completion == Coroutine(msg, x) && FitsExchange(ParseRequest(msg).Ok?, x, Handler(completion))
      ensures sent.None? <==>
                ParseRequest(msg).Err? || x.ResolveFailed? || x.ConnectFailed? || (x.Threw? && !x.written)
      ensures sent.Some? ==>
                IsForwardOf(sent.value, ParseRequest(msg).value, Stamp(arrived, clientID, http_server_address_))
    {
      HandlerReplies(msg, x);
      var result := "error";
      sent := None;
      var digit := ('0' as int + drawn % 4 + 2) as char;
      http_server_port_ := http_server_port_[..|http_server_port_| - 1] + [digit];
      var parsed := CreateRequestFromBuffer(msg);
      if parsed.Err? {
        return Returned("error"), None;
      }
      var req := parsed.value;
      var version := ChooseVersion(req.version);
      var fields := PrepareFields(req, arrived);
      if x.Threw? && !x.written {
        return if x.standard then Returned("error") else Raised(false), None;
      }
      if x.ResolveFailed? || x.ConnectFailed? {
        return Returned(result), None;
      }
      fields := Set(fields, HOST, http_server_address_);
      var forwarded := ForwardedRequest(req.verb, req.target, version, fields, req.body);
      assert IsForwardOf(forwarded, req, Stamp(arrived, clientID, http_server_address_));
      sent := Some(forwarded);
      if x.Threw? {
        return if x.standard then Returned("error") else Raised(false), sent;
      }
      if x.WriteFailed? || x.ReadFailed? {
        return Returned(result), sent;
      }
      result := BuildResponseStringBuffer(x.res);
      completion := Returned(result);
    }
  }
}
