/** The whole data path as a state machine: any number of sockets receive frames, pings and pongs,
    and finished messages are answered by coroutines that end in any order. */
module Gateway {
  import TextStream
  import opened Decimal
  import opened HttpParser
  import opened HttpRoundTrip
  import opened ResponseRoundTrip
  import opened Forwarding
  import opened Reassembly
  import opened Listener

  datatype Message = Message(socket: nat, text: string)

  /** A finished message, and the time at which its closing call came. */
  datatype Dispatch = Dispatch(socket: nat, text: string, arrived: string)

  /** A request handed to the upstream socket for the dispatched message number `ticket`. */
  datatype Forward = Forward(ticket: nat, request: ForwardedRequest)

  /** A text frame sent back for the dispatched message number `ticket`. */
  datatype Reply = Reply(ticket: nat, socket: nat, text: string)

  /** The client ID of each socket, and the upstream host; the buffer of each socket; the messages
      dispatched so far, numbered in this order; which of them still wait for their coroutine; the
      requests sent upstream; the frames sent; the messages lost to a foreign exception. */
  datatype World = World(
    clients: seq<string>,
    host: string,
    buffers: seq<string>,
    dispatched: seq<Dispatch>,
    pending: set<nat>,
    forwarded: seq<Forward>,
    replies: seq<Reply>,
    lost: set<nat>,
    pongs: seq<Message>)

  /** A call of `readMessage` at some time; a ping or a pong; or the coroutine of a message runs, with
      the outcome of its exchange, and the order in which its headers are walked through. */
  datatype Event =
    | Read(socket: nat, call: ReadCall, now: string)
    | Ping(socket: nat, payload: string)
    | Pong(socket: nat, payload: string)
    | Complete(ticket: nat, exchange: Exchange, order: seq<string>)

  function Start(clients: seq<string>, host: string): World {
    World(clients, host, seq(|clients|, i => ""), [], {}, [], [], {}, [])
  }

  /** One event. An event that cannot happen now leaves the world as it is. */
  function Apply(w: World, e: Event): (v: World)
    ensures |v.buffers| == |w.buffers| && v.clients == w.clients && v.host == w.host
  {
    match e
    case Read(s, call, now) =>
      if s >= |w.buffers| then w
      else
        var inbox := Receive(Inbox(w.buffers[s], []), FrameOf(call));
        var v := w.(buffers := w.buffers[s := inbox.buffer]);
        if inbox.messages == [] then v
        else v.(dispatched := w.dispatched + [Dispatch(s, inbox.messages[0], now)],
                pending := w.pending + {|w.dispatched|})
    case Ping(s, payload) => w.(pongs := w.pongs + [Message(s, payload)])
    case Pong(_, _) => w
    case Complete(k, x, order) =>
      if CanComplete(w, k, order) then Finish(Send(w, RequestFor(w, k, x, order)), k, SentFor(w, k, x)) else w
  }

  /** The message waits, and the order is one in which its headers can be walked through. */
  predicate CanComplete(w: World, k: nat, order: seq<string>) {
    && k in w.pending && k < |w.dispatched|
    && var parsed := ParseRequest(w.dispatched[k].text);
    && (parsed.Ok? ==> OrderOf(parsed.value.headers, order))
  }

  /** The gateway's own values for a message: its time, its socket's client, and the host. */
  function StampOf(d: Dispatch, clients: seq<string>, host: string): Stamp {
    Stamp(d.arrived, if d.socket < |clients| then clients[d.socket] else "", host)
  }

  function RequestFor(w: World, k: nat, x: Exchange, order: seq<string>): Option<Forward>
    requires k < |w.dispatched|
  {
    var d := w.dispatched[k];
    var parsed := ParseRequest(d.text);
    if parsed.Ok? && ReachesSocket(x) then
      Some(Forward(k, MakeForward(parsed.value, order, StampOf(d, w.clients, w.host))))
    else None
  }

  function Send(w: World, request: Option<Forward>): World {
    if request.Some? then w.(forwarded := w.forwarded + [request.value]) else w
  }

  function SentFor(w: World, k: nat, x: Exchange): Option<string>
    requires k < |w.dispatched|
  {
    Handler(Coroutine(w.dispatched[k].text, x))
  }

  /** The coroutine of message `k` has ended, and its handler has sent a text or not. */
  function Finish(w: World, k: nat, sent: Option<string>): World
    requires k < |w.dispatched|
  {
    var v := w.(pending := w.pending - {k});
    match sent
    case None => v.(lost := w.lost + {k})
    case Some(text) => v.(replies := w.replies + [Reply(k, w.dispatched[k].socket, text)])
  }

  function Run(w: World, es: seq<Event>): (v: World)
    ensures |v.buffers| == |w.buffers| && v.clients == w.clients && v.host == w.host
    decreases |es|
  {
    if es == [] then w else Run(Apply(w, es[0]), es[1..])
  }

  lemma {:induction false} RunAppend(w: World, es: seq<Event>, fs: seq<Event>)
    ensures Run(w, es + fs) == Run(Run(w, es), fs)
    decreases |es|
  {
    if es == [] {
      assert es + fs == fs;
    } else {
      assert (es + fs)[0] == es[0] && (es + fs)[1..] == es[1..] + fs;
      RunAppend(Apply(w, es[0]), es[1..], fs);
    }
  }

  // ---------------------------------------------------------------- reply conservation

  predicate Answers(w: World, i: nat, k: nat) { i < |w.replies| && w.replies[i].ticket == k }

  /** Every reply belongs to one dispatched message, which no longer waits; it goes to the socket
      the message came from, and is "error" or a response. */
  predicate RepliesFit(w: World) {
    && (forall i: nat | i < |w.replies| ::
          var r := w.replies[i];
          && r.ticket < |w.dispatched| && r.ticket !in w.pending && r.ticket !in w.lost
          && r.socket == w.dispatched[r.ticket].socket
          && r.text != "" && IsReply(r.text))
    && (forall i: nat, j: nat | i < j < |w.replies| :: w.replies[i].ticket != w.replies[j].ticket)
  }

  /** Every dispatched message waits, has been answered, or is lost; never two of these. */
  ghost predicate Conserved(w: World) {
    && RepliesFit(w)
    && (forall k | k in w.pending || k in w.lost :: k < |w.dispatched|)
    && w.pending !! w.lost
    && (forall k: nat | k < |w.dispatched| :: k in w.pending || k in w.lost || exists i: nat :: Answers(w, i, k))
    && |w.dispatched| == |w.pending| + |w.lost| + |w.replies|
  }

  lemma ApplyConserves(w: World, e: Event)
    requires Conserved(w)
    ensures Conserved(Apply(w, e))
  {
    var v := Apply(w, e);
    match e
    case Read(s, call, now) =>
      if s < |w.buffers| && call.size == 0 {
        DispatchConserves(w, v, Dispatch(s, w.buffers[s], now));
      } else {
        SameTickets(w, v);
      }
    case Ping(_, _) => SameTickets(w, v);
    case Pong(_, _) =>
    case Complete(k, _, order) =>
      if CanComplete(w, k, order) {
        var request, sent := CompletionIs(w, e);
        SendAndFinish(w, k, request, sent);
      }
  }

  lemma SendAndFinish(w: World, k: nat, request: Option<Forward>, sent: Option<string>)
    requires Conserved(w) && k in w.pending && Sendable(sent)
    ensures Conserved(Finish(Send(w, request), k, sent))
  {
    SameTickets(w, Send(w, request));
    FinishConserves(Send(w, request), k, sent);
  }

  predicate Parses(w: World, k: nat)
    requires k < |w.dispatched|
  {
    ParseRequest(w.dispatched[k].text).Ok?
  }

  /** The request is that of the message, stamped with its time, its socket's client and the host. */
  ghost predicate IsRequestOf(d: Dispatch, clients: seq<string>, host: string, request: ForwardedRequest) {
    && d.socket < |clients|
    && ParseRequest(d.text).Ok?
    && IsForwardOf(request, ParseRequest(d.text).value, Stamp(d.arrived, clients[d.socket], host))
  }

  /** A request is sent exactly if the message is one, the connection was made, and no exception came
      before the request was written; and it is the request of this message. */
  ghost predicate RequestFits(w: World, k: nat, x: Exchange, request: Option<Forward>)
    requires k < |w.dispatched|
  {
    && (request.Some? <==>
          Parses(w, k) && !x.ResolveFailed? && !x.ConnectFailed? && !(x.Threw? && !x.written))
    && (request.Some? && w.dispatched[k].socket < |w.clients| ==>
          IsRequestOf(w.dispatched[k], w.clients, w.host, request.value.request))
    && (request.Some? ==> request.value.ticket == k)
  }

  lemma RequestIs(w: World, k: nat, x: Exchange, order: seq<string>)
    requires CanComplete(w, k, order)
    ensures RequestFits(w, k, x, RequestFor(w, k, x, order))
  {
    var d := w.dispatched[k];
    if Parses(w, k) {
      ForwardIs(ParseRequest(d.text).value, order, StampOf(d, w.clients, w.host));
    }
  }

  /** The request and the text that a completion sends. */
  lemma CompletionIs(w: World, e: Event) returns (request: Option<Forward>, sent: Option<string>)
    requires e.Complete? && CanComplete(w, e.ticket, e.order)
    ensures Apply(w, e) == Finish(Send(w, request), e.ticket, sent)
    ensures FitsExchange(Parses(w, e.ticket), e.exchange, sent) && Sendable(sent)
    ensures RequestFits(w, e.ticket, e.exchange, request)
  {
    request, sent := RequestFor(w, e.ticket, e.exchange, e.order), SentFor(w, e.ticket, e.exchange);
    ApplyComplete(w, e);
    SentIs(w, e.ticket, e.exchange);
    RequestIs(w, e.ticket, e.exchange, e.order);
  }

  lemma ApplyComplete(w: World, e: Event)
    requires e.Complete? && CanComplete(w, e.ticket, e.order)
    ensures Apply(w, e) ==
            Finish(Send(w, RequestFor(w, e.ticket, e.exchange, e.order)), e.ticket, SentFor(w, e.ticket, e.exchange))
  {
  }

  lemma SentIs(w: World, k: nat, x: Exchange)
    requires k < |w.dispatched|
    ensures FitsExchange(Parses(w, k), x, SentFor(w, k, x)) && Sendable(SentFor(w, k, x))
  {
    HandlerReplies(w.dispatched[k].text, x);
  }

  lemma DispatchConserves(w: World, v: World, m: Dispatch)
    requires Conserved(w)
    requires v.dispatched == w.dispatched + [m] && v.pending == w.pending + {|w.dispatched|}
    requires v.lost == w.lost && v.replies == w.replies
    ensures Conserved(v)
  {
    assert |w.dispatched| !in w.pending && |w.dispatched| !in w.lost;
    assert v.pending - {|w.dispatched|} == w.pending;
    forall k: nat | k < |v.dispatched|
      ensures k in v.pending || k in v.lost || exists i: nat :: Answers(v, i, k)
    {
      if k < |w.dispatched| && k !in w.pending && k !in w.lost {
        var i: nat :| Answers(w, i, k);
        assert Answers(v, i, k);
      }
    }
  }

  lemma SameTickets(w: World, v: World)
    requires Conserved(w)
    requires w.dispatched == v.dispatched && w.pending == v.pending && w.lost == v.lost && w.replies == v.replies
    ensures Conserved(v)
  {
    forall k: nat | k < |v.dispatched|
      ensures k in v.pending || k in v.lost || exists i: nat :: Answers(v, i, k)
    {
      if k !in w.pending && k !in w.lost {
        var i: nat :| Answers(w, i, k);
        assert Answers(v, i, k);
      }
    }
  }

  lemma FinishConserves(w: World, k: nat, sent: Option<string>)
    requires Conserved(w) && k in w.pending && Sendable(sent)
    ensures Conserved(Finish(w, k, sent))
  {
    var v := Finish(w, k, sent);
    assert |v.pending| == |w.pending| - 1;
    FinishFits(w, k, sent);
    forall j: nat | j < |v.dispatched|
      ensures j in v.pending || j in v.lost || exists i: nat :: Answers(v, i, j)
    {
      if j == k {
        assert k in v.lost || Answers(v, |w.replies|, k);
      } else if j !in w.pending && j !in w.lost {
        var i: nat :| Answers(w, i, j);
        assert Answers(v, i, j);
      }
    }
  }

  lemma FinishFits(w: World, k: nat, sent: Option<string>)
    requires Conserved(w) && k in w.pending && Sendable(sent)
    ensures RepliesFit(Finish(w, k, sent))
  {
  }

  /** The accepted completions of a run that raised something that is not a std::exception. */
  function ForeignFailures(w: World, es: seq<Event>): nat
    decreases |es|
  {
    if es == [] then 0
    else
      (if Foreign(w, es[0]) then 1 else 0) + ForeignFailures(Apply(w, es[0]), es[1..])
  }

  predicate Foreign(w: World, e: Event) {
    && e.Complete? && IsForeign(e.exchange)
    && CanComplete(w, e.ticket, e.order) && ParseRequest(w.dispatched[e.ticket].text).Ok?
  }

  /** Every run keeps the books: a dispatched message waits, or has one reply, or was lost, and the
      lost ones are as many as the foreign exceptions. */
  lemma {:induction false} RunConserves(w: World, es: seq<Event>)
    requires Conserved(w)
    ensures Conserved(Run(w, es))
    ensures |Run(w, es).lost| == |w.lost| + ForeignFailures(w, es)
    decreases |es|
  {
    if es != [] {
      var e, v := es[0], Apply(w, es[0]);
      ApplyConserves(w, e);
      LostAre(w, e);
      RunConserves(v, es[1..]);
    }
  }

  lemma LostAre(w: World, e: Event)
    requires Conserved(w)
    ensures |Apply(w, e).lost| == |w.lost| + (if Foreign(w, e) then 1 else 0)
  {
    if e.Complete? && CanComplete(w, e.ticket, e.order) {
      var request, sent := CompletionIs(w, e);
      LosesOne(Send(w, request), e.ticket, sent);
    }
  }

  lemma LosesOne(w: World, k: nat, sent: Option<string>)
    requires k < |w.dispatched| && k !in w.lost
    ensures |Finish(w, k, sent).lost| == |w.lost| + (if sent.None? then 1 else 0)
  {
  }

  /** The message waits, or exactly one frame has been sent for it, to its socket. */
  ghost predicate WaitsOrAnsweredOnce(w: World, k: nat)
    requires k < |w.dispatched|
  {
    if k in w.pending then forall i: nat :: !Answers(w, i, k)
    else
      exists i: nat ::
        && Answers(w, i, k)
        && w.replies[i].socket == w.dispatched[k].socket
        && w.replies[i].text != "" && IsReply(w.replies[i].text)
        && forall j: nat | Answers(w, j, k) :: j == i
  }

  /** Over any run from the start: all messages wait or are answered once exactly when no coroutine
      ended in an exception that is not a std::exception. */
  lemma ReplyConservation(clients: seq<string>, host: string, es: seq<Event>)
    ensures var w := Run(Start(clients, host), es);
            (forall k: nat | k < |w.dispatched| :: WaitsOrAnsweredOnce(w, k))
            <==> ForeignFailures(Start(clients, host), es) == 0
  {
    var w := Run(Start(clients, host), es);
    RunConserves(Start(clients, host), es);
    if w.lost == {} {
      forall k: nat | k < |w.dispatched| ensures WaitsOrAnsweredOnce(w, k) {
        if k !in w.pending {
          var i: nat :| Answers(w, i, k);
          AnsweredOnce(w, i, k);
        }
      }
    } else {
      var k :| k in w.lost;
      assert !WaitsOrAnsweredOnce(w, k);
    }
  }

  lemma AnsweredOnce(w: World, i: nat, k: nat)
    requires Conserved(w) && Answers(w, i, k)
    ensures WaitsOrAnsweredOnce(w, k)
  {
    forall j: nat | Answers(w, j, k) ensures j == i {
    }
  }

  /** Waiting messages have been dispatched, as they are in every conserved state. */
  predicate Numbered(w: World) { forall k | k in w.pending :: k < |w.dispatched| }

  /** No message has to wait forever: after any run, and whatever the outcomes of the exchanges are
      short of foreign exceptions, as many completions as there are waiting messages answer them all. */
  lemma AllGetAnswered(clients: seq<string>, host: string, es: seq<Event>, outcome: nat -> Exchange)
    returns (more: seq<Event>)
    requires ForeignFailures(Start(clients, host), es) == 0 && forall k: nat :: !IsForeign(outcome(k))
    ensures |more| == |Run(Start(clients, host), es).pending|
    ensures forall i | 0 <= i < |more| :: more[i].Complete? && more[i].exchange == outcome(more[i].ticket)
    ensures var w := Run(Start(clients, host), es + more);
            && w.dispatched == Run(Start(clients, host), es).dispatched
            && forall k: nat | k < |w.dispatched| :: k !in w.pending && WaitsOrAnsweredOnce(w, k)
  {
    var start := Start(clients, host);
    var w := Run(start, es);
    RunConserves(start, es);
    more := CanAlwaysComplete(w, outcome);
    NoFailures(w, more);
    FailuresAppend(start, es, more);
    RunAppend(start, es, more);
    ReplyConservation(clients, host, es + more);
  }

  lemma {:induction false} FailuresAppend(w: World, es: seq<Event>, fs: seq<Event>)
    ensures ForeignFailures(w, es + fs) == ForeignFailures(w, es) + ForeignFailures(Run(w, es), fs)
    decreases |es|
  {
    if es == [] {
      assert es + fs == fs;
    } else {
      assert (es + fs)[0] == es[0] && (es + fs)[1..] == es[1..] + fs;
      FailuresAppend(Apply(w, es[0]), es[1..], fs);
    }
  }

  lemma {:induction false} NoFailures(w: World, es: seq<Event>)
    requires forall i | 0 <= i < |es| :: es[i].Complete? && !IsForeign(es[i].exchange)
    ensures ForeignFailures(w, es) == 0 && Run(w, es).dispatched == w.dispatched
    decreases |es|
  {
    if es != [] {
      OnlyReadsDispatch(w, es[0]);
      NoFailures(Apply(w, es[0]), es[1..]);
    }
  }

  lemma OnlyReadsDispatch(w: World, e: Event)
    requires e.Complete?
    ensures Apply(w, e).dispatched == w.dispatched
  {
  }

  lemma {:induction false} CanAlwaysComplete(w: World, outcome: nat -> Exchange) returns (es: seq<Event>)
    requires Numbered(w)
    ensures |es| == |w.pending| && Run(w, es).pending == {}
    ensures forall i | 0 <= i < |es| ::
              es[i].Complete? && es[i].ticket in w.pending && es[i].exchange == outcome(es[i].ticket)
    decreases |w.pending|
  {
    es := [];
    if w.pending != {} {
      var e := SomeCompletion(w, outcome);
      var rest := CanAlwaysComplete(Apply(w, e), outcome);
      es := RunFirst(w, e, rest);
    }
  }

  lemma SomeCompletion(w: World, outcome: nat -> Exchange) returns (e: Event)
    requires Numbered(w) && w.pending != {}
    ensures e.Complete? && e.ticket in w.pending && e.exchange == outcome(e.ticket)
    ensures Apply(w, e).pending == w.pending - {e.ticket} && |Apply(w, e).pending| == |w.pending| - 1
    ensures Numbered(Apply(w, e))
  {
    var k :| k in w.pending;
    var order := SomeOrder(w, k);
    e := Complete(k, outcome(k), order);
    CompletesOne(w, e);
  }

  lemma RunFirst(w: World, e: Event, rest: seq<Event>) returns (es: seq<Event>)
    ensures es == [e] + rest && Run(w, es) == Run(Apply(w, e), rest)
  {
    es := [e] + rest;
    assert es[1..] == rest;
  }

  lemma CompletesOne(w: World, e: Event)
    requires Numbered(w) && e.Complete? && CanComplete(w, e.ticket, e.order)
    ensures Apply(w, e).pending == w.pending - {e.ticket} && |Apply(w, e).pending| == |w.pending| - 1
    ensures Numbered(Apply(w, e))
  {
    var request, sent := CompletionIs(w, e);
    LeavesPending(Send(w, request), e.ticket, sent);
  }

  lemma LeavesPending(w: World, k: nat, sent: Option<string>)
    requires k in w.pending && k < |w.dispatched|
    ensures Finish(w, k, sent).pending == w.pending - {k} && |w.pending - {k}| == |w.pending| - 1
    ensures Finish(w, k, sent).dispatched == w.dispatched
  {
  }

  lemma SomeOrder(w: World, k: nat) returns (order: seq<string>)
    requires k in w.pending && k < |w.dispatched|
    ensures CanComplete(w, k, order)
  {
    var parsed := ParseRequest(w.dispatched[k].text);
    order := [];
    if parsed.Ok? {
      order := Enumerate(parsed.value.headers.Keys);
    }
  }

  // ---------------------------------------------------------------- requests sent upstream

  predicate IsForwarded(w: World, k: nat, i: nat) { i < |w.forwarded| && w.forwarded[i].ticket == k }

  /** Every request sent upstream is that of a message which no longer waits, no message is forwarded
      twice, and a reply other than "error" is sent only for a message that was forwarded. */
  ghost predicate ForwardsFit(w: World) {
    && |w.buffers| == |w.clients|
    && (forall k: nat | k < |w.dispatched| :: w.dispatched[k].socket < |w.clients|)
    && (forall i: nat, k: nat | IsForwarded(w, k, i) ::
          && k < |w.dispatched| && k !in w.pending
          && IsRequestOf(w.dispatched[k], w.clients, w.host, w.forwarded[i].request))
    && (forall i: nat, j: nat, k: nat | IsForwarded(w, k, i) && IsForwarded(w, k, j) :: i == j)
    && (forall i: nat | i < |w.replies| && w.replies[i].text != "error" ::
          exists j: nat :: IsForwarded(w, w.replies[i].ticket, j))
  }

  lemma ApplyForwards(w: World, e: Event)
    requires Conserved(w) && ForwardsFit(w)
    ensures ForwardsFit(Apply(w, e))
  {
    var v := Apply(w, e);
    match e
    case Complete(k, x, order) =>
      if CanComplete(w, k, order) {
        var request, sent := CompletionIs(w, e);
        ForwardOnce(w, k, x, request, sent);
      }
    case _ => SameForwards(w, v);
  }

  lemma SameForwards(w: World, v: World)
    requires Conserved(w) && ForwardsFit(w)
    requires v.forwarded == w.forwarded && v.replies == w.replies && v.clients == w.clients && v.host == w.host
    requires |v.buffers| == |w.buffers| && w.dispatched <= v.dispatched
    requires forall k: nat | |w.dispatched| <= k < |v.dispatched| :: v.dispatched[k].socket < |w.clients|
    requires forall k | k in v.pending :: k in w.pending || k >= |w.dispatched|
    ensures ForwardsFit(v)
  {
    forall i: nat, k: nat ensures IsForwarded(v, k, i) <==> IsForwarded(w, k, i) {
    }
    forall i: nat | i < |v.replies| && v.replies[i].text != "error"
      ensures exists j: nat :: IsForwarded(v, v.replies[i].ticket, j)
    {
      var j: nat :| IsForwarded(w, w.replies[i].ticket, j);
      assert IsForwarded(v, v.replies[i].ticket, j);
    }
  }

  lemma ForwardOnce(w: World, k: nat, x: Exchange, request: Option<Forward>, sent: Option<string>)
    requires ForwardsFit(w) && k in w.pending && k < |w.dispatched|
    requires RequestFits(w, k, x, request) && FitsExchange(Parses(w, k), x, sent)
    ensures ForwardsFit(Finish(Send(w, request), k, sent))
  {
    OneMoreForward(w, Finish(Send(w, request), k, sent), k, request);
    OneMoreReply(w, k, request, sent);
  }

  lemma OneMoreForward(w: World, v: World, k: nat, request: Option<Forward>)
    requires ForwardsFit(w) && k in w.pending && k < |w.dispatched|
    requires v.clients == w.clients && v.host == w.host && v.dispatched == w.dispatched
    requires v.pending == w.pending - {k} && v.forwarded == Send(w, request).forwarded
    requires request.Some? ==>
               request.value.ticket == k && IsRequestOf(w.dispatched[k], w.clients, w.host, request.value.request)
    ensures forall i: nat, j: nat | IsForwarded(v, j, i) ::
              && j < |v.dispatched| && j !in v.pending
              && IsRequestOf(v.dispatched[j], v.clients, v.host, v.forwarded[i].request)
    ensures forall i: nat, j: nat, t: nat | IsForwarded(v, t, i) && IsForwarded(v, t, j) :: i == j
  {
    forall i: nat, j: nat
      ensures IsForwarded(v, j, i) <==> IsForwarded(w, j, i) || (request.Some? && i == |w.forwarded| && j == k)
    {
    }
  }

  lemma OneMoreReply(w: World, k: nat, request: Option<Forward>, sent: Option<string>)
    requires ForwardsFit(w) && k < |w.dispatched|
    requires request.Some? ==> request.value.ticket == k
    requires sent.Some? && sent.value != "error" ==> request.Some?
    ensures var v := Finish(Send(w, request), k, sent);
            forall i: nat | i < |v.replies| && v.replies[i].text != "error" ::
              exists j: nat :: IsForwarded(v, v.replies[i].ticket, j)
  {
    var v := Finish(Send(w, request), k, sent);
    forall i: nat | i < |v.replies| && v.replies[i].text != "error"
      ensures exists j: nat :: IsForwarded(v, v.replies[i].ticket, j)
    {
      if i < |w.replies| {
        var j: nat :| IsForwarded(w, w.replies[i].ticket, j);
        assert IsForwarded(v, v.replies[i].ticket, j);
      } else {
        assert IsForwarded(v, k, |w.forwarded|);
      }
    }
  }

  /** In every run what goes upstream is what clients asked for, once, and under their own IDs. */
  lemma {:induction false} RunForwards(w: World, es: seq<Event>)
    requires Conserved(w) && ForwardsFit(w)
    ensures ForwardsFit(Run(w, es))
    decreases |es|
  {
    if es != [] {
      ApplyConserves(w, es[0]);
      ApplyForwards(w, es[0]);
      RunForwards(Apply(w, es[0]), es[1..]);
    }
  }

  // ---------------------------------------------------------------- per socket

  function TextsOf(messages: seq<Dispatch>, s: nat): seq<string> {
    if messages == [] then []
    else
      var last := messages[|messages| - 1];
      TextsOf(messages[..|messages| - 1], s) + (if last.socket == s then [last.text] else [])
  }

  /** The calls for one socket. */
  function CallsOf(es: seq<Event>, s: nat): seq<ReadCall> {
    if es == [] then []
    else if es[0].Read? && es[0].socket == s then [es[0].call] + CallsOf(es[1..], s)
    else CallsOf(es[1..], s)
  }

  function PingOf(e: Event): seq<Message> { if e.Ping? then [Message(e.socket, e.payload)] else [] }

  function PingsOf(es: seq<Event>): seq<Message> {
    if es == [] then [] else PingOf(es[0]) + PingsOf(es[1..])
  }

  function InboxOf(w: World, s: nat): Inbox
    requires s < |w.buffers|
  {
    Inbox(w.buffers[s], TextsOf(w.dispatched, s))
  }

  lemma ReceiveShifts(buffer: string, messages: seq<string>, frame: Frame)
    ensures var r := Receive(Inbox(buffer, []), frame);
            Receive(Inbox(buffer, messages), frame) == Inbox(r.buffer, messages + r.messages)
  {
  }

  lemma ApplyOnSocket(w: World, e: Event, s: nat)
    requires s < |w.buffers|
    ensures var v := Apply(w, e);
            && InboxOf(v, s) ==
               (if e.Read? && e.socket == s then Receive(InboxOf(w, s), FrameOf(e.call)) else InboxOf(w, s))
            && w.dispatched <= v.dispatched
  {
    var v := Apply(w, e);
    if e.Read? && e.socket < |w.buffers| {
      ReceiveShifts(w.buffers[e.socket], TextsOf(w.dispatched, s), FrameOf(e.call));
      assert e.call.size == 0 ==> v.dispatched[..|v.dispatched| - 1] == w.dispatched;
      assert TextsOf(w.dispatched, s) + [] == TextsOf(w.dispatched, s);
    }
  }

  /** What a socket's messages and buffer are after a run depends on its own calls alone, in their
      order: other sockets, pings, pongs and completions in between make no difference. */
  lemma {:induction false} RunOnSocket(w: World, es: seq<Event>, s: nat)
    requires s < |w.buffers|
    ensures var v := Run(w, es);
            && InboxOf(v, s) == ReceiveCalls(InboxOf(w, s), CallsOf(es, s))
            && w.dispatched <= v.dispatched
    decreases |es|
  {
    if es != [] {
      var e, v := es[0], Apply(w, es[0]);
      ApplyOnSocket(w, e, s);
      RunOnSocket(v, es[1..], s);
      assert e.Read? && e.socket == s ==> CallsOf(es, s)[1..] == CallsOf(es[1..], s);
    }
  }

  /** Every ping is answered with its own payload, on its own socket, in order; nothing else is. */
  lemma {:induction false} PongsAnswerPings(w: World, es: seq<Event>)
    ensures Run(w, es).pongs == w.pongs + PingsOf(es)
    decreases |es|
  {
    if es != [] {
      var v := Apply(w, es[0]);
      ApplyPongs(w, es[0]);
      PongsAnswerPings(v, es[1..]);
      TextStream.Assoc(w.pongs, PingOf(es[0]), PingsOf(es[1..]));
    } else {
      assert w.pongs + [] == w.pongs;
    }
  }

  lemma ApplyPongs(w: World, e: Event)
    ensures Apply(w, e).pongs == w.pongs + PingOf(e)
  {
    assert w.pongs + [] == w.pongs;
  }

  // ---------------------------------------------------------------- outcomes

  /** The outcome of the exchange for a message: that of its first completion that is possible. */
  function OutcomeOf(w: World, es: seq<Event>, k: nat): Option<Exchange>
    decreases |es|
  {
    if es == [] then None
    else if es[0].Complete? && es[0].ticket == k && CanComplete(w, k, es[0].order) then Some(es[0].exchange)
    else OutcomeOf(Apply(w, es[0]), es[1..], k)
  }

  ghost predicate RepliedWith(w: World, k: nat, text: string) {
    exists i: nat :: Answers(w, i, k) && w.replies[i].text == text
  }

  ghost predicate WasForwarded(w: World, k: nat) { exists i: nat :: IsForwarded(w, k, i) }

  /** What a message's exchange has led to: the printed response for a response, silence after a foreign
      exception, otherwise "error"; and it was forwarded exactly if it is a request, the connection was
      made, and no exception came before the request was written. */
  ghost predicate SettledBy(w: World, k: nat, x: Exchange)
    requires k < |w.dispatched|
  {
    && (if Parses(w, k) && x.Responded? then RepliedWith(w, k, PrintResponse(x.res))
        else if Parses(w, k) && IsForeign(x) then k in w.lost
        else RepliedWith(w, k, "error"))
    && (WasForwarded(w, k) <==>
          Parses(w, k) && !x.ResolveFailed? && !x.ConnectFailed? && !(x.Threw? && !x.written))
  }

  /** In every run each message waits until its completion, and is settled by its exchange ever after. */
  lemma {:induction false} RunOutcome(w: World, es: seq<Event>, k: nat)
    requires Conserved(w) && ForwardsFit(w) && (k in w.pending || k >= |w.dispatched|)
    ensures var v := Run(w, es);
            match OutcomeOf(w, es, k)
            case None => k in v.pending || k >= |v.dispatched|
            case Some(x) => k < |v.dispatched| && k !in v.pending && SettledBy(v, k, x)
    decreases |es|
  {
    if es != [] {
      var e := es[0];
      ApplyConserves(w, e);
      ApplyForwards(w, e);
      if e.Complete? && e.ticket == k && CanComplete(w, k, e.order) {
        CompletionSettles(w, e);
        StaysSettled(Apply(w, e), es[1..], k, e.exchange);
      } else {
        StillOpen(w, e, k);
        RunOutcome(Apply(w, e), es[1..], k);
      }
    }
  }

  /** In every run from the start, the outcome of its exchange decides what was sent for a message, and
      it was sent once, to its own socket. */
  lemma RunReplies(clients: seq<string>, host: string, es: seq<Event>, k: nat)
    ensures var w := Run(Start(clients, host), es);
            k < |w.dispatched| ==>
              && (k !in w.lost ==> WaitsOrAnsweredOnce(w, k))
              && match OutcomeOf(Start(clients, host), es, k)
                 case None => k in w.pending
                 case Some(x) => k !in w.pending && SettledBy(w, k, x)
  {
    var w := Run(Start(clients, host), es);
    RunOutcome(Start(clients, host), es, k);
    RunConserves(Start(clients, host), es);
    if k < |w.dispatched| && k !in w.lost {
      NotLostIsAnswered(w, k);
    }
  }

  lemma NotLostIsAnswered(w: World, k: nat)
    requires Conserved(w) && k < |w.dispatched| && k !in w.lost
    ensures WaitsOrAnsweredOnce(w, k)
  {
    if k !in w.pending {
      var i: nat :| Answers(w, i, k);
      AnsweredOnce(w, i, k);
    }
  }

  lemma StillOpen(w: World, e: Event, k: nat)
    requires Conserved(w) && (k in w.pending || k >= |w.dispatched|)
    requires !(e.Complete? && e.ticket == k && CanComplete(w, k, e.order))
    ensures var v := Apply(w, e); k in v.pending || k >= |v.dispatched|
  {
    if e.Complete? && CanComplete(w, e.ticket, e.order) {
      var request, sent := CompletionIs(w, e);
      FinishGrows(w, e.ticket, request, sent, k);
    }
  }

  lemma CompletionSettles(w: World, e: Event)
    requires ForwardsFit(w) && e.Complete? && CanComplete(w, e.ticket, e.order)
    ensures var v := Apply(w, e);
            e.ticket < |v.dispatched| && e.ticket !in v.pending && SettledBy(v, e.ticket, e.exchange)
  {
    var request, sent := CompletionIs(w, e);
    FinishSettles(w, e.ticket, e.exchange, request, sent);
  }

  lemma FinishSettles(w: World, k: nat, x: Exchange, request: Option<Forward>, sent: Option<string>)
    requires k < |w.dispatched| && !WasForwarded(w, k)
    requires RequestFits(w, k, x, request) && FitsExchange(Parses(w, k), x, sent)
    ensures var v := Finish(Send(w, request), k, sent); k !in v.pending && SettledBy(v, k, x)
  {
    FinishReplies(Send(w, request), k, sent);
    FinishForwards(w, k, request, sent);
  }

  lemma FinishReplies(w: World, k: nat, sent: Option<string>)
    requires k < |w.dispatched|
    ensures match sent
            case Some(text) => RepliedWith(Finish(w, k, sent), k, text)
            case None => k in Finish(w, k, sent).lost
  {
    if sent.Some? {
      assert Answers(Finish(w, k, sent), |w.replies|, k);
    }
  }

  lemma FinishForwards(w: World, k: nat, request: Option<Forward>, sent: Option<string>)
    requires k < |w.dispatched| && !WasForwarded(w, k) && (request.Some? ==> request.value.ticket == k)
    ensures WasForwarded(Finish(Send(w, request), k, sent), k) <==> request.Some?
  {
    var v := Finish(Send(w, request), k, sent);
    if request.Some? {
      assert IsForwarded(v, k, |w.forwarded|);
    } else {
      assert forall i: nat | IsForwarded(v, k, i) :: IsForwarded(w, k, i);
    }
  }

  lemma {:induction false} StaysSettled(w: World, es: seq<Event>, k: nat, x: Exchange)
    requires k < |w.dispatched| && k !in w.pending && SettledBy(w, k, x)
    ensures var v := Run(w, es); k < |v.dispatched| && k !in v.pending && SettledBy(v, k, x)
    decreases |es|
  {
    if es != [] {
      OnlyGrows(w, es[0], k);
      SettledLater(w, Apply(w, es[0]), k, x);
      StaysSettled(Apply(w, es[0]), es[1..], k, x);
    }
  }

  /** Nothing is taken back, and nothing is added for a message that does not wait. */
  predicate Later(w: World, v: World, k: nat) {
    && w.dispatched <= v.dispatched && w.replies <= v.replies && w.lost <= v.lost && w.forwarded <= v.forwarded
    && forall i | |w.forwarded| <= i < |v.forwarded| :: v.forwarded[i].ticket != k
  }

  lemma OnlyGrows(w: World, e: Event, k: nat)
    requires k < |w.dispatched| && k !in w.pending
    ensures Later(w, Apply(w, e), k) && k !in Apply(w, e).pending
  {
    if e.Complete? && CanComplete(w, e.ticket, e.order) {
      var request, sent := CompletionIs(w, e);
      FinishGrows(w, e.ticket, request, sent, k);
    }
  }

  lemma FinishGrows(w: World, j: nat, request: Option<Forward>, sent: Option<string>, k: nat)
    requires j < |w.dispatched| && j != k && (request.Some? ==> request.value.ticket == j)
    ensures var v := Finish(Send(w, request), j, sent); Later(w, v, k) && (k in v.pending <==> k in w.pending)
  {
  }

  lemma SettledLater(w: World, v: World, k: nat, x: Exchange)
    requires k < |w.dispatched| && SettledBy(w, k, x) && Later(w, v, k)
    ensures SettledBy(v, k, x)
  {
    forall i: nat | Answers(w, i, k) ensures Answers(v, i, k) && v.replies[i] == w.replies[i] {
    }
    forall i: nat ensures IsForwarded(v, k, i) <==> IsForwarded(w, k, i) {
    }
  }

  // ---------------------------------------------------------------- end to end

  /** After some run socket `s` is between messages, and then calls for it, none of size 0, bring a
      printed request, cut in any way, with anything else going on in between. */
  predicate Arriving(start: World, before: seq<Event>, during: seq<Event>, s: nat, m: ClientRequest) {
    && s < |start.buffers| && Run(start, before).buffers[s] == ""
    && Unfinished(CallsOf(during, s)) && Received(CallsOf(during, s)) == PrintRequest(m)
    && WellFormed(m)
  }

  /** With the closing call, which has size 0, this one text is dispatched on `s`; it waits for its reply, the socket is
      between messages again, and the text parses to the original request exactly when it has a
      header and its body is declared. */
  lemma EndToEnd(clients: seq<string>, host: string, before: seq<Event>, during: seq<Event>,
                 s: nat, closing: ReadCall, now: string, m: ClientRequest)
    requires Arriving(Start(clients, host), before, during, s, m) && closing.size == 0
    ensures var w := Run(Start(clients, host), before);
            var middle := Run(w, during);
            var after := Run(Start(clients, host), before + during + [Read(s, closing, now)]);
            var k := |middle.dispatched|;
            && InboxOf(after, s) == Inbox("", InboxOf(w, s).messages + [PrintRequest(m)])
            && after.dispatched == middle.dispatched + [Dispatch(s, PrintRequest(m), now)]
            && k in after.pending
            && (ParseRequest(after.dispatched[k].text) ==
                  Ok(Request(m.verb, m.target, m.version, FirstWins(map[], m.fields), m.body))
                <==> m.fields != [] && DeclaresBody(m.fields, m.body))
  {
    RunAppend(Start(clients, host), before, during);
    RunAppend(Start(clients, host), before + during, [Read(s, closing, now)]);
    DispatchWhole(Run(Start(clients, host), before), during, s, closing, now, PrintRequest(m));
    RequestRoundTrip(m);
  }

  lemma DispatchWhole(w: World, during: seq<Event>, s: nat, closing: ReadCall, now: string, text: string)
    requires s < |w.buffers| && w.buffers[s] == ""
    requires Unfinished(CallsOf(during, s)) && Received(CallsOf(during, s)) == text && closing.size == 0
    ensures var middle := Run(w, during);
            var after := Run(middle, [Read(s, closing, now)]);
            && InboxOf(after, s) == Inbox("", InboxOf(w, s).messages + [text])
            && after.dispatched == middle.dispatched + [Dispatch(s, text, now)]
            && |middle.dispatched| in after.pending
  {
    RunOnSocket(w, during, s);
    var middle := Run(w, during);
    CallsMakeMessage(InboxOf(w, s).messages, CallsOf(during, s), closing);
    CallsAccumulate(InboxOf(w, s), CallsOf(during, s));
    assert "" + text == text;
    ApplyOnSocket(middle, Read(s, closing, now), s);
    var after := Apply(middle, Read(s, closing, now));
    assert Run(middle, [Read(s, closing, now)]) == Run(after, []) == after;
  }

  /** What is sent upstream for that message, however the run goes on, is sent once, and is the
      client's request with the arrival time, the ID of the client on this socket, and the host,
      provided that it has a header and its body is declared. */
  lemma EndToEndUpstream(clients: seq<string>, host: string, before: seq<Event>, during: seq<Event>,
                         later: seq<Event>, s: nat, closing: ReadCall, now: string, m: ClientRequest)
    requires Arriving(Start(clients, host), before, during, s, m) && closing.size == 0
    requires m.fields != [] && DeclaresBody(m.fields, m.body)
    ensures var k := |Run(Start(clients, host), before + during).dispatched|;
            var w := Run(Start(clients, host), before + during + [Read(s, closing, now)] + later);
            && (forall i: nat | IsForwarded(w, k, i) ::
                  CarriesRequest(m, w.forwarded[i].request, Stamp(now, clients[s], host)))
            && (forall i: nat, j: nat | IsForwarded(w, k, i) && IsForwarded(w, k, j) :: i == j)
  {
    var es := before + during + [Read(s, closing, now)] + later;
    var k := |Run(Start(clients, host), before + during).dispatched|;
    var w := Run(Start(clients, host), es);
    StaysDispatched(clients, host, before, during, later, s, closing, now, m);
    RunForwards(Start(clients, host), es);
    forall i: nat | IsForwarded(w, k, i)
      ensures CarriesRequest(m, w.forwarded[i].request, Stamp(now, clients[s], host))
    {
      assert IsRequestOf(w.dispatched[k], clients, host, w.forwarded[i].request);
      ItsRequestArrives(w.dispatched[k], clients, host, m, w.forwarded[i].request);
    }
  }

  lemma ItsRequestArrives(d: Dispatch, clients: seq<string>, host: string, m: ClientRequest, request: ForwardedRequest)
    requires IsRequestOf(d, clients, host, request) && d.text == PrintRequest(m)
    requires WellFormed(m) && m.fields != [] && DeclaresBody(m.fields, m.body)
    ensures CarriesRequest(m, request, Stamp(d.arrived, clients[d.socket], host))
  {
    RequestArrives(m, request, Stamp(d.arrived, clients[d.socket], host));
  }

  lemma StaysDispatched(clients: seq<string>, host: string, before: seq<Event>, during: seq<Event>,
                        later: seq<Event>, s: nat, closing: ReadCall, now: string, m: ClientRequest)
    requires Arriving(Start(clients, host), before, during, s, m) && closing.size == 0
    ensures var k := |Run(Start(clients, host), before + during).dispatched|;
            var w := Run(Start(clients, host), before + during + [Read(s, closing, now)] + later);
            k < |w.dispatched| && w.dispatched[k] == Dispatch(s, PrintRequest(m), now)
  {
    var es := before + during + [Read(s, closing, now)];
    EndToEnd(clients, host, before, during, s, closing, now, m);
    RunAppend(Start(clients, host), before, during);
    RunAppend(Start(clients, host), es, later);
    RunOnSocket(Run(Start(clients, host), es), later, s);
  }

  /** And however the run goes on, that message waits until its completion; from then on the outcome of
      its exchange decides what was sent for it, once, and on its own socket, unless it is lost to a
      foreign exception. */
  lemma EndToEndReply(clients: seq<string>, host: string, before: seq<Event>, during: seq<Event>,
                      later: seq<Event>, s: nat, closing: ReadCall, now: string, m: ClientRequest)
    requires Arriving(Start(clients, host), before, during, s, m) && closing.size == 0
    ensures var k := |Run(Start(clients, host), before + during).dispatched|;
            var es := before + during + [Read(s, closing, now)] + later;
            var w := Run(Start(clients, host), es);
            && k < |w.dispatched| && w.dispatched[k] == Dispatch(s, PrintRequest(m), now)
            && (k !in w.lost ==> WaitsOrAnsweredOnce(w, k))
            && match OutcomeOf(Start(clients, host), es, k)
               case None => k in w.pending
               case Some(x) => k !in w.pending && SettledBy(w, k, x)
  {
    var k := |Run(Start(clients, host), before + during).dispatched|;
    StaysDispatched(clients, host, before, during, later, s, closing, now, m);
    RunReplies(clients, host, before + during + [Read(s, closing, now)] + later, k);
  }

  /** So a client whose request has a header and declares its body, and is answered upstream, gets one
      text: the printed response, from which its fields and its body can be read back if it has a field
      and a visible reason and declares its body. */
  lemma EndToEndResponse(clients: seq<string>, host: string, before: seq<Event>, during: seq<Event>,
                         later: seq<Event>, s: nat, closing: ReadCall, now: string, m: ClientRequest,
                         res: Response)
    requires Arriving(Start(clients, host), before, during, s, m) && closing.size == 0
    requires m.fields != [] && DeclaresBody(m.fields, m.body)
    requires OutcomeOf(Start(clients, host), before + during + [Read(s, closing, now)] + later,
                       |Run(Start(clients, host), before + during).dispatched|) == Some(Responded(res))
    ensures var k := |Run(Start(clients, host), before + during).dispatched|;
            var w := Run(Start(clients, host), before + during + [Read(s, closing, now)] + later);
            && k < |w.dispatched| && WaitsOrAnsweredOnce(w, k) && RepliedWith(w, k, PrintResponse(res))
    ensures Printable(res) && res.fields != [] && !TextStream.AllSpace(res.reason)
            && DeclaresBody(res.fields, res.body) ==>
              Has(ParseRequest(PrintResponse(res)), FirstWins(map[], res.fields), res.body)
  {
    EndToEndReply(clients, host, before, during, later, s, closing, now, m);
    RequestRoundTrip(m);
    RunConserves(Start(clients, host), before + during + [Read(s, closing, now)] + later);
    if Printable(res) && res.fields != [] && !TextStream.AllSpace(res.reason) {
      VisibleReasonRoundTrip(res);
    }
  }
}
