/** Collecting the frames of WebSocket messages (fragmentation: section 5.4 of RFC 6455). The
    framework calls `readMessage` once per received block, and once with size 0 after the last. */
module Reassembly {
  import opened TextStream

  datatype RawCall = Call(data: string, size: int)

  /** A call of `readMessage`: a block of at least `size` characters. */
  type ReadCall = c: RawCall | c.size <= |c.data| witness Call("", 0)

  /** What a call stands for: with a positive, a zero and a negative size. */
  datatype Frame = Bytes(data: string) | End | Failure

  function FrameOf(c: ReadCall): Frame {
    if c.size == 0 then End else if c.size > 0 then Bytes(c.data[..c.size]) else Failure
  }

  /** The buffer of a socket, and the messages dispatched so far. */
  datatype Inbox = Inbox(buffer: string, messages: seq<string>)

  function Receive(inbox: Inbox, frame: Frame): Inbox {
    match frame
    case Bytes(data) => inbox.(buffer := inbox.buffer + data)
    case End => Inbox("", inbox.messages + [inbox.buffer])
    case Failure => inbox
  }

  function ReceiveAll(inbox: Inbox, frames: seq<Frame>): Inbox
    decreases |frames|
  {
    if frames == [] then inbox else ReceiveAll(Receive(inbox, frames[0]), frames[1..])
  }

  /** The characters that the frames carry. */
  function Payload(frames: seq<Frame>): string {
    if frames == [] then ""
    else (if frames[0].Bytes? then frames[0].data else "") + Payload(frames[1..])
  }

  function Concat(messages: seq<string>): string {
    if messages == [] then "" else messages[0] + Concat(messages[1..])
  }

  /** The call sequence cut at its End calls; the last segment is the message still under way. */
  function Segments(frames: seq<Frame>): (segments: seq<seq<Frame>>)
    ensures segments != []
  {
    if frames == [] then [[]]
    else
      var rest := Segments(frames[1..]);
      if frames[0].End? then [[]] + rest else [[frames[0]] + rest[0]] + rest[1..]
  }

  function Payloads(segments: seq<seq<Frame>>): (texts: seq<string>)
    ensures |texts| == |segments|
    ensures forall i | 0 <= i < |texts| :: texts[i] == Payload(segments[i])
  {
    if segments == [] then [] else [Payload(segments[0])] + Payloads(segments[1..])
  }

  predicate EndFree(segments: seq<seq<Frame>>) { forall i | 0 <= i < |segments| :: End !in segments[i] }

  /** No segment holds an End call, and only End calls are cut away. */
  lemma {:induction false} SegmentsAreEndFree(frames: seq<Frame>)
    ensures EndFree(Segments(frames))
    ensures frames == Rejoin(Segments(frames))
  {
    if frames != [] {
      var rest := Segments(frames[1..]);
      SegmentsAreEndFree(frames[1..]);
      assert frames == [frames[0]] + frames[1..];
      if frames[0].End? {
        RejoinEnd(rest);
      } else {
        FirstIsEndFree(frames[0], rest);
        RejoinFirst(frames[0], rest);
      }
    }
  }

  lemma RejoinEnd(rest: seq<seq<Frame>>)
    requires rest != [] && EndFree(rest)
    ensures EndFree([[]] + rest) && Rejoin([[]] + rest) == [End] + Rejoin(rest)
  {
    assert ([[]] + rest)[1..] == rest;
  }

  lemma RejoinFirst(frame: Frame, rest: seq<seq<Frame>>)
    requires rest != []
    ensures Rejoin([[frame] + rest[0]] + rest[1..]) == [frame] + Rejoin(rest)
  {
    var more := [[frame] + rest[0]] + rest[1..];
    assert more[1..] == rest[1..];
    if |rest| > 1 {
      Assoc([frame], rest[0], [End]);
      Assoc([frame], rest[0] + [End], Rejoin(rest[1..]));
    }
  }

  lemma FirstIsEndFree(frame: Frame, rest: seq<seq<Frame>>)
    requires rest != [] && EndFree(rest) && !frame.End?
    ensures EndFree([[frame] + rest[0]] + rest[1..])
  {
  }

  function Rejoin(segments: seq<seq<Frame>>): seq<Frame>
    requires segments != []
  {
    if |segments| == 1 then segments[0] else segments[0] + [End] + Rejoin(segments[1..])
  }

  /** All texts but the last are dispatched, the first of them behind what the buffer held; the
      last one stays in the buffer. */
  function Dispatched(inbox: Inbox, texts: seq<string>): Inbox
    requires texts != []
  {
    var first := inbox.buffer + texts[0];
    if |texts| == 1 then inbox.(buffer := first)
    else Inbox(texts[|texts| - 1], inbox.messages + [first] + texts[1..|texts| - 1])
  }

  /** The dispatched messages are the payloads of the segments, one for each End call, and the
      buffer is the payload of the last segment. */
  lemma {:induction false} ReceiveAllIsCut(inbox: Inbox, frames: seq<Frame>)
    ensures ReceiveAll(inbox, frames) == Dispatched(inbox, Payloads(Segments(frames)))
    decreases |frames|
  {
    if frames == [] {
      assert inbox.buffer + "" == inbox.buffer;
    } else {
      var rest := Segments(frames[1..]);
      ReceiveAllIsCut(Receive(inbox, frames[0]), frames[1..]);
      if frames[0].End? {
        FirstEnd(rest);
        DispatchedEnd(inbox, Payloads(rest));
      } else {
        FirstSegment(frames[0], rest);
        DispatchedMore(inbox, if frames[0].Bytes? then frames[0].data else "",
                       Payloads(rest), Payloads(Segments(frames)));
      }
    }
  }

  lemma DispatchedEnd(inbox: Inbox, texts: seq<string>)
    requires texts != []
    ensures Dispatched(Inbox("", inbox.messages + [inbox.buffer]), texts) == Dispatched(inbox, [""] + texts)
  {
    assert inbox.buffer + "" == inbox.buffer && "" + texts[0] == texts[0];
    var all := [""] + texts;
    if |texts| > 1 {
      assert all[1..|all| - 1] == [texts[0]] + texts[1..|texts| - 1];
    } else {
      assert all[1..|all| - 1] == [];
    }
  }

  lemma DispatchedMore(inbox: Inbox, data: string, texts: seq<string>, texts': seq<string>)
    requires texts != [] && texts' != [] && texts'[0] == data + texts[0] && texts'[1..] == texts[1..]
    ensures Dispatched(inbox.(buffer := inbox.buffer + data), texts) == Dispatched(inbox, texts')
    ensures data == "" ==> Dispatched(inbox, texts) == Dispatched(inbox, texts')
  {
    Assoc(inbox.buffer, data, texts[0]);
    assert |texts| == |texts'|;
    assert data == "" ==> texts' == texts by {
      if data == "" {
        assert texts'[0] == texts[0];
        assert texts' == [texts'[0]] + texts'[1..] && texts == [texts[0]] + texts[1..];
      }
    }
    if |texts| > 1 {
      assert texts[1..|texts| - 1] == texts[1..][..|texts| - 2];
      assert texts'[1..|texts| - 1] == texts'[1..][..|texts| - 2];
      assert texts[|texts| - 1] == texts[1..][|texts| - 2];
      assert texts'[|texts| - 1] == texts'[1..][|texts| - 2];
    }
  }

  lemma FirstEnd(rest: seq<seq<Frame>>)
    ensures Payloads([[]] + rest) == [""] + Payloads(rest)
  {
    assert ([[]] + rest)[1..] == rest;
  }

  lemma FirstSegment(frame: Frame, rest: seq<seq<Frame>>)
    requires rest != []
    ensures var texts := Payloads([[frame] + rest[0]] + rest[1..]);
            && texts[0] == (if frame.Bytes? then frame.data else "") + Payload(rest[0])
            && texts[1..] == Payloads(rest)[1..]
  {
    assert ([frame] + rest[0])[1..] == rest[0];
    assert ([[frame] + rest[0]] + rest[1..])[1..] == rest[1..];
  }

  /** Nothing is lost, doubled or reordered: the messages and the buffer make up all that came. */
  lemma {:induction false} BytesAreConserved(inbox: Inbox, frames: seq<Frame>)
    ensures var after := ReceiveAll(inbox, frames);
            Concat(after.messages) + after.buffer == Concat(inbox.messages) + inbox.buffer + Payload(frames)
    ensures |ReceiveAll(inbox, frames).messages| == |inbox.messages| + |Segments(frames)| - 1
    decreases |frames|
  {
    if frames != [] {
      var next := Receive(inbox, frames[0]);
      BytesAreConserved(next, frames[1..]);
      var whole := Concat(inbox.messages) + inbox.buffer;
      match frames[0]
      case End =>
        ConcatSnoc(inbox.messages, inbox.buffer);
        assert Concat(next.messages) + "" == whole;
        assert "" + Payload(frames[1..]) == Payload(frames);
      case Bytes(data) =>
        Assoc(Concat(inbox.messages), inbox.buffer, data);
        Assoc(whole, data, Payload(frames[1..]));
      case Failure =>
        assert "" + Payload(frames[1..]) == Payload(frames);
    }
  }

  lemma {:induction false} ConcatSnoc(messages: seq<string>, last: string)
    ensures Concat(messages + [last]) == Concat(messages) + last
  {
    if messages == [] {
      assert Concat([last]) == last + "";
    } else {
      ConcatSnoc(messages[1..], last);
      assert (messages + [last])[1..] == messages[1..] + [last];
      Assoc(messages[0], Concat(messages[1..]), last);
    }
  }

  /** However a text is cut into frames, a finished message is the text: fragmentation is invisible. */
  lemma WholeMessage(messages: seq<string>, frames: seq<Frame>)
    requires End !in frames
    ensures ReceiveAll(Inbox("", messages), frames) == Inbox(Payload(frames), messages)
  {
    NoEndOneSegment(frames);
    ReceiveAllIsCut(Inbox("", messages), frames);
    assert "" + Payload(frames) == Payload(frames);
  }

  lemma {:induction false} NoEndOneSegment(frames: seq<Frame>)
    requires End !in frames
    ensures Segments(frames) == [frames]
  {
    if frames != [] {
      assert frames[0] in frames;
      assert forall f | f in frames[1..] :: f in frames;
      NoEndOneSegment(frames[1..]);
      assert [frames[0]] + frames[1..] == frames;
    }
  }

  // ---------------------------------------------------------------- calls

  /** The inbox after some calls. */
  function ReceiveCalls(inbox: Inbox, calls: seq<ReadCall>): Inbox
    decreases |calls|
  {
    if calls == [] then inbox else ReceiveCalls(Receive(inbox, FrameOf(calls[0])), calls[1..])
  }

  function Frames(calls: seq<ReadCall>): seq<Frame> {
    if calls == [] then [] else [FrameOf(calls[0])] + Frames(calls[1..])
  }

  lemma {:induction false} CallsAreFrames(inbox: Inbox, calls: seq<ReadCall>)
    ensures ReceiveCalls(inbox, calls) == ReceiveAll(inbox, Frames(calls))
    decreases |calls|
  {
    if calls != [] {
      CallsAreFrames(Receive(inbox, FrameOf(calls[0])), calls[1..]);
      assert Frames(calls)[1..] == Frames(calls[1..]);
    }
  }

  /** The first `size` characters of the blocks with a positive size, one after the other. */
  function Received(calls: seq<ReadCall>): string {
    if calls == [] then ""
    else if calls[0].size > 0 then calls[0].data[..calls[0].size] + Received(calls[1..])
    else Received(calls[1..])
  }

  /** None of the calls ends a message. */
  predicate Unfinished(calls: seq<ReadCall>) { forall c | c in calls :: c.size != 0 }

  /** While no call has size 0, nothing is dispatched, and the buffer grows by what was received. */
  lemma {:induction false} CallsAccumulate(inbox: Inbox, calls: seq<ReadCall>)
    requires Unfinished(calls)
    ensures ReceiveCalls(inbox, calls) == Inbox(inbox.buffer + Received(calls), inbox.messages)
    decreases |calls|
  {
    if calls == [] {
      assert inbox.buffer + "" == inbox.buffer;
    } else {
      var c := calls[0];
      assert c in calls && forall d | d in calls[1..] :: d in calls;
      CallsAccumulate(Receive(inbox, FrameOf(c)), calls[1..]);
      if c.size > 0 {
        Assoc(inbox.buffer, c.data[..c.size], Received(calls[1..]));
      }
    }
  }

  /** A call with size 0, whatever its block holds, dispatches what was received since the last one,
      and leaves an empty buffer. */
  lemma CallsMakeMessage(messages: seq<string>, calls: seq<ReadCall>, closing: ReadCall)
    requires Unfinished(calls) && closing.size == 0
    ensures ReceiveCalls(Inbox("", messages), calls).messages == messages
    ensures ReceiveCalls(Inbox("", messages), calls + [closing]) == Inbox("", messages + [Received(calls)])
  {
    CallsAccumulate(Inbox("", messages), calls);
    assert "" + Received(calls) == Received(calls);
    CallsAppend(Inbox("", messages), calls, [closing]);
    assert [closing][1..] == [];
  }

  lemma {:induction false} CallsAppend(inbox: Inbox, a: seq<ReadCall>, b: seq<ReadCall>)
    ensures ReceiveCalls(inbox, a + b) == ReceiveCalls(ReceiveCalls(inbox, a), b)
    decreases |a|
  {
    if a == [] {
      assert a + b == b;
    } else {
      assert (a + b)[0] == a[0] && (a + b)[1..] == a[1..] + b;
      CallsAppend(Receive(inbox, FrameOf(a[0])), a[1..], b);
    }
  }
}
