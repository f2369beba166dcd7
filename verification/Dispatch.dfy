/** Cutting received byte streams into messages: `data_recieved`,
    `try_dispatch_message`, `get_next_message` and `add_kick_event` of
    src/mgr/mio_event_mgr.rs. */
module Dispatch {
  import opened Wrappers
  import opened Wire
  import opened NetMsgs
  import Sequences

  /** The length of the receive buffer, and so of the longest frame. */
  const READ_DATA_LEN: nat := 65536

  // ----- What a byte stream means -----

  /** What the front of a stream gives: nothing yet, a malformed frame, or a
      message and the bytes behind it. */
  datatype Step = Wait | Bad | Got(msg: Msg, rest: Bytes)

  /** The length of the next frame, once enough of it is there. */
  function NextFrame(s: Bytes): (r: Option<nat>)
    ensures r.Some? ==> r.value <= |s| && r.value <= READ_DATA_LEN && |s| >= HEAD_FILL_UP
  {
    if |s| < HEAD_FILL_UP then None
    else
      var length := FieldAt(s, 0, 4);
      var n := if length < READ_DATA_LEN then length else READ_DATA_LEN;
      if |s| < n then None else Some(n)
  }

  function NextStep(s: Bytes): Step {
    match NextFrame(s)
    case None => Wait
    case Some(n) =>
      match ParseMsg(s[..n])
      case Err(_) => Bad
      case Ok(m) => Got(m, s[n..])
  }

  /** Every message uses up a header's length or more. */
  ghost predicate Progress(step: Bytes -> Step) {
    forall s: Bytes :: step(s).Got? ==> |step(s).rest| + HEAD_FILL_UP <= |s|
  }

  /** What is decided about the front of a stream does not depend on what is
      still to come. */
  ghost predicate Stable(step: Bytes -> Step) {
    forall s: Bytes, t: Bytes :: step(s) != Wait ==>
      step(s + t) == match step(s) case Got(m, rest) => Got(m, rest + t) case Bad => Bad case Wait => Wait
  }

  lemma NextStepProgress()
    ensures Progress(NextStep)
  {
    forall s: Bytes | NextStep(s).Got? ensures |NextStep(s).rest| + HEAD_FILL_UP <= |s| {
      var n := NextFrame(s).value;
      assert s[..n][0..4] == s[0..4];
    }
  }

  lemma NextStepStable()
    ensures Stable(NextStep)
  {
    forall s: Bytes, t: Bytes | NextStep(s) != Wait
      ensures NextStep(s + t)
              == match NextStep(s) case Got(m, rest) => Got(m, rest + t) case Bad => Bad case Wait => Wait
    {
      var n := NextFrame(s).value;
      assert (s + t)[0..4] == s[0..4];
      assert (s + t)[..n] == s[..n];
      assert (s + t)[n..] == s[n..] + t;
    }
  }

  /** Messages delivered, bytes not yet used, and whether a malformed frame was
      met, after which nothing counts any more. */
  datatype Parsed = Parsed(msgs: seq<Msg>, rest: Bytes, bad: bool)

  ghost function ParseWith(step: Bytes -> Step, s: Bytes): Parsed
    requires Progress(step)
    decreases |s|
  {
    match step(s)
    case Wait => Parsed([], s, false)
    case Bad => Parsed([], [], true)
    case Got(m, rest) =>
      var p := ParseWith(step, rest);
      Parsed([m] + p.msgs, p.rest, p.bad)
  }

  /** What a stream has delivered never depends on what comes later, and what
      comes later is read as if the bytes left over were its beginning. */
  lemma {:induction false} ParseContinues(step: Bytes -> Step, a: Bytes, b: Bytes)
    requires Progress(step) && Stable(step)
    ensures ParseWith(step, a).bad ==> ParseWith(step, a + b) == ParseWith(step, a)
    ensures !ParseWith(step, a).bad ==>
              var p := ParseWith(step, ParseWith(step, a).rest + b);
              ParseWith(step, a + b) == Parsed(ParseWith(step, a).msgs + p.msgs, p.rest, p.bad)
    decreases |a|
  {
    match step(a)
    case Bad =>
    case Wait =>
      assert [] + ParseWith(step, a + b).msgs == ParseWith(step, a + b).msgs;
    case Got(m, rest) =>
      ParseContinues(step, rest, b);
      if !ParseWith(step, a).bad {
        var p := ParseWith(step, ParseWith(step, a).rest + b);
        Sequences.Assoc([m], ParseWith(step, rest).msgs, p.msgs);
      }
  }

  /** The meaning of a received stream. */
  ghost function Parse(s: Bytes): Parsed {
    NextStepProgress();
    ParseWith(NextStep, s)
  }

  // ----- Chunks -----

  /** One connection: the bytes waiting, while it lives, and what it has
      delivered so far. */
  datatype Stream = Stream(waiting: Option<Bytes>, delivered: seq<Msg>)

  /** What a received chunk does to a connection. */
  ghost function Receive(st: Stream, chunk: Bytes): Stream {
    match st.waiting
    case None => st
    case Some(s) =>
      var p := Parse(s + chunk);
      Stream(if p.bad then None else Some(p.rest), st.delivered + p.msgs)
  }

  ghost function ReceiveAll(st: Stream, chunks: seq<Bytes>): Stream
    decreases |chunks|
  {
    if chunks == [] then st else Receive(ReceiveAll(st, chunks[..|chunks| - 1]), chunks[|chunks| - 1])
  }

  function Joined(chunks: seq<Bytes>): Bytes {
    if chunks == [] then [] else Joined(chunks[..|chunks| - 1]) + chunks[|chunks| - 1]
  }

  ghost function StreamOf(p: Parsed): Stream {
    Stream(if p.bad then None else Some(p.rest), p.msgs)
  }

  lemma ReceiveMore(s: Bytes, chunk: Bytes)
    ensures Receive(StreamOf(Parse(s)), chunk) == StreamOf(Parse(s + chunk))
  {
    NextStepProgress();
    NextStepStable();
    ParseContinues(NextStep, s, chunk);
  }

  /** However a stream is cut into chunks, the connection delivers what the
      whole stream says, and dies exactly when the stream has a malformed
      frame. */
  lemma {:induction false} ChunksDoNotMatter(chunks: seq<Bytes>)
    ensures ReceiveAll(Stream(Some([]), []), chunks) == StreamOf(Parse(Joined(chunks)))
    decreases |chunks|
  {
    if chunks == [] {
      assert NextStep([]) == Wait;
    } else {
      ChunksDoNotMatter(chunks[..|chunks| - 1]);
      ReceiveMore(Joined(chunks[..|chunks| - 1]), chunks[|chunks| - 1]);
    }
  }

  // ----- Streams of finished messages -----

  /** A message that its sender finished: the header spells the fields and the
      length field is the number of bytes. */
  ghost predicate FinishedMsg(m: Msg) {
    && HEAD_FILL_UP <= |m.data| == m.head.length
    && EncodeHead(m.head) <= m.data
    && StringAt(m.data, HEAD_FILL_UP) == Some(m.packName)
  }

  function Sent(msgs: seq<Msg>): Bytes {
    if msgs == [] then [] else msgs[0].data + Sent(msgs[1..])
  }

  lemma FirstFrame(m: Msg, rest: Bytes)
    requires FinishedMsg(m)
    ensures NextStep(m.data + rest) == if |m.data| <= READ_DATA_LEN then Got(m, rest) else Bad
  {
    var s := m.data + rest;
    HeadRoundTrip(m.head, m.data);
    FinishedRoundTrip(m);
    assert s[0..4] == m.data[0..4];
    assert s[..|m.data|] == m.data && s[|m.data|..] == rest;
    if |m.data| > READ_DATA_LEN {
      assert s[..READ_DATA_LEN][0..4] == m.data[0..4];
    }
  }

  /** The messages before the first one longer than a frame can be. */
  function Fitting(msgs: seq<Msg>): seq<Msg> {
    if msgs == [] || |msgs[0].data| > READ_DATA_LEN then [] else [msgs[0]] + Fitting(msgs[1..])
  }

  /** Finished messages sent one after another arrive complete and in order, up
      to the first that is longer than 65536 bytes; that one ends the
      connection. */
  lemma {:induction false} SentIsParsed(msgs: seq<Msg>)
    requires forall i :: 0 <= i < |msgs| ==> FinishedMsg(msgs[i])
    ensures Parse(Sent(msgs)) == Parsed(Fitting(msgs), [], Fitting(msgs) != msgs)
    decreases |msgs|
  {
    NextStepProgress();
    if msgs == [] {
      assert NextStep([]) == Wait;
    } else {
      assert FinishedMsg(msgs[0]);
      FirstFrame(msgs[0], Sent(msgs[1..]));
      SentIsParsed(msgs[1..]);
      assert msgs == [msgs[0]] + msgs[1..];
    }
  }

  lemma {:induction false} AllFit(msgs: seq<Msg>)
    ensures Fitting(msgs) == msgs <==> forall i :: 0 <= i < |msgs| ==> |msgs[i].data| <= READ_DATA_LEN
  {
    if msgs != [] {
      AllFit(msgs[1..]);
      assert msgs == [msgs[0]] + msgs[1..];
      assert forall i :: 0 < i < |msgs| ==> msgs[i] == msgs[1..][i - 1];
    }
  }

  /** Chunking independence: any cutting of the bytes of finished messages
      delivers those messages, with all their header fields, and leaves nothing
      over, exactly when all of them fit a frame. */
  lemma ChunkedDelivery(msgs: seq<Msg>, chunks: seq<Bytes>)
    requires forall i :: 0 <= i < |msgs| ==> FinishedMsg(msgs[i])
    requires Joined(chunks) == Sent(msgs)
    ensures ReceiveAll(Stream(Some([]), []), chunks) == Stream(Some([]), msgs)
            <==> forall i :: 0 <= i < |msgs| ==> |msgs[i].data| <= READ_DATA_LEN
    ensures ReceiveAll(Stream(Some([]), []), chunks).delivered == Fitting(msgs)
  {
    ChunksDoNotMatter(chunks);
    SentIsParsed(msgs);
    AllFit(msgs);
  }

  // ----- The receiving side -----

  /** Read from the front and written at the end. */
  ghost predicate AtFront(b: Buffer)
    reads b
  {
    b.Valid() && b.rpos == 0 && b.wpos == |b.val|
  }

  class SocketEvent {
    var inBuffer: Buffer

    constructor ()
      ensures fresh(inBuffer) && inBuffer.Valid() && inBuffer.val == [] && inBuffer.rpos == inBuffer.wpos == 0
    {
      inBuffer := new Buffer();
    }
  }

  /** The next frame, taken out of the buffer when it is complete (lines
      295-308). */
  method GetNextMessage(buffer: Buffer) returns (r: Option<Bytes>)
    requires buffer.Valid() && buffer.rpos == 0 && buffer.wpos == |buffer.val|
    modifies buffer
    ensures buffer.Valid() && buffer.rpos == 0 && buffer.wpos == |buffer.val|
    ensures var n := NextFrame(old(buffer.val));
            match n
            case None => r == None && buffer.val == old(buffer.val)
            case Some(n) => r == Some(old(buffer.val)[..n]) && buffer.val == old(buffer.val)[n..]
  {
    if |buffer.val| < HEAD_FILL_UP {
      return None;
    }
    var rpos := buffer.rpos;
    var length := TakeNumber(buffer, 4);
    buffer.rpos := rpos;
    length := if length < READ_DATA_LEN then length else READ_DATA_LEN;
    if |buffer.val| - rpos < length {
      return None;
    }
    var data := buffer.DrainCollect(length);
    r := Some(data);
  }

  /** One turn of the loop at lines 279-292: the next message, if it is complete
      and well formed. */
  method DispatchOne(buffer: Buffer) returns (bad: bool, msg: Option<Msg>)
    requires AtFront(buffer)
    modifies buffer
    ensures AtFront(buffer)
    ensures bad <==> NextStep(old(buffer.val)) == Bad
    ensures msg.Some? <==> NextStep(old(buffer.val)).Got?
    ensures msg.Some? ==> NextStep(old(buffer.val)) == Got(msg.value, buffer.val)
    ensures !bad && msg == None ==> buffer.val == old(buffer.val)
  {
    bad, msg := false, None;
    var message := GetNextMessage(buffer);
    if message == None {
      return;
    }
    var r := NewByData(message.value);
    match r
    case Err(_) => bad := true;
    case Ok(m) => msg := Some(m.View());
  }

  /** One chunk on a connection, as a step of its stream. */
  ghost function ReceivedState(waiting: Option<Bytes>, chunk: Bytes): Stream {
    Receive(Stream(waiting, []), chunk)
  }

  /** The steps of a connection add up to its stream. */
  lemma ReceivedAdds(st: Stream, chunk: Bytes)
    ensures var step := ReceivedState(st.waiting, chunk);
            Receive(st, chunk) == Stream(step.waiting, st.delivered + step.delivered)
  {
    assert st.delivered + [] == st.delivered;
    assert st.waiting.Some? ==> [] + Parse(st.waiting.value + chunk).msgs == Parse(st.waiting.value + chunk).msgs;
  }

  function Tagged(unique: string, msgs: seq<Msg>): seq<(string, Msg)> {
    seq(|msgs|, i requires 0 <= i < |msgs| => (unique, msgs[i]))
  }

  lemma TaggedSnoc(unique: string, msgs: seq<Msg>, m: Msg)
    ensures Tagged(unique, msgs + [m]) == Tagged(unique, msgs) + [(unique, m)]
  {
  }

  /** The first step of a parse, in the middle of a dispatch. */
  lemma ParseUnfold(s: Bytes, done: seq<Msg>)
    ensures NextStep(s) == Wait ==> Parse(s) == Parsed([], s, false) && done + Parse(s).msgs == done
    ensures NextStep(s) == Bad ==> Parse(s).bad && Parse(s).msgs == [] && done + Parse(s).msgs == done
    ensures NextStep(s).Got? ==> var st := NextStep(s);
              && |st.rest| < |s|
              && Parse(s) == Parsed([st.msg] + Parse(st.rest).msgs, Parse(st.rest).rest, Parse(st.rest).bad)
              && done + Parse(s).msgs == (done + [st.msg]) + Parse(st.rest).msgs
  {
    NextStepProgress();
  }

  /** What was handed over for one connection. */
  function DeliveredTo(applied: seq<(string, Msg)>, unique: string): seq<Msg> {
    if applied == [] then []
    else
      var last := applied[|applied| - 1];
      DeliveredTo(applied[..|applied| - 1], unique) + if last.0 == unique then [last.1] else []
  }

  /** The chunks that came in on one connection. */
  function ChunksOn(arrivals: seq<(string, Bytes)>, unique: string): seq<Bytes> {
    if arrivals == [] then []
    else
      var last := arrivals[|arrivals| - 1];
      ChunksOn(arrivals[..|arrivals| - 1], unique) + if last.0 == unique then [last.1] else []
  }

  lemma {:induction false} DeliveredMore(applied: seq<(string, Msg)>, u: string, msgs: seq<Msg>, unique: string)
    ensures DeliveredTo(applied + Tagged(u, msgs), unique)
            == DeliveredTo(applied, unique) + if u == unique then msgs else []
    decreases |msgs|
  {
    if msgs == [] {
      assert applied + Tagged(u, msgs) == applied;
    } else {
      var init, m := msgs[..|msgs| - 1], msgs[|msgs| - 1];
      assert msgs == init + [m];
      TaggedSnoc(u, init, m);
      Sequences.Assoc(applied, Tagged(u, init), [(u, m)]);
      assert (applied + Tagged(u, msgs))[..|applied + Tagged(u, msgs)| - 1] == applied + Tagged(u, init);
      DeliveredMore(applied, u, init, unique);
    }
  }

  lemma ArrivedMore(st: Stream, arrivals: seq<(string, Bytes)>, i: nat, unique: string)
    requires i < |arrivals|
    ensures ReceiveAll(st, ChunksOn(arrivals[..i + 1], unique)) ==
            var now := ReceiveAll(st, ChunksOn(arrivals[..i], unique));
            if unique == arrivals[i].0 then Receive(now, arrivals[i].1) else now
  {
    assert arrivals[..i + 1][..i] == arrivals[..i];
    var chunks := ChunksOn(arrivals[..i], unique);
    assert (chunks + [arrivals[i].1])[..|chunks|] == chunks && chunks + [] == chunks;
  }

  class MioEventMgr {
    var connectIds: map<string, SocketEvent>
    /** Messages handed to the scripts, each with its connection. */
    var applied: seq<(string, Msg)>

    /** Connections do not share buffers, and buffers are read from the front. */
    ghost predicate Valid()
      reads this, connectIds.Values, set e <- connectIds.Values :: e.inBuffer
    {
      && (forall u <- connectIds :: AtFront(connectIds[u].inBuffer))
      && (forall u <- connectIds, v <- connectIds :: u != v ==> connectIds[u].inBuffer != connectIds[v].inBuffer)
    }

    ghost function Buffers(unique: string): set<Buffer>
      reads this, connectIds.Values
    {
      if unique in connectIds then {connectIds[unique].inBuffer} else {}
    }

    /** The bytes waiting on a connection, or none when it is gone. */
    ghost function Waiting(unique: string): Option<Bytes>
      reads this, connectIds.Values, set e <- connectIds.Values :: e.inBuffer
    {
      if unique in connectIds then Some(connectIds[unique].inBuffer.val) else None
    }

    /** The dispatch loop, up to a malformed frame. */
    method DispatchBuffer(unique: string, buffer: Buffer) returns (bad: bool)
      requires AtFront(buffer)
      modifies this`applied, buffer
      ensures AtFront(buffer)
      ensures bad == Parse(old(buffer.val)).bad
      ensures !bad ==> buffer.val == Parse(old(buffer.val)).rest
      ensures applied == old(applied) + Tagged(unique, Parse(old(buffer.val)).msgs)
    {
      ghost var start, done := buffer.val, [];
      assert old(applied) + [] == old(applied);
      assert [] + Parse(start).msgs == Parse(start).msgs;
      while true
        invariant AtFront(buffer)
        invariant Parse(start) == Parsed(done + Parse(buffer.val).msgs, Parse(buffer.val).rest, Parse(buffer.val).bad)
        invariant applied == old(applied) + Tagged(unique, done)
        decreases |buffer.val|
      {
        ParseUnfold(buffer.val, done);
        var msg;
        bad, msg := DispatchOne(buffer);
        if bad || msg == None {
          return;
        }
        TaggedSnoc(unique, done, msg.value);
        Sequences.Assoc(old(applied), Tagged(unique, done), [(unique, msg.value)]);
        applied := applied + [(unique, msg.value)];
        done := done + [msg.value];
      }
    }

    /** Forgets a connection, if it is known (lines 330-341). */
    method AddKickEvent(unique: string)
      requires Valid()
      modifies this`connectIds
      ensures Valid() && connectIds == old(connectIds) - {unique}
    {
      connectIds := connectIds - {unique};
    }

    method DispatchKnown(unique: string)
      requires Valid() && unique in connectIds
      modifies this, Buffers(unique)
      ensures Valid() && connectIds.Keys <= old(connectIds.Keys)
              && forall u <- connectIds :: connectIds[u] == old(connectIds)[u]
      ensures var p := Parse(old(connectIds[unique].inBuffer.val));
              Waiting(unique) == (if p.bad then None else Some(p.rest))
                && applied == old(applied) + Tagged(unique, p.msgs)
      ensures forall u :: u != unique ==> Waiting(u) == old(Waiting(u))
    {
      var buffer := connectIds[unique].inBuffer;
      var bad := DispatchBuffer(unique, buffer);
      if bad {
        AddKickEvent(unique);
      }
    }

    /** Hands over every complete message in the buffer; a malformed frame
        ends the connection (lines 268-293). */
    method TryDispatchMessage(unique: string)
      requires Valid()
      modifies this, Buffers(unique)
      ensures Valid() && connectIds.Keys <= old(connectIds.Keys)
              && forall u <- connectIds :: connectIds[u] == old(connectIds)[u]
      ensures Waiting(unique) == ReceivedState(old(Waiting(unique)), []).waiting
      ensures applied == old(applied) + Tagged(unique, ReceivedState(old(Waiting(unique)), []).delivered)
      ensures forall u :: u != unique ==> Waiting(u) == old(Waiting(u))
    {
      if unique !in connectIds {
        assert old(applied) + [] == old(applied);
        return;
      }
      ghost var waiting := connectIds[unique].inBuffer.val;
      assert waiting + [] == waiting && [] + Parse(waiting).msgs == Parse(waiting).msgs;
      DispatchKnown(unique);
    }

    /** A chunk arrives on a connection (lines 255-266). */
    method DataRecieved(unique: string, data: Bytes)
      requires Valid()
      modifies this, Buffers(unique)
      ensures Valid() && connectIds.Keys <= old(connectIds.Keys)
              && forall u <- connectIds :: connectIds[u] == old(connectIds)[u]
      ensures Waiting(unique) == ReceivedState(old(Waiting(unique)), data).waiting
      ensures applied == old(applied) + Tagged(unique, ReceivedState(old(Waiting(unique)), data).delivered)
      ensures forall u :: u != unique ==> Waiting(u) == old(Waiting(u))
    {
      if unique !in connectIds {
        assert old(applied) + [] == old(applied);
        return;
      }
      var socketEvent := connectIds[unique];
      socketEvent.inBuffer.Write(data);
      ghost var s := old(socketEvent.inBuffer.val) + data;
      assert socketEvent.inBuffer.val == s && s + [] == s;
      TryDispatchMessage(unique);
    }

    ghost function StreamOn(unique: string): Stream
      reads this, connectIds.Values, set e <- connectIds.Values :: e.inBuffer
    {
      Stream(Waiting(unique), DeliveredTo(applied, unique))
    }

    /** A chunk takes the stream of its own connection one step. */
    method Arrive(unique: string, data: Bytes)
      requires Valid()
      modifies this, Buffers(unique)
      ensures Valid() && connectIds.Keys <= old(connectIds.Keys)
              && forall u <- connectIds :: connectIds[u] == old(connectIds)[u]
      ensures forall u: string ::
                StreamOn(u) == if u == unique then Receive(old(StreamOn(u)), data) else old(StreamOn(u))
    {
      ghost var before, msgs := applied, ReceivedState(Waiting(unique), data).delivered;
      ReceivedAdds(StreamOn(unique), data);
      DataRecieved(unique, data);
      forall u: string ensures DeliveredTo(applied, u) == DeliveredTo(before, u) + if u == unique then msgs else [] {
        DeliveredMore(before, unique, msgs, u);
      }
      assert forall u: string :: u != unique ==> DeliveredTo(before, u) + [] == DeliveredTo(before, u);
    }

    /** Chunks of any number of connections in any order: each connection ends up
        as its own chunks alone would leave it. */
    method ArriveAll(arrivals: seq<(string, Bytes)>)
      requires Valid()
      modifies this, set e <- connectIds.Values :: e.inBuffer
      ensures Valid()
      ensures forall u: string :: StreamOn(u) == ReceiveAll(old(StreamOn(u)), ChunksOn(arrivals, u))
    {
      for i := 0 to |arrivals|
        invariant Valid() && connectIds.Keys <= old(connectIds.Keys)
                  && forall u <- connectIds :: connectIds[u] == old(connectIds)[u]
        invariant forall u <- connectIds :: connectIds[u].inBuffer == old(connectIds[u].inBuffer)
        invariant forall u: string :: StreamOn(u) == ReceiveAll(old(StreamOn(u)), ChunksOn(arrivals[..i], u))
      {
        Arrive(arrivals[i].0, arrivals[i].1);
        forall u: string
          ensures ReceiveAll(old(StreamOn(u)), ChunksOn(arrivals[..i + 1], u)) ==
                  var st := ReceiveAll(old(StreamOn(u)), ChunksOn(arrivals[..i], u));
                  if u == arrivals[i].0 then Receive(st, arrivals[i].1) else st
        {
          ArrivedMore(old(StreamOn(u)), arrivals, i, u);
        }
      }
      assert arrivals[..|arrivals|] == arrivals;
    }
  }
}
