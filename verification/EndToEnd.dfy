/** A message and its body from the sender's queue to the receiver's buffer:
    whatever the writes and the reads cut it into, it arrives as it was sent
    (TCPSession.cc, HTTPFraming.cc, MsgHdr.cc). */
module EndToEnd {
  import opened Scan
  import opened Http
  import opened HttpPrint
  import Url
  import UrlPrefix
  import opened RequestPrefix
  import opened Receiver
  import Buffers
  import Outgoing
  import OutgoingRun
  import OutgoingDrain
  import OutgoingCalls
  import opened Incoming
  import opened Streaming

  // ---- The sender.

  // set_body_len
  function Framed(h: Head, body: string): Head {
    match h
    case Response(major, minor, code, hdrs) => Response(major, minor, code, hdrs + [BodyLenHdr(|body|)])
    case Request(verb, uri, major, minor, hdrs) => Request(verb, uri, major, minor, hdrs + [BodyLenHdr(|body|)])
  }

  // A header that can arrive once its length is added: a response that is not
  // chunked, or a request for an absolute URL or for a path, without "://" in
  // it, whose query has no late key.
  predicate Carriable(h: Head) {
    || Plain(h)
    || (RequestOk(h) && AllSolid(h.hdrs) && Url.Separated(h.uri) && Url.Unmarked(h.uri)
        && UrlPrefix.Addressed(h.uri) && '/' !in h.uri.scheme && !LateKey(h))
  }

  // It states no length yet, and with its length fits the print buffer.
  predicate Sendable(h: Head, body: string) {
    && Carriable(h)
    && FindHdr(h.hdrs, CONTENT_LENGTH) == |h.hdrs|
    && |body| < 0x8000_0000 && |PrintHdr(Framed(h, body), false)| <= Buffers.LIMIT
  }

  lemma DigitsOk(d: string)
    requires d != "" && All(Digit, d)
    ensures Ok(d, {';', '\r'})
  {
    forall i | 0 <= i < |d| ensures Has(Until({';', '\r'}), d[i]) && d[i] != '\0' {
      assert Has(Digit, d[i]);
    }
    assert Has(Digit, d[0]);
  }

  lemma NameOk()
    ensures Ok(CONTENT_LENGTH, {':'})
  {
  }

  lemma BodyLenHdrOk(n: nat)
    requires n < 0x8000_0000
    ensures HeaderOk(BodyLenHdr(n)) && Solid(BodyLenHdr(n))
  {
    assert PrintInt(ToInt(n)) == Dec(n);
    DigitsOk(Dec(n));
    NameOk();
  }

  lemma FramedLen(h: Head, body: string)
    requires Sendable(h, body)
    ensures var hdrs := Framed(h, body).hdrs;
      AppendHdr(h.hdrs, BodyLenHdr(|body|)) == Got(hdrs, "") && MsgLen(hdrs) == |body|
  {
    BodyLenRoundTrip(h.hdrs, |body|);
  }

  lemma FramedHdrs(hdrs: seq<Header>, n: nat)
    requires HeadersOk(hdrs) && AllSolid(hdrs) && n < 0x8000_0000
    ensures var more := hdrs + [BodyLenHdr(n)];
      HeadersOk(more) && AllSolid(more) && (!IsChunked(hdrs) ==> !IsChunked(more))
  {
    BodyLenHdrOk(n);
    FindHdrAppended(hdrs, BodyLenHdr(n), TRANSFER_ENCODING);
  }

  lemma FramedArrivable(h: Head, body: string)
    requires Sendable(h, body)
    ensures Arrivable(Framed(h, body)) && (Framed(h, body).Response? <==> h.Response?)
  {
    FramedHdrs(h.hdrs, |body|);
    if h.Request? { LineToCome(Framed(h, body)); }
  }

  lemma FramedOk(h: Head, body: string)
    requires Sendable(h, body)
    ensures var f := Framed(h, body);
      && AppendHdr(h.hdrs, BodyLenHdr(|body|)) == Got(f.hdrs, "")
      && Arrivable(f) && MsgLen(f.hdrs) == |body|
  {
    FramedLen(h, body);
    FramedArrivable(h, body);
  }

  // What AddMsgBuf or AddMsgFile is given: the header as it prints, and the
  // body, or a file that starts with it.
  predicate Carries(m: Outgoing.Msg, h: Head, body: string) {
    && m.hdr == Buffers.Cut(PrintHdr(Framed(h, body), false))
    && if m.MemMsg? then m.body == body else m.bodyLen == |body| && body <= m.content
  }

  lemma CarriesPromised(m: Outgoing.Msg, h: Head, body: string)
    requires Sendable(h, body) && Carries(m, h, body)
    ensures Outgoing.Promised(m) == PrintHdr(Framed(h, body), false) + body
  {
    if m.FileMsg? { assert (m.hdr + m.content)[..|m.hdr| + |body|] == m.hdr + body; }
  }

  // ---- Both ends.

  // A first message that was popped after it was sent starts the wire.
  lemma FirstOnWire(st: Outgoing.Out, m: Outgoing.Msg)
    requires Outgoing.Valid(st) && SentWhole(st.log, m)
    ensures Outgoing.Promised(m) <= st.wire
  {
    assert Outgoing.PastOk(st.log[0]);
    CatAssoc(Outgoing.Promised(m), Outgoing.PastBytes(st.log[1..]), Outgoing.FrontBytes(st.queue));
  }

  function Wire(blocking: bool, ops: seq<OutgoingRun.Op>): string {
    OutgoingRun.Run(Outgoing.Opened(blocking, true), ops).wire
  }

  // The message was the first to leave the queue, and it left as sent. A file
  // that is longer than the body was not skipped in.
  predicate SentWhole(log: seq<Outgoing.Past>, m: Outgoing.Msg) {
    log != [] && log[0].complete && log[0].item.msg == m && (Outgoing.Fits(m) || !Outgoing.Gap(log[0].item))
  }

  predicate SentFirst(m: Outgoing.Msg, blocking: bool, ops: seq<OutgoingRun.Op>) {
    SentWhole(OutgoingRun.Run(Outgoing.Opened(blocking, true), ops).log, m)
  }

  lemma FirstIsFirst(m: Outgoing.Msg, blocking: bool, ops: seq<OutgoingRun.Op>)
    requires SentFirst(m, blocking, ops)
    ensures Outgoing.Promised(m) <= Wire(blocking, ops)
    ensures OutgoingRun.Accepted(ops) != [] && OutgoingRun.Accepted(ops)[0] == m
  {
    var st0 := Outgoing.Opened(blocking, true);
    OutgoingRun.NoneLost(st0, ops);
    assert Outgoing.Taken(st0) == [];
    FirstOnWire(OutgoingRun.Run(st0, ops), m);
    FirstIsTaken(OutgoingRun.Run(st0, ops), m);
  }

  lemma FirstIsTaken(st: Outgoing.Out, m: Outgoing.Msg)
    requires SentWhole(st.log, m)
    ensures Outgoing.Taken(st) != [] && Outgoing.Taken(st)[0] == m
  {
    assert Outgoing.PastMsgs(st.log)[0] == m;
  }

  // A message in memory or in a file, whatever else is queued, however the
  // socket cuts the writes and the reads: once the sender has popped it as
  // sent and the receiver has read on, the message is complete with the
  // sender's header, and the buffer holds the sender's body and then the bytes
  // after it. Only a request with no body and nothing behind it is still
  // waited for.
  lemma {:induction false} MessageArrives(m: Outgoing.Msg, h: Head, body: string, sendBlocking: bool, ops: seq<OutgoingRun.Op>,
                       readBlocking: bool, turns: seq<Turn>)
    requires Sendable(h, body) && Carries(m, h, body) && SentFirst(m, sendBlocking, ops)
    requires |turns| >= |Wire(sendBlocking, ops)| && forall i :: 0 <= i < |turns| ==> turns[i].size > 0
    ensures var wire, f := Wire(sendBlocking, ops), Framed(h, body);
      && On(Opened(readBlocking), f, wire)
      && (var r := Receive(Opened(readBlocking), f, wire, turns);
          && r.received == wire && (IsComplete(r) ==> Delivered(r, f, wire, body))
          && (IsComplete(r) <==> h.Response? || |wire| > |PrintHdr(f, false)|))
  {
    FramedOk(h, body);
    CarriesPromised(m, h, body);
    FirstIsFirst(m, sendBlocking, ops);
    WireArrives(Framed(h, body), body, Wire(sendBlocking, ops), readBlocking, turns);
  }

  // The call that queues it takes every message with a header that can arrive.
  lemma CallTakes(st: Outgoing.Out, m: Outgoing.Msg, h: Head, body: string)
    requires Sendable(h, body) && Carries(m, h, body)
    ensures Outgoing.Add(st, m) == st.(queue := st.queue + [Outgoing.Fresh(m)]) && Outgoing.Accepts(m)
  {
    var f := Framed(h, body);
    FramedArrivable(h, body);
    HeaderNotEmpty(f);
    assert PrintHdr(f, false) + "" == PrintHdr(f, false);
    if f.Request? { RequestStart(f, ""); FirstOfMethod(f); } else { PrintedStart(f, ""); }
    OutgoingCalls.AddIs(st, m);
    OutgoingCalls.CStrEmpty(m.hdr);
  }

  lemma FirstOfMethod(f: Head)
    requires f.Request?
    ensures PrintHdr(f, false) != "" && PrintHdr(f, false)[0] == MethodName(f.verb)[0] != '\0'
  {
    PrintHdrIs(f, false, "");
    RequestLineIs(f, Fields(f, ""));
    assert PrintHdr(f, false) + "" == PrintHdr(f, false);
  }

  // The same from the call on a new session that queues the message: it is the
  // first to leave.
  lemma FirstCall(m: Outgoing.Msg, h: Head, body: string, blocking: bool, more: seq<OutgoingRun.Op>)
    requires Sendable(h, body) && Carries(m, h, body)
    ensures var log := OutgoingRun.Run(Outgoing.Opened(blocking, true), [OutgoingRun.AddOp(m)] + more).log;
      log != [] ==> log[0].item.msg == m
  {
    var st0, ops := Outgoing.Opened(blocking, true), [OutgoingRun.AddOp(m)] + more;
    CallTakes(st0, m, h, body);
    OutgoingRun.NoneLost(st0, ops);
    assert ops[0] == OutgoingRun.AddOp(m) && OutgoingRun.Accepted(ops)[0] == m;
    var st := OutgoingRun.Run(st0, ops);
    assert Outgoing.Taken(st0) == [] && Outgoing.Taken(st)[0] == m;
    if st.log != [] { assert Outgoing.PastMsgs(st.log)[0] == st.log[0].item.msg; }
  }

  lemma {:induction false} CallArrives(m: Outgoing.Msg, h: Head, body: string, sendBlocking: bool, more: seq<OutgoingRun.Op>,
                       readBlocking: bool, turns: seq<Turn>)
    requires Sendable(h, body) && Carries(m, h, body)
    requires var log := OutgoingRun.Run(Outgoing.Opened(sendBlocking, true), [OutgoingRun.AddOp(m)] + more).log;
      log != [] && log[0].complete && (Outgoing.Fits(m) || !Outgoing.Gap(log[0].item))
    requires |turns| >= |Wire(sendBlocking, [OutgoingRun.AddOp(m)] + more)| && forall i :: 0 <= i < |turns| ==> turns[i].size > 0
    ensures var wire, f := Wire(sendBlocking, [OutgoingRun.AddOp(m)] + more), Framed(h, body);
      && On(Opened(readBlocking), f, wire)
      && (var r := Receive(Opened(readBlocking), f, wire, turns);
          && r.received == wire && (IsComplete(r) ==> Delivered(r, f, wire, body))
          && (IsComplete(r) <==> h.Response? || |wire| > |PrintHdr(f, false)|))
  {
    FirstCall(m, h, body, sendBlocking, more);
    MessageArrives(m, h, body, sendBlocking, [OutgoingRun.AddOp(m)] + more, readBlocking, turns);
  }

  lemma {:induction false} ResponseArrives(m: Outgoing.Msg, h: Head, body: string, sendBlocking: bool, ops: seq<OutgoingRun.Op>,
                        readBlocking: bool, turns: seq<Turn>)
    requires h.Response? && Sendable(h, body) && Carries(m, h, body) && SentFirst(m, sendBlocking, ops)
    requires |turns| >= |Wire(sendBlocking, ops)| && forall i :: 0 <= i < |turns| ==> turns[i].size > 0
    ensures var wire, f := Wire(sendBlocking, ops), Framed(h, body);
      && On(Opened(readBlocking), f, wire)
      && (var r := Receive(Opened(readBlocking), f, wire, turns);
          IsComplete(r) && r.received == wire && Delivered(r, f, wire, body))
  {
    MessageArrives(m, h, body, sendBlocking, ops, readBlocking, turns);
  }

  // The message is complete with its header, its body in the closed file and
  // the bytes after it in the buffer.
  ghost predicate Filed(st: In, f: Head, wire: string, body: string) {
    var n := |PrintHdr(f, false)| + |body|;
    && st.head == Got(f, "") && st.file == RFile(false, body) && IsComplete(st)
    && n <= |st.received| <= |wire| && st.rbuf == wire[n..|st.received|]
  }

  // The receiver may send the body to a file, as soon as it has found the
  // header: then the file ends up with the sender's body and nothing else, is
  // closed, and the bytes after the body are in the buffer.
  lemma {:induction false} FileArrives(m: Outgoing.Msg, h: Head, body: string, sendBlocking: bool, ops: seq<OutgoingRun.Op>,
                    readBlocking: bool, turns: seq<Turn>, more: seq<FileTurn>)
    requires Sendable(h, body) && Carries(m, h, body) && SentFirst(m, sendBlocking, ops)
    requires forall i :: 0 <= i < |more| ==> more[i].size > 0 && more[i].room > 0
    requires |more| > |Wire(sendBlocking, ops)| + |body|
    ensures var wire, f := Wire(sendBlocking, ops), Framed(h, body);
      && On(Opened(readBlocking), f, wire)
      && (var found := Receive(Opened(readBlocking), f, wire, turns);
          found.info.initialized ==>
            var st := SetFile(found, true).st;
            && Direct(st) && st.received <= wire
            && Filed(StreamAll(st, wire, more), f, wire, body) && StreamAll(st, wire, more).lost == found.lost)
  {
    var wire, f := Wire(sendBlocking, ops), Framed(h, body);
    FramedOk(h, body);
    CarriesPromised(m, h, body);
    FirstIsFirst(m, sendBlocking, ops);
    assert PrintHdr(f, false) <= PrintHdr(f, false) + body;
    OnStart(readBlocking, f, wire);
    var found := Receive(Opened(readBlocking), f, wire, turns);
    if found.info.initialized {
      FileOn(found, f, wire, body);
      FileFollows(SetFile(found, true).st, f, wire, body, more);
    }
  }

  lemma {:induction false} FileFollows(st: In, f: Head, wire: string, body: string, more: seq<FileTurn>)
    requires Filing(st, PrintHdr(f, false), wire, body) && st.head == Got(f, "")
    requires forall i :: 0 <= i < |more| ==> more[i].size > 0 && more[i].room > 0
    requires |more| > |wire| + |body|
    ensures Filed(StreamAll(st, wire, more), f, wire, body) && StreamAll(st, wire, more).lost == st.lost
  {
    StreamEnds(st, PrintHdr(f, false), wire, body, more);
    FiledIs(StreamAll(st, wire, more), f, wire, body);
  }

  lemma FiledIs(st: In, f: Head, wire: string, body: string)
    requires Filing(st, PrintHdr(f, false), wire, body) && st.file == RFile(false, body) && st.head == Got(f, "")
    requires var n := |PrintHdr(f, false)| + |body|; n <= |st.received| && st.rbuf == wire[n..|st.received|]
    ensures Filed(st, f, wire, body)
  {
  }

  // A message that is queued first does arrive: the sender's loop empties the
  // queue, the receiver's loop completes the message.
  lemma {:induction false} QueuedMessageArrives(m: Outgoing.Msg, h: Head, body: string, st: Outgoing.Out, scripts: seq<seq<Outgoing.Sys>>,
                             readBlocking: bool, turns: seq<Turn>)
    requires Sendable(h, body) && Carries(m, h, body)
    requires Outgoing.Valid(st) && OutgoingDrain.Ready(st) && OutgoingDrain.AlwaysWilling(st, scripts)
    requires st.log == [] && st.queue != [] && st.queue[0].msg == m
    requires |scripts| >= OutgoingDrain.Measure(st)
    requires |turns| >= |OutgoingDrain.Drain(st, scripts).wire| && forall i :: 0 <= i < |turns| ==> turns[i].size > 0
    ensures var wire, f := OutgoingDrain.Drain(st, scripts).wire, Framed(h, body);
      && OutgoingDrain.Drain(st, scripts).queue == []
      && On(Opened(readBlocking), f, wire)
      && (var r := Receive(Opened(readBlocking), f, wire, turns);
          && r.received == wire && (IsComplete(r) ==> Delivered(r, f, wire, body))
          && (IsComplete(r) <==> h.Response? || |wire| > |PrintHdr(f, false)|))
  {
    FramedOk(h, body);
    CarriesPromised(m, h, body);
    OutgoingDrain.DrainEmpties(st, scripts);
    StreamStarts(Outgoing.Taken(st), m);
    WireArrives(Framed(h, body), body, OutgoingDrain.Drain(st, scripts).wire, readBlocking, turns);
  }

  // A new session after the call that queues the message.
  function Called(m: Outgoing.Msg, blocking: bool): (st: Outgoing.Out)
    ensures Outgoing.Valid(st)
  {
    Outgoing.AddKeeps(Outgoing.Opened(blocking, true), m);
    Outgoing.Add(Outgoing.Opened(blocking, true), m)
  }

  lemma CalledIs(m: Outgoing.Msg, h: Head, body: string, blocking: bool)
    requires Sendable(h, body) && Carries(m, h, body) && (m.FileMsg? ==> body != "")
    ensures var st := Called(m, blocking); OutgoingDrain.Ready(st) && st.log == [] && st.queue == [Outgoing.Fresh(m)]
  {
    CallTakes(Outgoing.Opened(blocking, true), m, h, body);
  }

  // From the call on: the message is queued, its queue is emptied, and it
  // arrives.
  lemma {:induction false} CallDrains(m: Outgoing.Msg, h: Head, body: string, blocking: bool, scripts: seq<seq<Outgoing.Sys>>,
                             readBlocking: bool, turns: seq<Turn>)
    requires Sendable(h, body) && Carries(m, h, body) && (m.FileMsg? ==> body != "")
    requires OutgoingDrain.AlwaysWilling(Called(m, blocking), scripts)
    requires |scripts| >= OutgoingDrain.Measure(Called(m, blocking))
    requires |turns| >= |OutgoingDrain.Drain(Called(m, blocking), scripts).wire|
    requires forall i :: 0 <= i < |turns| ==> turns[i].size > 0
    ensures var wire, f := OutgoingDrain.Drain(Called(m, blocking), scripts).wire, Framed(h, body);
      && OutgoingDrain.Drain(Called(m, blocking), scripts).queue == []
      && On(Opened(readBlocking), f, wire)
      && (var r := Receive(Opened(readBlocking), f, wire, turns);
          && r.received == wire && (IsComplete(r) ==> Delivered(r, f, wire, body))
          && (IsComplete(r) <==> h.Response? || |wire| > |PrintHdr(f, false)|))
  {
    CalledIs(m, h, body, blocking);
    QueuedMessageArrives(m, h, body, Called(m, blocking), scripts, readBlocking, turns);
  }

  lemma StreamStarts(ms: seq<Outgoing.Msg>, m: Outgoing.Msg)
    requires ms != [] && ms[0] == m
    ensures Outgoing.Promised(m) <= OutgoingRun.Stream(ms)
  {
  }
}
