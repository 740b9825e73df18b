/** The receiver's loop on a stream that starts with a printed header: read,
    and look for the header until it is found (TCPSession.cc,
    HTTPFraming.cc). */
module Receiver {
  import opened Scan
  import opened Http
  import opened HttpStable
  import opened HttpPrint
  import opened RequestPrefix
  import opened Incoming

  // ---- The receiver's parser on any part of the stream.

  // A header that arrives under every segmentation: a well-formed response
  // that is not chunked, or a request without a query key that can be cut.
  predicate Plain(h: Head) { ResponseOk(h) && AllSolid(h.hdrs) && !IsChunked(h.hdrs) }

  predicate Arrivable(h: Head) { Plain(h) || (Readable(h) && !LateKey(h)) }

  // How many bytes it takes to decide: for a request, one past its header.
  function Need(h: Head): nat { |PrintHdr(h, false)| + if h.Request? then 1 else 0 }

  lemma HeaderNotEmpty(h: Head)
    ensures PrintHdr(h, false) != ""
  {
    if h.Request? { RequestIs(h); } else { PrintedStart(h, ""); }
  }

  lemma Late(h: Head, text: string, k: nat, slack: string)
    requires Arrivable(h) && PrintHdr(h, false) <= text && Need(h) <= k <= |text|
    ensures InitFromBuf(text[..k], slack) == Ready(h, |PrintHdr(h, false)|)
  {
    var p := PrintHdr(h, false);
    if h.Request? {
      AlwaysNamed(h, text[|p|..k], slack);
      InitFromPrintedRequest(h, text[|p|..k], slack);
    } else {
      InitFromPrintedResponse(h, text[|p|..k], slack);
    }
    assert text[..k] == p + text[|p|..k];
  }

  lemma NotARequest(h: Head, text: string)
    requires h.Response? && PrintHdr(h, false) <= text
    ensures !StartsRequest(Body(text))
  {
    var p := PrintHdr(h, false);
    PrintedStart(h, text[|p|..]);
    assert text == p + text[|p|..];
    DispatchResponse(text, "");
  }

  // Had it decided on the beginning, it would have used less.
  lemma NotYet(x: string, y: string, h: Head, n: int, slack: string)
    requires InitFromBuf(x + y, slack) == Ready(h, n) && n > |x| && !StartsRequest(Body(x + y))
    ensures InitFromBuf(x, slack) == NeedMore
  {
    DecidedStaysDecided(x, slack, y, slack);
    UsedBound(x, slack);
  }

  lemma EarlyResponse(h: Head, text: string, k: nat, slack: string)
    requires Plain(h) && PrintHdr(h, false) <= text && k <= |text| && k < |PrintHdr(h, false)|
    ensures InitFromBuf(text[..k], slack) == NeedMore
  {
    NotARequest(h, text);
    Late(h, text, |text|, slack);
    assert text[..|text|] == text && text == text[..k] + text[k..];
    NotYet(text[..k], text[k..], h, |PrintHdr(h, false)|, slack);
  }

  lemma EarlyRequest(h: Head, text: string, k: nat, slack: string)
    requires Readable(h) && PrintHdr(h, false) <= text && k <= |PrintHdr(h, false)|
    ensures InitFromBuf(text[..k], slack) == if EndsInKey(h, k) && !Masks(h, k, slack) then Error else NeedMore
  {
    PrefixOutcome(h, k, slack);
    assert text[..k] == PrintHdr(h, false)[..k];
  }

  // Before it takes that many, the parser waits.
  lemma Early(h: Head, text: string, k: nat, slack: string)
    requires Arrivable(h) && PrintHdr(h, false) <= text && k <= |text| && k < Need(h)
    ensures InitFromBuf(text[..k], slack) == NeedMore
  {
    if h.Request? {
      EarlyRequest(h, text, k, slack);
      if EndsInKey(h, k) { CutIsLateKey(h, k); }
    } else {
      EarlyResponse(h, text, k, slack);
    }
  }

  // The parser uses no more than it was given.
  lemma UsedBound(s: string, slack: string)
    ensures var r := InitFromBuf(s, slack); r.Ready? || r.Chunked? ==> r.used <= |s|
  {
  }

  // No chunked text was replaced so far.
  predicate Direct(st: In) { Conserved(st) && st.swaps == [] }

  // ---- The receiver's loop: read, and look for the header until it is found.

  // What the socket offers at most, and the memory after the buffer.
  datatype Turn = Turn(size: nat, slack: string)

  // Part of the text has arrived; its header is still in the buffer because
  // it is incomplete, or it was taken off and the rest is there.
  ghost predicate On(st: In, h: Head, text: string) {
    && Direct(st) && st.received <= text && PrintHdr(h, false) <= text
    && Arrivable(h) && !st.overrun && !st.file.open
    && (if !st.info.initialized then st.http && st.taken == "" && |st.received| < Need(h)
        else Taken(st, h))
  }

  ghost predicate Taken(st: In, h: Head) {
    && |st.received| >= Need(h) && st.taken == PrintHdr(h, false) && st.mark == |st.taken|
    && st.info == Info(true, MsgLen(h.hdrs), 0, false) && st.head == Got(h, "")
  }

  function Offer(st: In, text: string, t: Turn): string
    requires st.received <= text
  {
    text[|st.received|..][..Min(t.size, |text| - |st.received|)]
  }

  lemma OfferStep(received: string, text: string, k: nat, n: nat)
    requires received <= text && n <= k <= |text| - |received|
    ensures received + text[|received|..][..k][..n] == text[..|received| + n]
  {
  }

  lemma ReadArrived(st: In, x: string, n: nat)
    requires |st.rbuf| < st.size && n == Min(|x|, st.size - |st.rbuf|)
    ensures var r := Read(st, Arrived(x)).st;
      && r.received == st.received + x[..n]
      && r.swaps == st.swaps && r.info == st.info && r.http == st.http && r.taken == st.taken && r.mark == st.mark && r.head == st.head
      && r.file == st.file && r.overrun == st.overrun && r.lost == st.lost
  {
  }

  lemma ReadOn(st: In, text: string, t: Turn)
    requires Direct(st) && st.received <= text
    ensures var r := Read(st, Arrived(Offer(st, text, t))).st;
      && Direct(r) && st.received <= r.received <= text
      && |r.received| == |st.received| + Min(|Offer(st, text, t)|, st.size - |st.rbuf|)
      && r.swaps == st.swaps && r.info == st.info && r.http == st.http && r.taken == st.taken && r.mark == st.mark && r.head == st.head
      && r.file == st.file && r.overrun == st.overrun && r.lost == st.lost
  {
    var k := Min(t.size, |text| - |st.received|);
    var n := Min(k, st.size - |st.rbuf|);
    ReadConserves(st, Arrived(Offer(st, text, t)));
    ReadArrived(st, Offer(st, text, t), n);
    OfferStep(st.received, text, k, n);
  }

  lemma InitEarly(st: In, h: Head, text: string, slack: string)
    requires Direct(st) && st.received <= text && PrintHdr(h, false) <= text && Arrivable(h)
    requires !st.info.initialized && st.http && st.taken == "" && |st.received| < Need(h)
    ensures Defined(st, InitOp(slack))
    ensures var r := InitMsg(st, slack); r.st == (if st.rbuf == "" then st else st.(head := More)) && !r.ret && !r.event
  {
    Early(h, text, |st.received|, slack);
    assert st.rbuf == st.received == text[..|st.received|];
  }

  lemma InitReady(st: In, h: Head, n: int, slack: string)
    requires st.rbuf != "" && st.http && InitFromBuf(st.rbuf, slack) == Ready(h, n)
    ensures Defined(st, InitOp(slack)) && InitMsg(st, slack) == Reply(Started(st, h, n), true, false)
  {
  }

  lemma InitLate(st: In, h: Head, text: string, slack: string)
    requires Direct(st) && st.received <= text && PrintHdr(h, false) <= text && Arrivable(h)
    requires !st.info.initialized && st.http && st.taken == "" && |st.received| >= Need(h)
    ensures Defined(st, InitOp(slack))
    ensures InitMsg(st, slack) == Reply(Started(st, h, |PrintHdr(h, false)|), true, false)
  {
    HeaderNotEmpty(h);
    Late(h, text, |st.received|, slack);
    assert st.rbuf == st.received == text[..|st.received|];
    InitReady(st, h, |PrintHdr(h, false)|, slack);
  }

  lemma StartedOn(st: In, h: Head, text: string)
    requires Direct(st) && st.received <= text && PrintHdr(h, false) <= text && Arrivable(h)
    requires st.taken == "" && |st.received| >= Need(h) && !st.overrun && !st.file.open
    ensures On(Started(st, h, |PrintHdr(h, false)|), h, text)
  {
    var n := |PrintHdr(h, false)|;
    ShiftConserves(st, n);
    assert st.rbuf == st.received == text[..|st.received|];
    assert st.rbuf[..n] == PrintHdr(h, false);
  }

  lemma InitOn(st: In, h: Head, text: string, slack: string)
    requires Direct(st) && st.received <= text && PrintHdr(h, false) <= text && Arrivable(h)
    requires !st.info.initialized && st.http && st.taken == "" && !st.overrun && !st.file.open
    ensures Defined(st, InitOp(slack))
    ensures var r := InitMsg(st, slack);
      && On(r.st, h, text) && r.st.received == st.received && !r.event
      && (r.ret <==> |st.received| >= Need(h))
  {
    if |st.received| < Need(h) {
      InitEarly(st, h, text, slack);
    } else {
      InitLate(st, h, text, slack);
      StartedOn(st, h, text);
    }
  }

  function OneTurn(st: In, h: Head, text: string, t: Turn): (r: In)
    requires On(st, h, text)
    ensures On(r, h, text)
    ensures |r.received| == |st.received| + Min(|Offer(st, text, t)|, st.size - |st.rbuf|)
  {
    ReadOn(st, text, t);
    var st1 := Read(st, Arrived(Offer(st, text, t))).st;
    if st1.info.initialized then st1
    else
      InitOn(st1, h, text, t.slack);
      InitMsg(st1, t.slack).st
  }

  function Receive(st: In, h: Head, text: string, turns: seq<Turn>): (r: In)
    requires On(st, h, text)
    ensures On(r, h, text)
    decreases |turns|
  {
    if turns == [] then st else Receive(OneTurn(st, h, text, turns[0]), h, text, turns[1..])
  }

  // Every read brings something until all of it is there.
  lemma {:induction false} AllArrives(st: In, h: Head, text: string, turns: seq<Turn>)
    requires On(st, h, text) && forall i :: 0 <= i < |turns| ==> turns[i].size > 0
    requires |turns| >= |text| - |st.received|
    ensures Receive(st, h, text, turns).received == text
    decreases |turns|
  {
    if turns != [] {
      AllArrives(OneTurn(st, h, text, turns[0]), h, text, turns[1..]);
    }
  }

  lemma SplitAfter(p: string, body: string, text: string, k: nat)
    requires p + body <= text && |p| + |body| <= k <= |text|
    ensures text[|p|..k] == body + text[|p| + |body|..k]
  {
    assert text[|p|..|p| + |body|] == (p + body)[|p|..];
  }

  lemma RestIsThere(st: In, p: string, text: string)
    requires Direct(st) && st.received <= text && st.taken == p
    ensures |p| <= |st.received| && st.rbuf == text[|p|..|st.received|]
  {
    assert st.received == text[..|st.received|];
    assert st.rbuf == st.received[|p|..];
  }

  // Once the header and the body have arrived, and for a request one byte
  // past the header, the message is complete, its body is at the front of the
  // buffer and what follows it comes next; no sooner is it complete.
  lemma ArrivedIsComplete(st: In, h: Head, text: string, body: string)
    requires On(st, h, text) && MsgLen(h.hdrs) == |body| && PrintHdr(h, false) + body <= text
    ensures IsComplete(st) <==> |st.received| >= |PrintHdr(h, false)| + |body| && |st.received| >= Need(h)
    ensures IsComplete(st) ==> Delivered(st, h, text, body)
  {
    if st.info.initialized { TakenArrived(st, h, text, body); }
  }

  lemma TakenArrived(st: In, h: Head, text: string, body: string)
    requires Direct(st) && st.received <= text && Taken(st, h)
    requires MsgLen(h.hdrs) == |body| && PrintHdr(h, false) + body <= text
    ensures IsComplete(st) <==> |st.received| >= |PrintHdr(h, false)| + |body|
    ensures IsComplete(st) ==> Delivered(st, h, text, body)
  {
    HeaderNotEmpty(h);
    TakenIsComplete(st, PrintHdr(h, false), text, body);
  }

  lemma TakenIsComplete(st: In, p: string, text: string, body: string)
    requires Direct(st) && st.received <= text && p + body <= text
    requires st.taken == p && st.info == Info(true, |body|, 0, false) && p != ""
    ensures IsComplete(st) <==> |st.received| >= |p| + |body|
    ensures IsComplete(st) ==> st.rbuf == body + text[|p| + |body|..|st.received|]
  {
    RestIsThere(st, p, text);
    if |st.received| >= |p| + |body| { SplitAfter(p, body, text, |st.received|); }
  }

  ghost predicate Delivered(st: In, h: Head, text: string, body: string) {
    var n := |PrintHdr(h, false)| + |body|;
    && st.head == Got(h, "") && st.info.bodyLen == |body|
    && n <= |st.received| <= |text| && st.rbuf == body + text[n..|st.received|]
  }

  lemma OnStart(blocking: bool, h: Head, text: string)
    requires Arrivable(h) && PrintHdr(h, false) <= text
    ensures On(Opened(blocking), h, text)
  {
    HeaderNotEmpty(h);
  }

  // Any sizes of reads, as many as there are bytes: the message is complete
  // once the bytes it takes are on the wire.
  lemma {:induction false} WireArrives(f: Head, body: string, wire: string, blocking: bool, turns: seq<Turn>)
    requires Arrivable(f) && MsgLen(f.hdrs) == |body| && PrintHdr(f, false) + body <= wire
    requires |turns| >= |wire| && forall i :: 0 <= i < |turns| ==> turns[i].size > 0
    ensures On(Opened(blocking), f, wire)
    ensures var r := Receive(Opened(blocking), f, wire, turns);
      && r.received == wire && (IsComplete(r) <==> |wire| >= Need(f)) && (IsComplete(r) ==> Delivered(r, f, wire, body))
  {
    var p := PrintHdr(f, false);
    assert p <= p + body;
    OnStart(blocking, f, wire);
    AllArrives(Opened(blocking), f, wire, turns);
    ArrivedIsComplete(Receive(Opened(blocking), f, wire, turns), f, wire, body);
  }
}
