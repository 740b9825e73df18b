/** The outgoing half of a TCP session as a state machine (TCPSession.cc,
    TCPSession.h, with TCPConn::Write below it): messages are queued, sent in
    partial writes and popped, and every byte that reaches the wire is kept. */
module Outgoing {
  import opened Scan

  // ---- The socket.

  // The answers of the system, in order. Of write(2): some bytes, all of them,
  // EAGAIN, an error. Of open(2) or lseek(2), and of read(2), on a file: an
  // error, where there would be nothing to note if they worked.
  datatype Sys = Wrote(n: nat) | WroteAll | Again | Failed | NoFile | NoRead {
    predicate Fails() { Failed? || NoFile? || NoRead? }
  }

  // Bytes that went out, whether an error event was set, answers left.
  datatype Sent = Sent(n: nat, event: bool, rest: seq<Sys>)

  // TCPConn::Write on len bytes. A socket with no answer left is not ready.
  function Send(script: seq<Sys>, blocking: bool, len: nat): (r: Sent)
    ensures r.n <= len
    ensures blocking && !r.event ==> r.n == len
    decreases |script|
  {
    if script == [] then Sent(0, blocking, [])
    else
      match script[0]
      case Again => Sent(0, blocking, script[1..])
      case WroteAll => Sent(len, false, script[1..])
      case Wrote(k) =>
        if k >= len then Sent(len, false, script[1..])
        else
          var r := Send(script[1..], blocking, len - k);
          Sent(k + r.n, r.event, r.rest)
      case _ => Sent(0, true, script[1..])
  }

  // ---- Messages.

  const FILE_CHUNK_SIZE: nat := 4096

  datatype Msg =
    | MemMsg(hdr: string, body: string)
    | FileMsg(hdr: string, content: string, bodyLen: nat)

  function BodyLen(m: Msg): nat { if m.MemMsg? then |m.body| else m.bodyLen }
  function Total(m: Msg): nat { |m.hdr| + BodyLen(m) }

  // The header and all there is of the body.
  function Text(m: Msg): string { m.hdr + if m.MemMsg? then m.body else m.content }

  // What the receiver is meant to see: the body ends where it was said to.
  function Promised(m: Msg): string {
    if Total(m) < |Text(m)| then Text(m)[..Total(m)] else Text(m)
  }

  // A queued message: the two offsets of its MsgInfo, the state of its file,
  // and, for the record, the bytes of it that went out.
  datatype Item = Item(msg: Msg, bufOff: nat, fileOff: nat, open: bool, cursor: nat, sent: string)

  function Fresh(m: Msg): Item { Item(m, 0, 0, false, 0, "") }

  // IsOutgoingMsgSent on the front of the queue.
  predicate IsSent(it: Item) {
    it.bufOff >= Total(it.msg) || it.fileOff + it.bufOff >= Total(it.msg)
  }

  // The test IsOutgoingDataPending makes of each message.
  predicate Waiting(it: Item) {
    || (it.msg.MemMsg? && it.bufOff < Total(it.msg))
    || (it.msg.FileMsg? && (it.bufOff < |it.msg.hdr| || it.fileOff < it.msg.bodyLen))
  }

  datatype Step = Step(item: Item, script: seq<Sys>, ret: nat, event: bool)

  // wbuf_ + buf_offset, up to the byte at end.
  function SendBuf(it: Item, script: seq<Sys>, blocking: bool, end: nat): Step
    requires it.bufOff <= end <= |Text(it.msg)|
  {
    var r := Send(script, blocking, end - it.bufOff);
    var out := it.sent + Text(it.msg)[it.bufOff..it.bufOff + r.n];
    if r.event then Step(it.(sent := out), r.rest, 0, true)
    else Step(it.(bufOff := it.bufOff + r.n, sent := out), r.rest, r.n, false)
  }

  // Where the next chunk starts, and how long it is.
  function ChunkAt(it: Item): nat { if it.open then it.cursor else it.fileOff }

  function ChunkLen(it: Item): nat
    requires it.msg.FileMsg? && it.fileOff <= it.msg.bodyLen && ChunkAt(it) <= |it.msg.content|
  {
    var left := it.msg.bodyLen - it.fileOff;
    var amount := if FILE_CHUNK_SIZE < left then FILE_CHUNK_SIZE else left;
    if amount < |it.msg.content| - ChunkAt(it) then amount else |it.msg.content| - ChunkAt(it)
  }

  // The next chunk of the file: opened and positioned if it was closed, read,
  // sent. The read moves the cursor whatever the socket takes.
  function SendChunk(it: Item, script: seq<Sys>, blocking: bool, ret: nat): Step
    requires it.msg.FileMsg? && it.fileOff <= it.msg.bodyLen && ChunkAt(it) <= |it.msg.content|
  {
    var at, n := ChunkAt(it), ChunkLen(it);
    if script != [] && script[0].NoFile? && !it.open then Step(it, script[1..], 0, true)
    else if script != [] && script[0].NoRead? then Step(it, script[1..], ret, true)
    else if n == 0 then Step(it, script, ret, true)
    else
      var r := Send(script, blocking, n);
      var out := it.sent + it.msg.content[at..at + r.n];
      if r.event then Step(it.(sent := out), r.rest, 0, true)
      else Step(it.(open := true, cursor := at + n, fileOff := it.fileOff + r.n, sent := out), r.rest, r.n, false)
  }

  // TCPSession::Write on the front of the queue.
  function WriteItem(it: Item, script: seq<Sys>, blocking: bool): Step
    requires ItemOk(it)
  {
    if it.msg.MemMsg? then SendBuf(it, script, blocking, Total(it.msg))
    else if it.bufOff < |it.msg.hdr| then
      var h := SendBuf(it, script, blocking, |it.msg.hdr|);
      if h.event || h.item.bufOff < |it.msg.hdr| then h
      else SendChunk(h.item, h.script, blocking, h.ret)
    else SendChunk(it, script, blocking, 0)
  }

  // A short write of a chunk leaves the cursor ahead of the offset: bytes
  // were read that will never be sent.
  predicate Gap(it: Item) { it.msg.FileMsg? && it.open && it.cursor != it.fileOff }

  predicate ItemOk(it: Item) {
    match it.msg
    case MemMsg(hdr, body) => !it.open && it.bufOff <= Total(it.msg) && it.fileOff == 0 && it.sent == Text(it.msg)[..it.bufOff]
    case FileMsg(hdr, content, bodyLen) =>
      && it.bufOff <= |hdr| && it.fileOff <= bodyLen
      && (!it.open ==> it.fileOff == 0 && it.sent == hdr[..it.bufOff])
      && (it.open ==> it.bufOff == |hdr| && it.fileOff <= it.cursor <= |content| && |it.sent| == |hdr| + it.fileOff)
      && (it.open && it.cursor == it.fileOff ==> it.sent == hdr + content[..it.fileOff])
  }

  lemma FreshOk(m: Msg)
    ensures ItemOk(Fresh(m)) && !Gap(Fresh(m))
  {
  }

  // The file is not longer than the length it was queued with.
  predicate Fits(m: Msg) { m.MemMsg? || |m.content| <= m.bodyLen }

  // ---- One write on one message.

  lemma SendBufBytes(it: Item, script: seq<Sys>, blocking: bool, end: nat)
    requires it.bufOff <= end <= |Text(it.msg)| && it.sent == Text(it.msg)[..it.bufOff]
    ensures var s := SendBuf(it, script, blocking, end);
      && it.sent <= s.item.sent <= Text(it.msg)
      && (!s.event ==> s.item.sent == Text(it.msg)[..s.item.bufOff])
  {
    var t := Text(it.msg);
    var r := Send(script, blocking, end - it.bufOff);
    assert t[..it.bufOff] + t[it.bufOff..it.bufOff + r.n] == t[..it.bufOff + r.n];
  }

  lemma SendBufOk(it: Item, script: seq<Sys>, blocking: bool, end: nat)
    requires ItemOk(it) && !it.open && it.bufOff <= end
    requires end == if it.msg.MemMsg? then Total(it.msg) else |it.msg.hdr|
    ensures var s := SendBuf(it, script, blocking, end);
      && it.sent <= s.item.sent <= Text(it.msg)
      && (!s.event ==> ItemOk(s.item))
  {
    HeaderText(it.msg, it.bufOff);
    SendBufBytes(it, script, blocking, end);
    var s := SendBuf(it, script, blocking, end);
    HeaderText(it.msg, s.item.bufOff);
  }

  lemma HeaderText(m: Msg, k: nat)
    ensures k <= |m.hdr| ==> m.hdr[..k] == Text(m)[..k]
  {
  }

  lemma Extend(hdr: string, c: string, at: nat, k: nat)
    requires at + k <= |c|
    ensures (hdr + c[..at]) + c[at..at + k] == hdr + c[..at + k]
    ensures hdr + c[..at + k] <= hdr + c
  {
    assert c[..at] + c[at..at + k] == c[..at + k];
    assert hdr + c[..at + k] == (hdr + c)[..|hdr| + at + k];
  }

  lemma SendChunkBytes(it: Item, script: seq<Sys>, blocking: bool, ret: nat)
    requires ItemOk(it) && it.msg.FileMsg? && it.bufOff == |it.msg.hdr|
    ensures var s := SendChunk(it, script, blocking, ret);
      && it.sent <= s.item.sent
      && |s.item.sent| - |it.sent| <= ChunkLen(it)
      && s.item.sent == it.sent + it.msg.content[ChunkAt(it)..ChunkAt(it) + (|s.item.sent| - |it.sent|)]
  {
  }

  lemma SendChunkText(it: Item, script: seq<Sys>, blocking: bool, ret: nat)
    requires ItemOk(it) && it.msg.FileMsg? && it.bufOff == |it.msg.hdr| && !Gap(it)
    ensures var s := SendChunk(it, script, blocking, ret);
      && it.sent <= s.item.sent <= Text(it.msg)
      && s.item.sent == it.msg.hdr + it.msg.content[..ChunkAt(it) + (|s.item.sent| - |it.sent|)]
  {
    var s := SendChunk(it, script, blocking, ret);
    SendChunkBytes(it, script, blocking, ret);
    Extend(it.msg.hdr, it.msg.content, ChunkAt(it), |s.item.sent| - |it.sent|);
    assert it.msg.hdr[..it.bufOff] == it.msg.hdr;
    assert it.msg.content[..0] == "";
    assert it.sent == it.msg.hdr + it.msg.content[..ChunkAt(it)];
  }

  lemma SendChunkKeeps(it: Item, script: seq<Sys>, blocking: bool, ret: nat)
    requires ItemOk(it) && it.msg.FileMsg? && it.bufOff == |it.msg.hdr|
    ensures var s := SendChunk(it, script, blocking, ret);
      && s.item.msg == it.msg
      && (s.event ==> s.item == it.(sent := s.item.sent))
      && (!s.event ==> ItemOk(s.item) && (Gap(it) ==> Gap(s.item)) && (blocking && !Gap(it) ==> !Gap(s.item)))
  {
    var s := SendChunk(it, script, blocking, ret);
    SendChunkBytes(it, script, blocking, ret);
    if !Gap(it) { SendChunkText(it, script, blocking, ret); }
  }

  lemma ChunkStep(it: Item, script: seq<Sys>, blocking: bool, ret: nat)
    requires ItemOk(it) && it.msg.FileMsg? && it.bufOff == |it.msg.hdr|
    ensures StepOk(it, SendChunk(it, script, blocking, ret), blocking)
  {
    SendChunkBytes(it, script, blocking, ret);
    SendChunkKeeps(it, script, blocking, ret);
    if !Gap(it) { SendChunkText(it, script, blocking, ret); }
  }

  // Bytes only get added, they are the message's own unless a chunk was cut
  // short, and a blocking socket cuts none.
  ghost predicate StepOk(it: Item, s: Step, blocking: bool) {
    && it.sent <= s.item.sent && s.item.msg == it.msg
    && (!s.event ==> ItemOk(s.item)) && (Gap(it) ==> Gap(s.item)) && (blocking && !Gap(it) ==> !Gap(s.item))
    && (!Gap(it) ==> s.item.sent <= Text(it.msg))
    && (s.event && !Gap(it) ==> !Gap(s.item))
  }

  lemma WriteItemOk(it: Item, script: seq<Sys>, blocking: bool)
    requires ItemOk(it)
    ensures StepOk(it, WriteItem(it, script, blocking), blocking)
  {
    if it.msg.MemMsg? {
      SendBufOk(it, script, blocking, Total(it.msg));
    } else if it.bufOff < |it.msg.hdr| {
      SendBufOk(it, script, blocking, |it.msg.hdr|);
      var h := SendBuf(it, script, blocking, |it.msg.hdr|);
      if !h.event && h.item.bufOff == |it.msg.hdr| {
        ChunkStep(h.item, h.script, blocking, h.ret);
      }
    } else {
      ChunkStep(it, script, blocking, 0);
    }
  }

  // A message counts as sent exactly when as many bytes are out as it has;
  // they are the right ones unless a chunk of a file longer than its stated
  // length was cut short. A shorter file that fell behind is never sent.
  lemma SentIsExact(it: Item)
    requires ItemOk(it)
    ensures IsSent(it) <==> |it.sent| == Total(it.msg)
    ensures IsSent(it) <==> !Waiting(it)
    ensures IsSent(it) && Gap(it) ==> !Fits(it.msg)
    ensures IsSent(it) && !Gap(it) ==> it.sent == Promised(it.msg)
    ensures !Gap(it) ==> it.sent <= Promised(it.msg)
  {
    if !Gap(it) {
      SentIsText(it);
      assert it.sent == Text(it.msg)[..|it.sent|];
    }
  }

  lemma SentIsText(it: Item)
    requires ItemOk(it) && !Gap(it)
    ensures it.sent <= Text(it.msg)
  {
    if it.msg.FileMsg? {
      if it.open {
        assert it.msg.hdr + it.msg.content[..it.fileOff] == Text(it.msg)[..|it.msg.hdr| + it.fileOff];
      } else {
        HeaderText(it.msg, it.bufOff);
      }
    }
  }

  // ---- The queue.

  // A message that left the queue: it counted as sent when it did, or not.
  datatype Past = Past(item: Item, complete: bool)

  datatype Out = Out(queue: seq<Item>, log: seq<Past>, blocking: bool, connected: bool, wire: string)

  function Opened(blocking: bool, connected: bool): Out { Out([], [], blocking, connected, "") }

  // The new state, the value returned, whether an error event was set.
  datatype Reply = Reply(st: Out, ret: nat, event: bool)

  function Dropped(q: seq<Item>): seq<Past> {
    if q == [] then [] else [Past(q[0], false)] + Dropped(q[1..])
  }

  // ResetWbuf
  function Reset(st: Out): Out {
    st.(queue := [], log := st.log + Dropped(st.queue))
  }

  // AddMsgBuf and AddMsgFile refuse a header that is an empty C string.
  predicate Accepts(m: Msg) { CStr(m.hdr) != "" }

  function Add(st: Out, m: Msg): Out {
    if Accepts(m) then st.(queue := st.queue + [Fresh(m)]) else st
  }

  // The front got as far as it: what it sent since is on the wire.
  function WithFront(st: Out, it: Item): Out
    requires st.queue != [] && |st.queue[0].sent| <= |it.sent|
  {
    st.(queue := [it] + st.queue[1..], wire := st.wire + it.sent[|st.queue[0].sent|..])
  }

  function Write(st: Out, script: seq<Sys>): Reply
    requires FrontOk(st)
  {
    if st.queue == [] || !st.connected then Reply(st, 0, true)
    else
      var it := st.queue[0];
      var s := WriteItem(it, script, st.blocking);
      WriteItemOk(it, script, st.blocking);
      var st1 := WithFront(st, s.item);
      Reply(if s.event then Reset(st1) else st1, s.ret, s.event)
  }

  function Pop(st: Out): Out {
    if st.queue == [] then st
    else st.(queue := st.queue[1..], log := st.log + [Past(st.queue[0], IsSent(st.queue[0]))])
  }

  // IsOutgoingMsgSent and IsOutgoingDataPending.
  predicate MsgSent(st: Out) { st.queue != [] && IsSent(st.queue[0]) }

  predicate DataPending(q: seq<Item>) {
    q != [] && (Waiting(q[0]) || DataPending(q[1..]))
  }

  // ---- What every run keeps.

  function Msgs(q: seq<Item>): seq<Msg> {
    if q == [] then [] else [q[0].msg] + Msgs(q[1..])
  }

  function PastMsgs(log: seq<Past>): seq<Msg> {
    if log == [] then [] else [log[0].item.msg] + PastMsgs(log[1..])
  }

  function PastBytes(log: seq<Past>): string {
    if log == [] then "" else log[0].item.sent + PastBytes(log[1..])
  }

  function FrontBytes(q: seq<Item>): string { if q == [] then "" else q[0].sent }

  // Only the message's own bytes, unless a chunk was cut short; and all of
  // them if it counted as sent.
  predicate PastOk(p: Past) {
    && (!Gap(p.item) ==> p.item.sent <= Text(p.item.msg))
    && (p.complete && (Fits(p.item.msg) || !Gap(p.item)) ==> p.item.sent == Promised(p.item.msg))
  }

  predicate FrontOk(st: Out) { st.queue != [] ==> ItemOk(st.queue[0]) }

  predicate Untouched(q: seq<Item>) {
    forall i :: 0 <= i < |q| ==> q[i] == Fresh(q[i].msg)
  }

  predicate LogOk(log: seq<Past>) { forall i :: 0 <= i < |log| ==> PastOk(log[i]) }

  // The front is partly sent, nothing behind it is, and the wire carries what
  // left the queue followed by what is out of the front.
  predicate Valid(st: Out) {
    && FrontOk(st) && (st.queue != [] ==> Untouched(st.queue[1..])) && LogOk(st.log)
    && st.wire == PastBytes(st.log) + FrontBytes(st.queue)
  }

  // Every message taken so far, in the order it was taken.
  function Taken(st: Out): seq<Msg> { PastMsgs(st.log) + Msgs(st.queue) }

  lemma {:induction false} MsgsAppend(q: seq<Item>, it: Item)
    ensures Msgs(q + [it]) == Msgs(q) + [it.msg]
  {
    if q != [] {
      MsgsAppend(q[1..], it);
      assert (q + [it])[1..] == q[1..] + [it];
    }
  }

  lemma {:induction false} PastMsgsAppend(a: seq<Past>, b: seq<Past>)
    ensures PastMsgs(a + b) == PastMsgs(a) + PastMsgs(b)
  {
    if a == [] {
      assert a + b == b;
    } else {
      PastMsgsAppend(a[1..], b);
      assert (a + b)[1..] == a[1..] + b;
      CatAssoc([a[0].item.msg], PastMsgs(a[1..]), PastMsgs(b));
    }
  }

  lemma {:induction false} PastBytesAppend(a: seq<Past>, b: seq<Past>)
    ensures PastBytes(a + b) == PastBytes(a) + PastBytes(b)
  {
    if a == [] {
      assert a + b == b;
    } else {
      PastBytesAppend(a[1..], b);
      assert (a + b)[1..] == a[1..] + b;
      CatAssoc(a[0].item.sent, PastBytes(a[1..]), PastBytes(b));
    }
  }

  lemma {:induction false} DroppedOk(q: seq<Item>)
    requires Untouched(q)
    ensures PastMsgs(Dropped(q)) == Msgs(q) && PastBytes(Dropped(q)) == "" && LogOk(Dropped(q))
  {
    if q != [] {
      assert q[0] == Fresh(q[0].msg);
      DroppedOk(q[1..]);
    }
  }

  // ---- Every operation keeps it.

  lemma AddKeeps(st: Out, m: Msg)
    requires Valid(st)
    ensures Valid(Add(st, m))
    ensures Taken(Add(st, m)) == if Accepts(m) then Taken(st) + [m] else Taken(st)
  {
    if Accepts(m) {
      MsgsAppend(st.queue, Fresh(m));
      assert st.queue != [] ==> (st.queue + [Fresh(m)])[1..] == st.queue[1..] + [Fresh(m)];
      assert PastMsgs(st.log) + (Msgs(st.queue) + [m]) == Taken(st) + [m];
    }
  }

  // A record added to the log carries the front's bytes over from the queue.
  lemma Logged(st: Out, p: Past, q: seq<Item>)
    requires LogOk(st.log) && st.queue != [] && p.item == st.queue[0] && PastOk(p) && Untouched(q)
    requires st.wire == PastBytes(st.log) + FrontBytes(st.queue)
    ensures Valid(st.(log := st.log + [p], queue := q))
  {
    PastBytesAppend(st.log, [p]);
    assert PastBytes([p]) == p.item.sent;
    if q != [] {
      assert q[0] == Fresh(q[0].msg);
      FreshOk(q[0].msg);
    }
  }

  lemma PopKeeps(st: Out)
    requires Valid(st)
    ensures Valid(Pop(st)) && Taken(Pop(st)) == Taken(st)
  {
    if st.queue != [] {
      var p := Past(st.queue[0], IsSent(st.queue[0]));
      SentIsExact(st.queue[0]);
      Logged(st, p, st.queue[1..]);
      PastMsgsAppend(st.log, [p]);
      assert PastMsgs([p]) == [p.item.msg];
      CatAssoc(PastMsgs(st.log), [p.item.msg], Msgs(st.queue[1..]));
    }
  }

  // Dropping a queue whose front no longer needs to be in order.
  lemma ResetKeeps(st: Out)
    requires st.queue != [] && Untouched(st.queue[1..]) && LogOk(st.log)
    requires !Gap(st.queue[0]) ==> st.queue[0].sent <= Text(st.queue[0].msg)
    requires st.wire == PastBytes(st.log) + FrontBytes(st.queue)
    ensures Valid(Reset(st)) && Taken(Reset(st)) == Taken(st)
  {
    DroppedOk(st.queue[1..]);
    PastBytesAppend(st.log, Dropped(st.queue));
    PastMsgsAppend(st.log, Dropped(st.queue));
    assert PastOk(Past(st.queue[0], false));
  }

  // The front moved on, and what it sent is on the wire.
  lemma Advanced(st: Out, it: Item)
    requires Valid(st) && st.queue != [] && st.queue[0].sent <= it.sent && it.msg == st.queue[0].msg
    ensures var st1 := WithFront(st, it);
      && st1.queue[1..] == st.queue[1..] && st.wire <= st1.wire
      && st1.wire == PastBytes(st.log) + it.sent && Msgs(st1.queue) == Msgs(st.queue)
  {
    var old' := st.queue[0].sent;
    assert old' + it.sent[|old'|..] == it.sent;
    CatAssoc(PastBytes(st.log), old', it.sent[|old'|..]);
    assert WithFront(st, it).queue[1..] == st.queue[1..];
  }

  lemma WriteKeeps(st: Out, script: seq<Sys>)
    requires Valid(st)
    ensures Valid(Write(st, script).st) && Taken(Write(st, script).st) == Taken(st)
    ensures st.wire <= Write(st, script).st.wire
  {
    if st.queue != [] && st.connected {
      var it := st.queue[0];
      var s := WriteItem(it, script, st.blocking);
      WriteItemOk(it, script, st.blocking);
      Advanced(st, s.item);
      if s.event { ResetKeeps(WithFront(st, s.item)); }
    }
  }
}
