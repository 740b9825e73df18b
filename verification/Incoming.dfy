/** The incoming half of a TCP session as a state machine (TCPSession.cc,
    TCPSession.h): bytes are read into a buffer, a header is taken off its
    front, the body stays there or is streamed to a file. */
module Incoming {
  import opened Scan
  import opened Http
  import opened Buffers
  import opened Chunks

  // What the session keeps about the message: length of the body, bytes of it
  // that went to the file, whether it goes to a file at all.
  datatype Info = Info(initialized: bool, bodyLen: int, fileOffset: nat, disc: bool)

  const CLEARED: Info := Info(false, 0, 0, false)

  datatype RFile = RFile(open: bool, data: string)

  // The answers of read(2) and of write(2) on the file.
  datatype Net = Arrived(text: string) | NotReady | Broken
  datatype Disk = Stored(n: nat) | Full

  // A chunked text that was taken out of the stream, and the body put there.
  datatype Swap = Swap(at: nat, coded: string, plain: string)

  // overrun: memory outside the buffer was used, or a negative length taken
  // for a size; nothing is said of what follows.
  // The last fields are a record: all bytes that were read, the chunked texts
  // that were replaced, the bytes that left the buffer, where the body starts,
  // and how many open file descriptors no File refers to any more.
  datatype In = In(rbuf: string, size: nat, info: Info, http: bool, head: Parse<Head>, file: RFile,
                   blocking: bool, overrun: bool, received: string, swaps: seq<Swap>, taken: string,
                   mark: nat, lost: nat)

  function Opened(blocking: bool): In {
    In("", DEFAULT_BUF_SIZE, CLEARED, true, More, RFile(false, ""), blocking, false, "", [], "", 0, 0)
  }

  // The new state, the value returned, whether an error event was set.
  datatype Reply<T> = Reply(st: In, ret: T, event: bool)

  // File::clear of the message's file. It forgets the name first, and Close
  // refuses a file without one: that is an error event, and the descriptor is
  // never closed.
  function Unnamed(st: In): In {
    st.(file := st.file.(open := false), lost := st.lost + if st.file.open then 1 else 0)
  }

  // ResetRbuf: everything goes, also the framing type.
  function Reset(st: In): In {
    (if st.info.disc then Unnamed(st) else st).(
      rbuf := "", info := CLEARED, http := false, head := More, taken := st.taken + st.rbuf)
  }

  function Min(a: nat, b: nat): nat { if a < b then a else b }

  // Read takes no more than there is room for, and grows a full buffer.
  function Read(st: In, net: Net): Reply<nat>
    requires |st.rbuf| < st.size
  {
    match net
    case Broken => Reply(Reset(st), 0, true)
    case NotReady => if st.blocking then Reply(Reset(st), 0, true) else Reply(st, 0, false)
    case Arrived(text) =>
      var n := Min(|text|, st.size - |st.rbuf|);
      var rbuf := st.rbuf + text[..n];
      var size := if |rbuf| == st.size then st.size + DEFAULT_BUF_SIZE else st.size;
      Reply(st.(rbuf := rbuf, size := size, received := st.received + text[..n]), n, false)
  }

  // ShiftRbuf with no offset: the first len bytes, or all there are.
  function Shift(st: In, len: nat): In {
    var n := Min(len, |st.rbuf|);
    st.(rbuf := st.rbuf[n..], taken := st.taken + st.rbuf[..n])
  }

  // InitIncomingMsg. slack is the memory after the text. With no framing type
  // it reports an error and still returns true.
  function InitMsg(st: In, slack: string): Reply<bool> {
    if st.rbuf == "" then Reply(st, false, false)
    else if !st.http then
      Reply(st.(info := Info(true, 0, 0, false), mark := |st.taken|), true, true)
    else
      Parsed(st, InitFromBuf(st.rbuf, slack), BodyBehind(st, slack))
  }

  // ParseChunkedMsgBody on the memory behind the header of a chunked response.
  // It is handed the length of the header for that of the text there.
  function BodyBehind(st: In, slack: string): (body: Walk<string>)
    ensures Within(st, InitFromBuf(st.rbuf, slack), body)
  {
    ChunkedUses(st.rbuf, slack);
    BodyOf(st, InitFromBuf(st.rbuf, slack), slack)
  }

  function BodyOf(st: In, r: Outcome, slack: string): (body: Walk<string>)
    requires r.Chunked? ==> Span(st.rbuf, Space) < r.used <= |st.rbuf|
    ensures Within(st, r, body)
  {
    if r.Chunked? then ChunkedBody(Behind(st, r.used, slack), r.used - Span(st.rbuf, Space), DEFAULT_BUF_SIZE)
    else Wait
  }

  lemma BodyOfMemory(st: In, slack: string, h: Head, used: nat, n: nat, mem: string)
    requires n == used - Span(st.rbuf, Space) && 0 < n && used <= |st.rbuf| && Behind(st, used, slack) == mem
    ensures BodyOf(st, Chunked(h, used), slack) == ChunkedBody(mem, n, DEFAULT_BUF_SIZE)
  {
    BodyOfBehind(st, slack, Chunked(h, used), n);
  }

  lemma BodyOfBehind(st: In, slack: string, r: Outcome, n: nat)
    requires r.Chunked? && r.used <= |st.rbuf| && n == r.used - Span(st.rbuf, Space) && 0 < n
    ensures BodyOf(st, r, slack) == ChunkedBody(Behind(st, r.used, slack), n, DEFAULT_BUF_SIZE)
  {
  }

  // What the parsers used and what they put together is in the buffer.
  predicate Within(st: In, r: Outcome, body: Walk<string>) {
    r.Chunked? ==>
      && Span(st.rbuf, Space) < r.used <= |st.rbuf|
      && (body.At? ==> |body.value| + body.n <= r.used - Span(st.rbuf, Space))
      && (body.At? && r.used <= st.size ==> |body.value| + r.used <= st.size)
  }

  function Parsed(st: In, r: Outcome, body: Walk<string>): Reply<bool>
    requires Within(st, r, body)
  {
    match r
    case NeedMore => Reply(st.(head := More), false, false)
    case Error => Reply(Reset(st), false, true)
    case Ready(h, used) => Reply(Started(st, h, used), true, false)
    case Chunked(h, used) => Dechunked(st, h, used, used - Span(st.rbuf, Space), body)
  }

  // The memory of the buffer from offset n on.
  function Behind(st: In, n: nat, slack: string): string
    requires n <= |st.rbuf|
  {
    var mem := st.rbuf[n..] + slack;
    if n + |mem| > st.size >= n then mem[..st.size - n] else mem
  }

  // What becomes of that body; n is the length it was handed.
  function Dechunked(st: In, h: Head, used: nat, n: nat, body: Walk<string>): Reply<bool>
    requires used <= |st.rbuf| && (body.At? ==> body.n <= n)
  {
    match body
    case Wait => Reply(st.(head := More), false, false)
    case Wrong => Reply(Reset(st), false, true)
    case Overrun => Reply(st.(overrun := true), false, false)
    case At(text, _, left) =>
      var plain := CStr(text);
      Reply(Unpacked(st, Measured(h, plain), used, used + (n - left), plain), true, Unmeasured(h, plain))
  }

  // The header with the length of a body that is not empty; an error, and
  // unchanged, if it stated one.
  function Measured(h: Head, plain: string): Head {
    if plain == "" || Unmeasured(h, plain) then h else h.(hdrs := AppendHdr(h.hdrs, BodyLenHdr(|plain|)).value)
  }

  predicate Unmeasured(h: Head, plain: string) {
    plain != "" && !AppendHdr(h.hdrs, BodyLenHdr(|plain|)).Got?
  }

  // The body is copied to the front of the buffer, and what is left of the
  // first end bytes is shifted out.
  function Unpacked(st: In, h: Head, used: nat, end: nat, plain: string): In
    requires used <= |st.rbuf| && used <= end
  {
    var cut, taken := Min(end, |st.rbuf|), st.taken + st.rbuf[..used];
    st.(rbuf := plain + st.rbuf[cut..], taken := taken, mark := |taken|,
        swaps := st.swaps + [Swap(|taken|, st.rbuf[used..cut], plain)],
        info := Info(true, MsgLen(h.hdrs), 0, false), head := Got(h, ""))
  }

  function Started(st: In, h: Head, used: int): In {
    var st1 := Shift(st, if used < 0 then 0 else used);
    st1.(info := Info(true, MsgLen(h.hdrs), 0, false), head := Got(h, ""), mark := |st1.taken|)
  }

  // set_rfile, where open says whether the file could be opened.
  function SetFile(st: In, open: bool): Reply<()> {
    if st.file.open then Reply(st, (), true)
    else
      Reply(st.(info := st.info.(fileOffset := 0, disc := true), file := RFile(open, "")), (), !open)
  }

  // StreamIncomingMsg
  function Stream(st: In, disk: Disk): Reply<int> {
    if !st.file.open || !st.info.initialized then Reply(st, 1, true)
    else if st.info.bodyLen < st.info.fileOffset then Reply(st.(overrun := true), 1, false)
    else if disk.Full? then Reply(Reset(st), 1, true)
    else
      var st1 := Streamed(st, Min(disk.n, Min(st.info.bodyLen - st.info.fileOffset, |st.rbuf|)));
      if st1.info.fileOffset >= st1.info.bodyLen then Reply(st1.(file := st1.file.(open := false)), 0, false)
      else Reply(st1, 1, false)
  }

  // The file took the first n bytes of the buffer.
  function Streamed(st: In, n: nat): In
    requires n <= |st.rbuf|
  {
    Shift(st, n).(info := st.info.(fileOffset := st.info.fileOffset + n),
                  file := st.file.(data := st.file.data + st.rbuf[..n]))
  }

  // ClearIncomingMsg
  function Clear(st: In): In {
    if !st.info.disc && st.info.bodyLen < 0 then st.(overrun := true)
    else
      var st1 := if st.info.disc then Unnamed(st) else Shift(st, st.info.bodyLen);
      st1.(info := CLEARED, http := false, head := More)
  }

  // IsIncomingMsgComplete
  predicate IsComplete(st: In) {
    st.info.initialized && (st.info.fileOffset >= st.info.bodyLen || |st.rbuf| >= st.info.bodyLen)
  }

  // ---- Runs.

  datatype Op = ReadOp(net: Net) | InitOp(slack: string) | SetFileOp(open: bool) | StreamOp(disk: Disk) | ClearOp

  // A read finds room.
  predicate Defined(st: In, op: Op) { op.ReadOp? ==> |st.rbuf| < st.size }

  function Do(st: In, op: Op): In
    requires Defined(st, op)
  {
    if st.overrun then st else
    match op
    case ReadOp(net) => Read(st, net).st
    case InitOp(slack) => InitMsg(st, slack).st
    case SetFileOp(open) => SetFile(st, open).st
    case StreamOp(disk) => Stream(st, disk).st
    case ClearOp => Clear(st)
  }

  // ---- Nothing is lost: what was read, with each chunked text replaced by
  // its body, is what left the buffer and then what is in it, and there is
  // always room for the next read.

  function Replaced(s: string, w: Swap): string {
    if w.at + |w.coded| <= |s| then s[..w.at] + w.plain + s[w.at + |w.coded|..] else s
  }

  function Unchunked(s: string, swaps: seq<Swap>): string {
    if swaps == [] then s else Replaced(Unchunked(s, swaps[..|swaps| - 1]), swaps[|swaps| - 1])
  }

  predicate Occurs(s: string, w: Swap) {
    w.at + |w.coded| <= |s| && s[w.at..w.at + |w.coded|] == w.coded
  }

  predicate AllOccur(s: string, swaps: seq<Swap>) {
    swaps == [] ||
    (AllOccur(s, swaps[..|swaps| - 1]) && Occurs(Unchunked(s, swaps[..|swaps| - 1]), swaps[|swaps| - 1]))
  }

  function Flow(st: In): string { Unchunked(st.received, st.swaps) }

  predicate Conserved(st: In) {
    AllOccur(st.received, st.swaps) && Flow(st) == st.taken + st.rbuf && |st.rbuf| < st.size
  }

  lemma ReplacedMore(s: string, w: Swap, more: string)
    requires Occurs(s, w)
    ensures Occurs(s + more, w) && Replaced(s + more, w) == Replaced(s, w) + more
  {
    var n := w.at + |w.coded|;
    assert (s + more)[w.at..n] == s[w.at..n] && (s + more)[..w.at] == s[..w.at];
    assert (s + more)[n..] == s[n..] + more;
    CatAssoc(s[..w.at] + w.plain, s[n..], more);
  }

  // What arrives later comes behind it.
  lemma {:induction false} UnchunkedMore(s: string, swaps: seq<Swap>, more: string)
    requires AllOccur(s, swaps)
    ensures AllOccur(s + more, swaps) && Unchunked(s + more, swaps) == Unchunked(s, swaps) + more
    decreases |swaps|
  {
    if swaps != [] {
      var before := swaps[..|swaps| - 1];
      UnchunkedMore(s, before, more);
      ReplacedMore(Unchunked(s, before), swaps[|swaps| - 1], more);
    }
  }

  lemma OneMore(s: string, swaps: seq<Swap>, w: Swap)
    requires AllOccur(s, swaps) && Occurs(Unchunked(s, swaps), w)
    ensures AllOccur(s, swaps + [w]) && Unchunked(s, swaps + [w]) == Replaced(Unchunked(s, swaps), w)
  {
    assert (swaps + [w])[..|swaps|] == swaps;
  }

  lemma ShiftConserves(st: In, len: nat)
    requires Conserved(st)
    ensures Conserved(Shift(st, len)) && Shift(st, len).taken + Shift(st, len).rbuf == Flow(st)
  {
    var n := Min(len, |st.rbuf|);
    CatAssoc(st.taken, st.rbuf[..n], st.rbuf[n..]);
    assert st.rbuf[..n] + st.rbuf[n..] == st.rbuf;
  }

  lemma ResetConserves(st: In)
    requires Conserved(st)
    ensures Conserved(Reset(st))
  {
    assert Reset(st).taken + "" == st.taken + st.rbuf;
  }

  lemma ReadConserves(st: In, net: Net)
    requires Conserved(st)
    ensures Conserved(Read(st, net).st) && st.received <= Read(st, net).st.received
  {
    ResetConserves(st);
    if net.Arrived? {
      var more := net.text[..Min(|net.text|, st.size - |st.rbuf|)];
      UnchunkedMore(st.received, st.swaps, more);
      CatAssoc(st.taken, st.rbuf, more);
    }
  }

  // Taking out the middle of what is in the buffer.
  lemma ReplacedBehind(taken: string, rbuf: string, used: nat, cut: nat, plain: string)
    requires used <= cut <= |rbuf|
    ensures var w := Swap(|taken| + used, rbuf[used..cut], plain);
      && Occurs(taken + rbuf, w) && Replaced(taken + rbuf, w) == taken + rbuf[..used] + (plain + rbuf[cut..])
  {
    var s, w := taken + rbuf, Swap(|taken| + used, rbuf[used..cut], plain);
    assert s[w.at..|taken| + cut] == rbuf[used..cut];
    assert s[..w.at] == taken + rbuf[..used] && s[|taken| + cut..] == rbuf[cut..];
    CatAssoc(taken + rbuf[..used], plain, rbuf[cut..]);
  }

  lemma UnpackedConserves(st: In, h: Head, used: nat, end: nat, plain: string)
    requires Conserved(st) && used <= |st.rbuf| && used <= end
    requires |plain| <= end - used && 0 < used && |plain| + used <= st.size
    ensures Conserved(Unpacked(st, h, used, end, plain))
  {
    var cut := Min(end, |st.rbuf|);
    UnpackedFlow(st.received, st.swaps, st.taken, st.rbuf, used, cut, plain);
    UnpackedFits(|st.rbuf|, st.size, used, end, cut, |plain|);
  }

  lemma UnpackedFlow(s: string, swaps: seq<Swap>, taken: string, rbuf: string, used: nat, cut: nat, plain: string)
    requires AllOccur(s, swaps) && Unchunked(s, swaps) == taken + rbuf && used <= cut <= |rbuf|
    ensures var before := taken + rbuf[..used];
      var more := swaps + [Swap(|before|, rbuf[used..cut], plain)];
      AllOccur(s, more) && Unchunked(s, more) == before + (plain + rbuf[cut..])
  {
    ReplacedBehind(taken, rbuf, used, cut, plain);
    OneMore(s, swaps, Swap(|taken| + used, rbuf[used..cut], plain));
  }

  lemma UnpackedFits(len: nat, size: nat, used: nat, end: nat, cut: nat, plain: nat)
    requires len < size && 0 < used <= end && used <= len && cut == Min(end, len)
    requires plain <= end - used && plain + used <= size
    ensures plain + (len - cut) < size
  {
  }

  // Nothing came in and nothing got lost.
  predicate Keeps(st: In, r: In) { Conserved(r) && r.received == st.received }

  lemma DechunkedConserves(st: In, h: Head, used: nat, n: nat, body: Walk<string>)
    requires Conserved(st) && 0 < used <= |st.rbuf|
    requires body.At? ==> |body.value| + body.n <= n && |body.value| + used <= st.size
    ensures Keeps(st, Dechunked(st, h, used, n, body).st)
  {
    if body.At? {
      BodyConserves(st, Measured(h, CStr(body.value)), used, n - body.n, CStr(body.value));
    } else {
      NoBodyConserves(st, h, used, n, body);
    }
  }

  lemma NoBodyConserves(st: In, h: Head, used: nat, n: nat, body: Walk<string>)
    requires Conserved(st) && used <= |st.rbuf| && !body.At?
    ensures Keeps(st, Dechunked(st, h, used, n, body).st)
  {
    if body.Wrong? { ResetConserves(st); }
  }

  lemma BodyConserves(st: In, h: Head, used: nat, n: nat, plain: string)
    requires Conserved(st) && 0 < used <= |st.rbuf| && |plain| <= n && |plain| + used <= st.size
    ensures Keeps(st, Unpacked(st, h, used, used + n, plain))
  {
    UnpackedConserves(st, h, used, used + n, plain);
  }

  lemma InitConserves(st: In, slack: string)
    requires Conserved(st)
    ensures Keeps(st, InitMsg(st, slack).st)
  {
    if st.rbuf != "" && st.http {
      ParsedConserves(st, InitFromBuf(st.rbuf, slack), BodyBehind(st, slack));
    }
  }

  lemma StartedConserves(st: In, h: Head, used: int)
    requires Conserved(st)
    ensures Keeps(st, Started(st, h, used))
  {
    ShiftConserves(st, if used < 0 then 0 else used);
  }

  lemma ParsedConserves(st: In, r: Outcome, body: Walk<string>)
    requires Conserved(st) && Within(st, r, body)
    ensures Keeps(st, Parsed(st, r, body).st)
  {
    if r.NeedMore? {
    } else if r.Error? {
      ResetConserves(st);
    } else if r.Ready? {
      StartedConserves(st, r.head, r.used);
    } else {
      DechunkedConserves(st, r.head, r.used, r.used - Span(st.rbuf, Space), body);
    }
  }

  lemma StreamIs(st: In, disk: Disk, n: nat)
    requires st.file.open && st.info.initialized && disk.Stored? && st.info.fileOffset <= st.info.bodyLen
    requires n == Min(disk.n, Min(st.info.bodyLen - st.info.fileOffset, |st.rbuf|))
    ensures var r := Streamed(st, n);
      Stream(st, disk) == if r.info.fileOffset >= r.info.bodyLen then Reply(r.(file := r.file.(open := false)), 0, false) else Reply(r, 1, false)
  {
  }

  // What streaming comes to when nothing is written.
  lemma StreamStops(st: In, disk: Disk)
    requires !st.file.open || !st.info.initialized || st.info.bodyLen < st.info.fileOffset || disk.Full?
    ensures var r := Stream(st, disk).st; r == st || r == st.(overrun := true) || r == Reset(st)
  {
  }

  lemma StreamConserves(st: In, disk: Disk)
    requires Conserved(st)
    ensures var r := Stream(st, disk).st; Conserved(r) && r.received == st.received
  {
    if st.file.open && st.info.initialized && st.info.fileOffset <= st.info.bodyLen && disk.Stored? {
      var n := Min(disk.n, Min(st.info.bodyLen - st.info.fileOffset, |st.rbuf|));
      StreamIs(st, disk, n);
      ShiftConserves(st, n);
    } else {
      ResetConserves(st);
      StreamStops(st, disk);
    }
  }

  lemma DoConserves(st: In, op: Op)
    requires Conserved(st) && Defined(st, op)
    ensures Conserved(Do(st, op)) && st.received <= Do(st, op).received
  {
    if st.overrun { return; }
    match op
    case ReadOp(net) => ReadConserves(st, net);
    case InitOp(slack) => InitConserves(st, slack);
    case SetFileOp(_) =>
    case StreamOp(disk) => StreamConserves(st, disk);
    case ClearOp =>
      if st.info.bodyLen >= 0 { ShiftConserves(st, st.info.bodyLen); }
  }

  // ---- One message: what left the buffer since the header is what is in the
  // file.

  // The header is looked for until it is found, and a file is set once.
  predicate InTurn(st: In, op: Op) {
    && (op.InitOp? ==> !st.info.initialized)
    && (op.SetFileOp? ==> st.info.initialized && !st.info.disc)
  }

  predicate Cycle(st: In) {
    if !st.info.initialized then st.info == CLEARED && !st.file.open
    else
      && st.mark + st.info.fileOffset == |st.taken|
      && (if st.info.disc then st.file.data == st.taken[st.mark..] else !st.file.open && st.info.fileOffset == 0)
      && (st.info.fileOffset == 0 || st.info.fileOffset <= st.info.bodyLen)
  }

  // The length of the body is the one the header states.
  predicate Announced(st: In) {
    st.info.initialized ==>
      if st.http then st.head.Got? && st.info.bodyLen == MsgLen(st.head.value.hdrs) else st.info.bodyLen == 0
  }

  lemma StreamedCycle(st: In, n: nat)
    requires Cycle(st) && st.info.initialized && st.info.disc && n <= |st.rbuf|
    requires st.info.fileOffset + n <= st.info.bodyLen
    ensures Cycle(Streamed(st, n))
  {
    assert (st.taken + st.rbuf[..n])[st.mark..] == st.taken[st.mark..] + st.rbuf[..n];
  }

  lemma InitCycles(st: In, slack: string)
    requires Cycle(st) && !st.info.initialized
    ensures Cycle(InitMsg(st, slack).st)
  {
    if st.rbuf != "" && st.http {
      ParsedStarts(st, InitFromBuf(st.rbuf, slack), BodyBehind(st, slack));
    }
  }

  // An attempt starts a message, or leaves none.
  lemma ParsedStarts(st: In, r: Outcome, body: Walk<string>)
    requires Cycle(st) && !st.info.initialized && st.http && Within(st, r, body)
    ensures Starts(st, Parsed(st, r, body).st)
  {
    match r
    case NeedMore =>
    case Error =>
    case Ready(h, used) => StartedStarts(st, h, used);
    case Chunked(h, used) => DechunkedStarts(st, h, used, used - Span(st.rbuf, Space), body);
  }

  predicate Starts(st: In, r: In) { Cycle(r) && Announced(r) && r.lost == st.lost }

  lemma StartedStarts(st: In, h: Head, used: int)
    requires Cycle(st) && !st.info.initialized && st.http
    ensures Starts(st, Started(st, h, used))
  {
  }

  lemma UnpackedStarts(st: In, h: Head, used: nat, end: nat, plain: string)
    requires Cycle(st) && !st.info.initialized && used <= |st.rbuf| && used <= end && st.http
    ensures Starts(st, Unpacked(st, h, used, end, plain))
  {
  }

  lemma DechunkedStarts(st: In, h: Head, used: nat, n: nat, body: Walk<string>)
    requires Cycle(st) && !st.info.initialized && st.http && used <= |st.rbuf| && (body.At? ==> body.n <= n)
    ensures Starts(st, Dechunked(st, h, used, n, body).st)
  {
    if body.At? {
      var plain := CStr(body.value);
      UnpackedStarts(st, Measured(h, plain), used, used + (n - body.n), plain);
    }
  }

  lemma ClosedCycle(st: In)
    requires Cycle(st) && st.info.initialized && st.info.disc
    ensures Cycle(st.(file := st.file.(open := false)))
  {
  }

  lemma StreamCycles(st: In, disk: Disk)
    requires Cycle(st)
    ensures Cycle(Stream(st, disk).st)
  {
    if st.file.open && st.info.initialized && disk.Stored? && st.info.fileOffset <= st.info.bodyLen {
      var n := Min(disk.n, Min(st.info.bodyLen - st.info.fileOffset, |st.rbuf|));
      StreamIs(st, disk, n);
      StreamedCycle(st, n);
      ClosedCycle(Streamed(st, n));
    }
  }

  lemma DoCycles(st: In, op: Op)
    requires Cycle(st) && Defined(st, op) && InTurn(st, op)
    ensures Cycle(Do(st, op))
  {
    match op
    case ReadOp(net) =>
    case InitOp(slack) => InitCycles(st, slack);
    case SetFileOp(_) => assert st.taken[st.mark..] == "";
    case StreamOp(disk) => StreamCycles(st, disk);
    case ClearOp =>
  }

  // ---- Over every run.

  predicate Lawful(st: In, ops: seq<Op>)
    decreases |ops|
  {
    ops == [] || (Defined(st, ops[0]) && InTurn(st, ops[0]) && Lawful(Do(st, ops[0]), ops[1..]))
  }

  function Run(st: In, ops: seq<Op>): In
    requires Lawful(st, ops)
    decreases |ops|
  {
    if ops == [] then st else Run(Do(st, ops[0]), ops[1..])
  }

  lemma {:induction false} RunConserves(st: In, ops: seq<Op>)
    requires Conserved(st) && Cycle(st) && Lawful(st, ops)
    ensures Conserved(Run(st, ops)) && Cycle(Run(st, ops)) && st.received <= Run(st, ops).received
    decreases |ops|
  {
    if ops != [] {
      DoConserves(st, ops[0]);
      DoCycles(st, ops[0]);
      RunConserves(Do(st, ops[0]), ops[1..]);
    }
  }

  // The part of the stream after the header of the current message.
  function Arrival(st: In): string
    requires st.mark <= |Flow(st)|
  {
    Flow(st)[st.mark..]
  }

  lemma BodyInTwo(st: In)
    requires Conserved(st) && Cycle(st) && st.info.initialized
    ensures st.mark <= |Flow(st)|
    ensures Arrival(st) == (if st.info.disc then st.file.data else "") + st.rbuf
  {
    assert Flow(st)[st.mark..] == st.taken[st.mark..] + st.rbuf;
    if !st.info.disc { assert st.taken[st.mark..] == ""; }
  }

  // A complete message has arrived in full; kept in memory it is complete as
  // soon as it has, and the body is at the front of the buffer.
  lemma CompleteHasArrived(st: In)
    requires Conserved(st) && Cycle(st) && st.info.initialized
    ensures st.mark <= |Flow(st)|
    ensures IsComplete(st) ==> |Arrival(st)| >= st.info.bodyLen
    ensures !st.info.disc ==> (IsComplete(st) <==> |Arrival(st)| >= st.info.bodyLen)
    ensures !st.info.disc && IsComplete(st) && st.info.bodyLen >= 0 ==>
      |st.rbuf| >= st.info.bodyLen && st.rbuf[..st.info.bodyLen] == Arrival(st)[..st.info.bodyLen]
  {
    BodyInTwo(st);
  }

  // When streaming says it is done, the file is the body and nothing else,
  // and the buffer starts with what follows it.
  lemma StreamedFileIsBody(st: In, disk: Disk)
    requires Conserved(st) && Cycle(st) && st.info.disc && !st.overrun
    ensures var r := Stream(st, disk);
      r.ret == 0 ==>
        && 0 <= st.info.bodyLen && st.mark <= |Flow(st)| && |Arrival(st)| >= st.info.bodyLen
        && !r.st.file.open && r.st.file.data == Arrival(st)[..st.info.bodyLen]
        && r.st.rbuf == Arrival(st)[st.info.bodyLen..]
  {
    var r := Stream(st, disk);
    if r.ret == 0 {
      DoConserves(st, StreamOp(disk));
      StreamCycles(st, disk);
      BodyInTwo(r.st);
      assert Flow(r.st) == Flow(st);
      assert |r.st.file.data| == st.info.bodyLen;
    }
  }

  // Clearing a complete message leaves the next one at the front of the
  // buffer, except when a body meant for a file was not streamed in full. A
  // negative length stands for no body.
  lemma ClearExposesNext(st: In)
    requires Conserved(st) && Cycle(st) && IsComplete(st)
    ensures var n := if st.info.bodyLen < 0 then 0 else st.info.bodyLen;
      && st.mark + n <= |Flow(st)|
      && (!Clear(st).overrun ==>
            (Clear(st).rbuf == Arrival(st)[n..] <==> !st.info.disc || st.info.fileOffset == n))
  {
    CompleteHasArrived(st);
    BodyInTwo(st);
  }

  // ---- Negative lengths.

  // The current message has a header that states a negative length.
  predicate Negative(st: In) {
    st.info.initialized && st.http && st.head.Got? && MsgLen(st.head.value.hdrs) < 0
  }

  lemma InitAnnounced(st: In, slack: string)
    requires Cycle(st) && !st.info.initialized
    ensures Announced(InitMsg(st, slack).st) && InitMsg(st, slack).st.lost == st.lost
  {
    if st.rbuf != "" && st.http {
      ParsedStarts(st, InitFromBuf(st.rbuf, slack), BodyBehind(st, slack));
    }
  }

  lemma StreamAnnounced(st: In, disk: Disk)
    requires Announced(st)
    ensures Announced(Stream(st, disk).st)
  {
  }

  lemma DoAnnounced(st: In, op: Op)
    requires Cycle(st) && Announced(st) && Defined(st, op) && InTurn(st, op)
    ensures Announced(Do(st, op))
  {
    match op
    case ReadOp(net) =>
    case InitOp(slack) => InitAnnounced(st, slack);
    case SetFileOp(_) =>
    case StreamOp(disk) => StreamAnnounced(st, disk);
    case ClearOp =>
  }

  // Reading the chunks of its body would leave the buffer.
  predicate ChunksOverrun(st: In, slack: string) {
    st.rbuf != "" && st.http && BodyBehind(st, slack).Overrun?
  }

  predicate Overruns(st: In, op: Op) {
    match op
    case InitOp(slack) => ChunksOverrun(st, slack)
    case ClearOp => Negative(st) && !st.info.disc
    case StreamOp(_) => Negative(st) && st.file.open
    case _ => false
  }

  lemma InitOverrun(st: In, slack: string)
    requires !st.overrun
    ensures InitMsg(st, slack).st.overrun <==> ChunksOverrun(st, slack)
  {
    if st.rbuf != "" && st.http {
      ParsedOverrun(st, InitFromBuf(st.rbuf, slack), BodyBehind(st, slack));
    }
  }

  lemma ParsedOverrun(st: In, r: Outcome, body: Walk<string>)
    requires !st.overrun && Within(st, r, body)
    ensures Parsed(st, r, body).st.overrun <==> r.Chunked? && body.Overrun?
  {
  }

  lemma StreamOverrun(st: In, disk: Disk)
    requires Cycle(st) && Announced(st) && !st.overrun
    ensures Stream(st, disk).st.overrun <==> Negative(st) && st.file.open
  {
    if st.file.open && st.info.initialized && st.info.fileOffset <= st.info.bodyLen && disk.Stored? {
      StreamIs(st, disk, Min(disk.n, Min(st.info.bodyLen - st.info.fileOffset, |st.rbuf|)));
    }
  }

  // A message of negative length is complete at once, and clearing it,
  // streaming it or walking off the end of chunks is exactly what leaves the
  // buffer.
  lemma OverrunStep(st: In, op: Op)
    requires Cycle(st) && Announced(st) && Defined(st, op) && !st.overrun
    ensures Negative(st) ==> IsComplete(st)
    ensures Do(st, op).overrun <==> Overruns(st, op)
  {
    match op
    case ReadOp(net) =>
    case InitOp(slack) => InitOverrun(st, slack);
    case SetFileOp(_) =>
    case StreamOp(disk) => StreamOverrun(st, disk);
    case ClearOp =>
  }

  predicate Strays(st: In, ops: seq<Op>)
    requires Lawful(st, ops)
    decreases |ops|
  {
    ops != [] && (Overruns(st, ops[0]) || Strays(Do(st, ops[0]), ops[1..]))
  }

  lemma {:induction false} RunOverruns(st: In, ops: seq<Op>)
    requires Cycle(st) && Announced(st) && Lawful(st, ops)
    ensures st.overrun ==> Run(st, ops) == st
    ensures !st.overrun ==> (Run(st, ops).overrun <==> Strays(st, ops))
    decreases |ops|
  {
    if ops != [] {
      DoCycles(st, ops[0]);
      DoAnnounced(st, ops[0]);
      if !st.overrun { OverrunStep(st, ops[0]); }
      RunOverruns(Do(st, ops[0]), ops[1..]);
    }
  }

  // ---- Files that are never closed.

  // The operation clears or resets a message whose file is open.
  predicate Abandons(st: In, op: Op) {
    st.info.disc && st.file.open && !st.overrun &&
    match op
    case ReadOp(net) => net.Broken? || (net.NotReady? && st.blocking)
    case StreamOp(disk) => disk.Full? && st.info.initialized && st.info.fileOffset <= st.info.bodyLen
    case ClearOp => true
    case _ => false
  }

  lemma StreamLost(st: In, disk: Disk)
    requires Cycle(st) && !st.overrun
    ensures Stream(st, disk).st.lost == st.lost + if Abandons(st, StreamOp(disk)) then 1 else 0
  {
    if st.file.open && st.info.initialized && st.info.fileOffset <= st.info.bodyLen && disk.Stored? {
      StreamIs(st, disk, Min(disk.n, Min(st.info.bodyLen - st.info.fileOffset, |st.rbuf|)));
    }
  }

  // Exactly then a descriptor is lost.
  lemma LostStep(st: In, op: Op)
    requires Cycle(st) && Defined(st, op) && InTurn(st, op)
    ensures Do(st, op).lost == st.lost + if Abandons(st, op) then 1 else 0
  {
    match op
    case ReadOp(net) =>
    case InitOp(slack) => InitAnnounced(st, slack);
    case SetFileOp(_) =>
    case StreamOp(disk) => if !st.overrun { StreamLost(st, disk); }
    case ClearOp =>
  }

  function Abandoned(st: In, ops: seq<Op>): nat
    requires Lawful(st, ops)
    decreases |ops|
  {
    if ops == [] then 0 else (if Abandons(st, ops[0]) then 1 else 0) + Abandoned(Do(st, ops[0]), ops[1..])
  }

  lemma {:induction false} RunLost(st: In, ops: seq<Op>)
    requires Cycle(st) && Lawful(st, ops)
    ensures Run(st, ops).lost == st.lost + Abandoned(st, ops)
    decreases |ops|
  {
    if ops != [] {
      LostStep(st, ops[0]);
      DoCycles(st, ops[0]);
      RunLost(Do(st, ops[0]), ops[1..]);
    }
  }

  // ---- One header for each session.

  // Without a framing type no header is read again, whatever is called.
  lemma {:induction false} NoMoreHeaders(st: In, ops: seq<Op>)
    requires !st.http && st.head.More? && Lawful(st, ops)
    ensures !Run(st, ops).http && Run(st, ops).head.More?
    decreases |ops|
  {
    if ops != [] { NoMoreHeaders(Do(st, ops[0]), ops[1..]); }
  }

  // What InitIncomingMsg does then: an error that consumes nothing.
  predicate Mute(st: In, slack: string) {
    !st.http && st.head.More? &&
    var r := InitMsg(st, slack);
    r.st.rbuf == st.rbuf && r.st.head.More? && r.ret == r.event == (st.rbuf != "")
  }

  // Clearing a message forgets the framing type, and so does the reset after
  // an error: from then on, over every run, no further header is read.
  lemma OnceOnly(st: In, ops: seq<Op>, slack: string)
    ensures !Clear(st).overrun && Lawful(Clear(st), ops) ==> Mute(Run(Clear(st), ops), slack)
    ensures Lawful(Reset(st), ops) ==> Mute(Run(Reset(st), ops), slack)
  {
    if !Clear(st).overrun && Lawful(Clear(st), ops) { NoMoreHeaders(Clear(st), ops); }
    if Lawful(Reset(st), ops) { NoMoreHeaders(Reset(st), ops); }
  }
}
