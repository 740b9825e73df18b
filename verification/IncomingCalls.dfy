/** What one call on the incoming half answers and leaves behind (TCPSession.cc,
    TCPSession.h). */
module IncomingCalls {
  import opened Scan
  import opened Http
  import opened Buffers
  import opened Chunks
  import opened Incoming

  // A new session: room for 4096 bytes and none of them, no message and no
  // file, but a framing type.
  lemma OpenedIs(blocking: bool)
    ensures var st := Opened(blocking);
      && st.rbuf == "" && st.size == 4096 && st.info == Info(false, 0, 0, false) && st.http && st.file == RFile(false, "")
      && st.blocking == blocking && !st.overrun && Conserved(st) && Cycle(st)
  {
  }

  // ---- The reset after an error.

  // Nothing is left of the message, of the buffer or of the framing type, and
  // the bytes that were in the buffer are gone; a file it was directed to is
  // forgotten, open or not, and its descriptor with it.
  predicate Forgotten(st: In, r: In) {
    && r.rbuf == "" && r.info == Info(false, 0, 0, false) && !r.http && r.head == More
    && r.taken == st.taken + st.rbuf && r.received == st.received && r.swaps == st.swaps
    && r.size == st.size && r.blocking == st.blocking && r.overrun == st.overrun
    && r.file == RFile(st.file.open && !st.info.disc, st.file.data)
    && r.lost == st.lost + if st.file.open && st.info.disc then 1 else 0
  }

  // ---- Read

  // A failure resets the session; so does a blocking socket that is not ready,
  // and one that does not block leaves it as it is.
  lemma ReadFails(st: In, net: Net)
    requires |st.rbuf| < st.size && !net.Arrived?
    ensures var r := Read(st, net);
      if net.NotReady? && !st.blocking then r == Reply(st, 0, false)
      else r.ret == 0 && r.event && Forgotten(st, r.st)
  {
  }

  // What arrives is appended, as much of it as there is room for; a buffer
  // that is full then grows by 4096.
  lemma ReadTakes(st: In, text: string, more: string)
    requires |st.rbuf| + |text| <= st.size && |st.rbuf| < st.size && (more != "" ==> |st.rbuf| + |text| == st.size)
    ensures var r := Read(st, Arrived(text + more));
      && r.ret == |text| && !r.event
      && r.st == st.(rbuf := st.rbuf + text, received := st.received + text,
                     size := st.size + if |st.rbuf| + |text| == st.size then 4096 else 0)
  {
    assert (text + more)[..|text|] == text;
  }

  // ---- InitIncomingMsg

  // Without data nothing happens; a header that is an error resets the
  // session, one that is not there in full is waited for.
  lemma InitStays(st: In, slack: string)
    ensures st.rbuf == "" ==> InitMsg(st, slack) == Reply(st, false, false)
    ensures st.rbuf != "" && st.http && InitFromBuf(st.rbuf, slack) == NeedMore ==>
      InitMsg(st, slack) == Reply(st.(head := More), false, false)
    ensures st.rbuf != "" && st.http && InitFromBuf(st.rbuf, slack) == Error ==>
      var r := InitMsg(st, slack); !r.ret && r.event && Forgotten(st, r.st)
  {
  }

  // Without a framing type it is an error, and a message without a body.
  lemma InitWithoutFraming(st: In, slack: string)
    requires st.rbuf != "" && !st.http
    ensures var r := InitMsg(st, slack);
      && r.ret && r.event && r.st.info == Info(true, 0, 0, false) && IsComplete(r.st)
      && r.st == st.(info := r.st.info, mark := |st.taken|)
  {
  }

  // A header that was found leaves the buffer, and the rest stays.
  lemma InitFinds(st: In, slack: string, h: Head, used: string, rest: string)
    requires st.http && st.rbuf == used + rest && used != "" && InitFromBuf(st.rbuf, slack) == Ready(h, |used|)
    ensures InitMsg(st, slack) == Reply(
      st.(rbuf := rest, taken := st.taken + used, info := Info(true, MsgLen(h.hdrs), 0, false), head := Got(h, ""),
          mark := |st.taken + used|), true, false)
  {
    assert st.rbuf[..|used|] == used && st.rbuf[|used|..] == rest;
  }

  // ---- The body of a chunked response.

  // Chunks that are not in order reset the session.
  lemma ChunksWrong(st: In, h: Head, used: nat, n: nat)
    requires used <= |st.rbuf|
    ensures var r := Dechunked(st, h, used, n, Wrong); !r.ret && r.event && Forgotten(st, r.st)
  {
  }

  // The body ends at its first NUL.
  lemma ChunksCut(st: In, h: Head, used: nat, n: nat, plain: string, cut: string, mem: string, left: nat)
    requires used <= |st.rbuf| && left <= n && Clean(plain)
    ensures Dechunked(st, h, used, n, At(plain + ("\0" + cut), mem, left)) == Dechunked(st, h, used, n, At(plain, mem, left))
  {
    CStrIs(plain, cut);
    CStrClean(plain);
  }

  // It is put behind the header, in the place of the bytes that were counted,
  // and the header states its length if it stated none; else that is an error
  // and the stated length stays. An empty body is given no length.
  lemma ChunksPlaced(st: In, h: Head, header: string, counted: string, rest: string, plain: string, mem: string, n: nat)
    requires st.rbuf == header + (counted + rest) && |counted| <= n && Clean(plain)
    ensures var r := Dechunked(st, h, |header|, n, At(plain, mem, n - |counted|));
      && r.ret && r.st.rbuf == plain + rest && r.st.taken == st.taken + header
      && (r.event <==> plain != "" && FindHdr(h.hdrs, CONTENT_LENGTH) < |h.hdrs|)
      && (r.st.head == if plain == "" || r.event then Got(h, "") else Got(h.(hdrs := h.hdrs + [BodyLenHdr(|plain|)]), ""))
      && r.st.info == Info(true, MsgLen(r.st.head.value.hdrs), 0, false)
      && r.st.swaps == st.swaps + [Swap(|st.taken + header|, counted, plain)]
  {
    var used, end := |header|, |header| + |counted|;
    assert st.rbuf[..used] == header && st.rbuf[used..end] == counted && st.rbuf[end..] == rest;
    CStrClean(plain);
  }

  // ---- set_rfile

  // The message's file is emptied and streaming begins; only if it cannot be
  // opened is that an error. While a file is open nothing is set.
  lemma SetFileIs(st: In, open: bool)
    ensures st.file.open ==> SetFile(st, open) == Reply(st, (), true)
    ensures !st.file.open ==>
      SetFile(st, open) ==
        Reply(st.(info := Info(st.info.initialized, st.info.bodyLen, 0, true), file := RFile(open, "")), (), !open)
  {
  }

  // ---- StreamIncomingMsg

  // Without an open file or a header it is an error that changes nothing; a
  // file that takes no more resets the session.
  lemma StreamFails(st: In, disk: Disk)
    ensures !st.file.open || !st.info.initialized ==> Stream(st, disk) == Reply(st, 1, true)
    ensures st.file.open && st.info.initialized && st.info.fileOffset <= st.info.bodyLen && disk.Full? ==>
      var r := Stream(st, disk); r.ret == 1 && r.event && Forgotten(st, r.st)
  {
  }

  // Of what is in the buffer and belongs to the body the file takes what it
  // can; it is closed, and 0 returned, when it has the whole body.
  lemma StreamTakes(st: In, n: nat, text: string, rest: string)
    requires st.file.open && st.info.initialized && st.rbuf == text + rest
    requires st.info.fileOffset + |text| <= st.info.bodyLen && |text| <= n
    requires |text| == n || rest == "" || st.info.fileOffset + |text| == st.info.bodyLen
    ensures var all := st.info.fileOffset + |text|;
      Stream(st, Stored(n)) == Reply(
        st.(rbuf := rest, taken := st.taken + text, file := RFile(all < st.info.bodyLen, st.file.data + text),
            info := Info(true, st.info.bodyLen, all, st.info.disc)),
        if all < st.info.bodyLen then 1 else 0, false)
  {
    assert st.rbuf[..|text|] == text && st.rbuf[|text|..] == rest;
    StreamIs(st, Stored(n), |text|);
  }

  // ---- ClearIncomingMsg

  // The body leaves the buffer, or as much of it as is there; of a message
  // that was directed to a file nothing does, and the file is forgotten.
  lemma ClearIs(st: In, body: string, rest: string)
    requires st.rbuf == body + rest && !st.info.disc
    requires st.info.bodyLen == |body| || (rest == "" && st.info.bodyLen > |body|)
    ensures Clear(st) == st.(rbuf := rest, taken := st.taken + body, info := Info(false, 0, 0, false), http := false, head := More)
  {
    assert st.rbuf[..|body|] == body && st.rbuf[|body|..] == rest;
  }

  lemma ClearFile(st: In)
    requires st.info.disc
    ensures Clear(st) == st.(info := Info(false, 0, 0, false), http := false, head := More,
                             file := RFile(false, st.file.data), lost := st.lost + if st.file.open then 1 else 0)
  {
  }

  // ---- IsIncomingMsgComplete

  // A message is complete if all of its body is in the file, or if what has
  // arrived behind the part in the file is as long as the whole body: in
  // memory, when it has arrived; in a file, also before the file has any.
  lemma CompleteIs(st: In)
    requires Conserved(st) && Cycle(st)
    ensures !st.info.initialized ==> !IsComplete(st)
    ensures st.info.initialized ==>
      && st.mark <= |Flow(st)|
      && (!st.info.disc ==> (IsComplete(st) <==> |Arrival(st)| >= st.info.bodyLen))
      && (st.info.disc ==>
            (IsComplete(st) <==> |st.file.data| >= st.info.bodyLen || |Arrival(st)| - |st.file.data| >= st.info.bodyLen))
  {
    if st.info.initialized {
      BodyInTwo(st);
      CompleteHasArrived(st);
    }
  }
}
