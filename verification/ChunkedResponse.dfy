/** What InitIncomingMsg makes of a chunked response (TCPSession.cc,
    HTTPFraming.cc): the chunk parser is handed the length of the header for
    that of the text behind it. */
module ChunkedResponse {
  import opened Scan
  import opened Http
  import opened HttpPrint
  import opened Buffers
  import opened Chunks
  import opened Incoming
  import opened Receiver

  // A chunked response without a length.
  predicate Chunking(h: Head) {
    ResponseOk(h) && AllSolid(h.hdrs) && IsChunked(h.hdrs) && FindHdr(h.hdrs, CONTENT_LENGTH) == |h.hdrs|
  }

  // A body in chunks that the parser can put together: no CR and no NUL.
  predicate Joinable(cs: seq<Chunk>, last: string) {
    ChunksOk(cs) && NoCr(cs) && LineOk(last, 0) && Fits(cs, DEFAULT_BUF_SIZE) && Clean(Joined(cs))
  }

  // The buffer holds a header and some of what follows; its memory, and so not
  // necessarily what was received, holds the chunks.
  ghost predicate InMemory(st: In, slack: string, h: Head, cs: seq<Chunk>, last: string) {
    var p, c := PrintHdr(h, false), BodyText(cs, last);
    && |st.rbuf| < st.size && st.http && p <= st.rbuf && |p| < |st.rbuf|
    && p + c <= st.rbuf + slack && |p| + |c| <= st.size
  }

  // What is behind the header starts with the chunks.
  lemma BehindStarts(st: In, slack: string, p: string, c: string) returns (more: string)
    requires p <= st.rbuf && p + c <= st.rbuf + slack && |p| + |c| <= st.size
    ensures Behind(st, |p|, slack) == c + more
  {
    var mem := st.rbuf[|p|..] + slack;
    assert mem == (st.rbuf + slack)[|p|..];
    assert mem[..|c|] == (p + c)[|p|..] == c;
    assert mem == c + mem[|c|..];
    more := Behind(st, |p|, slack)[|c|..];
  }

  lemma HeaderIs(st: In, slack: string, h: Head)
    requires Chunking(h) && PrintHdr(h, false) <= st.rbuf && |PrintHdr(h, false)| < |st.rbuf|
    ensures InitFromBuf(st.rbuf, slack) == Chunked(h, |PrintHdr(h, false)|)
    ensures Span(st.rbuf, Space) == 0
  {
    var p := PrintHdr(h, false);
    InitFromPrintedResponse(h, st.rbuf[|p|..], slack);
    assert st.rbuf == p + st.rbuf[|p|..];
    PrintedStart(h, st.rbuf[|p|..]);
    NotSpace(st.rbuf);
  }

  lemma NotSpace(s: string)
    requires |s| >= 5 && s[..5] == "HTTP/"
    ensures Span(s, Space) == 0
  {
    assert s[0] == s[..5][0] == 'H';
    SpanIs(s, Space, 0);
  }

  // What the chunk parser makes of the memory behind a header of n bytes.
  lemma BodyOfIs(st: In, slack: string, h: Head, n: nat, cs: seq<Chunk>, last: string, more: string)
    requires Joinable(cs, last) && Span(st.rbuf, Space) == 0 && 0 < n <= |st.rbuf|
    requires Behind(st, n, slack) == BodyText(cs, last) + more
    ensures BodyOf(st, Chunked(h, n), slack) ==
      if Left(cs, last, n) > 0 then At(Joined(cs), CRLF + more, Left(cs, last, n)) else Wait
  {
    ChunkedBodyIsJoined(cs, last, more, n, DEFAULT_BUF_SIZE);
    BodyOfMemory(st, slack, h, n, n, BodyText(cs, last) + more);
  }

  // The bytes of the buffer that are used: the header, and the chunks but for
  // a byte of each and their last CRLF.
  function Used(h: Head, cs: seq<Chunk>, last: string): int {
    |PrintHdr(h, false)| + |BodyText(cs, last)| - |cs| - 2
  }

  // What InitIncomingMsg makes of a header of n bytes and a body behind it.
  lemma ParsedIs(st: In, h: Head, n: nat, body: Walk<string>, plain: string, end: int)
    requires Within(st, Chunked(h, n), body) && Span(st.rbuf, Space) == 0 && Clean(plain)
    requires body.Wait? || (body.At? && body.value == plain && end == n + (n - body.n) >= n)
    ensures Parsed(st, Chunked(h, n), body) ==
      if body.At? then Reply(Unpacked(st, Measured(h, plain), n, end, plain), true, Unmeasured(h, plain))
      else Reply(st.(head := More), false, false)
  {
    CStrClean(plain);
  }

  lemma InitParsed(st: In, slack: string, r: Outcome)
    requires st.rbuf != "" && st.http && r == InitFromBuf(st.rbuf, slack)
    ensures (r.Chunked? ==> Span(st.rbuf, Space) < r.used <= |st.rbuf|)
    ensures InitMsg(st, slack) == Parsed(st, r, BodyOf(st, r, slack))
  {
    ChunkedUses(st.rbuf, slack);
  }

  lemma UsedIs(h: Head, cs: seq<Chunk>, last: string, n: nat)
    requires ChunksOk(cs) && n == |PrintHdr(h, false)|
    ensures Used(h, cs, last) == n + (n - Left(cs, last, n)) >= n
  {
    BodyLong(cs, last);
  }

  lemma InitIs(st: In, slack: string, h: Head, cs: seq<Chunk>, last: string)
    requires Chunking(h) && Joinable(cs, last) && InMemory(st, slack, h, cs, last)
    ensures var p := PrintHdr(h, false);
      && |p| <= Used(h, cs, last)
      && InitMsg(st, slack) ==
        if Left(cs, last, |p|) > 0 then
          Reply(Unpacked(st, Measured(h, Joined(cs)), |p|, Used(h, cs, last), Joined(cs)), true, Unmeasured(h, Joined(cs)))
        else Reply(st.(head := More), false, false)
  {
    var p := PrintHdr(h, false);
    HeaderIs(st, slack, h);
    InitParsed(st, slack, Chunked(h, |p|));
    var more := BehindStarts(st, slack, p, BodyText(cs, last));
    BodyOfIs(st, slack, h, |p|, cs, last, more);
    UsedIs(h, cs, last, |p|);
    ParsedIs(st, h, |p|, BodyOf(st, Chunked(h, |p|), slack), Joined(cs), Used(h, cs, last));
  }

  lemma MeasuredLen(h: Head, plain: string)
    requires FindHdr(h.hdrs, CONTENT_LENGTH) == |h.hdrs|
    ensures !Unmeasured(h, plain) && (MsgLen(Measured(h, plain).hdrs) == |plain| <==> |plain| < 0x8000_0000)
  {
    BodyLenRoundTrip(h.hdrs, |plain|);
  }

  // A chunked response is taken exactly when its header is longer than its
  // chunks, less a byte for each and their last CRLF; otherwise it is waited
  // for, whatever else arrives. When it is taken, the joined body is at the
  // front of the buffer, the header states its length, and the bytes of the
  // chunks that were not counted come next. All of this whether the chunks
  // were received or are what earlier messages left in the memory.
  lemma ChunkedTaken(st: In, slack: string, h: Head, cs: seq<Chunk>, last: string)
    requires Chunking(h) && Joinable(cs, last) && InMemory(st, slack, h, cs, last) && |Joined(cs)| < 0x8000_0000
    ensures var r := InitMsg(st, slack);
      && (r.ret <==> |PrintHdr(h, false)| > |BodyText(cs, last)| - |cs| - 2)
      && !r.event
      && (!r.ret ==> r.st == st.(head := More))
      && (r.ret ==>
            && r.st.head == Got(Measured(h, Joined(cs)), "") && IsComplete(r.st)
            && r.st.info == Info(true, |Joined(cs)|, 0, false)
            && 0 <= Used(h, cs, last)
            && r.st.rbuf == Joined(cs) + st.rbuf[Min(Used(h, cs, last), |st.rbuf|)..])
  {
    InitIs(st, slack, h, cs, last);
    MeasuredLen(h, Joined(cs));
  }
}
