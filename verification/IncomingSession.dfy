/** The incoming half of TCPSession on its own fields: a growing buffer that is
    read into at its end and consumed at its front (TCPSession.cc). */
module IncomingSession {
  import opened Scan
  import Http
  import opened Buffers
  import opened Incoming
  import opened Chunks
  import ChunkReader
  import opened HttpFraming

  // What the parsers report: nothing yet, an error event or an overrun, or the
  // bytes used and the body of a chunked message.
  datatype Answer = NoMsg(event: bool, over: bool) | Msg(used: int, plain: string)

  // For the chunks behind a header of used bytes, n without leading space.
  predicate Answers(a: Answer, used: int, n: int, body: Walk<string>) {
    match body
    case Wait => a == NoMsg(false, false)
    case Wrong => a == NoMsg(true, false)
    case Overrun => a == NoMsg(false, true)
    case At(text, _, left) => a == Msg(used + (n - left), CStr(text))
  }

  // The answer for what the chunk reader returned and left in its buffer.
  function Answered(r: Walk<()>, held: string, used: int, n: nat): Answer {
    if r.At? then Msg(used + (n - r.n), CStr(held)) else NoMsg(r.Wrong?, r.Overrun?)
  }

  lemma ShownAnswers(body: Walk<string>, r: Walk<()>, held: string, used: int, n: nat)
    requires ChunkReader.Shows(body, r, held)
    ensures Answers(Answered(r, held, used, n), used, n, body)
  {
  }

  predicate Parses(a: Answer, h: Http.Head, space: nat, r: Http.Outcome, body: Walk<string>) {
    match r
    case NeedMore => a == NoMsg(false, false)
    case Error => a == NoMsg(true, false)
    case Ready(h', used) => a == Msg(used, "") && h == h'
    case Chunked(h', used) => Answers(a, used, used - space, body) && h == h'
  }

  // mem is the memory of the buffer.
  lemma BehindIs(st: In, slack: string, used: nat, mem: string)
    requires mem == st.rbuf + slack && |mem| == st.size && used <= |st.rbuf|
    ensures Behind(st, used, slack) == mem[used..]
  {
  }

  // text is what the chunk parser is handed.
  lemma ChunkedParses(st: In, slack: string, a: Answer, h: Http.Head, used: nat, n: nat, text: string)
    requires |st.rbuf + slack| == st.size && n == used - Span(st.rbuf, Space) && 0 < n && used <= |st.rbuf|
    requires Http.InitFromBuf(st.rbuf, slack) == Http.Chunked(h, used) && text == (st.rbuf + slack)[used..]
    requires Answers(a, used, n, ChunkedBody(text, n, DEFAULT_BUF_SIZE))
    ensures Parses(a, h, Span(st.rbuf, Space), Http.InitFromBuf(st.rbuf, slack), BodyBehind(st, slack))
  {
    BehindIs(st, slack, used, st.rbuf + slack);
    BodyOfMemory(st, slack, h, used, n, text);
  }

  lemma PlainParses(ret: bool, event: bool, h: Http.Head, used: int, r: Http.Outcome, space: nat, body: Walk<string>)
    requires !r.Chunked? && ret == r.Ready? && event == r.Error? && (r.Ready? ==> used == r.used && h == r.head)
    ensures Parses(if ret then Msg(used, "") else NoMsg(event, false), h, space, r, body)
  {
  }

  function Max(x: int, n: nat): nat { if x < n then n else x }

  // What the session does with an answer is what the state machine does.
  lemma ParsedAnswers(st: In, a: Answer, h: Http.Head, r: Http.Outcome, body: Walk<string>)
    requires |st.rbuf| < st.size && Within(st, r, body) && Parses(a, h, Span(st.rbuf, Space), r, body) && !st.overrun
    ensures Agrees(st, a, h, Parsed(st, r, body))
  {
    if r.Chunked? {
      BodyAnswers(st, a, h, r.used, r.used - Span(st.rbuf, Space), body);
    } else {
      PlainAnswers(st, a, h, r, body);
    }
  }

  lemma PlainAnswers(st: In, a: Answer, h: Http.Head, r: Http.Outcome, body: Walk<string>)
    requires !r.Chunked? && Parses(a, h, Span(st.rbuf, Space), r, body) && !st.overrun
    ensures Agrees(st, a, h, Parsed(st, r, body))
  {
    if r.Ready? { assert "" + st.rbuf[Min(Max(r.used, 0), |st.rbuf|)..] == st.rbuf[Min(Max(r.used, 0), |st.rbuf|)..]; }
  }

  lemma BodyAnswers(st: In, a: Answer, h: Http.Head, used: nat, n: nat, body: Walk<string>)
    requires n <= used <= |st.rbuf| < st.size && !st.overrun && Answers(a, used, n, body)
    requires body.At? ==> |body.value| + body.n <= n && |body.value| + used <= st.size
    ensures Agrees(st, a, h, Dechunked(st, h, used, n, body))
  {
    if body.At? { assert |CStr(body.value)| <= |body.value|; }
  }

  predicate Agrees(st: In, a: Answer, h: Http.Head, p: Reply<bool>) {
    match a
    case NoMsg(event, over) =>
      !(event && over) && !p.ret && p.event == event && p.st == if over then st.(overrun := true) else if event then Reset(st) else st.(head := More)
    case Msg(used, plain) =>
      && p.ret && p.event == Unmeasured(h, plain)
      && |plain| <= Max(used, 0) && |plain| <= st.size
      && p.st.rbuf == plain + st.rbuf[Min(Max(used, 0), |st.rbuf|)..]
      && p.st.info == Info(true, Http.MsgLen(Measured(h, plain).hdrs), 0, false)
      && p.st.head == Got(Measured(h, plain), "")
      && p.st.size == st.size && p.st.http == st.http && p.st.file == st.file
      && p.st.blocking == st.blocking && !p.st.overrun
  }

  class TCPSession {
    var rbuf: array<char>
    var rbufLen: nat
    var rpending: Info
    // Whether the framing type is HTTP, or none.
    var http: bool
    var rfile: RFile
    const rhdr: HTTPFraming
    const blocking: bool
    ghost var st: In

    ghost predicate Valid()
      reads this, rbuf, rhdr, rhdr.uri
    {
      && Held() && Conserved(st)
      && (st.head.Got? ==> rhdr.Value() == st.head.value)
    }

    ghost predicate Held()
      reads this, rbuf
    {
      && rbufLen <= rbuf.Length == st.size && rbuf[..rbufLen] == st.rbuf
      && rpending == st.info && http == st.http && rfile == st.file && blocking == st.blocking
      && !st.overrun
    }

    constructor (blocking: bool)
      ensures Valid() && fresh(rbuf) && fresh(rhdr) && fresh(rhdr.uri) && st == Opened(blocking)
    {
      this.blocking := blocking;
      rbuf := new char[DEFAULT_BUF_SIZE];
      rbufLen, rpending, http, rfile := 0, CLEARED, true, RFile(false, "");
      rhdr := new HTTPFraming();
      st := Opened(blocking);
    }

    // File::clear on rfile_: the name goes first, so that Close reports an
    // error and leaves the descriptor open.
    method ClearFile() returns (event: bool)
      modifies this`rfile
      ensures rfile == old(rfile).(open := false) && event == old(rfile.open)
    {
      event := rfile.open;
      rfile := rfile.(open := false);
    }

    method ResetRbuf() returns (event: bool)
      requires Held() && Conserved(st)
      modifies this, rhdr, rhdr.uri
      ensures Valid() && st == Reset(old(st)) && rbuf == old(rbuf)
      ensures event == (st.lost > old(st.lost))
    {
      ResetConserves(st);
      rbufLen, event := 0, false;
      if rpending.disc { event := ClearFile(); }
      Forget();
      st := Reset(st);
    }

    // A buffer with room again, the same bytes in front.
    method Grow()
      requires rbufLen <= rbuf.Length
      modifies this`rbuf
      ensures fresh(rbuf) && rbuf.Length == old(rbuf.Length) + DEFAULT_BUF_SIZE
      ensures rbufLen <= rbuf.Length && rbuf[..rbufLen] == old(rbuf[..rbufLen])
    {
      var p := new char[rbuf.Length + DEFAULT_BUF_SIZE];
      forall i | 0 <= i < rbufLen { p[i] := rbuf[i]; }
      rbuf := p;
    }

    // read(2) to the end of the buffer.
    method Append(text: string)
      requires rbufLen + |text| <= rbuf.Length
      modifies this`rbufLen, rbuf
      ensures rbufLen == old(rbufLen) + |text|
      ensures rbuf[..rbufLen] == old(rbuf[..rbufLen]) + text
    {
      forall i | 0 <= i < |text| { rbuf[rbufLen + i] := text[i]; }
      rbufLen := rbufLen + |text|;
    }

    method Read(net: Net) returns (n: nat, eof: bool, event: bool)
      requires Valid()
      modifies this, rbuf, rhdr, rhdr.uri
      ensures Valid() && (rbuf == old(rbuf) || fresh(rbuf))
      ensures var r := Incoming.Read(old(st), net); st == r.st && n == r.ret && event == r.event
      ensures eof == (net.Arrived? && n == 0)
    {
      n, eof, event := 0, false, false;
      ReadConserves(st, net);
      if net.Arrived? {
        n := Min(|net.text|, rbuf.Length - rbufLen);
        eof := n == 0;
        Append(net.text[..n]);
        if rbufLen == rbuf.Length { Grow(); }
        st := Incoming.Read(st, net).st;
      } else if net.Broken? || blocking {
        event := ResetRbuf();
        event := true;
      }
    }

    // Takes len bytes out of the buffer at offset, or those there are.
    method ShiftRbuf(len: nat, offset: nat)
      requires offset <= rbuf.Length && rbufLen <= rbuf.Length
      modifies this`rbufLen, rbuf
      ensures var n := old(rbufLen); rbufLen == (if len + offset > n then offset else n - len) <= rbuf.Length
      ensures rbuf[..rbufLen] == old(rbuf[..offset]) +
        (if len + offset > old(rbufLen) then [] else old(rbuf[offset + len..rbufLen]))
    {
      if len + offset > rbufLen {
        rbufLen := offset;
      } else {
        forall i | offset <= i < rbufLen - len { rbuf[i] := rbuf[i + len]; }
        rbufLen := rbufLen - len;
      }
    }

    // ParseChunkedMsgBody on the memory mem.
    static method ReadChunks(mem: string, used: nat, n: nat) returns (a: Answer)
      ensures Answers(a, used, n, ChunkedBody(mem, n, DEFAULT_BUF_SIZE))
    {
      var msgBody := new char[DEFAULT_BUF_SIZE];
      var r, body, cnt := ChunkReader.ParseChunkedMsgBody(mem, n, msgBody);
      ShownAnswers(ChunkedBody(mem, n, DEFAULT_BUF_SIZE), r, body[..cnt], used, n);
      a := Answered(r, body[..cnt], used, n);
    }

    // The chunks in text, behind a header of used bytes that starts buf.
    static method ReadBody(buf: string, used: nat, text: string) returns (a: Answer, n: nat)
      requires Span(buf, Space) <= used
      ensures n == used - Span(buf, Space) && Answers(a, used, n, ChunkedBody(text, n, DEFAULT_BUF_SIZE))
    {
      var space, _ := ScanWhile(buf, Space);
      n := used - |space|;
      a := ReadChunks(text, used, n);
    }

    // rhdr on the bytes in the buffer, and on the chunks behind the header.
    method ParseHdr(ghost slack: string) returns (a: Answer)
      requires Held() && Conserved(st) && slack == rbuf[rbufLen..]
      modifies rhdr, rhdr.uri
      ensures Parses(a, rhdr.Value(), Span(st.rbuf, Space), Http.InitFromBuf(st.rbuf, slack), BodyBehind(st, slack))
    {
      ghost var mem, r := rbuf[..], Http.InitFromBuf(st.rbuf, slack);
      assert mem == st.rbuf + slack;
      var ret, event, chunked, used := rhdr.InitFromBuf(rbuf[..rbufLen], rbuf[rbufLen..]);
      assert chunked == r.Chunked? && ret == r.Ready? && event == r.Error?;
      if chunked {
        Http.ChunkedUses(st.rbuf, slack);
        var n;
        a, n := ReadBody(rbuf[..rbufLen], used, rbuf[used..]);
        assert rbuf[used..] == mem[used..];
        ChunkedParses(st, slack, a, rhdr.Value(), used, n, mem[used..]);
      } else {
        a := if ret then Msg(used, "") else NoMsg(event, false);
        PlainParses(ret, event, rhdr.Value(), used, r, Span(st.rbuf, Space), BodyBehind(st, slack));
      }
    }

    // ShiftRbuf at the front of the buffer.
    method Drop(len: nat, ghost was: string)
      requires rbufLen <= rbuf.Length && was == rbuf[..rbufLen]
      modifies this`rbufLen, rbuf
      ensures rbufLen <= rbuf.Length && rbuf[..rbufLen] == was[Min(len, |was|)..]
    {
      ghost var rest := rbuf[Min(len, rbufLen)..rbufLen];
      ShiftRbuf(len, 0);
      assert rest == was[Min(len, |was|)..];
    }

    // The body is copied to the front, and the rest of n bytes shifted out.
    method PutBody(plain: string, n: nat, ghost was: string)
      requires rbufLen <= rbuf.Length && was == rbuf[..rbufLen] && |plain| <= n && |plain| <= rbuf.Length
      modifies this`rbufLen, rbuf
      ensures rbufLen <= rbuf.Length && rbuf[..rbufLen] == plain + was[Min(n, |was|)..]
    {
      ghost var rest := rbuf[Min(n, rbufLen)..rbufLen];
      forall i | 0 <= i < |plain| { rbuf[i] := plain[i]; }
      assert rbuf[..|plain|] == plain && rbuf[Min(n, rbufLen)..rbufLen] == rest;
      ShiftRbuf(n - |plain|, |plain|);
      assert rest == was[Min(n, |was|)..];
    }

    // The header leaves the buffer, and its chunks make room for the body.
    method TakeHdr(used: int, plain: string, ghost h: Http.Head, ghost was: string) returns (event: bool)
      requires rbufLen <= rbuf.Length && |plain| <= rbuf.Length && |plain| <= Max(used, 0)
      requires rhdr.Value() == h && was == rbuf[..rbufLen]
      modifies this`rbufLen, this`rpending, rbuf, rhdr`msgHdrs
      ensures rbufLen <= rbuf.Length && rbuf[..rbufLen] == plain + was[Min(Max(used, 0), |was|)..]
      ensures rhdr.Value() == Measured(h, plain) && event == Unmeasured(h, plain)
      ensures rpending == Info(true, Http.MsgLen(Measured(h, plain).hdrs), 0, false)
    {
      event := false;
      if plain != "" {
        PutBody(plain, Max(used, 0), was);
        event := rhdr.AppendMsgHdr(Http.BodyLenHdr(|plain|));
      } else {
        Drop(Max(used, 0), was);
      }
      var bodyLen := rhdr.GetMsgLen();
      rpending := Info(true, bodyLen, 0, false);
    }

    // p is what the state machine makes of the answer.
    method Act(a: Answer, ghost p: Reply<bool>) returns (ret: bool, event: bool, over: bool)
      requires Held() && Conserved(st) && Conserved(p.st) && Agrees(st, a, rhdr.Value(), p)
      modifies this, rbuf, rhdr, rhdr.uri
      ensures (!over ==> Valid()) && rbuf == old(rbuf)
      ensures st == p.st && ret == p.ret && event == p.event && over == st.overrun
    {
      match a {
        case NoMsg(failed, overrun) =>
          ret, event, over := false, failed, overrun;
          if failed { var _ := ResetRbuf(); }
        case Msg(used, plain) =>
          ret, over := true, false;
          event := TakeHdr(used, plain, rhdr.Value(), st.rbuf);
      }
      st := p.st;
    }

    method InitIncomingMsg() returns (ret: bool, event: bool, over: bool)
      requires Valid()
      modifies this, rbuf, rhdr, rhdr.uri
      ensures (!over ==> Valid()) && rbuf == old(rbuf) && over == st.overrun
      ensures var r := InitMsg(old(st), old(rbuf[rbufLen..])); st == r.st && ret == r.ret && event == r.event
    {
      if rbufLen == 0 { return false, false, false; }
      if !http {
        rpending := Info(true, 0, 0, false);
        st := st.(info := Info(true, 0, 0, false), mark := |st.taken|);
        return true, true, false;
      }
      ghost var slack := rbuf[rbufLen..];
      InitConserves(st, slack);
      var a := ParseHdr(slack);
      ParsedAnswers(st, a, rhdr.Value(), Http.InitFromBuf(st.rbuf, slack), BodyBehind(st, slack));
      ret, event, over := Act(a, InitMsg(st, slack));
    }

    method SetRfile(opens: bool) returns (event: bool)
      requires Valid()
      modifies this
      ensures Valid() && rbuf == old(rbuf)
      ensures var r := SetFile(old(st), opens); st == r.st && event == r.event
    {
      if rfile.open { return true; }
      rpending := rpending.(fileOffset := 0, disc := true);
      rfile := RFile(opens, "");
      event := !opens;
      st := SetFile(st, opens).st;
    }

    // write(2) of the first n bytes of the buffer to the file.
    method MoveToFile(n: nat)
      requires Valid() && n <= rbufLen
      modifies this, rbuf
      ensures Valid() && rbuf == old(rbuf) && st == Streamed(old(st), n)
    {
      ShiftConserves(st, n);
      rfile := rfile.(data := rfile.data + rbuf[..n]);
      rpending := rpending.(fileOffset := rpending.fileOffset + n);
      assert rbuf[..n] == st.rbuf[..n];
      Drop(n, st.rbuf);
      st := Streamed(st, n);
    }

    // over: a negative length was taken for a size; nothing is promised of the
    // session then.
    method StreamIncomingMsg(disk: Disk) returns (ret: int, event: bool, over: bool)
      requires Valid()
      modifies this, rbuf, rhdr, rhdr.uri
      ensures (!over ==> Valid()) && rbuf == old(rbuf) && over == st.overrun
      ensures var r := Stream(old(st), disk); st == r.st && ret == r.ret && event == r.event
    {
      ret, event, over := 1, false, false;
      if !rfile.open || !rpending.initialized { return 1, true, false; }
      if rpending.bodyLen < rpending.fileOffset {
        st := st.(overrun := true);
        return 1, false, true;
      }
      if disk.Full? {
        event := ResetRbuf();
        event := true;
        return;
      }
      var n: nat := if rpending.bodyLen - rpending.fileOffset < rbufLen then rpending.bodyLen - rpending.fileOffset else rbufLen;
      StreamIs(st, disk, Min(disk.n, n));
      MoveToFile(Min(disk.n, n));
      if rpending.fileOffset >= rpending.bodyLen {
        rfile := rfile.(open := false);
        st := st.(file := st.file.(open := false));
        ret := 0;
      }
    }

    // The body leaves the buffer, or the file is let go.
    method DropBody() returns (event: bool)
      requires Held() && (rpending.disc || rpending.bodyLen >= 0)
      modifies this`rfile, this`rbufLen, rbuf
      ensures rbufLen <= rbuf.Length && rbuf[..rbufLen] == Clear(st).rbuf && rfile == Clear(st).file
      ensures event == (Clear(st).lost > st.lost)
    {
      event := false;
      if rpending.disc {
        event := ClearFile();
      } else {
        Drop(rpending.bodyLen, st.rbuf);
      }
    }

    // event: the file was open, and its descriptor is lost.
    method ClearIncomingMsg() returns (event: bool, over: bool)
      requires Valid()
      modifies this, rbuf, rhdr, rhdr.uri
      ensures (!over ==> Valid()) && rbuf == old(rbuf) && over == st.overrun && st == Clear(old(st))
      ensures event == (st.lost > old(st.lost))
    {
      over := !rpending.disc && rpending.bodyLen < 0;
      if over {
        st := st.(overrun := true);
        return false, true;
      }
      DoConserves(st, ClearOp);
      event := DropBody();
      Forget();
      st := Clear(st);
    }

    // The header and the meta-data of the message are cleared.
    method Forget()
      modifies this`http, this`rpending, rhdr, rhdr.uri
      ensures !http && rpending == CLEARED
    {
      rhdr.Clear();
      http := false;
      rpending := CLEARED;
    }

    method IsIncomingMsgComplete() returns (r: bool)
      requires Valid()
      ensures r == IsComplete(st)
    {
      r := rpending.initialized && (rpending.fileOffset >= rpending.bodyLen || rbufLen >= rpending.bodyLen);
    }
  }
}
