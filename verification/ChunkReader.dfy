/** The loops of ParseChunkedMsgBody, which fill a buffer that grows as the
    chunk sizes say (HTTPFraming.cc). The walk pointer is the memory that
    remains; where the source would leave that memory, the result is Overrun. */
module ChunkReader {
  import opened Scan
  import opened C = Chunks

  // while (n > 0 && *buf_ptr != '\r') *scratch_ptr++ = *buf_ptr++;
  method TakeLine(buf: string, len: nat) returns (r: Walk<string>)
    ensures r == UpToCr(buf, len)
  {
    var tok, rest, n: nat := "", buf, len;
    while n > 0 && rest != "" && rest[0] != '\r'
      invariant |tok| <= |buf| && tok == buf[..|tok|] && rest == buf[|tok|..] && |tok| + n == len
      invariant Span(buf, Until({'\r'})) == |tok| + Span(rest, Until({'\r'}))
      decreases |rest|
    {
      tok, rest, n := tok + [rest[0]], rest[1..], n - 1;
    }
    if n == 0 { r := Wait; }
    else if rest == "" { r := Overrun; }
    else { r := At(tok, rest, n); }
  }

  method SkipCrLf(buf: string, len: nat, counted: bool) returns (r: Walk<()>)
    requires buf != "" && buf[0] == '\r' && len > 0
    ensures r == CrLf(buf, len, counted)
  {
    var rest, n: nat := buf[1..], len - 1;
    if n == 0 { return Wait; }
    if rest == "" { return Overrun; }
    if rest[0] != '\n' { return Wrong; }
    rest := rest[1..];
    if counted {
      n := n - 1;
      if n == 0 { return Wait; }
    }
    r := At((), rest, n);
  }

  method TakeSize(buf: string, len: nat) returns (r: Walk<int>)
    ensures r == SizeLine(buf, len)
  {
    var line := TakeLine(buf, len);
    if !line.At? { return line.PropagateFailure(); }
    var end := SkipCrLf(line.mem, line.n, true);
    if !end.At? { return end.PropagateFailure(); }
    r := At(StrtolHex(line.value), end.mem, end.n);
  }

  // The data of one chunk to the end of the body.
  method CopyData(buf: string, len: nat, body: array<char>, from: nat) returns (r: Walk<()>, cnt: nat)
    requires from <= body.Length
    modifies body
    ensures from <= cnt <= body.Length && body[..from] == old(body[..from])
    ensures match Data(buf, len, body.Length - from)
      case At(data, m, n) => r == At((), m, n) && cnt == from + |data| && body[from..cnt] == data
      case Wait => r == Wait
      case Wrong => r == Wrong
      case Overrun => r == Overrun
  {
    var rest, n: nat := buf, len;
    cnt := from;
    while n > 0 && rest != "" && rest[0] != '\r' && cnt < body.Length
      invariant from <= cnt <= body.Length && cnt - from <= |buf| && cnt - from + n == len
      invariant rest == buf[cnt - from..] && body[from..cnt] == buf[..cnt - from]
      invariant body[..from] == old(body[..from])
      invariant Span(buf, Until({'\r'})) == cnt - from + Span(rest, Until({'\r'}))
      decreases |rest|
    {
      body[cnt] := rest[0];
      cnt, rest, n := cnt + 1, rest[1..], n - 1;
    }
    if n == 0 { return Wait, cnt; }
    if rest == "" || rest[0] != '\r' { return Overrun, cnt; }
    r := SkipCrLf(rest, n, false);
  }

  // realloc when the chunk does not fit.
  method MakeRoom(body: array<char>, cnt: nat, size: int) returns (p: array<char>)
    requires cnt <= body.Length
    ensures p == body || fresh(p)
    ensures p.Length == Room(body.Length, size, cnt)
    ensures cnt <= p.Length ==> p[..cnt] == old(body[..cnt])
  {
    p := body;
    if (size + cnt) % SIZE_T >= body.Length {
      var more := if SCRATCH_BUF_SIZE > size then SCRATCH_BUF_SIZE else size + 1;
      p := new char[body.Length + more];
      forall i | 0 <= i < cnt { p[i] := body[i]; }
    }
  }

  // What a walk over text comes to in a buffer.
  ghost predicate Shows(w: Walk<string>, r: Walk<()>, held: string) {
    match w
    case At(v, m, n) => r == At((), m, n) && held == v
    case Wait => r == Wait
    case Wrong => r == Wrong
    case Overrun => r == Overrun
  }

  // One turn of the loop: a size line, then room and data for it, or the end.
  method NextChunk(buf: string, len: nat, msgBody: array<char>, from: nat)
    returns (done: bool, r: Walk<()>, body: array<char>, cnt: nat)
    requires from <= msgBody.Length
    modifies msgBody
    ensures cnt <= body.Length && (body == msgBody || fresh(body))
    ensures match OneChunk(buf, len, msgBody.Length, old(msgBody[..from]))
      case Next(m, n, cap, text) => !done && r == At((), m, n) && body.Length == cap && body[..cnt] == text
      case End(w) => done && Shows(w, r, body[..cnt]) && (w.At? ==> cnt < body.Length && body[cnt] == '\0')
  {
    done, r, body, cnt := true, Wait, msgBody, from;
    ghost var was := msgBody[..from];
    var line := TakeSize(buf, len);
    if !line.At? { r := line.PropagateFailure(); return; }
    if line.value == 0 {
      if cnt == body.Length { r := Overrun; return; }
      body[cnt] := '\0';
      r := At((), line.mem, line.n);
      assert body[..cnt] == was;
      return;
    }
    body := MakeRoom(body, cnt, line.value);
    r, cnt := CopyData(line.mem, line.n, body, from);
    done := !r.At?;
    assert body[..cnt] == was + body[from..cnt];
  }

  method ParseChunks(buf: string, len: nat, msgBody: array<char>)
    returns (r: Walk<()>, body: array<char>, cnt: nat)
    modifies msgBody
    ensures cnt <= body.Length && (body == msgBody || fresh(body))
    ensures Shows(Assemble(buf, len, msgBody.Length, ""), r, body[..cnt])
    ensures r.At? ==> cnt < body.Length && body[cnt] == '\0'
  {
    var rest, n: nat := buf, len;
    body, cnt, r := msgBody, 0, Wait;
    ghost var all := Assemble(buf, len, msgBody.Length, "");
    assert body[..0] == "";
    var done := false;
    while n > 0 && !done
      invariant cnt <= body.Length && (body == msgBody || fresh(body))
      invariant !done ==> all == Assemble(rest, n, body.Length, body[..cnt]) && (n == 0 ==> all == Wait)
      invariant !done ==> !r.At? || n > 0
      invariant done ==> Shows(all, r, body[..cnt]) && (r.At? ==> cnt < body.Length && body[cnt] == '\0')
      decreases !done, |rest|
    {
      done, r, body, cnt := NextChunk(rest, n, body, cnt);
      if !done { rest, n := r.mem, r.n; }
    }
    if !done { r := Wait; }
  }

  method SkipSpace(buf: string, len: nat) returns (r: Walk<()>)
    ensures r == C.SkipSpace(buf, len)
  {
    var rest, n: nat := buf, len;
    while n > 0 && rest != "" && IsSpace(rest[0])
      invariant |rest| <= |buf| && rest == buf[|buf| - |rest|..] && n + |buf| - |rest| == len
      invariant Span(buf, Space) == |buf| - |rest| + Span(rest, Space)
      decreases |rest|
    {
      rest, n := rest[1..], n - 1;
    }
    r := if n == 0 then Wait else if rest == "" then Overrun else At((), rest, n);
  }

  method ParseChunkedMsgBody(buf: string, len: nat, msgBody: array<char>)
    returns (r: Walk<()>, body: array<char>, cnt: nat)
    modifies msgBody
    ensures cnt <= body.Length && (body == msgBody || fresh(body))
    ensures Shows(ChunkedBody(buf, len, msgBody.Length), r, body[..cnt])
    ensures r.At? ==> cnt < body.Length && body[cnt] == '\0'
  {
    body, cnt := msgBody, 0;
    r := SkipSpace(buf, len);
    if r.At? { r, body, cnt := ParseChunks(r.mem, r.n, msgBody); }
  }
}
