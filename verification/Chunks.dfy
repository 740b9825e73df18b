/** The body of a chunked response, put together from its chunks
    (ParseChunkedMsgBody of HTTPFraming.cc, section 3.6.1 of RFC 2616). */
module Chunks {
  import opened Scan

  const SCRATCH_BUF_SIZE: nat := 4096
  const SIZE_T: int := 0x1_0000_0000_0000_0000

  // ---- strtol(s, NULL, 16)

  predicate IsHex(c: char) { IsDigit(c) || 'a' <= c <= 'f' || 'A' <= c <= 'F' }

  function HexDigit(c: char): (v: nat)
    requires IsHex(c)
    ensures v < 16
  {
    if IsDigit(c) then c as int - '0' as int
    else if 'a' <= c then c as int - 'a' as int + 10 else c as int - 'A' as int + 10
  }

  // The value of the digits s starts with, after digits worth v.
  function HexValue(s: string, v: nat): nat {
    if s == "" || !IsHex(s[0]) then v else HexValue(s[1..], 16 * v + HexDigit(s[0]))
  }

  function SkipPrefix(s: string): string {
    if |s| >= 3 && s[0] == '0' && (s[1] == 'x' || s[1] == 'X') && IsHex(s[2]) then s[2..] else s
  }

  function StrtolHex(s: string): (v: int)
    ensures -LONG_MAX - 1 <= v <= LONG_MAX
  {
    var a := s[Span(s, Space)..];
    var neg := a != "" && a[0] == '-';
    var b := if neg || (a != "" && a[0] == '+') then a[1..] else a;
    var v: int := HexValue(SkipPrefix(b), 0);
    if neg then (if v > LONG_MAX + 1 then -LONG_MAX - 1 else -v)
    else if v > LONG_MAX then LONG_MAX else v
  }

  // ---- The walk. mem is the memory from the walk pointer on, n the count of
  // bytes the parser believes are left in it. Reading or writing outside the
  // memory there is, is an Overrun.

  datatype Walk<+T> = Wait | Wrong | Overrun | At(value: T, mem: string, n: nat) {
    predicate IsFailure() { !At? }

    function PropagateFailure<U>(): Walk<U>
      requires !At?
    {
      if Wait? then Wait else if Wrong? then Wrong else Overrun
    }

    function Extract(): (T, string, nat)
      requires At?
    {
      (value, mem, n)
    }
  }

  // Everything up to a CR.
  function UpToCr(mem: string, n: nat): (r: Walk<string>)
    ensures r.At? ==> r.mem != "" && r.mem[0] == '\r' && r.n > 0 && '\r' !in r.value
    ensures r.At? ==> |r.mem| + |r.value| == |mem|
  {
    var t := Span(mem, Until({'\r'}));
    if n <= t then Wait
    else if t == |mem| then Overrun
    else At(mem[..t], mem[t..], n - t)
  }

  // CR LF, with the walk at the CR. Only after a size line is the LF counted.
  function CrLf(mem: string, n: nat, counted: bool): (r: Walk<()>)
    requires mem != "" && mem[0] == '\r' && n > 0
    ensures r.At? ==> |r.mem| == |mem| - 2 && r.n > 0
  {
    if n == 1 then Wait
    else if |mem| == 1 then Overrun
    else if mem[1] != '\n' then Wrong
    else if !counted then At((), mem[2..], n - 1)
    else if n == 2 then Wait
    else At((), mem[2..], n - 2)
  }

  function SizeLine(mem: string, n: nat): (r: Walk<int>)
    ensures r.At? ==> |r.mem| < |mem| && r.n > 0
  {
    var (line, m1, n1) :- UpToCr(mem, n);
    var (_, m2, n2) :- CrLf(m1, n1, true);
    At(StrtolHex(line), m2, n2)
  }

  // The capacity after making room for a chunk, in size_t arithmetic.
  function Room(cap: nat, size: int, count: nat): nat {
    if (size + count) % SIZE_T >= cap then
      (if SCRATCH_BUF_SIZE > size then cap + SCRATCH_BUF_SIZE else cap + size + 1)
    else cap
  }

  // The data, which ends at a CR whatever the size said.
  function Data(mem: string, n: nat, room: nat): (r: Walk<string>)
    ensures r.At? ==> |r.mem| < |mem| && r.n > 0 && |r.value| <= room && '\r' !in r.value
  {
    var t := Span(mem, Until({'\r'}));
    if (if n < t then n else t) > room then Overrun
    else
      var (data, m1, n1) :- UpToCr(mem, n);
      var (_, m2, n2) :- CrLf(m1, n1, false);
      At(data, m2, n2)
  }

  datatype Step = Next(mem: string, n: nat, cap: nat, body: string) | End(r: Walk<string>)

  // A body is no longer than what was counted for it, nor than the memory.
  function OneChunk(mem: string, n: nat, cap: nat, body: string): (r: Step)
    ensures r.Next? ==> |r.mem| < |mem|
    ensures r.Next? ==> |r.body| + r.n <= |body| + n && |r.body| + |r.mem| <= |body| + |mem|
    ensures r.End? && r.r.At? ==> |r.r.value| + r.r.n <= |body| + n && |r.r.value| + |r.r.mem| <= |body| + |mem|
  {
    var line := SizeLine(mem, n);
    if !line.At? then End(line.PropagateFailure())
    else if line.value == 0 then End(if |body| < cap then At(body, line.mem, line.n) else Overrun)
    else
      var cap1 := Room(cap, line.value, |body|);
      var data := if |body| <= cap1 then Data(line.mem, line.n, cap1 - |body|) else Overrun;
      if !data.At? then End(data) else Next(data.mem, data.n, cap1, body + data.value)
  }

  function Assemble(mem: string, n: nat, cap: nat, body: string): (r: Walk<string>)
    ensures r.At? ==> |r.value| + r.n <= |body| + n && |r.value| + |r.mem| <= |body| + |mem|
    decreases |mem|
  {
    if n == 0 then Wait
    else
      match OneChunk(mem, n, cap, body)
      case End(r) => r
      case Next(m1, n1, cap1, body1) => Assemble(m1, n1, cap1, body1)
  }

  function SkipSpace(mem: string, n: nat): Walk<()> {
    var t := Span(mem, Space);
    if n <= t then Wait else if t == |mem| then Overrun else At((), mem[t..], n - t)
  }

  // ParseChunkedMsgBody: the body, and what is left of the count.
  function ChunkedBody(mem: string, n: nat, cap: nat): (r: Walk<string>)
    ensures r.At? ==> |r.value| + r.n <= n && |r.value| + |r.mem| <= |mem|
  {
    var (_, m1, n1) :- SkipSpace(mem, n);
    Assemble(m1, n1, cap, "")
  }

  // ---- Chunked text.

  datatype Chunk = Chunk(line: string, data: string)

  function ChunkText(c: Chunk): string { c.line + (CRLF + (c.data + CRLF)) }

  function ChunksText(cs: seq<Chunk>): string {
    if cs == [] then "" else ChunkText(cs[0]) + ChunksText(cs[1..])
  }

  // The last chunk and no trailer.
  function BodyText(cs: seq<Chunk>, last: string): string {
    ChunksText(cs) + (last + CRLF + CRLF)
  }

  function Joined(cs: seq<Chunk>): string {
    if cs == [] then "" else cs[0].data + Joined(cs[1..])
  }

  // A line that states a size: hex digits, and perhaps an extension.
  predicate LineOk(line: string, size: nat) {
    line != "" && IsHex(line[0]) && '\r' !in line && StrtolHex(line) == size
  }

  predicate ChunkOk(c: Chunk) { 0 < |c.data| && LineOk(c.line, |c.data|) }

  predicate ChunksOk(cs: seq<Chunk>) { forall i :: 0 <= i < |cs| ==> ChunkOk(cs[i]) }

  predicate NoCr(cs: seq<Chunk>) { forall i :: 0 <= i < |cs| ==> '\r' !in cs[i].data }

  // ---- One well-formed chunk.

  lemma UpToCrText(tok: string, next: string, n: nat)
    requires '\r' !in tok && next != "" && next[0] == '\r' && n > |tok|
    ensures UpToCr(tok + next, n) == At(tok, next, n - |tok|)
    ensures Span(tok + next, Until({'\r'})) == |tok|
  {
    assert (tok + next)[..|tok|] == tok && (tok + next)[|tok|..] == next;
    SpanIs(tok + next, Until({'\r'}), |tok|);
  }

  lemma SizeLineText(line: string, next: string, n: nat)
    requires '\r' !in line && n > |line| + 2
    ensures SizeLine(line + (CRLF + next), n) == At(StrtolHex(line), next, n - |line| - 2)
  {
    UpToCrText(line, CRLF + next, n);
    assert (CRLF + next)[2..] == next;
  }

  lemma DataText(data: string, next: string, n: nat, room: nat)
    requires '\r' !in data && n > |data| + 1 && |data| <= room
    ensures Data(data + (CRLF + next), n, room) == At(data, next, n - |data| - 1)
  {
    UpToCrText(data, CRLF + next, n);
    assert (CRLF + next)[2..] == next;
  }

  // Growing keeps room for the chunk and the NUL after it.
  lemma RoomSuffices(cap: nat, size: nat, count: nat)
    requires count < cap && size <= LONG_MAX && cap < 0x8000_0000_0000_0000
    ensures count + size < Room(cap, size, count)
  {
  }

  lemma ChunkSplit(c: Chunk, rest: string)
    ensures ChunkText(c) + rest == c.line + (CRLF + (c.data + (CRLF + rest)))
  {
  }

  // One chunk, by what its two parts are.
  lemma OneChunkIs(mem: string, n: nat, cap: nat, body: string, line: Walk<int>, data: Walk<string>)
    requires line == SizeLine(mem, n) && line.At? && line.value != 0
    requires |body| <= Room(cap, line.value, |body|)
    requires data == Data(line.mem, line.n, Room(cap, line.value, |body|) - |body|) && data.At?
    ensures OneChunk(mem, n, cap, body) == Next(data.mem, data.n, Room(cap, line.value, |body|), body + data.value)
  {
  }

  lemma OneChunkParts(c: Chunk, rest: string, mem: string, n: nat, n1: nat, cap: nat, cap1: nat, body: string)
    requires ChunkOk(c) && '\r' !in c.data && |body| + |c.data| < cap1
    requires mem == c.line + (CRLF + (c.data + (CRLF + rest)))
    requires n == n1 + |c.line| + 2 && n1 > |c.data| + 1 && cap1 == Room(cap, |c.data|, |body|)
    ensures OneChunk(mem, n, cap, body) == Next(rest, n1 - |c.data| - 1, cap1, body + c.data)
  {
    SizeLineText(c.line, c.data + (CRLF + rest), n);
    DataText(c.data, rest, n1, cap1 - |body|);
    OneChunkIs(mem, n, cap, body, At(|c.data|, c.data + (CRLF + rest), n1), At(c.data, rest, n1 - |c.data| - 1));
  }

  // ---- The whole body.

  lemma LastText(last: string, n: nat, cap: nat, body: string, slack: string)
    requires LineOk(last, 0) && |body| < cap && n > |last| + 2
    ensures Assemble(last + CRLF + CRLF + slack, n, cap, body) == At(body, CRLF + slack, n - |last| - 2)
  {
    assert last + CRLF + CRLF + slack == last + (CRLF + (CRLF + slack));
    SizeLineText(last, CRLF + slack, n);
    var mem := last + CRLF + CRLF + slack;
    assert OneChunk(mem, n, cap, body) == End(At(body, CRLF + slack, n - |last| - 2));
    AssembleNext(mem, n, cap, body, OneChunk(mem, n, cap, body));
  }

  // The capacity stays within size_t's positive half.
  predicate Fits(cs: seq<Chunk>, cap: nat) {
    cap + |Joined(cs)| + SCRATCH_BUF_SIZE * |cs| < 0x8000_0000_0000_0000
  }

  lemma BodyStep(cs: seq<Chunk>, last: string, slack: string)
    requires cs != []
    ensures BodyText(cs, last) + slack == ChunkText(cs[0]) + (BodyText(cs[1..], last) + slack)
    ensures |BodyText(cs, last)| == |ChunkText(cs[0])| + |BodyText(cs[1..], last)|
  {
    CatAssoc(ChunkText(cs[0]), ChunksText(cs[1..]), last + CRLF + CRLF);
    CatAssoc(ChunkText(cs[0]), BodyText(cs[1..], last), slack);
  }

  lemma AssembleNext(mem: string, n: nat, cap: nat, body: string, s: Step)
    requires n > 0 && s == OneChunk(mem, n, cap, body)
    ensures Assemble(mem, n, cap, body) == if s.End? then s.r else Assemble(s.mem, s.n, s.cap, s.body)
  {
  }

  lemma SameText(c: Chunk, rest: string, mem: string, n: nat, cap: nat, body: string, s: Step)
    requires mem == ChunkText(c) + rest && OneChunk(ChunkText(c) + rest, n, cap, body) == s
    ensures OneChunk(mem, n, cap, body) == s
  {
  }

  lemma AssembleChunk(c: Chunk, rest: string, mem: string, n: nat, n1: nat, cap: nat, cap1: nat, body: string)
    requires ChunkOk(c) && '\r' !in c.data && |body| < cap < 0x8000_0000_0000_0000
    requires mem == ChunkText(c) + rest && n >= |ChunkText(c)|
    requires n1 == n - |ChunkText(c)| + 1 && cap1 == Room(cap, |c.data|, |body|)
    ensures Assemble(mem, n, cap, body) == Assemble(rest, n1, cap1, body + c.data)
    ensures |body + c.data| < cap1
  {
    ChunkSplit(c, rest);
    RoomSuffices(cap, |c.data|, |body|);
    OneChunkParts(c, rest, mem, n, n - |c.line| - 2, cap, cap1, body);
    AssembleNext(mem, n, cap, body, Next(rest, n1, cap1, body + c.data));
  }

  lemma FitsStep(cs: seq<Chunk>, cap: nat, count: nat)
    requires cs != [] && ChunksOk(cs) && count < cap && Fits(cs, cap)
    ensures Fits(cs[1..], Room(cap, |cs[0].data|, count)) && ChunksOk(cs[1..])
  {
    assert Joined(cs) == cs[0].data + Joined(cs[1..]);
  }

  // How much of n bytes is left after the body: of each chunk one byte is not
  // counted, nor is the CRLF after the last chunk.
  function Left(cs: seq<Chunk>, last: string, n: nat): int { n - |BodyText(cs, last)| + |cs| + 2 }

  lemma {:induction false} BodyLong(cs: seq<Chunk>, last: string)
    requires ChunksOk(cs)
    ensures |BodyText(cs, last)| >= |cs| + 4
    decreases |cs|
  {
    if cs != [] {
      BodyStep(cs, last, "");
      assert ChunkOk(cs[0]);
      BodyLong(cs[1..], last);
    }
  }

  lemma LeftStep(cs: seq<Chunk>, last: string, n: nat)
    requires cs != [] && n >= |ChunkText(cs[0])|
    ensures Left(cs[1..], last, n - |ChunkText(cs[0])| + 1) == Left(cs, last, n)
  {
    BodyStep(cs, last, "");
  }

  // The data is joined as long as something is left of the count; else the
  // parser waits.
  lemma {:induction false} ChunksAssemble(cs: seq<Chunk>, last: string, slack: string, n: nat, cap: nat, body: string)
    requires ChunksOk(cs) && NoCr(cs) && LineOk(last, 0) && |body| < cap && Fits(cs, cap)
    ensures Assemble(BodyText(cs, last) + slack, n, cap, body) ==
      if Left(cs, last, n) > 0 then At(body + Joined(cs), CRLF + slack, Left(cs, last, n)) else Wait
    decreases |cs|
  {
    if cs == [] {
      NoChunks(last, slack, n, cap, body);
    } else if n < |ChunkText(cs[0])| {
      FirstWaits(cs, last, slack, n, cap, body);
    } else {
      var c, more := cs[0], cs[1..];
      var mem, rest := BodyText(cs, last) + slack, BodyText(more, last) + slack;
      BodyStep(cs, last, slack);
      var n1: nat, cap1 := n - |ChunkText(c)| + 1, Room(cap, |c.data|, |body|);
      AssembleChunk(c, rest, mem, n, n1, cap, cap1, body);
      FitsStep(cs, cap, |body|);
      LeftStep(cs, last, n);
      ChunksAssemble(more, last, slack, n1, cap1, body + c.data);
      CatAssoc(body, c.data, Joined(more));
    }
  }

  lemma SizeLineWaits(line: string, next: string, n: nat)
    requires '\r' !in line && n <= |line| + 2
    ensures SizeLine(line + (CRLF + next), n) == Wait
  {
    var mem := line + (CRLF + next);
    assert mem[..|line|] == line && mem[|line|..] == CRLF + next;
    SpanIs(mem, Until({'\r'}), |line|);
  }

  lemma DataWaits(data: string, next: string, n: nat, room: nat)
    requires '\r' !in data && n <= |data| + 1 && |data| <= room
    ensures Data(data + (CRLF + next), n, room) == Wait
  {
    var mem := data + (CRLF + next);
    assert mem[..|data|] == data && mem[|data|..] == CRLF + next;
    SpanIs(mem, Until({'\r'}), |data|);
  }

  lemma ChunkWaits(c: Chunk, rest: string, n: nat, cap: nat, body: string)
    requires ChunkOk(c) && '\r' !in c.data && |body| < cap < 0x8000_0000_0000_0000
    requires n <= |c.line| + |c.data| + 3
    ensures OneChunk(ChunkText(c) + rest, n, cap, body) == End(Wait)
  {
    ChunkSplit(c, rest);
    if n <= |c.line| + 2 {
      SizeLineWaits(c.line, c.data + (CRLF + rest), n);
    } else {
      SizeLineText(c.line, c.data + (CRLF + rest), n);
      RoomSuffices(cap, |c.data|, |body|);
      DataWaits(c.data, rest, n - |c.line| - 2, Room(cap, |c.data|, |body|) - |body|);
    }
  }

  lemma FirstWaits(cs: seq<Chunk>, last: string, slack: string, n: nat, cap: nat, body: string)
    requires ChunksOk(cs) && NoCr(cs) && |body| < cap && Fits(cs, cap)
    requires cs != [] && n < |ChunkText(cs[0])|
    ensures Assemble(BodyText(cs, last) + slack, n, cap, body) == Wait && Left(cs, last, n) <= 0
  {
    var c, mem, rest := cs[0], BodyText(cs, last) + slack, BodyText(cs[1..], last) + slack;
    BodyStep(cs, last, slack);
    BodyLong(cs[1..], last);
    ChunkWaits(c, rest, n, cap, body);
    SameText(c, rest, mem, n, cap, body, End(Wait));
    if n > 0 { AssembleNext(mem, n, cap, body, End(Wait)); }
  }

  lemma NoChunks(last: string, slack: string, n: nat, cap: nat, body: string)
    requires LineOk(last, 0) && |body| < cap
    ensures Assemble(BodyText([], last) + slack, n, cap, body) ==
      if Left([], last, n) > 0 then At(body + Joined([]), CRLF + slack, Left([], last, n)) else Wait
  {
    assert BodyText([], last) == last + CRLF + CRLF;
    assert body + "" == body;
    if n > |last| + 2 {
      LastText(last, n, cap, body, slack);
    } else {
      LastWaits(last, n, cap, body, slack);
    }
  }

  lemma LastWaits(last: string, n: nat, cap: nat, body: string, slack: string)
    requires LineOk(last, 0) && n <= |last| + 2
    ensures Assemble(last + CRLF + CRLF + slack, n, cap, body) == Wait
  {
    var mem := last + CRLF + CRLF + slack;
    assert mem == last + (CRLF + (CRLF + slack));
    SizeLineWaits(last, CRLF + slack, n);
    if n > 0 { AssembleNext(mem, n, cap, body, End(Wait)); }
  }

  // ---- Data with a CR is never put together.

  lemma {:induction false} AssembledHasNoCr(mem: string, n: nat, cap: nat, body: string)
    requires '\r' !in body
    ensures var r := Assemble(mem, n, cap, body); r.At? ==> '\r' !in r.value
    decreases |mem|
  {
    var s := OneChunk(mem, n, cap, body);
    if n > 0 && s.Next? { AssembledHasNoCr(s.mem, s.n, s.cap, s.body); }
  }

  lemma {:induction false} JoinedHasCr(cs: seq<Chunk>)
    ensures '\r' in Joined(cs) <==> !NoCr(cs)
  {
    if cs != [] {
      JoinedHasCr(cs[1..]);
      if !NoCr(cs[1..]) {
        var i :| 0 <= i < |cs[1..]| && '\r' in cs[1..][i].data;
        assert cs[i + 1] == cs[1..][i];
      }
    }
  }

  lemma FirstIsHex(cs: seq<Chunk>, last: string, slack: string)
    requires ChunksOk(cs) && LineOk(last, 0)
    ensures var s := BodyText(cs, last) + slack; s != "" && IsHex(s[0]) && Span(s, Space) == 0
  {
    var s := BodyText(cs, last) + slack;
    if cs == [] { assert s[0] == last[0]; } else { assert s[0] == cs[0].line[0]; }
    SpanIs(s, Space, 0);
  }

  lemma NothingSkipped(mem: string, n: nat)
    requires mem != "" && Span(mem, Space) == 0 && n > 0
    ensures SkipSpace(mem, n) == At((), mem, n)
  {
    assert mem[0..] == mem;
  }

  lemma ChunkedBodyIs(cs: seq<Chunk>, last: string, slack: string, n: nat, cap: nat)
    requires ChunksOk(cs) && LineOk(last, 0)
    ensures var mem := BodyText(cs, last) + slack; ChunkedBody(mem, n, cap) == Assemble(mem, n, cap, "")
  {
    FirstIsHex(cs, last, slack);
    if n > 0 { NothingSkipped(BodyText(cs, last) + slack, n); }
  }

  // For every well-formed sequence of chunks, whatever follows it, and every
  // count n: the body is the data joined, exactly when no data contains a CR
  // and something is left of the count.
  lemma ChunkedBodyIsJoined(cs: seq<Chunk>, last: string, slack: string, n: nat, cap: nat)
    requires ChunksOk(cs) && LineOk(last, 0) && 0 < cap && Fits(cs, cap)
    ensures var r := ChunkedBody(BodyText(cs, last) + slack, n, cap);
      && (r.At? && r.value == Joined(cs) <==> NoCr(cs) && Left(cs, last, n) > 0)
      && (NoCr(cs) ==> r == if Left(cs, last, n) > 0 then At(Joined(cs), CRLF + slack, Left(cs, last, n)) else Wait)
  {
    ChunkedBodyIs(cs, last, slack, n, cap);
    JoinedHasCr(cs);
    if NoCr(cs) {
      ChunksAssemble(cs, last, slack, n, cap, "");
      assert "" + Joined(cs) == Joined(cs);
    } else {
      AssembledHasNoCr(BodyText(cs, last) + slack, n, cap, "");
    }
  }

  // Three bytes of data, of which the second is a CR.
  lemma CrLost(slack: string, n: nat)
    ensures var cs := [Chunk("3", "a\rb")];
      var r := ChunkedBody(BodyText(cs, "0") + slack, n, 4096);
      ChunksOk(cs) && !(r.At? && r.value == Joined(cs))
  {
    var cs := [Chunk("3", "a\rb")];
    DigitLine("3", 3);
    DigitLine("0", 0);
    assert '\r' in cs[0].data;
    assert Joined(cs) == "a\rb" + "";
    ChunkedBodyIsJoined(cs, "0", slack, n, 4096);
  }

  lemma DigitLine(s: string, v: nat)
    requires |s| == 1 && IsDigit(s[0]) && v == s[0] as int - '0' as int
    ensures LineOk(s, v)
  {
    SpanIs(s, Space, 0);
    assert s[0..] == s;
    assert s[1..] == "" && HexValue(s, 0) == HexValue("", v);
  }

  // ---- Sizes as printf("%x") writes them.

  function HexChar(v: nat): char
    requires v < 16
  {
    if v < 10 then '0' + v as char else 'a' + (v - 10) as char
  }

  function Hex(n: nat): (s: string)
    ensures s != "" && forall i :: 0 <= i < |s| ==> IsHex(s[i])
  {
    if n < 16 then [HexChar(n)] else Hex(n / 16) + [HexChar(n % 16)]
  }

  lemma {:induction false} HexValueAppend(s: string, c: char, ext: string, v: nat)
    requires forall i :: 0 <= i < |s| ==> IsHex(s[i])
    requires IsHex(c) && (ext == "" || !IsHex(ext[0]))
    ensures HexValue(s + [c] + ext, v) == 16 * HexValue(s, v) + HexDigit(c)
    decreases |s|
  {
    if s == "" {
      assert [c] + ext == "" + [c] + ext && ([c] + ext)[1..] == ext;
    } else {
      assert (s + [c] + ext)[1..] == s[1..] + [c] + ext;
      HexValueAppend(s[1..], c, ext, 16 * v + HexDigit(s[0]));
    }
  }

  lemma {:induction false} HexTrip(n: nat, ext: string)
    requires ext == "" || !IsHex(ext[0])
    ensures HexValue(Hex(n) + ext, 0) == n
  {
    if n < 16 {
      HexValueAppend("", HexChar(n), ext, 0);
      assert Hex(n) + ext == "" + [HexChar(n)] + ext;
    } else {
      HexTrip(n / 16, "");
      assert Hex(n / 16) + "" == Hex(n / 16);
      HexValueAppend(Hex(n / 16), HexChar(n % 16), ext, 0);
    }
  }

  // A size line as servers write it, with any extension.
  lemma HexLineOk(n: nat, ext: string)
    requires n <= LONG_MAX && '\r' !in ext
    requires ext == "" || ext[0] == ';' || ext[0] == ' '
    ensures LineOk(Hex(n) + ext, n)
  {
    var s := Hex(n) + ext;
    HexTrip(n, ext);
    SpanIs(s, Space, 0);
    assert s[0..] == s && s[0] == Hex(n)[0];
    if |s| >= 2 && s[0] == '0' { NoX(n, ext); }
    assert !IsHex('\r') && '\r' !in Hex(n);
  }

  lemma NoX(n: nat, ext: string)
    requires ext == "" || ext[0] == ';' || ext[0] == ' '
    ensures var s := Hex(n) + ext; |s| >= 2 ==> s[1] != 'x' && s[1] != 'X'
  {
    var s := Hex(n) + ext;
    if |s| >= 2 && |Hex(n)| >= 2 { assert s[1] == Hex(n)[1] && IsHex(s[1]); }
  }
}
