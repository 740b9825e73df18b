/** The outgoing half of TCPSession on its own fields, kept in step with the
    queue of messages they stand for (TCPSession.cc, TCPConn.cc). */
module OutgoingSession {
  import opened Scan
  import opened Buffers
  import opened Outgoing
  import opened OutgoingDrain
  import opened OutgoingCalls
  import opened OutgoingFields

  class TCPSession {
    var wbuf: array<char>
    var wbufLen: nat
    var wpending: seq<MsgInfo>
    var wfiles: seq<File>
    const blocking: bool
    const connected: bool
    // The socket: every byte it took.
    var wire: string
    // The messages behind the fields.
    ghost var st: Out

    ghost predicate Linked(q: seq<Item>)
      reads this, wbuf
    {
      && wbufLen <= wbuf.Length && wbuf[..wbufLen] == Layout(q)
      && wpending == Infos(q) && wfiles == Files(q)
    }

    ghost predicate Valid()
      reads this, wbuf
    {
      && Linked(st.queue) && wire == st.wire
      && st.blocking == blocking && st.connected == connected
      && Outgoing.Valid(st)
    }

    constructor (blocking: bool, connected: bool)
      ensures Valid() && fresh(wbuf) && st == Opened(blocking, connected)
    {
      this.blocking := blocking;
      this.connected := connected;
      wbuf := new char[DEFAULT_BUF_SIZE];
      wbufLen := 0;
      wpending := [];
      wfiles := [];
      wire := "";
      st := Opened(blocking, connected);
    }

    // One write(2) that takes the bytes from i up to j.
    method Took(buf: array<char>, from: nat, i: nat, j: nat, ghost start: string)
      requires from <= i <= j <= buf.Length && wire == start + buf[from..i]
      modifies this`wire
      ensures wire == start + buf[from..j]
    {
      wire := wire + buf[i..j];
      assert buf[from..i] + buf[i..j] == buf[from..j];
      CatAssoc(start, buf[from..i], buf[i..j]);
    }

    // The answers of write(2) until everything is out or the socket is not
    // ready; all is what Send makes of them.
    method WriteLoop(buf: array<char>, from: nat, len: nat, script: seq<Sys>, ghost start: string) returns (n: nat, event: bool, rest: seq<Sys>)
      requires from + len <= buf.Length && wire == start + buf[from..from]
      modifies this`wire
      ensures Send(script, blocking, len) == Sent(n, event, rest) && wire == start + buf[from..from + n]
    {
      rest, n := script, 0;
      while true
        invariant n <= len && wire == start + buf[from..from + n]
        invariant var r := Send(rest, blocking, len - n); Send(script, blocking, len) == Sent(n + r.n, r.event, r.rest)
        decreases |rest|
      {
        if rest == [] { return n, blocking, rest; }
        var answer := rest[0];
        rest := rest[1..];
        if answer.Fails() || answer.Again? { return n, answer.Fails() || blocking, rest; }
        var took := if answer.Wrote? && answer.n < len - n then answer.n else len - n;
        Took(buf, from, from + n, from + n + took, start);
        n := n + took;
        if n == len { return n, false, rest; }
      }
    }

    // TCPConn::Write
    method ConnWrite(buf: array<char>, from: nat, len: nat, script: seq<Sys>) returns (n: nat, event: bool, rest: seq<Sys>)
      requires from + len <= buf.Length
      modifies this`wire
      ensures var r := Send(script, blocking, len);
        && event == r.event && rest == r.rest && n == (if r.event then 0 else r.n)
        && wire == old(wire) + buf[from..from + r.n]
    {
      assert wire == wire + buf[from..from];
      n, event, rest := WriteLoop(buf, from, len, script, wire);
      if event { n := 0; }
    }

    // Room for n more bytes in the buffer.
    method Reserve(n: nat)
      requires wbufLen <= wbuf.Length
      modifies this`wbuf
      ensures wbufLen + n <= wbuf.Length && (wbuf == old(wbuf) || fresh(wbuf))
      ensures wbuf[..wbufLen] == old(wbuf[..wbufLen])
    {
      if wbufLen + n > wbuf.Length {
        var p := new char[n + wbufLen + DEFAULT_BUF_SIZE];
        forall i | 0 <= i < wbufLen { p[i] := wbuf[i]; }
        wbuf := p;
      }
    }

    // memcpy to the end of the buffer.
    method Install(text: string)
      requires wbufLen + |text| <= wbuf.Length
      modifies this`wbufLen, wbuf
      ensures wbufLen == old(wbufLen) + |text|
      ensures wbuf[..wbufLen] == old(wbuf[..wbufLen]) + text
    {
      forall i | 0 <= i < |text| { wbuf[wbufLen + i] := text[i]; }
      wbufLen := wbufLen + |text|;
    }

    // Both at the end of the buffer, which grows if it must.
    method Hold(hdr: string, body: string)
      requires wbufLen <= wbuf.Length
      modifies this`wbuf, this`wbufLen, wbuf
      ensures wbufLen <= wbuf.Length && (wbuf == old(wbuf) || fresh(wbuf))
      ensures wbuf[..wbufLen] == old(wbuf[..wbufLen]) + (hdr + body)
    {
      Reserve(|hdr| + |body|);
      ghost var was := wbuf[..wbufLen];
      Install(hdr);
      Install(body);
      CatAssoc(was, hdr, body);
    }

    method AddMsgBuf(hdr: string, body: string) returns (ok: bool)
      requires Valid()
      modifies this, wbuf
      ensures Valid() && (wbuf == old(wbuf) || fresh(wbuf))
      ensures ok == Accepts(MemMsg(hdr, body)) && st == Add(old(st), MemMsg(hdr, body))
      ensures ok <==> hdr != "" && hdr[0] != '\0'
      ensures st.queue == old(st.queue) + if ok then [Item(MemMsg(hdr, body), 0, 0, false, 0, "")] else []
    {
      AddIs(st, MemMsg(hdr, body));
      if CStr(hdr) == "" { return false; }
      ghost var m := MemMsg(hdr, body);
      Hold(hdr, body);
      wpending := wpending + [MsgInfo(false, |hdr|, |body|, 0, 0)];
      Appended(st.queue, m);
      AddKeeps(st, m);
      st := Add(st, m);
      ok := true;
    }

    // Header, meta-data and file at the ends of the three fields.
    method PutFile(hdr: string, content: string, bodyLen: nat, ghost q: seq<Item>)
      requires Linked(q)
      modifies this`wbuf, this`wbufLen, this`wpending, this`wfiles, wbuf
      ensures Linked(q + [Fresh(FileMsg(hdr, content, bodyLen))]) && (wbuf == old(wbuf) || fresh(wbuf))
    {
      AppendedFile(q, hdr, content, bodyLen);
      Hold(hdr, "");
      wpending := wpending + [MsgInfo(true, |hdr|, bodyLen, 0, 0)];
      wfiles := wfiles + [File(content, false, 0)];
    }

    method AddMsgFile(hdr: string, content: string, bodyLen: nat) returns (ok: bool)
      requires Valid()
      modifies this, wbuf
      ensures Valid() && (wbuf == old(wbuf) || fresh(wbuf))
      ensures ok == Accepts(FileMsg(hdr, content, bodyLen)) && st == Add(old(st), FileMsg(hdr, content, bodyLen))
      ensures ok <==> hdr != "" && hdr[0] != '\0'
      ensures st.queue == old(st.queue) + if ok then [Item(FileMsg(hdr, content, bodyLen), 0, 0, false, 0, "")] else []
    {
      AddIs(st, FileMsg(hdr, content, bodyLen));
      if CStr(hdr) == "" { return false; }
      AddKeeps(st, FileMsg(hdr, content, bodyLen));
      PutFile(hdr, content, bodyLen, st.queue);
      st := Add(st, FileMsg(hdr, content, bodyLen));
      ok := true;
    }

    // From the front message's offset up to end.
    method SendHeld(end: nat, script: seq<Sys>) returns (n: nat, event: bool, rest: seq<Sys>)
      requires wpending != [] && wpending[0].bufOffset <= end <= wbuf.Length
      modifies this`wpending, this`wire
      ensures var m := old(wpending[0]);
        var r := Send(script, blocking, end - m.bufOffset);
        && n == (if r.event then 0 else r.n) && event == r.event && rest == r.rest
        && wire == old(wire) + wbuf[m.bufOffset..m.bufOffset + r.n]
        && wpending == old(wpending)[0 := m.(bufOffset := m.bufOffset + n)]
    {
      var m := wpending[0];
      n, event, rest := ConnWrite(wbuf, m.bufOffset, end - m.bufOffset, script);
      if !event {
        wpending := wpending[0 := m.(bufOffset := m.bufOffset + n)];
      }
    }

    // The same, for a message whose bytes are there.
    method SendItem(end: nat, script: seq<Sys>, ghost it: Item) returns (n: nat, event: bool, rest: seq<Sys>)
      requires wpending != [] && wpending[0] == Info(it) && it.bufOff <= end <= |Text(it.msg)|
      requires end <= wbuf.Length && wbuf[it.bufOff..end] == Text(it.msg)[it.bufOff..end]
      modifies this`wpending, this`wire
      ensures var s := SendBuf(it, script, blocking, end);
        && n == s.ret && event == s.event && rest == s.script
        && wire == old(wire) + s.item.sent[|it.sent|..]
        && wpending == old(wpending)[0 := Info(s.item)]
    {
      HeldItem(it, script, blocking, end);
      SubSlice(wbuf, Text(it.msg), it.bufOff, end, Send(script, blocking, end - it.bufOff).n);
      n, event, rest := SendHeld(end, script);
    }

    // The same, for the queue that the fields stand for.
    method SendFront(end: nat, script: seq<Sys>, ghost q: seq<Item>) returns (n: nat, event: bool, rest: seq<Sys>)
      requires Linked(q) && q != [] && q[0].bufOff <= end <= |Packed(q[0].msg)|
      modifies this`wpending, this`wire
      ensures var s := SendBuf(q[0], script, blocking, end);
        && n == s.ret && event == s.event && rest == s.script
        && wire == old(wire) + s.item.sent[|q[0].sent|..]
        && Linked([s.item] + q[1..])
    {
      FrontInfo(q);
      HeldIsText(wbuf[..wbufLen], q, q[0].bufOff, end);
      SliceOf(wbuf, wbufLen, q[0].bufOff, end);
      FrontFields(q, SendBuf(q[0], script, blocking, end).item);
      n, event, rest := SendItem(end, script, q[0]);
    }

    // A chunk of the front file goes out; the cursor moves by what was read,
    // the offset by what was taken.
    method SendPart(f: File, got: nat, script: seq<Sys>) returns (n: nat, event: bool)
      requires wpending != [] && wfiles != [] && f.cursor + got <= |f.content|
      modifies this`wpending, this`wfiles, this`wire
      ensures var r, m := Send(script, blocking, got), old(wpending[0]);
        && event == r.event && n == (if r.event then 0 else r.n)
        && wire == old(wire) + f.content[f.cursor..f.cursor + r.n]
        && wpending == old(wpending)[0 := m.(fileOffset := m.fileOffset + n)]
        && wfiles == if event then old(wfiles) else old(wfiles)[0 := f.(cursor := f.cursor + got)]
    {
      n, event := SendRead(f, got, script);
      if !event {
        wfiles := wfiles[0 := f.(cursor := f.cursor + got)];
        wpending := wpending[0 := wpending[0].(fileOffset := wpending[0].fileOffset + n)];
      }
    }

    // The next chunk of an open file is read and sent; with none there, the
    // read is an error.
    method SendNext(f: File, ret: nat, script: seq<Sys>) returns (n: nat, event: bool)
      requires wpending != [] && wfiles != [] && f.cursor <= |f.content| && wpending[0].fileOffset <= wpending[0].bodyLen
      modifies this`wpending, this`wfiles, this`wire
      ensures var m, got := old(wpending[0]), Upto(f, old(wpending[0]));
        var r := Send(script, blocking, got);
        if got == 0 then
          n == ret && event && wire == old(wire) && wpending == old(wpending) && wfiles == old(wfiles)
        else
          && event == r.event && n == (if r.event then 0 else r.n)
          && wire == old(wire) + f.content[f.cursor..f.cursor + r.n]
          && wpending == old(wpending)[0 := m.(fileOffset := m.fileOffset + n)]
          && wfiles == if event then old(wfiles) else old(wfiles)[0 := f.(cursor := f.cursor + got)]
    {
      var got := NextRead(f, wpending[0]);
      if got == 0 { return ret, true; }
      n, event := SendPart(f, got, script);
    }

    // The same, for the message it belongs to.
    method SendOpen(f: File, ret: nat, script: seq<Sys>, ghost it: Item) returns (n: nat, event: bool)
      requires wpending != [] && wfiles != [] && it.msg.FileMsg? && it.fileOff <= it.msg.bodyLen
      requires wpending[0] == Info(it) && wfiles[0] == FileOf(it) && ChunkAt(it) <= |it.msg.content|
      requires f == File(it.msg.content, true, ChunkAt(it))
      requires script != [] ==> !script[0].NoRead? && (script[0].NoFile? ==> it.open)
      modifies this`wpending, this`wfiles, this`wire
      ensures var s := SendChunk(it, script, blocking, ret);
        && n == s.ret && event == s.event
        && wire == old(wire) + s.item.sent[|it.sent|..]
        && wpending == old(wpending)[0 := Info(s.item)] && wfiles == old(wfiles)[0 := FileOf(s.item)]
    {
      ChunkFields(it, script, blocking, ret, f, Upto(f, Info(it)), wpending, wfiles);
      n, event := SendNext(f, ret, script);
    }

    // The next chunk of the front file is read from where it stands, and sent,
    // unless the file cannot be opened or read.
    method SendChunkOf(ret: nat, script: seq<Sys>, ghost it: Item) returns (n: nat, event: bool)
      requires wpending != [] && wfiles != [] && it.msg.FileMsg? && it.fileOff <= it.msg.bodyLen
      requires wpending[0] == Info(it) && wfiles[0] == FileOf(it) && ChunkAt(it) <= |it.msg.content|
      modifies this`wpending, this`wfiles, this`wire
      ensures var s := SendChunk(it, script, blocking, ret);
        && n == s.ret && event == s.event
        && wire == old(wire) + s.item.sent[|it.sent|..]
        && wpending == old(wpending)[0 := Info(s.item)] && wfiles == old(wfiles)[0 := FileOf(s.item)]
    {
      var m, f := wpending[0], wfiles[0];
      assert wire + it.sent[|it.sent|..] == wire;
      if !f.open {
        if script != [] && script[0].NoFile? { return 0, true; }
        f := f.(open := true, cursor := m.fileOffset);
      }
      if script != [] && script[0].NoRead? { return ret, true; }
      n, event := SendOpen(f, ret, script, it);
    }

    // How many bytes read(2) will bring.
    method NextRead(f: File, m: MsgInfo) returns (got: nat)
      requires f.cursor <= |f.content| && m.fileOffset <= m.bodyLen
      ensures got == Upto(f, m)
    {
      var amount := if FILE_CHUNK_SIZE < m.bodyLen - m.fileOffset then FILE_CHUNK_SIZE else m.bodyLen - m.fileOffset;
      got := if amount < |f.content| - f.cursor then amount else |f.content| - f.cursor;
    }

    method SendFile(ret: nat, script: seq<Sys>, ghost q: seq<Item>) returns (n: nat, event: bool)
      requires Linked(q) && q != [] && q[0].msg.FileMsg? && q[0].fileOff <= q[0].msg.bodyLen
      requires ChunkAt(q[0]) <= |q[0].msg.content|
      modifies this`wpending, this`wfiles, this`wire
      ensures var s := SendChunk(q[0], script, blocking, ret);
        && n == s.ret && event == s.event
        && wire == old(wire) + s.item.sent[|q[0].sent|..]
        && Linked([s.item] + q[1..])
    {
      FrontFields(q, SendChunk(q[0], script, blocking, ret).item);
      n, event := SendChunkOf(ret, script, q[0]);
    }

    // The next bytes of a file, read into a buffer and written out.
    method SendRead(f: File, got: nat, script: seq<Sys>) returns (n: nat, event: bool)
      requires f.cursor + got <= |f.content|
      modifies this`wire
      ensures var r := Send(script, blocking, got);
        && event == r.event && n == (if r.event then 0 else r.n)
        && wire == old(wire) + f.content[f.cursor..f.cursor + r.n]
    {
      var tmp := new char[got](i requires 0 <= i < got => f.content[f.cursor + i]);
      ghost var r := Send(script, blocking, got);
      assert tmp[0..r.n] == f.content[f.cursor..f.cursor + r.n];
      var rest;
      n, event, rest := ConnWrite(tmp, 0, got, script);
    }

    // A header that is out, then a chunk of the file.
    method WriteFile(script: seq<Sys>, ghost q: seq<Item>) returns (ret: nat, event: bool)
      requires Linked(q) && q != [] && ItemOk(q[0]) && q[0].msg.FileMsg?
      modifies this`wpending, this`wfiles, this`wire
      ensures var s := WriteItem(q[0], script, blocking);
        && ret == s.ret && event == s.event && q[0].sent <= s.item.sent
        && wire == old(wire) + s.item.sent[|q[0].sent|..]
        && Linked([s.item] + q[1..])
    {
      ghost var it, w := q[0], wire;
      FrontHeld(q);
      WriteItemOk(it, script, blocking);
      var rest := script;
      ret := 0;
      ghost var q1 := q;
      if wpending[0].bufOffset < wpending[0].hdrLen {
        SendBufOk(it, script, blocking, |it.msg.hdr|);
        ghost var h := SendBuf(it, script, blocking, |it.msg.hdr|);
        ret, event, rest := SendFront(wpending[0].hdrLen, script, q);
        q1 := [h.item] + q[1..];
        FrontHeld(q1);
        if event || wpending[0].bufOffset < wpending[0].hdrLen { return; }
        ChunkStep(h.item, rest, blocking, ret);
        ghost var s := SendChunk(h.item, rest, blocking, ret);
        Gained(w, it.sent, h.item.sent, s.item.sent);
      }
      ret, event := SendFile(ret, rest, q1);
      assert q1[1..] == q[1..];
    }

    // Header and body together.
    method WriteMem(script: seq<Sys>, ghost q: seq<Item>) returns (ret: nat, event: bool)
      requires Linked(q) && q != [] && ItemOk(q[0]) && q[0].msg.MemMsg?
      modifies this`wpending, this`wire
      ensures var s := SendBuf(q[0], script, blocking, Total(q[0].msg));
        && ret == s.ret && event == s.event
        && wire == old(wire) + s.item.sent[|q[0].sent|..]
        && Linked([s.item] + q[1..])
    {
      FrontInfo(q);
      var rest;
      ret, event, rest := SendFront(wpending[0].hdrLen + wpending[0].bodyLen, script, q);
    }

    method WriteFront(script: seq<Sys>, ghost q: seq<Item>) returns (ret: nat, event: bool)
      requires Linked(q) && q != [] && ItemOk(q[0])
      modifies this`wpending, this`wfiles, this`wire
      ensures var s := WriteItem(q[0], script, blocking);
        && ret == s.ret && event == s.event && q[0].sent <= s.item.sent
        && wire == old(wire) + s.item.sent[|q[0].sent|..]
        && Linked([s.item] + q[1..])
    {
      FrontInfo(q);
      WriteItemOk(q[0], script, blocking);
      if wpending[0].onDisc {
        ret, event := WriteFile(script, q);
      } else {
        ret, event := WriteMem(script, q);
      }
    }

    method Write(script: seq<Sys>) returns (ret: nat, event: bool)
      requires Valid()
      modifies this
      ensures Valid() && wbuf == old(wbuf)
      ensures var r := Outgoing.Write(old(st), script); st == r.st && ret == r.ret && event == r.event
    {
      if |wpending| == 0 || !connected { return 0, true; }
      ghost var s := WriteItem(st.queue[0], script, blocking);
      WriteKeeps(st, script);
      ret, event := WriteFront(script, st.queue);
      st := WithFront(st, s.item);
      if event { ResetWbuf(); }
    }

    method ResetWbuf()
      requires Outgoing.Valid(Reset(st)) && wire == st.wire
      requires st.blocking == blocking && st.connected == connected
      modifies this
      ensures Valid() && st == Reset(old(st)) && wbuf == old(wbuf)
    {
      wbufLen := 0;
      wfiles := [];
      wpending := [];
      st := Reset(st);
    }

    // memmove the bytes from k on to the front.
    method MoveDown(k: nat)
      requires k <= wbufLen <= wbuf.Length
      modifies this`wbufLen, wbuf
      ensures wbufLen == old(wbufLen) - k
      ensures wbuf[..wbufLen] == old(wbuf[k..wbufLen])
    {
      forall i | 0 <= i < wbufLen - k { wbuf[i] := wbuf[i + k]; }
      wbufLen := wbufLen - k;
    }

    // The front leaves the three fields.
    method DropFront(ghost q: seq<Item>)
      requires Linked(q) && q != []
      modifies this`wbufLen, this`wpending, this`wfiles, wbuf
      ensures Linked(q[1..])
    {
      FrontDropped(q);
      var m := wpending[0];
      var k := m.hdrLen + if m.onDisc then 0 else m.bodyLen;
      SliceOf(wbuf, wbufLen, k, wbufLen);
      MoveDown(k);
      if m.onDisc { wfiles := wfiles[1..]; }
      wpending := wpending[1..];
    }

    method PopOutgoingMsgQueue() returns (event: bool)
      requires Valid()
      modifies this, wbuf
      ensures Valid() && wbuf == old(wbuf)
      ensures event == (old(st).queue == []) && st == Pop(old(st))
    {
      if |wpending| == 0 { return true; }
      PopKeeps(st);
      DropFront(st.queue);
      st := Pop(st);
      event := false;
    }

    method IsOutgoingMsgSent() returns (r: bool)
      requires Valid()
      ensures r == MsgSent(st)
    {
      r := |wpending| > 0 &&
           (wpending[0].bufOffset >= wpending[0].hdrLen + wpending[0].bodyLen ||
            wpending[0].fileOffset + wpending[0].bufOffset >= wpending[0].hdrLen + wpending[0].bodyLen);
    }

    method IsOutgoingDataPending() returns (ready: bool)
      requires Valid()
      ensures ready == DataPending(st.queue)
      ensures ready == (Unsent(st.queue) > 0)
    {
      ready := false;
      var i := 0;
      InfosPending(st.queue);
      StateTests(st);
      while i < |wpending| && !ready
        invariant i <= |wpending|
        invariant !ready ==> forall j :: 0 <= j < i ==> !Waiting(st.queue[j])
        invariant ready ==> i < |wpending| && Waiting(st.queue[i])
        decreases |wpending| - i, !ready
      {
        var m := wpending[i];
        InfosAt(st.queue, i);
        if (!m.onDisc && m.bufOffset < m.hdrLen + m.bodyLen) ||
           (m.onDisc && (m.bufOffset < m.hdrLen || m.fileOffset < m.bodyLen))
        {
          ready := true;
        } else {
          i := i + 1;
        }
      }
    }
  }
}
