/** What one call on the outgoing half answers and leaves behind, for every
    answer of the system (TCPSession.cc, TCPSession.h, TCPConn.cc). */
module OutgoingCalls {
  import opened Scan
  import opened Outgoing

  // ---- TCPConn::Write: the first answer that is no partial write decides.

  predicate AllWrote(script: seq<Sys>) { forall i :: 0 <= i < |script| ==> script[i].Wrote? }

  function WroteBytes(script: seq<Sys>): nat
    requires AllWrote(script)
  {
    if script == [] then 0 else script[0].n + WroteBytes(script[1..])
  }

  // Partial writes that do not finish, then nothing more.
  lemma {:induction false} SendRunsOut(script: seq<Sys>, blocking: bool, len: nat)
    requires AllWrote(script) && WroteBytes(script) < len
    ensures Send(script, blocking, len) == Sent(WroteBytes(script), blocking, [])
  {
    if script != [] { SendRunsOut(script[1..], blocking, len - script[0].n); }
  }

  // Partial writes that do not finish, then any answer: a failure is an error
  // on either socket, EAGAIN one on a blocking socket only; otherwise what is
  // left goes out, up to what was taken.
  lemma {:induction false} SendIs(first: seq<Sys>, a: Sys, more: seq<Sys>, blocking: bool, len: nat)
    requires AllWrote(first) && WroteBytes(first) < len
    ensures var s, r := WroteBytes(first), Send(first + ([a] + more), blocking, len);
      && ((a.Failed? || a.NoFile? || a.NoRead?) ==> r == Sent(s, true, more))
      && (a.Again? ==> r == Sent(s, blocking, more))
      && (a.WroteAll? || (a.Wrote? && s + a.n >= len) ==> r == Sent(len, false, more))
    decreases |first|
  {
    var script := first + ([a] + more);
    if first == [] {
      assert script == [a] + more && script[1..] == more;
    } else {
      SendIs(first[1..], a, more, blocking, len - first[0].n);
      assert script[0] == first[0] && script[1..] == first[1..] + ([a] + more);
    }
  }

  // ---- AddMsgBuf and AddMsgFile.

  lemma CStrEmpty(s: string)
    ensures CStr(s) != "" <==> s != "" && s[0] != '\0'
  {
  }

  // A message is queued, fresh and behind all others, exactly if its header
  // has a first character that is no NUL, whatever its body; else nothing
  // changes.
  lemma AddIs(st: Out, m: Msg)
    ensures m.hdr != "" && m.hdr[0] != '\0' ==> Add(st, m) == st.(queue := st.queue + [Item(m, 0, 0, false, 0, "")])
    ensures m.hdr == "" || m.hdr[0] == '\0' ==> Add(st, m) == st
    ensures m.hdr != "" && m.hdr[0] != '\0' <==> Add(st, m).queue == st.queue + [Fresh(m)]
  {
    CStrEmpty(m.hdr);
    assert |st.queue + [Fresh(m)]| == |st.queue| + 1;
  }

  // ---- PopOutgoingMsgQueue.

  // The front goes, sent or not, and counts as sent if as many of its bytes
  // are out as it has. The others stay.
  lemma PopIs(st: Out)
    requires Valid(st)
    ensures st.queue == [] ==> Pop(st) == st
    ensures st.queue != [] ==>
      var it := st.queue[0];
      Pop(st) == st.(queue := st.queue[1..], log := st.log + [Past(it, |it.sent| == |it.msg.hdr| + BodyLen(it.msg))])
  {
    if st.queue != [] {
      SentIsExact(st.queue[0]);
      SentCount(st.queue[0]);
    }
  }

  lemma SentCount(it: Item)
    requires ItemOk(it)
    ensures IsSent(it) <==> |it.sent| == |it.msg.hdr| + BodyLen(it.msg)
  {
  }

  // ---- Write.

  predicate Writes(st: Out) { FrontOk(st) && st.queue != [] && st.connected }

  lemma NothingToWrite(st: Out, script: seq<Sys>)
    requires st.queue == [] || !st.connected
    ensures FrontOk(st) ==> Write(st, script) == Reply(st, 0, true)
  {
  }

  // What a call that sends n bytes of a text leaves: they are on the wire, and
  // after an error every message is gone.
  ghost predicate Put(st: Out, r: Reply, bytes: string, n: nat, event: bool) {
    && n <= |bytes| && r.event == event && r.ret == (if event then 0 else n)
    && r.st.wire == st.wire + bytes[..n]
    && (if event then r.st.queue == [] && |r.st.log| == |st.log| + |st.queue|
        else r.st.log == st.log && |r.st.queue| == |st.queue| > 0 && r.st.queue[1..] == st.queue[1..])
  }

  lemma {:induction false} DroppedCount(q: seq<Item>)
    ensures |Dropped(q)| == |q|
  {
    if q != [] { DroppedCount(q[1..]); }
  }

  // Write, by what it makes of the front.
  lemma WriteFront(st: Out, script: seq<Sys>, bytes: string, n: nat)
    requires Writes(st)
    requires var it, s := st.queue[0], WriteItem(st.queue[0], script, st.blocking);
      n <= |bytes| && s.item.sent == it.sent + bytes[..n] && s.ret == if s.event then 0 else n
    ensures Put(st, Write(st, script), bytes, n, WriteItem(st.queue[0], script, st.blocking).event)
  {
    var it, s := st.queue[0], WriteItem(st.queue[0], script, st.blocking);
    WriteItemOk(it, script, st.blocking);
    var st1 := WithFront(st, s.item);
    assert s.item.sent[|it.sent|..] == bytes[..n];
    assert st1.queue[1..] == st.queue[1..];
    DroppedCount(st1.queue);
  }

  // The bytes of a message in memory, or of a header, that are not out yet.
  function Held(it: Item): string
    requires ItemOk(it)
  {
    if it.msg.MemMsg? then (it.msg.hdr + it.msg.body)[it.bufOff..] else it.msg.hdr[it.bufOff..]
  }

  lemma HeldSent(it: Item, end: nat, k: nat)
    requires ItemOk(it) && it.bufOff + k <= end && !it.open
    requires end == if it.msg.MemMsg? then Total(it.msg) else |it.msg.hdr|
    ensures k <= |Held(it)| && Text(it.msg)[it.bufOff..it.bufOff + k] == Held(it)[..k]
  {
  }

  // A message in memory: one call of TCPConn::Write on all that is left.
  lemma WriteMem(st: Out, script: seq<Sys>)
    requires Writes(st) && st.queue[0].msg.MemMsg?
    ensures var it := st.queue[0]; var r := Send(script, st.blocking, |Held(it)|);
      && Put(st, Write(st, script), Held(it), r.n, r.event)
      && (!r.event ==> Write(st, script).st.queue[0].bufOff == it.bufOff + r.n)
  {
    var it := st.queue[0];
    HeldSent(it, Total(it.msg), Send(script, st.blocking, |Held(it)|).n);
    WriteFront(st, script, Held(it), Send(script, st.blocking, |Held(it)|).n);
  }

  // The header of a file message that does not go out as a whole.
  lemma WriteHeader(st: Out, script: seq<Sys>)
    requires Writes(st) && st.queue[0].msg.FileMsg? && st.queue[0].bufOff < |st.queue[0].msg.hdr|
    requires var r := Send(script, st.blocking, |Held(st.queue[0])|); r.event || r.n < |Held(st.queue[0])|
    ensures var it := st.queue[0]; var r := Send(script, st.blocking, |Held(it)|);
      && Put(st, Write(st, script), Held(it), r.n, r.event)
      && (!r.event ==> Write(st, script).st.queue[0] == it.(bufOff := it.bufOff + r.n, sent := it.sent + Held(it)[..r.n]))
  {
    var it := st.queue[0];
    HeldSent(it, |it.msg.hdr|, Send(script, st.blocking, |Held(it)|).n);
    WriteFront(st, script, Held(it), Send(script, st.blocking, |Held(it)|).n);
  }

  // The next bytes of a file: 4096 of them, or as many as are left of the body
  // or of the file.
  function NextChunk(it: Item): string
    requires ItemOk(it) && it.msg.FileMsg?
  {
    var rest := it.msg.content[if it.open then it.cursor else it.fileOff..];
    var n := if it.msg.bodyLen - it.fileOff < 4096 then it.msg.bodyLen - it.fileOff else 4096;
    if n < |rest| then rest[..n] else rest
  }

  lemma NextChunkIs(it: Item)
    requires ItemOk(it) && it.msg.FileMsg? && (it.open || it.fileOff == 0)
    ensures ChunkAt(it) + ChunkLen(it) <= |it.msg.content|
    ensures NextChunk(it) == it.msg.content[ChunkAt(it)..ChunkAt(it) + ChunkLen(it)]
  {
  }

  // A chunk, once the header is out, if the file can be opened and read and is
  // not at its end: the file is read that far, whatever goes out.
  lemma WriteChunk(st: Out, script: seq<Sys>)
    requires Writes(st) && st.queue[0].msg.FileMsg? && st.queue[0].bufOff == |st.queue[0].msg.hdr|
    requires NextChunk(st.queue[0]) != "" && (script != [] ==> !script[0].NoFile? && !script[0].NoRead?)
    ensures var it := st.queue[0]; var c := NextChunk(it); var r := Send(script, st.blocking, |c|);
      && Put(st, Write(st, script), c, r.n, r.event)
      && (!r.event ==>
            var it' := Write(st, script).st.queue[0];
            it'.open && it'.fileOff == it.fileOff + r.n && it'.cursor == (if it.open then it.cursor else it.fileOff) + |c|)
  {
    var it := st.queue[0];
    NextChunkStep(it, script, st.blocking);
    WriteFront(st, script, NextChunk(it), Send(script, st.blocking, |NextChunk(it)|).n);
  }

  lemma NextChunkStep(it: Item, script: seq<Sys>, blocking: bool)
    requires ItemOk(it) && it.msg.FileMsg? && it.bufOff == |it.msg.hdr|
    requires NextChunk(it) != "" && (script != [] ==> !script[0].NoFile? && !script[0].NoRead?)
    ensures var c := NextChunk(it); var r, s := Send(script, blocking, |c|), WriteItem(it, script, blocking);
      && s.event == r.event && s.ret == (if r.event then 0 else r.n) && s.item.sent == it.sent + c[..r.n]
      && (!r.event ==>
            && s.item.open && s.item.fileOff == it.fileOff + r.n
            && s.item.cursor == (if it.open then it.cursor else it.fileOff) + |c|)
  {
    NextChunkIs(it);
    var r, at := Send(script, blocking, |NextChunk(it)|), ChunkAt(it);
    assert it.msg.content[at..at + r.n] == NextChunk(it)[..r.n];
  }

  // A file that cannot be opened or read, or is at its end too early.
  lemma WriteNoChunk(st: Out, script: seq<Sys>)
    requires Writes(st) && st.queue[0].msg.FileMsg? && st.queue[0].bufOff == |st.queue[0].msg.hdr|
    requires NextChunk(st.queue[0]) == "" || (script != [] && ((script[0].NoFile? && !st.queue[0].open) || script[0].NoRead?))
    ensures Put(st, Write(st, script), "", 0, true)
  {
    var it := st.queue[0];
    NextChunkIs(it);
    assert it.sent + ""[..0] == it.sent;
    WriteFront(st, script, "", 0);
  }

  // The file was opened, but nothing is read.
  predicate Unread(it: Item, script: seq<Sys>)
    requires ItemOk(it) && it.msg.FileMsg?
  {
    if script == [] then NextChunk(it) == "" else !script[0].NoFile? && (NextChunk(it) == "" || script[0].NoRead?)
  }

  // A header that goes out as a whole, and then what comes of the file. The
  // header's bytes are answered only if the file cannot be read.
  lemma WriteBoth(st: Out, script: seq<Sys>)
    requires Writes(st) && st.queue[0].msg.FileMsg? && st.queue[0].bufOff < |st.queue[0].msg.hdr|
    requires var r := Send(script, st.blocking, |Held(st.queue[0])|); !r.event && r.n == |Held(st.queue[0])|
    ensures var it := st.queue[0]; var rest := Send(script, st.blocking, |Held(it)|).rest;
      var st1 := WithFront(st, it.(bufOff := |it.msg.hdr|, sent := it.msg.hdr));
      var r, r1 := Write(st, script), Write(st1, rest);
      && Writes(st1) && st1.wire == st.wire + Held(it)
      && r.st == r1.st && r.event == r1.event
      && r.ret == if Unread(st1.queue[0], rest) then |Held(it)| else r1.ret
  {
    var it, rest := st.queue[0], Send(script, st.blocking, |Held(st.queue[0])|).rest;
    var whole := it.(bufOff := |it.msg.hdr|, sent := it.msg.hdr);
    BothStep(it, whole, script, rest, st.blocking);
    var s := WriteItem(it, script, st.blocking);
    WriteItemOk(it, script, st.blocking);
    WriteItemOk(whole, rest, st.blocking);
    assert it.msg.hdr[|it.sent|..] == Held(it);
    SentCat(st.wire, it.sent, it.msg.hdr, s.item.sent);
    assert WithFront(st, s.item) == WithFront(WithFront(st, whole), s.item);
  }

  lemma BothStep(it: Item, whole: Item, script: seq<Sys>, rest: seq<Sys>, blocking: bool)
    requires ItemOk(it) && it.msg.FileMsg? && it.bufOff < |it.msg.hdr|
    requires whole == it.(bufOff := |it.msg.hdr|, sent := it.msg.hdr)
    requires Send(script, blocking, |Held(it)|) == Sent(|Held(it)|, false, rest)
    ensures ItemOk(whole)
    ensures var s, s1 := WriteItem(it, script, blocking), WriteItem(whole, rest, blocking);
      s.item == s1.item && s.event == s1.event && s.ret == if Unread(whole, rest) then |Held(it)| else s1.ret
  {
    HeldSent(it, |it.msg.hdr|, |Held(it)|);
    assert it.sent + Held(it) == it.msg.hdr;
    NextChunkIs(whole);
    assert SendBuf(it, script, blocking, |it.msg.hdr|) == Step(whole, rest, |Held(it)|, false);
    assert WriteItem(it, script, blocking) == SendChunk(whole, rest, blocking, |Held(it)|);
  }

  lemma SentCat(wire: string, a: string, b: string, c: string)
    requires a <= b <= c
    ensures wire + c[|a|..] == wire + b[|a|..] + c[|b|..]
  {
    assert c[|a|..] == b[|a|..] + c[|b|..];
  }

  // What is written first: all that is left in memory of the front, or a chunk.
  function First(it: Item): string
    requires ItemOk(it)
  {
    if it.msg.FileMsg? && it.bufOff == |it.msg.hdr| then NextChunk(it) else Held(it)
  }

  // A write(2) that fails, after others that took part of what is written
  // first: nothing is returned, an error is set and the queue is empty, but
  // the bytes that went out are on the wire.
  lemma FailedWrite(st: Out, first: seq<Sys>, a: Sys, more: seq<Sys>)
    requires Writes(st) && AllWrote(first) && WroteBytes(first) < |First(st.queue[0])|
    requires a.Failed? || (a.Again? && st.blocking)
    ensures var s, r := WroteBytes(first), Write(st, first + ([a] + more));
      && r.ret == 0 && r.event && r.st.queue == []
      && r.st.wire == st.wire + First(st.queue[0])[..s]
  {
    var it, script := st.queue[0], first + ([a] + more);
    SendIs(first, a, more, st.blocking, |First(it)|);
    assert script[0] == if first == [] then a else first[0];
    if it.msg.MemMsg? {
      WriteMem(st, script);
    } else if it.bufOff < |it.msg.hdr| {
      WriteHeader(st, script);
    } else {
      WriteChunk(st, script);
    }
  }

  // A socket that is not ready is no error if it does not block: what was taken
  // is returned, and every message stays.
  lemma NotReadyWrite(st: Out, first: seq<Sys>, more: seq<Sys>)
    requires Writes(st) && !st.blocking && AllWrote(first) && WroteBytes(first) < |First(st.queue[0])|
    ensures var s, r := WroteBytes(first), Write(st, first + ([Again] + more));
      && r.ret == s && !r.event && |r.st.queue| == |st.queue|
      && r.st.wire == st.wire + First(st.queue[0])[..s]
  {
    var it, script := st.queue[0], first + ([Again] + more);
    SendIs(first, Again, more, st.blocking, |First(it)|);
    assert script[0] == if first == [] then Again else first[0];
    if it.msg.MemMsg? {
      WriteMem(st, script);
    } else if it.bufOff < |it.msg.hdr| {
      WriteHeader(st, script);
    } else {
      WriteChunk(st, script);
    }
  }
}
