/** The three fields a TCPSession keeps its outgoing messages in: one buffer for
    every header and in-memory body, a queue of offsets and a list of files.
    Nothing in them says which belongs to which; this is what they hold for a
    queue of messages (TCPSession.cc). */
module OutgoingFields {
  import opened Scan
  import opened Outgoing

  datatype MsgInfo = MsgInfo(onDisc: bool, hdrLen: nat, bodyLen: nat, bufOffset: nat, fileOffset: nat)

  datatype File = File(content: string, open: bool, cursor: nat)

  // ---- What the three fields hold for a queue of messages.

  // The part of a message that is kept in memory.
  function Packed(m: Msg): string { if m.MemMsg? then m.hdr + m.body else m.hdr }

  function Layout(q: seq<Item>): string {
    if q == [] then "" else Packed(q[0].msg) + Layout(q[1..])
  }

  function Info(it: Item): MsgInfo {
    MsgInfo(it.msg.FileMsg?, |it.msg.hdr|, BodyLen(it.msg), it.bufOff, it.fileOff)
  }

  function Infos(q: seq<Item>): (r: seq<MsgInfo>)
    ensures |r| == |q|
  {
    if q == [] then [] else [Info(q[0])] + Infos(q[1..])
  }

  function Kept(it: Item): seq<File> {
    if it.msg.MemMsg? then [] else [File(it.msg.content, it.open, it.cursor)]
  }

  function Files(q: seq<Item>): seq<File> {
    if q == [] then [] else Kept(q[0]) + Files(q[1..])
  }

  lemma {:induction false} LayoutAppend(q: seq<Item>, it: Item)
    ensures Layout(q + [it]) == Layout(q) + Packed(it.msg)
  {
    if q != [] {
      LayoutAppend(q[1..], it);
      assert (q + [it])[1..] == q[1..] + [it];
      CatAssoc(Packed(q[0].msg), Layout(q[1..]), Packed(it.msg));
    }
  }

  lemma {:induction false} InfosAppend(q: seq<Item>, it: Item)
    ensures Infos(q + [it]) == Infos(q) + [Info(it)]
  {
    if q != [] {
      InfosAppend(q[1..], it);
      assert (q + [it])[1..] == q[1..] + [it];
    }
  }

  lemma {:induction false} FilesAppend(q: seq<Item>, it: Item)
    ensures Files(q + [it]) == Files(q) + Kept(it)
  {
    if q != [] {
      FilesAppend(q[1..], it);
      assert (q + [it])[1..] == q[1..] + [it];
    }
  }

  // Replacing the front by another state of the same message.
  lemma FrontLayout(q: seq<Item>, it: Item)
    requires q != [] && it.msg == q[0].msg
    ensures Layout([it] + q[1..]) == Layout(q)
  {
    assert ([it] + q[1..])[1..] == q[1..];
  }

  lemma FrontInfos(q: seq<Item>, it: Item)
    requires q != []
    ensures Infos([it] + q[1..]) == Infos(q)[0 := Info(it)]
  {
    assert ([it] + q[1..])[1..] == q[1..];
  }

  lemma FrontFiles(q: seq<Item>, it: Item)
    requires q != []
    ensures Files([it] + q[1..]) == Kept(it) + Files(q[1..])
  {
    assert ([it] + q[1..])[1..] == q[1..];
  }

  // The bytes of the front message that are in memory start the buffer.
  lemma HeldIsText(held: string, q: seq<Item>, i: nat, j: nat)
    requires held == Layout(q) && q != [] && i <= j <= |Packed(q[0].msg)|
    ensures j <= |held| && held[i..j] == Text(q[0].msg)[i..j]
  {
  }

  lemma {:induction false} InfosPending(q: seq<Item>)
    ensures DataPending(q) <==> exists i :: 0 <= i < |q| && Waiting(q[i])
  {
    if q != [] {
      InfosPending(q[1..]);
      if i :| 0 <= i < |q| && Waiting(q[i]) {
        if i > 0 { assert q[1..][i - 1] == q[i]; }
      }
    }
  }

  lemma {:induction false} InfosAt(q: seq<Item>, i: nat)
    requires i < |q|
    ensures Infos(q)[i] == Info(q[i])
  {
    if i > 0 { InfosAt(q[1..], i - 1); }
  }

  // ---- The link between the three fields: what the offsets that can be
  // worked out from wpending alone point to.

  function HeldBytes(w: seq<MsgInfo>): nat {
    if w == [] then 0 else w[0].hdrLen + (if w[0].onDisc then 0 else w[0].bodyLen) + HeldBytes(w[1..])
  }

  function OnDisc(w: seq<MsgInfo>): nat {
    if w == [] then 0 else (if w[0].onDisc then 1 else 0) + OnDisc(w[1..])
  }

  lemma {:induction false} SumsMatch(q: seq<Item>)
    ensures HeldBytes(Infos(q)) == |Layout(q)| && OnDisc(Infos(q)) == |Files(q)|
  {
    if q != [] {
      SumsMatch(q[1..]);
      assert Infos(q)[1..] == Infos(q[1..]);
    }
  }

  predicate TextThere(q: seq<Item>, i: nat, at: nat)
    requires i < |q|
  {
    var text := Packed(q[i].msg);
    at + |text| <= |Layout(q)| && Layout(q)[at..at + |text|] == text
  }

  lemma TextFirst(q: seq<Item>)
    requires q != []
    ensures HeldBytes(Infos(q)[..0]) == 0 && TextThere(q, 0, 0)
  {
  }

  lemma TextNext(q: seq<Item>, i: nat, at: nat)
    requires i + 1 < |q| && TextThere(q[1..], i, at)
    ensures TextThere(q, i + 1, |Packed(q[0].msg)| + at)
  {
    LinkedText(Packed(q[0].msg), Layout(q[1..]), at, |Packed(q[i + 1].msg)|);
  }

  lemma {:induction false} TextAt(q: seq<Item>, i: nat)
    requires i < |q|
    ensures TextThere(q, i, HeldBytes(Infos(q)[..i]))
    decreases |q|, 1
  {
    if i == 0 { TextFirst(q); } else { TextLater(q, i); }
  }

  lemma {:induction false} TextLater(q: seq<Item>, i: nat)
    requires 0 < i < |q|
    ensures TextThere(q, i, HeldBytes(Infos(q)[..i]))
    decreases |q|, 0
  {
    TextAt(q[1..], i - 1);
    HeadOfPrefix(q, i);
    TextStep(q, i, HeldBytes(Infos(q[1..])[..i - 1]), HeldBytes(Infos(q)[..i]));
  }

  lemma TextStep(q: seq<Item>, i: nat, at: nat, at': nat)
    requires 0 < i < |q| && TextThere(q[1..], i - 1, at) && at' == |Packed(q[0].msg)| + at
    ensures TextThere(q, i, at')
  {
    TextNext(q, i - 1, at);
  }

  lemma {:induction false} FileAt(q: seq<Item>, i: nat)
    requires i < |q| && q[i].msg.FileMsg?
    ensures var k := OnDisc(Infos(q)[..i]); k < |Files(q)| && Files(q)[k] == FileOf(q[i])
  {
    if i > 0 {
      FileAt(q[1..], i - 1);
      HeadOfPrefix(q, i);
    }
  }

  // The i-th message's header and in-memory body start where the lengths
  // before it add up to, and its file is the one with as many before it.
  lemma LinkedAt(q: seq<Item>, i: nat)
    requires i < |q|
    ensures TextThere(q, i, HeldBytes(Infos(q)[..i]))
    ensures q[i].msg.FileMsg? ==>
      var k := OnDisc(Infos(q)[..i]); k < |Files(q)| && Files(q)[k] == FileOf(q[i])
  {
    TextAt(q, i);
    if q[i].msg.FileMsg? { FileAt(q, i); }
  }

  lemma HeadOfPrefix(q: seq<Item>, i: nat)
    requires 0 < i < |q|
    ensures HeldBytes(Infos(q)[..i]) == |Packed(q[0].msg)| + HeldBytes(Infos(q[1..])[..i - 1])
    ensures OnDisc(Infos(q)[..i]) == |Kept(q[0])| + OnDisc(Infos(q[1..])[..i - 1])
  {
    var w := Infos(q)[..i];
    assert w[0] == Info(q[0]) && w[1..] == Infos(q[1..])[..i - 1];
  }

  lemma LinkedText(a: string, b: string, at: nat, n: nat)
    requires at + n <= |b|
    ensures (a + b)[|a| + at..|a| + at + n] == b[at..at + n]
  {
  }

  lemma Appended(q: seq<Item>, m: Msg)
    ensures var q1 := q + [Fresh(m)];
      && Layout(q1) == Layout(q) + Packed(m)
      && Infos(q1) == Infos(q) + [Info(Fresh(m))]
      && Files(q1) == Files(q) + Kept(Fresh(m))
  {
    LayoutAppend(q, Fresh(m));
    InfosAppend(q, Fresh(m));
    FilesAppend(q, Fresh(m));
  }

  lemma AppendedFile(q: seq<Item>, hdr: string, content: string, bodyLen: nat)
    ensures var q1 := q + [Fresh(FileMsg(hdr, content, bodyLen))];
      && Layout(q1) == Layout(q) + (hdr + "")
      && Infos(q1) == Infos(q) + [MsgInfo(true, |hdr|, bodyLen, 0, 0)]
      && Files(q1) == Files(q) + [File(content, false, 0)]
  {
    Appended(q, FileMsg(hdr, content, bodyLen));
    assert hdr + "" == hdr;
  }

  // What writing from memory changes in the front message.
  lemma HeldItem(it: Item, script: seq<Sys>, blocking: bool, end: nat)
    requires it.bufOff <= end <= |Text(it.msg)|
    ensures var s, r := SendBuf(it, script, blocking, end), Send(script, blocking, end - it.bufOff);
      && s.item.sent[|it.sent|..] == Text(it.msg)[it.bufOff..it.bufOff + r.n]
      && s.event == r.event && s.script == r.rest && s.ret == (if r.event then 0 else r.n)
      && Info(s.item) == Info(it).(bufOffset := it.bufOff + s.ret)
  {
  }

  lemma FrontHeld(q: seq<Item>)
    requires q != []
    ensures |Packed(q[0].msg)| <= |Layout(q)| && Layout(q)[|Packed(q[0].msg)|..] == Layout(q[1..])
    ensures Infos(q)[0] == Info(q[0]) && Infos(q)[1..] == Infos(q[1..])
    ensures Files(q)[|Kept(q[0])|..] == Files(q[1..])
    ensures q[0].msg.FileMsg? ==> Files(q) != [] && Files(q)[0] == Kept(q[0])[0]
  {
  }

  lemma LayoutDropped(q: seq<Item>)
    requires q != []
    ensures var m := Info(q[0]);
      var k := m.hdrLen + if m.onDisc then 0 else m.bodyLen;
      k <= |Layout(q)| && Layout(q)[k..] == Layout(q[1..])
  {
    assert |Packed(q[0].msg)| == |q[0].msg.hdr| + if q[0].msg.MemMsg? then |q[0].msg.body| else 0;
  }

  lemma FilesDropped(q: seq<Item>)
    requires q != []
    ensures if q[0].msg.FileMsg? then Files(q) != [] && Files(q)[1..] == Files(q[1..]) else Files(q) == Files(q[1..])
  {
  }

  // The fields without the front, by what wpending says of it.
  lemma FrontDropped(q: seq<Item>)
    requires q != []
    ensures var m := Infos(q)[0];
      var k := m.hdrLen + if m.onDisc then 0 else m.bodyLen;
      && k <= |Layout(q)| && Layout(q)[k..] == Layout(q[1..])
      && Infos(q)[1..] == Infos(q[1..])
      && (if m.onDisc then Files(q) != [] && Files(q)[1..] == Files(q[1..]) else Files(q) == Files(q[1..]))
  {
    assert Infos(q)[0] == Info(q[0]) && Infos(q)[1..] == Infos(q[1..]);
    LayoutDropped(q);
    FilesDropped(q);
  }

  // The fields of a queue whose front moved on.
  lemma FrontFields(q: seq<Item>, it: Item)
    requires q != [] && it.msg == q[0].msg
    ensures var q1 := [it] + q[1..];
      && Infos(q)[0] == Info(q[0]) && Layout(q1) == Layout(q)
      && Infos(q1) == Infos(q)[0 := Info(it)]
      && (q[0].msg.MemMsg? || (it.open == q[0].open && it.cursor == q[0].cursor) ==> Files(q1) == Files(q))
      && (q[0].msg.FileMsg? ==>
            Files(q) != [] && Files(q)[0] == FileOf(q[0]) && Files(q1) == Files(q)[0 := FileOf(it)])
  {
    FrontHeld(q);
    FrontLayout(q, it);
    FrontInfos(q, it);
    FrontFiles(q, it);
  }

  function FileOf(it: Item): File
    requires it.msg.FileMsg?
  {
    File(it.msg.content, it.open, it.cursor)
  }

  // The same for the fields: what the two sequences become.
  lemma ChunkFields(it: Item, script: seq<Sys>, blocking: bool, ret: nat, f: File, got: nat, ps: seq<MsgInfo>, fs: seq<File>)
    requires it.msg.FileMsg? && it.fileOff <= it.msg.bodyLen && ChunkAt(it) <= |it.msg.content|
    requires f == File(it.msg.content, true, ChunkAt(it)) && got == Upto(f, Info(it))
    requires script != [] ==> !script[0].NoRead? && (script[0].NoFile? ==> it.open)
    requires ps != [] && fs != [] && ps[0] == Info(it) && fs[0] == FileOf(it)
    ensures var s, r := SendChunk(it, script, blocking, ret), Send(script, blocking, got);
      if got == 0 then
        && s.ret == ret && s.event && s.item.sent[|it.sent|..] == ""
        && ps == ps[0 := Info(s.item)] && fs == fs[0 := FileOf(s.item)]
      else
        && s.ret == (if r.event then 0 else r.n) && s.event == r.event
        && s.item.sent[|it.sent|..] == f.content[f.cursor..f.cursor + r.n]
        && ps[0 := ps[0].(fileOffset := ps[0].fileOffset + s.ret)] == ps[0 := Info(s.item)]
        && (if r.event then fs else fs[0 := f.(cursor := f.cursor + got)]) == fs[0 := FileOf(s.item)]
  {
    ChunkItem(it, script, blocking, ret, f, got);
  }

  lemma FrontInfo(q: seq<Item>)
    requires q != []
    ensures Infos(q)[0] == Info(q[0])
    ensures q[0].msg.MemMsg? ==> |Packed(q[0].msg)| == Total(q[0].msg)
  {
  }

  // The bytes a read brings from an open file.
  function Upto(f: File, m: MsgInfo): nat
    requires f.cursor <= |f.content| && m.fileOffset <= m.bodyLen
  {
    var left := m.bodyLen - m.fileOffset;
    var amount := if FILE_CHUNK_SIZE < left then FILE_CHUNK_SIZE else left;
    if amount < |f.content| - f.cursor then amount else |f.content| - f.cursor
  }

  // What sending the next chunk changes in the front message.
  lemma ChunkItem(it: Item, script: seq<Sys>, blocking: bool, ret: nat, f: File, got: nat)
    requires it.msg.FileMsg? && it.fileOff <= it.msg.bodyLen && ChunkAt(it) <= |it.msg.content|
    requires f == File(it.msg.content, true, ChunkAt(it)) && got == Upto(f, Info(it))
    requires script != [] ==> !script[0].NoRead? && (script[0].NoFile? ==> it.open)
    ensures var s, r := SendChunk(it, script, blocking, ret), Send(script, blocking, got);
      if got == 0 then s == Step(it, script, ret, true)
      else
        && s.ret == (if r.event then 0 else r.n) && s.event == r.event
        && s.item.sent[|it.sent|..] == f.content[f.cursor..f.cursor + r.n]
        && Info(s.item) == Info(it).(fileOffset := it.fileOff + s.ret)
        && FileOf(s.item) == if r.event then FileOf(it) else f.(cursor := f.cursor + got)
  {
  }

  lemma SubSlice(a: array<char>, t: string, i: nat, j: nat, k: nat)
    requires i <= j <= a.Length && j <= |t| && a[i..j] == t[i..j] && i + k <= j
    ensures a[i..i + k] == t[i..i + k]
  {
    assert a[i..i + k] == a[i..j][..k] && t[i..i + k] == t[i..j][..k];
  }

  lemma SliceOf(a: array<char>, n: nat, i: nat, j: nat)
    requires i <= j <= n <= a.Length
    ensures a[..n][i..j] == a[i..j]
  {
  }

  lemma Gained(w: string, a: string, b: string, c: string)
    requires a <= b <= c
    ensures (w + b[|a|..]) + c[|b|..] == w + c[|a|..]
  {
    assert b[|a|..] + c[|b|..] == c[|a|..];
    CatAssoc(w, b[|a|..], c[|b|..]);
  }
}
