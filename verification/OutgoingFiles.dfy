/** When a message whose body is a file can be sent, fall behind its file, or
    count as sent with bytes left out (TCPSession.cc). */
module OutgoingFiles {
  import opened Scan
  import opened Outgoing
  import opened OutgoingRun

  // ---- What every run keeps of a file at the front: it is open once the
  // header is out, and it is only opened if there is something to send.

  predicate Reached(it: Item) {
    it.msg.FileMsg? && it.msg.hdr != "" ==>
      if it.open then it.msg.bodyLen > 0 && it.msg.content != "" else it.bufOff < |it.msg.hdr|
  }

  lemma WriteReached(it: Item, script: seq<Sys>, blocking: bool)
    requires ItemOk(it) && Reached(it)
    ensures var s := WriteItem(it, script, blocking); !s.event ==> Reached(s.item)
  {
  }

  // A file message that counts as sent had a body that its file could fill.
  predicate Fillable(it: Item) {
    it.msg.FileMsg? && it.msg.hdr != "" ==>
      0 < it.msg.bodyLen <= |it.msg.content| && (Gap(it) ==> it.msg.bodyLen < |it.msg.content|)
  }

  lemma SentFillable(it: Item)
    requires ItemOk(it) && Reached(it) && IsSent(it)
    ensures Fillable(it)
  {
  }

  predicate Sound(st: Out) {
    && (st.queue != [] ==> Reached(st.queue[0]))
    && (forall i :: 0 <= i < |st.log| && st.log[i].complete ==> Fillable(st.log[i].item))
  }

  lemma {:induction false} DroppedIncomplete(q: seq<Item>)
    ensures forall i :: 0 <= i < |Dropped(q)| ==> !Dropped(q)[i].complete
  {
    if q != [] { DroppedIncomplete(q[1..]); }
  }

  lemma DoSound(st: Out, op: Op)
    requires Valid(st) && Sound(st)
    ensures Sound(Do(st, op))
  {
    if st.queue != [] {
      match op
      case AddOp(m) =>
      case WriteOp(script) =>
        if st.connected {
          var s := WriteItem(st.queue[0], script, st.blocking);
          WriteItemOk(st.queue[0], script, st.blocking);
          WriteReached(st.queue[0], script, st.blocking);
          DroppedIncomplete([s.item] + st.queue[1..]);
        }
      case PopOp =>
        if IsSent(st.queue[0]) { SentFillable(st.queue[0]); }
        if |st.queue| > 1 { assert st.queue[1..][0] == Fresh(st.queue[1..][0].msg); }
    }
  }

  lemma {:induction false} RunSound(st: Out, ops: seq<Op>)
    requires Valid(st) && Sound(st)
    ensures Sound(Run(st, ops))
    decreases |ops|
  {
    if ops != [] {
      DoKeeps(st, ops[0]);
      DoSound(st, ops[0]);
      RunSound(Do(st, ops[0]), ops[1..]);
    }
  }

  // ---- Runs that send one message.

  // The session with this message alone.
  function Alone(it: Item, blocking: bool): Out { Out([it], [], blocking, true, it.sent) }

  lemma AloneValid(it: Item, blocking: bool)
    requires ItemOk(it)
    ensures Valid(Alone(it, blocking))
  {
    assert "" + it.sent == it.sent;
  }

  lemma RunStep(st: Out, ops: seq<Op>)
    requires Valid(st) && ops != []
    ensures Valid(Do(st, ops[0])) && Run(st, ops) == Run(Do(st, ops[0]), ops[1..])
  {
    DoKeeps(st, ops[0]);
  }

  lemma {:induction false} RunCat(st: Out, a: seq<Op>, b: seq<Op>)
    requires Valid(st)
    ensures Run(st, a + b) == Run(Run(st, a), b)
    decreases |a|
  {
    if a == [] {
      assert a + b == b;
    } else {
      RunStep(st, a);
      RunStep(st, a + b);
      RunCat(Do(st, a[0]), a[1..], b);
      assert (a + b)[0] == a[0] && (a + b)[1..] == a[1..] + b;
    }
  }

  lemma AloneWrite(it: Item, script: seq<Sys>, blocking: bool)
    requires ItemOk(it) && !WriteItem(it, script, blocking).event
    ensures var s := WriteItem(it, script, blocking);
      ItemOk(s.item) && Valid(Alone(it, blocking)) && Do(Alone(it, blocking), WriteOp(script)) == Alone(s.item, blocking)
  {
    var s := WriteItem(it, script, blocking);
    WriteItemOk(it, script, blocking);
    AloneValid(it, blocking);
    assert it.sent + s.item.sent[|it.sent|..] == s.item.sent;
    assert [s.item] + [it][1..] == [s.item];
  }

  // Header and chunk are taken whole.
  const WHOLE: Op := WriteOp([WroteAll, WroteAll])

  // From a file that is open on, whole chunks finish the message, and leave
  // the cursor as far ahead of the offset as it was.
  lemma {:induction false} Finish(it: Item, blocking: bool) returns (ops: seq<Op>, last: Item)
    requires ItemOk(it) && it.msg.FileMsg? && it.open
    requires it.cursor + (it.msg.bodyLen - it.fileOff) <= |it.msg.content|
    ensures Valid(Alone(it, blocking)) && Run(Alone(it, blocking), ops) == Alone(last, blocking)
    ensures ItemOk(last) && last.msg == it.msg && IsSent(last) && (Gap(last) <==> Gap(it))
    decreases it.msg.bodyLen - it.fileOff
  {
    AloneValid(it, blocking);
    if it.fileOff == it.msg.bodyLen {
      ops, last := [], it;
    } else {
      var s := WriteItem(it, WHOLE.script, blocking);
      var n := ChunkLen(it);
      assert s.item == it.(cursor := it.cursor + n, fileOff := it.fileOff + n, sent := s.item.sent) && !s.event;
      AloneWrite(it, WHOLE.script, blocking);
      var more;
      more, last := Finish(s.item, blocking);
      ops := [WHOLE] + more;
      assert ops[1..] == more;
    }
  }

  // The first write: the header, and the first chunk but for its last bytes.
  lemma Start(m: Msg, script: seq<Sys>, blocking: bool, short: nat) returns (it: Item)
    requires m.FileMsg? && m.hdr != "" && m.bodyLen > 0 && m.content != "" && short <= 1
    requires var head := Item(m, |m.hdr|, 0, false, 0, m.hdr);
      script == if short == 0 then WHOLE.script else [WroteAll, Wrote(ChunkLen(head) - 1)]
    requires short == 1 ==> !blocking
    ensures ItemOk(it) && it.msg == m && it.open && it.cursor == it.fileOff + short && it.cursor <= m.bodyLen
    ensures Valid(Alone(Fresh(m), blocking)) && Do(Alone(Fresh(m), blocking), WriteOp(script)) == Alone(it, blocking)
  {
    var head := Item(m, |m.hdr|, 0, false, 0, m.hdr);
    var n := ChunkLen(head);
    FreshOk(m);
    assert "" + Text(m)[0..|m.hdr|] == m.hdr;
    assert SendBuf(Fresh(m), script, blocking, |m.hdr|) == Step(head, script[1..], |m.hdr|, false);
    if short == 1 { assert Send(script[1..], false, n) == Sent(n - 1, false, []); }
    var s := SendChunk(head, script[1..], blocking, |m.hdr|);
    assert WriteItem(Fresh(m), script, blocking) == s && !s.event;
    AloneWrite(Fresh(m), script, blocking);
    it := s.item;
  }

  // ---- Exactly when.

  predicate SentIn(st: Out, m: Msg) {
    exists i :: 0 <= i < |st.log| && st.log[i].item.msg == m && st.log[i].complete
  }

  // It counted as sent while its file had been read further than it was sent.
  predicate SkippedIn(st: Out, m: Msg) {
    exists i :: 0 <= i < |st.log| && st.log[i].item.msg == m && st.log[i].complete && Gap(st.log[i].item)
  }

  predicate BehindIn(st: Out, m: Msg) {
    st.queue != [] && st.queue[0].msg == m && Gap(st.queue[0])
  }

  // The message is added, and written to once.
  lemma Begun(m: Msg, script: seq<Sys>, blocking: bool, it: Item)
    requires Accepts(m) && ItemOk(it)
    requires Valid(Alone(Fresh(m), blocking)) && Do(Alone(Fresh(m), blocking), WriteOp(script)) == Alone(it, blocking)
    ensures Run(Opened(blocking, true), [AddOp(m), WriteOp(script)]) == Alone(it, blocking)
  {
    var ops := [AddOp(m), WriteOp(script)];
    RunStep(Opened(blocking, true), ops);
    assert Do(Opened(blocking, true), AddOp(m)) == Alone(Fresh(m), blocking);
    assert ops[1..] == [WriteOp(script)] && ops[1..][1..] == [];
    AloneValid(it, blocking);
    RunStep(Alone(Fresh(m), blocking), ops[1..]);
  }

  lemma Ended(st: Out, last: Item, blocking: bool)
    requires Valid(st) && st == Alone(last, blocking)
    ensures Run(st, [PopOp]).log == [Past(last, IsSent(last))]
  {
    RunStep(st, [PopOp]);
    assert [PopOp][1..] == [];
  }

  lemma HdrNotEmpty(m: Msg)
    requires Accepts(m)
    ensures m.hdr != ""
  {
  }

  // The first write of a run: whole, or short of one byte.
  function First(m: Msg, short: nat): seq<Sys>
    requires m.FileMsg?
  {
    if short == 0 then WHOLE.script else
      var n := ChunkLen(Item(m, |m.hdr|, 0, false, 0, m.hdr));
      [WroteAll, Wrote(if n > 0 then n - 1 else 0)]
  }

  lemma BegunWith(m: Msg, blocking: bool, short: nat) returns (it: Item)
    requires m.FileMsg? && Accepts(m) && m.bodyLen > 0 && m.content != "" && short <= 1 && (short == 1 ==> !blocking)
    ensures ItemOk(it) && it.msg == m && it.open && it.cursor == it.fileOff + short && it.cursor <= m.bodyLen
    ensures Run(Opened(blocking, true), [AddOp(m), WriteOp(First(m, short))]) == Alone(it, blocking)
  {
    HdrNotEmpty(m);
    it := Start(m, First(m, short), blocking, short);
    Begun(m, First(m, short), blocking, it);
  }

  // A run that sends the message, its file read ahead by short bytes.
  lemma Sends(m: Msg, blocking: bool, short: nat) returns (ops: seq<Op>, last: Item)
    requires m.FileMsg? && Accepts(m) && short <= 1 && (short == 1 ==> !blocking)
    requires 0 < m.bodyLen && m.bodyLen + short <= |m.content|
    ensures last.msg == m && (Gap(last) <==> short == 1)
    ensures Run(Opened(blocking, true), ops).log == [Past(last, true)]
  {
    var start := [AddOp(m), WriteOp(First(m, short))];
    var it := BegunWith(m, blocking, short);
    var more;
    more, last := Finish(it, blocking);
    RunCat(Opened(blocking, true), start, more);
    RunCat(Opened(blocking, true), start + more, [PopOp]);
    Ended(Run(Opened(blocking, true), start + more), last, blocking);
    ops := start + more + [PopOp];
  }

  lemma SoundFromStart(blocking: bool, ops: seq<Op>)
    ensures Sound(Run(Opened(blocking, true), ops))
    ensures blocking ==> Whole(Run(Opened(blocking, true), ops))
  {
    RunSound(Opened(blocking, true), ops);
    if blocking { BlockingIsWhole(Opened(blocking, true), ops); }
  }

  // A file message can be sent exactly when it has a body and its file is long
  // enough for it.
  lemma SentIff(m: Msg, blocking: bool)
    requires m.FileMsg? && Accepts(m)
    ensures (exists ops :: SentIn(Run(Opened(blocking, true), ops), m)) <==> 0 < m.bodyLen <= |m.content|
  {
    HdrNotEmpty(m);
    forall ops | SentIn(Run(Opened(blocking, true), ops), m) ensures 0 < m.bodyLen <= |m.content| {
      SoundFromStart(blocking, ops);
    }
    if 0 < m.bodyLen <= |m.content| {
      var ops, last := Sends(m, blocking, 0);
      assert Run(Opened(blocking, true), ops).log[0] == Past(last, true);
    }
  }

  // It can count as sent with bytes left out and others from past its end in
  // their place, exactly on a non-blocking socket, for a longer file.
  lemma SkippedIff(m: Msg, blocking: bool)
    requires m.FileMsg? && Accepts(m)
    ensures (exists ops :: SkippedIn(Run(Opened(blocking, true), ops), m)) <==> !blocking && 0 < m.bodyLen < |m.content|
  {
    HdrNotEmpty(m);
    forall ops | SkippedIn(Run(Opened(blocking, true), ops), m) ensures !blocking && 0 < m.bodyLen < |m.content| {
      SoundFromStart(blocking, ops);
    }
    if !blocking && 0 < m.bodyLen < |m.content| {
      var ops, last := Sends(m, blocking, 1);
      assert Run(Opened(blocking, true), ops).log[0] == Past(last, true);
    }
  }

  // It can fall behind its file exactly on a non-blocking socket, if there is
  // something to send; also a file that fits, which then is never sent.
  lemma BehindIff(m: Msg, blocking: bool)
    requires m.FileMsg? && Accepts(m)
    ensures (exists ops :: BehindIn(Run(Opened(blocking, true), ops), m)) <==> !blocking && 0 < m.bodyLen && m.content != ""
  {
    HdrNotEmpty(m);
    forall ops | BehindIn(Run(Opened(blocking, true), ops), m) ensures !blocking && 0 < m.bodyLen && m.content != "" {
      SoundFromStart(blocking, ops);
    }
    if !blocking && 0 < m.bodyLen && m.content != "" {
      var it := BegunWith(m, blocking, 1);
      assert BehindIn(Run(Opened(blocking, true), [AddOp(m), WriteOp(First(m, 1))]), m);
    }
  }
}
