/** The loop that empties the outgoing queue: write until the front is sent,
    pop it, go on (TCPSession.cc, TCPSession.h). */
module OutgoingDrain {
  import opened Scan
  import opened Outgoing
  import opened OutgoingRun

  // ---- Bytes not yet sent.

  function Left(it: Item): nat {
    if it.bufOff + it.fileOff < Total(it.msg) then Total(it.msg) - it.bufOff - it.fileOff else 0
  }

  function Unsent(q: seq<Item>): nat {
    if q == [] then 0 else Left(q[0]) + Unsent(q[1..])
  }

  lemma {:induction false} PendingIsUnsent(q: seq<Item>)
    requires forall i :: 0 <= i < |q| ==> ItemOk(q[i])
    ensures DataPending(q) <==> Unsent(q) > 0
  {
    if q != [] { PendingIsUnsent(q[1..]); }
  }

  // In every state a run can reach, IsOutgoingDataPending says whether bytes
  // are left to send, and IsOutgoingMsgSent whether none is left of the front.
  lemma StateTests(st: Out)
    requires Valid(st)
    ensures DataPending(st.queue) <==> Unsent(st.queue) > 0
    ensures MsgSent(st) <==> st.queue != [] && |FrontBytes(st.queue)| == Total(st.queue[0].msg)
    ensures MsgSent(st) ==> Left(st.queue[0]) == 0
  {
    forall i | 0 <= i < |st.queue| ensures ItemOk(st.queue[i]) {
      if i > 0 {
        assert st.queue[i] == st.queue[1..][i - 1];
        FreshOk(st.queue[i].msg);
      }
    }
    PendingIsUnsent(st.queue);
    if st.queue != [] { SentIsExact(st.queue[0]); }
  }

  // ---- Sockets that make progress.

  predicate Moves(a: Sys) { a.WroteAll? || (a.Wrote? && a.n > 0) }

  // Takes something before it is not ready, and does not fail.
  predicate Live(script: seq<Sys>) {
    script != [] && Moves(script[0]) && forall i :: 0 <= i < |script| ==> !script[i].Fails()
  }

  // Never stalls before len bytes: every answer is at least one byte.
  predicate Steady(script: seq<Sys>, len: nat) {
    |script| >= len && forall i :: 0 <= i < |script| ==> Moves(script[i])
  }

  lemma {:induction false} NoFailure(script: seq<Sys>, len: nat)
    requires forall i :: 0 <= i < |script| ==> !script[i].Fails()
    ensures !Send(script, false, len).event
    decreases |script|
  {
    if script != [] && script[0].Wrote? && script[0].n < len {
      NoFailure(script[1..], len - script[0].n);
    }
  }

  lemma LiveSends(script: seq<Sys>, len: nat)
    requires Live(script) && len > 0
    ensures var r := Send(script, false, len); r.n > 0 && !r.event
  {
    NoFailure(script, len);
  }

  lemma {:induction false} SteadySends(script: seq<Sys>, blocking: bool, len: nat, more: nat)
    requires Steady(script, len + more) && len > 0
    ensures var r := Send(script, blocking, len);
      r.n == len && !r.event && Steady(r.rest, more)
    decreases |script|
  {
    if script[0].Wrote? && script[0].n < len {
      SteadySends(script[1..], blocking, len - script[0].n, more);
    }
  }

  // ---- One turn of the loop.

  // A file has a body, and is at least as long as it was said to be.
  predicate Sendable(m: Msg) { m.FileMsg? ==> 0 < m.bodyLen <= |m.content| }

  // Some of the bytes go out, and nothing fails.
  predicate TakesSome(r: Sent) { !r.event && r.n > 0 }

  predicate TakesAll(r: Sent, len: nat) { !r.event && r.n == len }

  // What the socket must do for a write on this message to get further: take
  // some of what is in the buffer, and a chunk of a file as a whole, once its
  // header is out.
  predicate Willing(script: seq<Sys>, blocking: bool, it: Item)
    requires ItemOk(it)
  {
    if it.msg.MemMsg? then TakesSome(Send(script, blocking, Total(it.msg) - it.bufOff))
    else if it.bufOff == |it.msg.hdr| then TakesAll(Send(script, blocking, ChunkLen(it)), ChunkLen(it))
    else
      var r := Send(script, blocking, |it.msg.hdr| - it.bufOff);
      TakesSome(r) && (r.n == |it.msg.hdr| - it.bufOff ==> TakesAll(Send(r.rest, blocking, ChunkLen(it)), ChunkLen(it)))
  }

  // It gets further, does not fail and does not fall behind a file.
  predicate Advances(it: Item, s: Step) {
    !s.event && !Gap(s.item) && Left(s.item) < Left(it)
  }

  lemma ChunkAdvances(it: Item, script: seq<Sys>, blocking: bool, ret: nat)
    requires ItemOk(it) && it.msg.FileMsg? && it.bufOff == |it.msg.hdr| && it.fileOff < it.msg.bodyLen
    requires !Gap(it) && Sendable(it.msg)
    ensures Advances(it, SendChunk(it, script, blocking, ret))
      <==> TakesAll(Send(script, blocking, ChunkLen(it)), ChunkLen(it))
  {
  }

  // The header does not go out as a whole.
  lemma HeaderPart(it: Item, script: seq<Sys>, blocking: bool)
    requires ItemOk(it) && it.msg.FileMsg? && it.bufOff < |it.msg.hdr|
    requires var r := Send(script, blocking, |it.msg.hdr| - it.bufOff); r.event || r.n < |it.msg.hdr| - it.bufOff
    ensures Advances(it, WriteItem(it, script, blocking)) <==> TakesSome(Send(script, blocking, |it.msg.hdr| - it.bufOff))
  {
  }

  // It does, and a chunk follows.
  lemma HeaderWhole(it: Item, script: seq<Sys>, blocking: bool)
    requires ItemOk(it) && it.msg.FileMsg? && it.bufOff < |it.msg.hdr| && Sendable(it.msg)
    requires TakesAll(Send(script, blocking, |it.msg.hdr| - it.bufOff), |it.msg.hdr| - it.bufOff)
    ensures Advances(it, WriteItem(it, script, blocking))
      <==> TakesAll(Send(Send(script, blocking, |it.msg.hdr| - it.bufOff).rest, blocking, ChunkLen(it)), ChunkLen(it))
  {
    var h := SendBuf(it, script, blocking, |it.msg.hdr|);
    SendBufOk(it, script, blocking, |it.msg.hdr|);
    ChunkAdvances(h.item, h.script, blocking, h.ret);
    ChunkFollows(it, script, blocking);
  }

  lemma ChunkFollows(it: Item, script: seq<Sys>, blocking: bool)
    requires ItemOk(it) && it.msg.FileMsg? && it.bufOff < |it.msg.hdr|
    requires TakesAll(Send(script, blocking, |it.msg.hdr| - it.bufOff), |it.msg.hdr| - it.bufOff)
    ensures var h := SendBuf(it, script, blocking, |it.msg.hdr|);
      && h.item.bufOff == |it.msg.hdr| && h.script == Send(script, blocking, |it.msg.hdr| - it.bufOff).rest
      && WriteItem(it, script, blocking) == SendChunk(h.item, h.script, blocking, h.ret)
  {
  }

  lemma HeaderAdvances(it: Item, script: seq<Sys>, blocking: bool)
    requires ItemOk(it) && it.msg.FileMsg? && it.bufOff < |it.msg.hdr| && Sendable(it.msg)
    ensures Advances(it, WriteItem(it, script, blocking)) <==> Willing(script, blocking, it)
  {
    if TakesAll(Send(script, blocking, |it.msg.hdr| - it.bufOff), |it.msg.hdr| - it.bufOff) {
      HeaderWhole(it, script, blocking);
    } else {
      HeaderPart(it, script, blocking);
    }
  }

  // The condition is exact.
  lemma WillingIff(it: Item, script: seq<Sys>, blocking: bool)
    requires ItemOk(it) && !IsSent(it) && !Gap(it) && Sendable(it.msg)
    ensures Advances(it, WriteItem(it, script, blocking)) <==> Willing(script, blocking, it)
  {
    if it.msg.FileMsg? {
      if it.bufOff < |it.msg.hdr| {
        HeaderAdvances(it, script, blocking);
      } else {
        ChunkAdvances(it, script, blocking, 0);
      }
    }
  }

  // A socket that never stalls is willing, and without blocking so is one that
  // takes anything of what is in memory, up to the last byte of a header.
  lemma SteadyIsWilling(it: Item, script: seq<Sys>, blocking: bool)
    requires ItemOk(it) && !IsSent(it) && !Gap(it) && Sendable(it.msg)
    requires Steady(script, |it.msg.hdr| + if it.msg.MemMsg? then |it.msg.body| else FILE_CHUNK_SIZE)
    ensures Willing(script, blocking, it)
  {
    if it.msg.MemMsg? {
      SteadySends(script, blocking, Total(it.msg) - it.bufOff, 0);
    } else {
      var len, n := |it.msg.hdr| - it.bufOff, ChunkLen(it);
      if len > 0 {
        SteadySends(script, blocking, len, n);
        SteadySends(Send(script, blocking, len).rest, blocking, n, 0);
      } else {
        SteadySends(script, blocking, n, 0);
      }
    }
  }

  lemma LiveIsWilling(it: Item, script: seq<Sys>)
    requires ItemOk(it) && !IsSent(it) && Live(script)
    requires it.msg.FileMsg? ==> Send(script, false, |it.msg.hdr| - it.bufOff).n < |it.msg.hdr| - it.bufOff
    ensures Willing(script, false, it)
  {
    LiveSends(script, if it.msg.MemMsg? then Total(it.msg) - it.bufOff else |it.msg.hdr| - it.bufOff);
  }

  function Turn(st: Out, script: seq<Sys>): (r: Out)
    requires Valid(st)
    ensures Valid(r)
  {
    if MsgSent(st) then PopKeeps(st); Pop(st)
    else if st.queue == [] then st
    else WriteKeeps(st, script); Write(st, script).st
  }

  predicate Ready(st: Out) {
    && st.connected && (st.queue != [] ==> !Gap(st.queue[0]))
    && AllSent(st.log)
    && (forall i :: 0 <= i < |st.log| ==> Fits(st.log[i].item.msg) || !Gap(st.log[i].item))
    && (forall i :: 0 <= i < |st.queue| ==> Sendable(st.queue[i].msg))
  }

  function Measure(st: Out): nat { Unsent(st.queue) + |st.queue| }

  lemma WriteTurn(st: Out, script: seq<Sys>)
    requires Valid(st) && Ready(st) && st.queue != [] && !MsgSent(st)
    requires Willing(script, st.blocking, st.queue[0])
    ensures var r := Write(st, script).st;
      Ready(r) && Measure(r) < Measure(st) && Taken(r) == Taken(st)
  {
    var it := st.queue[0];
    var s := WriteItem(it, script, st.blocking);
    WriteKeeps(st, script);
    WriteItemOk(it, script, st.blocking);
    WillingIff(it, script, st.blocking);
    assert ([s.item] + st.queue[1..])[1..] == st.queue[1..];
  }

  lemma TurnProgress(st: Out, script: seq<Sys>)
    requires Valid(st) && Ready(st) && st.queue != []
    requires MsgSent(st) || Willing(script, st.blocking, st.queue[0])
    ensures var r := Turn(st, script);
      Ready(r) && Measure(r) < Measure(st) && Taken(r) == Taken(st)
  {
    if MsgSent(st) {
      PopKeeps(st);
      if |st.queue| > 1 { assert st.queue[1..][0] == Fresh(st.queue[1..][0].msg); }
    } else {
      WriteTurn(st, script);
    }
  }

  // ---- The loop.

  // One answer script for each turn.
  function Drain(st: Out, scripts: seq<seq<Sys>>): (r: Out)
    requires Valid(st)
    ensures Valid(r)
    decreases |scripts|
  {
    if scripts == [] then st else Drain(Turn(st, scripts[0]), scripts[1..])
  }

  // Whenever the front has to be written, the socket is willing. A message
  // that is sent is only popped.
  predicate AlwaysWilling(st: Out, scripts: seq<seq<Sys>>)
    requires Valid(st)
    decreases |scripts|
  {
    st.queue == [] || scripts == [] ||
    ((MsgSent(st) || Willing(scripts[0], st.blocking, st.queue[0])) && AlwaysWilling(Turn(st, scripts[0]), scripts[1..]))
  }

  // With as many turns as there are unsent bytes and messages the queue is
  // empty, and every message went out complete and in order.
  lemma {:induction false} DrainEmpties(st: Out, scripts: seq<seq<Sys>>)
    requires Valid(st) && Ready(st) && AlwaysWilling(st, scripts) && |scripts| >= Measure(st)
    ensures var r := Drain(st, scripts);
      && r.queue == [] && PastMsgs(r.log) == Taken(st)
      && r.wire == Stream(Taken(st))
    decreases |scripts|
  {
    if st.queue == [] {
      DrainIdle(st, scripts);
      LogIsStream(st.log);
      assert st.wire == PastBytes(st.log);
      assert Taken(st) == PastMsgs(st.log);
    } else {
      TurnProgress(st, scripts[0]);
      DrainEmpties(Turn(st, scripts[0]), scripts[1..]);
    }
  }

  lemma {:induction false} DrainIdle(st: Out, scripts: seq<seq<Sys>>)
    requires Valid(st) && st.queue == []
    ensures Drain(st, scripts) == st
    decreases |scripts|
  {
    if scripts != [] { DrainIdle(st, scripts[1..]); }
  }
}
