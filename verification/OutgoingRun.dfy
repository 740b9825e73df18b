/** Whole runs of the outgoing queue: what is on the wire after any calls in
    any order (TCPSession.cc). */
module OutgoingRun {
  import opened Scan
  import opened Outgoing

  datatype Op = AddOp(m: Msg) | WriteOp(script: seq<Sys>) | PopOp

  function Do(st: Out, op: Op): Out
    requires Valid(st)
  {
    match op
    case AddOp(m) => Add(st, m)
    case WriteOp(script) => Write(st, script).st
    case PopOp => Pop(st)
  }

  // The message an operation adds, if the queue takes it.
  function Took(op: Op): seq<Msg> {
    if op.AddOp? && Accepts(op.m) then [op.m] else []
  }

  function Accepted(ops: seq<Op>): seq<Msg> {
    if ops == [] then [] else Took(ops[0]) + Accepted(ops[1..])
  }

  lemma DoKeeps(st: Out, op: Op)
    requires Valid(st)
    ensures Valid(Do(st, op)) && Taken(Do(st, op)) == Taken(st) + Took(op)
    ensures Do(st, op).blocking == st.blocking
  {
    match op
    case AddOp(m) => AddKeeps(st, m);
    case WriteOp(script) => WriteKeeps(st, script);
    case PopOp => PopKeeps(st);
  }

  function Run(st: Out, ops: seq<Op>): (r: Out)
    requires Valid(st)
    ensures Valid(r)
    decreases |ops|
  {
    if ops == [] then st
    else
      DoKeeps(st, ops[0]);
      Run(Do(st, ops[0]), ops[1..])
  }

  // No run loses a message or lets one overtake another.
  lemma {:induction false} NoneLost(st: Out, ops: seq<Op>)
    requires Valid(st)
    ensures Taken(Run(st, ops)) == Taken(st) + Accepted(ops)
    decreases |ops|
  {
    if ops != [] {
      DoKeeps(st, ops[0]);
      NoneLost(Do(st, ops[0]), ops[1..]);
      CatAssoc(Taken(st), Took(ops[0]), Accepted(ops[1..]));
    }
  }

  // ---- The bytes on the wire.

  function Stream(ms: seq<Msg>): string {
    if ms == [] then "" else Promised(ms[0]) + Stream(ms[1..])
  }

  // Nothing was popped before it was sent, and no write failed.
  predicate Careful(st: Out, ops: seq<Op>)
    requires Valid(st)
    decreases |ops|
  {
    ops == [] ||
    (DoKeeps(st, ops[0]);
     && (ops[0].PopOp? ==> st.queue == [] || MsgSent(st))
     && (ops[0].WriteOp? ==> st.queue == [] || !Write(st, ops[0].script).event)
     && Careful(Do(st, ops[0]), ops[1..]))
  }

  // No chunk that left this session was cut short.
  predicate Whole(st: Out) {
    && (forall i :: 0 <= i < |st.log| ==> !Gap(st.log[i].item))
    && (st.queue != [] ==> !Gap(st.queue[0]))
  }

  predicate AllSent(log: seq<Past>) { forall i :: 0 <= i < |log| ==> log[i].complete }

  predicate AllFit(ms: seq<Msg>) { forall i :: 0 <= i < |ms| ==> Fits(ms[i]) }

  lemma {:induction false} LogIsStream(log: seq<Past>)
    requires LogOk(log) && AllSent(log)
    requires forall i :: 0 <= i < |log| ==> Fits(log[i].item.msg) || !Gap(log[i].item)
    ensures PastBytes(log) == Stream(PastMsgs(log))
  {
    if log != [] {
      assert PastOk(log[0]);
      LogIsStream(log[1..]);
    }
  }

  lemma {:induction false} PastFits(log: seq<Past>)
    requires AllFit(PastMsgs(log))
    ensures forall i :: 0 <= i < |log| ==> Fits(log[i].item.msg)
  {
    if log != [] {
      assert PastMsgs(log)[0] == log[0].item.msg;
      assert forall i :: 0 <= i < |PastMsgs(log[1..])| ==> PastMsgs(log[1..])[i] == PastMsgs(log)[i + 1];
      PastFits(log[1..]);
      forall i | 0 <= i < |log| ensures Fits(log[i].item.msg) {
        if i > 0 { assert log[i] == log[1..][i - 1]; }
      }
    }
  }

  lemma {:induction false} StreamAppend(a: seq<Msg>, b: seq<Msg>)
    ensures Stream(a + b) == Stream(a) + Stream(b)
  {
    if a == [] {
      assert a + b == b;
    } else {
      StreamAppend(a[1..], b);
      assert (a + b)[1..] == a[1..] + b;
      CatAssoc(Promised(a[0]), Stream(a[1..]), Stream(b));
    }
  }

  lemma CarefulSends(st: Out, ops: seq<Op>)
    requires Valid(st) && AllSent(st.log) && Careful(st, ops)
    ensures AllSent(Run(st, ops).log)
    decreases |ops|
  {
    if ops != [] {
      DoKeeps(st, ops[0]);
      CarefulSends(Do(st, ops[0]), ops[1..]);
    }
  }

  lemma DoWhole(st: Out, op: Op)
    requires Valid(st) && Whole(st) && st.blocking
    ensures Whole(Do(st, op))
  {
    if op.WriteOp? && st.queue != [] && st.connected {
      var it := st.queue[0];
      WriteItemOk(it, op.script, st.blocking);
      var s := WriteItem(it, op.script, st.blocking);
      if s.event { DroppedWhole([s.item] + st.queue[1..]); }
    }
    if op.PopOp? && |st.queue| > 1 { assert st.queue[1..][0] == Fresh(st.queue[1..][0].msg); }
  }

  lemma {:induction false} DroppedWhole(q: seq<Item>)
    requires q != [] && !Gap(q[0]) && Untouched(q[1..])
    ensures forall i :: 0 <= i < |Dropped(q)| ==> !Gap(Dropped(q)[i].item)
  {
    if |q| > 1 {
      assert q[1..][0] == Fresh(q[1..][0].msg);
      DroppedWhole(q[1..]);
    }
  }

  lemma BlockingIsWhole(st: Out, ops: seq<Op>)
    requires Valid(st) && Whole(st) && st.blocking
    ensures Whole(Run(st, ops))
    decreases |ops|
  {
    if ops != [] {
      DoKeeps(st, ops[0]);
      DoWhole(st, ops[0]);
      BlockingIsWhole(Do(st, ops[0]), ops[1..]);
    }
  }

  // The bytes on the wire are those of the popped messages, in queue order,
  // then the beginning of the front message.
  lemma WireIsStream(st: Out)
    requires Valid(st) && AllSent(st.log) && (Whole(st) || AllFit(PastMsgs(st.log)))
    ensures st.wire == Stream(PastMsgs(st.log)) + FrontBytes(st.queue)
    ensures st.queue != [] && !Gap(st.queue[0]) ==> FrontBytes(st.queue) <= Promised(st.queue[0].msg)
    ensures st.queue == [] || !Gap(st.queue[0]) ==> st.wire <= Stream(Taken(st))
  {
    if !Whole(st) { PastFits(st.log); }
    LogIsStream(st.log);
    StreamAppend(PastMsgs(st.log), Msgs(st.queue));
    if st.queue != [] {
      SentIsExact(st.queue[0]);
      if !Gap(st.queue[0]) {
        assert Promised(st.queue[0].msg) <= Stream(Msgs(st.queue));
        PrefixUnder(Stream(PastMsgs(st.log)), FrontBytes(st.queue), Stream(Msgs(st.queue)));
      }
    }
  }

  lemma PrefixUnder(a: string, p: string, q: string)
    requires p <= q
    ensures a + p <= a + q
  {
    assert q == p + q[|p|..];
    CatAssoc(a, p, q[|p|..]);
  }

  // Over every run that pops what was sent, however the writes are cut, as
  // long as no file is longer than it was said to be.
  lemma WireOfRun(blocking: bool, connected: bool, ops: seq<Op>)
    requires Careful(Opened(blocking, connected), ops)
    requires blocking || AllFit(Accepted(ops))
    ensures var st := Run(Opened(blocking, connected), ops);
      && st.wire == Stream(PastMsgs(st.log)) + FrontBytes(st.queue)
      && Taken(st) == Accepted(ops)
      && (blocking || st.queue == [] || !Gap(st.queue[0]) ==> st.wire <= Stream(Accepted(ops)))
  {
    var st0 := Opened(blocking, connected);
    var st := Run(st0, ops);
    NoneLost(st0, ops);
    CarefulSends(st0, ops);
    if blocking {
      BlockingIsWhole(st0, ops);
    } else {
      assert forall i :: 0 <= i < |PastMsgs(st.log)| ==> PastMsgs(st.log)[i] == Taken(st)[i];
    }
    WireIsStream(st);
  }

  // ---- What can go wrong with a file.

  // The front fell behind its file, or left the queue without being sent.
  predicate Behind(st: Out, r: Out)
    requires st.queue != []
  {
    || (r.queue != [] && Gap(r.queue[0]) && r.queue[0].msg == st.queue[0].msg && r.log == st.log)
    || (|r.log| > |st.log| && !r.log[|st.log|].complete && r.log[|st.log|].item.msg == st.queue[0].msg)
  }

  lemma LogGrows(st: Out, op: Op)
    requires Valid(st)
    ensures |st.log| <= |Do(st, op).log| && Do(st, op).log[..|st.log|] == st.log
  {
  }

  lemma DoBehind(st: Out, op: Op)
    requires Valid(st) && st.queue != [] && Gap(st.queue[0]) && Fits(st.queue[0].msg)
    ensures Behind(st, Do(st, op))
  {
    SentIsExact(st.queue[0]);
    if op.WriteOp? && st.connected {
      WriteItemOk(st.queue[0], op.script, st.blocking);
    }
  }

  lemma {:induction false} StaysBehind(st: Out, r: Out, ops: seq<Op>)
    requires Valid(st) && Valid(r) && st.queue != [] && Fits(st.queue[0].msg) && Behind(st, r)
    ensures Behind(st, Run(r, ops))
    decreases |ops|
  {
    if ops != [] {
      var r1 := Do(r, ops[0]);
      DoKeeps(r, ops[0]);
      LogGrows(r, ops[0]);
      if |r.log| > |st.log| { assert r1.log[|st.log|] == r1.log[..|r.log|][|st.log|]; }
      else { DoBehind(r, ops[0]); }
      StaysBehind(st, r1, ops[1..]);
    }
  }

  // A session that fell behind a file never finishes that message, whatever
  // is called next and whatever the socket takes.
  lemma GapIsForever(st: Out, ops: seq<Op>)
    requires Valid(st) && st.queue != [] && Gap(st.queue[0]) && Fits(st.queue[0].msg)
    ensures Behind(st, Run(st, ops))
    ensures var r := Run(st, ops); r.log == st.log ==> !MsgSent(r)
  {
    StaysBehind(st, st, ops);
    var r := Run(st, ops);
    if r.log == st.log { SentIsExact(r.queue[0]); }
  }

  // A file longer than its stated length, and one chunk cut short: the
  // message counts as sent, and a byte from past its end went out.
  lemma LongFile()
    ensures var m := FileMsg("h", "abc", 2);
      var short := Item(m, 1, 1, true, 2, "ha");
      var sent := Item(m, 1, 2, true, 3, "hac");
      && WriteItem(Fresh(m), [WroteAll, Wrote(1)], false) == Step(short, [], 1, false)
      && ItemOk(short) && WriteItem(short, [WroteAll], false) == Step(sent, [], 1, false)
      && IsSent(sent) && Promised(m) == "hab"
  {
    var m := FileMsg("h", "abc", 2);
    LongFileStart(m);
    assert SendBuf(Fresh(m), [WroteAll, Wrote(1)], false, 1) == Step(Item(m, 1, 0, false, 0, "h"), [Wrote(1)], 1, false);
    LongFileEnd(m);
  }

  lemma LongFileStart(m: Msg)
    requires m == FileMsg("h", "abc", 2)
    ensures SendChunk(Item(m, 1, 0, false, 0, "h"), [Wrote(1)], false, 1) == Step(Item(m, 1, 1, true, 2, "ha"), [], 1, false)
  {
    assert Send([Wrote(1)], false, 2) == Sent(1, false, []);
    assert "h" + "abc"[0..1] == "ha";
  }

  lemma LongFileEnd(m: Msg)
    requires m == FileMsg("h", "abc", 2)
    ensures SendChunk(Item(m, 1, 1, true, 2, "ha"), [WroteAll], false, 0) == Step(Item(m, 1, 2, true, 3, "hac"), [], 1, false)
  {
    assert "ha" + "abc"[2..3] == "hac";
  }

  // A file message with no body is refused by the write that sends its
  // header: there is no byte to read.
  lemma EmptyFile(it: Item, script: seq<Sys>, blocking: bool)
    requires ItemOk(it) && it.msg.FileMsg? && it.msg.bodyLen == 0
    ensures WriteItem(it, script, blocking).event || WriteItem(it, script, blocking).item.bufOff < |it.msg.hdr|
  {
  }
}
