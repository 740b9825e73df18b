/** Exactly which headers let a session use memory outside its buffer
    (TCPSession.cc). */
module Overruns {
  import opened Scan
  import opened Http
  import opened HttpPrint
  import opened Incoming
  import opened Receiver
  import opened Segmentation

  // These calls bring in some of the text and end in an overrun.
  predicate LeavesBuffer(text: string, blocking: bool, ops: seq<Op>) {
    Lawful(Opened(blocking), ops) &&
    var r := Run(Opened(blocking), ops);
    r.received <= text && r.overrun
  }

  // Until a header is found nothing has left the buffer; the header that is
  // found is h, and after it there is no other.
  ghost predicate OneHeader(st: In, h: Head, text: string) {
    && Conserved(st) && Cycle(st) && Announced(st) && !st.overrun && PrintHdr(h, false) <= text && Arrivable(h)
    && (st.http ==> if st.info.initialized then st.head == Got(h, "") else st.swaps == [] && st.taken == "")
  }

  lemma InitOneHeader(st: In, h: Head, text: string, slack: string)
    requires OneHeader(st, h, text) && !st.info.initialized && st.received <= text
    ensures OneHeader(InitMsg(st, slack).st, h, text)
  {
    InitConserves(st, slack);
    InitCycles(st, slack);
    InitAnnounced(st, slack);
    if st.http { InitBetween(st, h, text, slack); }
  }

  lemma OneHeaderStep(st: In, h: Head, text: string, op: Op)
    requires OneHeader(st, h, text) && Defined(st, op) && InTurn(st, op) && MsgLen(h.hdrs) >= 0
    requires st.received <= text
    ensures OneHeader(Do(st, op), h, text)
  {
    if op.InitOp? { InitOneHeader(st, h, text, op.slack); } else { OtherStep(st, h, text, op); }
  }

  // The other operations leave the header as it is or forget the framing type.
  predicate SameHeader(st: In, r: In) {
    r.http ==>
      && st.http && r.info.initialized == st.info.initialized && r.head == st.head && r.swaps == st.swaps
      && (!st.info.initialized ==> r.taken == st.taken)
  }

  lemma StreamSameHeader(st: In, disk: Disk)
    ensures SameHeader(st, Stream(st, disk).st)
  {
    if st.file.open && st.info.initialized && st.info.fileOffset <= st.info.bodyLen && disk.Stored? {
      StreamIs(st, disk, Min(disk.n, Min(st.info.bodyLen - st.info.fileOffset, |st.rbuf|)));
    } else {
      StreamStops(st, disk);
    }
  }

  lemma OtherSameHeader(st: In, op: Op)
    requires Defined(st, op) && !op.InitOp? && !st.overrun && !Do(st, op).overrun
    ensures SameHeader(st, Do(st, op))
  {
    if op.StreamOp? { StreamSameHeader(st, op.disk); }
  }

  lemma OtherStep(st: In, h: Head, text: string, op: Op)
    requires OneHeader(st, h, text) && Defined(st, op) && InTurn(st, op) && MsgLen(h.hdrs) >= 0 && !op.InitOp?
    ensures OneHeader(Do(st, op), h, text)
  {
    DoConserves(st, op);
    DoCycles(st, op);
    DoAnnounced(st, op);
    OverrunStep(st, op);
    OtherSameHeader(st, op);
  }

  lemma {:induction false} NeverLeaves(st: In, h: Head, text: string, ops: seq<Op>)
    requires OneHeader(st, h, text) && MsgLen(h.hdrs) >= 0 && Lawful(st, ops) && Run(st, ops).received <= text
    ensures !Run(st, ops).overrun
    decreases |ops|
  {
    if ops != [] {
      var st1 := Do(st, ops[0]);
      RunConserves(st, ops);
      OneHeaderStep(st, h, text, ops[0]);
      NeverLeaves(st1, h, text, ops[1..]);
    }
  }

  lemma ClearLeaves(st: In)
    requires !st.info.disc && st.info.bodyLen < 0 && !st.overrun
    ensures Do(st, ClearOp).overrun && Do(st, ClearOp).received == st.received
  {
  }

  // Read it all, look for the header, clear the message.
  lemma NegativeLeaves(h: Head, text: string, blocking: bool) returns (ops: seq<Op>)
    requires Arrivable(h) && PrintHdr(h, false) <= text && |text| >= Need(h) && MsgLen(h.hdrs) < 0
    ensures LeavesBuffer(text, blocking, ops)
  {
    var pieces := ReadTo(text, |text|, blocking);
    var st := Run(Opened(blocking), pieces);
    assert text[..|text|] == text;
    RunConserves(Opened(blocking), pieces);
    InitOn(st, h, text, "");
    InitBetween(st, h, text, "");
    ThenInit(blocking, pieces, "");
    var found := pieces + [InitOp("")];
    var st1 := Run(Opened(blocking), found);
    ClearLeaves(st1);
    OneOp(st1, ClearOp);
    LawfulCat(Opened(blocking), found, [ClearOp]);
    ops := found + [ClearOp];
  }

  lemma StaysInside(h: Head, text: string, blocking: bool, ops: seq<Op>)
    requires Arrivable(h) && PrintHdr(h, false) <= text && MsgLen(h.hdrs) >= 0
    ensures !LeavesBuffer(text, blocking, ops)
  {
    if LeavesBuffer(text, blocking, ops) { NeverLeaves(Opened(blocking), h, text, ops); }
  }

  // Some run on a text that starts with the header overruns the buffer exactly
  // when the header states a negative length.
  lemma LeavesIff(h: Head, text: string, blocking: bool)
    requires Arrivable(h) && PrintHdr(h, false) <= text && |text| >= Need(h)
    ensures (exists ops :: LeavesBuffer(text, blocking, ops)) <==> MsgLen(h.hdrs) < 0
  {
    if MsgLen(h.hdrs) < 0 {
      var ops := NegativeLeaves(h, text, blocking);
    } else {
      forall ops ensures !LeavesBuffer(text, blocking, ops) { StaysInside(h, text, blocking, ops); }
    }
  }

  // A response that states a length of -1.
  function MinusOne(): Head { Response(1, 1, 200, [Header(CONTENT_LENGTH, PrintInt(-1), [])]) }

  lemma MinusOneLeaves(blocking: bool)
    ensures exists ops :: LeavesBuffer(PrintHdr(MinusOne(), false), blocking, ops)
  {
    var h := Header(CONTENT_LENGTH, PrintInt(-1), []);
    assert h.value == "-" + Dec(1) == "-1";
    assert Plain(MinusOne());
    StrtolPrint(-1);
    OwnHdr(h);
    LeavesIff(MinusOne(), PrintHdr(MinusOne(), false), blocking);
  }
}
