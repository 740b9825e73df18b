/** Exactly which requests a session can lose by the way they are cut into
    reads (TCPSession.cc, HTTPFraming.cc). */
module Segmentation {
  import opened Scan
  import opened Http
  import opened HttpPrint
  import opened RequestPrefix
  import opened Incoming
  import opened Receiver

  // The calls of a receiver that only looks for the header.
  predicate ReadOrInit(op: Op) { op.InitOp? || (op.ReadOp? && op.net.Arrived?) }

  predicate ReadsAndInits(ops: seq<Op>) { forall i :: 0 <= i < |ops| ==> ReadOrInit(ops[i]) }

  // These calls bring in some of the text and end with the session reset, its
  // framing type gone.
  predicate Loses(text: string, blocking: bool, ops: seq<Op>) {
    && ReadsAndInits(ops) && Lawful(Opened(blocking), ops)
    && (var r := Run(Opened(blocking), ops); r.received <= text && r.rbuf == "" && !r.http)
  }

  // ---- A request without a late key is never lost.

  ghost predicate Between(st: In, h: Head, text: string) {
    && Direct(st) && Cycle(st) && !st.overrun && st.received <= text && PrintHdr(h, false) <= text
    && Arrivable(h) && st.http && (if st.info.initialized then Taken(st, h) else st.taken == "")
  }

  lemma ReadBetween(st: In, h: Head, text: string, x: string)
    requires Between(st, h, text) && Read(st, Arrived(x)).st.received <= text
    ensures Between(Read(st, Arrived(x)).st, h, text)
  {
    ReadConserves(st, Arrived(x));
    ReadArrived(st, x, Min(|x|, st.size - |st.rbuf|));
  }

  lemma InitBetween(st: In, h: Head, text: string, slack: string)
    requires Between(st, h, text) && !st.info.initialized && Defined(st, InitOp(slack))
    ensures Between(InitMsg(st, slack).st, h, text)
  {
    InitCycles(st, slack);
    InitOn(st, h, text, slack);
    if |st.received| < Need(h) { InitEarly(st, h, text, slack); } else { InitLate(st, h, text, slack); }
  }

  lemma {:induction false} RunBetween(st: In, h: Head, text: string, ops: seq<Op>)
    requires Between(st, h, text) && Lawful(st, ops) && ReadsAndInits(ops) && Run(st, ops).received <= text
    ensures Between(Run(st, ops), h, text)
    decreases |ops|
  {
    if ops != [] {
      var st1 := Do(st, ops[0]);
      DoConserves(st, ops[0]);
      DoCycles(st, ops[0]);
      RunConserves(st1, ops[1..]);
      assert st1.received <= text;
      if ops[0].ReadOp? { ReadBetween(st, h, text, ops[0].net.text); } else { InitBetween(st, h, text, ops[0].slack); }
      RunBetween(st1, h, text, ops[1..]);
    }
  }

  // ---- A request with one is lost if the reads stop there.

  lemma ReadByte(st: In, c: char)
    requires Direct(st) && !st.overrun
    ensures var r := Read(st, Arrived([c])).st;
      && Direct(r) && r == st.(rbuf := st.rbuf + [c], received := st.received + [c], size := r.size)
  {
    ReadConserves(st, Arrived([c]));
    assert [c][..1] == [c];
  }

  lemma {:induction false} ReadBytes(st: In, t: string) returns (ops: seq<Op>)
    requires Direct(st) && !st.overrun
    ensures ReadsAndInits(ops) && Lawful(st, ops)
    ensures var r := Run(st, ops);
      Direct(r) && r == st.(rbuf := st.rbuf + t, received := st.received + t, size := r.size)
    decreases |t|
  {
    if t == "" {
      ops := [];
      assert st.rbuf + "" == st.rbuf && st.received + "" == st.received;
    } else {
      var op := ReadOp(Arrived([t[0]]));
      ReadByte(st, t[0]);
      var st1 := Do(st, op);
      var more := ReadBytes(st1, t[1..]);
      ops := [op] + more;
      assert ops[1..] == more && [t[0]] + t[1..] == t;
      CatAssoc(st.rbuf, [t[0]], t[1..]);
      CatAssoc(st.received, [t[0]], t[1..]);
    }
  }

  lemma {:induction false} LawfulCat(st: In, a: seq<Op>, b: seq<Op>)
    requires Lawful(st, a) && Lawful(Run(st, a), b)
    ensures Lawful(st, a + b) && Run(st, a + b) == Run(Run(st, a), b)
    decreases |a|
  {
    if a == [] {
      assert a + b == b;
    } else {
      LawfulCat(Do(st, a[0]), a[1..], b);
      assert (a + b)[0] == a[0] && (a + b)[1..] == a[1..] + b;
    }
  }

  // With a cut key in the buffer, the next attempt resets the session, unless
  // the memory behind it shows a scheme that the request does not have.
  lemma CutKeyResets(st: In, h: Head, text: string, slack: string)
    requires Readable(h) && PrintHdr(h, false) <= text && Direct(st)
    requires st.received <= text && st.taken == "" && st.http && |st.received| <= |PrintHdr(h, false)|
    requires EndsInKey(h, |st.received|) && !Masks(h, |st.received|, slack)
    ensures Defined(st, InitOp(slack))
    ensures InitMsg(st, slack) == Reply(Reset(st), false, true)
  {
    assert st.rbuf == st.received == text[..|st.received|];
    EarlyRequest(h, text, |st.received|, slack);
  }

  lemma OneOp(st: In, op: Op)
    requires Defined(st, op) && InTurn(st, op)
    ensures Lawful(st, [op]) && Run(st, [op]) == Do(st, op)
  {
    assert [op][1..] == [];
  }

  lemma ReadTo(text: string, k: nat, blocking: bool) returns (ops: seq<Op>)
    requires k <= |text|
    ensures ReadsAndInits(ops) && Lawful(Opened(blocking), ops)
    ensures var r := Run(Opened(blocking), ops);
      && Direct(r) && r.rbuf == r.received == text[..k]
      && r.taken == "" && r.http && !r.overrun && !r.info.initialized
  {
    ops := ReadBytes(Opened(blocking), text[..k]);
    assert "" + text[..k] == text[..k];
  }

  lemma ThenInit(blocking: bool, pieces: seq<Op>, slack: string)
    requires ReadsAndInits(pieces) && Lawful(Opened(blocking), pieces)
    requires var st := Run(Opened(blocking), pieces); Defined(st, InitOp(slack)) && !st.info.initialized && !st.overrun
    ensures var ops := pieces + [InitOp(slack)];
      && ReadsAndInits(ops) && Lawful(Opened(blocking), ops)
      && Run(Opened(blocking), ops) == InitMsg(Run(Opened(blocking), pieces), slack).st
  {
    OneOp(Run(Opened(blocking), pieces), InitOp(slack));
    LawfulCat(Opened(blocking), pieces, [InitOp(slack)]);
  }

  lemma LateKeyLoses(h: Head, text: string, blocking: bool) returns (ops: seq<Op>)
    requires Readable(h) && LateKey(h) && PrintHdr(h, false) <= text
    ensures Loses(text, blocking, ops)
  {
    var k := LateKeyCuts(h);
    LateKeyInside(h, k);
    var pieces := ReadTo(text, k, blocking);
    NotMasked(h, k, "");
    CutKeyResets(Run(Opened(blocking), pieces), h, text, "");
    ThenInit(blocking, pieces, "");
    ops := pieces + [InitOp("")];
  }

  // Some segmentation loses a request exactly when some key of its query that
  // is not empty has its '=' at offset 16 or later.
  lemma LostIff(h: Head, text: string, blocking: bool)
    requires Readable(h) && PrintHdr(h, false) <= text
    ensures (exists ops :: Loses(text, blocking, ops)) <==> LateKey(h)
  {
    if LateKey(h) {
      var ops := LateKeyLoses(h, text, blocking);
    } else {
      forall ops | ReadsAndInits(ops) && Lawful(Opened(blocking), ops) && Run(Opened(blocking), ops).received <= text
        ensures !Loses(text, blocking, ops)
      {
        RunBetween(Opened(blocking), h, text, ops);
      }
    }
  }
}
