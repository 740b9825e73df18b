/** The receiver's loop when the body goes to a file: read, and move to the
    file what has arrived, until StreamIncomingMsg says it is done
    (TCPSession.cc). */
module Streaming {
  import opened Scan
  import opened Http
  import opened HttpPrint
  import opened Incoming
  import opened Receiver

  // What the socket offers and what the disk takes at most.
  datatype FileTurn = FileTurn(size: nat, room: nat)

  // p is the header; the file holds the start of the body, and is open while
  // some of it is missing.
  ghost predicate Filing(st: In, p: string, text: string, body: string) {
    && Direct(st) && !st.overrun && st.received <= text && p + body <= text
    && st.info == Info(true, |body|, st.info.fileOffset, true) && st.info.fileOffset <= |body|
    && |st.taken| == |p| + st.info.fileOffset && st.file.data == body[..st.info.fileOffset]
    && (st.info.fileOffset < |body| ==> st.file.open)
  }

  // set_rfile, after the header was found.
  lemma FileOn(st: In, h: Head, text: string, body: string)
    requires On(st, h, text) && st.info.initialized
    requires MsgLen(h.hdrs) == |body| && PrintHdr(h, false) + body <= text
    ensures Filing(SetFile(st, true).st, PrintHdr(h, false), text, body)
  {
  }

  function Round(st: In, text: string, t: FileTurn): (r: In)
    requires Direct(st) && st.received <= text
    ensures Direct(r) && r.received <= text
  {
    if !st.file.open then st
    else
      ReadOn(st, text, Turn(t.size, ""));
      var st1 := Read(st, Arrived(Offer(st, text, Turn(t.size, "")))).st;
      StreamConserves(st1, Stored(t.room));
      Stream(st1, Stored(t.room)).st
  }

  // What is still to come in and to go out.
  function Missing(st: In, text: string, body: string): int {
    |text| - |st.received| + |body| - st.info.fileOffset
  }

  // The first n bytes of the buffer are the next ones of the body.
  lemma NextBytes(st: In, p: string, text: string, body: string, n: nat)
    requires Direct(st) && st.received <= text && p + body <= text
    requires n <= |st.rbuf| && |p| <= |st.taken| && |st.taken| - |p| + n <= |body|
    ensures var k := |st.taken| - |p|; body[..k] + st.rbuf[..n] == body[..k + n]
  {
    var k := |st.taken| - |p|;
    assert st.rbuf[..n] == st.received[|st.taken|..|st.taken| + n] == text[|st.taken|..|st.taken| + n];
    assert (p + body)[|st.taken|..|st.taken| + n] == body[k..k + n];
  }

  lemma StreamedFiling(st: In, p: string, text: string, body: string, n: nat)
    requires Filing(st, p, text, body) && st.file.open
    requires n <= |st.rbuf| && st.info.fileOffset + n <= |body|
    ensures Filing(Streamed(st, n), p, text, body)
  {
    NextBytes(st, p, text, body, n);
    ShiftConserves(st, n);
  }

  // Some of what is missing goes to the file unless the buffer is empty.
  lemma StreamFiling(st: In, p: string, text: string, body: string, room: nat)
    requires Filing(st, p, text, body) && st.file.open && room > 0
    ensures var r := Stream(st, Stored(room)).st;
      && Filing(r, p, text, body) && r.received == st.received && r.lost == st.lost && r.head == st.head
      && (r.file.open ==> r.info.fileOffset < |body|)
      && (st.rbuf != "" && r.file.open ==> r.info.fileOffset > st.info.fileOffset)
      && r.info.fileOffset >= st.info.fileOffset
  {
    var n := Min(room, Min(|body| - st.info.fileOffset, |st.rbuf|));
    StreamIs(st, Stored(room), n);
    StreamedFiling(st, p, text, body, n);
  }

  // An empty buffer means that not all of the text has come in.
  lemma MoreToCome(st: In, p: string, text: string, body: string)
    requires Filing(st, p, text, body) && st.rbuf == "" && st.info.fileOffset < |body|
    ensures |st.received| < |text|
  {
  }

  lemma ReadFiling(st: In, p: string, text: string, body: string, size: nat)
    requires Filing(st, p, text, body) && size > 0
    ensures var r := Read(st, Arrived(Offer(st, text, Turn(size, "")))).st;
      && Filing(r, p, text, body) && r.file == st.file && r.info == st.info && r.lost == st.lost && r.head == st.head
      && |r.received| >= |st.received| && (|r.received| == |st.received| ==> |st.received| == |text|)
  {
    ReadOn(st, text, Turn(size, ""));
  }

  lemma RoundFiling(st: In, p: string, text: string, body: string, t: FileTurn)
    requires Filing(st, p, text, body) && st.file.open && t.size > 0 && t.room > 0
    ensures var r := Round(st, text, t);
      && Filing(r, p, text, body) && r.lost == st.lost && r.head == st.head
      && (r.file.open ==> r.info.fileOffset < |body| && Missing(r, text, body) < Missing(st, text, body))
  {
    var st1 := Read(st, Arrived(Offer(st, text, Turn(t.size, "")))).st;
    ReadFiling(st, p, text, body, t.size);
    StreamFiling(st1, p, text, body, t.room);
    if st1.rbuf == "" && st1.info.fileOffset < |body| { MoreToCome(st1, p, text, body); }
  }

  function StreamAll(st: In, text: string, turns: seq<FileTurn>): In
    requires Direct(st) && st.received <= text
    decreases |turns|
  {
    if turns == [] then st else StreamAll(Round(st, text, turns[0]), text, turns[1..])
  }

  // However the reads are cut and however little the disk takes each time: the
  // loop ends with the file closed, the body and nothing else in it, and what
  // follows the body at the front of the buffer.
  lemma {:induction false} StreamEnds(st: In, p: string, text: string, body: string, turns: seq<FileTurn>)
    requires Filing(st, p, text, body)
    requires forall i :: 0 <= i < |turns| ==> turns[i].size > 0 && turns[i].room > 0
    requires st.file.open ==> |turns| > Missing(st, text, body)
    ensures var r := StreamAll(st, text, turns);
      && Filing(r, p, text, body) && r.file == RFile(false, body) && r.lost == st.lost && r.head == st.head
      && |p| + |body| <= |r.received| && r.rbuf == text[|p| + |body|..|r.received|]
    decreases |turns|
  {
    if turns == [] {
      Ended(st, p, text, body);
    } else {
      if st.file.open { RoundFiling(st, p, text, body, turns[0]); }
      StreamEnds(Round(st, text, turns[0]), p, text, body, turns[1..]);
    }
  }

  lemma Ended(st: In, p: string, text: string, body: string)
    requires Filing(st, p, text, body) && !st.file.open
    ensures st.file.data == body && |p| + |body| <= |st.received| && st.rbuf == text[|p| + |body|..|st.received|]
  {
    assert st.received == text[..|st.received|] && st.rbuf == st.received[|p| + |body|..];
  }
}
