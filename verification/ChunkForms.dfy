/** The size lines that the chunk parser takes, and what it makes of a chunk
    whose data is not of the stated size (ParseChunkedMsgBody of
    HTTPFraming.cc, strtol(3)). */
module ChunkForms {
  import opened Scan
  import opened Chunks
  import HttpWords

  // ---- strtol(3) with base 16.

  lemma HexDigits(c: char, i: nat)
    requires i < 16
    ensures IsHex(c) <==> c in "0123456789abcdefABCDEF"
    ensures c == "0123456789abcdef"[i] || c == "0123456789ABCDEF"[i] ==> HexDigit(c) == i
  {
  }

  predicate AllHex(s: string) { forall i :: 0 <= i < |s| ==> IsHex(s[i]) }

  lemma {:induction false} HexStops(s: string, rest: string, v: nat)
    requires AllHex(s) && (rest == "" || !IsHex(rest[0]))
    ensures HexValue(s + rest, v) == HexValue(s, v)
    decreases |s|
  {
    if s == "" {
      assert "" + rest == rest;
    } else {
      assert (s + rest)[1..] == s[1..] + rest;
      HexStops(s[1..], rest, 16 * v + HexDigit(s[0]));
    }
  }

  lemma AnyCaseDigit(c: char, v: nat)
    requires v < 16 && HttpWords.Spells([c], [HexChar(v)])
    ensures IsHex(c) && HexDigit(c) == v
  {
    assert [c][0] == c && [HexChar(v)][0] == HexChar(v);
  }

  // A number in hexadecimal, each digit in either case, with zeros in front.
  lemma {:induction false} AnyCase(n: nat, s: string)
    requires HttpWords.Spells(s, Hex(n))
    ensures AllHex(s) && HexValue(s, 0) == n
    decreases n
  {
    var h, k := Hex(n), |s| - 1;
    var last := if n < 16 then n else n % 16;
    assert h[k] == HexChar(last);
    AnyCaseDigit(s[k], last);
    assert s == s[..k] + [s[k]] + "";
    if n < 16 {
      HexValueAppend("", s[k], "", 0);
      assert s == "" + [s[k]] + "";
    } else {
      assert h[..k] == Hex(n / 16);
      AnyCase(n / 16, s[..k]);
      HexValueAppend(s[..k], s[k], "", 0);
    }
  }

  lemma {:induction false} ZerosInFront(zeros: string, s: string)
    requires forall i :: 0 <= i < |zeros| ==> zeros[i] == '0'
    ensures HexValue(zeros + s, 0) == HexValue(s, 0)
    decreases |zeros|
  {
    if zeros == "" {
      assert "" + s == s;
    } else {
      assert (zeros + s)[1..] == zeros[1..] + s;
      ZerosInFront(zeros[1..], s);
    }
  }

  // Whitespace, a sign or none, "0x" or none, digits, and what is no digit:
  // the number, or the limit that is next to it.
  lemma SizeRead(space: string, sign: string, prefix: string, digits: string, rest: string)
    requires All(Space, space) && sign in {"", "+", "-"} && prefix in {"", "0x", "0X"}
    requires AllHex(digits) && digits != "" && (rest == "" || !IsHex(rest[0]))
    requires prefix == "" && digits == "0" && rest != "" ==> rest[0] != 'x' && rest[0] != 'X'
    ensures var v: int := HexValue(digits, 0);
      StrtolHex(space + (sign + (prefix + (digits + rest)))) ==
        if sign == "-" then (if v > LONG_MAX + 1 then -LONG_MAX - 1 else -v) else if v > LONG_MAX then LONG_MAX else v
  {
    PrefixRead(prefix, digits, rest);
    HexStops(digits, rest, 0);
    SignRead(space, sign, prefix + (digits + rest));
  }

  function Limited(negative: bool, v: int): int {
    if negative then (if v > LONG_MAX + 1 then -LONG_MAX - 1 else -v) else if v > LONG_MAX then LONG_MAX else v
  }

  lemma SignRead(space: string, sign: string, b: string)
    requires All(Space, space) && sign in {"", "+", "-"} && b != "" && IsHex(b[0])
    ensures StrtolHex(space + (sign + b)) == Limited(sign == "-", HexValue(SkipPrefix(b), 0))
  {
    var s, a := space + (sign + b), sign + b;
    assert s[..|space|] == space && s[|space|..] == a;
    assert sign == "" ==> a == b;
    assert sign != "" ==> a[1..] == b && a[0] == sign[0];
    assert a[0] == s[|space|] && !IsSpace(s[|space|]);
    SpanIs(s, Space, |space|);
  }

  lemma PrefixRead(prefix: string, digits: string, rest: string)
    requires prefix in {"", "0x", "0X"} && AllHex(digits) && digits != "" && (rest == "" || !IsHex(rest[0]))
    requires prefix == "" && digits == "0" && rest != "" ==> rest[0] != 'x' && rest[0] != 'X'
    ensures SkipPrefix(prefix + (digits + rest)) == digits + rest
  {
    var t := digits + rest;
    var b := prefix + t;
    if prefix == "" {
      assert b == t;
      if |t| >= 2 && |digits| >= 2 { assert t[1] == digits[1] && IsHex(t[1]); }
    } else {
      assert b[2..] == t && b[2] == digits[0];
    }
  }

  // A line that begins with no number states the size 0.
  lemma NoSize(space: string, rest: string)
    requires All(Space, space)
    requires rest != "" ==> !IsHex(rest[0]) && !IsSpace(rest[0]) && rest[0] != '+' && rest[0] != '-'
    ensures StrtolHex(space + rest) == 0
  {
    var s := space + rest;
    assert s[..|space|] == space && s[|space|..] == rest;
    SpanIs(s, Space, |space|);
  }

  // ---- One chunk, whatever its size line says.

  // What the capacity is grown to: by a scratch buffer if the size is less
  // than one, else by the size and a byte, when the end of the chunk is not
  // within it; a sum below 0 is taken for a large one.
  function Grown(cap: nat, size: int, count: nat): nat {
    if 0 <= size + count < cap then cap else if size < 4096 then cap + 4096 else cap + size + 1
  }

  lemma RoomIs(cap: nat, size: int, count: nat)
    requires cap <= 0x8000_0000_0000_0000 && count < cap && -LONG_MAX - 1 <= size <= LONG_MAX
    ensures Room(cap, size, count) == Grown(cap, size, count)
  {
    if size + count < 0 { assert (size + count) % SIZE_T == size + count + SIZE_T; }
  }

  // The data ends at its CR, whatever the size; more of it than there is room
  // for leaves the memory.
  lemma AnyChunk(line: string, data: string, rest: string, n: nat, cap: nat, body: string)
    requires '\r' !in line && '\r' !in data && StrtolHex(line) != 0
    requires |body| < cap <= 0x8000_0000_0000_0000 && n > |line| + |data| + 3
    ensures var cap1, s := Grown(cap, StrtolHex(line), |body|), OneChunk(line + (CRLF + (data + (CRLF + rest))), n, cap, body);
      s == if |body| + |data| <= cap1 then Next(rest, n - |line| - |data| - 3, cap1, body + data) else End(Overrun)
  {
    var size, t := StrtolHex(line), data + (CRLF + rest);
    SizeLineText(line, t, n);
    RoomIs(cap, size, |body|);
    var cap1 := Room(cap, size, |body|);
    var m := n - |line| - 2;
    if |body| + |data| <= cap1 {
      DataText(data, rest, m, cap1 - |body|);
      OneChunkIs(line + (CRLF + t), n, cap, body, At(size, t, m), At(data, rest, m - |data| - 1));
    } else {
      UpToCrText(data, CRLF + rest, m);
      assert Data(t, m, cap1 - |body|) == Overrun;
    }
  }

  // A size of 0 ends the body.
  lemma SizeZero(line: string, next: string, n: nat, cap: nat, body: string)
    requires '\r' !in line && StrtolHex(line) == 0 && n > |line| + 2
    ensures OneChunk(line + (CRLF + next), n, cap, body) ==
      End(if |body| < cap then At(body, next, n - |line| - 2) else Overrun)
  {
    SizeLineText(line, next, n);
  }

  // A CR that no LF follows is an error, in the line as in the data.
  lemma NoLineFeed(tok: string, c: char, more: string, n: nat, room: nat)
    requires '\r' !in tok && c != '\n' && n > |tok| + 1
    ensures SizeLine(tok + ("\r" + ([c] + more)), n) == Wrong
    ensures |tok| <= room ==> Data(tok + ("\r" + ([c] + more)), n, room) == Wrong
  {
    UpToCrText(tok, "\r" + ([c] + more), n);
  }

  // Whitespace in front of the first size is skipped.
  lemma SpaceSkipped(space: string, mem: string, n: nat, cap: nat)
    requires All(Space, space) && mem != "" && !IsSpace(mem[0])
    ensures ChunkedBody(space + mem, n, cap) == if n <= |space| then Wait else Assemble(mem, n - |space|, cap, "")
  {
    SkipSpaceIs(space, mem, n);
  }

  lemma SkipSpaceIs(space: string, mem: string, n: nat)
    requires All(Space, space) && mem != "" && !IsSpace(mem[0])
    ensures SkipSpace(space + mem, n) == if n <= |space| then Wait else At((), mem, n - |space|)
  {
    var s := space + mem;
    assert s[..|space|] == space && s[|space|..] == mem;
    SpanIs(s, Space, |space|);
  }
}
