/** Base64: the state-carrying encoder and decoder loops of Base64.cc, proved
    against the 24-bit groups of RFC 4648, section 4. A sum that overflows an
    octet is cut with % 256. */
module Base64 {
  import opened Bytes
  import opened Scan
  import opened Bits

  const UPPER: string := "ABCDEFGHIJKLMNOPQRSTUVWXYZ"
  const LOWER: string := "abcdefghijklmnopqrstuvwxyz"
  const DIGITS: string := "0123456789+/"
  const BASE64_CHARS: string := UPPER + LOWER + DIGITS

  // npos, which find() answers for a character outside the table, as an octet.
  const NPOS: octet := 255

  predicate IsBase64(c: char) {
    'A' <= c <= 'Z' || 'a' <= c <= 'z' || '0' <= c <= '9' || c == '+' || c == '/'
  }

  // Table 1 of RFC 4648: sextet to character.
  function Letter(x: nat): (c: char)
    requires x < 64
  {
    if x < 26 then 'A' + x as char else if x < 52 then 'a' + (x - 26) as char
    else if x < 62 then '0' + (x - 52) as char else if x == 62 then '+' else '/'
  }

  // The position of a character in the table.
  function Find(c: char): octet {
    if 'A' <= c <= 'Z' then c as int - 65
    else if 'a' <= c <= 'z' then c as int - 71
    else if '0' <= c <= '9' then c as int + 4
    else if c == '+' then 62 else if c == '/' then 63 else NPOS
  }

  lemma TableIsLetters()
    ensures |BASE64_CHARS| == 64
    ensures forall i :: 0 <= i < 64 ==> BASE64_CHARS[i] == Letter(i)
  {
    assert forall i :: 0 <= i < 26 ==> UPPER[i] == Letter(i);
    assert forall i :: 0 <= i < 26 ==> LOWER[i] == Letter(26 + i);
    assert forall i :: 0 <= i < 12 ==> DIGITS[i] == Letter(52 + i);
  }

  lemma LetterInverse(x: nat, c: char)
    ensures x < 64 ==> IsBase64(Letter(x)) && Find(Letter(x)) == x
    ensures IsBase64(c) ==> Find(c) < 64 && Letter(Find(c)) == c
  {
  }

  // ---- The reference: three octets and four sextets share one 24-bit group.

  function Group(o: seq<octet>): nat
    requires |o| == 3
  {
    (o[0] as int) * 65536 + (o[1] as int) * 256 + o[2]
  }

  function Octets(g: nat): (o: seq<octet>)
    ensures |o| == 3
  {
    [g / 65536 % 256, g / 256 % 256, g % 256]
  }

  function FromSextets(x: seq<nat>): nat
    requires |x| == 4
  {
    x[0] * 262144 + x[1] * 4096 + x[2] * 64 + x[3]
  }

  function Sextets(g: nat): (x: seq<nat>)
    ensures |x| == 4 && forall i :: 0 <= i < 4 ==> x[i] < 64
  {
    [g / 262144 % 64, g / 4096 % 64, g / 64 % 64, g % 64]
  }

  function Letters(x: seq<nat>): (s: string)
    requires forall i :: 0 <= i < |x| ==> x[i] < 64
    ensures |s| == |x|
  {
    seq(|x|, i requires 0 <= i < |x| => Letter(x[i]))
  }

  function Values(s: string): (x: seq<nat>)
    ensures |x| == |s|
  {
    seq(|s|, i requires 0 <= i < |s| => Find(s[i]) as nat)
  }

  // n octets, 1 <= n <= 3, are completed with zero bits to a group, of which
  // n + 1 letters are written.
  function EncodeBlock(v: seq<octet>): (s: string)
    requires 1 <= |v| <= 3
    ensures |s| == |v| + 1
  {
    Letters(Sextets(Group(v + seq(3 - |v|, _ => 0))))[..|v| + 1]
  }

  function DecodeBlock(v: string): (o: seq<octet>)
    requires 1 <= |v| <= 4
    ensures |o| == |v| - 1
  {
    Octets(FromSextets(Values(v) + seq(4 - |v|, _ => 0)))[..|v| - 1]
  }

  function Encode(b: seq<octet>): string {
    if |b| == 0 then ""
    else if |b| < 3 then EncodeBlock(b) + seq(3 - |b|, _ => '=')
    else EncodeBlock(b[..3]) + Encode(b[3..])
  }

  predicate AllBase64(s: string) {
    forall i :: 0 <= i < |s| ==> IsBase64(s[i])
  }

  // Length of the longest prefix made of table characters.
  function AlphaLen(s: string): (k: nat)
    ensures k <= |s|
    ensures AllBase64(s[..k])
    ensures k < |s| ==> !IsBase64(s[k])
  {
    if s == "" || !IsBase64(s[0]) then 0
    else
      var k := 1 + AlphaLen(s[1..]);
      assert s[..k] == [s[0]] + s[1..][..k - 1];
      k
  }

  function DecodeLetters(v: string): seq<octet> {
    if |v| == 0 then [] else if |v| < 4 then DecodeBlock(v)
    else DecodeBlock(v[..4]) + DecodeLetters(v[4..])
  }

  // The letters before the decoder stops.
  function AlphaPrefix(s: string): string { s[..AlphaLen(s)] }

  function Decode(s: string): seq<octet> {
    DecodeLetters(AlphaPrefix(s))
  }

  // ---- The octet arithmetic of the source computes those groups.

  lemma MulGrows(d: int, k: int)
    requires d >= 0
    ensures k >= 1 ==> d * k >= d
    ensures k <= -1 ==> d * k <= -d
  {
    if k >= 1 { assert d * (k - 1) >= 0; }
    if k <= -1 { assert d * (-k - 1) >= 0; }
  }

  lemma Small(d: nat, k: int, m: int)
    requires d > 0 && d * k == m && -1 * d < m < d
    ensures k == 0
  {
    MulGrows(d, k);
  }

  lemma DivMod(q: nat, d: nat, r: nat)
    requires r < d
    ensures (q * d + r) / d == q && (q * d + r) % d == r
  {
    var n := q * d + r;
    var k, m := n / d, n % d;
    assert d * (k - q) == d * k - q * d;
    Small(d, k - q, r - m);
  }

  lemma EncodeArithmetic(a: octet, b: octet, c: octet)
    ensures [a / 4, a % 4 * 16 + b / 16, b % 16 * 4 + c / 64, c % 64] == Sextets(Group([a, b, c]))
  {
    DivMod(a / 4, 262144, a % 4 * 65536 + b * 256 + c);
    DivMod(a * 16 + b / 16, 4096, b % 16 * 256 + c);
    DivMod(a / 4, 64, a % 4 * 16 + b / 16);
    DivMod(a * 1024 + b * 4 + c / 64, 64, c % 64);
    DivMod(a * 16 + b / 16, 64, b % 16 * 4 + c / 64);
  }

  // The four assignments of the encoder.
  lemma EncodeMasks(a: octet, b: octet, c: octet)
    ensures [Top6(a), Low2(a) + Top4(b), Low4(b) + Top2(c), Low6(c)] == Sextets(Group([a, b, c]))
  {
    EncodeArithmetic(a, b, c);
  }

  lemma HighOctets(w: nat, x: nat, y: nat, z: nat, g: nat)
    requires w < 64 && x < 64 && y < 64 && z < 64
    requires g == w * 262144 + x * 4096 + y * 64 + z
    ensures g / 65536 == w * 4 + x / 16
    ensures g / 256 == w * 1024 + x * 16 + y / 4
    ensures g % 256 == y % 4 * 64 + z
  {
    DivMod(w * 4 + x / 16, 65536, x % 16 * 4096 + y * 64 + z);
    DivMod(w * 1024 + x * 16 + y / 4, 256, y % 4 * 64 + z);
  }

  lemma MiddleOctet(w: nat, x: nat, y: nat)
    requires w < 64 && x < 64 && y < 64
    ensures (w * 1024 + x * 16 + y / 4) % 256 == x % 16 * 16 + y / 4 % 16
    ensures (w * 4 + x / 16) % 256 == w * 4 % 256 + x / 16 % 4
  {
    DivMod(w * 4 + x / 16, 256, x % 16 * 16 + y / 4);
  }

  lemma DecodeArithmetic(w: nat, x: nat, y: nat, z: nat)
    requires w < 64 && x < 64 && y < 64 && z < 64
    ensures [w * 4 % 256 + x / 16 % 4, x % 16 * 16 + y / 4 % 16, y % 4 * 64 + z]
            == Octets(FromSextets([w, x, y, z]))
  {
    HighOctets(w, x, y, z, FromSextets([w, x, y, z]));
    MiddleOctet(w, x, y);
  }

  // ---- The two loops.

  method PackSextets(in3: array<octet>, out4: array<octet>)
    requires in3.Length == 3 && out4.Length == 4 && in3 != out4
    modifies out4
    ensures out4[..] == Sextets(Group(in3[..]))
  {
    out4[0] := Top6(in3[0]);
    out4[1] := Low2(in3[0]) + Top4(in3[1]);
    out4[2] := Low4(in3[1]) + Top2(in3[2]);
    out4[3] := Low6(in3[2]);
    EncodeMasks(in3[0], in3[1], in3[2]);
    assert in3[..] == [in3[0], in3[1], in3[2]];
  }

  // Encodes the octets in3[..n] of one group.
  method EncodeGroup(in3: array<octet>, out4: array<octet>, n: nat) returns (q: string)
    requires in3.Length == 3 && out4.Length == 4 && in3 != out4 && 1 <= n <= 3
    requires forall k :: n <= k < 3 ==> in3[k] == 0
    modifies out4
    ensures q == EncodeBlock(in3[..n])
  {
    PackSextets(in3, out4);
    assert in3[..] == in3[..n] + seq(3 - n, _ => 0);
    ghost var x := out4[..];
    q := "";
    var j := 0;
    while j < n + 1
      invariant 0 <= j <= n + 1
      invariant out4[..] == x
      invariant q == Letters(x)[..j]
    {
      assert out4[j] == x[j];
      TableIsLetters();
      q := q + [BASE64_CHARS[out4[j]]];
      j := j + 1;
    }
  }

  // A full group is written: held and the octets after it are all that is
  // left to encode.
  lemma EncodeStep(done: string, held: seq<octet>, rest: seq<octet>, whole: string)
    requires |held| == 3 && done + Encode(held + rest) == whole
    ensures done + EncodeBlock(held) + Encode(rest) == whole
  {
    assert (held + rest)[..3] == held && (held + rest)[3..] == rest;
    CatAssoc(done, EncodeBlock(held), Encode(rest));
  }

  lemma Shift<T>(held: seq<T>, rest: seq<T>)
    requires rest != []
    ensures held + rest == (held + [rest[0]]) + rest[1..]
  {
  }

  // One octet into the group.
  method Hold(in3: array<octet>, i: nat, c: octet)
    requires in3.Length == 3 && i < 3
    modifies in3
    ensures in3[..i + 1] == old(in3[..i]) + [c]
  {
    in3[i] := c;
  }

  method Base64Encode(buf: seq<octet>) returns (ret: string)
    ensures ret == Encode(buf)
  {
    ret := "";
    var i := 0;
    var rest := buf;
    var in3, out4 := new octet[3], new octet[4];
    assert in3[..0] + buf == buf;
    while rest != []
      invariant 0 <= i < 3
      invariant ret + Encode(in3[..i] + rest) == Encode(buf)
      decreases |rest|
    {
      Shift(in3[..i], rest);
      Hold(in3, i, rest[0]);
      i, rest := i + 1, rest[1..];
      if i == 3 {
        EncodeStep(ret, in3[..3], rest, Encode(buf));
        var q := EncodeGroup(in3, out4, 3);
        ret := ret + q;
        i := 0;
        assert in3[..0] + rest == rest;
      }
    }
    assert in3[..i] + [] == in3[..i];
    if i != 0 {
      var tail := EncodeTail(in3, out4, i);
      ret := ret + tail;
    }
  }

  method EncodeTail(in3: array<octet>, out4: array<octet>, n: nat) returns (tail: string)
    requires in3.Length == 3 && out4.Length == 4 && in3 != out4 && 1 <= n < 3
    modifies in3, out4
    ensures tail == Encode(old(in3[..n]))
  {
    ghost var v := in3[..n];
    var j := n;
    while j < 3
      invariant n <= j <= 3
      invariant in3[..n] == v
      invariant forall k :: n <= k < j ==> in3[k] == 0
    {
      in3[j] := 0;
      j := j + 1;
    }
    var q := EncodeGroup(in3, out4, n);
    tail := q;
    var i := n;
    while i < 3
      invariant n <= i <= 3
      invariant tail == q + seq(i - n, _ => '=')
    {
      tail := tail + "=";
      i := i + 1;
    }
  }

  // The octets that four slots unpack to, fillers included.
  function Unpacked(w: octet, y: octet, z: octet, u: octet): (o: seq<octet>)
    ensures |o| == 3
  {
    [(Up2(w) + Mid2(y)) % 256, Up4(y) + Mid4(z), (Up6(z) + u) % 256]
  }

  function Slot(x: seq<nat>, k: nat): nat { if k < |x| then x[k] else 0 }

  lemma NoCarry(a: nat, b: nat)
    requires a % 4 == 0 && a < 256 && b < 4
    ensures (a + b) % 256 == a + b
  {
  }

  lemma UnpackedIs(w: octet, y: octet, z: octet, u: octet)
    requires u < 64
    ensures Unpacked(w, y, z, u) == [w * 4 % 256 + y / 16 % 4, y % 16 * 16 + z / 4 % 16, z % 4 * 64 + u]
  {
    NoCarry(Up2(w), Mid2(y));
    assert (Up6(z) + u) % 256 == z % 4 * 64 + u;
  }

  lemma UnpackedIsGroup(w: octet, y: octet, z: octet, u: octet)
    requires w < 64 && y < 64 && z < 64 && u < 64
    ensures Unpacked(w, y, z, u) == Octets(FromSextets([w as nat, y, z, u]))
  {
    UnpackedIs(w, y, z, u);
    DecodeArithmetic(w, y, z, u);
  }

  // Of the octets before the last, each depends on slots that are filled.
  lemma KeptOctets(n: nat, w: octet, y: octet, z: octet, u: octet, y': octet, z': octet, u': octet)
    requires 1 <= n <= 4
    requires (n > 1 ==> y == y') && (n > 2 ==> z == z') && (n > 3 ==> u == u')
    ensures Unpacked(w, y, z, u)[..n - 1] == Unpacked(w, y', z', u')[..n - 1]
  {
  }

  // A filler reaches no octet that is kept.
  lemma FillersUnused(x: seq<nat>, y: octet, z: octet, u: octet)
    requires 1 <= |x| <= 4 && forall k :: 0 <= k < |x| ==> x[k] < 64
    requires (|x| > 1 ==> y == x[1]) && (|x| > 2 ==> z == x[2]) && (|x| > 3 ==> u == x[3])
    ensures Unpacked(x[0], y, z, u)[..|x| - 1] == Octets(FromSextets(x + seq(4 - |x|, _ => 0)))[..|x| - 1]
  {
    var y', z', u' := Slot(x, 1), Slot(x, 2), Slot(x, 3);
    KeptOctets(|x|, x[0], y, z, u, y', z', u');
    UnpackedIsGroup(x[0], y', z', u');
    assert x + seq(4 - |x|, _ => 0) == [x[0], y', z', u'];
  }

  method UnpackOctets(in4: array<char>, out3: array<octet>)
    requires in4.Length == 4 && out3.Length == 3
    requires forall k :: 0 <= k < 4 ==> in4[k] as int < 256
    modifies out3
    ensures out3[..] == Unpacked(in4[0] as int, in4[1] as int, in4[2] as int, in4[3] as int)
  {
    var w, y, z, u := in4[0] as int, in4[1] as int, in4[2] as int, in4[3] as int;
    out3[0] := (Up2(w) + Mid2(y)) % 256;
    out3[1] := Up4(y) + Mid4(z);
    out3[2] := (Up6(z) + u) % 256;
  }

  // Decodes one group of which the first n characters are letters. The other
  // slots hold NUL, which the table look-up turns into the filler NPOS.
  method DecodeGroup(in4: array<char>, out3: array<octet>, n: nat) returns (o: seq<octet>)
    requires in4.Length == 4 && out3.Length == 3 && 1 <= n <= 4
    requires AllBase64(in4[..n])
    requires forall k :: n <= k < 4 ==> in4[k] == '\0'
    modifies in4, out3
    ensures o == DecodeBlock(old(in4[..n]))
  {
    ghost var v := in4[..n];
    var i := 0;
    while i < 4
      invariant 0 <= i <= 4
      invariant forall k :: 0 <= k < i ==> in4[k] as int == if k < n then Find(v[k]) else NPOS
      invariant forall k :: i <= k < 4 ==> in4[k] == if k < n then v[k] else '\0'
    {
      in4[i] := Find(in4[i]) as char;
      i := i + 1;
    }
    forall k | 0 <= k < n ensures Find(v[k]) < 64 { LetterInverse(0, v[k]); }
    FillersUnused(Values(v), in4[1] as int, in4[2] as int, in4[3] as int);
    UnpackOctets(in4, out3);
    assert out3[..n - 1] == out3[..][..n - 1];
    o := [];
    i := 0;
    while i < n - 1
      invariant 0 <= i <= n - 1
      invariant o == out3[..i]
    {
      o := o + [out3[i]];
      i := i + 1;
    }
  }

  lemma DecodeStep(done: seq<octet>, held: string, rest: string, whole: seq<octet>)
    requires |held| == 4 && done + DecodeLetters(held + rest) == whole
    ensures done + DecodeBlock(held) + DecodeLetters(rest) == whole
  {
    assert (held + rest)[..4] == held && (held + rest)[4..] == rest;
    CatAssoc(done, DecodeBlock(held), DecodeLetters(rest));
  }

  // One character into the group.
  method HoldChar(in4: array<char>, i: nat, c: char)
    requires in4.Length == 4 && i < 4
    modifies in4
    ensures in4[..i + 1] == old(in4[..i]) + [c]
  {
    in4[i] := c;
  }

  lemma PrefixStep(s: string)
    ensures s != "" && IsBase64(s[0]) ==> AlphaPrefix(s) == [s[0]] + AlphaPrefix(s[1..])
    ensures s == "" || !IsBase64(s[0]) ==> AlphaPrefix(s) == ""
  {
  }

  // One more letter into the group.
  method TakeLetter(in4: array<char>, i: nat, rest: string)
    requires in4.Length == 4 && i < 4 && rest != "" && IsBase64(rest[0]) && AllBase64(in4[..i])
    modifies in4
    ensures AllBase64(in4[..i + 1])
    ensures in4[..i + 1] + AlphaPrefix(rest[1..]) == old(in4[..i]) + AlphaPrefix(rest)
  {
    PrefixStep(rest);
    CatAssoc(in4[..i], [rest[0]], AlphaPrefix(rest[1..]));
    HoldChar(in4, i, rest[0]);
  }

  method Base64Decode(s: string) returns (ret: seq<octet>)
    ensures ret == Decode(s)
  {
    ret := [];
    var i := 0;
    var rest := s;
    var in4, out3 := new char[4], new octet[3];
    assert in4[..0] + AlphaPrefix(s) == AlphaPrefix(s) && [] + Decode(s) == Decode(s);
    while rest != "" && rest[0] != '=' && IsBase64(rest[0])
      invariant 0 <= i < 4
      invariant AllBase64(in4[..i])
      invariant ret + DecodeLetters(in4[..i] + AlphaPrefix(rest)) == Decode(s)
      decreases |rest|
    {
      TakeLetter(in4, i, rest);
      i, rest := i + 1, rest[1..];
      if i == 4 {
        ret := Flush(ret, in4, out3, AlphaPrefix(rest));
        i := 0;
        assert in4[..0] + AlphaPrefix(rest) == AlphaPrefix(rest);
      }
    }
    PrefixStep(rest);
    assert in4[..i] + "" == in4[..i];
    if i != 0 {
      var tail := DecodeTail(in4, out3, i);
      ret := ret + tail;
    }
  }

  // A full group is decoded.
  method Flush(done: seq<octet>, in4: array<char>, out3: array<octet>, ghost rest: string) returns (ret: seq<octet>)
    requires in4.Length == 4 && out3.Length == 3 && AllBase64(in4[..4])
    modifies in4, out3
    ensures ret + DecodeLetters(rest) == done + DecodeLetters(old(in4[..4]) + rest)
  {
    DecodeStep(done, in4[..4], rest, done + DecodeLetters(in4[..4] + rest));
    var o := DecodeGroup(in4, out3, 4);
    ret := done + o;
  }

  method DecodeTail(in4: array<char>, out3: array<octet>, n: nat) returns (o: seq<octet>)
    requires in4.Length == 4 && out3.Length == 3 && 1 <= n < 4
    requires AllBase64(in4[..n])
    modifies in4, out3
    ensures o == DecodeLetters(old(in4[..n]))
  {
    ghost var v := in4[..n];
    var j := n;
    while j < 4
      invariant n <= j <= 4
      invariant in4[..n] == v
      invariant forall m :: n <= m < j ==> in4[m] == '\0'
    {
      in4[j] := '\0';
      j := j + 1;
    }
    o := DecodeGroup(in4, out3, n);
  }

  // ---- What the encoding promises.

  lemma {:induction false} EncodedLength(b: seq<octet>)
    ensures |Encode(b)| == (|b| + 2) / 3 * 4
  {
    if |b| >= 3 { EncodedLength(b[3..]); }
  }

  lemma {:induction false} LettersLength(v: string)
    ensures |DecodeLetters(v)| == |v| * 3 / 4
  {
    if |v| >= 4 { LettersLength(v[4..]); }
  }

  // Whatever the text, only its longest alphabet prefix counts.
  lemma DecodedLength(s: string)
    ensures |Decode(s)| == AlphaLen(s) * 3 / 4
  {
    LettersLength(s[..AlphaLen(s)]);
  }

  lemma {:induction false} EncodeAppend(a: seq<octet>, b: seq<octet>)
    requires |a| % 3 == 0
    ensures Encode(a + b) == Encode(a) + Encode(b)
  {
    if a == [] {
      assert a + b == b;
    } else {
      EncodeAppend(a[3..], b);
      assert (a + b)[3..] == a[3..] + b && (a + b)[..3] == a[..3];
      CatAssoc(EncodeBlock(a[..3]), Encode(a[3..]), Encode(b));
    }
  }

  lemma OctetArithmetic(a: nat, b: nat, c: nat)
    requires a < 256 && b < 256 && c < 256
    ensures a / 4 * 4 % 256 + (a % 4 * 16 + b / 16) / 16 % 4 == a
    ensures (a % 4 * 16 + b / 16) % 16 * 16 + (b % 16 * 4 + c / 64) / 4 % 16 == b
    ensures (b % 16 * 4 + c / 64) % 4 * 64 + c % 64 == c
  {
    DivMod(a % 4, 16, b / 16);
    DivMod(b % 16, 4, c / 64);
  }

  lemma SextetArithmetic(w: nat, x: nat, y: nat, z: nat)
    requires w < 64 && x < 64 && y < 64 && z < 64
    ensures (w * 4 + x / 16) / 4 == w
    ensures (w * 4 + x / 16) % 4 * 16 + (x % 16 * 16 + y / 4) / 16 == x
    ensures (x % 16 * 16 + y / 4) % 16 * 4 + (y % 4 * 64 + z) / 64 == y
    ensures (y % 4 * 64 + z) % 64 == z
  {
    DivMod(w, 4, x / 16);
    DivMod(x % 16, 16, y / 4);
    DivMod(y % 4, 64, z);
  }

  lemma GroupInverse(o: seq<octet>)
    requires |o| == 3
    ensures Octets(FromSextets(Sextets(Group(o)))) == o
  {
    var a: int, b: int, c: int := o[0], o[1], o[2];
    assert o == [o[0], o[1], o[2]];
    EncodeArithmetic(o[0], o[1], o[2]);
    DecodeArithmetic(a / 4, a % 4 * 16 + b / 16, b % 16 * 4 + c / 64, c % 64);
    OctetArithmetic(a, b, c);
  }

  lemma SextetsOf(w: nat, x: nat, y: nat, z: nat, o: seq<octet>)
    requires w < 64 && x < 64 && y < 64 && z < 64
    requires o == [w * 4 + x / 16, x % 16 * 16 + y / 4, y % 4 * 64 + z]
    ensures Sextets(Group(o)) == [w, x, y, z]
  {
    EncodeArithmetic(o[0], o[1], o[2]);
    SextetArithmetic(w, x, y, z);
  }

  lemma SextetsInverse(v: seq<nat>)
    requires |v| == 4 && forall i :: 0 <= i < 4 ==> v[i] < 64
    ensures Sextets(Group(Octets(FromSextets(v)))) == v
  {
    var w, x, y, z := v[0], v[1], v[2], v[3];
    assert v == [w, x, y, z];
    ThereAndBack(w, x, y, z);
  }

  lemma ThereAndBack(w: nat, x: nat, y: nat, z: nat)
    requires w < 64 && x < 64 && y < 64 && z < 64
    ensures Sextets(Group(Octets(FromSextets([w, x, y, z])))) == [w, x, y, z]
  {
    DecodeArithmetic(w, x, y, z);
    SextetsOf(w, x, y, z, Octets(FromSextets([w, x, y, z])));
  }

  // Slots completed with zero bits give zero sextets, which are not written.
  lemma ZeroSextets(o: seq<octet>)
    requires |o| == 3
    ensures var x := Sextets(Group(o));
            && (o[2] == 0 ==> x[3] == 0 && x[2] % 4 == 0)
            && (o[1] == o[2] == 0 ==> x[2] == 0 && x[1] % 16 == 0)
  {
    assert o == [o[0], o[1], o[2]];
    EncodeArithmetic(o[0], o[1], o[2]);
  }

  lemma ValuesOfLetters(x: seq<nat>, n: nat)
    requires n <= |x| && forall i :: 0 <= i < |x| ==> x[i] < 64
    ensures AllBase64(Letters(x)[..n]) && Values(Letters(x)[..n]) == x[..n]
  {
    forall i | 0 <= i < n ensures IsBase64(Letters(x)[i]) && Find(Letters(x)[i]) == x[i] {
      LetterInverse(x[i], 'A');
    }
  }

  lemma BlockInverse(v: seq<octet>)
    requires 1 <= |v| <= 3
    ensures AllBase64(EncodeBlock(v)) && DecodeBlock(EncodeBlock(v)) == v
    ensures |v| == 1 ==> Find(EncodeBlock(v)[1]) % 16 == 0
    ensures |v| == 2 ==> Find(EncodeBlock(v)[2]) % 4 == 0
  {
    var o := v + seq(3 - |v|, _ => 0);
    var x := Sextets(Group(o));
    ZeroSextets(o);
    ValuesOfLetters(x, |v| + 1);
    assert x[..|v| + 1] + seq(3 - |v|, _ => 0) == x;
    GroupInverse(o);
    assert Find(EncodeBlock(v)[|v|]) == Values(EncodeBlock(v))[|v|];
  }

  predicate ZeroTail(v: string) {
    && |v| % 4 != 1
    && (|v| % 4 == 2 ==> Find(v[|v| - 1]) % 16 == 0)
    && (|v| % 4 == 3 ==> Find(v[|v| - 1]) % 4 == 0)
  }

  lemma ShortTail(w: nat, x: nat, y: nat, n: nat)
    requires w < 64 && x < 64 && y < 64
    requires (n == 2 && x % 16 == 0 && y == 0) || (n == 3 && y % 4 == 0)
    ensures var o := Octets(FromSextets([w, x, y, 0])); n == 2 ==> o[1] == o[2] == 0
    ensures Octets(FromSextets([w, x, y, 0]))[2] == 0
  {
    DecodeArithmetic(w, x, y, 0);
  }

  lemma BlockCanonical(v: string)
    requires 2 <= |v| <= 4 && AllBase64(v) && ZeroTail(v)
    ensures EncodeBlock(DecodeBlock(v)) == v
  {
    var x := Values(v) + seq(4 - |v|, _ => 0);
    forall i | 0 <= i < |v| ensures Find(v[i]) < 64 && Letter(Find(v[i])) == v[i] {
      LetterInverse(0, v[i]);
    }
    assert x == [x[0], x[1], x[2], x[3]];
    if |v| < 4 { ShortTail(x[0], x[1], x[2], |v|); }
    var o := Octets(FromSextets(x));
    assert DecodeBlock(v) + seq(4 - |v|, _ => 0) == o;
    SextetsInverse(x);
  }

  function Padding(n: nat): string { seq((3 - n % 3) % 3, _ => '=') }

  // The encoding without its padding.
  function EncodeLetters(b: seq<octet>): string {
    if |b| == 0 then "" else if |b| < 3 then EncodeBlock(b)
    else EncodeBlock(b[..3]) + EncodeLetters(b[3..])
  }

  lemma {:induction false} EncodeLettersLength(b: seq<octet>)
    ensures |EncodeLetters(b)| == (|b| * 4 + 2) / 3
  {
    if |b| >= 3 { EncodeLettersLength(b[3..]); }
  }

  lemma SamePadding(n: nat)
    ensures Padding(n + 3) == Padding(n)
  {
  }

  lemma {:induction false} EncodeIsPadded(b: seq<octet>)
    ensures Encode(b) == EncodeLetters(b) + Padding(|b|)
  {
    if |b| >= 3 {
      EncodeIsPadded(b[3..]);
      SamePadding(|b[3..]|);
      CatAssoc(EncodeBlock(b[..3]), EncodeLetters(b[3..]), Padding(|b|));
    }
  }

  lemma Prepend(e: string, r: string)
    requires |e| == 4 && AllBase64(e) && AllBase64(r)
    ensures AllBase64(e + r) && (ZeroTail(r) ==> ZeroTail(e + r))
    ensures DecodeLetters(e + r) == DecodeBlock(e) + DecodeLetters(r)
  {
    assert (e + r)[..4] == e && (e + r)[4..] == r;
  }

  lemma {:induction false} LettersInverse(b: seq<octet>)
    ensures AllBase64(EncodeLetters(b)) && ZeroTail(EncodeLetters(b))
    ensures DecodeLetters(EncodeLetters(b)) == b
  {
    if 0 < |b| < 3 {
      BlockInverse(b);
    } else if |b| >= 3 {
      var e, r := EncodeBlock(b[..3]), EncodeLetters(b[3..]);
      BlockInverse(b[..3]);
      LettersInverse(b[3..]);
      Prepend(e, r);
    }
  }

  lemma EncodePrepend(d: seq<octet>, r: seq<octet>)
    requires |d| == 3
    ensures EncodeLetters(d + r) == EncodeBlock(d) + EncodeLetters(r)
  {
    assert (d + r)[..3] == d && (d + r)[3..] == r;
  }

  lemma ZeroTailSplit(v: string)
    requires |v| >= 4 && AllBase64(v) && ZeroTail(v)
    ensures AllBase64(v[..4]) && ZeroTail(v[..4]) && AllBase64(v[4..]) && ZeroTail(v[4..])
  {
  }

  lemma {:induction false} LettersCanonical(v: string)
    requires AllBase64(v) && ZeroTail(v)
    ensures EncodeLetters(DecodeLetters(v)) == v
  {
    if 0 < |v| < 4 {
      BlockCanonical(v);
    } else if |v| >= 4 {
      ZeroTailSplit(v);
      BlockCanonical(v[..4]);
      LettersCanonical(v[4..]);
      EncodePrepend(DecodeBlock(v[..4]), DecodeLetters(v[4..]));
    }
  }

  lemma {:induction false} AlphaLenIs(s: string, k: nat)
    requires k <= |s| && AllBase64(s[..k]) && (k < |s| ==> !IsBase64(s[k]))
    ensures AlphaLen(s) == k
  {
    var n := AlphaLen(s);
    forall i | 0 <= i < k ensures IsBase64(s[i]) { assert s[..k][i] == s[i]; }
    forall i | 0 <= i < n ensures IsBase64(s[i]) { assert s[..n][i] == s[i]; }
  }

  lemma EncodedPrefix(b: seq<octet>)
    ensures AlphaLen(Encode(b)) == |EncodeLetters(b)| <= |Encode(b)|
    ensures Encode(b)[..|EncodeLetters(b)|] == EncodeLetters(b)
  {
    EncodeIsPadded(b);
    EncodeLettersLength(b);
    LettersInverse(b);
    assert Encode(b)[..|EncodeLetters(b)|] == EncodeLetters(b);
    AlphaLenIs(Encode(b), |EncodeLetters(b)|);
  }

  lemma DecodeInvertsEncode(b: seq<octet>)
    ensures Decode(Encode(b)) == b
  {
    EncodedPrefix(b);
    LettersInverse(b);
  }

  // Section 3.5 of RFC 4648: padded to a multiple of four with '=' alone,
  // and no bit set below the last octet.
  predicate Canonical(s: string) {
    var k := AlphaLen(s);
    && ZeroTail(s[..k])
    && |s| == (k + 3) / 4 * 4
    && forall i :: k <= i < |s| ==> s[i] == '='
  }

  lemma PadLength(n: nat)
    ensures (n * 4 + 2) / 3 + (3 - n % 3) % 3 == ((n * 4 + 2) / 3 + 3) / 4 * 4
  {
    var q, r := n / 3, n % 3;
    assert (n * 4 + 2) / 3 == q * 4 + (r * 4 + 2) / 3;
  }

  lemma PadCount(q: nat, r: nat, k: nat, n: nat)
    requires r < 4 && r != 1 && k == q * 4 + r && n == k * 3 / 4
    ensures (k + 3) / 4 * 4 - k == (3 - n % 3) % 3
  {
    if r == 0 {
      DivMod(q, 4, 3);
      DivMod(q * 3, 4, 0);
      DivMod(q, 3, 0);
    } else {
      DivMod(q + 1, 4, r - 1);
      DivMod(q * 3 + r - 1, 4, 4 - r);
      DivMod(q, 3, r - 1);
    }
  }

  lemma PaddingIs(s: string, k: nat, n: nat)
    requires k <= |s| && |s| - k == (3 - n % 3) % 3
    requires forall i :: k <= i < |s| ==> s[i] == '='
    ensures s == s[..k] + Padding(n)
  {
    assert s[k..] == Padding(n);
  }

  lemma CanonicalIsPadded(s: string)
    requires Canonical(s)
    ensures s == AlphaPrefix(s) + Padding(|Decode(s)|)
  {
    DecodedLength(s);
    PadCount(AlphaLen(s) / 4, AlphaLen(s) % 4, AlphaLen(s), |Decode(s)|);
    PaddingIs(s, AlphaLen(s), |Decode(s)|);
  }

  lemma CanonicalIsImage(s: string)
    requires Canonical(s)
    ensures Encode(Decode(s)) == s
  {
    LettersCanonical(AlphaPrefix(s));
    EncodeIsPadded(Decode(s));
    CanonicalIsPadded(s);
  }

  lemma PaddedIsCanonical(t: string, n: nat, s: string)
    requires AllBase64(t) && ZeroTail(t) && |t| == (n * 4 + 2) / 3
    requires s == t + Padding(n)
    ensures Canonical(s)
  {
    PadLength(n);
    assert s[..|t|] == t;
    AlphaLenIs(s, |t|);
  }

  lemma ImageIsCanonical(b: seq<octet>)
    ensures Canonical(Encode(b))
  {
    EncodeIsPadded(b);
    EncodeLettersLength(b);
    LettersInverse(b);
    PaddedIsCanonical(EncodeLetters(b), |b|, Encode(b));
  }

  lemma EncodeInvertsDecode(s: string)
    ensures Encode(Decode(s)) == s <==> Canonical(s)
  {
    if Canonical(s) { CanonicalIsImage(s); }
    ImageIsCanonical(Decode(s));
  }
}
