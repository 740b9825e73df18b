/** The Internet checksum of IPComm.cc (RFC 1071): words loaded in host order
    into a 32-bit accumulator, the carries folded back, the complement taken. */
module Checksum {
  import opened Bytes

  datatype Host = LittleEndian | BigEndian

  const WRAP: int := 0x1_0000_0000

  // The 16-bit load *buf_ptr of the host.
  function Load(h: Host, b0: octet, b1: octet): nat {
    if h.LittleEndian? then b0 + 256 * (b1 as int) else b1 + 256 * (b0 as int)
  }

  // The sum the accumulator is meant to hold; a byte left over is added as it is.
  function Sum(h: Host, b: seq<octet>): nat {
    if |b| == 0 then 0 else if |b| == 1 then b[0]
    else Load(h, b[0], b[1]) + Sum(h, b[2..])
  }

  function Fold(s: nat): (r: nat)
    ensures r <= 65535
  {
    if s < 65536 then s else Fold(s % 65536 + s / 65536)
  }

  // What the source returns: the sum is cut to 32 bits on the way.
  function Cksum(h: Host, b: seq<octet>): (c: nat)
    ensures c <= 65535
  {
    65535 - Fold(Sum(h, b) % WRAP)
  }

  lemma WrapStep(sum: nat, word: nat, rest: nat, whole: nat)
    requires (sum + (word + rest)) % WRAP == whole % WRAP
    ensures ((sum + word) % WRAP + rest) % WRAP == whole % WRAP
  {
    var a := sum + word;
    assert a == a / WRAP * WRAP + a % WRAP;
    var k := a / WRAP;
    assert a % WRAP + rest == sum + (word + rest) - k * WRAP;
    ModShift(a % WRAP + rest, k);
  }

  lemma {:induction false} ModShift(x: nat, k: nat)
    ensures (x + k * WRAP) % WRAP == x % WRAP
  {
    if k > 0 { ModShift(x, k - 1); }
  }

  // The loop over the words, and the octet left over.
  method AddUp(h: Host, buf: seq<octet>) returns (sum: nat)
    ensures sum == Sum(h, buf) % WRAP
  {
    sum := 0;
    var rest := buf;
    while |rest| > 1
      invariant sum < WRAP
      invariant (sum + Sum(h, rest)) % WRAP == Sum(h, buf) % WRAP
      decreases |rest|
    {
      WrapStep(sum, Load(h, rest[0], rest[1]), Sum(h, rest[2..]), Sum(h, buf));
      sum := (sum + Load(h, rest[0], rest[1])) % WRAP;
      rest := rest[2..];
    }
    if |rest| == 1 {
      WrapStep(sum, rest[0], 0, Sum(h, buf));
      sum := (sum + rest[0]) % WRAP;
    }
    SmallMod(sum);
  }

  method CalculateCksum(h: Host, buf: seq<octet>) returns (cksum: nat)
    ensures cksum == Cksum(h, buf)
  {
    var sum := AddUp(h, buf);
    sum := FoldSum(sum);
    cksum := 65535 - sum;
  }

  // while (sum >> 16) sum = (sum & 0xffff) + (sum >> 16);
  method FoldSum(total: nat) returns (sum: nat)
    requires total < WRAP
    ensures sum == Fold(total)
  {
    sum := total;
    while sum / 65536 != 0
      invariant sum < WRAP && Fold(sum) == Fold(total)
      decreases sum
    {
      sum := sum % 65536 + sum / 65536;
    }
  }

  // ---- Folding is arithmetic modulo 65535 that tells 0 from 65535.

  lemma {:induction false} FoldQuotient(s: nat) returns (q: nat)
    ensures s == Fold(s) + 65535 * q
    ensures Fold(s) == 0 <==> s == 0
  {
    if s < 65536 {
      q := 0;
    } else {
      q := FoldQuotient(s % 65536 + s / 65536);
      q := q + s / 65536;
    }
  }

  lemma FoldIs(s: nat, r: nat, q: int)
    requires 1 <= r <= 65535 && s == r + 65535 * q && s > 0
    ensures Fold(s) == r
  {
    var p := FoldQuotient(s);
    assert 65535 * (p - q) == r - Fold(s);
  }

  lemma FoldClosedForm(s: nat)
    ensures Fold(s) == if s == 0 then 0 else (s - 1) % 65535 + 1
    ensures Fold(s) % 65535 == s % 65535
  {
    var q := FoldQuotient(s);
    if s > 0 { Residue(s - 1, Fold(s) - 1, q); }
    if Fold(s) == 65535 { Residue(s, 0, q + 1); } else { Residue(s, Fold(s), q); }
  }

  lemma Residue(x: nat, r: nat, q: nat)
    requires r < 65535 && x == r + 65535 * q
    ensures x % 65535 == r
  {
  }

  // ---- The accumulator.

  lemma {:induction false} SumBound(h: Host, b: seq<octet>)
    ensures Sum(h, b) <= |b| / 2 * 65535 + |b| % 2 * 255
  {
    if |b| >= 2 { SumBound(h, b[2..]); }
  }

  lemma SmallMod(s: nat)
    requires s < WRAP
    ensures s % WRAP == s
  {
  }

  lemma Fits32(n: nat)
    requires n <= 131074
    ensures n / 2 * 65535 + n % 2 * 255 < WRAP
  {
  }

  lemma NoWrap(h: Host, b: seq<octet>)
    requires |b| <= 131074
    ensures Sum(h, b) < WRAP
    ensures Cksum(h, b) == 65535 - Fold(Sum(h, b))
  {
    SumBound(h, b);
    Fits32(|b|);
    SmallMod(Sum(h, b));
  }

  function Ones(n: nat): (b: seq<octet>)
    ensures |b| == n
  {
    seq(n, _ => 255)
  }

  lemma {:induction false} SumOfOnes(h: Host, n: nat)
    ensures Sum(h, Ones(n)) == n / 2 * 65535 + n % 2 * 255
  {
    if n >= 2 {
      assert Ones(n)[2..] == Ones(n - 2);
      SumOfOnes(h, n - 2);
    }
  }

  // The bound is exact: octets of ones wrap the accumulator from the very
  // next length on.
  lemma BoundIsExact(h: Host, n: nat)
    ensures Sum(h, Ones(n)) >= WRAP <==> n > 131074
  {
    SumOfOnes(h, n);
  }

  lemma Wrapped(h: Host, b: seq<octet>, t: nat)
    requires Sum(h, b) == WRAP + t && t < 65536
    ensures Cksum(h, b) == 65535 - t
  {
    assert Sum(h, b) % WRAP == t;
  }

  // With the carry out of bit 31 the result is lost: one octet past the bound
  // it should be 65280, one word past it should be 0.
  lemma BoundIsTight(h: Host, n: nat)
    requires n == 131075 || n == 131076
    ensures Sum(h, Ones(n)) >= WRAP
    ensures Cksum(h, Ones(n)) == if n == 131075 then 65281 else 1
    ensures 65535 - Fold(Sum(h, Ones(n))) == if n == 131075 then 65280 else 0
  {
    SumOfOnes(h, n);
    var t, r := if n == 131075 then 254 else 65534, if n == 131075 then 255 else 65535;
    Wrapped(h, Ones(n), t);
    FoldIs(WRAP + t, r, 65537);
  }

  // ---- Verification, section 1 of RFC 1071.

  // The 16-bit field at k, stored in host order.
  function Store(h: Host, b: seq<octet>, k: nat, v: nat): (r: seq<octet>)
    requires k + 2 <= |b| && v <= 65535
    ensures |r| == |b|
  {
    if h.LittleEndian? then b[k := v % 256][k + 1 := v / 256]
    else b[k := v / 256][k + 1 := v % 256]
  }

  lemma {:induction false} SumStore(h: Host, b: seq<octet>, k: nat, v: nat)
    requires k % 2 == 0 && k + 2 <= |b| && v <= 65535
    requires b[k] == b[k + 1] == 0
    ensures Sum(h, Store(h, b, k, v)) == Sum(h, b) + v
  {
    var r := Store(h, b, k, v);
    if k == 0 {
      assert r[2..] == b[2..];
    } else {
      SumStore(h, b[2..], k - 2, v);
      assert r[2..] == Store(h, b[2..], k - 2, v);
    }
  }

  // The accumulator and the checksum of what it holds add up to a multiple of
  // 65535 that still fits: 65535 * 65537 is WRAP - 1.
  lemma ComplementFits(t: nat) returns (q: nat)
    requires t < WRAP
    ensures t + (65535 - Fold(t)) == 65535 + 65535 * q < WRAP
  {
    q := FoldQuotient(t);
    assert q <= 65536;
  }

  lemma AddedModulo(s: nat, c: nat)
    requires s % WRAP + c < WRAP
    ensures (s + c) % WRAP == s % WRAP + c
  {
    assert s + c == s % WRAP + c + s / WRAP * WRAP;
    ModShift(s % WRAP + c, s / WRAP);
  }

  // For a buffer of any length: also where the accumulator wraps, storing the
  // checksum does not make it wrap once more.
  lemma StoredChecksumVerifies(h: Host, b: seq<octet>, k: nat)
    requires k % 2 == 0 && k + 2 <= |b| && b[k] == b[k + 1] == 0
    ensures Cksum(h, Store(h, b, k, Cksum(h, b))) == 0
  {
    var t, c := Sum(h, b) % WRAP, Cksum(h, b);
    SumStore(h, b, k, c);
    var q := ComplementFits(t);
    AddedModulo(Sum(h, b), c);
    FoldIs(t + c, 65535, q);
  }

  // ---- Byte order, section 2(B) of RFC 1071.

  function Swap(x: nat): nat
    requires x <= 65535
  {
    x % 256 * 256 + x / 256
  }

  // An odd buffer is continued with a zero byte.
  function Pad(b: seq<octet>): seq<octet> {
    if |b| % 2 == 0 then b else b + [0]
  }

  lemma {:induction false} SumsAreSwapped(b: seq<octet>) returns (evens: nat)
    ensures 256 * Sum(BigEndian, Pad(b)) == Sum(LittleEndian, b) + 65535 * evens
    ensures Sum(BigEndian, Pad(b)) == 0 <==> Sum(LittleEndian, b) == 0
  {
    if |b| == 0 {
      evens := 0;
    } else if |b| == 1 {
      evens := b[0];
      assert Pad(b)[2..] == [];
    } else {
      evens := SumsAreSwapped(b[2..]);
      assert Pad(b)[2..] == Pad(b[2..]);
      evens := evens + b[0];
    }
  }

  // Two sums fold to swapped words exactly if they are congruent as swapped
  // words are, and both or neither is nothing.
  lemma SwapFold(big: nat, little: nat)
    ensures Fold(little) == Swap(Fold(big))
      <==> (256 * big - little) % 65535 == 0 && (big == 0 <==> little == 0)
  {
    var p: int := FoldQuotient(big);
    var q: int := FoldQuotient(little);
    var f: int, g: int := Fold(big), Fold(little);
    assert 256 * f == Swap(f) + 65535 * (f / 256);
    var k: int := 256 * p + f / 256 - q;
    assert 256 * big - little == Swap(f) - g + 65535 * k;
    Multiple(Swap(f) - g, k);
  }

  // A difference of two remainders.
  lemma Multiple(d: int, k: int)
    requires -65535 <= d <= 65535
    ensures (d + 65535 * k) % 65535 == 0 <==> d == 0 || d == 65535 || d == -65535
  {
    var n := d + 65535 * k;
    if n % 65535 == 0 {
      assert d == 65535 * (n / 65535 - k);
    } else {
      assert d != 0 && d != 65535 && d != -65535 by {
        Exactly(k);
      }
    }
  }

  lemma Exactly(k: int)
    ensures (65535 * k) % 65535 == 0 && (65535 + 65535 * k) % 65535 == 0 && (-65535 + 65535 * k) % 65535 == 0
  {
    assert 65535 + 65535 * k == 65535 * (k + 1) && -65535 + 65535 * k == 65535 * (k - 1);
  }

  lemma SwapComplement(f: nat)
    requires f <= 65535
    ensures Swap(65535 - f) == 65535 - Swap(f)
  {
    assert (65535 - f) / 256 == 255 - f / 256;
  }

  lemma OppositeMultiple(x: int, y: int, m: int)
    requires x == 65535 * m - y
    ensures x % 65535 == 0 <==> y % 65535 == 0
  {
    if x % 65535 == 0 {
      assert y == 65535 * (m - x / 65535);
      Exactly(m - x / 65535);
    }
    if y % 65535 == 0 {
      assert x == 65535 * (m - y / 65535);
      Exactly(m - y / 65535);
    }
  }

  // Whether what was lost in the two sums fits together.
  predicate LostAlike(big: nat, little: nat) {
    (256 * (big / WRAP) - little / WRAP) % 65535 == 0 && (big % WRAP == 0 <==> little % WRAP == 0)
  }

  lemma WrappedSums(big: nat, little: nat, evens: nat)
    requires 256 * big == little + 65535 * evens
    ensures (256 * (big % WRAP) - little % WRAP) % 65535 == 0 <==> (256 * (big / WRAP) - little / WRAP) % 65535 == 0
  {
    var lost := 256 * (big / WRAP) - little / WRAP;
    assert big == big / WRAP * WRAP + big % WRAP && little == little / WRAP * WRAP + little % WRAP;
    assert 256 * (big % WRAP) - little % WRAP == 65535 * (evens - 65537 * lost) - lost;
    OppositeMultiple(256 * (big % WRAP) - little % WRAP, lost, evens - 65537 * lost);
  }

  // For every buffer: the little-endian checksum is the big-endian one with
  // its bytes swapped exactly if the wraps of the two accumulators fit.
  lemma ByteOrderIndependent(b: seq<octet>)
    ensures Cksum(LittleEndian, b) == Swap(Cksum(BigEndian, Pad(b)))
      <==> LostAlike(Sum(BigEndian, Pad(b)), Sum(LittleEndian, b))
  {
    var big, little := Sum(BigEndian, Pad(b)), Sum(LittleEndian, b);
    var evens := SumsAreSwapped(b);
    WrappedSums(big, little, evens);
    SwapFold(big % WRAP, little % WRAP);
    SwapComplement(Fold(big % WRAP));
  }

  // Up to twice the length that is safe for every buffer, the condition is
  // that neither accumulator wraps, as none does up to that length.
  lemma ByteOrderUpTo(b: seq<octet>)
    requires |b| <= 262148
    ensures Cksum(LittleEndian, b) == Swap(Cksum(BigEndian, Pad(b)))
      <==> Sum(BigEndian, Pad(b)) < WRAP && Sum(LittleEndian, b) < WRAP
    ensures |b| <= 131074 ==> Cksum(LittleEndian, b) == Swap(Cksum(BigEndian, Pad(b)))
  {
    var big, little := Sum(BigEndian, Pad(b)), Sum(LittleEndian, b);
    ByteOrderIndependent(b);
    var evens := SumsAreSwapped(b);
    PadWithin(b, 262148);
    AtMostOneWrap(BigEndian, Pad(b));
    AtMostOneWrap(LittleEndian, b);
    LostAlikeSmall(big, little);
    if |b| <= 131074 { NeitherWraps(b); }
  }

  lemma PadWithin(b: seq<octet>, n: nat)
    requires n % 2 == 0 && |b| <= n
    ensures |Pad(b)| <= n
  {
  }

  lemma NeitherWraps(b: seq<octet>)
    requires |b| <= 131074
    ensures Sum(BigEndian, Pad(b)) < WRAP && Sum(LittleEndian, b) < WRAP
  {
    PadWithin(b, 131074);
    NoWrap(BigEndian, Pad(b));
    NoWrap(LittleEndian, b);
  }

  lemma AtMostOneWrap(h: Host, b: seq<octet>)
    requires |b| <= 262148
    ensures Sum(h, b) < 2 * WRAP
  {
    SumBound(h, b);
    assert |b| / 2 * 65535 + |b| % 2 * 255 < 2 * WRAP;
  }

  lemma LostAlikeSmall(big: nat, little: nat)
    requires big < 2 * WRAP && little < 2 * WRAP && (big == 0 <==> little == 0)
    ensures LostAlike(big, little) <==> big < WRAP && little < WRAP
  {
    OneWrap(big);
    OneWrap(little);
  }

  lemma OneWrap(s: nat)
    requires s < 2 * WRAP
    ensures s / WRAP == if s < WRAP then 0 else 1
    ensures s < WRAP ==> s % WRAP == s
  {
  }

  // 131076 octets of ones: both hosts answer 1, and 1 with its bytes swapped
  // is 256.
  lemma ByteOrderLost(n: nat)
    requires n == 131076
    ensures Cksum(LittleEndian, Ones(n)) == 1 && Swap(Cksum(BigEndian, Pad(Ones(n)))) == 256
  {
    BoundIsTight(LittleEndian, n);
    BoundIsTight(BigEndian, n);
  }

  lemma {:induction false} OddSum(b: seq<octet>)
    requires |b| % 2 == 1
    ensures Sum(BigEndian, Pad(b)) == Sum(BigEndian, b) + 255 * (b[|b| - 1] as int)
  {
    if |b| == 1 {
      assert Pad(b)[2..] == [];
    } else {
      assert Pad(b)[2..] == Pad(b[2..]);
      OddSum(b[2..]);
    }
  }

  // A big-endian host adds the byte left over to the wrong half of its word:
  // the result is the checksum of the padded buffer only when that byte is 0.
  lemma OddLengthOnBigEndian(b: seq<octet>)
    ensures Cksum(BigEndian, b) == Cksum(BigEndian, Pad(b)) <==> |b| % 2 == 0 || b[|b| - 1] == 0
  {
    if |b| % 2 == 1 {
      OddSum(b);
      WrappedFoldsApart(Sum(BigEndian, b), b[|b| - 1] as int);
    }
  }

  // Also if the octet makes the accumulator wrap: what is lost then is 1 more
  // than a multiple of 65535, and no multiple of 255 makes up for it.
  lemma WrappedFoldsApart(s: nat, x: nat)
    requires x < 256
    ensures Fold(s % WRAP) == Fold((s + 255 * x) % WRAP) <==> x == 0
  {
    var t := s % WRAP;
    if t + 255 * x < WRAP {
      AddedModulo(s, 255 * x);
      FoldsApart(t, x);
    } else {
      CarriedModulo(s, 255 * x);
      CarriedFoldsApart(t, x);
    }
  }

  lemma CarriedModulo(s: nat, c: nat)
    requires WRAP <= s % WRAP + c < 2 * WRAP
    ensures (s + c) % WRAP == s % WRAP + c - WRAP
  {
    assert s + c == (s % WRAP + c - WRAP) + (s / WRAP + 1) * WRAP;
    ModShift(s % WRAP + c - WRAP, s / WRAP + 1);
  }

  lemma CarriedFoldsApart(t: nat, x: nat)
    requires x < 256 && WRAP <= t + 255 * x
    ensures Fold(t) != Fold(t + 255 * x - WRAP)
  {
    var p: int := FoldQuotient(t);
    var q: int := FoldQuotient(t + 255 * x - WRAP);
    var y: int := 257 * 65537 - x + 257 * (q - p);
    assert Fold(t) - Fold(t + 255 * x - WRAP) == 255 * y + 1;
    NeverNothing(y);
  }

  lemma NeverNothing(y: int)
    ensures 255 * y + 1 != 0
  {
  }

  // Adding less than 65535, but not nothing, changes the fold.
  lemma FoldsApart(s: nat, x: nat)
    requires x < 256
    ensures Fold(s) == Fold(s + 255 * x) <==> x == 0
  {
    var p := FoldQuotient(s);
    var q := FoldQuotient(s + 255 * x);
    if Fold(s) == Fold(s + 255 * x) {
      assert 255 * (257 * (q - p)) == 255 * x;
    }
  }

  // A single octet, summed into the low half of a word and into the high one.
  lemma OneOctet(b: seq<octet>)
    requires b == [1]
    ensures Cksum(BigEndian, b) == 65534 && Cksum(BigEndian, Pad(b)) == 65279
  {
    var p := Pad(b);
    assert p == [1, 0] && p[2..] == [];
    assert Load(BigEndian, p[0], p[1]) == 256 && Sum(BigEndian, p[2..]) == 0;
    assert Sum(BigEndian, p) == 256;
  }

  // ---- Word order.

  function Words(h: Host, b: seq<octet>): seq<nat>
    requires |b| % 2 == 0
  {
    if b == [] then [] else [Load(h, b[0], b[1])] + Words(h, b[2..])
  }

  function Total(w: seq<nat>): nat {
    if w == [] then 0 else w[0] + Total(w[1..])
  }

  lemma {:induction false} SumIsTotal(h: Host, b: seq<octet>)
    requires |b| % 2 == 0
    ensures Sum(h, b) == Total(Words(h, b))
  {
    if b != [] { SumIsTotal(h, b[2..]); }
  }

  lemma {:induction false} TotalWithout(w: seq<nat>, i: nat)
    requires i < |w|
    ensures Total(w) == w[i] + Total(w[..i] + w[i + 1..])
  {
    if i == 0 {
      assert w[..0] + w[1..] == w[1..];
    } else {
      TotalWithout(w[1..], i - 1);
      assert (w[..i] + w[i + 1..])[1..] == w[1..][..i - 1] + w[1..][i..];
    }
  }

  lemma MultisetWithout(w: seq<nat>, i: nat)
    requires i < |w|
    ensures multiset(w[..i] + w[i + 1..]) == multiset(w) - multiset{w[i]}
  {
    assert w == w[..i] + ([w[i]] + w[i + 1..]);
  }

  lemma {:induction false} TotalOfPermutation(v: seq<nat>, w: seq<nat>)
    requires multiset(v) == multiset(w)
    ensures Total(v) == Total(w)
  {
    if v == [] {
      assert |w| == |multiset(w)| == 0;
    } else {
      assert v[0] in multiset(v);
      var i :| 0 <= i < |w| && w[i] == v[0];
      OneLess(v, w, i);
      TotalOfPermutation(v[1..], w[..i] + w[i + 1..]);
      TotalWithout(w, i);
    }
  }

  lemma OneLess(v: seq<nat>, w: seq<nat>, i: nat)
    requires v != [] && i < |w| && w[i] == v[0] && multiset(v) == multiset(w)
    ensures multiset(v[1..]) == multiset(w[..i] + w[i + 1..])
  {
    MultisetWithout(v, 0);
    MultisetWithout(w, i);
    assert v[..0] + v[1..] == v[1..];
  }

  lemma WordOrderIndependent(h: Host, a: seq<octet>, b: seq<octet>)
    requires |a| % 2 == 0 && |b| % 2 == 0
    requires multiset(Words(h, a)) == multiset(Words(h, b))
    ensures Cksum(h, a) == Cksum(h, b)
  {
    SumIsTotal(h, a);
    SumIsTotal(h, b);
    TotalOfPermutation(Words(h, a), Words(h, b));
  }
}
