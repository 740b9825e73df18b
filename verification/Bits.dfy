/** The masks and shifts of Base64.cc on one octet, and the division or
    remainder that each of them is. A shift to the left drops the bits that
    storing its result in an octet would drop. */
module Bits {
  import opened Bytes

  lemma Doubled(b: bv8)
    requires b as int < 128
    ensures (b << 1) as int == 2 * (b as int)
    ensures ((b << 1) | 1) as int == 2 * (b as int) + 1
  {
  }

  // The bits of an octet.
  function Bits(a: octet): (b: bv8)
    ensures b as int == a
  {
    if a == 0 then 0
    else
      var high := Bits(a / 2);
      Doubled(high);
      if a % 2 == 0 then high << 1 else (high << 1) | 1
  }

  lemma EncoderMasks(b: bv8)
    ensures ((b & 0xfc) >> 2) as int == b as int / 4
    ensures ((b & 0x03) << 4) as int == b as int % 4 * 16
    ensures ((b & 0xf0) >> 4) as int == b as int / 16
    ensures ((b & 0x0f) << 2) as int == b as int % 16 * 4
    ensures ((b & 0xc0) >> 6) as int == b as int / 64
    ensures (b & 0x3f) as int == b as int % 64
  {
  }

  lemma DecoderLeft(b: bv8)
    ensures (b << 2) as int == b as int * 4 % 256
    ensures ((b & 0x0f) << 4) as int == b as int % 16 * 16
    ensures ((b & 0x03) << 6) as int == b as int % 4 * 64
  {
  }

  lemma DecoderRight(b: bv8)
    ensures ((b & 0x30) >> 4) as int == b as int / 16 % 4
  {
  }

  lemma Quarter(b: bv8)
    ensures (b / 4) as int == b as int / 4
  {
  }

  lemma LowHalf(b: bv8)
    ensures (b % 16) as int == b as int % 16
  {
  }

  lemma DecoderMiddle(b: bv8)
    ensures ((b & 0x3c) >> 2) as int == b as int / 4 % 16
  {
    assert (b & 0x3c) >> 2 == b / 4 % 16;
    Quarter(b);
    LowHalf(b / 4);
  }

  // ---- The terms of the encoder.

  function Top6(a: octet): (r: nat)
    ensures r == a / 4
  {
    EncoderMasks(Bits(a));
    ((Bits(a) & 0xfc) >> 2) as int
  }

  function Low2(a: octet): (r: nat)
    ensures r == a % 4 * 16
  {
    EncoderMasks(Bits(a));
    ((Bits(a) & 0x03) << 4) as int
  }

  function Top4(a: octet): (r: nat)
    ensures r == a / 16
  {
    EncoderMasks(Bits(a));
    ((Bits(a) & 0xf0) >> 4) as int
  }

  function Low4(a: octet): (r: nat)
    ensures r == a % 16 * 4
  {
    EncoderMasks(Bits(a));
    ((Bits(a) & 0x0f) << 2) as int
  }

  function Top2(a: octet): (r: nat)
    ensures r == a / 64
  {
    EncoderMasks(Bits(a));
    ((Bits(a) & 0xc0) >> 6) as int
  }

  function Low6(a: octet): (r: nat)
    ensures r == a % 64
  {
    EncoderMasks(Bits(a));
    (Bits(a) & 0x3f) as int
  }

  // ---- The terms of the decoder.

  function Up2(a: octet): (r: nat)
    ensures r == (a as int) * 4 % 256
  {
    DecoderLeft(Bits(a));
    (Bits(a) << 2) as int
  }

  function Mid2(a: octet): (r: nat)
    ensures r == a / 16 % 4
  {
    DecoderRight(Bits(a));
    ((Bits(a) & 0x30) >> 4) as int
  }

  function Up4(a: octet): (r: nat)
    ensures r == a % 16 * 16
  {
    DecoderLeft(Bits(a));
    ((Bits(a) & 0x0f) << 4) as int
  }

  function Mid4(a: octet): (r: nat)
    ensures r == a / 4 % 16
  {
    DecoderMiddle(Bits(a));
    ((Bits(a) & 0x3c) >> 2) as int
  }

  function Up6(a: octet): (r: nat)
    ensures r == a % 4 * 64
  {
    DecoderLeft(Bits(a));
    ((Bits(a) & 0x03) << 6) as int
  }
}
