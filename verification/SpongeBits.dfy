/** Bits and bytes: the byte-wise padding and lane order of module Sponge are those that FIPS 202 defines on
    bit strings (section 5.1, appendix B.1). */
module SpongeBits {
  import opened Keccak
  import opened Sponge

  type Bits = seq<bool>

  predicate ByteBit(b: Byte, j: bv64)
    requires j < 8
  {
    (b.octet as bv64 >> j) & 1 == 1
  }

  /** Appendix B.1: the least significant bit comes first. */
  function ByteBits(b: Byte): (z: Bits)
    ensures |z| == 8
  {
    [ByteBit(b, 0), ByteBit(b, 1), ByteBit(b, 2), ByteBit(b, 3),
     ByteBit(b, 4), ByteBit(b, 5), ByteBit(b, 6), ByteBit(b, 7)]
  }

  function BitString(msg: Bytes): (z: Bits)
    ensures |z| == 8 * |msg|
  {
    if msg == [] then [] else ByteBits(msg[0]) + BitString(msg[1..])
  }

  function Falses(n: nat): Bits {
    seq(n, _ => false)
  }

  /** Section 5.1: pad10*1(x, m) is 1, then -(m + 2) mod x zeros, then 1; x is the rate, 1088 bits. */
  function Pad101(m: nat): Bits {
    [true] + Falses(-(m + 2) % 1088) + [true]
  }

  lemma {:induction false} BitStringConcat(a: Bytes, b: Bytes)
    ensures BitString(a + b) == BitString(a) + BitString(b)
  {
    hide ByteBits;
    if a == [] {
      assert a + b == b;
    } else {
      assert (a + b)[1..] == a[1..] + b;
      BitStringConcat(a[1..], b);
    }
  }

  lemma {:induction false} BitStringOfZeros(n: nat)
    ensures BitString(Zeros(n)) == Falses(8 * n)
  {
    if n > 0 {
      BitStringOfZeros(n - 1);
      assert Zeros(n)[1..] == Zeros(n - 1);
      assert ByteBits(ZERO_BYTE) == Falses(8);
    }
  }

  lemma BitStringOfOne(b: Byte)
    ensures BitString([b]) == ByteBits(b)
  {
    assert BitString([]) == [];
  }

  /** The domain bits of section 6.1 are 01; pad10*1 sees the message with them appended. */
  lemma Sha3Padding(len: nat)
    ensures BitString(Padding(len, SHA3_DOMAIN)) == [false, true] + Pad101(8 * len + 2)
  {
    assert ByteBits(SHA3_DOMAIN) == [false, true, true] + Falses(5);
    assert ByteBits(OrByte(SHA3_DOMAIN, Byte(0x80))) == [false, true, true] + Falses(4) + [true];
    PaddingBits(len, SHA3_DOMAIN, [false, true]);
  }

  /** The domain bits of section 6.2 are 1111. */
  lemma ShakePadding(len: nat)
    ensures BitString(Padding(len, SHAKE_DOMAIN)) == [true, true, true, true] + Pad101(8 * len + 4)
  {
    assert ByteBits(SHAKE_DOMAIN) == [true, true, true, true, true] + Falses(3);
    assert ByteBits(OrByte(SHAKE_DOMAIN, Byte(0x80))) == [true, true, true, true, true] + Falses(2) + [true];
    PaddingBits(len, SHAKE_DOMAIN, [true, true, true, true]);
  }

  lemma PaddingBits(len: nat, domain: Byte, suffix: Bits)
    requires |suffix| <= 6
    requires ByteBits(domain) == suffix + [true] + Falses(7 - |suffix|)
    requires ByteBits(OrByte(domain, Byte(0x80))) == suffix + [true] + Falses(6 - |suffix|) + [true]
    ensures BitString(Padding(len, domain)) == suffix + Pad101(8 * len + |suffix|)
  {
    hide ByteBits, OrByte, BitString;
    var gap := RATE - len % RATE;
    PadZeros(len, |suffix|);
    if gap == 1 {
      BitStringOfOne(OrByte(domain, Byte(0x80)));
    } else {
      LastBit();
      ThreePieces(domain, gap - 2, Byte(0x80));
      assert Falses(8 * gap - 2 - |suffix|) == Falses(7 - |suffix|) + Falses(8 * (gap - 2)) + Falses(7);
    }
  }

  lemma ThreePieces(first: Byte, n: nat, last: Byte)
    ensures BitString([first] + Zeros(n) + [last]) == ByteBits(first) + Falses(8 * n) + ByteBits(last)
  {
    hide ByteBits;
    BitStringConcat([first] + Zeros(n), [last]);
    BitStringConcat([first], Zeros(n));
    BitStringOfOne(first);
    BitStringOfOne(last);
    BitStringOfZeros(n);
  }

  lemma LastBit()
    ensures ByteBits(Byte(0x80)) == Falses(7) + [true]
  {
  }

  lemma PadZeros(len: nat, k: nat)
    requires k <= 6
    ensures -(8 * len + k + 2) % 1088 == 8 * (RATE - len % RATE) - 2 - k
  {
    var gap := RATE - len % RATE;
    QuotientUnique(-(8 * len + k + 2), -(len / RATE) - 1, 8 * gap - 2 - k);
  }

  lemma QuotientUnique(n: int, q: int, r: nat)
    requires n == 1088 * q + r && r < 1088
    ensures n % 1088 == r
  {
  }

  // ---------------------------------------------------------------- lanes

  lemma LaneRoundTrip(p: Bytes)
    requires |p| == 8
    ensures BytesOf(LaneOf(p)) == p
  {
    hide LeWord, Octet;
    OctetsOfWord(p[0].octet, p[1].octet, p[2].octet, p[3].octet, p[4].octet, p[5].octet, p[6].octet, p[7].octet);
  }

  lemma OctetsOfWord(b0: bv8, b1: bv8, b2: bv8, b3: bv8, b4: bv8, b5: bv8, b6: bv8, b7: bv8)
    ensures var w := LeWord(b0, b1, b2, b3, b4, b5, b6, b7);
            && Octet(w, 0) == b0 && Octet(w, 8) == b1 && Octet(w, 16) == b2 && Octet(w, 24) == b3
            && Octet(w, 32) == b4 && Octet(w, 40) == b5 && Octet(w, 48) == b6 && Octet(w, 56) == b7
  {
  }

  lemma BytesRoundTrip(v: Lane)
    ensures LaneOf(BytesOf(v)) == v
  {
    hide LeWord, Octet;
    WordOfOctets(v.word);
  }

  lemma WordOfOctets(w: bv64)
    ensures LeWord(Octet(w, 0), Octet(w, 8), Octet(w, 16), Octet(w, 24),
                   Octet(w, 32), Octet(w, 40), Octet(w, 48), Octet(w, 56)) == w
  {
  }

  predicate IsShift(shift: bv64) {
    shift == 0 || shift == 8 || shift == 16 || shift == 24 || shift == 32 || shift == 40 || shift == 48 || shift == 56
  }

  /** Bit 8 k + j of a lane is bit j of its byte k (shift is 8 k). */
  lemma LaneBit(v: Lane, shift: bv64, j: bv64)
    requires IsShift(shift) && j < 8
    ensures shift + j < 64 && Bit(v, shift + j) == ByteBit(Byte(Octet(v.word, shift)), j)
  {
    if shift == 0 {} else if shift == 8 {} else if shift == 16 {} else if shift == 24 {}
    else if shift == 32 {} else if shift == 40 {} else if shift == 48 {}
  }
}
