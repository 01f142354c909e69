/** SPONGE[KECCAK-f[1600], pad10*1, 1088] of section 4 of FIPS 202 on bit strings, and the proof that the byte-wise
    sponge of module Sponge computes it. */
module BitSponge {
  import opened Keccak
  import opened Sponge
  import opened SpongeBits
  import Fips202

  const BIT_RATE: nat := 1088
  const WIDTH: nat := 1600

  // ---------------------------------------------------------------- state arrays and strings

  /** Section 3.1.3: the lanes of a state one after the other. */
  function StateString(s: State): (z: Bits)
    ensures |z| == WIDTH
  {
    BitString(Squeeze(s, 25))
  }

  function BoolBit(b: bool, j: bv8): bv8
    requires j < 8
  {
    if b then 1 << j else 0
  }

  function ByteOf(z: Bits): Byte
    requires |z| == 8
  {
    Byte(BoolBit(z[0], 0) | BoolBit(z[1], 1) | BoolBit(z[2], 2) | BoolBit(z[3], 3)
         | BoolBit(z[4], 4) | BoolBit(z[5], 5) | BoolBit(z[6], 6) | BoolBit(z[7], 7))
  }

  function BytesOfBits(z: Bits): (p: Bytes)
    requires |z| % 8 == 0
    ensures 8 * |p| == |z|
  {
    if z == [] then [] else [ByteOf(z[..8])] + BytesOfBits(z[8..])
  }

  /** Section 3.1.2: the state array of a string. */
  function StateOf(z: Bits): State
    requires |z| == WIDTH
  {
    var p := BytesOfBits(z);
    seq(25, i requires 0 <= i < 25 => LaneOf(p[8 * i..8 * i + 8]))
  }

  /** KECCAK-f[1600] on strings. */
  function KeccakF(z: Bits): (r: Bits)
    requires |z| == WIDTH
    ensures |r| == WIDTH
  {
    StateString(Permutation(StateOf(z)))
  }

  // ---------------------------------------------------------------- the sponge on strings

  function XorBits(a: Bits, b: Bits): (z: Bits)
    requires |a| == |b|
    ensures |z| == |a|
  {
    seq(|a|, i requires 0 <= i < |a| => a[i] != b[i])
  }

  /** Steps 4 to 6 of Algorithm 8. */
  function AbsorbBits(z: Bits, padded: Bits): (r: Bits)
    requires |z| == WIDTH
    ensures |r| == WIDTH
    decreases |padded|
  {
    if |padded| < BIT_RATE then z
    else AbsorbBits(KeccakF(XorBits(z, padded[..BIT_RATE] + Falses(WIDTH - BIT_RATE))), padded[BIT_RATE..])
  }

  /** Steps 7 to 10: output of d bits. */
  function SqueezeBits(z: Bits, d: nat): (r: Bits)
    requires |z| == WIDTH
    ensures |r| == d
    decreases d
  {
    if d <= BIT_RATE then z[..d] else z[..BIT_RATE] + SqueezeBits(KeccakF(z), d - BIT_RATE)
  }

  /** Algorithm 8: SPONGE[KECCAK-f[1600], pad10*1, 1088](n, d). */
  function BitSponge(n: Bits, d: nat): (z: Bits)
    ensures |z| == d
  {
    SqueezeBits(AbsorbBits(Falses(WIDTH), n + Pad101(|n|)), d)
  }

  // ---------------------------------------------------------------- the string of a state

  lemma BitsOfByte(b: bv8)
    ensures ByteOf(ByteBits(Byte(b))) == Byte(b)
  {
  }

  lemma {:induction false} BytesOfString(p: Bytes)
    ensures BytesOfBits(BitString(p)) == p
  {
    hide ByteBits, ByteOf;
    if p != [] {
      var z := BitString(p);
      BitsOfByte(p[0].octet);
      assert z[..8] == ByteBits(p[0]) && z[8..] == BitString(p[1..]);
      BytesOfString(p[1..]);
    }
  }

  /** Where a lane is in the bytes of a state. */
  lemma {:induction false} SqueezeAt(s: State, n: nat, i: nat)
    requires i < n <= 25
    ensures Squeeze(s, n)[8 * i..8 * i + 8] == BytesOf(s[i])
  {
    hide BytesOf;
    if i < n - 1 {
      SqueezeAt(s, n - 1, i);
      assert Squeeze(s, n)[8 * i..8 * i + 8] == Squeeze(s, n - 1)[8 * i..8 * i + 8];
    }
  }

  /** A state array can be read back from its string. */
  lemma StateRoundTrip(s: State)
    ensures StateOf(StateString(s)) == s
  {
    hide LaneOf, BytesOf, Squeeze, BitString, BytesOfBits;
    BytesOfString(Squeeze(s, 25));
    forall i | 0 <= i < 25 ensures StateOf(StateString(s))[i] == s[i] {
      SqueezeAt(s, 25, i);
      BytesRoundTrip(s[i]);
    }
  }

  /** Bits of a string of bytes. */
  lemma {:induction false} StringAt(p: Bytes, i: nat, j: bv64)
    requires i < |p| && j < 8
    ensures BitString(p)[8 * i + j as nat] == ByteBit(p[i], j)
  {
    hide ByteBit;
    if i > 0 {
      StringAt(p[1..], i - 1, j);
    }
  }

  function Eighth(shift: bv64): (k: nat)
    requires IsShift(shift)
    ensures k < 8
  {
    if shift == 0 then 0 else if shift == 8 then 1 else if shift == 16 then 2 else if shift == 24 then 3
    else if shift == 32 then 4 else if shift == 40 then 5 else if shift == 48 then 6 else 7
  }

  lemma OctetOfLane(v: Lane, shift: bv64)
    requires IsShift(shift)
    ensures shift < 64 && BytesOf(v)[Eighth(shift)] == Byte(Octet(v.word, shift))
  {
    hide Octet;
  }

  /** Section 3.1.3: S[64 (5 y + x) + z] = A[x, y, z]; bit z of a lane is bit j of the byte at the shift. */
  lemma StateStringBits(s: State, x: nat, y: nat, shift: bv64, j: bv64)
    requires x < 5 && y < 5 && IsShift(shift) && j < 8
    ensures shift + j < 64
    ensures StateString(s)[64 * (5 * y + x) + 8 * Eighth(shift) + j as nat] == Fips202.A(s, x, y, shift + j)
  {
    hide ByteBit, Octet, Squeeze, BitString, Bit, BytesOf, IsShift, Eighth;
    var i := At(x, y);
    var p := Squeeze(s, 25);
    var k := Eighth(shift);
    SqueezeAt(s, 25, i);
    StringAt(p, 8 * i + k, j);
    assert p[8 * i..8 * i + 8][k] == p[8 * i + k];
    OctetOfLane(s[i], shift);
    LaneBit(s[i], shift, j);
  }

  // ---------------------------------------------------------------- absorbing

  function XorOctets(a: bv8, b: bv8): bv8 {
    a ^ b
  }

  function XorBytes(a: Bytes, b: Bytes): (p: Bytes)
    requires |a| == |b|
    ensures |p| == |a|
  {
    seq(|a|, i requires 0 <= i < |a| => Byte(XorOctets(a[i].octet, b[i].octet)))
  }

  lemma XorByteBit(a: bv8, b: bv8, j: bv64)
    requires j < 8
    ensures ByteBit(Byte(XorOctets(a, b)), j) == (ByteBit(Byte(a), j) != ByteBit(Byte(b), j))
  {
    if j == 0 {} else if j == 1 {} else if j == 2 {} else if j == 3 {}
    else if j == 4 {} else if j == 5 {} else if j == 6 {}
  }

  lemma XorByteBitsAt(a: bv8, b: bv8, i: nat)
    requires i < 8
    ensures ByteBits(Byte(XorOctets(a, b)))[i] == (ByteBits(Byte(a))[i] != ByteBits(Byte(b))[i])
  {
    hide ByteBit, XorOctets;
    if i == 0 {
      XorByteBit(a, b, 0);
    } else if i == 1 {
      XorByteBit(a, b, 1);
    } else if i == 2 {
      XorByteBit(a, b, 2);
    } else if i == 3 {
      XorByteBit(a, b, 3);
    } else if i == 4 {
      XorByteBit(a, b, 4);
    } else if i == 5 {
      XorByteBit(a, b, 5);
    } else if i == 6 {
      XorByteBit(a, b, 6);
    } else {
      XorByteBit(a, b, 7);
    }
  }

  lemma XorByteBits(a: bv8, b: bv8)
    ensures ByteBits(Byte(XorOctets(a, b))) == XorBits(ByteBits(Byte(a)), ByteBits(Byte(b)))
  {
    hide ByteBits, XorOctets;
    forall i | 0 <= i < 8 ensures ByteBits(Byte(XorOctets(a, b)))[i] == (ByteBits(Byte(a))[i] != ByteBits(Byte(b))[i]) {
      XorByteBitsAt(a, b, i);
    }
  }

  lemma XorAppend(a: Bits, b: Bits, c: Bits, d: Bits)
    requires |a| == |b| && |c| == |d|
    ensures XorBits(a + c, b + d) == XorBits(a, b) + XorBits(c, d)
  {
  }

  lemma {:induction false} XorStrings(a: Bytes, b: Bytes)
    requires |a| == |b|
    ensures BitString(XorBytes(a, b)) == XorBits(BitString(a), BitString(b))
  {
    hide ByteBits, XorBits, XorOctets;
    if a != [] {
      assert XorBytes(a, b)[1..] == XorBytes(a[1..], b[1..]);
      XorStrings(a[1..], b[1..]);
      XorByteBits(a[0].octet, b[0].octet);
      XorAppend(ByteBits(a[0]), ByteBits(b[0]), BitString(a[1..]), BitString(b[1..]));
    } else {
      NothingXor();
    }
  }

  lemma NothingXor()
    ensures XorBits([], []) == []
  {
  }

  lemma XorOctet(v: bv64, w: bv64, shift: bv64)
    requires IsShift(shift)
    ensures shift < 64 && Octet(XorWord(v, w), shift) == XorOctets(Octet(v, shift), Octet(w, shift))
  {
    if shift == 0 {} else if shift == 8 {} else if shift == 16 {} else if shift == 24 {}
    else if shift == 32 {} else if shift == 40 {} else if shift == 48 {}
  }

  lemma BytesOfAt(v: Lane)
    ensures var p := BytesOf(v);
            && p[0].octet == Octet(v.word, 0) && p[1].octet == Octet(v.word, 8)
            && p[2].octet == Octet(v.word, 16) && p[3].octet == Octet(v.word, 24)
            && p[4].octet == Octet(v.word, 32) && p[5].octet == Octet(v.word, 40)
            && p[6].octet == Octet(v.word, 48) && p[7].octet == Octet(v.word, 56)
  {
    hide Octet;
  }

  lemma XorLaneBytes(v: Lane, w: Lane)
    ensures BytesOf(Xor(v, w)) == XorBytes(BytesOf(v), BytesOf(w))
  {
    hide Octet, XorOctets, XorWord, BytesOf;
    BytesOfAt(v);
    BytesOfAt(w);
    BytesOfAt(Xor(v, w));
    XorOctet(v.word, w.word, 0);
    XorOctet(v.word, w.word, 8);
    XorOctet(v.word, w.word, 16);
    XorOctet(v.word, w.word, 24);
    XorOctet(v.word, w.word, 32);
    XorOctet(v.word, w.word, 40);
    XorOctet(v.word, w.word, 48);
    XorOctet(v.word, w.word, 56);
  }

  /** A block as bytes for the whole state. */
  function Wide(block: Bytes): (p: Bytes)
    requires |block| == RATE
    ensures |p| == 200
  {
    block + Zeros(64)
  }

  lemma XorBlockLane(s: State, block: Bytes, i: nat)
    requires |block| == RATE && i < 25
    ensures BytesOf(XorBlock(s, block)[i]) == XorBytes(BytesOf(s[i]), Wide(block)[8 * i..8 * i + 8])
  {
    hide LaneOf, BytesOf, Xor, XorBytes;
    if i < 17 {
      assert Wide(block)[8 * i..8 * i + 8] == block[8 * i..8 * i + 8];
      LaneRoundTrip(block[8 * i..8 * i + 8]);
      XorLaneBytes(s[i], LaneOf(block[8 * i..8 * i + 8]));
    } else {
      assert Wide(block)[8 * i..8 * i + 8] == Zeros(8);
      XorZeros(BytesOf(s[i]));
    }
  }

  lemma XorZeros(p: Bytes)
    requires |p| == 8
    ensures XorBytes(p, Zeros(8)) == p
  {
  }

  lemma XorBytesAppend(a: Bytes, b: Bytes, c: Bytes, d: Bytes)
    requires |a| == |b| && |c| == |d|
    ensures XorBytes(a + c, b + d) == XorBytes(a, b) + XorBytes(c, d)
  {
    hide XorOctets;
  }

  lemma {:induction false} XorBlockBytes(s: State, block: Bytes, n: nat)
    requires |block| == RATE && n <= 25
    ensures Squeeze(XorBlock(s, block), n) == XorBytes(Squeeze(s, n), Wide(block)[..8 * n])
  {
    hide BytesOf, XorBlock, XorBytes, Wide;
    if n == 0 {
      NoBytes();
    } else {
      var i := n - 1;
      XorBlockBytes(s, block, i);
      XorBlockLane(s, block, i);
      XorBytesAppend(Squeeze(s, i), Wide(block)[..8 * i], BytesOf(s[i]), Wide(block)[8 * i..8 * i + 8]);
      assert Wide(block)[..8 * n] == Wide(block)[..8 * i] + Wide(block)[8 * i..8 * i + 8];
    }
  }

  lemma NoBytes()
    ensures XorBytes([], []) == []
  {
  }

  /** One block of the string is absorbed as one block of bytes is. */
  lemma AbsorbBlockString(s: State, block: Bytes)
    requires |block| == RATE
    ensures StateString(AbsorbBlock(s, block))
         == KeccakF(XorBits(StateString(s), BitString(block) + Falses(WIDTH - BIT_RATE)))
  {
    hide Squeeze, BitString, XorBytes, XorBits, XorBlock, Permutation, StateOf;
    XorBlockBytes(s, block, 25);
    assert Wide(block)[..200] == Wide(block);
    XorStrings(Squeeze(s, 25), Wide(block));
    BitStringConcat(block, Zeros(64));
    BitStringOfZeros(64);
    StateRoundTrip(XorBlock(s, block));
  }

  lemma {:induction false} AbsorbStrings(s: State, msg: Bytes)
    ensures StateString(Absorb(s, msg)) == AbsorbBits(StateString(s), BitString(msg))
    decreases |msg|
  {
    hide StateString, AbsorbBlock, KeccakF, XorBits, BitString;
    if |msg| >= RATE {
      var block, rest := msg[..RATE], msg[RATE..];
      assert block + rest == msg;
      BitStringConcat(block, rest);
      assert BitString(msg)[..BIT_RATE] == BitString(block) && BitString(msg)[BIT_RATE..] == BitString(rest);
      AbsorbBlockString(s, block);
      AbsorbStrings(AbsorbBlock(s, block), rest);
    }
  }

  // ---------------------------------------------------------------- the whole sponge

  lemma {:induction false} ZeroSqueezed(n: nat)
    requires n <= 25
    ensures Squeeze(ZeroState(), n) == Zeros(8 * n)
  {
    if n > 0 {
      ZeroSqueezed(n - 1);
      assert BytesOf(ZERO_LANE) == Zeros(8);
    }
  }

  lemma ZeroString()
    ensures StateString(ZeroState()) == Falses(WIDTH)
  {
    hide Squeeze, BitString;
    ZeroSqueezed(25);
    BitStringOfZeros(200);
  }

  lemma OutputString(s: State, n: nat)
    requires n <= RATE
    ensures BitString(Squeeze(s, 17)[..n]) == SqueezeBits(StateString(s), 8 * n)
  {
    hide Squeeze, BitString;
    SqueezePrefix(s, 17, 25);
    var all := Squeeze(s, 25);
    assert Squeeze(s, 17)[..n] == all[..n] && all == all[..n] + all[n..];
    BitStringConcat(all[..n], all[n..]);
  }

  /** The byte-wise sponge computes the one on strings, with the domain bits at the end of the message. */
  lemma SpongeIsBitSponge(msg: Bytes, domain: Byte, suffix: Bits, n: nat)
    requires n <= RATE && BitString(Padding(|msg|, domain)) == suffix + Pad101(8 * |msg| + |suffix|)
    ensures BitString(SpongeOf(msg, domain, n)) == BitSponge(BitString(msg) + suffix, 8 * n)
  {
    hide *;
    PaddedString(msg, Padding(|msg|, domain), suffix);
    AbsorbedString(msg + Padding(|msg|, domain), BitString(msg) + suffix, n);
    SpongeUnfold(msg, domain, n);
  }

  lemma SpongeUnfold(msg: Bytes, domain: Byte, n: nat)
    requires n <= RATE
    ensures SpongeOf(msg, domain, n) == Squeeze(Absorb(ZeroState(), msg + Padding(|msg|, domain)), 17)[..n]
  {
    hide Squeeze, Absorb, Padding, ZeroState;
  }

  lemma PaddedString(msg: Bytes, padding: Bytes, suffix: Bits)
    requires BitString(padding) == suffix + Pad101(8 * |msg| + |suffix|)
    ensures BitString(msg + padding) == BitString(msg) + suffix + Pad101(|BitString(msg) + suffix|)
  {
    hide BitString, Pad101;
    BitStringConcat(msg, padding);
  }

  lemma AbsorbedString(padded: Bytes, z: Bits, n: nat)
    requires n <= RATE && BitString(padded) == z + Pad101(|z|)
    ensures BitString(Squeeze(Absorb(ZeroState(), padded), 17)[..n]) == BitSponge(z, 8 * n)
  {
    hide Squeeze, BitString, StateString, AbsorbBits, Absorb, SqueezeBits, Pad101, ZeroState, Falses;
    AbsorbStrings(ZeroState(), padded);
    ZeroString();
    OutputString(Absorb(ZeroState(), padded), n);
  }

  /** Section 6.1: SHA3-256(M) = KECCAK[512](M || 01, 256). */
  lemma Sha3IsBitSponge(msg: Bytes)
    ensures BitString(Sha3_256(msg)) == BitSponge(BitString(msg) + [false, true], 256)
  {
    hide BitString, BitSponge, SpongeOf, Pad101, Padding;
    Sha3Padding(|msg|);
    SpongeIsBitSponge(msg, SHA3_DOMAIN, [false, true], 32);
  }

  /** Section 6.2: SHAKE256(M, d) = KECCAK[512](M || 1111, d). */
  lemma ShakeIsBitSponge(msg: Bytes, n: nat)
    requires n <= RATE
    ensures BitString(Shake256(msg, n)) == BitSponge(BitString(msg) + [true, true, true, true], 8 * n)
  {
    hide BitString, BitSponge, SpongeOf, Pad101, Padding;
    ShakePadding(|msg|);
    SpongeIsBitSponge(msg, SHAKE_DOMAIN, [true, true, true, true], n);
  }
}
