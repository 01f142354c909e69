/** The Keccak sponge of section 4 of FIPS 202 at the one rate the library uses, on byte strings:
    the reference that the buffered context of module ShaContext is proved against. */
module Sponge {
  import opened Keccak

  datatype Byte = Byte(octet: bv8)

  type Bytes = seq<Byte>

  /** The rate of SHA3-256 and SHAKE256 in bytes: (1600 - 2 * 256) / 8. */
  const RATE: nat := 136

  const ZERO_BYTE := Byte(0)
  const ZERO_LANE := Lane(0)
  const SHA3_DOMAIN := Byte(0x06)
  const SHAKE_DOMAIN := Byte(0x1f)

  function ZeroState(): State {
    seq(25, _ => ZERO_LANE)
  }

  function Zeros(n: nat): Bytes {
    seq(n, _ => ZERO_BYTE)
  }

  function OrByte(a: Byte, b: Byte): Byte {
    Byte(a.octet | b.octet)
  }

  // ---------------------------------------------------------------- little-endian lanes

  function LeWord(b0: bv8, b1: bv8, b2: bv8, b3: bv8, b4: bv8, b5: bv8, b6: bv8, b7: bv8): bv64 {
    (b0 as bv64) | (b1 as bv64 << 8) | (b2 as bv64 << 16) | (b3 as bv64 << 24)
    | (b4 as bv64 << 32) | (b5 as bv64 << 40) | (b6 as bv64 << 48) | (b7 as bv64 << 56)
  }

  /** The lane stored in eight bytes, least significant byte first. */
  function LaneOf(p: Bytes): Lane
    requires |p| == 8
  {
    Lane(LeWord(p[0].octet, p[1].octet, p[2].octet, p[3].octet, p[4].octet, p[5].octet, p[6].octet, p[7].octet))
  }

  function Octet(w: bv64, shift: bv64): bv8
    requires shift < 64
  {
    ((w >> shift) & 0xff) as bv8
  }

  function BytesOf(v: Lane): (p: Bytes)
    ensures |p| == 8
  {
    [Byte(Octet(v.word, 0)), Byte(Octet(v.word, 8)), Byte(Octet(v.word, 16)), Byte(Octet(v.word, 24)),
     Byte(Octet(v.word, 32)), Byte(Octet(v.word, 40)), Byte(Octet(v.word, 48)), Byte(Octet(v.word, 56))]
  }

  // ---------------------------------------------------------------- absorbing and squeezing

  function XorBlock(s: State, block: Bytes): State
    requires |block| == RATE
  {
    seq(25, i requires 0 <= i < 25 => if i < 17 then Xor(s[i], LaneOf(block[8 * i..8 * i + 8])) else s[i])
  }

  function AbsorbBlock(s: State, block: Bytes): State
    requires |block| == RATE
  {
    Permutation(XorBlock(s, block))
  }

  /** Absorb every whole block of the message; an incomplete last block is not absorbed. */
  function Absorb(s: State, msg: Bytes): State
    decreases |msg|
  {
    if |msg| < RATE then s else Absorb(AbsorbBlock(s, msg[..RATE]), msg[RATE..])
  }

  /** The domain bits followed by pad10*1, for a message of len bytes. */
  function Padding(len: nat, domain: Byte): (p: Bytes)
    ensures 0 < |p| <= RATE && (len + |p|) % RATE == 0
  {
    var gap := RATE - len % RATE;
    if gap == 1 then [OrByte(domain, Byte(0x80))] else [domain] + Zeros(gap - 2) + [Byte(0x80)]
  }

  /** The first n lanes of the state as bytes. */
  function Squeeze(s: State, n: nat): (z: Bytes)
    requires n <= 25
    ensures |z| == 8 * n
  {
    if n == 0 then [] else Squeeze(s, n - 1) + BytesOf(s[n - 1])
  }

  lemma {:induction false} SqueezePrefix(s: State, n: nat, m: nat)
    requires n <= m <= 25
    ensures Squeeze(s, m)[..8 * n] == Squeeze(s, n)
    decreases m
  {
    hide BytesOf;
    if n < m {
      SqueezePrefix(s, n, m - 1);
    }
  }

  /** SPONGE[Keccak-f, pad10*1, RATE](msg with its domain bits, 8 n) for at most one block of output. */
  function SpongeOf(msg: Bytes, domain: Byte, n: nat): (z: Bytes)
    requires n <= RATE
    ensures |z| == n
  {
    Squeeze(Absorb(ZeroState(), msg + Padding(|msg|, domain)), 17)[..n]
  }

  /** Section 6.1 of FIPS 202 */
  function Sha3_256(msg: Bytes): Bytes {
    SpongeOf(msg, SHA3_DOMAIN, 32)
  }

  /** Section 6.2 of FIPS 202, for digests of n bytes that fit one block. */
  function Shake256(msg: Bytes, n: nat): (z: Bytes)
    requires n <= RATE
    ensures |z| == n
  {
    SpongeOf(msg, SHAKE_DOMAIN, n)
  }

  lemma {:induction false} AbsorbConcat(s: State, a: Bytes, b: Bytes)
    requires |a| % RATE == 0
    ensures Absorb(s, a + b) == Absorb(Absorb(s, a), b)
    decreases |a|
  {
    hide AbsorbBlock;
    if |a| < RATE {
      assert a + b == b;
    } else {
      assert (a + b)[..RATE] == a[..RATE] && (a + b)[RATE..] == a[RATE..] + b;
      AbsorbConcat(AbsorbBlock(s, a[..RATE]), a[RATE..], b);
    }
  }

  lemma AbsorbOne(s: State, block: Bytes)
    requires |block| == RATE
    ensures Absorb(s, block) == AbsorbBlock(s, block)
  {
    hide AbsorbBlock;
    assert block[..RATE] == block && block[RATE..] == [];
    assert Absorb(AbsorbBlock(s, block), []) == AbsorbBlock(s, block);
  }

  lemma AbsorbBlockAfter(s: State, a: Bytes, block: Bytes)
    requires |a| % RATE == 0 && |block| == RATE
    ensures Absorb(s, a + block) == AbsorbBlock(Absorb(s, a), block)
    ensures |a + block| % RATE == 0
  {
    hide Absorb, AbsorbBlock;
    AbsorbConcat(s, a, block);
    AbsorbOne(Absorb(s, a), block);
    WholeBlocks(|a|, 0);
  }

  lemma WholeBlocks(n: nat, k: nat)
    requires n % RATE == 0 && k < RATE
    ensures (n + k) % RATE == k
    ensures (n + RATE) % RATE == 0
  {
    assert n == RATE * (n / RATE);
  }

  lemma SplitTail(n: nat)
    ensures n % RATE <= n && (n - n % RATE) % RATE == 0
  {
    assert n - n % RATE == RATE * (n / RATE);
  }

  lemma AbsorbTail(s: State, a: Bytes, tail: Bytes)
    requires |a| % RATE == 0 && |tail| < RATE
    ensures Absorb(s, a + tail) == Absorb(s, a)
    ensures |a + tail| % RATE == |tail|
  {
    hide AbsorbBlock;
    AbsorbConcat(s, a, tail);
    WholeBlocks(|a|, |tail|);
  }

  /** The padded last block of a message whose incomplete block is tail. */
  function LastBlock(tail: Bytes, domain: Byte): (block: Bytes)
    requires |tail| < RATE
    ensures |block| == RATE
  {
    tail + Padding(|tail|, domain)
  }

  // ---------------------------------------------------------------- resuming after an incomplete block

  /** The incomplete block at the end of a message. */
  function Tail(msg: Bytes): (t: Bytes)
    ensures |t| == |msg| % RATE
  {
    SplitTail(|msg|);
    msg[|msg| - |msg| % RATE..]
  }

  function Whole(msg: Bytes): (w: Bytes)
    ensures |w| % RATE == 0 && msg == w + Tail(msg)
  {
    SplitTail(|msg|);
    msg[..|msg| - |msg| % RATE]
  }

  lemma TailUnique(w: Bytes, t: Bytes)
    requires |w| % RATE == 0
    ensures Tail(w + t) == Tail(t) && (|t| < RATE ==> Tail(t) == t)
  {
    assert |w| == RATE * (|w| / RATE);
    assert (|w| + |t|) % RATE == |t| % RATE;
  }

  lemma AbsorbNothing(s: State, t: Bytes)
    requires |t| < RATE
    ensures Absorb(s, t) == s && Tail(t) == t
  {
    TailUnique([], t);
    assert [] + t == t;
  }

  lemma ResumeShort(msg: Bytes, input: Bytes)
    requires |Tail(msg)| + |input| < RATE
    ensures Absorb(ZeroState(), msg + input) == Absorb(ZeroState(), msg)
    ensures Tail(msg + input) == Tail(msg) + input
  {
    hide Absorb, Tail, Whole;
    var w, t := Whole(msg), Tail(msg);
    assert msg + input == w + (t + input);
    AbsorbTail(ZeroState(), w, t);
    AbsorbTail(ZeroState(), w, t + input);
    TailUnique(w, t + input);
  }

  lemma ResumeAligned(msg: Bytes, input: Bytes)
    requires Tail(msg) == []
    ensures Absorb(ZeroState(), msg + input) == Absorb(Absorb(ZeroState(), msg), input)
    ensures Tail(msg + input) == Tail(input)
  {
    hide Absorb, Tail, Whole;
    assert msg == Whole(msg);
    AbsorbConcat(ZeroState(), msg, input);
    TailUnique(msg, input);
  }

  lemma ResumeBlock(msg: Bytes, input: Bytes, todo: nat)
    requires Tail(msg) != [] && todo == RATE - |Tail(msg)| && todo <= |input|
    ensures |Tail(msg) + input[..todo]| == RATE
    ensures Absorb(ZeroState(), msg + input)
         == Absorb(AbsorbBlock(Absorb(ZeroState(), msg), Tail(msg) + input[..todo]), input[todo..])
    ensures Tail(msg + input) == Tail(input[todo..])
  {
    hide Absorb, AbsorbBlock, Tail, Whole;
    var w, t := Whole(msg), Tail(msg);
    var block := t + input[..todo];
    assert msg + input == (w + block) + input[todo..];
    AbsorbTail(ZeroState(), w, t);
    AbsorbBlockAfter(ZeroState(), w, block);
    AbsorbConcat(ZeroState(), w + block, input[todo..]);
    TailUnique(w + block, input[todo..]);
  }

  lemma SpongeByTail(msg: Bytes, domain: Byte, n: nat)
    requires n <= 17
    ensures SpongeOf(msg, domain, 8 * n)
         == Squeeze(AbsorbBlock(Absorb(ZeroState(), msg), LastBlock(Tail(msg), domain)), n)
  {
    hide Absorb, AbsorbBlock, Squeeze, Tail, Whole;
    var w, t := Whole(msg), Tail(msg);
    AbsorbTail(ZeroState(), w, t);
    assert Padding(|msg|, domain) == Padding(|t|, domain);
    assert msg + Padding(|t|, domain) == w + LastBlock(t, domain);
    AbsorbBlockAfter(ZeroState(), w, LastBlock(t, domain));
    SqueezePrefix(AbsorbBlock(Absorb(ZeroState(), msg), LastBlock(t, domain)), n, 17);
  }
}
