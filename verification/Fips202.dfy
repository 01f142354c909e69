/** The step mappings of section 3.2 of FIPS 202, bit by bit, and the proof that the lane-wise functions of
    module Keccak compute them on every state. */
module Fips202 {
  import opened Keccak

  /** A[x, y, z] */
  predicate A(s: State, x: nat, y: nat, z: bv64)
    requires x < 5 && y < 5 && z < 64
  {
    Bit(s[At(x, y)], z)
  }

  /** C[x, z]: the parity of a column. */
  predicate Parity(s: State, x: nat, z: bv64)
    requires x < 5 && z < 64
  {
    (((A(s, x, 0, z) != A(s, x, 1, z)) != A(s, x, 2, z)) != A(s, x, 3, z)) != A(s, x, 4, z)
  }

  lemma ColumnParity(s: State, x: nat, z: bv64)
    requires x < 5 && z < 64
    ensures Bit(Column(s, x), z) == Parity(s, x, z)
  {
    hide Bit, Xor;
    var two := Xor(s[x], s[x + 5]);
    var three := Xor(two, s[x + 10]);
    var four := Xor(three, s[x + 15]);
    BitXor(s[x], s[x + 5], z);
    BitXor(two, s[x + 10], z);
    BitXor(three, s[x + 15], z);
    BitXor(four, s[x + 20], z);
  }

  /** Section 3.2.1 */
  lemma ThetaBits(s: State, x: nat, y: nat, z: bv64)
    requires x < 5 && y < 5 && z < 64
    ensures A(Theta(s), x, y, z)
         == (A(s, x, y, z) != (Parity(s, (x + 4) % 5, z) != Parity(s, (x + 1) % 5, Back(z, 1))))
  {
    hide Bit, Xor, Rol, Column, Parity, Back, Theta, At;
    ThetaAt(s, x, y);
    var left, right := Column(s, RightOf(x, 4)), Column(s, RightOf(x, 1));
    ColumnParity(s, RightOf(x, 4), z);
    ColumnParity(s, RightOf(x, 1), Back(z, 1));
    RotationByOne();
    BitRol(right, 1, z);
    BitXor(left, Rol(right, 1), z);
    BitXor(s[At(x, y)], ThetaEffect(s, x), z);
  }

  lemma ThetaAt(s: State, x: nat, y: nat)
    requires x < 5 && y < 5
    ensures Theta(s)[At(x, y)] == Xor(s[At(x, y)], ThetaEffect(s, x))
  {
    hide Xor, ThetaEffect;
    assert At(x, y) % 5 == x;
  }

  lemma RotationByOne()
    ensures IsRotation(1)
  {
  }

  /** The lane rho visits at step t: from (1, 0), (x, y) moves on to (y, 2x + 3y mod 5). */
  function RhoPoint(t: nat): (p: (nat, nat))
    ensures p.0 < 5 && p.1 < 5
  {
    if t == 0 then (1, 0) else
      var (x, y) := RhoPoint(t - 1);
      (y, (2 * x + 3 * y) % 5)
  }

  lemma WalkStep(t: nat, x: nat, y: nat)
    requires t < 23 && x < 5 && y < 5 && Walk(t) == At(x, y)
    ensures Walk(t + 1) == At(y, (2 * x + 3 * y) % 5)
  {
  }

  lemma {:induction false} WalkIsRhoWalk(t: nat)
    requires t < 24
    ensures Walk(t) == At(RhoPoint(t).0, RhoPoint(t).1)
  {
    if t > 0 {
      WalkIsRhoWalk(t - 1);
      WalkStep(t - 1, RhoPoint(t - 1).0, RhoPoint(t - 1).1);
    }
  }

  lemma RhoRolIsRotation(t: nat)
    requires t < 24
    ensures IsRotation(RhoRol(t))
  {
  }

  /** (t + 1)(t + 2)/2 modulo the lane size */
  lemma RhoRolIsTriangular(t: nat)
    requires t < 24
    ensures RhoRol(t) as nat == ((t + 1) * (t + 2) / 2) % 64
  {
    RhoOffsetTable(t);
    if t < 12 {
      EarlyRhoRol(t);
    } else {
      LateRhoRol(t);
    }
  }

  const RHO_OFFSETS: seq<nat> := [1, 3, 6, 10, 15, 21, 28, 36, 45, 55, 2, 14, 27, 41, 56, 8, 25, 43, 62, 18, 39, 61, 20, 44]

  lemma RhoOffsetTable(t: nat)
    requires t < 24
    ensures RHO_OFFSETS[t] == ((t + 1) * (t + 2) / 2) % 64
  {
  }

  lemma EarlyRhoRol(t: nat)
    requires t < 12
    ensures RhoRol(t) as nat == RHO_OFFSETS[t]
  {
    if t == 0 {
      assert RhoRol(0) == 1;
    } else if t == 1 {
      assert RhoRol(1) == 3;
    } else if t == 2 {
      assert RhoRol(2) == 6;
    } else if t == 3 {
      assert RhoRol(3) == 10;
    } else if t == 4 {
      assert RhoRol(4) == 15;
    } else if t == 5 {
      assert RhoRol(5) == 21;
    } else if t == 6 {
      assert RhoRol(6) == 28;
    } else if t == 7 {
      assert RhoRol(7) == 36;
    } else if t == 8 {
      assert RhoRol(8) == 45;
    } else if t == 9 {
      assert RhoRol(9) == 55;
    } else if t == 10 {
      assert RhoRol(10) == 2;
    } else if t == 11 {
      assert RhoRol(11) == 14;
    }
  }

  lemma LateRhoRol(t: nat)
    requires 12 <= t < 24
    ensures RhoRol(t) as nat == RHO_OFFSETS[t]
  {
    if t == 12 {
      assert RhoRol(12) == 27;
    } else if t == 13 {
      assert RhoRol(13) == 41;
    } else if t == 14 {
      assert RhoRol(14) == 56;
    } else if t == 15 {
      assert RhoRol(15) == 8;
    } else if t == 16 {
      assert RhoRol(16) == 25;
    } else if t == 17 {
      assert RhoRol(17) == 43;
    } else if t == 18 {
      assert RhoRol(18) == 62;
    } else if t == 19 {
      assert RhoRol(19) == 18;
    } else if t == 20 {
      assert RhoRol(20) == 39;
    } else if t == 21 {
      assert RhoRol(21) == 61;
    } else if t == 22 {
      assert RhoRol(22) == 20;
    } else if t == 23 {
      assert RhoRol(23) == 44;
    }
  }

  /** Section 3.2.2 */
  lemma RhoBits(s: State, t: nat, z: bv64)
    requires t < 24 && z < 64
    ensures RhoRol(t) as nat == ((t + 1) * (t + 2) / 2) % 64
    ensures var (x, y) := RhoPoint(t); A(Rho(s), x, y, z) == A(s, x, y, Back(z, RhoRol(t)))
    ensures Rho(s)[0] == s[0]
  {
    hide Bit, Rol, Walk, Visit, RhoPoint, Back, IsRotation, RhoRol;
    WalkIsRhoWalk(t);
    WalkVisit(t);
    RhoRolIsRotation(t);
    RhoRolIsTriangular(t);
    BitRol(s[Walk(t)], RhoRol(t), z);
  }

  /** Section 3.2.3 */
  lemma PiBits(s: State, x: nat, y: nat, z: bv64)
    requires x < 5 && y < 5 && z < 64
    ensures A(Pi(s), x, y, z) == A(s, (x + 3 * y) % 5, x, z)
  {
    hide Bit;
    PiSourceIs(x, y);
  }

  lemma PiSourceIs(x: nat, y: nat)
    requires x < 5 && y < 5
    ensures PiSource(x + 5 * y) == (x + 3 * y) % 5 + 5 * x
  {
  }

  /** Section 3.2.4 */
  lemma ChiBits(s: State, x: nat, y: nat, z: bv64)
    requires x < 5 && y < 5 && z < 64
    ensures A(Chi(s), x, y, z) == (A(s, x, y, z) != (!A(s, (x + 1) % 5, y, z) && A(s, (x + 2) % 5, y, z)))
  {
    hide Bit, Xor, AndNot, Chi, At;
    ChiAt(s, x, y);
    var a, b := s[At(RightOf(x, 1), y)], s[At(RightOf(x, 2), y)];
    BitAndNot(a, b, z);
    BitXor(s[At(x, y)], AndNot(a, b), z);
  }

  lemma ChiAt(s: State, x: nat, y: nat)
    requires x < 5 && y < 5
    ensures Chi(s)[At(x, y)] == ChiLane(s, x, y)
  {
    hide ChiLane;
  }

  // ---------------------------------------------------------------- the round

  /** Section 3.2.5, for any constant. */
  lemma IotaBits(s: State, round: nat, x: nat, y: nat, z: bv64)
    requires round < 24 && x < 5 && y < 5 && z < 64
    ensures A(Iota(s, round), x, y, z)
         == (A(s, x, y, z) != (x == 0 && y == 0 && Bit(Lane(RoundConstant(round)), z)))
  {
    hide Bit, Xor, RoundConstant;
    BitXor(s[0], Lane(RoundConstant(round)), z);
  }

  /** The bit that pi brings to (u, y, z) after theta and rho. */
  predicate Brought(s: State, u: nat, y: nat, z: bv64)
    requires u < 5 && y < 5 && z < 64
  {
    A(Rho(Theta(s)), (u + 3 * y) % 5, u, z)
  }

  /** Section 3.3: a round is theta, rho, pi, chi and iota in this order. */
  lemma RoundBits(s: State, round: nat, x: nat, y: nat, z: bv64)
    requires round < 24 && x < 5 && y < 5 && z < 64
    ensures A(Round(s, round), x, y, z)
         == ((Brought(s, x, y, z) != (!Brought(s, (x + 1) % 5, y, z) && Brought(s, (x + 2) % 5, y, z)))
             != (x == 0 && y == 0 && Bit(Lane(RoundConstant(round)), z)))
  {
    hide A, Theta, Rho, Pi, Chi, Iota, Bit, RoundConstant;
    var r := Rho(Theta(s));
    PiBits(r, x, y, z);
    PiBits(r, (x + 1) % 5, y, z);
    PiBits(r, (x + 2) % 5, y, z);
    ChiBits(Pi(r), x, y, z);
    IotaBits(Chi(Pi(r)), round, x, y, z);
  }

  /** Section 3.4: twenty-four rounds, counted from 0. */
  lemma PermutationIsRounds(s: State, n: nat)
    requires n < 24
    ensures Rounds(s, 0) == s && Rounds(s, n + 1) == Round(Rounds(s, n), n) && Permutation(s) == Rounds(s, 24)
  {
    hide Round;
  }

  // ---------------------------------------------------------------- iota

  /** One turn of the shift register of section 3.2.5: R[i] is bit i of the byte. */
  function LfsrStep(r: bv8): bv8 {
    if r & 0x80 == 0 then r << 1 else (r << 1) ^ 0x71
  }

  /** The register after t turns. */
  function Lfsr(t: nat): bv8 {
    if t == 0 then 1 else LfsrStep(Lfsr(t - 1))
  }

  /** rc(t) of section 3.2.5 for t < 255, the only range the permutation uses, as 0 or 1. */
  function Rc(t: nat): bv64 {
    LowBitOf(Lfsr(t))
  }

  function LowBitOf(r: bv8): bv64 {
    (r & 1) as bv64
  }

  /** RC: bit 2^j - 1 is rc(j + 7 i), for j from 0 to 6. */
  function RoundConstantOf(i: nat): bv64 {
    SparseWord(Rc(7 * i), Rc(7 * i + 1), Rc(7 * i + 2), Rc(7 * i + 3), Rc(7 * i + 4), Rc(7 * i + 5), Rc(7 * i + 6))
  }

  function SparseWord(b0: bv64, b1: bv64, b2: bv64, b3: bv64, b4: bv64, b5: bv64, b6: bv64): bv64 {
    b0 | (b1 << 1) | (b2 << 3) | (b3 << 7) | (b4 << 15) | (b5 << 31) | (b6 << 63)
  }

  function ConstantFrom(r: bv8): bv64 {
    var r1 := LfsrStep(r);
    var r2 := LfsrStep(r1);
    var r3 := LfsrStep(r2);
    var r4 := LfsrStep(r3);
    var r5 := LfsrStep(r4);
    var r6 := LfsrStep(r5);
    SparseWord(LowBitOf(r), LowBitOf(r1), LowBitOf(r2), LowBitOf(r3), LowBitOf(r4), LowBitOf(r5), LowBitOf(r6))
  }

  function SevenSteps(r: bv8): bv8 {
    LfsrStep(LfsrStep(LfsrStep(LfsrStep(LfsrStep(LfsrStep(LfsrStep(r)))))))
  }

  lemma Generated0()
    ensures ConstantFrom(1) == 0x0000000000000001 && SevenSteps(1) == 128
    ensures ConstantFrom(128) == 0x0000000000008082 && SevenSteps(128) == 216
    ensures ConstantFrom(216) == 0x800000000000808a && SevenSteps(216) == 26
    ensures ConstantFrom(26) == 0x8000000080008000 && SevenSteps(26) == 223
    ensures ConstantFrom(223) == 0x000000000000808b && SevenSteps(223) == 9
    ensures ConstantFrom(9) == 0x0000000080000001 && SevenSteps(9) == 53
  {
  }

  lemma Generated1()
    ensures ConstantFrom(53) == 0x8000000080008081 && SevenSteps(53) == 79
    ensures ConstantFrom(79) == 0x8000000000008009 && SevenSteps(79) == 202
    ensures ConstantFrom(202) == 0x000000000000008a && SevenSteps(202) == 112
    ensures ConstantFrom(112) == 0x0000000000000088 && SevenSteps(112) == 65
    ensures ConstantFrom(65) == 0x0000000080008009 && SevenSteps(65) == 236
    ensures ConstantFrom(236) == 0x000000008000000a && SevenSteps(236) == 213
  {
  }

  lemma Generated2()
    ensures ConstantFrom(213) == 0x000000008000808b && SevenSteps(213) == 205
    ensures ConstantFrom(205) == 0x800000000000008b && SevenSteps(205) == 99
    ensures ConstantFrom(99) == 0x8000000000008089 && SevenSteps(99) == 171
    ensures ConstantFrom(171) == 0x8000000000008003 && SevenSteps(171) == 170
    ensures ConstantFrom(170) == 0x8000000000008002 && SevenSteps(170) == 42
    ensures ConstantFrom(42) == 0x8000000000000080 && SevenSteps(42) == 242
  {
  }

  lemma Generated3()
    ensures ConstantFrom(242) == 0x000000000000800a && SevenSteps(242) == 232
    ensures ConstantFrom(232) == 0x800000008000000a && SevenSteps(232) == 55
    ensures ConstantFrom(55) == 0x8000000080008081 && SevenSteps(55) == 62
    ensures ConstantFrom(62) == 0x8000000000008080 && SevenSteps(62) == 11
    ensures ConstantFrom(11) == 0x0000000080000001 && SevenSteps(11) == 68
    ensures ConstantFrom(68) == 0x8000000080008008 && SevenSteps(68) == 142
  {
  }

  lemma Tabulated0()
    ensures RoundConstant(0) == 0x0000000000000001
    ensures RoundConstant(1) == 0x0000000000008082
    ensures RoundConstant(2) == 0x800000000000808a
    ensures RoundConstant(3) == 0x8000000080008000
    ensures RoundConstant(4) == 0x000000000000808b
    ensures RoundConstant(5) == 0x0000000080000001
  {
  }

  lemma Tabulated1()
    ensures RoundConstant(6) == 0x8000000080008081
    ensures RoundConstant(7) == 0x8000000000008009
    ensures RoundConstant(8) == 0x000000000000008a
    ensures RoundConstant(9) == 0x0000000000000088
    ensures RoundConstant(10) == 0x0000000080008009
    ensures RoundConstant(11) == 0x000000008000000a
  {
  }

  lemma Tabulated2()
    ensures RoundConstant(12) == 0x000000008000808b
    ensures RoundConstant(13) == 0x800000000000008b
    ensures RoundConstant(14) == 0x8000000000008089
    ensures RoundConstant(15) == 0x8000000000008003
    ensures RoundConstant(16) == 0x8000000000008002
    ensures RoundConstant(17) == 0x8000000000000080
  {
  }

  lemma Tabulated3()
    ensures RoundConstant(18) == 0x000000000000800a
    ensures RoundConstant(19) == 0x800000008000000a
    ensures RoundConstant(20) == 0x8000000080008081
    ensures RoundConstant(21) == 0x8000000000008080
    ensures RoundConstant(22) == 0x0000000080000001
    ensures RoundConstant(23) == 0x8000000080008008
  {
  }

  /** The register at the start of round i. */
  function RegisterAt(i: nat): bv8 {
    if i == 0 then 1 else SevenSteps(RegisterAt(i - 1))
  }

  lemma Registers0()
    ensures RegisterAt(6) == 53
    ensures forall i | 0 <= i < 6 :: ConstantFrom(RegisterAt(i)) == RoundConstant(i)
  {
    hide ConstantFrom, SevenSteps, RoundConstant;
    Generated0();
    Tabulated0();
    assert RegisterAt(0) == 1;
    assert RegisterAt(1) == 128;
    assert RegisterAt(2) == 216;
    assert RegisterAt(3) == 26;
    assert RegisterAt(4) == 223;
    assert RegisterAt(5) == 9;
  }

  lemma Registers1()
    ensures RegisterAt(12) == 213
    ensures forall i | 6 <= i < 12 :: ConstantFrom(RegisterAt(i)) == RoundConstant(i)
  {
    hide ConstantFrom, SevenSteps, RoundConstant;
    Registers0();
    Generated1();
    Tabulated1();
    assert RegisterAt(6) == 53;
    assert RegisterAt(7) == 79;
    assert RegisterAt(8) == 202;
    assert RegisterAt(9) == 112;
    assert RegisterAt(10) == 65;
    assert RegisterAt(11) == 236;
  }

  lemma Registers2()
    ensures RegisterAt(18) == 242
    ensures forall i | 12 <= i < 18 :: ConstantFrom(RegisterAt(i)) == RoundConstant(i)
  {
    hide ConstantFrom, SevenSteps, RoundConstant;
    Registers1();
    Generated2();
    Tabulated2();
    assert RegisterAt(12) == 213;
    assert RegisterAt(13) == 205;
    assert RegisterAt(14) == 99;
    assert RegisterAt(15) == 171;
    assert RegisterAt(16) == 170;
    assert RegisterAt(17) == 42;
  }

  lemma Registers3()
    ensures RegisterAt(24) == 142
    ensures forall i | 18 <= i < 24 :: ConstantFrom(RegisterAt(i)) == RoundConstant(i)
  {
    hide ConstantFrom, SevenSteps, RoundConstant;
    Registers2();
    Generated3();
    Tabulated3();
    assert RegisterAt(18) == 242;
    assert RegisterAt(19) == 232;
    assert RegisterAt(20) == 55;
    assert RegisterAt(21) == 62;
    assert RegisterAt(22) == 11;
    assert RegisterAt(23) == 68;
  }

  lemma IotaRound(i: nat)
    requires i < 24
    ensures ConstantFrom(RegisterAt(i)) == RoundConstant(i)
  {
    hide ConstantFrom, SevenSteps, RoundConstant, RegisterAt;
    if i < 6 {
      Registers0();
    } else if i < 12 {
      Registers1();
    } else if i < 18 {
      Registers2();
    } else {
      Registers3();
    }
  }

  lemma {:induction false} RegisterRun(i: nat)
    ensures Lfsr(7 * i) == RegisterAt(i)
  {
    hide LfsrStep;
    if i > 0 {
      RegisterRun(i - 1);
      var t := 7 * (i - 1);
      assert Lfsr(t + 2) == LfsrStep(Lfsr(t + 1));
      assert Lfsr(t + 4) == LfsrStep(Lfsr(t + 3));
      assert Lfsr(t + 6) == LfsrStep(Lfsr(t + 5));
    }
  }

  /** Section 3.2.5: the table of round constants is what the shift register generates. */
  lemma IotaConstants(i: nat)
    requires i < 24
    ensures RoundConstant(i) == RoundConstantOf(i)
  {
    hide LfsrStep, LowBitOf, SparseWord, RoundConstant;
    RegisterRun(i);
    IotaRound(i);
    var t := 7 * i;
    assert Lfsr(t + 2) == LfsrStep(Lfsr(t + 1));
    assert Lfsr(t + 4) == LfsrStep(Lfsr(t + 3));
    assert Lfsr(t + 6) == LfsrStep(Lfsr(t + 5));
  }
}
