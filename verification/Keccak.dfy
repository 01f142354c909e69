/** The Keccak-p[1600, 24] permutation: the in-place step mappings of jitterentropy-sha3.c, each proved
    equal to a lane-wise function, and each lane-wise function proved equal, bit by bit, to the step
    mapping of section 3.2 of FIPS 202.  The source spells out each step mapping lane by lane; here the
    same lane updates, in the same order, are the iterations of a loop. */
module Keccak {

  datatype Lane = Lane(word: bv64)
  type State = s: seq<Lane> | |s| == 25 witness seq(25, _ => Lane(0))

  /** Position of lane (x, y) in the flat state. */
  function At(x: nat, y: nat): (i: nat)
    requires x < 5 && y < 5
    ensures i < 25
  {
    x + 5 * y
  }

  /** x + step modulo 5 */
  function RightOf(x: nat, step: nat): (r: nat)
    requires x < 5 && step < 5
    ensures r < 5
  {
    if x + step < 5 then x + step else x + step - 5
  }

  // Operations on words.  Proofs above this level hide their bodies: the solver then reasons about a word
  // as an unknown, and never about its 64 bits.

  function XorWord(a: bv64, b: bv64): bv64 {
    a ^ b
  }

  function NotWord(a: bv64): bv64 {
    !a
  }

  function AndWord(a: bv64, b: bv64): bv64 {
    a & b
  }

  function RolWord(w: bv64, n: bv64): bv64 {
    (w << (n & 63)) | (w >> ((64 - n) & 63))
  }

  /** Bit z of a word, 0 being the least significant. */
  predicate WordBit(w: bv64, z: bv64)
    requires z < 64
  {
    (w >> z) & 1 == 1
  }

  lemma WordBitXor(a: bv64, b: bv64, z: bv64)
    requires z < 64
    ensures WordBit(XorWord(a, b), z) == (WordBit(a, z) != WordBit(b, z))
  {
    XorShifted(a, b, z);
    LowBit(a >> z);
    LowBit(b >> z);
  }

  lemma XorShifted(a: bv64, b: bv64, z: bv64)
    requires z < 64
    ensures ((a ^ b) >> z) & 1 == ((a >> z) & 1) ^ ((b >> z) & 1)
  {
  }

  lemma LowBit(w: bv64)
    ensures w & 1 == 0 || w & 1 == 1
  {
  }

  lemma WordBitAnd(a: bv64, b: bv64, z: bv64)
    requires z < 64
    ensures WordBit(AndWord(a, b), z) == (WordBit(a, z) && WordBit(b, z))
  {
  }

  lemma WordBitNot(a: bv64, z: bv64)
    requires z < 64
    ensures WordBit(NotWord(a), z) == !WordBit(a, z)
  {
  }

  function Xor(a: Lane, b: Lane): Lane {
    Lane(XorWord(a.word, b.word))
  }

  /** !a & b */
  function AndNot(a: Lane, b: Lane): Lane {
    Lane(AndWord(NotWord(a.word), b.word))
  }

  /** (z - n) mod 64 */
  function Back(z: bv64, n: bv64): (r: bv64)
    ensures r < 64
  {
    (z - n) & 63
  }

  function Rol(v: Lane, n: bv64): Lane {
    Lane(RolWord(v.word, n))
  }

  predicate Bit(v: Lane, z: bv64)
    requires z < 64
  {
    WordBit(v.word, z)
  }

  lemma BitXor(a: Lane, b: Lane, z: bv64)
    requires z < 64
    ensures Bit(Xor(a, b), z) == (Bit(a, z) != Bit(b, z))
  {
    hide WordBit, XorWord;
    WordBitXor(a.word, b.word, z);
  }

  lemma BitAndNot(a: Lane, b: Lane, z: bv64)
    requires z < 64
    ensures Bit(AndNot(a, b), z) == (!Bit(a, z) && Bit(b, z))
  {
    hide WordBit, AndWord, NotWord;
    WordBitNot(a.word, z);
    WordBitAnd(NotWord(a.word), b.word, z);
  }

  /** A rotation by n moves bit z - n (mod 64) to bit z, for every amount the permutation uses. */
  lemma BitRol(v: Lane, n: bv64, z: bv64)
    requires z < 64 && IsRotation(n)
    ensures Bit(Rol(v, n), z) == Bit(v, Back(z, n))
  {
    hide WordBit, RolWord, Back, InGroup0, InGroup1, InGroup2, InGroup3, InGroup4, InGroup5, InGroup6, InGroup7;
    if InGroup0(n) { WordBitRol0(v.word, n, z); }
    if InGroup1(n) { WordBitRol1(v.word, n, z); }
    if InGroup2(n) { WordBitRol2(v.word, n, z); }
    if InGroup3(n) { WordBitRol3(v.word, n, z); }
    if InGroup4(n) { WordBitRol4(v.word, n, z); }
    if InGroup5(n) { WordBitRol5(v.word, n, z); }
    if InGroup6(n) { WordBitRol6(v.word, n, z); }
    if InGroup7(n) { WordBitRol7(v.word, n, z); }
  }

  predicate IsRotation(n: bv64) {
    InGroup0(n) || InGroup1(n) || InGroup2(n) || InGroup3(n) || InGroup4(n) || InGroup5(n) || InGroup6(n) || InGroup7(n)
  }

  predicate InGroup0(n: bv64) {
    n == 1 || n == 2 || n == 3
  }

  lemma WordBitRol0(w: bv64, n: bv64, z: bv64)
    requires z < 64 && InGroup0(n)
    ensures WordBit(RolWord(w, n), z) == WordBit(w, Back(z, n))
  {
    if n == 1 {} else if n == 2 {} else if n == 3 {}
  }

  predicate InGroup1(n: bv64) {
    n == 6 || n == 8 || n == 10
  }

  lemma WordBitRol1(w: bv64, n: bv64, z: bv64)
    requires z < 64 && InGroup1(n)
    ensures WordBit(RolWord(w, n), z) == WordBit(w, Back(z, n))
  {
    if n == 6 {} else if n == 8 {} else if n == 10 {}
  }

  predicate InGroup2(n: bv64) {
    n == 14 || n == 15 || n == 18
  }

  lemma WordBitRol2(w: bv64, n: bv64, z: bv64)
    requires z < 64 && InGroup2(n)
    ensures WordBit(RolWord(w, n), z) == WordBit(w, Back(z, n))
  {
    if n == 14 {} else if n == 15 {} else if n == 18 {}
  }

  predicate InGroup3(n: bv64) {
    n == 20 || n == 21 || n == 25
  }

  lemma WordBitRol3(w: bv64, n: bv64, z: bv64)
    requires z < 64 && InGroup3(n)
    ensures WordBit(RolWord(w, n), z) == WordBit(w, Back(z, n))
  {
    if n == 20 {} else if n == 21 {} else if n == 25 {}
  }

  predicate InGroup4(n: bv64) {
    n == 27 || n == 28 || n == 36
  }

  lemma WordBitRol4(w: bv64, n: bv64, z: bv64)
    requires z < 64 && InGroup4(n)
    ensures WordBit(RolWord(w, n), z) == WordBit(w, Back(z, n))
  {
    if n == 27 {} else if n == 28 {} else if n == 36 {}
  }

  predicate InGroup5(n: bv64) {
    n == 39 || n == 41 || n == 43
  }

  lemma WordBitRol5(w: bv64, n: bv64, z: bv64)
    requires z < 64 && InGroup5(n)
    ensures WordBit(RolWord(w, n), z) == WordBit(w, Back(z, n))
  {
    if n == 39 {} else if n == 41 {} else if n == 43 {}
  }

  predicate InGroup6(n: bv64) {
    n == 44 || n == 45 || n == 55
  }

  lemma WordBitRol6(w: bv64, n: bv64, z: bv64)
    requires z < 64 && InGroup6(n)
    ensures WordBit(RolWord(w, n), z) == WordBit(w, Back(z, n))
  {
    if n == 44 {} else if n == 45 {} else if n == 55 {}
  }

  predicate InGroup7(n: bv64) {
    n == 56 || n == 61 || n == 62
  }

  lemma WordBitRol7(w: bv64, n: bv64, z: bv64)
    requires z < 64 && InGroup7(n)
    ensures WordBit(RolWord(w, n), z) == WordBit(w, Back(z, n))
  {
    if n == 56 {} else if n == 61 {} else if n == 62 {}
  }

  // ---------------------------------------------------------------- theta

  function Column(s: State, x: nat): Lane
    requires x < 5
  {
    Xor(Xor(Xor(Xor(s[x], s[x + 5]), s[x + 10]), s[x + 15]), s[x + 20])
  }

  function ThetaEffect(s: State, x: nat): Lane
    requires x < 5
  {
    Xor(Column(s, RightOf(x, 4)), Rol(Column(s, RightOf(x, 1)), 1))
  }

  function Theta(s: State): State {
    seq(25, i requires 0 <= i < 25 => Xor(s[i], ThetaEffect(s, i % 5)))
  }

  method ThetaInPlace(s: array<Lane>)
    requires s.Length == 25
    modifies s
    ensures s[..] == Theta(old(s[..]))
  {
    hide Xor, Rol, Column;
    var now: State := s[..];
    var c := seq(5, x requires 0 <= x < 5 => Column(now, x));
    var d := seq(5, x requires 0 <= x < 5 => Xor(c[RightOf(x, 4)], Rol(c[RightOf(x, 1)], 1)));
    XorEffects(s, d);
  }

  method XorEffects(s: array<Lane>, d: seq<Lane>)
    requires s.Length == 25 && |d| == 5
    modifies s
    ensures forall i | 0 <= i < 25 :: s[i] == Xor(old(s[i]), d[i % 5])
  {
    hide Xor;
    for i := 0 to 25
      invariant forall j | 0 <= j < i :: s[j] == Xor(old(s[j]), d[j % 5])
      invariant forall j | i <= j < 25 :: s[j] == old(s[j])
    {
      s[i] := Xor(s[i], d[i % 5]);
    }
  }

  // ---------------------------------------------------------------- rho

  /** The lanes in the order rho rotates them. */
  function Walk(i: nat): (j: nat)
    requires i < 24
    ensures 0 < j < 25
  {
    [1, 10, 7, 11, 17, 18, 3, 5, 16, 8, 21, 24, 4, 15, 23, 19, 13, 12, 2, 20, 14, 22, 9, 6][i]
  }

  /** When rho rotates a lane; lane 0 is never rotated. */
  function Visit(i: nat): (j: nat)
    requires 0 < i < 25
    ensures j < 24
  {
    [24, 0, 18, 6, 12, 7, 23, 2, 9, 22, 1, 3, 17, 16, 20, 13, 8, 4, 5, 15, 19, 10, 21, 14, 11][i]
  }

  /** The amount of step t of the walk. */
  function RhoRol(t: nat): bv64
    requires t < 24
  {
    [1, 3, 6, 10, 15, 21, 28, 36, 45, 55, 2, 14, 27, 41, 56, 8, 25, 43, 62, 18, 39, 61, 20, 44][t]
  }

  function Rho(s: State): State {
    seq(25, i requires 0 <= i < 25 => if i == 0 then s[0] else Rol(s[i], RhoRol(Visit(i))))
  }

  lemma WalkVisit(t: nat)
    requires t < 24
    ensures Visit(Walk(t)) == t
  {
  }

  lemma VisitWalk(i: nat)
    requires 0 < i < 25
    ensures Walk(Visit(i)) == i
  {
  }

  method RhoInPlace(s: array<Lane>)
    requires s.Length == 25
    modifies s
    ensures s[..] == Rho(old(s[..]))
  {
    hide Xor, Rol, RhoRol, Walk, Visit;
    ghost var before: State := s[..];
    forall i | 0 < i < 25 ensures Walk(Visit(i)) == i { VisitWalk(i); }
    for t := 0 to 24
      invariant s[0] == before[0]
      invariant forall i | 0 < i < 25 && Visit(i) < t :: s[i] == Rol(before[i], RhoRol(Visit(i)))
      invariant forall i | 0 < i < 25 && t <= Visit(i) :: s[i] == before[i]
    {
      WalkVisit(t);
      s[Walk(t)] := Rol(s[Walk(t)], RhoRol(t));
    }
  }

  // ---------------------------------------------------------------- pi

  /** The lane that pi moves to position i. */
  function PiSource(i: nat): (j: nat)
    requires i < 25
    ensures j < 25
  {
    [0, 6, 12, 18, 24,
     3, 9, 10, 16, 22,
     1, 7, 13, 19, 20,
     4, 5, 11, 17, 23,
     2, 8, 14, 15, 21][i]
  }

  function Pi(s: State): State {
    seq(25, i requires 0 <= i < 25 => s[PiSource(i)])
  }


  /** The lanes in the order pi writes them; each receives the lane written next. */
  function Cycle(i: nat): (j: nat)
    requires i < 24
    ensures 0 < j < 25
  {
    [24, 21, 8, 16, 5, 3, 18, 17, 11, 7, 10, 1, 6, 9, 22, 14, 20, 2, 12, 13, 19, 23, 15, 4][i]
  }

  /** When pi writes a lane; lane 0 stays. */
  function Turn(i: nat): (j: nat)
    requires 0 < i < 25
    ensures j < 24
  {
    [24, 11, 17, 5, 23, 4, 12, 9, 2, 13, 10, 8, 18, 19, 15, 22, 3, 7, 6, 20, 16, 1, 14, 21, 0][i]
  }

  lemma CycleTurn(k: nat)
    requires k < 24
    ensures Turn(Cycle(k)) == k
  {
  }

  lemma TurnCycle(i: nat)
    requires 0 < i < 25
    ensures Cycle(Turn(i)) == i
  {
  }

  lemma CycleSource(k: nat)
    requires k < 24
    ensures PiSource(Cycle(k)) == Cycle(if k == 23 then 0 else k + 1)
  {
  }

  method PiInPlace(s: array<Lane>)
    requires s.Length == 25
    modifies s
    ensures s[..] == Pi(old(s[..]))
  {
    hide Cycle, Turn, PiSource;
    ghost var before: State := s[..];
    forall i | 0 < i < 25 ensures Cycle(Turn(i)) == i { TurnCycle(i); }
    var t := s[24];
    for k := 0 to 23
      invariant s[0] == before[0]
      invariant forall i | 0 < i < 25 && Turn(i) < k :: s[i] == before[PiSource(i)]
      invariant forall i | 0 < i < 25 && k <= Turn(i) :: s[i] == before[i]
    {
      CycleTurn(k);
      CycleTurn(k + 1);
      CycleSource(k);
      s[Cycle(k)] := s[Cycle(k + 1)];
    }
    CycleEnds();
    CycleSource(23);
    CycleTurn(23);
    s[4] := t;
  }

  lemma CycleEnds()
    ensures Cycle(0) == 24 && Cycle(23) == 4 && PiSource(0) == 0
  {
  }

  // ---------------------------------------------------------------- chi

  function ChiLane(s: State, x: nat, y: nat): Lane
    requires x < 5 && y < 5
  {
    Xor(s[At(x, y)], AndNot(s[At(RightOf(x, 1), y)], s[At(RightOf(x, 2), y)]))
  }

  function Chi(s: State): State {
    seq(25, i requires 0 <= i < 25 => ChiLane(s, i % 5, i / 5))
  }

  function ColumnLanes(s: State, x: nat): (c: seq<Lane>)
    requires x < 5
    ensures |c| == 5 && forall v | 0 <= v < 5 :: c[v] == s[At(x, v)]
  {
    seq(5, v requires 0 <= v < 5 => s[At(x, v)])
  }

  /** Column by column; the first two columns are saved because the last two still need them. */
  method ChiInPlace(s: array<Lane>)
    requires s.Length == 25
    modifies s
    ensures s[..] == Chi(old(s[..]))
  {
    hide Xor, AndNot, ChiLane, At;
    ghost var before: State := s[..];
    var t0, t1 := ColumnLanes(s[..], 0), ColumnLanes(s[..], 1);
    for x := 0 to 5
      invariant forall u, v | 0 <= u < x && 0 <= v < 5 :: s[At(u, v)] == ChiLane(before, u, v)
      invariant forall u, v | x <= u < 5 && 0 <= v < 5 :: s[At(u, v)] == before[At(u, v)]
    {
      ChiColumn(s, x, t0, t1, before);
    }
    forall i | 0 <= i < 25 ensures s[i] == ChiLane(before, i % 5, i / 5) {
      AtSplit(i);
    }
  }

  method ChiColumn(s: array<Lane>, x: nat, t0: seq<Lane>, t1: seq<Lane>, ghost before: State)
    requires s.Length == 25 && |t0| == |t1| == 5 && x < 5
    requires forall v | 0 <= v < 5 :: t0[v] == before[At(0, v)] && t1[v] == before[At(1, v)]
    requires forall u, v | x <= u < 5 && 0 <= v < 5 :: s[At(u, v)] == before[At(u, v)]
    modifies s
    ensures forall u, v | 0 <= u < 5 && u != x && 0 <= v < 5 :: s[At(u, v)] == old(s[At(u, v)])
    ensures forall v | 0 <= v < 5 :: s[At(x, v)] == ChiLane(before, x, v)
  {
    hide Xor, AndNot, At;
    forall u, v, p, q | 0 <= u < 5 && 0 <= v < 5 && 0 <= p < 5 && 0 <= q < 5 && At(u, v) == At(p, q)
      ensures u == p && v == q
    {
      AtInjective(u, v, p, q);
    }
    for y := 0 to 5
      invariant forall u, v | 0 <= u < 5 && u != x && 0 <= v < 5 :: s[At(u, v)] == old(s[At(u, v)])
      invariant forall v | 0 <= v < y :: s[At(x, v)] == ChiLane(before, x, v)
      invariant forall v | y <= v < 5 :: s[At(x, v)] == before[At(x, v)]
    {
      var next := if x < 4 then s[At(x + 1, y)] else t0[y];
      var second := if x < 3 then s[At(x + 2, y)] else if x == 3 then t0[y] else t1[y];
      s[At(x, y)] := Xor(s[At(x, y)], AndNot(next, second));
    }
  }

  lemma AtSplit(i: nat)
    requires i < 25
    ensures At(i % 5, i / 5) == i
  {
  }

  lemma AtInjective(u: nat, v: nat, p: nat, q: nat)
    requires u < 5 && v < 5 && p < 5 && q < 5 && At(u, v) == At(p, q)
    ensures u == p && v == q
  {
  }

  // ---------------------------------------------------------------- iota and the permutation

  function RoundConstant(round: nat): bv64
    requires round < 24
  {
    [0x0000000000000001, 0x0000000000008082, 0x800000000000808a,
     0x8000000080008000, 0x000000000000808b, 0x0000000080000001,
     0x8000000080008081, 0x8000000000008009, 0x000000000000008a,
     0x0000000000000088, 0x0000000080008009, 0x000000008000000a,
     0x000000008000808b, 0x800000000000008b, 0x8000000000008089,
     0x8000000000008003, 0x8000000000008002, 0x8000000000000080,
     0x000000000000800a, 0x800000008000000a, 0x8000000080008081,
     0x8000000000008080, 0x0000000080000001, 0x8000000080008008][round]
  }

  function Iota(s: State, round: nat): State
    requires round < 24
  {
    s[0 := Xor(s[0], Lane(RoundConstant(round)))]
  }

  function Round(s: State, round: nat): State
    requires round < 24
  {
    Iota(Chi(Pi(Rho(Theta(s)))), round)
  }

  function Rounds(s: State, n: nat): State
    requires n <= 24
  {
    if n == 0 then s else Round(Rounds(s, n - 1), n - 1)
  }

  function Permutation(s: State): State {
    Rounds(s, 24)
  }

  method PermuteInPlace(s: array<Lane>)
    requires s.Length == 25
    modifies s
    ensures s[..] == Permutation(old(s[..]))
  {
    hide Theta, Rho, Pi, Chi, RoundConstant, Xor;
    ghost var before: State := s[..];
    for round := 0 to 24
      invariant s[..] == Rounds(before, round)
    {
      ThetaInPlace(s);
      RhoInPlace(s);
      PiInPlace(s);
      ChiInPlace(s);
      s[0] := Xor(s[0], Lane(RoundConstant(round)));
      assert s[..] == Round(Rounds(before, round), round);
    }
  }
}
