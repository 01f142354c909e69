/** The buffered hash context of jitterentropy-sha3.c.  However a message is cut into updates, the context
    stands for the concatenation of what it was given since its last initialization, and finalizing it
    yields the one-shot sponge of that concatenation. */
module ShaContext {
  import opened Keccak
  import opened Sponge

  const SIZE_T: nat := 0x1_0000_0000_0000_0000

  /** Arithmetic of the 64-bit length field. */
  function Wrap(n: nat): nat {
    n % SIZE_T
  }

  /** Past 2^64 bytes the field no longer tells the position in the block, unless it has wrapped a multiple of
      17 times. */
  lemma WrappedPosition(n: nat)
    ensures Wrap(n) % RATE == n % RATE <==> (n / SIZE_T) % 17 == 0
  {
    var w, a, b := Wrap(n), n / SIZE_T / 17, (n / SIZE_T) % 17;
    assert n == w + SIZE_T * (17 * a + b);
    assert n == w + 120 * b + RATE * (135637824071393761 * (17 * a + b) + 15 * a);
    ModUnique(n, 135637824071393761 * (17 * a + b) + 15 * a, w + 120 * b);
    ModShift(w, b);
  }

  lemma ModUnique(n: nat, q: nat, r: nat)
    requires n == RATE * q + r
    ensures n % RATE == r % RATE
  {
    assert n == RATE * (q + r / RATE) + r % RATE;
  }

  lemma ModShift(w: nat, b: nat)
    requires b < 17
    ensures (w + 120 * b) % RATE == w % RATE <==> b == 0
  {
  }

  lemma WrapSum(a: nat, b: nat)
    ensures Wrap(Wrap(a) + b) == Wrap(a + b)
    ensures a < SIZE_T ==> Wrap(a) == a
  {
  }

  class Context {
    const state: array<Lane>
    const partial: array<Byte>
    var msgLen: nat
    var digestSize: nat
    var padding: Byte
    var initiallySeeded: bool

    /** Everything passed to Update since the last initialization. */
    ghost var absorbed: Bytes

    /** Every fact but the length is lost once the 64-bit length field has wrapped. */
    ghost predicate Valid()
      reads this`msgLen, this`absorbed, state, partial
    {
      && state.Length == 25 && partial.Length == RATE
      && msgLen == Wrap(|absorbed|)
      && (|absorbed| < SIZE_T ==> Represents(absorbed))
    }

    ghost predicate Represents(msg: Bytes)
      requires state.Length == 25 && partial.Length == RATE
      reads state, partial
    {
      && state[..] == Absorb(ZeroState(), msg)
      && partial[..|Tail(msg)|] == Tail(msg)
    }

    constructor Sha3_256()
      ensures Valid() && fresh(state) && fresh(partial)
      ensures absorbed == [] && digestSize == 32 && padding == SHA3_DOMAIN
    {
      state := new Lane[25](_ => ZERO_LANE);
      partial := new Byte[RATE](_ => ZERO_BYTE);
      msgLen, digestSize, padding, initiallySeeded := 0, 32, SHA3_DOMAIN, false;
      absorbed := [];
      new;
      assert state[..] == ZeroState();
    }

    constructor Shake256()
      ensures Valid() && fresh(state) && fresh(partial)
      ensures absorbed == [] && digestSize == 0 && padding == SHAKE_DOMAIN && !initiallySeeded
    {
      state := new Lane[25](_ => ZERO_LANE);
      partial := new Byte[RATE](_ => ZERO_BYTE);
      msgLen, digestSize, padding, initiallySeeded := 0, 0, SHAKE_DOMAIN, false;
      absorbed := [];
      new;
      assert state[..] == ZeroState();
    }

    /** XOR one block into the state and permute it. */
    method AbsorbInPlace(block: Bytes)
      requires state.Length == 25 && |block| == RATE
      modifies state
      ensures state[..] == AbsorbBlock(old(state[..]), block)
    {
      hide Permutation, Xor, LaneOf;
      ghost var before: State := state[..];
      for i := 0 to 17
        invariant forall j | 0 <= j < i :: state[j] == Xor(before[j], LaneOf(block[8 * j..8 * j + 8]))
        invariant forall j | i <= j < 25 :: state[j] == before[j]
      {
        state[i] := Xor(state[i], LaneOf(block[8 * i..8 * i + 8]));
      }
      assert state[..] == XorBlock(before, block);
      PermuteInPlace(state);
    }

    /** Absorb the whole blocks of input from position start on. */
    method AbsorbBlocks(input: Bytes, start: nat) returns (pos: nat)
      requires state.Length == 25 && start <= |input|
      modifies state
      ensures state[..] == Absorb(old(state[..]), input[start..])
      ensures start <= pos <= |input| && input[pos..] == Tail(input[start..])
    {
      hide AbsorbBlock, Absorb, Tail;
      pos := start;
      while |input| - pos >= RATE
        invariant start <= pos <= |input|
        invariant Absorb(state[..], input[pos..]) == Absorb(old(state[..]), input[start..])
        invariant Tail(input[pos..]) == Tail(input[start..])
      {
        assert input[pos..] == input[pos..pos + RATE] + input[pos + RATE..];
        TailUnique(input[pos..pos + RATE], input[pos + RATE..]);
        AbsorbConcat(state[..], input[pos..pos + RATE], input[pos + RATE..]);
        AbsorbOne(state[..], input[pos..pos + RATE]);
        AbsorbInPlace(input[pos..pos + RATE]);
        pos := pos + RATE;
      }
      AbsorbNothing(state[..], input[pos..]);
    }

    /** Fill the partial block, p bytes of which are in use, and absorb it. */
    method CompletePartial(p: nat, rest: Bytes)
      requires state.Length == 25 && partial.Length == RATE && p + |rest| == RATE
      modifies state, partial
      ensures state[..] == AbsorbBlock(old(state[..]), old(partial[..p]) + rest)
    {
      hide AbsorbBlock;
      Store(partial, p, rest);
      assert partial[..] == old(partial[..p]) + rest;
      AbsorbInPlace(partial[..]);
    }

    /** jent_sha3_update */
    method Update(input: Bytes)
      requires Valid()
      modifies this`msgLen, this`absorbed, state, partial
      ensures Valid() && absorbed == old(absorbed) + input
    {
      hide Absorb, AbsorbBlock, Tail, Wrap;
      ghost var exact := |absorbed| < SIZE_T;
      WrapSum(|absorbed|, |input|);
      var p := msgLen % RATE;
      msgLen := Wrap(msgLen + |input|);
      absorbed := absorbed + input;
      if p != 0 && |input| < RATE - p {
        if exact {
          ResumeShort(old(absorbed), input);
        }
        Store(partial, p, input);
        return;
      }
      var pos := 0;
      if p != 0 {
        pos := RATE - p;
        if exact {
          ResumeBlock(old(absorbed), input, pos);
        }
        CompletePartial(p, input[..pos]);
      } else if exact {
        ResumeAligned(old(absorbed), input);
        assert input == input[0..];
      }
      pos := AbsorbBlocks(input, pos);
      Store(partial, 0, input[pos..]);
    }

    /** jent_sha3_final: at most one block of digest, in whole lanes.  The context starts over. */
    method Final() returns (digest: Bytes)
      requires Valid() && digestSize <= RATE
      modifies this`msgLen, this`absorbed, state, partial
      ensures Valid() && absorbed == []
      ensures |digest| == 8 * (digestSize / 8)
      ensures |old(absorbed)| < SIZE_T ==> digest == SpongeOf(old(absorbed), padding, 8 * (digestSize / 8))
    {
      hide Absorb, AbsorbBlock, Tail, BytesOf;
      ghost var exact := |absorbed| < SIZE_T;
      var p := msgLen % RATE;
      Store(partial, p, Zeros(RATE - p));
      partial[p] := padding;
      partial[RATE - 1] := OrByte(partial[RATE - 1], Byte(0x80));
      if exact {
        assert partial[..] == LastBlock(Tail(absorbed), padding);
        SpongeByTail(absorbed, padding, digestSize / 8);
      }
      AbsorbInPlace(partial[..]);
      digest := [];
      for i := 0 to digestSize / 8
        invariant digest == Squeeze(state[..], i)
      {
        digest := digest + BytesOf(state[i]);
      }
      Store(partial, 0, Zeros(RATE));
      Restart();
    }

    /** jent_sha3_init */
    method Restart()
      requires state.Length == 25 && partial.Length == RATE
      modifies this`msgLen, this`absorbed, state
      ensures Valid() && absorbed == []
    {
      for i := 0 to 25
        invariant forall j | 0 <= j < i :: state[j] == ZERO_LANE
      {
        state[i] := ZERO_LANE;
      }
      msgLen := 0;
      absorbed := [];
      assert state[..] == ZeroState();
    }
  }

  /** memcpy */
  method Store(target: array<Byte>, at: nat, source: Bytes)
    requires at + |source| <= target.Length
    modifies target
    ensures target[..] == old(target[..at]) + source + old(target[at + |source|..])
  {
    for i := 0 to |source|
      invariant target[..] == old(target[..at]) + source[..i] + old(target[at + i..])
    {
      target[at + i] := source[i];
    }
  }

  function Concat(pieces: seq<Bytes>): Bytes {
    if pieces == [] then [] else Concat(pieces[..|pieces| - 1]) + pieces[|pieces| - 1]
  }

  /** However a message is cut into updates, the digest is the one-shot SHA3-256 of the whole. */
  method HashPieces(pieces: seq<Bytes>) returns (digest: Bytes)
    requires |Concat(pieces)| < SIZE_T
    ensures digest == Sponge.Sha3_256(Concat(pieces))
  {
    hide SpongeOf, Context.Valid;
    var ctx := new Context.Sha3_256();
    for i := 0 to |pieces|
      invariant ctx.Valid() && ctx.absorbed == Concat(pieces[..i])
      invariant fresh(ctx) && fresh(ctx.state) && fresh(ctx.partial)
      invariant ctx.digestSize == 32 && ctx.padding == SHA3_DOMAIN
    {
      ctx.Update(pieces[i]);
      assert pieces[..i + 1][..i] == pieces[..i];
    }
    assert pieces[..|pieces|] == pieces;
    digest := ctx.Final();
  }
}
