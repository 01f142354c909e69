/** XDRBG-256 as jent_xdrbg256_generate_block runs it: one hash context is in turn the seed collector, the hash
    and the holder of the state V. */
module Xdrbg {
  import opened Basics
  import opened Sponge
  import opened ShaContext

  const STATE_SIZE: nat := 64
  const OUTPUT_SIZE: nat := 32

  /** The byte that closes an XDRBG input: 85 n, with n = 0 for the first seeding, 1 for a reseeding and 2 for
      generation. */
  function Encode(n: nat): Byte
    requires n <= 2
  {
    if n == 0 then Byte(0x00) else if n == 1 then Byte(0x55) else Byte(0xaa)
  }

  lemma EncodeIs(n: nat)
    requires n <= 2
    ensures Encode(n).octet as nat == 85 * n
  {
  }

  // ---------------------------------------------------------------- the construction

  function Instantiate(seed: Bytes): (v: Bytes)
    ensures |v| == STATE_SIZE
  {
    Shake256(seed + [Encode(0)], STATE_SIZE)
  }

  function Reseed(v: Bytes, seed: Bytes): (w: Bytes)
    ensures |w| == STATE_SIZE
  {
    Shake256(v + seed + [Encode(1)], STATE_SIZE)
  }

  /** The next V and len bytes of output. */
  function Generate(v: Bytes, len: nat): (r: (Bytes, Bytes))
    requires len <= OUTPUT_SIZE
    ensures |r.0| == STATE_SIZE && |r.1| == len
  {
    var t := Shake256(v + [Encode(2)], STATE_SIZE + len);
    (t[..STATE_SIZE], t[STATE_SIZE..])
  }

  /** The three calls of the construction: V is the XOF of the seed, of V and the seed, and the first 512 bits of the
      XOF of V; the output is what follows them. */
  lemma Construction(v: Bytes, seed: Bytes, len: nat)
    requires len <= 32
    ensures Instantiate(seed) == Shake256(seed + [Byte(0)], 64)
    ensures Reseed(v, seed) == Shake256(v + seed + [Byte(85)], 64)
    ensures |Generate(v, len).0| == 64 && Generate(v, len).0 + Generate(v, len).1 == Shake256(v + [Byte(170)], 64 + len)
  {
    hide Shake256;
  }

  /** One seeding followed by one request. */
  datatype Request = Request(seed: Bytes, len: nat)

  function Seeded(v: Option<Bytes>, seed: Bytes): (w: Bytes)
    ensures |w| == STATE_SIZE
  {
    if v.None? then Instantiate(seed) else Reseed(v.value, seed)
  }

  lemma SeededIs(v: Bytes, seed: Bytes)
    ensures Seeded(None, seed) == Instantiate(seed) && Seeded(Some(v), seed) == Reseed(v, seed)
  {
    hide Instantiate, Reseed;
  }

  /** The outputs of a run of the construction: every request is served after (re)seeding with what was
      collected since the previous one. */
  function Outputs(v: Option<Bytes>, requests: seq<Request>): seq<Bytes>
    decreases |requests|
  {
    hide Seeded, Generate;
    if requests == [] then [] else
      var r := requests[0];
      var (next, output) := Generate(Seeded(v, r.seed), Least(r.len, OUTPUT_SIZE));
      [output] + Outputs(Some(next), requests[1..])
  }

  // ---------------------------------------------------------------- the context

  /** The context holds the state V, if there is one, and after it the seed material collected since. */
  ghost predicate Holds(ctx: Context, v: Option<Bytes>, seed: Bytes)
    reads ctx
  {
    && ctx.padding == SHAKE_DOMAIN
    && ctx.initiallySeeded == v.Some?
    && ctx.absorbed == (if v.Some? then v.value else []) + seed
  }

  /** Close the absorbed input with one byte and squeeze n bytes; the context is empty again. */
  method Squeeze(ctx: Context, encode: Byte, n: nat) returns (digest: Bytes)
    requires ctx.Valid() && ctx.padding == SHAKE_DOMAIN && n % 8 == 0 && n <= RATE
    modifies ctx`msgLen, ctx`absorbed, ctx`digestSize, ctx.state, ctx.partial
    ensures ctx.Valid() && ctx.absorbed == [] && |digest| == n
    ensures |old(ctx.absorbed)| + 1 < SIZE_T ==> digest == Shake256(old(ctx.absorbed) + [encode], n)
  {
    hide SpongeOf, Context.Valid;
    ctx.Update([encode]);
    ctx.digestSize := n;
    digest := ctx.Final();
  }

  lemma ShakePrefix(msg: Bytes, n: nat, m: nat)
    requires n <= m <= RATE
    ensures Shake256(msg, m)[..n] == Shake256(msg, n)
  {
    hide Sponge.Squeeze, Absorb;
  }

  /** jent_xdrbg256_generate_block */
  method GenerateBlock(ctx: Context, len: nat, ghost v: Option<Bytes>, ghost seed: Bytes) returns (output: Bytes)
    requires ctx.Valid() && Holds(ctx, v, seed)
    modifies ctx`msgLen, ctx`absorbed, ctx`digestSize, ctx`initiallySeeded, ctx.state, ctx.partial
    ensures ctx.Valid()
    ensures |old(ctx.absorbed)| + 1 < SIZE_T ==>
              var (next, expected) := Generate(Seeded(v, seed), Least(len, OUTPUT_SIZE));
              Holds(ctx, Some(next), []) && output == expected
  {
    hide Shake256, Context.Valid, Encode;
    var encode := Encode(if ctx.initiallySeeded then 1 else 0);
    ctx.initiallySeeded := true;
    assert v.None? ==> ctx.absorbed == seed;
    var state := Squeeze(ctx, encode, STATE_SIZE);
    assert |old(ctx.absorbed)| + 1 < SIZE_T ==> state == Seeded(v, seed);
    ctx.Update(state);
    assert ctx.absorbed == state;
    var block := Squeeze(ctx, Encode(2), STATE_SIZE + OUTPUT_SIZE);
    ShakePrefix(state + [Encode(2)], STATE_SIZE + Least(len, OUTPUT_SIZE), STATE_SIZE + OUTPUT_SIZE);
    output := if len > 0 then block[STATE_SIZE..STATE_SIZE + Least(len, OUTPUT_SIZE)] else [];
    ctx.Update(block[..STATE_SIZE]);
    assert ctx.absorbed == block[..STATE_SIZE];
  }

  /** What a caller does to the context: add seed material, or ask for output. */
  datatype Op = Seed(data: Bytes) | Produce(len: nat)

  /** A run of operations as requests of the construction: each request is seeded with everything added since
      the one before it.  Material after the last request serves no request yet. */
  function Requests(seed: Bytes, ops: seq<Op>): seq<Request>
    decreases |ops|
  {
    if ops == [] then []
    else match ops[0]
      case Seed(data) => Requests(seed + data, ops[1..])
      case Produce(len) => [Request(seed, len)] + Requests([], ops[1..])
  }

  /** The seed material of every request, after n bytes for the first one, stays below the range of the length. */
  predicate InRange(n: nat, ops: seq<Op>)
    decreases |ops|
  {
    ops == [] ||
    match ops[0]
    case Seed(data) => InRange(n + |data|, ops[1..])
    case Produce(_) => n + STATE_SIZE + 1 < SIZE_T && InRange(0, ops[1..])
  }

  /** Any run of seed updates and requests on a fresh context serves exactly the outputs of the construction,
      however the seed material was cut into updates. */
  method Run(ops: seq<Op>) returns (outputs: seq<Bytes>)
    requires InRange(0, ops)
    ensures outputs == Outputs(None, Requests([], ops))
  {
    hide Generate, Seeded, Context.Valid;
    var ctx := new Context.Shake256();
    outputs := [];
    ghost var v: Option<Bytes>, seed: Bytes := None, [];
    var i := 0;
    while i < |ops|
      invariant 0 <= i <= |ops|
      invariant ctx.Valid() && fresh(ctx) && fresh(ctx.state) && fresh(ctx.partial)
      invariant Holds(ctx, v, seed) && (v.Some? ==> |v.value| == STATE_SIZE)
      invariant InRange(|seed|, ops[i..])
      invariant outputs + Outputs(v, Requests(seed, ops[i..])) == Outputs(None, Requests([], ops))
    {
      match ops[i] {
        case Seed(data) =>
          ctx.Update(data);
          seed := seed + data;
        case Produce(len) =>
          var output := GenerateBlock(ctx, len, v, seed);
          outputs := outputs + [output];
          v, seed := Some(Generate(Seeded(v, seed), Least(len, OUTPUT_SIZE)).0), [];
      }
      assert ops[i..][1..] == ops[i + 1..];
      i := i + 1;
    }
  }

  // ---------------------------------------------------------------- the bytes of a request

  function Flat(blocks: seq<Bytes>): Bytes {
    if blocks == [] then [] else blocks[0] + Flat(blocks[1..])
  }

  /** The state V after some requests. */
  function Final(v: Option<Bytes>, requests: seq<Request>): Option<Bytes>
    decreases |requests|
  {
    hide Seeded, Generate;
    if requests == [] then v
    else Final(Some(Generate(Seeded(v, requests[0].seed), Least(requests[0].len, OUTPUT_SIZE)).0), requests[1..])
  }

  /** A request for len bytes, one pass of collected material for each block of it. */
  function BlockRequests(seed: Bytes, materials: seq<Bytes>, len: nat): seq<Request>
    decreases |materials|
  {
    if materials == [] then []
    else [Request(seed + materials[0], Least(len, OUTPUT_SIZE))]
         + BlockRequests([], materials[1..], len - Least(len, OUTPUT_SIZE))
  }

  /** One pass for each block of 32 bytes, or what is left of it. */
  predicate Enough(materials: seq<Bytes>, len: nat) {
    OUTPUT_SIZE * |materials| >= len && OUTPUT_SIZE * |materials| < len + OUTPUT_SIZE
  }

  predicate Short(seed: Bytes, materials: seq<Bytes>) {
    |seed| + STATE_SIZE + 1 < SIZE_T
    && (materials != [] ==> |seed| + |materials[0]| + STATE_SIZE + 1 < SIZE_T)
    && forall m | m in materials :: |m| + STATE_SIZE + 1 < SIZE_T
  }

  /** The first block and the rest. */
  lemma NextBlock(v: Option<Bytes>, seed: Bytes, materials: seq<Bytes>, len: nat)
    requires materials != []
    ensures var n := Least(len, OUTPUT_SIZE);
            var (next, block) := Generate(Seeded(v, seed + materials[0]), n);
            var requests, rest := BlockRequests(seed, materials, len), BlockRequests([], materials[1..], len - n);
            && Flat(Outputs(v, requests)) == block + Flat(Outputs(Some(next), rest))
            && Final(v, requests) == Final(Some(next), rest)
  {
    hide Seeded, Generate;
    var n := Least(len, OUTPUT_SIZE);
    var (next, block) := Generate(Seeded(v, seed + materials[0]), n);
    var requests, rest := BlockRequests(seed, materials, len), BlockRequests([], materials[1..], len - n);
    assert requests[1..] == rest;
    assert Outputs(v, requests)[1..] == Outputs(Some(next), rest);
  }

  lemma NoBlock(v: Option<Bytes>, seed: Bytes, len: nat)
    ensures Flat(Outputs(v, BlockRequests(seed, [], len))) == [] && Final(v, BlockRequests(seed, [], len)) == v
  {
  }

  lemma {:induction false} FinalMore(v: Option<Bytes>, requests: seq<Request>, r: Request)
    ensures Final(v, requests + [r]) == Some(Generate(Seeded(Final(v, requests), r.seed), Least(r.len, OUTPUT_SIZE)).0)
    decreases |requests|
  {
    hide Seeded, Generate;
    if requests == [] {
      assert Final(v, []) == v && (requests + [r])[1..] == [] && [r][0] == r;
      var w := Some(Generate(Seeded(v, r.seed), Least(r.len, OUTPUT_SIZE)).0);
      assert Final(w, []) == w;
    } else {
      assert (requests + [r])[1..] == requests[1..] + [r];
      FinalMore(Some(Generate(Seeded(v, requests[0].seed), Least(requests[0].len, OUTPUT_SIZE)).0), requests[1..], r);
    }
  }

  /** One block: the material of a pass, and the output read after it. */
  method DeliverBlock(ctx: Context, material: Bytes, n: nat, ghost v: Option<Bytes>, ghost seed: Bytes)
    returns (block: Bytes)
    requires ctx.Valid() && Holds(ctx, v, seed) && (v.Some? ==> |v.value| == STATE_SIZE) && n <= OUTPUT_SIZE
    requires |seed| + |material| + STATE_SIZE + 1 < SIZE_T
    modifies ctx`msgLen, ctx`absorbed, ctx`digestSize, ctx`initiallySeeded, ctx.state, ctx.partial
    ensures ctx.Valid() && Holds(ctx, Some(Generate(Seeded(v, seed + material), n).0), [])
    ensures block == Generate(Seeded(v, seed + material), n).1
  {
    hide Generate, Seeded, Context.Valid;
    ctx.Update(material);
    block := GenerateBlock(ctx, n, v, seed + material);
  }

  /** The bytes that jent_read_entropy delivers when no pass fails: every pass has put its material into the context,
      every block is read from it, and one more is read for backtracking resistance unless the memory is secure. */
  method Deliver(ctx: Context, materials: seq<Bytes>, len: nat, secureMemory: bool, ghost v: Option<Bytes>,
                 ghost seed: Bytes) returns (data: Bytes)
    requires ctx.Valid() && Holds(ctx, v, seed) && (v.Some? ==> |v.value| == STATE_SIZE)
    requires Enough(materials, len) && Short(seed, materials)
    modifies ctx`msgLen, ctx`absorbed, ctx`digestSize, ctx`initiallySeeded, ctx.state, ctx.partial
    ensures ctx.Valid() && |data| == len
    ensures var requests := BlockRequests(seed, materials, len);
            && data == Flat(Outputs(v, requests))
            && Holds(ctx, if secureMemory then Final(v, requests)
                          else Final(v, requests + [Request(if len == 0 then seed else [], 0)]),
                     if secureMemory && len == 0 then seed else [])
  {
    hide Generate, Seeded, Context.Valid, Outputs, Final, Flat, BlockRequests, Holds;
    data := [];
    ghost var w, s := v, seed;
    ghost var requests := BlockRequests(seed, materials, len);
    var left, i := len, 0;
    while left > 0
      invariant 0 <= i <= |materials| && Enough(materials[i..], left) && |data| == len - left
      invariant ctx.Valid() && Holds(ctx, w, s) && (w.Some? ==> |w.value| == STATE_SIZE) && Short(s, materials[i..])
      invariant s == (if i == 0 then seed else []) && (i == 0 ==> left == len)
      invariant data + Flat(Outputs(w, BlockRequests(s, materials[i..], left))) == Flat(Outputs(v, requests))
      invariant Final(w, BlockRequests(s, materials[i..], left)) == Final(v, requests)
    {
      var toCopy := Least(left, OUTPUT_SIZE);
      NextBlock(w, s, materials[i..], left);
      assert materials[i..][1..] == materials[i + 1..] && materials[i..][0] == materials[i];
      var block := DeliverBlock(ctx, materials[i], toCopy, w, s);
      w, s := Some(Generate(Seeded(w, s + materials[i]), toCopy).0), [];
      data := data + block;
      left, i := left - toCopy, i + 1;
    }
    NoBlock(w, s, 0);
    assert materials[i..] == [] && data + [] == data;
    if !secureMemory {
      FinalMore(v, requests, Request(s, 0));
      assert s + [] == s;
      var nothing := DeliverBlock(ctx, [], 0, w, s);
    }
  }
}
