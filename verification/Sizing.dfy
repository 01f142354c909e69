/** How large the memory block and how long the hash loop of a collector are: the cache size rounded up to a power
    of two (arch/jitterentropy-arch-cache.c) and the size fields in the flag word (jitterentropy-base.c), in
    unsigned 32-bit arithmetic. */
module Sizing {

  /** What the platform reports about its caches; a level it knows nothing about is zero or negative. */
  datatype Caches = Caches(l1: int, l2: int, l3: int)

  /** (uint32_t)size, for a positive size. */
  function Word32(size: int): bv32 {
    if size > 0 then (size % 0x1_0000_0000) as bv32 else 0
  }

  /** Addition that wraps. */
  function Plus(x: bv32, y: bv32): bv32 {
    x + y
  }

  /** The size the memory block is derived from; the sum wraps. */
  function CacheSum(c: Caches, all: bool): bv32 {
    var l1 := Plus(0, Word32(c.l1));
    if all then Plus(Plus(l1, Word32(c.l2)), Word32(c.l3)) else l1
  }

  function Spread(x: bv32, k: bv32): bv32
    requires k <= 32
  {
    x | (x >> k)
  }

  /** Every bit at or below the highest bit of x. */
  function Smeared(x: bv32): bv32 {
    Spread(Spread(Spread(Spread(Spread(x, 1), 2), 4), 8), 16)
  }

  /** x has the form 2^k - 1, and sum has its highest bit where x has, or both are zero. */
  predicate FillsBits(x: bv32, sum: bv32) {
    x & (x + 1) == 0 && (x >> 1) <= sum <= x && (sum == 0 <==> x == 0) && (sum != 0 ==> (x >> 1) < sum)
  }

  lemma SmearedFills(sum: bv32)
    ensures FillsBits(Smeared(sum), sum)
  {
  }

  /** jent_cache_size_to_memory: the number of the form 2^k - 1 with the same highest bit as the sum of the sizes. */
  method CacheSizeToMemory(c: Caches, all: bool) returns (size: bv32)
    ensures FillsBits(size, CacheSum(c, all))
    ensures size == Smeared(CacheSum(c, all))
  {
    hide Word32, Plus, Spread, FillsBits;
    size := 0;
    size := Plus(size, Word32(c.l1));
    if all {
      size := Plus(size, Word32(c.l2));
      size := Plus(size, Word32(c.l3));
    }
    size := Spread(size, 1);
    size := Spread(size, 2);
    size := Spread(size, 4);
    size := Spread(size, 8);
    size := Spread(size, 16);
    SmearedFills(CacheSum(c, all));
  }

  /** jent_cache_size_roundup; a sum of 2^31 or more wraps to 0, like an unknown one. */
  function Roundup(sum: bv32): bv32 {
    if Smeared(sum) == 0 then 0 else Smeared(sum) + 1
  }

  predicate PowerOfTwo(p: bv32) {
    p != 0 && p & (p - 1) == 0
  }

  /** There is a power of two above the sum in 32 bits, and there is a sum. */
  predicate InRange(sum: bv32) {
    0 < sum < 0x8000_0000
  }

  /** r is the power of two just above the sum. */
  predicate JustAbove(r: bv32, sum: bv32) {
    PowerOfTwo(r) && (r >> 1) <= sum < r
  }

  lemma RoundupIsPower(sum: bv32)
    ensures InRange(sum) ==> Roundup(sum) != 0 && JustAbove(Roundup(sum), sum)
    ensures !InRange(sum) ==> Roundup(sum) == 0
  {
  }

  /** The roundup is the least power of two above the sum, as long as there is one. */
  lemma RoundupIsLeast(sum: bv32, q: bv32)
    requires InRange(sum)
    ensures PowerOfTwo(Roundup(sum)) && sum < Roundup(sum)
    ensures PowerOfTwo(q) && sum < q ==> Roundup(sum) <= q
  {
    hide Roundup;
    RoundupIsPower(sum);
    if PowerOfTwo(q) && sum < q {
      NoSmallerPower(sum, Roundup(sum), q);
    }
  }

  lemma NoSmallerPower(sum: bv32, r: bv32, q: bv32)
    requires JustAbove(r, sum) && PowerOfTwo(q) && sum < q
    ensures r <= q
  {
  }

  function ShiftRight(v: bv32, k: bv32): bv32
    requires k <= 32
  {
    v >> k
  }

  function Half(v: bv32): bv32 {
    v >> 1
  }

  /** idx, and one more for every halving until nothing is left. */
  function LogFrom(v: bv32, idx: bv32): bv32
    decreases v
  {
    if Half(v) == 0 then idx else LogFrom(Half(v), Plus(idx, 1))
  }

  lemma HalfLess(v: bv32)
    ensures Half(v) != 0 ==> Half(v) < v
  {
  }

  /** jent_log2_simple */
  method Log2Simple(v: bv32) returns (idx: bv32)
    ensures idx == LogFrom(v, 0)
  {
    hide Plus, Half;
    idx := 0;
    var val := v;
    while Half(val) != 0
      invariant LogFrom(v, 0) == LogFrom(val, idx)
      decreases val
    {
      HalfLess(val);
      val := Half(val);
      idx := Plus(idx, 1);
    }
  }

  /** The highest bit of v is at position LogFrom(v, 0). */
  lemma {:induction false} LogIsHighest(v: bv32, val: bv32, idx: bv32)
    requires val != 0 && idx < 32 && ShiftRight(v, idx) == val
    ensures LogFrom(val, idx) < 32 && ShiftRight(v, LogFrom(val, idx)) == 1
    decreases val
  {
    hide Half, Plus, ShiftRight;
    if Half(val) != 0 {
      HalfLess(val);
      ShiftMore(v, val, idx);
      LogIsHighest(v, Half(val), Plus(idx, 1));
    } else {
      OneLeft(val);
    }
  }

  lemma ShiftMore(v: bv32, val: bv32, idx: bv32)
    requires idx < 32 && ShiftRight(v, idx) == val && Half(val) != 0
    ensures Plus(idx, 1) < 32 && ShiftRight(v, Plus(idx, 1)) == Half(val)
  {
  }

  lemma OneLeft(val: bv32)
    ensures val != 0 && Half(val) == 0 ==> val == 1
  {
  }

  /** A level of unknown size counts for nothing, and the others are cut to 32 bits. */
  lemma WordIs(x: int)
    ensures Word32(x) == if x > 0 then (x % 0x1_0000_0000) as bv32 else 0
  {
  }

  /** All levels are summed, or the first one alone; the sum wraps. */
  lemma SumOfCaches(c: Caches)
    ensures CacheSum(c, false) == Word32(c.l1)
    ensures CacheSum(c, true) == Plus(Plus(Word32(c.l1), Word32(c.l2)), Word32(c.l3))
  {
    hide Word32, Plus;
    NothingPlus(Word32(c.l1));
  }

  lemma NothingPlus(x: bv32)
    ensures Plus(0, x) == x
  {
  }

  // ---------------------------------------------------------------- the flag word

  const DISABLE_MEMORY_ACCESS: bv32 := 0x4
  const FORCE_INTERNAL_TIMER: bv32 := 0x8
  const DISABLE_INTERNAL_TIMER: bv32 := 0x10
  const FORCE_FIPS: bv32 := 0x20
  const NTG1: bv32 := 0x40
  const CACHE_ALL: bv32 := 0x80

  const MAX_MEMSIZE: bv32 := 20
  const MEMSIZE_OFFSET: bv32 := 9
  const DEFAULT_MEMORY_BITS: bv32 := 18
  const MAX_HASHLOOP: bv32 := 7

  predicate Has(flags: bv32, flag: bv32) {
    flags & flag != 0
  }

  /** The memory size field: the upper five bits. */
  function MemField(flags: bv32): bv32 {
    flags >> 27
  }

  /** The hash loop field: the three bits below. */
  function HashField(flags: bv32): bv32 {
    (flags >> 24) & 7
  }

  /** The flags without the size fields. */
  function OtherBits(flags: bv32): bv32 {
    flags & 0xFF_FFFF
  }

  function WithMem(flags: bv32, max: bv32): bv32 {
    (flags & 0x7FF_FFFF) | (max << 27)
  }

  function WithHash(flags: bv32, max: bv32): bv32 {
    (flags & 0xF8FF_FFFF) | (max << 24)
  }

  function Min(x: bv32, y: bv32): bv32 {
    if x > y then y else x
  }

  /** The field value for a block of 2^bits bytes. */
  function FieldFor(bits: bv32): bv32 {
    if bits > MEMSIZE_OFFSET then bits - MEMSIZE_OFFSET else 0
  }

  /** The field for a block four times the size of the cache, or twice that of all caches' roundup. */
  function DefaultField(c: Caches, all: bool): bv32 {
    var log := LogFrom(Roundup(CacheSum(c, all)), 0);
    FieldFor(if log == 0 then DEFAULT_MEMORY_BITS else if all then log else Plus(log, 2))
  }

  /** jent_update_memsize */
  function UpdateMemsize(flags: bv32, inc: bv32, c: Caches): bv32 {
    var max := if MemField(flags) == 0 then DefaultField(c, Has(flags, CACHE_ALL)) else Plus(MemField(flags), inc);
    WithMem(flags, Min(max, MAX_MEMSIZE))
  }

  /** jent_update_hashloop */
  function UpdateHashloop(flags: bv32, inc: bv32): bv32 {
    WithHash(flags, Min(Plus(HashField(flags), inc), MAX_HASHLOOP))
  }

  function Power(bits: bv32): bv32
    requires bits <= 32
  {
    1 << bits
  }

  /** The block a field value stands for; the shift is only defined for a field that has been capped. */
  function Block(field: bv32): bv32
    requires field <= MAX_MEMSIZE
  {
    Power(if field == 0 then DEFAULT_MEMORY_BITS else field + MEMSIZE_OFFSET)
  }

  /** jent_memsize */
  function Memsize(flags: bv32): bv32
    requires MemField(flags) <= MAX_MEMSIZE
  {
    Block(MemField(flags))
  }

  /** jent_hashloop_cnt; the default count is 1. */
  function HashloopCount(flags: bv32): bv32 {
    Power(HashField(flags))
  }

  /** Writing one field leaves the other and all flag bits alone. */
  lemma FieldsApart(flags: bv32, max: bv32)
    ensures max <= 31 ==> MemField(WithMem(flags, max)) == max
    ensures HashField(WithMem(flags, max)) == HashField(flags) && OtherBits(WithMem(flags, max)) == OtherBits(flags)
    ensures max <= 7 ==> HashField(WithHash(flags, max)) == max && MemField(WithHash(flags, max)) == MemField(flags)
    ensures max <= 7 ==> OtherBits(WithHash(flags, max)) == OtherBits(flags)
  {
  }

  lemma UpdateMemsizeFields(flags: bv32, inc: bv32, c: Caches)
    requires inc <= 1
    ensures var r := UpdateMemsize(flags, inc, c);
            && MemField(r) == Min(if MemField(flags) == 0 then DefaultField(c, Has(flags, CACHE_ALL))
                                  else Plus(MemField(flags), inc), MAX_MEMSIZE)
            && MemField(r) <= MAX_MEMSIZE && HashField(r) == HashField(flags) && OtherBits(r) == OtherBits(flags)
  {
    hide WithMem, Has, DefaultField, MemField, HashField, OtherBits, Plus;
    var max := if MemField(flags) == 0 then DefaultField(c, Has(flags, CACHE_ALL)) else Plus(MemField(flags), inc);
    Capped(max);
    FieldsApart(flags, Min(max, MAX_MEMSIZE));
  }

  lemma Capped(max: bv32)
    ensures Min(max, MAX_MEMSIZE) <= MAX_MEMSIZE && Min(max, MAX_MEMSIZE) <= 31
    ensures Min(max, MAX_HASHLOOP) <= MAX_HASHLOOP
  {
  }

  lemma UpdateHashloopFields(flags: bv32, inc: bv32)
    ensures var r := UpdateHashloop(flags, inc);
            && HashField(r) == Min(Plus(HashField(flags), inc), MAX_HASHLOOP)
            && MemField(r) == MemField(flags) && OtherBits(r) == OtherBits(flags)
  {
    hide WithHash, MemField, HashField, OtherBits, Plus, Min;
    Capped(Plus(HashField(flags), inc));
    FieldsApart(flags, Min(Plus(HashField(flags), inc), MAX_HASHLOOP));
  }

  /** At least four times the sum. */
  predicate FourTimes(size: bv32, sum: bv32) {
    size >> 2 >= sum
  }

  /** The block is a power of two, at least four times the sum exactly when that is no more than 128 MB. */
  predicate Covers(size: bv32, sum: bv32) {
    PowerOfTwo(size) && (FourTimes(size, sum) <==> sum <= 0x800_0000)
  }

  /** What the library picks when left to itself covers the L1 cache. */
  lemma MemoryCoversL1(flags: bv32, c: Caches)
    requires MemField(flags) == 0 && !Has(flags, CACHE_ALL)
    ensures MemField(UpdateMemsize(flags, 0, c)) <= MAX_MEMSIZE
    ensures Covers(Memsize(UpdateMemsize(flags, 0, c)), CacheSum(c, false))
  {
    hide MemField, Has, CacheSum, Roundup, LogFrom, UpdateMemsize, HashField, OtherBits, Block, Plus, Covers, Min,
      FieldFor;
    UpdateMemsizeFields(flags, 0, c);
    BlockCoversSum(CacheSum(c, false));
    assert MemField(UpdateMemsize(flags, 0, c)) == Min(DefaultField(c, false), MAX_MEMSIZE);
  }

  /** The field that DefaultField picks for a logarithm, capped. */
  function FieldOfLog(log: bv32): (field: bv32)
    ensures field <= MAX_MEMSIZE
  {
    Min(FieldFor(if log == 0 then DEFAULT_MEMORY_BITS else Plus(log, 2)), MAX_MEMSIZE)
  }

  /** How large the block is exactly: four times the power of two just above the sum, between 1 KB and 512 MB; 256 KB
      for sums that are unknown, wrap, or are below 128 bytes. */
  predicate FourfoldBlock(size: bv32, sum: bv32) {
    if sum < 0x80 || sum >= 0x8000_0000 then size == 0x4_0000
    else if sum >= 0x800_0000 then size == 0x2000_0000
    else JustAbove(size >> 2, sum) && (size >> 2) << 2 == size
  }

  lemma MemoryIsFourfold(flags: bv32, c: Caches)
    requires MemField(flags) == 0 && !Has(flags, CACHE_ALL)
    ensures MemField(UpdateMemsize(flags, 0, c)) <= MAX_MEMSIZE
    ensures FourfoldBlock(Memsize(UpdateMemsize(flags, 0, c)), CacheSum(c, false))
  {
    hide MemField, Has, CacheSum, Roundup, LogFrom, UpdateMemsize, HashField, OtherBits, Block, Plus, FourfoldBlock,
      Min, FieldFor;
    UpdateMemsizeFields(flags, 0, c);
    BlockIsFourfold(CacheSum(c, false));
    assert MemField(UpdateMemsize(flags, 0, c)) == Min(DefaultField(c, false), MAX_MEMSIZE);
  }

  lemma BlockIsFourfold(sum: bv32)
    ensures FourfoldBlock(Block(FieldOfLog(LogFrom(Roundup(sum), 0))), sum)
  {
    hide Roundup, LogFrom, ShiftRight, Block, FieldOfLog, FourfoldBlock, InRange, JustAbove;
    var r := Roundup(sum);
    RoundupIsPower(sum);
    if InRange(sum) {
      ShiftNone(r);
      LogIsHighest(r, r, 0);
      FourfoldOfLog(sum, r, LogFrom(r, 0));
    } else {
      NoLog();
      DefaultFourfold(sum);
    }
  }

  lemma FourfoldOfLog(sum: bv32, r: bv32, log: bv32)
    requires InRange(sum) && JustAbove(r, sum) && log < 32 && ShiftRight(r, log) == 1
    ensures FourfoldBlock(Block(FieldOfLog(log)), sum)
  {
  }

  lemma DefaultFourfold(sum: bv32)
    requires !InRange(sum)
    ensures FourfoldBlock(Block(FieldOfLog(0)), sum)
  {
  }

  lemma BlockCoversSum(sum: bv32)
    ensures Covers(Block(FieldOfLog(LogFrom(Roundup(sum), 0))), sum)
  {
    hide Roundup, LogFrom, ShiftRight, Block, FieldOfLog, Covers, InRange, JustAbove;
    var r := Roundup(sum);
    RoundupIsPower(sum);
    if InRange(sum) {
      ShiftNone(r);
      LogIsHighest(r, r, 0);
      BlockOfLog(sum, r, LogFrom(r, 0));
    } else {
      NoLog();
      DefaultBlock(sum);
    }
  }

  /** With all caches counted, the block is a power of two, larger than their sum exactly below 512 MB. */
  predicate Exceeds(size: bv32, sum: bv32) {
    PowerOfTwo(size) && (size > sum <==> sum < 0x2000_0000)
  }

  lemma MemoryExceedsAll(flags: bv32, c: Caches)
    requires MemField(flags) == 0 && Has(flags, CACHE_ALL)
    ensures MemField(UpdateMemsize(flags, 0, c)) <= MAX_MEMSIZE
    ensures Exceeds(Memsize(UpdateMemsize(flags, 0, c)), CacheSum(c, true))
  {
    hide MemField, Has, CacheSum, Roundup, LogFrom, UpdateMemsize, HashField, OtherBits, Block, Plus, Exceeds, Min,
      FieldFor;
    UpdateMemsizeFields(flags, 0, c);
    BlockExceedsSum(CacheSum(c, true));
    assert MemField(UpdateMemsize(flags, 0, c)) == Min(DefaultField(c, true), MAX_MEMSIZE);
  }

  /** The field that DefaultField picks for the logarithm of all caches, capped. */
  function FieldOfAll(log: bv32): (field: bv32)
    ensures field <= MAX_MEMSIZE
  {
    Min(FieldFor(if log == 0 then DEFAULT_MEMORY_BITS else log), MAX_MEMSIZE)
  }

  /** How large the block is exactly with all caches counted: the power of two just above the sum, between 1 KB and
      512 MB; 256 KB for sums that are unknown, wrap, or are below 512 bytes. */
  predicate SimpleBlock(size: bv32, sum: bv32) {
    if sum < 0x200 || sum >= 0x8000_0000 then size == 0x4_0000
    else if sum >= 0x2000_0000 then size == 0x2000_0000
    else JustAbove(size, sum)
  }

  lemma MemoryIsSimple(flags: bv32, c: Caches)
    requires MemField(flags) == 0 && Has(flags, CACHE_ALL)
    ensures MemField(UpdateMemsize(flags, 0, c)) <= MAX_MEMSIZE
    ensures SimpleBlock(Memsize(UpdateMemsize(flags, 0, c)), CacheSum(c, true))
  {
    hide MemField, Has, CacheSum, Roundup, LogFrom, UpdateMemsize, HashField, OtherBits, Block, Plus, SimpleBlock, Min,
      FieldFor;
    UpdateMemsizeFields(flags, 0, c);
    BlockIsSimple(CacheSum(c, true));
    assert MemField(UpdateMemsize(flags, 0, c)) == Min(DefaultField(c, true), MAX_MEMSIZE);
  }

  lemma BlockIsSimple(sum: bv32)
    ensures SimpleBlock(Block(FieldOfAll(LogFrom(Roundup(sum), 0))), sum)
  {
    hide Roundup, LogFrom, ShiftRight, Block, FieldOfAll, SimpleBlock, InRange, JustAbove;
    var r := Roundup(sum);
    RoundupIsPower(sum);
    if InRange(sum) {
      ShiftNone(r);
      LogIsHighest(r, r, 0);
      SimpleOfLog(sum, r, LogFrom(r, 0));
    } else {
      NoLog();
      DefaultSimple(sum);
    }
  }

  lemma SimpleOfLog(sum: bv32, r: bv32, log: bv32)
    requires InRange(sum) && JustAbove(r, sum) && log < 32 && ShiftRight(r, log) == 1
    ensures SimpleBlock(Block(FieldOfAll(log)), sum)
  {
  }

  lemma DefaultSimple(sum: bv32)
    requires !InRange(sum)
    ensures SimpleBlock(Block(FieldOfAll(0)), sum)
  {
  }

  lemma BlockExceedsSum(sum: bv32)
    ensures Exceeds(Block(FieldOfAll(LogFrom(Roundup(sum), 0))), sum)
  {
    hide Roundup, LogFrom, ShiftRight, Block, FieldOfAll, Exceeds, InRange, JustAbove;
    var r := Roundup(sum);
    RoundupIsPower(sum);
    if InRange(sum) {
      ShiftNone(r);
      LogIsHighest(r, r, 0);
      BlockOfAll(sum, r, LogFrom(r, 0));
    } else {
      NoLog();
      DefaultExceeds(sum);
    }
  }

  lemma DefaultExceeds(sum: bv32)
    requires !InRange(sum)
    ensures Exceeds(Block(FieldOfAll(0)), sum)
  {
  }

  lemma BlockOfAll(sum: bv32, r: bv32, log: bv32)
    requires InRange(sum) && JustAbove(r, sum) && log < 32 && ShiftRight(r, log) == 1
    ensures Exceeds(Block(FieldOfAll(log)), sum)
  {
  }

  lemma NoLog()
    ensures LogFrom(0, 0) == 0
  {
  }

  lemma ShiftNone(v: bv32)
    ensures ShiftRight(v, 0) == v
  {
  }

  lemma DefaultBlock(sum: bv32)
    requires !InRange(sum)
    ensures Covers(Block(FieldOfLog(0)), sum)
  {
  }

  lemma BlockOfLog(sum: bv32, r: bv32, log: bv32)
    requires InRange(sum) && JustAbove(r, sum) && log < 32 && ShiftRight(r, log) == 1
    ensures Covers(Block(FieldOfLog(log)), sum)
  {
  }

  // ---------------------------------------------------------------- over resets

  function TimerOff(flags: bv32): bv32 {
    flags | DISABLE_INTERNAL_TIMER
  }

  /** The flags a new collector keeps: sizes filled in and capped, and no internal timer in NTG.1 mode. */
  function Allocated(flags: bv32, c: Caches): bv32 {
    var timer := if Has(flags, NTG1) then TimerOff(flags) else flags;
    UpdateHashloop(if Has(timer, DISABLE_MEMORY_ACCESS) then timer else UpdateMemsize(timer, 0, c), 0)
  }

  /** The flags a collector is replaced with: a larger memory unless the caller set one, and a longer hash loop. */
  function Enlarged(flags: bv32, capped: bool, c: Caches): bv32 {
    UpdateHashloop(if capped then flags else UpdateMemsize(flags, 1, c), 1)
  }

  /** The flags after n replacements. */
  function AfterResets(flags: bv32, capped: bool, c: Caches, n: nat): bv32 {
    if n == 0 then flags else Allocated(Enlarged(AfterResets(flags, capped, c, n - 1), capped, c), c)
  }

  predicate NoLess(x: bv32, y: bv32) {
    x >= y
  }

  /** What one replacement changes: memory and hash loop double up to their limits, a memory size the caller set
      stays, and so do all other flags. */
  ghost predicate Grown(flags: bv32, capped: bool, next: bv32) {
    && MemField(flags) <= MAX_MEMSIZE && MemField(next) <= MAX_MEMSIZE
    && Memsize(next) == (if capped || MemField(flags) == 0 || MemField(flags) == MAX_MEMSIZE then Memsize(flags)
                         else Memsize(flags) << 1)
    && HashloopCount(next) == (if HashField(flags) == MAX_HASHLOOP then HashloopCount(flags)
                               else HashloopCount(flags) << 1)
    && OtherBits(next) == OtherBits(flags)
  }

  /** Flags as a collector keeps them: sizes filled in, and the timer off in NTG.1 mode. */
  predicate Settled(flags: bv32, c: Caches) {
    && MemField(flags) <= MAX_MEMSIZE
    && (Has(flags, NTG1) ==> Has(flags, DISABLE_INTERNAL_TIMER))
    && !Has(flags, DISABLE_MEMORY_ACCESS)
    && (MemField(flags) == 0 ==> Min(DefaultField(c, Has(flags, CACHE_ALL)), MAX_MEMSIZE) == 0)
  }

  lemma SameFlag(f: bv32, g: bv32)
    requires OtherBits(f) == OtherBits(g)
    ensures Has(f, NTG1) == Has(g, NTG1) && Has(f, DISABLE_INTERNAL_TIMER) == Has(g, DISABLE_INTERNAL_TIMER)
    ensures Has(f, DISABLE_MEMORY_ACCESS) == Has(g, DISABLE_MEMORY_ACCESS) && Has(f, CACHE_ALL) == Has(g, CACHE_ALL)
    ensures Has(f, FORCE_FIPS) == Has(g, FORCE_FIPS) && Has(f, FORCE_INTERNAL_TIMER) == Has(g, FORCE_INTERNAL_TIMER)
  {
  }

  lemma TimerOffOnly(flags: bv32)
    ensures var r := TimerOff(flags);
            && Has(r, DISABLE_INTERNAL_TIMER) && Has(r, NTG1) == Has(flags, NTG1)
            && Has(r, DISABLE_MEMORY_ACCESS) == Has(flags, DISABLE_MEMORY_ACCESS)
            && Has(r, CACHE_ALL) == Has(flags, CACHE_ALL) && Has(r, FORCE_FIPS) == Has(flags, FORCE_FIPS)
  {
  }

  lemma TimerOffFields(flags: bv32)
    ensures var r := TimerOff(flags); MemField(r) == MemField(flags) && HashField(r) == HashField(flags)
    ensures Has(flags, DISABLE_INTERNAL_TIMER) ==> TimerOff(flags) == flags
  {
  }

  /** What allocating does to the flags: the timer flag in NTG.1 mode, a size for the memory unless it is off, and
      nothing else; a size the caller set is cut to 512 MB. */
  lemma AllocatedFields(flags: bv32, c: Caches)
    ensures var r := Allocated(flags, c);
            && OtherBits(r) == OtherBits(if flags & 0x40 != 0 then flags | 0x10 else flags)
            && HashField(r) == HashField(flags)
            && MemField(r) == (if flags & 0x4 != 0 then MemField(flags)
                               else if MemField(flags) == 0 then Min(DefaultField(c, flags & 0x80 != 0), 20)
                               else Min(MemField(flags), 20))
  {
    hide UpdateMemsize, UpdateHashloop, MemField, HashField, OtherBits, DefaultField, Min, Plus, TimerOff, Has;
    var timer := if Has(flags, NTG1) then TimerOff(flags) else flags;
    FlagBits(flags);
    TimerOffOnly(flags);
    TimerOffFields(flags);
    UpdateMemsizeFields(timer, 0, c);
    var sized := if Has(timer, DISABLE_MEMORY_ACCESS) then timer else UpdateMemsize(timer, 0, c);
    UpdateHashloopFields(sized, 0);
    PlusNothing(MemField(timer));
    PlusNothing(HashField(sized));
    PlusNothing(sized);
    PlusNothing(flags);
  }

  lemma FlagBits(flags: bv32)
    ensures Has(flags, NTG1) == (flags & 0x40 != 0)
    ensures Has(flags, DISABLE_MEMORY_ACCESS) == (flags & 0x4 != 0)
    ensures Has(flags, CACHE_ALL) == (flags & 0x80 != 0)
    ensures TimerOff(flags) == flags | 0x10
  {
  }

  /** The masks of the remaining flags. */
  lemma OtherFlagBits(flags: bv32)
    ensures Has(flags, FORCE_FIPS) == (flags & 0x20 != 0)
    ensures Has(flags, FORCE_INTERNAL_TIMER) == (flags & 0x8 != 0)
    ensures Has(flags, DISABLE_INTERNAL_TIMER) == (flags & 0x10 != 0)
  {
  }

  /** Where the size fields are, and what they stand for. */
  lemma SizeFields(flags: bv32)
    ensures MemField(flags) == flags >> 27 && HashField(flags) == (flags >> 24) & 7
    ensures HashloopCount(flags) == 1 << HashField(flags)
    ensures MemField(flags) == 0 ==> Memsize(flags) == 0x4_0000
    ensures 0 < MemField(flags) <= MAX_MEMSIZE ==> Memsize(flags) == 0x200 << MemField(flags)
  {
  }

  /** The flags of a new collector are settled. */
  lemma AllocatedSettled(flags: bv32, c: Caches)
    requires !Has(flags, DISABLE_MEMORY_ACCESS)
    ensures Settled(Allocated(flags, c), c)
  {
    hide UpdateMemsize, UpdateHashloop, MemField, HashField, OtherBits, Has, DefaultField, Min, Plus, TimerOff;
    var timer := if Has(flags, NTG1) then TimerOff(flags) else flags;
    TimerOffOnly(flags);
    TimerOffFields(flags);
    UpdateMemsizeFields(timer, 0, c);
    var sized := UpdateMemsize(timer, 0, c);
    UpdateHashloopFields(sized, 0);
    SameFlag(timer, sized);
    SameFlag(sized, UpdateHashloop(sized, 0));
    PlusNothing(MemField(timer));
  }

  lemma PlusNothing(x: bv32)
    ensures Plus(x, 0) == x
    ensures x != 0 ==> Min(x, MAX_MEMSIZE) != 0
    ensures x <= MAX_MEMSIZE ==> Min(x, MAX_MEMSIZE) == x
    ensures x <= MAX_HASHLOOP ==> Min(x, MAX_HASHLOOP) == x
    ensures HashField(x) <= MAX_HASHLOOP
  {
  }

  /** Settled flags are kept as they are. */
  lemma SettledStays(flags: bv32, c: Caches)
    requires Settled(flags, c)
    ensures var r := Allocated(flags, c);
            MemField(r) == MemField(flags) && HashField(r) == HashField(flags) && OtherBits(r) == OtherBits(flags)
  {
    hide UpdateMemsize, UpdateHashloop, MemField, HashField, OtherBits, Has, DefaultField, Min, Plus, TimerOff;
    TimerOffOnly(flags);
    TimerOffFields(flags);
    UpdateMemsizeFields(flags, 0, c);
    var sized := UpdateMemsize(flags, 0, c);
    UpdateHashloopFields(sized, 0);
    PlusNothing(MemField(flags));
    PlusNothing(HashField(flags));
    PlusNothing(flags);
  }

  /** A replacement of settled flags: what grows, what stays, and the result is settled again. */
  lemma ReplacementGrows(flags: bv32, capped: bool, c: Caches)
    requires Settled(flags, c)
    ensures var next := Allocated(Enlarged(flags, capped, c), c); Grown(flags, capped, next) && Settled(next, c)
  {
    hide UpdateMemsize, UpdateHashloop, MemField, HashField, OtherBits, Has, DefaultField, Min, Plus, TimerOff, Block,
      Power, Settled, Allocated, Grown;
    var mem := if capped then flags else UpdateMemsize(flags, 1, c);
    var asked := UpdateHashloop(mem, 1);
    UpdateMemsizeFields(flags, 1, c);
    UpdateHashloopFields(mem, 1);
    SameFlag(flags, asked);
    EnlargedSettled(flags, capped, asked, c);
    SettledStays(asked, c);
    var next := Allocated(asked, c);
    SameFlag(asked, next);
    StaysSettled(asked, next, c);
    FieldsGrow(flags, capped, next, c);
  }

  lemma EnlargedSettled(flags: bv32, capped: bool, asked: bv32, c: Caches)
    requires Settled(flags, c)
    requires MemField(asked) == if capped then MemField(flags)
                                else Min(if MemField(flags) == 0 then DefaultField(c, Has(flags, CACHE_ALL))
                                         else Plus(MemField(flags), 1), MAX_MEMSIZE)
    requires Has(asked, NTG1) == Has(flags, NTG1) && Has(asked, DISABLE_INTERNAL_TIMER) == Has(flags, DISABLE_INTERNAL_TIMER)
    requires Has(asked, DISABLE_MEMORY_ACCESS) == Has(flags, DISABLE_MEMORY_ACCESS)
    requires Has(asked, CACHE_ALL) == Has(flags, CACHE_ALL)
    ensures Settled(asked, c)
  {
    hide MemField, Has, DefaultField, Min, Plus;
    Capped(Plus(MemField(flags), 1));
    PlusOne(MemField(flags));
  }

  lemma PlusOne(x: bv32)
    requires x <= MAX_MEMSIZE
    ensures Min(Plus(x, 1), MAX_MEMSIZE) == (if x == MAX_MEMSIZE then x else Plus(x, 1)) && Plus(x, 1) != 0
    ensures Min(Plus(x, 1), MAX_MEMSIZE) != 0
  {
  }

  lemma StaysSettled(asked: bv32, next: bv32, c: Caches)
    requires Settled(asked, c) && MemField(next) == MemField(asked)
    requires Has(asked, NTG1) == Has(next, NTG1) && Has(asked, DISABLE_INTERNAL_TIMER) == Has(next, DISABLE_INTERNAL_TIMER)
    requires Has(asked, DISABLE_MEMORY_ACCESS) == Has(next, DISABLE_MEMORY_ACCESS)
    requires Has(asked, CACHE_ALL) == Has(next, CACHE_ALL)
    ensures Settled(next, c)
  {
    hide MemField, Has, DefaultField, Min;
  }

  lemma FieldsGrow(flags: bv32, capped: bool, next: bv32, c: Caches)
    requires Settled(flags, c)
    requires MemField(next) == if capped then MemField(flags)
                               else Min(if MemField(flags) == 0 then DefaultField(c, Has(flags, CACHE_ALL))
                                        else Plus(MemField(flags), 1), MAX_MEMSIZE)
    requires HashField(next) == Min(Plus(HashField(flags), 1), MAX_HASHLOOP)
    requires OtherBits(next) == OtherBits(flags)
    ensures Grown(flags, capped, next)
  {
    hide MemField, HashField, Has, DefaultField, Min, Plus, OtherBits, Block, Power;
    Capped(Plus(MemField(flags), 1));
    PlusOne(MemField(flags));
    PlusNothing(flags);
    HashDoubles(HashField(flags));
    if MemField(flags) != 0 && MemField(flags) != MAX_MEMSIZE {
      BlockDoubles(MemField(flags));
    }
  }

  lemma BlockDoubles(field: bv32)
    requires 0 < field < MAX_MEMSIZE
    ensures Plus(field, 1) <= MAX_MEMSIZE && Block(Plus(field, 1)) == Block(field) << 1
  {
  }

  lemma HashDoubles(field: bv32)
    requires field <= MAX_HASHLOOP
    ensures field == MAX_HASHLOOP ==> Min(Plus(field, 1), MAX_HASHLOOP) == field
    ensures field < MAX_HASHLOOP ==>
              Min(Plus(field, 1), MAX_HASHLOOP) <= 32
              && Power(Min(Plus(field, 1), MAX_HASHLOOP)) == Power(field) << 1
  {
  }

  /** Over any number of replacements neither the memory nor the hash loop shrinks, a memory size the caller set
      stays, and so do all other flags. */
  lemma {:induction false} ResetsGrow(flags: bv32, capped: bool, c: Caches, n: nat)
    requires Settled(flags, c)
    ensures var r := AfterResets(flags, capped, c, n);
            && Settled(r, c) && OtherBits(r) == OtherBits(flags)
            && NoLess(Memsize(r), Memsize(flags)) && NoLess(HashloopCount(r), HashloopCount(flags))
            && (capped ==> Memsize(r) == Memsize(flags))
  {
    hide Has, DefaultField, Min, Allocated, Enlarged, MemField, HashField, OtherBits, Block, HashloopCount, NoLess,
      Settled, Memsize;
    SettledCapped(flags, c);
    if n == 0 {
      NoLessItself(Memsize(flags));
      NoLessItself(HashloopCount(flags));
    } else {
      var before := AfterResets(flags, capped, c, n - 1);
      var r := AfterResets(flags, capped, c, n);
      ResetsGrow(flags, capped, c, n - 1);
      ReplacementGrows(before, capped, c);
      SettledCapped(before, c);
      SettledCapped(r, c);
      GrownNoLess(before, capped, r);
      NoLessOrder(Memsize(r), Memsize(before), Memsize(flags));
      NoLessOrder(HashloopCount(r), HashloopCount(before), HashloopCount(flags));
    }
  }

  lemma SettledCapped(flags: bv32, c: Caches)
    ensures Settled(flags, c) ==> MemField(flags) <= MAX_MEMSIZE
  {
    hide Has, DefaultField, Min, MemField;
  }

  lemma NoLessItself(x: bv32)
    ensures NoLess(x, x)
  {
  }

  lemma NoLessOrder(x: bv32, y: bv32, z: bv32)
    requires NoLess(x, y) && NoLess(y, z)
    ensures NoLess(x, z)
  {
  }

  lemma GrownNoLess(flags: bv32, capped: bool, next: bv32)
    requires Grown(flags, capped, next)
    ensures NoLess(Memsize(next), Memsize(flags)) && NoLess(HashloopCount(next), HashloopCount(flags))
    ensures OtherBits(next) == OtherBits(flags) && (capped ==> Memsize(next) == Memsize(flags))
  {
    hide MemField, HashField, OtherBits, Block, Power, NoLess;
    BlockMore(MemField(flags));
    PlusNothing(flags);
    CountMore(HashField(flags));
  }

  lemma BlockMore(field: bv32)
    requires field <= MAX_MEMSIZE
    ensures NoLess(Block(field), Block(field)) && NoLess(Block(field) << 1, Block(field))
  {
  }

  lemma CountMore(field: bv32)
    requires field <= MAX_HASHLOOP
    ensures NoLess(Power(field), Power(field)) && NoLess(Power(field) << 1, Power(field))
  {
  }

  /** What any number of replacements may do to settled flags. */
  ghost predicate NoSmaller(flags: bv32, capped: bool, next: bv32) {
    && MemField(flags) <= MAX_MEMSIZE && MemField(next) <= MAX_MEMSIZE
    && NoLess(Memsize(next), Memsize(flags)) && NoLess(HashloopCount(next), HashloopCount(flags))
    && (capped ==> Memsize(next) == Memsize(flags))
    && OtherBits(next) == OtherBits(flags)
  }

  /** Memory and hash loop at least double, unless they are at their limits or the caller set the memory. */
  ghost predicate Doubled(flags: bv32, capped: bool, next: bv32) {
    && MemField(flags) <= MAX_MEMSIZE && MemField(next) <= MAX_MEMSIZE
    && (!capped && MemField(flags) != 0 && MemField(flags) != MAX_MEMSIZE ==> NoLess(Memsize(next), Memsize(flags) << 1))
    && (HashField(flags) != MAX_HASHLOOP ==> NoLess(HashloopCount(next), HashloopCount(flags) << 1))
  }

  /** So they do over a replacement, whatever comes after it. */
  lemma DoublesAtLeast(flags: bv32, capped: bool, c: Caches, midCapped: bool, next: bv32)
    requires Settled(flags, c) && NoSmaller(Allocated(Enlarged(flags, capped, c), c), midCapped, next)
    ensures Doubled(flags, capped, next)
  {
    hide Allocated, Enlarged, Settled, MemField, HashField, Block, HashloopCount, OtherBits;
    ReplacementGrows(flags, capped, c);
  }

  lemma NoSmallerItself(flags: bv32, c: Caches)
    requires Settled(flags, c)
    ensures NoSmaller(flags, true, flags) && NoSmaller(flags, false, flags)
  {
    hide MemField, Block, HashloopCount, OtherBits, Settled, NoLess;
    SettledCapped(flags, c);
    NoLessItself(Memsize(flags));
    NoLessItself(HashloopCount(flags));
  }

  lemma NoSmallerThenGrown(flags: bv32, capped: bool, mid: bv32, midCapped: bool, next: bv32)
    requires NoSmaller(flags, capped, mid) && NoSmaller(mid, midCapped, next) && (capped ==> midCapped)
    ensures NoSmaller(flags, capped, next)
  {
    hide MemField, Block, HashloopCount, OtherBits, NoLess;
    NoLessOrder(Memsize(next), Memsize(mid), Memsize(flags));
    NoLessOrder(HashloopCount(next), HashloopCount(mid), HashloopCount(flags));
  }

  /** One replacement, for the collector's bookkeeping. */
  lemma Replacement(flags: bv32, capped: bool, c: Caches)
    requires Settled(flags, c)
    ensures var next := Allocated(Enlarged(flags, capped, c), c);
            NoSmaller(flags, capped, next) && Settled(next, c)
  {
    hide Allocated, Enlarged, Settled, MemField, Block, HashloopCount, OtherBits, NoLess;
    ReplacementGrows(flags, capped, c);
    GrownNoLess(flags, capped, Allocated(Enlarged(flags, capped, c), c));
  }

  /** A memory size the caller set is a field that is not zero, and stays one. */
  lemma FieldStaysSet(flags: bv32, capped: bool, c: Caches)
    ensures MemField(flags) != 0 ==> MemField(Enlarged(flags, capped, c)) != 0
    ensures MemField(flags) != 0 ==> MemField(Allocated(flags, c)) != 0
  {
    hide UpdateMemsize, UpdateHashloop, MemField, HashField, OtherBits, Has, DefaultField, Min, Plus, TimerOff;
    var timer := if Has(flags, NTG1) then TimerOff(flags) else flags;
    TimerOffFields(flags);
    FieldKept(flags, 1, c);
    FieldKept(timer, 0, c);
    UpdateHashloopFields(if capped then flags else UpdateMemsize(flags, 1, c), 1);
    UpdateHashloopFields(if Has(timer, DISABLE_MEMORY_ACCESS) then timer else UpdateMemsize(timer, 0, c), 0);
  }

  lemma FieldKept(flags: bv32, inc: bv32, c: Caches)
    requires inc <= 1
    ensures MemField(flags) != 0 ==> MemField(UpdateMemsize(flags, inc, c)) != 0
  {
    hide UpdateMemsize, HashField, OtherBits, Has, DefaultField;
    UpdateMemsizeFields(flags, inc, c);
  }
}
