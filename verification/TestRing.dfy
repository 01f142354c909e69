/** The ring buffer of linux_kernel/jitterentropy_testing.c: time deltas stored under a lock by the measuring
    contexts and read by one reader that looks at the writer's counter before it takes the lock. */
module TestRing {
  import opened Basics

  const SIZE: nat := 1024

  /** counter & JENT_TEST_RINGBUFFER_MASK */
  function Slot(i: nat): (k: nat)
    ensures k < SIZE
  {
    i % SIZE
  }

  /** A counter after i increments. */
  function Counter(i: nat): (c: nat)
    ensures c < UINT32
  {
    i % UINT32
  }

  /** The slots of the counters are those of the unbounded positions. */
  lemma CounterSlot(i: nat)
    ensures Slot(Counter(i)) == Slot(i) && Counter(Counter(i) + 1) == Counter(i + 1)
  {
    var k := i / UINT32;
    assert i == Counter(i) + k * 0x40_0000 * SIZE;
    CounterNext(i);
    SlotPeriod(Counter(i), k * 0x40_0000);
  }

  lemma CounterNext(i: nat)
    ensures Counter(Counter(i) + 1) == Counter(i + 1)
  {
  }

  lemma {:induction false} SlotPeriod(i: nat, k: nat)
    ensures Slot(i + k * SIZE) == Slot(i)
  {
    if k > 0 {
      SlotPeriod(i, k - 1);
      assert i + k * SIZE == (i + (k - 1) * SIZE) + SIZE;
    }
  }

  /** Two positions of one ring's length share a slot only if they are the same. */
  lemma SlotsApart(i: nat, j: nat)
    requires i <= j <= i + SIZE
    ensures Slot(i) == Slot(j) <==> i == j || j == i + SIZE
  {
  }

  class Testing {
    const ring: array<Word>
    var reader: nat
    var writer: nat
    var enabled: bool

    /** 0: no boot test; 1: the boot test collects; 2: it is complete. */
    var boot: nat

    /** All samples since the last reset, and how many of them are read or given up. */
    ghost var stored: seq<Word>
    ghost var position: nat

    ghost predicate Valid()
      reads this`reader, this`writer, this`stored, this`position, ring
    {
      && ring.Length == SIZE
      && writer == Counter(|stored|) && reader == Counter(position)
      && position <= |stored| < position + SIZE
      && forall i | position <= i < |stored| :: ring[Slot(i)] == stored[i]
    }

    constructor (boot: nat)
      ensures Valid() && fresh(ring) && stored == [] && position == 0 && this.boot == boot && !enabled
    {
      ring := new Word[SIZE](_ => 0);
      reader, writer, enabled, this.boot := 0, 0, false, boot;
      stored, position := [], 0;
    }

    /** jent_testing_reset */
    method Reset()
      requires ring.Length == SIZE
      modifies this`reader, this`writer, this`stored, this`position
      ensures Valid() && stored == [] && position == 0
    {
      reader, writer := 0, 0;
      stored, position := [], 0;
    }

    /** jent_testing_data_init */
    method DataInit()
      requires Valid()
      modifies this`reader, this`writer, this`stored, this`position, this`enabled
      ensures Valid()
      ensures if boot != 0 then stored == old(stored) && position == old(position) && enabled == old(enabled)
              else stored == [] && position == 0 && enabled
    {
      if boot == 0 {
        Reset();
        enabled := true;
      }
    }

    /** jent_testing_fini: boot data stays until it is read. */
    method Fini()
      requires Valid()
      modifies this`reader, this`writer, this`stored, this`position, this`enabled
      ensures Valid()
      ensures if boot != 0 then stored == old(stored) && position == old(position) && enabled == old(enabled)
              else stored == [] && position == 0 && !enabled
    {
      if boot == 0 {
        enabled := false;
        Reset();
      }
    }

    /** jent_testing_store: a sample more, and the oldest one given up once there are as many as the ring has
        slots. */
    method Store(value: Word) returns (ok: bool)
      requires Valid()
      modifies this`reader, this`writer, this`boot, this`stored, this`position, ring
      ensures Valid() && ok == old((enabled || boot == 1) && (boot != 0 ==> writer < 1024))
      ensures boot == if old((enabled || boot == 1) && boot != 0 && writer >= 1024) then 2 else old(boot)
      ensures !ok ==> stored == old(stored) && position == old(position)
      ensures ok ==> stored == old(stored) + [value] && position < |stored|
      ensures ok ==> position == if old(|stored|) + 1 == old(position) + SIZE then old(position) + 1 else old(position)
    {
      hide Slot, Counter;
      if !enabled && boot != 1 {
        return false;
      }
      if boot != 0 {
        if writer >= SIZE {
          boot := 2;
          return false;
        }
      }
      ghost var n := |stored|;
      CounterSlot(n);
      CounterSlot(n + 1);
      CounterSlot(position);
      SlotsApart(position, n + 1);
      forall i | position <= i < n ensures Slot(i) != Slot(n) {
        SlotsApart(i, n);
      }
      ring[Slot(writer)] := value;
      stored := stored + [value];
      writer := Counter(writer + 1);
      if Slot(writer) == Slot(reader) {
        reader := Counter(reader + 1);
        position := position + 1;
      }
      ok := true;
    }

    /** jent_testing_have_data: comparing the masked counters tells exactly whether there are samples to read. */
    method HaveData() returns (b: bool)
      requires Valid()
      ensures b <==> position < |stored|
    {
      hide Slot, Counter;
      CounterSlot(|stored|);
      CounterSlot(position);
      SlotsApart(position, |stored|);
      b := Slot(writer) != Slot(reader);
    }

    /** What the reader does under the lock, given what it saw of the writer before and whether there is room for a
        word.  Between the two there may have been stores, but no reads. */
    method Take(snapshot: nat, room: bool, ghost seen: nat) returns (r: Look)
      requires Valid() && snapshot == Counter(seen) && seen <= |stored| && (seen < |stored| ==> position < |stored|)
      modifies this`reader, this`position
      ensures Valid()
      ensures r == Nothing <==> Counter(seen) == 0 || Counter(seen) == Counter(old(position))
      ensures r == NoRoom ==> !room
      ensures !r.Sample? ==> position == old(position)
      ensures r.Sample? ==>
                room && position == old(position) + 1 && position <= |stored| && r.value == stored[old(position)]
    {
      hide Slot;
      if snapshot == 0 || snapshot == reader {
        return Nothing;
      }
      if !room {
        return NoRoom;
      }
      CounterSlot(position);
      r := Sample(ring[Slot(reader)]);
      reader := Counter(reader + 1);
      position := position + 1;
    }

    /** The boot test takes the first samples up to the size of the ring and no more.  The sample that fills the
        ring still pushes the reader, so the first one can be read exactly when fewer have come. */
    method BootTest(values: seq<Word>)
      requires Valid() && boot == 1 && stored == []
      modifies this`reader, this`writer, this`boot, this`stored, this`position, ring
      ensures Valid() && stored == if |values| <= SIZE then values else values[..SIZE]
      ensures boot == 2 <==> |values| > SIZE
      ensures position == 0 <==> |values| < SIZE
      ensures position <= 1
    {
      hide Valid;
      Counters();
      for k := 0 to |values|
        invariant Valid() && |stored| == (if k <= SIZE then k else SIZE) && stored == values[..|stored|]
        invariant boot == if k > SIZE then 2 else 1
        invariant position == if k < SIZE then 0 else 1
      {
        Counters();
        SmallCounter(|stored|);
        var ok := Store(values[k]);
        assert values[..k + 1] == values[..k] + [values[k]];
      }
    }

    /** Stores by other contexts while the reader does not hold the lock. */
    method StoreAll(values: seq<Word>)
      requires Valid()
      modifies this`reader, this`writer, this`boot, this`stored, this`position, ring
      ensures Valid() && old(stored) <= stored
      ensures GivenUp(old(position), position, |stored|)
      ensures |stored| > old(|stored|) ==> position < |stored|
      ensures boot == old(boot) || (boot == 2 && old(boot) != 0)
    {
      for k := 0 to |values|
        invariant Valid() && old(stored) <= stored
        invariant GivenUp(old(position), position, |stored|)
        invariant |stored| > old(|stored|) ==> position < |stored|
        invariant boot == old(boot) || (boot == 2 && old(boot) != 0)
      {
        var ok := Store(values[k]);
      }
    }

    /** The wait for data: it ends when there is some, or when no more stores come. */
    method Wait(others: seq<seq<Word>>, k: nat) returns (next: nat, found: bool)
      requires Valid() && k <= |others|
      modifies this`reader, this`writer, this`boot, this`stored, this`position, ring
      ensures Valid() && old(stored) <= stored && k <= next <= |others|
      ensures GivenUp(old(position), position, |stored|)
      ensures found <==> position < |stored|
      ensures !found ==> next == |others|
      ensures old(position < |stored|) ==> next == k
      ensures next == k ==> stored == old(stored) && position == old(position)
      ensures old(boot) == 0 ==> boot == 0
    {
      next := k;
      found := HaveData();
      while !found && next < |others|
        invariant Valid() && old(stored) <= stored && k <= next <= |others|
        invariant GivenUp(old(position), position, |stored|)
        invariant found <==> position < |stored|
        invariant old(position < |stored|) ==> found && next == k
        invariant next == k ==> stored == old(stored) && position == old(position)
        invariant old(boot) == 0 ==> boot == 0
        decreases |others| - next
      {
        StoreAll(others[next]);
        next := next + 1;
        found := HaveData();
      }
    }

    /** jent_testing_reader with stores by other contexts going on: others[k] are those that come k-th, each time
        the reader does not hold the lock.  `from` are the positions the words were read from. */
    method Read(outbuflen: nat, others: seq<seq<Word>>) returns (out: seq<Word>, end: ReadEnd, ghost from: seq<nat>)
      requires Valid()
      modifies this`reader, this`writer, this`boot, this`stored, this`position, ring
      ensures Valid() && old(stored) <= stored && 8 * |out| <= outbuflen
      ensures Copied(stored, old(position), position, out, from)
      ensures end == Full ==> outbuflen - 8 * |out| < 8
      ensures end == BootDone ==> old(boot) != 0 && boot == 0 && (|stored| < UINT32 ==> position >= |old(stored)|)
      ensures end == Signalled ==> old(boot) == boot == 0 && (|stored| < UINT32 ==> position >= |old(stored)|)
      ensures end == Blocked ==>
                old(boot) == boot == 0 && (position == |stored| || (|stored| > 0 && Counter(|stored|) == 0))
    {
      hide Copied, Counter, Valid, GivenUp;
      out, end, from := [], Full, [];
      var left := outbuflen;
      var k := 0;
      Counters();
      CopiedNothing(stored, position);
      while left > 0
        invariant Valid() && old(stored) <= stored
        invariant 0 <= left == outbuflen - 8 * |out| && 0 <= k <= |others|
        invariant Copied(stored, old(position), position, out, from)
        invariant boot == old(boot) || (boot == 2 && old(boot) != 0)
        decreases left, |others| - k
      {
        ghost var seen := |stored|;
        Counters();
        var snapshot := writer;
        var moved := k < |others|;
        if moved {
          ghost var before, was := stored, position;
          StoreAll(others[k]);
          k := k + 1;
          Counters();
          CopiedStores(before, stored, old(position), was, position, out, from);
        }
        ghost var was := position;
        var r := Take(snapshot, left >= 8, seen);
        match r {
          case Nothing =>
            SmallCounters(seen, position, |stored|);
            if boot != 0 {
              boot := 0;
              end := BootDone;
              return;
            }
            ghost var before := stored;
            var next, found := Wait(others, k);
            CopiedStores(before, stored, old(position), was, position, out, from);
            var signal: bool := *;
            if signal {
              end := Signalled;
              return;
            }
            if !found || (!moved && next == k) {
              end := Blocked;
              CountersApart(position, |stored|);
              return;
            }
            k := next;
          case NoRoom =>
            return;
          case Sample(value) =>
            CopiedOne(stored, old(position), was, out, from);
            out := out + [value];
            from := from + [was];
            left := left - 8;
        }
      }
    }

    lemma Counters()
      requires Valid()
      ensures position <= |stored| < position + SIZE && writer == Counter(|stored|) && reader == Counter(position)
    {
    }
  }

  lemma CountersApart(i: nat, j: nat)
    requires i <= j < i + SIZE
    ensures Counter(i) == Counter(j) ==> i == j
  {
  }

  lemma SmallCounter(i: nat)
    requires i < UINT32
    ensures Counter(i) == i
  {
  }

  lemma SmallCounters(i: nat, j: nat, n: nat)
    requires i <= n && j <= n && (Counter(i) == 0 || Counter(i) == Counter(j))
    ensures n < UINT32 ==> i == 0 || i == j
  {
    if n < UINT32 {
      SmallCounter(i);
      SmallCounter(j);
    }
  }

  datatype Look = Nothing | NoRoom | Sample(value: Word)

  /** How a read ends: the buffer has no more room, the boot data is read, a signal came, or it still waits. */
  datatype ReadEnd = Full | BootDone | Signalled | Blocked

  /** The samples between two positions are given up: a ring's length of samples has been stored from each one on. */
  predicate GivenUp(start: nat, end: nat, stored: nat) {
    start <= end && (start < end ==> end - 1 + SIZE <= stored)
  }

  /** The words are samples in the order they were stored, and those that are missing between them were given up. */
  ghost predicate Copied(stored: seq<Word>, start: nat, end: nat, out: seq<Word>, from: seq<nat>) {
    && |from| == |out| && start <= end <= |stored|
    && (forall i | 0 <= i < |out| :: start <= from[i] < end && out[i] == stored[from[i]])
    && (forall i, j | 0 <= i < j < |out| :: from[i] < from[j])
    && (forall i: nat | start <= i < end && i !in from :: i + SIZE <= |stored|)
  }

  lemma CopiedNothing(stored: seq<Word>, start: nat)
    requires start <= |stored|
    ensures Copied(stored, start, start, [], [])
  {
  }

  lemma CopiedStores(stored: seq<Word>, later: seq<Word>, start: nat, end: nat, end1: nat, out: seq<Word>, from: seq<nat>)
    requires Copied(stored, start, end, out, from) && stored <= later && GivenUp(end, end1, |later|) && end1 <= |later|
    ensures Copied(later, start, end1, out, from)
  {
  }

  lemma CopiedOne(stored: seq<Word>, start: nat, end: nat, out: seq<Word>, from: seq<nat>)
    requires Copied(stored, start, end, out, from) && end < |stored|
    ensures Copied(stored, start, end + 1, out + [stored[end]], from + [end])
  {
    var more := from + [end];
    forall i: nat | start <= i < end + 1 && i !in more ensures i + SIZE <= |stored| {
      assert i !in from && i != end by {
        assert end == more[|from|];
      }
    }
  }
}
