/**
 * The earlier arena subsystem (src/arena.c) over the first-fit heap: every
 * policy bump-allocates, and only a transient arena can be reset.
 */
module BumpArena {
  import opened Options
  import opened HeapLayout
  import opened ArenaBase
  import opened Words
  import FirstFitHeap

  /** `r_reset` on the cursor: a transient arena is rewound to `base`; any other arena is left as it was. */
  function ResetCursor(policy: Lifetime, base: nat, c: Cursor): (r: Cursor)
    ensures r.size <= c.size
    ensures policy == Transient ==> CursorValid(base, 0, r)
    ensures policy != Transient ==> r == c
  {
    if policy == Transient then Cursor(base, 0) else c
  }

  /**
   * A reset keeps the cursor invariant. On a transient arena the next request
   * that fits in the whole region is served from `base`; on any other arena
   * the cursor, and so every later allocation, is as if no reset had happened.
   */
  lemma ResetEffect(policy: Lifetime, base: nat, capacity: nat, c: Cursor, n: U64)
    requires CursorValid(base, capacity, c)
    ensures CursorValid(base, capacity, ResetCursor(policy, base, c))
    ensures policy == Transient && AlignUp8(n) <= capacity ==>
              BumpAlloc(base, capacity, ResetCursor(policy, base, c), n).ptr == Some(base)
    ensures policy != Transient ==> BumpAlloc(base, capacity, ResetCursor(policy, base, c), n) == BumpAlloc(base, capacity, c, n)
  {
  }

  /** The block list after `r_destroy`: the region's block is freed, then the record's. */
  ghost function DestroyedBlocks(bs: seq<Chunk>, hdr: nat, base: nat, record: nat): (r: seq<Chunk>)
    requires hdr > 0 && base in Live(bs, hdr) && record in Live(bs, hdr) && base != record
    ensures Footprint(r, hdr) == Footprint(bs, hdr)
    ensures Live(r, hdr) == Live(bs, hdr) - {base, record}
  {
    LiveIsPayload(bs, hdr, base);
    var bs1 := FirstFitHeap.FreeBlocks(bs, hdr, Some(base));
    FirstFitHeap.FreeEffect(bs, hdr, base);
    LiveIsPayload(bs1, hdr, record);
    FirstFitHeap.FreeEffect(bs1, hdr, record);
    FirstFitHeap.FreeBlocks(bs1, hdr, Some(record))
  }

  class Arena {
    /** The address of the record itself, from the first `r_alloc` of `create_arena`. */
    const record: nat
    /** `base`: the start of the region. */
    const base: nat
    /** `capacity` */
    const capacity: U64
    /** `policy` */
    const policy: Lifetime
    /** `current`: the bump pointer. */
    var current: nat
    /** `size`: the bytes bumped past so far. */
    var size: nat

    /** The bump fields as a value. */
    function Cur(): Cursor
      reads this
    {
      Cursor(current, size)
    }

    /** The arena invariant: `base <= current <= base + capacity` and `size == current - base`. */
    ghost predicate Valid()
      reads this
    {
      CursorValid(base, capacity, Cur())
    }

    /** The field assignments of `create_arena`. */
    constructor Init(record: nat, base: nat, capacity: U64, policy: Lifetime)
      ensures this.record == record && this.base == base && this.capacity == capacity && this.policy == policy
      ensures current == base && size == 0
      ensures Valid()
    {
      this.record := record;
      this.base := base;
      this.capacity := capacity;
      this.policy := policy;
      current := base;
      size := 0;
    }

    /** `r_arena(arena, size)`: both policy branches bump in the same way; the overflow message is not modelled. */
    method Alloc(n: U64) returns (p: Option<nat>)
      requires Valid()
      modifies this
      ensures Valid()
      ensures Bumped(p, Cur()) == BumpAlloc(base, capacity, old(Cur()), n)
    {
      BumpAllocEffect(base, capacity, Cur(), n);
      var rounded := AlignUp8(n);
      if policy == Transient {
        if current + rounded <= base + capacity {
          p := Some(current);
          current := current + rounded;
          size := size + rounded;
          return;
        }
      } else {
        if current + rounded <= base + capacity {
          p := Some(current);
          current := current + rounded;
          size := size + rounded;
          return;
        }
      }
      p := None;
    }
  }

  /** `r_reset(arena)`: NULL and non-transient arenas are left alone (the warning is not modelled). */
  method Reset(a: Arena?)
    requires a != null ==> a.Valid()
    modifies if a != null then {a} else {}
    ensures a != null ==> a.Valid() && a.Cur() == ResetCursor(a.policy, a.base, old(a.Cur()))
  {
    if a != null {
      ResetEffect(a.policy, a.base, a.capacity, a.Cur(), 0);
    }
    if a != null && a.policy == Transient {
      a.current := a.base;
      a.size := 0;
    }
  }

  /**
   * `create_arena(size, policy)`: allocate the record, then the region, and set
   * up the fields. Neither allocation is checked, so both must succeed; the
   * `size_t` capacity reaches the `uint32_t` parameter of `r_alloc` reduced
   * modulo 2^32.
   */
  method CreateArena(heap: FirstFitHeap.Heap, capacity: U64, policy: Lifetime, recordSize: U32)
      returns (a: Arena)
    requires heap.Valid()
    requires AllocAddr(heap.blocks, recordSize, heap.hdr).Some?
    requires AllocAddr(AllocBlocks(heap.blocks, recordSize, heap.hdr, FirstFitHeap.SLACK), capacity % TWO_TO_THE_32, heap.hdr).Some?
    modifies heap
    ensures heap.Valid() && heap.avail == old(heap.avail)
    ensures var mid := AllocBlocks(old(heap.blocks), recordSize, heap.hdr, FirstFitHeap.SLACK);
            && fresh(a) && a.Valid()
            && Some(a.record) == AllocAddr(old(heap.blocks), recordSize, heap.hdr)
            && Some(a.base) == AllocAddr(mid, capacity % TWO_TO_THE_32, heap.hdr)
            && a.capacity == capacity && a.policy == policy && a.current == a.base && a.size == 0
            && heap.blocks == AllocBlocks(mid, capacity % TWO_TO_THE_32, heap.hdr, FirstFitHeap.SLACK)
  {
    var rec := heap.Alloc(recordSize);
    var region := heap.Alloc(capacity % TWO_TO_THE_32);
    a := new Arena.Init(rec.value, region.value, capacity, policy);
  }

  /** `r_destroy(arena)`: NULL is ignored; otherwise the region and then the record go back to the heap. */
  method Destroy(heap: FirstFitHeap.Heap, a: Arena?)
    requires heap.Valid()
    requires a != null ==> a.base in Live(heap.blocks, heap.hdr) && a.record in Live(heap.blocks, heap.hdr) && a.base != a.record
    modifies heap
    ensures heap.Valid() && heap.avail == old(heap.avail)
    ensures a == null ==> heap.blocks == old(heap.blocks)
    ensures a != null ==> heap.blocks == DestroyedBlocks(old(heap.blocks), heap.hdr, a.base, a.record)
  {
    if a != null {
      ghost var bs := heap.blocks;
      LiveIsPayload(bs, heap.hdr, a.base);
      FirstFitHeap.FreeEffect(bs, heap.hdr, a.base);
      heap.Free(Some(a.base));
      LiveIsPayload(heap.blocks, heap.hdr, a.record);
      heap.Free(Some(a.record));
    }
  }

  /**
   * The reset scenario: on a fresh page, a 512-byte transient arena hands out
   * two 64-byte blocks one after the other; after a reset the next 64-byte
   * request gets the first one's address again.
   */
  method ResetReuse(pageSize: nat, hdr: nat, recordSize: U32)
      returns (aPtr1: Option<nat>, aPtr2: Option<nat>, aPtr3: Option<nat>)
    requires 0 < hdr <= 64 && recordSize <= 1024 && 4096 <= pageSize
    ensures aPtr1.Some? && aPtr2 == Some(aPtr1.value + 64)
    ensures aPtr3 == aPtr1
  {
    var heap := new FirstFitHeap.Heap.Init(pageSize, hdr);
    assert AllocAddr(heap.blocks, recordSize, hdr) == Some(hdr);
    ghost var mid := AllocBlocks(heap.blocks, recordSize, hdr, FirstFitHeap.SLACK);
    assert mid == [Chunk(recordSize, true), Chunk(pageSize - hdr - recordSize - hdr, false)];
    assert FirstFit(mid, 512, 0) == Some(1);
    var arenaA := CreateArena(heap, 512, Transient, recordSize);
    aPtr1 := arenaA.Alloc(64);
    aPtr2 := arenaA.Alloc(64);
    Reset(arenaA);
    aPtr3 := arenaA.Alloc(64);
  }
}
