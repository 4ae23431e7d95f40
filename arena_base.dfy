/**
 * What both arena variants share (src/arena.h and the bump path of src/arena.c
 * and src/arena.cpp): the lifetime policies, the slab constants, the rounding
 * of requests to a multiple of 8 and bump allocation from a cursor.
 */
module ArenaBase {
  import opened Options
  import opened Words

  /** `lifetime_t` */
  datatype Lifetime = Transient | Intermediate | Persistent

  /** `SLAB_CLASS_COUNT`: the number of slab size classes. */
  const SLAB_CLASS_COUNT: nat := 8
  /** `SLAB_MIN_SIZE`: the slot size of the smallest class. */
  const SLAB_MIN_SIZE: nat := 32

  /**
   * `(size + 7) & ~7` on `size_t`: the least multiple of 8 not below `n`;
   * when `n + 7` does not fit in 64 bits the sum wraps and the result is 0.
   */
  function AlignUp8(n: U64): (r: U64)
    ensures r % 8 == 0
    ensures n + 7 < TWO_TO_THE_64 ==> n <= r < n + 8
    ensures n + 7 >= TWO_TO_THE_64 ==> r == 0
  {
    (n + 7) % TWO_TO_THE_64 / 8 * 8
  }

  /** The bump-pointer fields of an arena: `current` and `size`. */
  datatype Cursor = Cursor(current: nat, size: nat)

  /** The cursor invariant: `base <= current <= base + capacity` and `size == current - base`. */
  predicate CursorValid(base: nat, capacity: nat, c: Cursor)
  {
    base <= c.current <= base + capacity && c.size + base == c.current
  }

  /** A bump allocation's outcome: the pointer (NULL on overflow) and the cursor afterwards. */
  datatype Bumped = Bumped(ptr: Option<nat>, cursor: Cursor)

  /** Bump `n` bytes: succeed iff they fit below `base + capacity`, returning the old `current`. */
  function Bump(base: nat, capacity: nat, c: Cursor, n: nat): (r: Bumped)
    ensures r.cursor.current + c.size == c.current + r.cursor.size && c.current <= r.cursor.current
    ensures r.ptr.Some? ==> r.ptr.value == c.current && r.cursor.current == c.current + n <= base + capacity
    ensures r.ptr.None? ==> r.cursor == c && base + capacity < c.current + n
  {
    if c.current + n <= base + capacity then Bumped(Some(c.current), Cursor(c.current + n, c.size + n))
    else Bumped(None, c)
  }

  /** The bump path of `r_arena`: round the request up to a multiple of 8, then bump. */
  function BumpAlloc(base: nat, capacity: nat, c: Cursor, n: U64): (r: Bumped)
    ensures (r.cursor.current - c.current) % 8 == 0
    ensures r.ptr.Some? && n + 7 < TWO_TO_THE_64 ==> n <= r.cursor.current - c.current < n + 8
  {
    Bump(base, capacity, c, AlignUp8(n))
  }

  /**
   * A bump keeps the cursor invariant; it succeeds exactly when the rounded
   * request fits, and then hands out `[current, current + rounded)`, a range
   * inside the arena, and advances `current` and `size` by the rounded size;
   * on overflow nothing changes.
   */
  lemma BumpAllocEffect(base: nat, capacity: nat, c: Cursor, n: U64)
    requires CursorValid(base, capacity, c)
    ensures var r, m := BumpAlloc(base, capacity, c, n), AlignUp8(n);
            && CursorValid(base, capacity, r.cursor)
            && (r.ptr.Some? <==> c.current + m <= base + capacity)
            && (r.ptr.Some? ==> r.ptr.value == c.current && base <= r.ptr.value && r.ptr.value + m <= base + capacity
                                && r.cursor == Cursor(c.current + m, c.size + m))
            && (r.ptr.None? ==> r.cursor == c)
  {
  }

  /** Successive bump allocations hand out adjacent, non-overlapping ranges in request order. */
  lemma BumpAdjacent(base: nat, capacity: nat, c: Cursor, n1: U64, n2: U64)
    requires CursorValid(base, capacity, c) && n1 + 7 < TWO_TO_THE_64
    requires BumpAlloc(base, capacity, c, n1).ptr.Some?
    requires BumpAlloc(base, capacity, BumpAlloc(base, capacity, c, n1).cursor, n2).ptr.Some?
    ensures var p1 := BumpAlloc(base, capacity, c, n1).ptr.value;
            var p2 := BumpAlloc(base, capacity, BumpAlloc(base, capacity, c, n1).cursor, n2).ptr.value;
            p1 + AlignUp8(n1) == p2 && n1 <= p2 - p1
  {
    BumpAllocEffect(base, capacity, c, n1);
    BumpAllocEffect(base, capacity, BumpAlloc(base, capacity, c, n1).cursor, n2);
  }

  /**
   * A request within 7 bytes of 2^64 wraps to a rounded size of 0: the call
   * succeeds, returns `current` and reserves nothing.
   */
  lemma BumpWrapsToEmpty(base: nat, capacity: nat, c: Cursor)
    requires CursorValid(base, capacity, c)
    ensures BumpAlloc(base, capacity, c, TWO_TO_THE_64 - 1) == Bumped(Some(c.current), c)
  {
  }

  /**
   * Rounding in action: from an empty 1024-byte arena, requests of 10, 20 and
   * 30 bytes return `base`, `base + 16` and `base + 40` and leave `current` at
   * `base + 72`; a further 1000 bytes do not fit and change nothing.
   */
  lemma BumpExample(base: nat)
    ensures var c0 := Cursor(base, 0);
            var r1 := BumpAlloc(base, 1024, c0, 10);
            var r2 := BumpAlloc(base, 1024, r1.cursor, 20);
            var r3 := BumpAlloc(base, 1024, r2.cursor, 30);
            var r4 := BumpAlloc(base, 1024, r3.cursor, 1000);
            && r1.ptr == Some(base) && r2.ptr == Some(base + 16) && r3.ptr == Some(base + 40)
            && r3.cursor == Cursor(base + 72, 72)
            && r4 == Bumped(None, r3.cursor)
  {
    assert AlignUp8(10) == 16 && AlignUp8(20) == 24 && AlignUp8(30) == 32 && AlignUp8(1000) == 1000;
  }
}
