/**
 * The full arena subsystem (src/arena.cpp) over the profiled heap: bump
 * allocation for transient and persistent arenas, and for intermediate arenas
 * a slab cache of eight power-of-two size classes (32 to 4096 bytes) with
 * LIFO free lists that are refilled by carving 64 slots at a time out of the
 * bump region.
 */
module SlabArena {
  import opened Options
  import opened HeapLayout
  import opened ArenaBase
  import opened Words
  import ProfiledHeap

  /** `items_to_carve`: slots cut from the bump region when a class's list is empty. */
  const ITEMS_TO_CARVE: nat := 64

  /** `get_slab_index`: the class for a size, or -1 when it is larger than 4096. */
  function SlabIndex(n: U64): (i: int)
    ensures -1 <= i < SLAB_CLASS_COUNT as int
  {
    if n <= 32 then 0
    else if n <= 64 then 1
    else if n <= 128 then 2
    else if n <= 256 then 3
    else if n <= 512 then 4
    else if n <= 1024 then 5
    else if n <= 2048 then 6
    else if n <= 4096 then 7
    else -1
  }

  /** `2^i` */
  function Pow2(i: nat): (r: nat)
    ensures r >= 1
  {
    if i == 0 then 1 else 2 * Pow2(i - 1)
  }

  /** `get_class_size`: the slot size of class `i`, `32 << i`. */
  function ClassSize(i: nat): (r: nat)
    requires i < SLAB_CLASS_COUNT
    ensures r >= SLAB_MIN_SIZE
  {
    SLAB_MIN_SIZE * Pow2(i)
  }

  /** The eight slot sizes are 32, 64, ..., 4096, each twice the one before. */
  lemma ClassSizeTable()
    ensures ClassSize(0) == 32 && ClassSize(1) == 64 && ClassSize(2) == 128 && ClassSize(3) == 256
    ensures ClassSize(4) == 512 && ClassSize(5) == 1024 && ClassSize(6) == 2048 && ClassSize(7) == 4096
    ensures forall i :: 0 < i < SLAB_CLASS_COUNT ==> ClassSize(i) == 2 * ClassSize(i - 1)
  {
    assert Pow2(1) == 2 && Pow2(2) == 4 && Pow2(3) == 8 && Pow2(4) == 16;
    assert Pow2(5) == 32 && Pow2(6) == 64 && Pow2(7) == 128;
  }

  /**
   * `get_slab_index` picks the smallest class whose slots hold the size: the
   * class is -1 exactly for sizes over 4096, and otherwise its slot size is at
   * least the size while the next smaller class's is not.
   */
  lemma SlabIndexSmallestFit(n: U64)
    ensures SlabIndex(n) == -1 <==> n > ClassSize(SLAB_CLASS_COUNT - 1)
    ensures SlabIndex(n) != -1 ==> n <= ClassSize(SlabIndex(n))
    ensures 0 < SlabIndex(n) ==> ClassSize(SlabIndex(n) - 1) < n
  {
    ClassSizeTable();
  }

  /** `get_slab_index` is monotone: a larger size never gets a smaller class, and never fits when a smaller size does not. */
  lemma SlabIndexMonotone(n: U64, m: U64)
    requires n <= m
    ensures SlabIndex(n) == -1 ==> SlabIndex(m) == -1
    ensures SlabIndex(m) != -1 ==> SlabIndex(n) <= SlabIndex(m)
  {
    SlabIndexSmallestFit(n);
    SlabIndexSmallestFit(m);
    ClassSizeTable();
  }

  /**
   * Free indexes the size as given, allocation the size rounded up to a
   * multiple of 8; every class bound is a multiple of 8, so both name the same class.
   */
  lemma AlignKeepsClass(n: U64)
    requires n + 7 < TWO_TO_THE_64
    ensures SlabIndex(AlignUp8(n)) == SlabIndex(n)
  {
  }

  /**
   * Where the rounding wraps the two sizes part: a request of 2^64 - 1 bytes
   * rounds to 0 and is served from the 32-byte class, while the same size
   * handed to `r_arena_free` has no class and is ignored.
   */
  lemma WrappedSizeChangesClass()
    ensures SlabIndex(AlignUp8(TWO_TO_THE_64 - 1)) == 0
    ensures SlabIndex(TWO_TO_THE_64 - 1) == -1
  {
  }

  /** The list left by carving: slots `m` down to `1` of a chunk at `start`, each pushed in front of the last. */
  function Carved(start: nat, classSize: nat, m: nat): seq<nat>
  {
    if m == 0 then [] else [start + m * classSize] + Carved(start, classSize, m - 1)
  }

  /** Carving `m` slots leaves `m` entries; entry `j` is slot `m - j`, so the highest slot is at the head. */
  lemma {:induction false} CarvedSlots(start: nat, classSize: nat, m: nat)
    ensures |Carved(start, classSize, m)| == m
    ensures forall j :: 0 <= j < m ==> Carved(start, classSize, m)[j] == start + (m - j) * classSize
  {
    if m > 0 {
      CarvedSlots(start, classSize, m - 1);
      var c := Carved(start, classSize, m);
      forall j | 0 <= j < m
        ensures c[j] == start + (m - j) * classSize
      {
        if j > 0 {
          assert c[j] == Carved(start, classSize, m - 1)[j - 1];
        }
      }
    }
  }

  /**
   * The mutable fields of an arena: the bump cursor and the eight free lists,
   * each head first. `chunks` is the model's own record, per class, of where
   * each chunk of 64 slots was carved; the record in memory has no such field.
   */
  datatype State = State(cursor: Cursor, lists: seq<seq<nat>>, chunks: seq<seq<nat>>)

  /** One list and one chunk record per class. */
  predicate Shaped(s: State)
  {
    |s.lists| == SLAB_CLASS_COUNT && |s.chunks| == SLAB_CLASS_COUNT
  }

  /**
   * `p` is one of the 64 slots of `classSize` bytes of a chunk carved at one
   * of `starts`: the slot `r_arena` returns or one of those it lists.
   */
  predicate IsSlot(starts: seq<nat>, classSize: nat, p: nat)
  {
    exists k :: 0 <= k < |starts| && (p == starts[k] || p in Carved(starts[k], classSize, ITEMS_TO_CARVE - 1))
  }

  /** An allocation's outcome: the pointer (NULL on failure) and the fields afterwards. */
  datatype Step = Step(ptr: Option<nat>, state: State)

  /** All eight free lists empty, as `init_slab_cache` leaves them. */
  function EmptyLists(): seq<seq<nat>>
  {
    seq(SLAB_CLASS_COUNT, _ => [])
  }

  /**
   * The arena invariant: the cursor stays inside the region with `size` its
   * offset, there are eight lists, and in an intermediate arena every carved
   * chunk lies inside the part of the region already bumped past and every
   * slot on list `i` is a slot of a chunk carved for class `i`.
   */
  predicate StateValid(policy: Lifetime, base: nat, capacity: nat, s: State)
  {
    && CursorValid(base, capacity, s.cursor)
    && Shaped(s)
    && (policy == Intermediate ==>
          && (forall i, k :: 0 <= i < SLAB_CLASS_COUNT && 0 <= k < |s.chunks[i]| ==>
                base <= s.chunks[i][k] && s.chunks[i][k] + ClassSize(i) * ITEMS_TO_CARVE <= s.cursor.current)
          && (forall i, j :: 0 <= i < SLAB_CLASS_COUNT && 0 <= j < |s.lists[i]| ==>
                IsSlot(s.chunks[i], ClassSize(i), s.lists[i][j])))
  }

  /** The intermediate path of `r_arena`: pop the class's list, or carve a fresh chunk when it is empty. */
  function SlabAlloc(base: nat, capacity: nat, s: State, n: U64): (r: Step)
    requires Shaped(s)
    ensures Shaped(r.state) && s.cursor.current <= r.state.cursor.current
    ensures r.ptr.None? ==> r.state == s
    ensures r.ptr.Some? ==> SlabIndex(AlignUp8(n)) != -1
  {
    var index := SlabIndex(AlignUp8(n));
    if index == -1 then Step(None, s)
    else if s.lists[index] != [] then
      Step(Some(s.lists[index][0]), State(s.cursor, s.lists[index := s.lists[index][1..]], s.chunks))
    else
      var classSize := ClassSize(index);
      var chunkNeeded := classSize * ITEMS_TO_CARVE;
      var c := s.cursor;
      if c.current + chunkNeeded > base + capacity then Step(None, s)
      else
        Step(Some(c.current),
             State(Cursor(c.current + chunkNeeded, c.size + chunkNeeded),
                   s.lists[index := Carved(c.current, classSize, ITEMS_TO_CARVE - 1)],
                   s.chunks[index := s.chunks[index] + [c.current]]))
  }

  /** `r_arena`: slab allocation for intermediate arenas, bump allocation for the others. */
  function ArenaAlloc(policy: Lifetime, base: nat, capacity: nat, s: State, n: U64): (r: Step)
    requires Shaped(s)
    ensures Shaped(r.state) && s.cursor.current <= r.state.cursor.current
    ensures r.ptr.None? ==> r.state == s
  {
    if policy == Intermediate then SlabAlloc(base, capacity, s, n)
    else
      var b := BumpAlloc(base, capacity, s.cursor, n);
      Step(b.ptr, State(b.cursor, s.lists, s.chunks))
  }

  /** `r_arena_free`: push the pointer on its class's list; NULL, other policies and sizes over 4096 change nothing. */
  function ArenaFree(policy: Lifetime, s: State, p: Option<nat>, n: U64): (r: State)
    requires Shaped(s)
    ensures Shaped(r) && r.cursor == s.cursor && r.chunks == s.chunks
    ensures forall i :: 0 <= i < SLAB_CLASS_COUNT && i != SlabIndex(n) ==> r.lists[i] == s.lists[i]
  {
    var index := SlabIndex(n);
    if p.None? || policy != Intermediate || index == -1 then s
    else State(s.cursor, s.lists[index := [p.value] + s.lists[index]], s.chunks)
  }

  /** `r_reset`: rewind transient and intermediate arenas, and empty an intermediate arena's lists. */
  function ArenaReset(policy: Lifetime, base: nat, s: State): (r: State)
    ensures r.cursor.size <= s.cursor.size
    ensures Shaped(s) ==> Shaped(r)
  {
    match policy
    case Transient => State(Cursor(base, 0), s.lists, s.chunks)
    case Intermediate => State(Cursor(base, 0), EmptyLists(), EmptyLists())
    case Persistent => s
  }

  /**
   * What `r_arena_free` relies on: a pointer handed back to an intermediate
   * arena with a slab size is a slot of a chunk carved for that size's class,
   * as every slot `r_arena` returns is.
   */
  predicate FreeAllowed(policy: Lifetime, s: State, p: Option<nat>, n: U64)
  {
    p.Some? && policy == Intermediate && SlabIndex(n) != -1 ==>
      |s.chunks| == SLAB_CLASS_COUNT && IsSlot(s.chunks[SlabIndex(n)], ClassSize(SlabIndex(n)), p.value)
  }

  // ---------------------------------------------------------------------------
  // Properties of the transitions

  /** The carved list holds 63 slots, highest first, each inside the chunk and after the slot returned. */
  lemma CarveLayout(start: nat, classSize: nat)
    ensures var l := Carved(start, classSize, ITEMS_TO_CARVE - 1);
            && |l| == ITEMS_TO_CARVE - 1
            && l[0] == start + (ITEMS_TO_CARVE - 1) * classSize
            && forall j :: 0 <= j < |l| ==>
                 && start + classSize <= l[j]
                 && l[j] + classSize <= start + ITEMS_TO_CARVE * classSize
                 && (j + 1 < |l| ==> l[j + 1] + classSize == l[j])
  {
    CarvedSlots(start, classSize, ITEMS_TO_CARVE - 1);
    var l := Carved(start, classSize, ITEMS_TO_CARVE - 1);
    forall j | 0 <= j < |l|
      ensures start + classSize <= l[j] && l[j] + classSize <= start + ITEMS_TO_CARVE * classSize
      ensures j + 1 < |l| ==> l[j + 1] + classSize == l[j]
    {
      SlotBounds(ITEMS_TO_CARVE - 1 - j, classSize);
    }
  }

  /** Slot `a` of a 64-slot chunk starts at least one slot in, ends by the chunk's end, and follows slot `a - 1`. */
  lemma SlotBounds(a: nat, classSize: nat)
    requires 1 <= a < ITEMS_TO_CARVE
    ensures classSize <= a * classSize
    ensures a * classSize + classSize <= ITEMS_TO_CARVE * classSize
    ensures (a - 1) * classSize + classSize == a * classSize
  {
    MulStep(a - 1, classSize);
    MulStep(a, classSize);
    MulMonotone(1, a, classSize);
    MulMonotone(a + 1, ITEMS_TO_CARVE, classSize);
  }

  /** `(a + 1) * c == a * c + c` */
  lemma MulStep(a: nat, c: nat)
    ensures (a + 1) * c == a * c + c
  {
  }

  /** Multiplication by a natural number is monotone. */
  lemma MulMonotone(a: nat, b: nat, c: nat)
    requires a <= b
    ensures a * c <= b * c
  {
  }

  /** In a valid intermediate arena a slot of class `i` lies, whole, inside the part of the region bumped past. */
  lemma SlotInArena(base: nat, capacity: nat, s: State, i: nat, p: nat)
    requires StateValid(Intermediate, base, capacity, s) && i < SLAB_CLASS_COUNT
    requires IsSlot(s.chunks[i], ClassSize(i), p)
    ensures base <= p && p + ClassSize(i) <= s.cursor.current
  {
    var cs := ClassSize(i);
    var k :| 0 <= k < |s.chunks[i]| && (p == s.chunks[i][k] || p in Carved(s.chunks[i][k], cs, ITEMS_TO_CARVE - 1));
    var start := s.chunks[i][k];
    CarveLayout(start, cs);
    MulMonotone(1, ITEMS_TO_CARVE, cs);
    assert ITEMS_TO_CARVE * cs == cs * ITEMS_TO_CARVE;
  }

  /** The first slot of a newly recorded chunk, and every slot the carving lists, are slots of that chunk. */
  lemma CarvedAreSlots(starts: seq<nat>, start: nat, classSize: nat)
    ensures IsSlot(starts + [start], classSize, start)
    ensures forall p :: p in Carved(start, classSize, ITEMS_TO_CARVE - 1) ==> IsSlot(starts + [start], classSize, p)
  {
    assert (starts + [start])[|starts|] == start;
  }

  /**
   * `r_arena` keeps the arena invariant, and whatever it returns is a range of
   * at least the rounded request inside the part of the region bumped past;
   * on failure the fields are unchanged.
   */
  lemma AllocKeepsValid(policy: Lifetime, base: nat, capacity: nat, s: State, n: U64)
    requires StateValid(policy, base, capacity, s)
    ensures var r := ArenaAlloc(policy, base, capacity, s, n);
            && StateValid(policy, base, capacity, r.state)
            && (r.ptr.Some? ==> base <= r.ptr.value && r.ptr.value + AlignUp8(n) <= r.state.cursor.current)
            && (r.ptr.None? ==> r.state == s)
  {
    if policy != Intermediate {
      BumpAllocEffect(base, capacity, s.cursor, n);
      return;
    }
    var index := SlabIndex(AlignUp8(n));
    if index == -1 {
      return;
    }
    SlabIndexSmallestFit(AlignUp8(n));
    if s.lists[index] != [] {
      PopKeepsValid(base, capacity, s, index);
    } else if s.cursor.current + ClassSize(index) * ITEMS_TO_CARVE <= base + capacity {
      CarveKeepsValid(base, capacity, s, index);
      assert AlignUp8(n) <= ClassSize(index) <= ClassSize(index) * ITEMS_TO_CARVE;
    }
  }

  /** Popping the head of list `index` keeps the invariant and returns a slot inside the part bumped past. */
  lemma PopKeepsValid(base: nat, capacity: nat, s: State, index: nat)
    requires StateValid(Intermediate, base, capacity, s) && index < SLAB_CLASS_COUNT && s.lists[index] != []
    ensures var r := State(s.cursor, s.lists[index := s.lists[index][1..]], s.chunks);
            && StateValid(Intermediate, base, capacity, r)
            && base <= s.lists[index][0] && s.lists[index][0] + ClassSize(index) <= s.cursor.current
  {
    var r := State(s.cursor, s.lists[index := s.lists[index][1..]], s.chunks);
    SlotInArena(base, capacity, s, index, s.lists[index][0]);
    forall i, j | 0 <= i < SLAB_CLASS_COUNT && 0 <= j < |r.lists[i]|
      ensures IsSlot(r.chunks[i], ClassSize(i), r.lists[i][j])
    {
      if i == index {
        assert r.lists[i][j] == s.lists[i][j + 1];
      }
    }
  }

  /** Carving a chunk for class `index` at the cursor, when it fits, keeps the invariant. */
  lemma CarveKeepsValid(base: nat, capacity: nat, s: State, index: nat)
    requires StateValid(Intermediate, base, capacity, s) && index < SLAB_CLASS_COUNT && s.lists[index] == []
    requires s.cursor.current + ClassSize(index) * ITEMS_TO_CARVE <= base + capacity
    ensures var cs, c := ClassSize(index), s.cursor;
            StateValid(Intermediate, base, capacity,
                       State(Cursor(c.current + cs * ITEMS_TO_CARVE, c.size + cs * ITEMS_TO_CARVE),
                             s.lists[index := Carved(c.current, cs, ITEMS_TO_CARVE - 1)],
                             s.chunks[index := s.chunks[index] + [c.current]]))
  {
    var cs, c := ClassSize(index), s.cursor;
    var r := State(Cursor(c.current + cs * ITEMS_TO_CARVE, c.size + cs * ITEMS_TO_CARVE),
                   s.lists[index := Carved(c.current, cs, ITEMS_TO_CARVE - 1)],
                   s.chunks[index := s.chunks[index] + [c.current]]);
    CarvedAreSlots(s.chunks[index], c.current, cs);
    forall i, k | 0 <= i < SLAB_CLASS_COUNT && 0 <= k < |r.chunks[i]|
      ensures base <= r.chunks[i][k] && r.chunks[i][k] + ClassSize(i) * ITEMS_TO_CARVE <= r.cursor.current
    {
      if i != index || k < |s.chunks[index]| {
        assert r.chunks[i][k] == s.chunks[i][k];
      }
    }
    forall i, j | 0 <= i < SLAB_CLASS_COUNT && 0 <= j < |r.lists[i]|
      ensures IsSlot(r.chunks[i], ClassSize(i), r.lists[i][j])
    {
      if i == index {
        assert r.lists[i][j] in Carved(c.current, cs, ITEMS_TO_CARVE - 1);
      }
    }
  }

  /**
   * Whatever an intermediate arena hands out for a size is a slot of that
   * size's class, so handing it back with the same size is allowed.
   */
  lemma AllocatedMayBeFreed(base: nat, capacity: nat, s: State, n: U64)
    requires StateValid(Intermediate, base, capacity, s) && n + 7 < TWO_TO_THE_64
    ensures var r := ArenaAlloc(Intermediate, base, capacity, s, n);
            Shaped(r.state) && FreeAllowed(Intermediate, r.state, r.ptr, n)
  {
    AlignKeepsClass(n);
    var index := SlabIndex(n);
    if index != -1 && s.lists[index] == [] {
      CarvedAreSlots(s.chunks[index], s.cursor.current, ClassSize(index));
    }
  }

  /**
   * The slab invariant at work: after the first 40-byte request of a fresh
   * 4096-byte intermediate arena, `base + 64` may be handed back as a 64-byte
   * slot and `base + 8`, which overlaps the slot at `base`, may not.
   */
  lemma FreeRefusesMisaligned(base: nat)
    ensures var s := ArenaAlloc(Intermediate, base, 4096, State(Cursor(base, 0), EmptyLists(), EmptyLists()), 40).state;
            && Shaped(s)
            && FreeAllowed(Intermediate, s, Some(base + 64), 40)
            && !FreeAllowed(Intermediate, s, Some(base + 8), 40)
  {
    ClassSizeTable();
    var s := ArenaAlloc(Intermediate, base, 4096, State(Cursor(base, 0), EmptyLists(), EmptyLists()), 40).state;
    assert AlignUp8(40) == 40 && SlabIndex(40) == 1;
    assert s.chunks[1] == [base];
    CarveLayout(base, 64);
    CarvedSlots(base, 64, ITEMS_TO_CARVE - 1);
    assert Carved(base, 64, ITEMS_TO_CARVE - 1)[ITEMS_TO_CARVE - 2] == base + 64;
    assert base + 64 in Carved(s.chunks[1][0], ClassSize(1), ITEMS_TO_CARVE - 1);
  }

  /** `r_arena_free` keeps the arena invariant for a pointer it may be given, and leaves the cursor and the chunks alone. */
  lemma FreeKeepsValid(policy: Lifetime, base: nat, capacity: nat, s: State, p: Option<nat>, n: U64)
    requires StateValid(policy, base, capacity, s) && FreeAllowed(policy, s, p, n)
    ensures StateValid(policy, base, capacity, ArenaFree(policy, s, p, n))
    ensures ArenaFree(policy, s, p, n).cursor == s.cursor && ArenaFree(policy, s, p, n).chunks == s.chunks
  {
    var r := ArenaFree(policy, s, p, n);
    if r != s {
      forall i, j | 0 <= i < SLAB_CLASS_COUNT && 0 <= j < |r.lists[i]|
        ensures IsSlot(r.chunks[i], ClassSize(i), r.lists[i][j])
      {
        if i == SlabIndex(n) && j > 0 {
          assert r.lists[i][j] == s.lists[i][j - 1];
        }
      }
    }
  }

  /** `r_reset` keeps the arena invariant; it leaves a persistent arena exactly as it was. */
  lemma ResetKeepsValid(policy: Lifetime, base: nat, capacity: nat, s: State)
    requires StateValid(policy, base, capacity, s)
    ensures StateValid(policy, base, capacity, ArenaReset(policy, base, s))
    ensures policy == Persistent ==> ArenaReset(policy, base, s) == s
    ensures policy != Persistent ==> ArenaReset(policy, base, s).cursor == Cursor(base, 0)
  {
  }

  /**
   * LIFO reuse: after a slot is freed, the next allocation of any size in the
   * same class returns that slot and leaves the arena as it was before the free.
   */
  lemma FreeThenAllocReuses(base: nat, capacity: nat, s: State, p: nat, n: U64, m: U64)
    requires Shaped(s)
    requires SlabIndex(n) != -1 && SlabIndex(AlignUp8(m)) == SlabIndex(n)
    ensures ArenaAlloc(Intermediate, base, capacity, ArenaFree(Intermediate, s, Some(p), n), m) == Step(Some(p), s)
  {
    var index := SlabIndex(n);
    var f := ArenaFree(Intermediate, s, Some(p), n);
    assert f.lists[index][1..] == s.lists[index];
    assert f.lists[index := s.lists[index]] == s.lists;
  }

  /**
   * A slab allocation on an empty list that has room returns the bump cursor,
   * advances it by 64 slots of the class, leaves slots 63 down to 1 on the
   * class's list and records the chunk; without room it fails and changes nothing.
   */
  lemma CarveOnEmptyList(base: nat, capacity: nat, s: State, n: U64)
    requires Shaped(s)
    requires SlabIndex(AlignUp8(n)) != -1 && s.lists[SlabIndex(AlignUp8(n))] == []
    ensures var index := SlabIndex(AlignUp8(n));
            var chunk := ClassSize(index) * ITEMS_TO_CARVE;
            var r := SlabAlloc(base, capacity, s, n);
            && (r.ptr.Some? <==> s.cursor.current + chunk <= base + capacity)
            && (r.ptr.None? ==> r.state == s)
            && (r.ptr.Some? ==>
                  && r.ptr.value == s.cursor.current
                  && r.state.cursor == Cursor(s.cursor.current + chunk, s.cursor.size + chunk)
                  && |r.state.lists[index]| == ITEMS_TO_CARVE - 1
                  && (forall j :: 0 <= j < ITEMS_TO_CARVE - 1 ==>
                        r.state.lists[index][j] == s.cursor.current + (ITEMS_TO_CARVE - 1 - j) * ClassSize(index))
                  && (forall i :: 0 <= i < SLAB_CLASS_COUNT && i != index ==> r.state.lists[i] == s.lists[i])
                  && r.state.chunks == s.chunks[index := s.chunks[index] + [s.cursor.current]])
  {
    var index := SlabIndex(AlignUp8(n));
    CarvedSlots(s.cursor.current, ClassSize(index), ITEMS_TO_CARVE - 1);
  }

  /**
   * After a reset, a transient arena serves the next request that fits from
   * `base`, and so does an intermediate arena when 64 slots of the request's
   * class fit in it.
   */
  lemma ResetThenAllocReturnsBase(policy: Lifetime, base: nat, capacity: nat, s: State, n: U64)
    requires Shaped(s) && policy != Persistent
    requires policy == Transient ==> AlignUp8(n) <= capacity
    requires policy == Intermediate ==>
               SlabIndex(AlignUp8(n)) != -1 && ClassSize(SlabIndex(AlignUp8(n))) * ITEMS_TO_CARVE <= capacity
    ensures ArenaAlloc(policy, base, capacity, ArenaReset(policy, base, s), n).ptr == Some(base)
  {
  }

  // ---------------------------------------------------------------------------
  // The arena record

  class Arena {
    /** The address of the record itself, from the first `r_alloc` of `create_arena`. */
    const record: nat
    /** `base`: the start of the region. */
    const base: nat
    /** `capacity` */
    const capacity: U64
    /** `policy` */
    const policy: Lifetime
    /** `current`: the bump pointer. */
    var current: nat
    /** `size`: the bytes bumped past so far. */
    var size: nat
    /** `slab_cache.free_lists`: for each class the free slots, head first. */
    const freeLists: array<seq<nat>>
    /** Where each chunk of each class was carved (the model's record, not the C record's). */
    ghost var chunks: seq<seq<nat>>

    /** The mutable fields as a value. */
    ghost function Fields(): State
      reads this, freeLists
    {
      State(Cursor(current, size), freeLists[..], chunks)
    }

    /** The arena invariant on the current fields. */
    ghost predicate Valid()
      reads this, freeLists
    {
      freeLists.Length == SLAB_CLASS_COUNT && StateValid(policy, base, capacity, Fields())
    }

    /** The field assignments of `create_arena`: the free lists are left as the allocation found them. */
    constructor Init(record: nat, base: nat, capacity: U64, policy: Lifetime)
      ensures this.record == record && this.base == base && this.capacity == capacity && this.policy == policy
      ensures current == base && size == 0 && chunks == EmptyLists()
      ensures fresh(freeLists) && freeLists.Length == SLAB_CLASS_COUNT
    {
      this.record := record;
      this.base := base;
      this.capacity := capacity;
      this.policy := policy;
      current := base;
      size := 0;
      freeLists := new seq<nat>[SLAB_CLASS_COUNT];
      chunks := EmptyLists();
    }

    /** `init_slab_cache`: empty all eight lists. */
    method InitSlabCache()
      requires freeLists.Length == SLAB_CLASS_COUNT
      modifies freeLists
      ensures freeLists[..] == EmptyLists()
    {
      for i := 0 to SLAB_CLASS_COUNT
        invariant forall j :: 0 <= j < i ==> freeLists[j] == []
      {
        freeLists[i] := [];
      }
    }

    /** `r_arena(arena, size)` (the unused call-site argument is dropped). */
    method Alloc(n: U64) returns (p: Option<nat>)
      requires Valid()
      modifies this, freeLists
      ensures Valid()
      ensures Step(p, Fields()) == ArenaAlloc(policy, base, capacity, old(Fields()), n)
    {
      AllocKeepsValid(policy, base, capacity, Fields(), n);
      var rounded := AlignUp8(n);
      if policy == Transient {
        if current + rounded <= base + capacity {
          p := Some(current);
          current := current + rounded;
          size := size + rounded;
          return;
        }
      } else if policy == Intermediate {
        var index := SlabIndex(rounded);
        if index == -1 {
          return None;
        }
        var freeNode := freeLists[index];
        if freeNode != [] {
          freeLists[index] := freeNode[1..];
          return Some(freeNode[0]);
        }
        var classSize := ClassSize(index);
        var chunkNeeded := classSize * ITEMS_TO_CARVE;
        if current + chunkNeeded > base + capacity {
          return None;
        }
        var blockStart := current;
        current := blockStart + chunkNeeded;
        size := size + chunkNeeded;
        CarveSlots(index, blockStart, classSize);
        chunks := chunks[index := chunks[index] + [blockStart]];
        assert Carved(blockStart, classSize, ITEMS_TO_CARVE - 1) + [] == Carved(blockStart, classSize, ITEMS_TO_CARVE - 1);
        return Some(blockStart);
      } else {
        if current + rounded <= base + capacity {
          p := Some(current);
          current := current + rounded;
          size := size + rounded;
          return;
        }
      }
      p := None;
    }

    /** The carving loop of `r_arena`: push slots 1 to 63 of the chunk at `blockStart` on list `index`, in that order. */
    method CarveSlots(index: nat, blockStart: nat, classSize: nat)
      requires index < freeLists.Length
      modifies freeLists
      ensures freeLists[..] == old(freeLists[..])[index := Carved(blockStart, classSize, ITEMS_TO_CARVE - 1) + old(freeLists[index])]
    {
      ghost var lists0 := freeLists[..];
      assert [] + lists0[index] == lists0[index];
      assert lists0[index := lists0[index]] == lists0;
      for i := 1 to ITEMS_TO_CARVE
        invariant freeLists[..] == lists0[index := Carved(blockStart, classSize, i - 1) + lists0[index]]
      {
        assert [blockStart + i * classSize] + (Carved(blockStart, classSize, i - 1) + lists0[index])
            == Carved(blockStart, classSize, i) + lists0[index];
        freeLists[index] := [blockStart + i * classSize] + freeLists[index];
      }
    }

    /** `r_arena_free(arena, ptr, size)` */
    method Free(p: Option<nat>, n: U64)
      requires Valid() && FreeAllowed(policy, Fields(), p, n)
      modifies freeLists
      ensures Valid()
      ensures Fields() == ArenaFree(policy, old(Fields()), p, n)
    {
      FreeKeepsValid(policy, base, capacity, Fields(), p, n);
      if p.None? {
        return;
      }
      if policy != Intermediate {
        return;
      }
      var index := SlabIndex(n);
      if index == -1 {
        return;
      }
      freeLists[index] := [p.value] + freeLists[index];
    }
  }

  /** `r_reset(arena)`: NULL is ignored. */
  method Reset(a: Arena?)
    requires a != null ==> a.Valid()
    modifies if a != null then {a, a.freeLists} else {}
    ensures a != null ==> a.Valid() && a.Fields() == ArenaReset(a.policy, a.base, old(a.Fields()))
  {
    if a != null {
      ResetKeepsValid(a.policy, a.base, a.capacity, a.Fields());
    }
    if a != null && a.policy == Transient {
      a.current := a.base;
      a.size := 0;
    } else if a != null && a.policy == Intermediate {
      a.InitSlabCache();
      a.current := a.base;
      a.size := 0;
      a.chunks := EmptyLists();
    }
  }

  /**
   * `create_arena(size, policy)`: allocate the record (site 0) and return NULL
   * if that fails; otherwise allocate the region (site 0), set up the fields,
   * and empty the free lists of an intermediate arena.
   */
  method CreateArena(heap: ProfiledHeap.Heap, capacity: U64, policy: Lifetime, recordSize: U64,
                     now1: U64, now2: U64) returns (a: Arena?)
    requires heap.Valid()
    requires AllocAddr(heap.blocks, recordSize, heap.hdr).Some? ==>
               AllocAddr(AllocBlocks(heap.blocks, recordSize, heap.hdr, ProfiledHeap.SLACK), capacity, heap.hdr).Some?
    modifies heap
    ensures heap.Valid()
    ensures (a == null) == AllocAddr(old(heap.blocks), recordSize, heap.hdr).None?
    ensures a == null ==> heap.blocks == old(heap.blocks) && heap.shadow == old(heap.shadow) && heap.log == old(heap.log)
    ensures a != null ==>
              var mid := AllocBlocks(old(heap.blocks), recordSize, heap.hdr, ProfiledHeap.SLACK);
              && fresh(a) && fresh(a.freeLists) && a.Valid()
              && Some(a.record) == AllocAddr(old(heap.blocks), recordSize, heap.hdr)
              && Some(a.base) == AllocAddr(mid, capacity, heap.hdr)
              && a.capacity == capacity && a.policy == policy && a.current == a.base && a.size == 0
              && a.chunks == EmptyLists()
              && (policy == Intermediate ==> a.freeLists[..] == EmptyLists())
              && heap.blocks == AllocBlocks(mid, capacity, heap.hdr, ProfiledHeap.SLACK)
              && heap.shadow == ProfiledHeap.Born(
                                  ProfiledHeap.Born(old(heap.shadow), heap.profiling, Some(a.record),
                                                    ProfiledHeap.AllocationMeta(now1, 0, recordSize)),
                                  heap.profiling, Some(a.base), ProfiledHeap.AllocationMeta(now2, 0, capacity))
              && heap.log == old(heap.log)
  {
    var rec := heap.Alloc(recordSize, 0, now1);
    if rec.None? {
      return null;
    }
    var region := heap.Alloc(capacity, 0, now2);
    a := new Arena.Init(rec.value, region.value, capacity, policy);
    if policy == Intermediate {
      a.InitSlabCache();
    }
  }

  /** `r_destroy(arena)`: NULL is ignored; otherwise the region and then the record go back to the heap. */
  method Destroy(heap: ProfiledHeap.Heap, a: Arena?, now1: U64, now2: U64)
    requires heap.Valid()
    requires a != null ==> IsPayload(heap.blocks, heap.hdr, a.base) && IsPayload(heap.blocks, heap.hdr, a.record)
    modifies heap
    ensures heap.Valid()
    ensures a == null ==> heap.blocks == old(heap.blocks) && heap.shadow == old(heap.shadow) && heap.log == old(heap.log)
    ensures a != null ==>
              var bs := old(heap.blocks);
              var shadow1 := ProfiledHeap.Died(old(heap.shadow), heap.profiling, a.base);
              && heap.blocks == Release(Release(bs, BlockOf(bs, heap.hdr, a.base)), BlockOf(bs, heap.hdr, a.record))
              && heap.shadow == ProfiledHeap.Died(shadow1, heap.profiling, a.record)
              && heap.log == ProfiledHeap.Logged(
                               ProfiledHeap.Logged(old(heap.log), old(heap.shadow), heap.profiling, heap.logging, a.base, now1),
                               shadow1, heap.profiling, heap.logging, a.record, now2)
  {
    if a != null {
      ghost var bs := heap.blocks;
      ghost var k1, k2 := BlockOf(bs, heap.hdr, a.base), BlockOf(bs, heap.hdr, a.record);
      heap.Free(Some(a.base), now1);
      assert BlockOf(heap.blocks, heap.hdr, a.record) == k2 && IsPayload(heap.blocks, heap.hdr, a.record) by {
        ReleaseKeepsLayout(bs, k1, heap.hdr);
        assert Payload(heap.blocks, k2, heap.hdr) == a.record;
        PayloadRoundTrip(heap.blocks, heap.hdr, k2);
      }
      heap.Free(Some(a.record), now2);
    }
  }

  /**
   * The slab scenario on the fields of a fresh 4096-byte intermediate arena:
   * two 40-byte requests are served at `base` and at slot 63 of the 64-byte
   * class, the first may be handed back, and the next 40-byte request gets it.
   */
  lemma SlabScenario(base: nat)
    ensures var s0 := State(Cursor(base, 0), EmptyLists(), EmptyLists());
            var r1 := ArenaAlloc(Intermediate, base, 4096, s0, 40);
            var r2 := ArenaAlloc(Intermediate, base, 4096, r1.state, 40);
            && StateValid(Intermediate, base, 4096, r2.state)
            && FreeAllowed(Intermediate, r2.state, r1.ptr, 40)
            && ArenaAlloc(Intermediate, base, 4096, ArenaFree(Intermediate, r2.state, r1.ptr, 40), 40).ptr == r1.ptr
            && r1.ptr == Some(base) && r2.ptr == Some(base + 63 * 64)
  {
    var s0 := State(Cursor(base, 0), EmptyLists(), EmptyLists());
    ClassSizeTable();
    assert AlignUp8(40) == 40 && SlabIndex(40) == 1;
    var r1 := ArenaAlloc(Intermediate, base, 4096, s0, 40);
    AllocKeepsValid(Intermediate, base, 4096, s0, 40);
    CarvedSlots(base, 64, ITEMS_TO_CARVE - 1);
    CarvedAreSlots([], base, 64);
    var r2 := ArenaAlloc(Intermediate, base, 4096, r1.state, 40);
    AllocKeepsValid(Intermediate, base, 4096, r1.state, 40);
    assert r2.state.chunks == r1.state.chunks;
    FreeThenAllocReuses(base, 4096, r2.state, base, 40, 40);
  }

  /**
   * The slab scenario: on a fresh heap, a 4096-byte intermediate arena serves
   * two 40-byte requests from the 64-byte class, the first at `base` and the
   * second at slot 63; once the first is freed, the next 40-byte request gets
   * it back.
   */
  method SlabReuse(hdr: nat, recordSize: U64, profiling: bool, fileOpened: bool, now: U64)
      returns (ptrA: Option<nat>, ptrB: Option<nat>, ptrC: Option<nat>)
    requires 0 < hdr <= 64 && recordSize <= 1024
    ensures ptrA.Some? && ptrB.Some? && ptrB.value == ptrA.value + 63 * 64
    ensures ptrC == ptrA
  {
    var heap := new ProfiledHeap.Heap.Init(hdr, profiling, fileOpened);
    ghost var h := ProfiledHeap.HEAP_SIZE;
    assert AllocAddr(heap.blocks, recordSize, hdr) == Some(hdr);
    ghost var mid := AllocBlocks(heap.blocks, recordSize, hdr, ProfiledHeap.SLACK);
    assert mid == [Chunk(recordSize, true), Chunk(h - hdr - recordSize - hdr, false)];
    assert FirstFit(mid, 4096, 0) == Some(1);
    var arena := CreateArena(heap, 4096, Intermediate, recordSize, now, now);
    assert arena.Fields() == State(Cursor(arena.base, 0), EmptyLists(), EmptyLists());
    SlabScenario(arena.base);
    ptrA := arena.Alloc(40);
    ptrB := arena.Alloc(40);
    arena.Free(ptrA, 40);
    ptrC := arena.Alloc(40);
  }
}
