/**
 * The first heap manager (allocator.c): one page mapped at start-up, a
 * first-fit search that splits a block whenever the leftover exceeds one
 * header, and a free that marks the block free and merges it with the free
 * blocks that follow it.
 */
module FirstFitHeap {
  import opened Options
  import opened HeapLayout
  import opened Words

  /** This manager splits a block as soon as the leftover exceeds one header. */
  const SLACK: nat := 0

  /** The block list after start-up: one free block covering the page, header excluded, with no successor. */
  function InitBlocks(pageSize: nat, hdr: nat): (r: seq<Chunk>)
    requires hdr <= pageSize
    ensures |r| == 1 && !r[0].inUse && r[0].size + hdr == pageSize
  {
    [Chunk(pageSize - hdr, false)]
  }

  /** The block list after `r_free(p)`: NULL changes nothing, otherwise the block is released and coalesced forward. */
  function FreeBlocks(bs: seq<Chunk>, hdr: nat, p: Option<nat>): (r: seq<Chunk>)
    requires p.None? || IsPayload(bs, hdr, p.value)
    ensures 0 < |r| <= |bs| || (p.None? && r == bs)
  {
    match p
    case None => bs
    case Some(x) =>
      var k := BlockOf(bs, hdr, x);
      Coalesce(Release(bs, k), k, hdr)
  }

  /** The heap state: the block list over a region of `pageSize` bytes with `hdr`-byte headers. */
  class Heap {
    /** `sizeof(struct heapchunk_t)` */
    const hdr: nat
    /** The size of the mapped page. */
    const pageSize: nat
    /** The header list from `my_heap.start`, in address order. */
    var blocks: seq<Chunk>
    /** `my_heap.avail`: set at start-up and not read again. */
    var avail: nat

    /** Conservation: the blocks, header and payload each, exactly cover the page. */
    ghost predicate Valid()
      reads this
    {
      hdr > 0 && Footprint(blocks, hdr) == pageSize
    }

    /** `init_heap`: the whole page becomes one free block. */
    constructor Init(pageSize: nat, hdr: nat)
      requires 0 < hdr <= pageSize
      ensures this.pageSize == pageSize && this.hdr == hdr
      ensures blocks == InitBlocks(pageSize, hdr) && avail == pageSize - hdr
      ensures Valid()
    {
      this.pageSize := pageSize;
      this.hdr := hdr;
      blocks := [Chunk(pageSize - hdr, false)];
      avail := pageSize - hdr;
      FootprintSingle(Chunk(pageSize - hdr, false), hdr);
    }

    /** `r_alloc`: walk the list from the start to the first free block that is large enough. */
    method Alloc(req: U32) returns (p: Option<nat>)
      requires Valid()
      modifies this
      ensures Valid()
      ensures p == AllocAddr(old(blocks), req, hdr)
      ensures blocks == AllocBlocks(old(blocks), req, hdr, SLACK)
      ensures avail == old(avail)
    {
      var i, addr := 0, 0;
      while i < |blocks|
        invariant i <= |blocks|
        invariant blocks == old(blocks)
        invariant addr == Offset(blocks, i, hdr)
        invariant FirstFit(blocks, req, i) == FirstFit(blocks, req, 0)
      {
        var c := blocks[i];
        if !c.inUse && c.size >= req {
          TakeBlockConserves(blocks, i, req, hdr, SLACK);
          if c.size > req + hdr {
            blocks := blocks[..i] + [Chunk(req, true), Chunk(c.size - req - hdr, false)] + blocks[i + 1..];
          } else {
            blocks := blocks[..i] + [Chunk(c.size, true)] + blocks[i + 1..];
          }
          p := Some(addr + hdr);
          return;
        }
        addr := addr + hdr + c.size;
        i := i + 1;
      }
      p := None;
    }

    /** `r_free`: step back one header to the block, mark it free, then absorb every free successor. */
    method Free(p: Option<nat>)
      requires Valid()
      requires p.None? || IsPayload(blocks, hdr, p.value)
      modifies this
      ensures Valid()
      ensures blocks == FreeBlocks(old(blocks), hdr, p)
      ensures avail == old(avail)
    {
      if p.None? {
        return;
      }
      var k := BlockOf(blocks, hdr, p.value);
      ReleaseKeepsLayout(blocks, k, hdr);
      blocks := blocks[k := Chunk(blocks[k].size, false)];
      ghost var released := blocks;
      assert released == Release(old(blocks), k);
      while k + 1 < |blocks| && !blocks[k + 1].inUse
        invariant k < |blocks| && avail == old(avail)
        invariant Footprint(blocks, hdr) == pageSize
        invariant Coalesce(blocks, k, hdr) == Coalesce(released, k, hdr)
        decreases |blocks|
      {
        MergeNextKeeps(blocks, k, hdr);
        blocks := blocks[..k] + [Chunk(blocks[k].size + hdr + blocks[k + 1].size, blocks[k].inUse)] + blocks[k + 2..];
      }
      assert Coalesce(blocks, k, hdr) == blocks;
    }
  }

  // ---------------------------------------------------------------------------
  // Properties of the transitions

  /** After start-up the page is covered by blocks and nothing is allocated. */
  lemma InitCoversPage(pageSize: nat, hdr: nat)
    requires hdr <= pageSize
    ensures Footprint(InitBlocks(pageSize, hdr), hdr) == pageSize
    ensures Live(InitBlocks(pageSize, hdr), hdr) == {}
  {
    FootprintSingle(Chunk(pageSize - hdr, false), hdr);
    LiveFromSingle(Chunk(pageSize - hdr, false), 0, hdr);
  }

  /** A split happens exactly when the leftover exceeds one header (no slack). */
  lemma AllocSplitRule(bs: seq<Chunk>, req: nat, hdr: nat)
    requires FirstFit(bs, req, 0).Some?
    ensures var k := FirstFit(bs, req, 0).value;
            |AllocBlocks(bs, req, hdr, SLACK)| == |bs| + (if bs[k].size > req + hdr then 1 else 0)
  {
    var k := FirstFit(bs, req, 0).value;
    TakeBlockShape(bs, k, req, hdr, SLACK);
  }

  /**
   * Forward-only coalescing: freeing block `k` leaves the blocks before it as
   * they were, makes block `k` free with its own payload plus one header and
   * the payload of each free block in the run after it, and keeps everything
   * from the first in-use block after the run.
   */
  lemma FreeShape(bs: seq<Chunk>, hdr: nat, x: nat)
    requires IsPayload(bs, hdr, x)
    ensures var k := BlockOf(bs, hdr, x);
            var e := RunEnd(bs, k + 1);
            FreeBlocks(bs, hdr, Some(x)) == bs[..k] + [Chunk(bs[k].size + Footprint(bs[k + 1..e], hdr), false)] + bs[e..]
  {
    var k := BlockOf(bs, hdr, x);
    var r := Release(bs, k);
    CoalesceShape(r, k, hdr);
    assert r[..k] == bs[..k] && r[k + 1..] == bs[k + 1..];
    RunEndSuffix(r, k + 1, bs, k + 1);
    var e := RunEnd(bs, k + 1);
    assert r[k + 1..e] == bs[k + 1..e] && r[e..] == bs[e..];
  }

  /**
   * No backward merge: with blocks A (free), B (in use) and C (free) in
   * address order, freeing B merges B and C into one free block and leaves A
   * as a separate free block.
   */
  lemma FreeMergesForwardOnly(a: nat, b: nat, c: nat, hdr: nat)
    requires hdr > 0
    ensures var bs := [Chunk(a, false), Chunk(b, true), Chunk(c, false)];
            && IsPayload(bs, hdr, hdr + a + hdr)
            && FreeBlocks(bs, hdr, Some(hdr + a + hdr)) == [Chunk(a, false), Chunk(b + hdr + c, false)]
  {
    var bs := [Chunk(a, false), Chunk(b, true), Chunk(c, false)];
    assert Payload(bs, 1, hdr) == hdr + a + hdr;
    PayloadRoundTrip(bs, hdr, 1);
    FreeShape(bs, hdr, hdr + a + hdr);
    assert RunEnd(bs, 2) == 3;
    assert bs[2..3] == [Chunk(c, false)];
    FootprintSingle(Chunk(c, false), hdr);
  }

  /** Freeing keeps the page covered and removes exactly the freed pointer from the live set. */
  lemma FreeEffect(bs: seq<Chunk>, hdr: nat, x: nat)
    requires hdr > 0 && IsPayload(bs, hdr, x)
    ensures Footprint(FreeBlocks(bs, hdr, Some(x)), hdr) == Footprint(bs, hdr)
    ensures Live(FreeBlocks(bs, hdr, Some(x)), hdr) == Live(bs, hdr) - {x}
  {
    var k := BlockOf(bs, hdr, x);
    ReleaseKeepsLayout(bs, k, hdr);
    ReleaseLive(bs, k, hdr);
    CoalesceKeeps(Release(bs, k), k, hdr);
  }

  /**
   * A freed block keeps its place and its address: a later request no larger
   * than the freed block is served from it or from a block before it, never
   * from a later one.
   */
  lemma FreedBlockReused(bs: seq<Chunk>, hdr: nat, x: nat, req: nat)
    requires hdr > 0 && IsPayload(bs, hdr, x) && req <= bs[BlockOf(bs, hdr, x)].size
    ensures var after := FreeBlocks(bs, hdr, Some(x));
            AllocAddr(after, req, hdr).Some? && AllocAddr(after, req, hdr).value <= x
  {
    var k := BlockOf(bs, hdr, x);
    var after := FreeBlocks(bs, hdr, Some(x));
    FreeShape(bs, hdr, x);
    assert after[..k] == bs[..k] && after[k].size >= bs[k].size && !after[k].inUse;
    var j := FirstFit(after, req, 0).value;
    assert j <= k;
    OffsetSamePrefix(after, bs, k, k, hdr);
    if j < k {
      PayloadBeforeLater(after, j, k, hdr);
    }
  }

  /** The payload of a taken block, stepped back one header in the new list, is that block again. */
  lemma TakenIsPayload(bs: seq<Chunk>, k: nat, req: nat, hdr: nat)
    requires hdr > 0 && k < |bs| && Fits(bs[k], req)
    ensures var r := TakeBlock(bs, k, req, hdr, SLACK);
            IsPayload(r, hdr, Payload(bs, k, hdr)) && BlockOf(r, hdr, Payload(bs, k, hdr)) == k
  {
    var r := TakeBlock(bs, k, req, hdr, SLACK);
    TakeBlockOffsetsBefore(bs, k, req, hdr, SLACK, k);
    TakeBlockShape(bs, k, req, hdr, SLACK);
    PayloadRoundTrip(r, hdr, k);
  }

  /**
   * Taking a free block `k` whose successor is in use (or absent) leaves at
   * most the split-off free block between it and that successor, and the two
   * together hold exactly the bytes of the old block.
   */
  lemma TakenRunEnd(bs: seq<Chunk>, k: nat, req: nat, hdr: nat)
    requires k < |bs| && Fits(bs[k], req) && (k + 1 == |bs| || bs[k + 1].inUse)
    ensures var r := TakeBlock(bs, k, req, hdr, SLACK);
            var e := RunEnd(r, k + 1);
            && r[..k] == bs[..k] && r[e..] == bs[k + 1..]
            && r[k].size + Footprint(r[k + 1..e], hdr) == bs[k].size
  {
    var r := TakeBlock(bs, k, req, hdr, SLACK);
    var d := if Splits(bs[k], req, hdr, SLACK) then 1 else 0;
    TakeBlockShape(bs, k, req, hdr, SLACK);
    assert k + 1 + d == |r| || r[k + 1 + d].inUse by {
      if k + 1 < |bs| {
        assert r[k + 1 + d] == r[k + 1 + d..][0] == bs[k + 1..][0];
      }
    }
    assert RunEnd(r, k + 1 + d) == k + 1 + d;
    var e := RunEnd(r, k + 1);
    assert e == k + 1 + d;
    if d == 1 {
      assert r[k + 1..e] == [r[k + 1]];
      FootprintSingle(r[k + 1], hdr);
    } else {
      assert r[k + 1..e] == [];
    }
  }

  /**
   * Round trip: when the block chosen by an allocation is followed by an
   * in-use block or by nothing, freeing the returned pointer at once restores
   * the list exactly, whether or not the allocation split the block.
   */
  lemma AllocFreeRoundTrip(bs: seq<Chunk>, req: nat, hdr: nat)
    requires hdr > 0 && AllocAddr(bs, req, hdr).Some?
    requires var k := FirstFit(bs, req, 0).value; k + 1 == |bs| || bs[k + 1].inUse
    ensures IsPayload(AllocBlocks(bs, req, hdr, SLACK), hdr, AllocAddr(bs, req, hdr).value)
    ensures FreeBlocks(AllocBlocks(bs, req, hdr, SLACK), hdr, AllocAddr(bs, req, hdr)) == bs
  {
    TakeThenFree(bs, FirstFit(bs, req, 0).value, req, hdr);
  }

  /** The round trip for a given block `k`: take it for `req` bytes, then free its payload. */
  lemma TakeThenFree(bs: seq<Chunk>, k: nat, req: nat, hdr: nat)
    requires hdr > 0 && k < |bs| && Fits(bs[k], req) && (k + 1 == |bs| || bs[k + 1].inUse)
    ensures IsPayload(TakeBlock(bs, k, req, hdr, SLACK), hdr, Payload(bs, k, hdr))
    ensures FreeBlocks(TakeBlock(bs, k, req, hdr, SLACK), hdr, Some(Payload(bs, k, hdr))) == bs
  {
    var r := TakeBlock(bs, k, req, hdr, SLACK);
    var x := Payload(bs, k, hdr);
    TakenIsPayload(bs, k, req, hdr);
    var e := RunEnd(r, k + 1);
    var merged := Chunk(r[k].size + Footprint(r[k + 1..e], hdr), false);
    assert FreeBlocks(r, hdr, Some(x)) == r[..k] + [merged] + r[e..] by {
      FreeShape(r, hdr, x);
    }
    assert r[..k] + [merged] + r[e..] == bs by {
      TakenRunEnd(bs, k, req, hdr);
      SplitAround(bs, k);
    }
  }

  /**
   * Reuse after free: on a fresh page large enough for two 64-byte blocks,
   * allocating 64 bytes twice, freeing the first and allocating 64 bytes
   * again returns the first pointer, one header into the page.
   */
  method ReuseAfterFree(pageSize: nat, hdr: nat) returns (first: Option<nat>, second: Option<nat>, again: Option<nat>)
    requires 0 < hdr && 2 * hdr + 128 <= pageSize
    ensures first == Some(hdr) && second.Some? && second != first
    ensures again == first
  {
    var heap := new Heap.Init(pageSize, hdr);
    var s := pageSize - hdr;
    first := heap.Alloc(64);
    assert heap.blocks == [Chunk(64, true), Chunk(s - 64 - hdr, false)];
    second := heap.Alloc(64);
    assert second == Some(Payload([Chunk(64, true), Chunk(s - 64 - hdr, false)], 1, hdr));
    ghost var taken := heap.blocks;
    assert taken[0] == Chunk(64, true) && taken[1].inUse;
    assert Payload(taken, 0, hdr) == hdr;
    PayloadRoundTrip(taken, hdr, 0);
    heap.Free(first);
    assert heap.blocks[0] == Chunk(64, false) by {
      FreeShape(taken, hdr, hdr);
      assert RunEnd(taken, 1) == 1;
      assert taken[1..1] == [];
    }
    assert FirstFit(heap.blocks, 64, 0) == Some(0);
    again := heap.Alloc(64);
  }
}
