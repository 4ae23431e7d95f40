/**
 * The second heap manager (src/allocator.cpp): a 64 MiB region, first fit
 * that splits only when the leftover exceeds one header plus 32 bytes, a free
 * that only marks the block free, and an allocation profiler. The profiler
 * keeps a shadow map from each live pointer to its birth record and, when a
 * pointer in the map is freed, appends one (site, size, lifespan) line to a
 * log whose first line is a column header.
 */
module ProfiledHeap {
  import opened Options
  import opened HeapLayout
  import opened Words

  /** `HEAP_SIZE`: the region is 64 MiB. */
  const HEAP_SIZE: nat := 64 * 1024 * 1024

  /** A block is split only when the leftover exceeds one header plus this many bytes. */
  const SLACK: nat := 32

  /** The shadow map's entry for a live pointer: birth time, call site and requested size. */
  datatype AllocationMeta = AllocationMeta(startTime: U64, siteId: U32, size: U64)

  /** A line of the training log: the column header written at start-up, or one record per profiled free. */
  datatype LogLine = ColumnHeader | Record(siteId: U32, size: U64, lifespan: U64)

  /** `now - start` on `uint64_t`: unsigned subtraction wraps modulo 2^64. */
  function Lifespan(now: U64, start: U64): (d: U64)
    ensures (start + d) % TWO_TO_THE_64 == now
    ensures start <= now ==> d == now - start
  {
    (now - start) % TWO_TO_THE_64
  }

  /** The shadow map after an allocation returned `p`: with profiling on, a success (over)writes the entry for `p`. */
  function Born(shadow: map<nat, AllocationMeta>, profiling: bool, p: Option<nat>, meta: AllocationMeta): (r: map<nat, AllocationMeta>)
    ensures profiling && p.Some? ==> p.value in r && r[p.value] == meta
    ensures r.Keys == shadow.Keys || (p.Some? && r.Keys == shadow.Keys + {p.value})
  {
    if profiling && p.Some? then shadow[p.value := meta] else shadow
  }

  /** The shadow map after `x` is freed: with profiling on, its entry is erased. */
  function Died(shadow: map<nat, AllocationMeta>, profiling: bool, x: nat): (r: map<nat, AllocationMeta>)
    ensures profiling ==> x !in r
    ensures r.Keys <= shadow.Keys && forall q :: q in r ==> r[q] == shadow[q]
    ensures forall q :: q in shadow && (!profiling || q != x) ==> q in r
  {
    if profiling && x in shadow then shadow - {x} else shadow
  }

  /** The log after `x` is freed at time `now`: one record for a profiled pointer when the log file is open. */
  function Logged(log: seq<LogLine>, shadow: map<nat, AllocationMeta>, profiling: bool, logging: bool, x: nat, now: U64): (r: seq<LogLine>)
    ensures |log| <= |r| <= |log| + 1 && r[..|log|] == log
    ensures |r| > |log| ==> r[|log|].Record? && x in shadow && r[|log|].siteId == shadow[x].siteId
    ensures profiling && logging && x in shadow ==>
              r == log + [Record(shadow[x].siteId, shadow[x].size, Lifespan(now, shadow[x].startTime))]
    ensures !(profiling && logging && x in shadow) ==> r == log
  {
    if profiling && x in shadow && logging then
      var m := shadow[x];
      log + [Record(m.siteId, m.size, Lifespan(now, m.startTime))]
    else log
  }

  /** The live set the shadow map mirrors: every allocation when profiling, none otherwise. */
  ghost function Tracked(bs: seq<Chunk>, hdr: nat, profiling: bool): set<nat>
  {
    if profiling then Live(bs, hdr) else {}
  }

  /** A log is its column header followed by records when the file is open, and empty when it is not. */
  predicate WellFormedLog(log: seq<LogLine>, logging: bool)
  {
    if logging then |log| > 0 && log[0] == ColumnHeader && forall i :: 0 < i < |log| ==> log[i].Record?
    else log == []
  }

  /**
   * The heap's invariant: the region is exactly covered by blocks, the shadow
   * map holds exactly the live allocations when profiling (and nothing
   * otherwise), and the log is well formed.
   */
  ghost predicate Consistent(bs: seq<Chunk>, hdr: nat, profiling: bool, logging: bool,
                             shadow: map<nat, AllocationMeta>, log: seq<LogLine>)
  {
    && hdr > 0
    && Footprint(bs, hdr) == HEAP_SIZE
    && shadow.Keys == Tracked(bs, hdr, profiling)
    && (logging ==> profiling)
    && WellFormedLog(log, logging)
  }

  class Heap {
    /** `sizeof(Block)` */
    const hdr: nat
    /** `PROFILING_MODE` */
    const profiling: bool
    /** `log_file != NULL`: profiling is on and the log file could be opened. */
    const logging: bool
    /** The header list from `free_list`, in address order. */
    var blocks: seq<Chunk>
    /** `shadow_map` */
    var shadow: map<nat, AllocationMeta>
    /** The lines written to `training_data.csv`. */
    var log: seq<LogLine>

    /** The heap's invariant on its current state. */
    ghost predicate Valid()
      reads this
    {
      Consistent(blocks, hdr, profiling, logging, shadow, log)
    }

    /** `init_heap`: one free block over the region; with profiling, the log is opened and gets its header line. */
    constructor Init(hdr: nat, profiling: bool, fileOpened: bool)
      requires 0 < hdr <= HEAP_SIZE
      ensures this.hdr == hdr && this.profiling == profiling && logging == (profiling && fileOpened)
      ensures blocks == [Chunk(HEAP_SIZE - hdr, false)]
      ensures shadow == map[]
      ensures log == if logging then [ColumnHeader] else []
      ensures Valid()
    {
      this.hdr := hdr;
      this.profiling := profiling;
      logging := profiling && fileOpened;
      blocks := [Chunk(HEAP_SIZE - hdr, false)];
      shadow := map[];
      log := if profiling && fileOpened then [ColumnHeader] else [];
      FootprintSingle(Chunk(HEAP_SIZE - hdr, false), hdr);
      LiveFromSingle(Chunk(HEAP_SIZE - hdr, false), 0, hdr);
    }

    /** `r_alloc(size, site_id)`: first fit with slack, then the birth record when profiling. */
    method Alloc(req: U64, siteId: U32, now: U64) returns (p: Option<nat>)
      requires Valid()
      modifies this
      ensures Valid()
      ensures p == AllocAddr(old(blocks), req, hdr)
      ensures blocks == AllocBlocks(old(blocks), req, hdr, SLACK)
      ensures shadow == Born(old(shadow), profiling, p, AllocationMeta(now, siteId, req))
      ensures log == old(log)
    {
      var i, addr := 0, 0;
      while i < |blocks|
        invariant i <= |blocks|
        invariant blocks == old(blocks)
        invariant addr == Offset(blocks, i, hdr)
        invariant FirstFit(blocks, req, i) == FirstFit(blocks, req, 0)
      {
        var c := blocks[i];
        if !c.inUse && c.size >= req {
          p := TakeAt(i, addr, req, siteId, now);
          return;
        }
        addr := addr + hdr + c.size;
        i := i + 1;
      }
      p := None;
    }

    /** The found branch of `r_alloc`: split or take block `i` whole, then record the birth when profiling. */
    method TakeAt(i: nat, addr: nat, req: U64, siteId: U32, now: U64) returns (p: Option<nat>)
      requires Valid()
      requires i < |blocks| && Fits(blocks[i], req) && FirstFit(blocks, req, i) == FirstFit(blocks, req, 0)
      requires addr == Offset(blocks, i, hdr)
      modifies this
      ensures Valid()
      ensures p == AllocAddr(old(blocks), req, hdr)
      ensures blocks == AllocBlocks(old(blocks), req, hdr, SLACK)
      ensures shadow == Born(old(shadow), profiling, p, AllocationMeta(now, siteId, req))
      ensures log == old(log)
    {
      AllocPreserves(blocks, hdr, profiling, logging, shadow, log, req, AllocationMeta(now, siteId, req));
      AllocAtFit(blocks, i, req, hdr, SLACK);
      TakeBlockInPlace(blocks, i, req, hdr, SLACK);
      var c := blocks[i];
      if c.size > req + hdr + SLACK {
        blocks := blocks[..i] + [Chunk(req, c.inUse), Chunk(c.size - req - hdr, false)] + blocks[i + 1..];
      }
      blocks := blocks[i := Chunk(blocks[i].size, true)];
      p := Some(addr + hdr);
      if profiling {
        shadow := shadow[addr + hdr := AllocationMeta(now, siteId, req)];
      }
    }

    /** `r_free`: the death record when profiling, then the block is marked free; nothing is merged. */
    method Free(p: Option<nat>, now: U64)
      requires Valid()
      requires p.None? || IsPayload(blocks, hdr, p.value)
      modifies this
      ensures Valid()
      ensures p.None? ==> blocks == old(blocks) && shadow == old(shadow) && log == old(log)
      ensures p.Some? ==>
                && blocks == Release(old(blocks), BlockOf(old(blocks), hdr, p.value))
                && shadow == Died(old(shadow), profiling, p.value)
                && log == Logged(old(log), old(shadow), profiling, logging, p.value, now)
    {
      if p.None? {
        return;
      }
      var x := p.value;
      if profiling {
        if x in shadow {
          var meta := shadow[x];
          var lifespan := Lifespan(now, meta.startTime);
          if logging {
            log := log + [Record(meta.siteId, meta.size, lifespan)];
          }
          shadow := shadow - {x};
        }
      }
      FreePreserves(old(blocks), hdr, profiling, logging, old(shadow), old(log), x, now);
      var k := BlockOf(blocks, hdr, x);
      blocks := blocks[k := Chunk(blocks[k].size, false)];
    }
  }

  /** An allocation keeps the invariant: the new pointer enters the shadow map exactly when it enters the live set. */
  lemma AllocPreserves(bs: seq<Chunk>, hdr: nat, profiling: bool, logging: bool,
                       shadow: map<nat, AllocationMeta>, log: seq<LogLine>, req: nat, meta: AllocationMeta)
    requires Consistent(bs, hdr, profiling, logging, shadow, log)
    ensures Consistent(AllocBlocks(bs, req, hdr, SLACK), hdr, profiling, logging,
                       Born(shadow, profiling, AllocAddr(bs, req, hdr), meta), log)
  {
    AllocEffect(bs, req, hdr, SLACK);
  }

  /**
   * A free keeps the invariant: a live pointer leaves both the live set and
   * the shadow map; a pointer to a block already free is in neither, so both
   * stay as they were; and the log gains at most one record.
   */
  lemma FreePreserves(bs: seq<Chunk>, hdr: nat, profiling: bool, logging: bool,
                      shadow: map<nat, AllocationMeta>, log: seq<LogLine>, x: nat, now: U64)
    requires Consistent(bs, hdr, profiling, logging, shadow, log) && IsPayload(bs, hdr, x)
    ensures Consistent(Release(bs, BlockOf(bs, hdr, x)), hdr, profiling, logging,
                       Died(shadow, profiling, x), Logged(log, shadow, profiling, logging, x, now))
  {
    var k := BlockOf(bs, hdr, x);
    ReleaseKeepsLayout(bs, k, hdr);
    ReleaseLive(bs, k, hdr);
    var log' := Logged(log, shadow, profiling, logging, x, now);
    if logging {
      assert forall i :: 0 < i < |log'| ==> log'[i].Record? by {
        forall i | 0 < i < |log'|
          ensures log'[i].Record?
        {
          if i < |log| {
            assert log'[i] == log[i];
          }
        }
      }
    }
  }

  /**
   * This variant does not coalesce: a free flips the block's flag and nothing
   * else, so the number of blocks, every size and every address stay as they
   * were.
   */
  lemma FreeOnlyFlipsFlag(bs: seq<Chunk>, hdr: nat, x: nat)
    requires IsPayload(bs, hdr, x)
    ensures var k := BlockOf(bs, hdr, x);
            var r := Release(bs, k);
            && |r| == |bs| && !r[k].inUse
            && (forall j :: 0 <= j < |bs| ==> r[j].size == bs[j].size && (j != k ==> r[j] == bs[j]))
            && (forall j :: 0 <= j <= |bs| ==> Offset(r, j, hdr) == Offset(bs, j, hdr))
  {
    ReleaseKeepsLayout(bs, BlockOf(bs, hdr, x), hdr);
  }

  /**
   * The profiler round trip on any consistent heap: when an allocation of
   * `req` bytes at site `siteId` and time `t0` succeeds, freeing its pointer
   * at time `t1` restores the shadow map exactly and, with the log open,
   * appends exactly the record of that site, that size and `t1 - t0`.
   */
  lemma ProfileRoundTrip(bs: seq<Chunk>, hdr: nat, profiling: bool, logging: bool,
                         shadow: map<nat, AllocationMeta>, log: seq<LogLine>,
                         req: U64, siteId: U32, t0: U64, t1: U64)
    requires Consistent(bs, hdr, profiling, logging, shadow, log)
    requires AllocAddr(bs, req, hdr).Some?
    ensures var p := AllocAddr(bs, req, hdr);
            var born := Born(shadow, profiling, p, AllocationMeta(t0, siteId, req));
            && Died(born, profiling, p.value) == shadow
            && Logged(log, born, profiling, logging, p.value, t1)
                 == if logging then log + [Record(siteId, req, Lifespan(t1, t0))] else log
  {
    AllocEffect(bs, req, hdr, SLACK);
    var p := AllocAddr(bs, req, hdr).value;
    assert p !in shadow;
    if profiling {
      var born := shadow[p := AllocationMeta(t0, siteId, req)];
      assert born - {p} == shadow;
    }
  }

  /**
   * The profiler round trip: on a fresh heap with profiling on and the log
   * open, allocating `req` bytes at time `t0` and freeing the pointer at time
   * `t1` empties the shadow map again and leaves the header line followed by
   * one record of the site, the size and the lifespan `t1 - t0`.
   */
  method ProfileLifetime(hdr: nat, req: U64, siteId: U32, t0: U64, t1: U64)
      returns (p: Option<nat>, log: seq<LogLine>, tracked: map<nat, AllocationMeta>)
    requires 0 < hdr && req + hdr <= HEAP_SIZE
    ensures p == Some(hdr)
    ensures log == [ColumnHeader, Record(siteId, req, Lifespan(t1, t0))]
    ensures tracked == map[]
  {
    var heap := new Heap.Init(hdr, true, true);
    p := heap.Alloc(req, siteId, t0);
    assert p == Some(Payload(heap.blocks, 0, hdr));
    PayloadRoundTrip(heap.blocks, hdr, 0);
    heap.Free(p, t1);
    log, tracked := heap.log, heap.shadow;
  }
}
