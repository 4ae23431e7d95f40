/**
 * The block list that both heap managers keep over their region.
 *
 * The region is a sequence of blocks, each a header of `hdr` bytes followed
 * by its payload. The list is kept in address order and the `next` link of a
 * header always points at the header that physically follows its payload, so
 * the list is represented here as a sequence: the successor of block `i` is
 * block `i + 1`, and the address of a block is derived from the blocks before
 * it. Addresses are offsets from the start of the region.
 */
module HeapLayout {
  import opened Options

  /** A block header: payload size in bytes (header excluded) and whether the block is handed out. */
  datatype Chunk = Chunk(size: nat, inUse: bool)

  /** Address of the header of block `i`: the blocks before it, header and payload each, fill the region below it. */
  function Offset(bs: seq<Chunk>, i: nat, hdr: nat): nat
    requires i <= |bs|
    decreases i
  {
    if i == 0 then 0 else Offset(bs, i - 1, hdr) + hdr + bs[i - 1].size
  }

  /** Bytes spanned by the blocks `bs`: one header plus the payload for each block. */
  function Footprint(bs: seq<Chunk>, hdr: nat): nat
  {
    Offset(bs, |bs|, hdr)
  }

  /** Address of the payload of block `i`: the byte right after its header. */
  function Payload(bs: seq<Chunk>, i: nat, hdr: nat): nat
    requires i < |bs|
  {
    Offset(bs, i, hdr) + hdr
  }

  /** Payload addresses of the in-use blocks among the first `n`, for a list laid out from address `origin`. */
  ghost function LiveFrom(bs: seq<Chunk>, origin: nat, n: nat, hdr: nat): set<nat>
    requires n <= |bs|
    decreases n
  {
    if n == 0 then {}
    else LiveFrom(bs, origin, n - 1, hdr) + (if bs[n - 1].inUse then {origin + Payload(bs, n - 1, hdr)} else {})
  }

  /** Payload addresses of the live allocations of a heap. */
  ghost function Live(bs: seq<Chunk>, hdr: nat): set<nat>
  {
    LiveFrom(bs, 0, |bs|, hdr)
  }

  // ---------------------------------------------------------------------------
  // Layout arithmetic

  /** Blocks before a split point keep their addresses. */
  lemma {:induction false} OffsetPrefix(a: seq<Chunk>, b: seq<Chunk>, j: nat, hdr: nat)
    requires j <= |a|
    ensures Offset(a + b, j, hdr) == Offset(a, j, hdr)
  {
    if j > 0 {
      OffsetPrefix(a, b, j - 1, hdr);
      assert (a + b)[j - 1] == a[j - 1];
    }
  }

  /** Blocks after a split point are shifted by the footprint of what precedes them. */
  lemma {:induction false} OffsetSuffix(a: seq<Chunk>, b: seq<Chunk>, j: nat, hdr: nat)
    requires j <= |b|
    ensures Offset(a + b, |a| + j, hdr) == Footprint(a, hdr) + Offset(b, j, hdr)
  {
    if j == 0 {
      OffsetPrefix(a, b, |a|, hdr);
    } else {
      OffsetSuffix(a, b, j - 1, hdr);
      assert (a + b)[|a| + j - 1] == b[j - 1];
    }
  }

  lemma FootprintAppend(a: seq<Chunk>, b: seq<Chunk>, hdr: nat)
    ensures Footprint(a + b, hdr) == Footprint(a, hdr) + Footprint(b, hdr)
  {
    OffsetSuffix(a, b, |b|, hdr);
  }

  lemma FootprintSingle(c: Chunk, hdr: nat)
    ensures Footprint([c], hdr) == hdr + c.size
  {
    assert Offset([c], 0, hdr) == 0;
  }

  lemma FootprintPair(c: Chunk, d: Chunk, hdr: nat)
    ensures Footprint([c, d], hdr) == hdr + c.size + hdr + d.size
  {
    assert Offset([c, d], 1, hdr) == hdr + c.size by {
      assert Offset([c, d], 0, hdr) == 0;
    }
  }

  /** Addresses grow along the list: block `i`'s payload ends at or before the header of every later block. */
  lemma {:induction false} PayloadBeforeLater(bs: seq<Chunk>, i: nat, j: nat, hdr: nat)
    requires i < j <= |bs|
    ensures Payload(bs, i, hdr) + bs[i].size <= Offset(bs, j, hdr)
  {
    if j > i + 1 {
      PayloadBeforeLater(bs, i, j - 1, hdr);
    }
  }

  /**
   * No overlap: the payload ranges of two different blocks are disjoint, and
   * every payload range lies inside the region the blocks span.
   */
  lemma PayloadsDisjoint(bs: seq<Chunk>, i: nat, j: nat, hdr: nat)
    requires i < |bs| && j < |bs| && i != j
    ensures Payload(bs, i, hdr) + bs[i].size <= Payload(bs, j, hdr)
         || Payload(bs, j, hdr) + bs[j].size <= Payload(bs, i, hdr)
    ensures Payload(bs, i, hdr) + bs[i].size <= Footprint(bs, hdr)
  {
    if i < j {
      PayloadBeforeLater(bs, i, j, hdr);
    } else {
      PayloadBeforeLater(bs, j, i, hdr);
    }
    PayloadBeforeLater(bs, i, |bs|, hdr);
  }

  /** Any list equals the blocks before `k`, block `k` and the blocks after it. */
  lemma SplitAround(bs: seq<Chunk>, k: nat)
    requires k < |bs|
    ensures bs == bs[..k] + [bs[k]] + bs[k + 1..]
  {
  }

  /** Replacing the middle of a list moves no block before it. */
  lemma ReplacePrefixOffset(p: seq<Chunk>, m1: seq<Chunk>, m2: seq<Chunk>, s: seq<Chunk>, hdr: nat, j: nat)
    requires j <= |p|
    ensures Offset(p + m1 + s, j, hdr) == Offset(p + m2 + s, j, hdr)
  {
    assert p + m1 + s == p + (m1 + s);
    assert p + m2 + s == p + (m2 + s);
    OffsetPrefix(p, m1 + s, j, hdr);
    OffsetPrefix(p, m2 + s, j, hdr);
  }

  /** Replacing the middle of a list by blocks of the same footprint moves no block after it. */
  lemma ReplaceSuffixOffset(p: seq<Chunk>, m1: seq<Chunk>, m2: seq<Chunk>, s: seq<Chunk>, hdr: nat, j: nat)
    requires Footprint(m1, hdr) == Footprint(m2, hdr) && j <= |s|
    ensures Offset(p + m1 + s, |p| + |m1| + j, hdr) == Offset(p + m2 + s, |p| + |m2| + j, hdr)
  {
    OffsetSuffix(p + m1, s, j, hdr);
    OffsetSuffix(p + m2, s, j, hdr);
    FootprintAppend(p, m1, hdr);
    FootprintAppend(p, m2, hdr);
  }

  /** Replacing the middle of a list by blocks of the same footprint keeps the footprint of the whole. */
  lemma ReplaceFootprint(p: seq<Chunk>, m1: seq<Chunk>, m2: seq<Chunk>, s: seq<Chunk>, hdr: nat)
    requires Footprint(m1, hdr) == Footprint(m2, hdr)
    ensures Footprint(p + m1 + s, hdr) == Footprint(p + m2 + s, hdr)
  {
    FootprintAppend(p + m1, s, hdr);
    FootprintAppend(p + m2, s, hdr);
    FootprintAppend(p, m1, hdr);
    FootprintAppend(p, m2, hdr);
  }

  // ---------------------------------------------------------------------------
  // Live allocations

  lemma {:induction false} LiveFromPrefix(a: seq<Chunk>, b: seq<Chunk>, origin: nat, n: nat, hdr: nat)
    requires n <= |a|
    ensures LiveFrom(a + b, origin, n, hdr) == LiveFrom(a, origin, n, hdr)
  {
    if n > 0 {
      LiveFromPrefix(a, b, origin, n - 1, hdr);
      OffsetPrefix(a, b, n - 1, hdr);
      assert (a + b)[n - 1] == a[n - 1];
    }
  }

  lemma {:induction false} LiveFromSuffix(a: seq<Chunk>, b: seq<Chunk>, origin: nat, j: nat, hdr: nat)
    requires j <= |b|
    ensures LiveFrom(a + b, origin, |a| + j, hdr)
         == LiveFrom(a, origin, |a|, hdr) + LiveFrom(b, origin + Footprint(a, hdr), j, hdr)
  {
    if j == 0 {
      LiveFromPrefix(a, b, origin, |a|, hdr);
    } else {
      LiveFromSuffix(a, b, origin, j - 1, hdr);
      OffsetSuffix(a, b, j - 1, hdr);
      assert (a + b)[|a| + j - 1] == b[j - 1];
    }
  }

  lemma LiveFromSingle(c: Chunk, origin: nat, hdr: nat)
    ensures LiveFrom([c], origin, 1, hdr) == if c.inUse then {origin + hdr} else {}
  {
    assert Offset([c], 0, hdr) == 0;
  }

  /** The live payloads of `p + [c] + s`, split around the block `c`. */
  lemma LiveAround(p: seq<Chunk>, c: Chunk, s: seq<Chunk>, hdr: nat)
    ensures Live(p + [c] + s, hdr)
         == LiveFrom(p, 0, |p|, hdr)
          + (if c.inUse then {Footprint(p, hdr) + hdr} else {})
          + LiveFrom(s, Footprint(p, hdr) + hdr + c.size, |s|, hdr)
  {
    var pc := p + [c];
    var fp := Footprint(p, hdr);
    assert Live(p + [c] + s, hdr) == LiveFrom(pc, 0, |pc|, hdr) + LiveFrom(s, Footprint(pc, hdr), |s|, hdr) by {
      LiveFromSuffix(pc, s, 0, |s|, hdr);
    }
    assert LiveFrom(pc, 0, |pc|, hdr) == LiveFrom(p, 0, |p|, hdr) + (if c.inUse then {fp + hdr} else {}) by {
      LiveFromSuffix(p, [c], 0, 1, hdr);
      LiveFromSingle(c, fp, hdr);
    }
    assert Footprint(pc, hdr) == fp + hdr + c.size by {
      FootprintAppend(p, [c], hdr);
      FootprintSingle(c, hdr);
    }
  }

  /** A block's address is the footprint of the blocks before it. */
  lemma OffsetIsPrefixFootprint(bs: seq<Chunk>, k: nat, hdr: nat)
    requires k <= |bs|
    ensures Offset(bs, k, hdr) == Footprint(bs[..k], hdr)
  {
    assert bs == bs[..k] + bs[k..];
    OffsetPrefix(bs[..k], bs[k..], k, hdr);
  }

  /** Two lists that agree on their first `k` blocks give those blocks the same addresses. */
  lemma OffsetSamePrefix(a: seq<Chunk>, b: seq<Chunk>, k: nat, j: nat, hdr: nat)
    requires k <= |a| && k <= |b| && a[..k] == b[..k] && j <= k
    ensures Offset(a, j, hdr) == Offset(b, j, hdr)
  {
    assert a == a[..k] + a[k..];
    assert b == b[..k] + b[k..];
    OffsetPrefix(a[..k], a[k..], j, hdr);
    OffsetPrefix(b[..k], b[k..], j, hdr);
  }

  /** The live payloads of a list, split around its block `k`. */
  lemma LiveAt(bs: seq<Chunk>, k: nat, hdr: nat)
    requires k < |bs|
    ensures Live(bs, hdr)
         == LiveFrom(bs[..k], 0, k, hdr)
          + (if bs[k].inUse then {Payload(bs, k, hdr)} else {})
          + LiveFrom(bs[k + 1..], Payload(bs, k, hdr) + bs[k].size, |bs| - k - 1, hdr)
  {
    assert Payload(bs, k, hdr) == Footprint(bs[..k], hdr) + hdr by {
      OffsetIsPrefixFootprint(bs, k, hdr);
    }
    assert Live(bs, hdr) == Live(bs[..k] + [bs[k]] + bs[k + 1..], hdr) by {
      SplitAround(bs, k);
    }
    LiveAround(bs[..k], bs[k], bs[k + 1..], hdr);
  }

  /** A free block at the front contributes nothing live; the rest is laid out after it. */
  lemma LiveFromConsFree(c: Chunk, s: seq<Chunk>, origin: nat, hdr: nat)
    requires !c.inUse
    ensures LiveFrom([c] + s, origin, 1 + |s|, hdr) == LiveFrom(s, origin + hdr + c.size, |s|, hdr)
  {
    LiveFromSuffix([c], s, origin, |s|, hdr);
    LiveFromSingle(c, origin, hdr);
    FootprintSingle(c, hdr);
  }

  /** Every live payload among the first `n` blocks lies one header past `origin` or later, within those blocks. */
  lemma {:induction false} LiveFromBounds(bs: seq<Chunk>, origin: nat, n: nat, hdr: nat, x: nat)
    requires n <= |bs| && x in LiveFrom(bs, origin, n, hdr)
    ensures origin + hdr <= x <= origin + Offset(bs, n, hdr)
  {
    if x in LiveFrom(bs, origin, n - 1, hdr) {
      LiveFromBounds(bs, origin, n - 1, hdr, x);
    }
  }

  lemma {:induction false} LiveFromWitness(bs: seq<Chunk>, origin: nat, n: nat, hdr: nat, x: nat)
    requires n <= |bs| && x in LiveFrom(bs, origin, n, hdr)
    ensures exists k :: 0 <= k < n && bs[k].inUse && x == origin + Payload(bs, k, hdr)
  {
    if x in LiveFrom(bs, origin, n - 1, hdr) {
      LiveFromWitness(bs, origin, n - 1, hdr, x);
    }
  }

  /** The payload of block `k` is live exactly when block `k` is in use. */
  lemma {:induction false} LiveFromMember(bs: seq<Chunk>, origin: nat, n: nat, hdr: nat, k: nat)
    requires hdr > 0 && k < n <= |bs|
    ensures origin + Payload(bs, k, hdr) in LiveFrom(bs, origin, n, hdr) <==> bs[k].inUse
  {
    var x := origin + Payload(bs, k, hdr);
    if k == n - 1 {
      if x in LiveFrom(bs, origin, n - 1, hdr) {
        LiveFromBounds(bs, origin, n - 1, hdr, x);
      }
    } else {
      LiveFromMember(bs, origin, n - 1, hdr, k);
      PayloadBeforeLater(bs, k, n - 1, hdr);
    }
  }

  /** A block's payload is live exactly when the block is in use. */
  lemma LiveMember(bs: seq<Chunk>, hdr: nat, k: nat)
    requires hdr > 0 && k < |bs|
    ensures Payload(bs, k, hdr) in Live(bs, hdr) <==> bs[k].inUse
  {
    LiveFromMember(bs, 0, |bs|, hdr, k);
  }

  // ---------------------------------------------------------------------------
  // First fit

  /** A block can serve a request of `req` bytes: it is free and its payload is large enough. */
  predicate Fits(c: Chunk, req: nat)
  {
    !c.inUse && c.size >= req
  }

  /** The first block at or after `from`, in list order, that can serve `req` bytes. */
  function FirstFit(bs: seq<Chunk>, req: nat, from: nat): (r: Option<nat>)
    requires from <= |bs|
    decreases |bs| - from
    ensures r.Some? ==> from <= r.value < |bs| && Fits(bs[r.value], req)
    ensures r.Some? ==> forall j :: from <= j < r.value ==> !Fits(bs[j], req)
    ensures r.None? ==> forall j :: from <= j < |bs| ==> !Fits(bs[j], req)
  {
    if from == |bs| then None
    else if Fits(bs[from], req) then Some(from)
    else FirstFit(bs, req, from + 1)
  }

  // ---------------------------------------------------------------------------
  // Taking a block: split or hand over whole

  /** Taking `c` for `req` bytes splits it when what is left exceeds one header plus `slack` bytes. */
  predicate Splits(c: Chunk, req: nat, hdr: nat, slack: nat)
  {
    c.size > req + hdr + slack
  }

  /** The blocks that replace a block `c` taken for `req` bytes. */
  function TakenPart(c: Chunk, req: nat, hdr: nat, slack: nat): seq<Chunk>
    requires Fits(c, req)
  {
    if Splits(c, req, hdr, slack) then [Chunk(req, true), Chunk(c.size - req - hdr, false)]
    else [Chunk(c.size, true)]
  }

  lemma TakenPartFootprint(c: Chunk, req: nat, hdr: nat, slack: nat)
    requires Fits(c, req)
    ensures Footprint(TakenPart(c, req, hdr, slack), hdr) == Footprint([c], hdr)
  {
    FootprintSingle(c, hdr);
    if Splits(c, req, hdr, slack) {
      FootprintPair(Chunk(req, true), Chunk(c.size - req - hdr, false), hdr);
    } else {
      FootprintSingle(Chunk(c.size, true), hdr);
    }
  }

  /** The list after block `k` is handed out for `req` bytes. */
  function TakeBlock(bs: seq<Chunk>, k: nat, req: nat, hdr: nat, slack: nat): (r: seq<Chunk>)
    requires k < |bs| && Fits(bs[k], req)
    ensures |r| == |bs| + (if Splits(bs[k], req, hdr, slack) then 1 else 0)
    ensures r[k].inUse && req <= r[k].size <= bs[k].size
  {
    bs[..k] + TakenPart(bs[k], req, hdr, slack) + bs[k + 1..]
  }

  /** Taking a block in place: relink a split-off free block (when splitting), then flag the block in use. */
  lemma TakeBlockInPlace(bs: seq<Chunk>, k: nat, req: nat, hdr: nat, slack: nat)
    requires k < |bs| && Fits(bs[k], req)
    ensures var c := bs[k];
            var linked := if Splits(c, req, hdr, slack)
                          then bs[..k] + [Chunk(req, c.inUse), Chunk(c.size - req - hdr, false)] + bs[k + 1..]
                          else bs;
            k < |linked| && TakeBlock(bs, k, req, hdr, slack) == linked[k := Chunk(linked[k].size, true)]
  {
  }

  /** The list after a first-fit allocation of `req` bytes (unchanged when nothing fits). */
  function AllocBlocks(bs: seq<Chunk>, req: nat, hdr: nat, slack: nat): (r: seq<Chunk>)
    ensures |bs| <= |r| <= |bs| + 1
  {
    match FirstFit(bs, req, 0)
    case None => bs
    case Some(k) => TakeBlock(bs, k, req, hdr, slack)
  }

  /** The pointer a first-fit allocation of `req` bytes returns: the payload of the chosen block, or NULL. */
  function AllocAddr(bs: seq<Chunk>, req: nat, hdr: nat): (r: Option<nat>)
    ensures r.Some? ==> r.value >= hdr
  {
    match FirstFit(bs, req, 0)
    case None => None
    case Some(k) => Some(Payload(bs, k, hdr))
  }

  /** When block `i` is the first that fits, the allocation takes it and returns its payload. */
  lemma AllocAtFit(bs: seq<Chunk>, i: nat, req: nat, hdr: nat, slack: nat)
    requires i < |bs| && Fits(bs[i], req) && FirstFit(bs, req, i) == FirstFit(bs, req, 0)
    ensures AllocBlocks(bs, req, hdr, slack) == TakeBlock(bs, i, req, hdr, slack)
    ensures AllocAddr(bs, req, hdr) == Some(Offset(bs, i, hdr) + hdr)
  {
  }

  /**
   * First fit: the allocation fails exactly when no block is free and large
   * enough, and then changes nothing; otherwise it returns the payload of the
   * first such block in list order.
   */
  lemma AllocIsFirstFit(bs: seq<Chunk>, req: nat, hdr: nat, slack: nat)
    ensures AllocAddr(bs, req, hdr).None? <==> forall j :: 0 <= j < |bs| ==> !Fits(bs[j], req)
    ensures AllocAddr(bs, req, hdr).None? ==> AllocBlocks(bs, req, hdr, slack) == bs
    ensures AllocAddr(bs, req, hdr).Some? ==>
              exists k :: 0 <= k < |bs| && Fits(bs[k], req)
                          && (forall j :: 0 <= j < k ==> !Fits(bs[j], req))
                          && AllocAddr(bs, req, hdr) == Some(Payload(bs, k, hdr))
                          && AllocBlocks(bs, req, hdr, slack) == TakeBlock(bs, k, req, hdr, slack)
  {
    match FirstFit(bs, req, 0)
    case None =>
    case Some(k) =>
      assert AllocAddr(bs, req, hdr) == Some(Payload(bs, k, hdr));
  }

  /** Conservation: taking a block, with or without a split, changes no byte count of the region. */
  lemma TakeBlockConserves(bs: seq<Chunk>, k: nat, req: nat, hdr: nat, slack: nat)
    requires k < |bs| && Fits(bs[k], req)
    ensures Footprint(TakeBlock(bs, k, req, hdr, slack), hdr) == Footprint(bs, hdr)
  {
    SplitAround(bs, k);
    TakenPartFootprint(bs[k], req, hdr, slack);
    ReplaceFootprint(bs[..k], TakenPart(bs[k], req, hdr, slack), [bs[k]], bs[k + 1..], hdr);
  }

  /**
   * The shape of the list after taking block `k`: the taken block is in use
   * and, after a split, has exactly the requested size, followed by a free
   * block of the leftover size, larger than `slack` bytes; the blocks before
   * and after are the old ones.
   */
  lemma TakeBlockShape(bs: seq<Chunk>, k: nat, req: nat, hdr: nat, slack: nat)
    requires k < |bs| && Fits(bs[k], req)
    ensures var r := TakeBlock(bs, k, req, hdr, slack);
            var d := if Splits(bs[k], req, hdr, slack) then 1 else 0;
            && |r| == |bs| + d
            && r[..k] == bs[..k]
            && r[k] == Chunk(if d == 1 then req else bs[k].size, true)
            && (d == 1 ==> r[k + 1] == Chunk(bs[k].size - req - hdr, false) && r[k + 1].size > slack)
            && r[k + 1 + d..] == bs[k + 1..]
  {
  }

  /** Taking block `k` moves no block up to and including `k`. */
  lemma TakeBlockOffsetsBefore(bs: seq<Chunk>, k: nat, req: nat, hdr: nat, slack: nat, j: nat)
    requires k < |bs| && Fits(bs[k], req) && j <= k
    ensures Offset(TakeBlock(bs, k, req, hdr, slack), j, hdr) == Offset(bs, j, hdr)
  {
    var p, s, c := bs[..k], bs[k + 1..], bs[k];
    assert bs == p + [c] + s by {
      SplitAround(bs, k);
    }
    ReplacePrefixOffset(p, TakenPart(c, req, hdr, slack), [c], s, hdr, j);
  }

  /**
   * Taking block `k` moves no block after it: the old block `j` is found at
   * position `j + 1` after a split and at `j` otherwise, at the same address.
   */
  lemma TakeBlockOffsetsAfter(bs: seq<Chunk>, k: nat, req: nat, hdr: nat, slack: nat, j: nat)
    requires k < |bs| && Fits(bs[k], req) && k < j <= |bs|
    ensures var d := if Splits(bs[k], req, hdr, slack) then 1 else 0;
            Offset(TakeBlock(bs, k, req, hdr, slack), j + d, hdr) == Offset(bs, j, hdr)
  {
    var p, s, c := bs[..k], bs[k + 1..], bs[k];
    var m := TakenPart(c, req, hdr, slack);
    assert bs == p + [c] + s by {
      SplitAround(bs, k);
    }
    assert Footprint(m, hdr) == Footprint([c], hdr) by {
      TakenPartFootprint(c, req, hdr, slack);
    }
    ReplaceSuffixOffset(p, m, [c], s, hdr, j - k - 1);
  }

  /** Header/payload adjacency: after a split, the new free block's header starts right after the `req` allocated bytes. */
  lemma TakeBlockSplitOffset(bs: seq<Chunk>, k: nat, req: nat, hdr: nat, slack: nat)
    requires k < |bs| && Fits(bs[k], req) && Splits(bs[k], req, hdr, slack)
    ensures Offset(TakeBlock(bs, k, req, hdr, slack), k + 1, hdr) == Payload(bs, k, hdr) + req
  {
    var r := TakeBlock(bs, k, req, hdr, slack);
    TakeBlockOffsetsBefore(bs, k, req, hdr, slack, k);
    assert r[k] == Chunk(req, true);
  }

  /** The taken block's payload was not live before and is the one pointer that joins the live set. */
  lemma TakeBlockLive(bs: seq<Chunk>, k: nat, req: nat, hdr: nat, slack: nat)
    requires hdr > 0
    requires k < |bs| && Fits(bs[k], req)
    ensures Payload(bs, k, hdr) !in Live(bs, hdr)
    ensures Live(TakeBlock(bs, k, req, hdr, slack), hdr) == Live(bs, hdr) + {Payload(bs, k, hdr)}
  {
    var r := TakeBlock(bs, k, req, hdr, slack);
    var x := Payload(bs, k, hdr);
    LiveMember(bs, hdr, k);
    assert r[..k] == bs[..k];
    assert Payload(r, k, hdr) == x by {
      TakeBlockOffsetsBefore(bs, k, req, hdr, slack, k);
    }
    LiveAt(bs, k, hdr);
    LiveAt(r, k, hdr);
    if Splits(bs[k], req, hdr, slack) {
      var b := Chunk(bs[k].size - req - hdr, false);
      assert r[k + 1..] == [b] + bs[k + 1..];
      LiveFromConsFree(b, bs[k + 1..], x + req, hdr);
    } else {
      assert r[k + 1..] == bs[k + 1..];
    }
  }

  /**
   * An allocation keeps every byte count; a successful one returns a pointer
   * that was not live and is live afterwards, and nothing else changes in the
   * live set; a failed one changes nothing.
   */
  lemma AllocEffect(bs: seq<Chunk>, req: nat, hdr: nat, slack: nat)
    requires hdr > 0
    ensures Footprint(AllocBlocks(bs, req, hdr, slack), hdr) == Footprint(bs, hdr)
    ensures AllocAddr(bs, req, hdr).None? ==> AllocBlocks(bs, req, hdr, slack) == bs
    ensures AllocAddr(bs, req, hdr).Some? ==>
              && AllocAddr(bs, req, hdr).value !in Live(bs, hdr)
              && Live(AllocBlocks(bs, req, hdr, slack), hdr) == Live(bs, hdr) + {AllocAddr(bs, req, hdr).value}
  {
    match FirstFit(bs, req, 0)
    case None =>
    case Some(k) =>
      TakeBlockConserves(bs, k, req, hdr, slack);
      TakeBlockLive(bs, k, req, hdr, slack);
  }

  // ---------------------------------------------------------------------------
  // Releasing and coalescing

  /** The list after block `k` is marked free, sizes and links untouched. */
  function Release(bs: seq<Chunk>, k: nat): (r: seq<Chunk>)
    requires k < |bs|
    ensures |r| == |bs| && !r[k].inUse && r[k].size == bs[k].size
    ensures forall j :: 0 <= j < |bs| && j != k ==> r[j] == bs[j]
  {
    bs[k := Chunk(bs[k].size, false)]
  }

  /** Releasing a block keeps every byte count and every address. */
  lemma ReleaseKeepsLayout(bs: seq<Chunk>, k: nat, hdr: nat)
    requires k < |bs|
    ensures Footprint(Release(bs, k), hdr) == Footprint(bs, hdr)
    ensures forall j :: 0 <= j <= |bs| ==> Offset(Release(bs, k), j, hdr) == Offset(bs, j, hdr)
  {
    var p, s, c := bs[..k], bs[k + 1..], Chunk(bs[k].size, false);
    var r := Release(bs, k);
    SplitAround(bs, k);
    assert r == p + [c] + s;
    FootprintSingle(c, hdr);
    FootprintSingle(bs[k], hdr);
    forall j | 0 <= j <= |bs|
      ensures Offset(r, j, hdr) == Offset(bs, j, hdr)
    {
      if j <= k {
        ReplacePrefixOffset(p, [c], [bs[k]], s, hdr, j);
      } else {
        ReplaceSuffixOffset(p, [c], [bs[k]], s, hdr, j - k - 1);
      }
    }
    assert Offset(r, |bs|, hdr) == Offset(bs, |bs|, hdr);
  }

  /** Releasing block `k` removes exactly its payload from the live set. */
  lemma ReleaseLive(bs: seq<Chunk>, k: nat, hdr: nat)
    requires hdr > 0 && k < |bs|
    ensures Live(Release(bs, k), hdr) == Live(bs, hdr) - {Payload(bs, k, hdr)}
  {
    var r := Release(bs, k);
    var x := Payload(bs, k, hdr);
    assert r[..k] == bs[..k] && r[k + 1..] == bs[k + 1..];
    assert Payload(r, k, hdr) == x by {
      ReleaseKeepsLayout(bs, k, hdr);
    }
    LiveAt(bs, k, hdr);
    LiveAt(r, k, hdr);
    if x in LiveFrom(bs[..k], 0, k, hdr) {
      LiveFromBounds(bs[..k], 0, k, hdr, x);
      OffsetIsPrefixFootprint(bs, k, hdr);
    }
    if x in LiveFrom(bs[k + 1..], x + bs[k].size, |bs| - k - 1, hdr) {
      LiveFromBounds(bs[k + 1..], x + bs[k].size, |bs| - k - 1, hdr, x);
    }
  }

  /** The list after block `k` absorbs its successor: `size += hdr + next.size`, `next = next.next`. */
  function MergeNext(bs: seq<Chunk>, k: nat, hdr: nat): (r: seq<Chunk>)
    requires k + 1 < |bs|
    ensures |r| == |bs| - 1 && r[..k] == bs[..k] && r[k + 1..] == bs[k + 2..]
    ensures r[k].inUse == bs[k].inUse && r[k].size == bs[k].size + hdr + bs[k + 1].size
  {
    bs[..k] + [Chunk(bs[k].size + hdr + bs[k + 1].size, bs[k].inUse)] + bs[k + 2..]
  }

  /** The list after block `k` absorbs every consecutive free successor. */
  function Coalesce(bs: seq<Chunk>, k: nat, hdr: nat): (r: seq<Chunk>)
    requires k < |bs|
    decreases |bs|
    ensures k < |r| <= |bs| && r[..k] == bs[..k] && r[k].inUse == bs[k].inUse && r[k].size >= bs[k].size
    ensures k + 1 < |r| ==> r[k + 1].inUse
  {
    if k + 1 < |bs| && !bs[k + 1].inUse then Coalesce(MergeNext(bs, k, hdr), k, hdr) else bs
  }

  /** The first index at or after `j` that is the end of the list or an in-use block. */
  function RunEnd(bs: seq<Chunk>, j: nat): (e: nat)
    requires j <= |bs|
    decreases |bs| - j
    ensures j <= e <= |bs|
  {
    if j == |bs| || bs[j].inUse then j else RunEnd(bs, j + 1)
  }

  /** The run from `j` to `RunEnd(bs, j)` is all free, and it stops at an in-use block or at the end. */
  lemma {:induction false} RunEndStops(bs: seq<Chunk>, j: nat)
    requires j <= |bs|
    decreases |bs| - j
    ensures forall m :: j <= m < RunEnd(bs, j) ==> !bs[m].inUse
    ensures RunEnd(bs, j) < |bs| ==> bs[RunEnd(bs, j)].inUse
  {
    if j < |bs| && !bs[j].inUse {
      RunEndStops(bs, j + 1);
    }
  }

  lemma {:induction false} RunEndSuffix(a: seq<Chunk>, i: nat, b: seq<Chunk>, j: nat)
    requires i <= |a| && j <= |b| && a[i..] == b[j..]
    decreases |a| - i
    ensures RunEnd(a, i) - i == RunEnd(b, j) - j
  {
    assert |a| - i == |b| - j;
    if i < |a| {
      assert a[i] == a[i..][0] == b[j..][0] == b[j];
      if !a[i].inUse {
        assert a[i + 1..] == a[i..][1..] == b[j..][1..] == b[j + 1..];
        RunEndSuffix(a, i + 1, b, j + 1);
      }
    }
  }

  /** One merge step neither moves block `k` nor changes the bytes the list spans. */
  lemma MergeNextLayout(bs: seq<Chunk>, k: nat, hdr: nat)
    requires k + 1 < |bs|
    ensures Footprint(MergeNext(bs, k, hdr), hdr) == Footprint(bs, hdr)
    ensures Payload(MergeNext(bs, k, hdr), k, hdr) == Payload(bs, k, hdr)
  {
    var p, s := bs[..k], bs[k + 2..];
    var c, d := bs[k], bs[k + 1];
    var m := Chunk(c.size + hdr + d.size, c.inUse);
    assert bs == p + [c, d] + s by {
      assert bs == p + [c] + ([d] + s);
    }
    FootprintSingle(m, hdr);
    FootprintPair(c, d, hdr);
    ReplaceFootprint(p, [m], [c, d], s, hdr);
    ReplacePrefixOffset(p, [m], [c, d], s, hdr, k);
  }

  /** One merge step keeps every byte count and the live set (the absorbed block is free). */
  lemma MergeNextKeeps(bs: seq<Chunk>, k: nat, hdr: nat)
    requires k + 1 < |bs| && !bs[k + 1].inUse
    ensures Footprint(MergeNext(bs, k, hdr), hdr) == Footprint(bs, hdr)
    ensures Live(MergeNext(bs, k, hdr), hdr) == Live(bs, hdr)
  {
    var r := MergeNext(bs, k, hdr);
    MergeNextLayout(bs, k, hdr);
    var p, s := bs[..k], bs[k + 2..];
    var c, d := bs[k], bs[k + 1];
    var x := Payload(bs, k, hdr);
    var before := LiveFrom(p, 0, k, hdr);
    var here: set<nat> := if c.inUse then {x} else {};
    var after := LiveFrom(s, x + c.size + hdr + d.size, |s|, hdr);
    assert Live(bs, hdr) == before + here + after by {
      LiveAt(bs, k, hdr);
      assert bs[k + 1..] == [d] + s;
      LiveFromConsFree(d, s, x + c.size, hdr);
    }
    assert Live(r, hdr) == before + here + after by {
      LiveAt(r, k, hdr);
      assert r[..k] == p && r[k + 1..] == s;
    }
  }

  /** Coalescing keeps every byte count and the live set. */
  lemma {:induction false} CoalesceKeeps(bs: seq<Chunk>, k: nat, hdr: nat)
    requires k < |bs|
    decreases |bs|
    ensures |Coalesce(bs, k, hdr)| > k
    ensures Footprint(Coalesce(bs, k, hdr), hdr) == Footprint(bs, hdr)
    ensures Live(Coalesce(bs, k, hdr), hdr) == Live(bs, hdr)
  {
    if k + 1 < |bs| && !bs[k + 1].inUse {
      MergeNextKeeps(bs, k, hdr);
      CoalesceKeeps(MergeNext(bs, k, hdr), k, hdr);
    }
  }

  /** The list after block `k` has absorbed the blocks `k + 1 .. e - 1`, one header plus the payload of each. */
  function Absorb(bs: seq<Chunk>, k: nat, e: nat, hdr: nat): seq<Chunk>
    requires k < e <= |bs|
  {
    bs[..k] + [Chunk(bs[k].size + Footprint(bs[k + 1..e], hdr), bs[k].inUse)] + bs[e..]
  }

  /** One merge step shortens the free run after block `k` by one block and moves its bytes into block `k`. */
  lemma MergeNextRun(bs: seq<Chunk>, k: nat, hdr: nat)
    requires k + 1 < |bs| && !bs[k + 1].inUse
    ensures RunEnd(MergeNext(bs, k, hdr), k + 1) + 1 == RunEnd(bs, k + 1)
    ensures Absorb(MergeNext(bs, k, hdr), k, RunEnd(MergeNext(bs, k, hdr), k + 1), hdr)
         == Absorb(bs, k, RunEnd(bs, k + 1), hdr)
  {
    var r := MergeNext(bs, k, hdr);
    var e := RunEnd(bs, k + 1);
    var d := bs[k + 1];
    assert e == RunEnd(bs, k + 2);
    assert r[k + 1..] == bs[k + 2..];
    RunEndSuffix(r, k + 1, bs, k + 2);
    var e' := RunEnd(r, k + 1);
    assert r[..k] == bs[..k];
    assert r[k + 1..e'] == bs[k + 2..e];
    assert r[e'..] == bs[e..];
    assert Footprint(bs[k + 1..e], hdr) == hdr + d.size + Footprint(bs[k + 2..e], hdr) by {
      assert bs[k + 1..e] == [d] + bs[k + 2..e];
      FootprintAppend([d], bs[k + 2..e], hdr);
      FootprintSingle(d, hdr);
    }
  }

  /**
   * Forward-only coalescing: block `k` absorbs exactly the run of free blocks
   * that follows it, up to the first in-use block or the end of the list,
   * gaining one header plus the payload of each; the blocks before `k` and
   * those after the run are untouched.
   */
  lemma {:induction false} CoalesceShape(bs: seq<Chunk>, k: nat, hdr: nat)
    requires k < |bs|
    decreases |bs|
    ensures Coalesce(bs, k, hdr) == Absorb(bs, k, RunEnd(bs, k + 1), hdr)
  {
    if k + 1 < |bs| && !bs[k + 1].inUse {
      MergeNextRun(bs, k, hdr);
      CoalesceShape(MergeNext(bs, k, hdr), k, hdr);
    } else {
      CoalesceNoRun(bs, k, hdr);
    }
  }

  /** With no free block right after block `k`, coalescing changes nothing. */
  lemma CoalesceNoRun(bs: seq<Chunk>, k: nat, hdr: nat)
    requires k < |bs| && !(k + 1 < |bs| && !bs[k + 1].inUse)
    ensures RunEnd(bs, k + 1) == k + 1
    ensures Absorb(bs, k, k + 1, hdr) == bs
  {
    assert bs[k + 1..k + 1] == [];
    SplitAround(bs, k);
  }

  // ---------------------------------------------------------------------------
  // From a payload pointer back to its block

  /** The list position, at or after `i`, of the block whose header is at `addr`, if one is. */
  function HeaderFrom(bs: seq<Chunk>, hdr: nat, addr: nat, i: nat): (r: Option<nat>)
    requires i <= |bs|
    decreases |bs| - i
    ensures r.Some? ==> i <= r.value < |bs| && Offset(bs, r.value, hdr) == addr
  {
    if i == |bs| then None
    else if Offset(bs, i, hdr) == addr then Some(i)
    else HeaderFrom(bs, hdr, addr, i + 1)
  }

  /** `addr` is the payload pointer of some block: one header past a block's header. */
  predicate IsPayload(bs: seq<Chunk>, hdr: nat, addr: nat)
  {
    addr >= hdr && HeaderFrom(bs, hdr, addr - hdr, 0).Some?
  }

  /** The block a payload pointer belongs to, found by stepping back one header. */
  function BlockOf(bs: seq<Chunk>, hdr: nat, addr: nat): (k: nat)
    requires IsPayload(bs, hdr, addr)
    ensures k < |bs| && Payload(bs, k, hdr) == addr
  {
    HeaderFrom(bs, hdr, addr - hdr, 0).value
  }

  lemma {:induction false} HeaderFromFinds(bs: seq<Chunk>, hdr: nat, k: nat, i: nat)
    requires hdr > 0 && i <= k < |bs|
    decreases k - i
    ensures HeaderFrom(bs, hdr, Offset(bs, k, hdr), i) == Some(k)
  {
    if i < k {
      PayloadBeforeLater(bs, i, k, hdr);
      HeaderFromFinds(bs, hdr, k, i + 1);
    }
  }

  /** Round trip: the payload pointer of block `k`, stepped back one header, is block `k` again. */
  lemma PayloadRoundTrip(bs: seq<Chunk>, hdr: nat, k: nat)
    requires hdr > 0 && k < |bs|
    ensures IsPayload(bs, hdr, Payload(bs, k, hdr))
    ensures BlockOf(bs, hdr, Payload(bs, k, hdr)) == k
  {
    HeaderFromFinds(bs, hdr, k, 0);
  }

  /** Every live allocation is the payload pointer of an in-use block. */
  lemma LiveIsPayload(bs: seq<Chunk>, hdr: nat, x: nat)
    requires hdr > 0 && x in Live(bs, hdr)
    ensures IsPayload(bs, hdr, x) && bs[BlockOf(bs, hdr, x)].inUse
  {
    LiveFromWitness(bs, 0, |bs|, hdr, x);
    var k :| 0 <= k < |bs| && bs[k].inUse && x == Payload(bs, k, hdr);
    PayloadRoundTrip(bs, hdr, k);
  }
}
