/** The block list of the two heap allocators as a value: blocks in list order, each a header
    followed by its payload. Splitting, merging, first fit, and what they keep. */
module BlockList {

  const HEADER := 40
  const ALIGN := 8
  const MIN_SPLIT := HEADER + ALIGN
  const WORD := 0x1_0000_0000_0000_0000

  /** Sizes and addresses of the machine. */
  type size_t = x: int | 0 <= x < WORD

  datatype Block = Block(addr: int, size: int, free: bool)

  function End(b: Block): int { b.addr + HEADER + b.size }

  /** Rounding up to the alignment, in 64-bit arithmetic. */
  function AlignUp(n: nat): (r: nat)
    ensures r % ALIGN == 0
    ensures n <= WORD - ALIGN ==> n <= r < n + ALIGN
    ensures WORD - ALIGN < n < WORD ==> r == 0
  {
    (n + (ALIGN - 1)) % WORD / ALIGN * ALIGN
  }

  /** The blocks cover [lo, hi) in address order without gap or overlap, at aligned addresses. */
  ghost predicate Tiles(bs: seq<Block>, lo: int, hi: int) {
    && |bs| > 0 && bs[0].addr == lo && End(bs[|bs| - 1]) == hi
    && (forall i :: 0 <= i < |bs| - 1 ==> bs[i + 1].addr == End(bs[i]))
    && (forall i :: 0 <= i < |bs| ==> bs[i].size >= 0 && Aligned(bs[i]))
  }

  predicate Aligned(b: Block) { b.size % ALIGN == 0 && b.addr % ALIGN == 0 }

  lemma {:induction false} Ordered(bs: seq<Block>, lo: int, hi: int, i: int, j: int)
    requires Tiles(bs, lo, hi) && 0 <= i < j < |bs|
    ensures lo <= bs[i].addr && End(bs[i]) <= bs[j].addr && End(bs[j]) <= hi
    decreases j - i, |bs| - j
  {
    if i + 1 < j { Ordered(bs, lo, hi, i, j - 1); }
    Within(bs, lo, hi, i);
    Within(bs, lo, hi, j);
  }

  lemma {:induction false} Within(bs: seq<Block>, lo: int, hi: int, i: int)
    requires Tiles(bs, lo, hi) && 0 <= i < |bs|
    ensures lo <= bs[i].addr && bs[i].addr + HEADER <= End(bs[i]) <= hi
  {
    Above(bs, lo, hi, i);
    Below(bs, lo, hi, i);
  }

  lemma {:induction false} Above(bs: seq<Block>, lo: int, hi: int, i: int)
    requires Tiles(bs, lo, hi) && 0 <= i < |bs|
    ensures lo <= bs[i].addr
  {
    if i > 0 { Above(bs, lo, hi, i - 1); }
  }

  lemma {:induction false} Below(bs: seq<Block>, lo: int, hi: int, i: int)
    requires Tiles(bs, lo, hi) && 0 <= i < |bs|
    ensures End(bs[i]) <= hi
    decreases |bs| - i
  {
    if i < |bs| - 1 { Below(bs, lo, hi, i + 1); }
  }

  // ---------------------------------------------------------------------
  // Operations
  // ---------------------------------------------------------------------

  function Splits(b: Block, req: int): bool { b.size >= req + MIN_SPLIT }

  function Rest(b: Block, req: int): Block { Block(b.addr + HEADER + req, b.size - req - HEADER, true) }

  /** Cuts block i down to req bytes if the rest can hold a block. */
  function Split(bs: seq<Block>, i: int, req: int): seq<Block>
    requires 0 <= i < |bs|
  {
    if Splits(bs[i], req) then bs[..i] + [bs[i].(size := req), Rest(bs[i], req)] + bs[i + 1..] else bs
  }

  /** Block i absorbs its successor. */
  function Merge(bs: seq<Block>, i: int): seq<Block>
    requires 0 <= i < |bs| - 1
  {
    bs[..i] + [bs[i].(size := bs[i].size + HEADER + bs[i + 1].size)] + bs[i + 2..]
  }

  function MergeNext(bs: seq<Block>, i: int): seq<Block>
    requires 0 <= i < |bs|
  {
    if i < |bs| - 1 && bs[i + 1].free then Merge(bs, i) else bs
  }

  function MergePrev(bs: seq<Block>, i: int): seq<Block>
    requires 0 <= i < |bs|
  {
    if i > 0 && bs[i - 1].free then Merge(bs, i - 1) else bs
  }

  function Coalesce(bs: seq<Block>, i: int): seq<Block>
    requires 0 <= i < |bs|
  {
    MergePrev(MergeNext(bs, i), i)
  }

  function Mark(bs: seq<Block>, i: int, free: bool): seq<Block>
    requires 0 <= i < |bs|
  {
    bs[i := bs[i].(free := free)]
  }

  /** Index of the first free block of at least n bytes, or |bs|. */
  function FirstFit(bs: seq<Block>, n: int): (i: nat)
    ensures i <= |bs|
    ensures i < |bs| ==> bs[i].free && bs[i].size >= n
    ensures forall j :: 0 <= j < i ==> !(bs[j].free && bs[j].size >= n)
  {
    if bs == [] || (bs[0].free && bs[0].size >= n) then 0 else 1 + FirstFit(bs[1..], n)
  }

  function Allocate(bs: seq<Block>, i: int, req: int): seq<Block>
    requires 0 <= i < |bs|
  {
    Mark(Split(bs, i, req), i, false)
  }

  function Release(bs: seq<Block>, i: int): seq<Block>
    requires 0 <= i < |bs|
  {
    Coalesce(Mark(bs, i, true), i)
  }

  // ---------------------------------------------------------------------
  // Tiling
  // ---------------------------------------------------------------------

  lemma SplitAligned(b: Block, req: int)
    requires Aligned(b) && req % ALIGN == 0
    ensures Aligned(b.(size := req)) && Aligned(Rest(b, req))
  {}

  lemma SpanAligned(b: Block, c: Block)
    requires Aligned(b) && Aligned(c)
    ensures Aligned(b.(size := End(c) - b.addr - HEADER))
  {}

  lemma SplitTiles(bs: seq<Block>, lo: int, hi: int, i: int, req: int)
    requires Tiles(bs, lo, hi) && 0 <= i < |bs| && 0 <= req && req % ALIGN == 0
    ensures Tiles(Split(bs, i, req), lo, hi)
  {
    hide Aligned;
    var bs' := Split(bs, i, req);
    if Splits(bs[i], req) {
      SplitAligned(bs[i], req);
      assert forall k :: 0 <= k < i ==> bs'[k] == bs[k];
      assert forall k :: i + 2 <= k < |bs'| ==> bs'[k] == bs[k - 1];
    }
  }

  lemma JoinTiles(bs: seq<Block>, lo: int, hi: int, i: int, j: int)
    requires Tiles(bs, lo, hi) && 0 <= i <= j < |bs|
    ensures Tiles(Join(bs, i, j), lo, hi)
  {
    hide Aligned;
    var bs' := Join(bs, i, j);
    SpanAligned(bs[i], bs[j]);
    if i < j { Ordered(bs, lo, hi, i, j); }
    assert forall k :: 0 <= k < i ==> bs'[k] == bs[k];
    assert forall k :: i + 1 <= k < |bs'| ==> bs'[k] == bs[k + (j - i)];
  }

  lemma MergeTiles(bs: seq<Block>, lo: int, hi: int, i: int)
    requires Tiles(bs, lo, hi) && 0 <= i < |bs| - 1
    ensures Tiles(Merge(bs, i), lo, hi)
  {
    JoinTiles(bs, lo, hi, i, i + 1);
    JoinIsMerge(bs, lo, hi, i);
  }

  lemma MarkTiles(bs: seq<Block>, lo: int, hi: int, i: int, free: bool)
    requires Tiles(bs, lo, hi) && 0 <= i < |bs|
    ensures Tiles(Mark(bs, i, free), lo, hi)
  {}

  lemma AllocateTiles(bs: seq<Block>, lo: int, hi: int, i: int, req: int)
    requires Tiles(bs, lo, hi) && 0 <= i < |bs| && 0 <= req && req % ALIGN == 0
    ensures Tiles(Allocate(bs, i, req), lo, hi)
  {
    SplitTiles(bs, lo, hi, i, req);
    MarkTiles(Split(bs, i, req), lo, hi, i, false);
  }

  lemma ReleaseTiles(bs: seq<Block>, lo: int, hi: int, i: int)
    requires Tiles(bs, lo, hi) && 0 <= i < |bs|
    ensures Tiles(Release(bs, i), lo, hi)
  {
    hide Tiles;
    MarkTiles(bs, lo, hi, i, true);
    var b1 := Mark(bs, i, true);
    if i < |b1| - 1 { MergeTiles(b1, lo, hi, i); }
    var b2 := MergeNext(b1, i);
    if i > 0 { MergeTiles(b2, lo, hi, i - 1); }
  }

  // ---------------------------------------------------------------------
  // Full coalescing
  // ---------------------------------------------------------------------

  ghost predicate Coalesced(bs: seq<Block>) {
    forall i, j :: 0 <= i < j < |bs| && j == i + 1 ==> !(bs[i].free && bs[j].free)
  }

  lemma AllocateCoalesced(bs: seq<Block>, i: int, req: int)
    requires Coalesced(bs) && 0 <= i < |bs| && bs[i].free
    ensures Coalesced(Allocate(bs, i, req))
  {}

  lemma ReleaseCoalesced(bs: seq<Block>, i: int)
    requires Coalesced(bs) && 0 <= i < |bs| && !bs[i].free
    ensures Coalesced(Release(bs, i))
  {}

  /** Allocating and freeing the result restores the identical block list. */
  lemma AllocateReleaseIdentity(bs: seq<Block>, i: int, req: int)
    requires Coalesced(bs) && 0 <= i < |bs| && bs[i].free
    ensures Release(Allocate(bs, i, req), i) == bs
  {
    hide Merge, Coalesced;
    NeighboursLive(bs, i);
    var m := Mark(Allocate(bs, i, req), i, true);
    if Splits(bs[i], req) {
      SplitMerge(bs, i, req);
      assert m == Split(bs, i, req);
    } else {
      assert m == bs;
    }
  }

  lemma NeighboursLive(bs: seq<Block>, i: int)
    requires Coalesced(bs) && 0 <= i < |bs| && bs[i].free
    ensures (i > 0 ==> !bs[i - 1].free) && (i < |bs| - 1 ==> !bs[i + 1].free)
  {}

  lemma SplitMerge(bs: seq<Block>, i: int, req: int)
    requires 0 <= i < |bs| && Splits(bs[i], req)
    ensures Merge(Split(bs, i, req), i) == bs
  {
    var s := Split(bs, i, req);
    assert s[..i] == bs[..i] && s[i + 2..] == bs[i + 1..];
  }

  lemma TwoFree(bs: seq<Block>)
    requires |bs| > 1 && forall i :: 0 <= i < |bs| ==> bs[i].free
    ensures !Coalesced(bs)
  {
    assert bs[0].free && bs[1].free;
  }

  /** A tiled and coalesced heap without live blocks is the initial single block. */
  lemma AllFreeIsInitial(bs: seq<Block>, lo: int, hi: int)
    requires Tiles(bs, lo, hi) && Coalesced(bs) && forall i :: 0 <= i < |bs| ==> bs[i].free
    ensures bs == [Block(lo, hi - lo - HEADER, true)]
  {
    if |bs| > 1 { TwoFree(bs); }
  }

  // ---------------------------------------------------------------------
  // Live blocks
  // ---------------------------------------------------------------------

  function Live(bs: seq<Block>): set<Block> { set b | b in bs && !b.free }

  /** The payloads of two blocks of a tiled heap do not overlap, nor do payloads and headers. */
  lemma PayloadsDisjoint(bs: seq<Block>, lo: int, hi: int, i: int, j: int)
    requires Tiles(bs, lo, hi) && 0 <= i < |bs| && 0 <= j < |bs| && i != j
    ensures End(bs[i]) <= bs[j].addr || End(bs[j]) <= bs[i].addr
  {
    if i < j { Ordered(bs, lo, hi, i, j); } else { Ordered(bs, lo, hi, j, i); }
  }

  /** Merging a free block into a free one, or marking, changes no other live block. */
  lemma MergeLive(bs: seq<Block>, i: int)
    requires 0 <= i < |bs| - 1 && bs[i].free && bs[i + 1].free
    ensures Live(Merge(bs, i)) == Live(bs)
  {
    var bs' := Merge(bs, i);
    forall b | b in bs && !b.free ensures b in bs' {
      var k :| 0 <= k < |bs| && bs[k] == b;
      assert bs'[if k < i then k else k - 1] == b;
    }
    forall b | b in bs' && !b.free ensures b in bs {
      var k :| 0 <= k < |bs'| && bs'[k] == b;
      assert bs[if k < i then k else k + 1] == b;
    }
  }

  /** Freeing takes exactly one block out of the live ones. */
  lemma ReleaseLive(bs: seq<Block>, lo: int, hi: int, i: int)
    requires Tiles(bs, lo, hi) && 0 <= i < |bs| && !bs[i].free
    ensures Live(Release(bs, i)) == Live(bs) - {bs[i]}
  {
    var b1 := Mark(bs, i, true);
    forall k | 0 <= k < |bs| && k != i ensures bs[k] != bs[i] { PayloadsDisjoint(bs, lo, hi, i, k); }
    forall b | b in Live(bs) && b != bs[i] ensures b in b1 {
      var k :| 0 <= k < |bs| && bs[k] == b;
      assert b1[k] == b;
    }
    assert Live(b1) == Live(bs) - {bs[i]};
    if i < |b1| - 1 && b1[i + 1].free { MergeLive(b1, i); }
    var b2 := MergeNext(b1, i);
    if i > 0 && b2[i - 1].free { MergeLive(b2, i - 1); }
  }

  /** Allocating adds exactly one live block, of at least the requested size, where the first
      fitting free block was. */
  lemma AllocateLive(bs: seq<Block>, i: int, req: int)
    requires 0 <= i < |bs| && bs[i].free && bs[i].size >= req >= 0
    ensures i < |Allocate(bs, i, req)| && Live(Allocate(bs, i, req)) == Live(bs) + {Allocate(bs, i, req)[i]}
    ensures Allocate(bs, i, req)[i].addr == bs[i].addr && req <= Allocate(bs, i, req)[i].size < req + MIN_SPLIT
  {
    var bs' := Allocate(bs, i, req);
    var d := |bs'| - |bs|;
    forall b | b in Live(bs) ensures b in bs' {
      var k :| 0 <= k < |bs| && bs[k] == b;
      assert bs'[if k < i then k else k + d] == b;
    }
    forall b | b in Live(bs') && b != bs'[i] ensures b in bs {
      var k :| 0 <= k < |bs'| && bs'[k] == b;
      assert bs[if k < i then k else k - d] == b;
    }
  }

  /** Index of the block at an address. */
  function IndexOf(bs: seq<Block>, a: int): (i: nat)
    ensures i <= |bs| && (i < |bs| ==> bs[i].addr == a)
    ensures forall j :: 0 <= j < i ==> bs[j].addr != a
  {
    if bs == [] || bs[0].addr == a then 0 else 1 + IndexOf(bs[1..], a)
  }

  predicate LiveAt(bs: seq<Block>, a: int) {
    IndexOf(bs, a) < |bs| && !bs[IndexOf(bs, a)].free
  }

  /** Frees the live block at an address; does nothing if there is none. */
  function ReleaseAt(bs: seq<Block>, a: int): seq<Block> {
    if LiveAt(bs, a) then Release(bs, IndexOf(bs, a)) else bs
  }

  /** Frees the blocks at the given addresses one after the other. */
  function ReleaseAll(bs: seq<Block>, ps: seq<int>): seq<Block>
    decreases |ps|
  {
    if ps == [] then bs else ReleaseAll(ReleaseAt(bs, ps[0]), ps[1..])
  }

  lemma AtAddress(bs: seq<Block>, lo: int, hi: int, b: Block)
    requires Tiles(bs, lo, hi) && b in bs
    ensures IndexOf(bs, b.addr) < |bs| && bs[IndexOf(bs, b.addr)] == b
  {
    var k :| 0 <= k < |bs| && bs[k] == b;
    var i := IndexOf(bs, b.addr);
    assert i <= k;
    if i < k { PayloadsDisjoint(bs, lo, hi, i, k); }
  }

  /** Freeing all live blocks, in whatever order, restores the single initial free block. */
  lemma {:induction false} FreeAllInAnyOrder(bs: seq<Block>, lo: int, hi: int, ps: seq<int>)
    requires Tiles(bs, lo, hi) && Coalesced(bs)
    requires forall b :: b in Live(bs) ==> b.addr in ps
    ensures ReleaseAll(bs, ps) == [Block(lo, hi - lo - HEADER, true)]
    decreases |ps|
  {
    if ps == [] {
      assert forall i :: 0 <= i < |bs| ==> bs[i] !in Live(bs);
      AllFreeIsInitial(bs, lo, hi);
    } else {
      var a := ps[0];
      var i := IndexOf(bs, a);
      if LiveAt(bs, a) {
        ReleaseTiles(bs, lo, hi, i);
        ReleaseCoalesced(bs, i);
        ReleaseLive(bs, lo, hi, i);
        forall b | b in Live(bs) && b != bs[i] ensures b.addr in ps[1..] { AtAddress(bs, lo, hi, b); }
        FreeAllInAnyOrder(Release(bs, i), lo, hi, ps[1..]);
      } else {
        forall b | b in Live(bs) ensures b.addr in ps[1..] { AtAddress(bs, lo, hi, b); }
        FreeAllInAnyOrder(bs, lo, hi, ps[1..]);
      }
    }
  }

  // ---------------------------------------------------------------------
  // Growing in place
  // ---------------------------------------------------------------------

  /** Payload of block i if it absorbs all blocks up to j. */
  function Span(bs: seq<Block>, i: int, j: int): int
    requires 0 <= i <= j < |bs|
  {
    End(bs[j]) - bs[i].addr - HEADER
  }

  /** Blocks i to j as one. */
  function Join(bs: seq<Block>, i: int, j: int): seq<Block>
    requires 0 <= i <= j < |bs|
  {
    bs[..i] + [bs[i].(size := Span(bs, i, j))] + bs[j + 1..]
  }

  lemma JoinIsMerge(bs: seq<Block>, lo: int, hi: int, i: int)
    requires Tiles(bs, lo, hi) && 0 <= i < |bs| - 1
    ensures Join(bs, i, i + 1) == Merge(bs, i)
  {}

  /** The last block that a growth of block i to n bytes absorbs, starting from j. */
  function Reach(bs: seq<Block>, i: int, j: int, n: int): (k: int)
    requires 0 <= i <= j < |bs|
    ensures j <= k < |bs|
    ensures forall m :: j < m <= k ==> bs[m].free
    ensures k > j ==> Span(bs, i, k - 1) < n
    ensures Span(bs, i, k) >= n || k == |bs| - 1 || !bs[k + 1].free
    decreases |bs| - j
  {
    if j < |bs| - 1 && bs[j + 1].free && Span(bs, i, j) < n then Reach(bs, i, j + 1, n) else j
  }

  // ---------------------------------------------------------------------
  // Statistics
  // ---------------------------------------------------------------------

  datatype Stats = Stats(total: int, used: int, free: int, largest: int, blocks: nat, usedBlocks: nat, freeBlocks: nat)

  function Count(s: Stats, b: Block): Stats {
    var t := s.(total := s.total + HEADER + b.size, blocks := s.blocks + 1);
    if b.free then t.(free := t.free + b.size, freeBlocks := t.freeBlocks + 1,
                      largest := if b.size > t.largest then b.size else t.largest)
    else t.(used := t.used + b.size, usedBlocks := t.usedBlocks + 1)
  }

  function StatsOf(bs: seq<Block>): Stats {
    if bs == [] then Stats(0, 0, 0, 0, 0, 0, 0) else Count(StatsOf(bs[..|bs| - 1]), bs[|bs| - 1])
  }

  /** Number and total size of the blocks that are free, or of those that are live. */
  function NumberOf(bs: seq<Block>, free: bool): nat {
    if bs == [] then 0 else (if bs[0].free == free then 1 else 0) + NumberOf(bs[1..], free)
  }

  function SizeOf(bs: seq<Block>, free: bool): int {
    if bs == [] then 0 else (if bs[0].free == free then bs[0].size else 0) + SizeOf(bs[1..], free)
  }

  lemma {:induction false} SizesAppend(bs: seq<Block>, b: Block, free: bool)
    ensures NumberOf(bs + [b], free) == NumberOf(bs, free) + if b.free == free then 1 else 0
    ensures SizeOf(bs + [b], free) == SizeOf(bs, free) + if b.free == free then b.size else 0
  {
    if bs == [] {
      assert bs + [b] == [b] && [b][1..] == [];
    } else {
      assert (bs + [b])[1..] == bs[1..] + [b];
      SizesAppend(bs[1..], b, free);
    }
  }

  lemma {:induction false} StatsSums(bs: seq<Block>)
    ensures var s := StatsOf(bs);
      && s.used == SizeOf(bs, false) && s.usedBlocks == NumberOf(bs, false)
      && s.free == SizeOf(bs, true) && s.freeBlocks == NumberOf(bs, true)
      && s.total == s.used + s.free + HEADER * s.blocks && s.blocks == |bs| == s.usedBlocks + s.freeBlocks
  {
    if bs != [] {
      var init, b := bs[..|bs| - 1], bs[|bs| - 1];
      StatsSums(init);
      assert bs == init + [b];
      SizesAppend(init, b, false);
      SizesAppend(init, b, true);
    }
  }

  /** The number of used blocks is that of the live ones. */
  lemma {:induction false} LiveCounted(bs: seq<Block>, lo: int, hi: int, k: nat)
    requires Tiles(bs, lo, hi) && k <= |bs|
    ensures NumberOf(bs[k..], false) == |Live(bs[k..])|
    decreases |bs| - k
  {
    hide Tiles;
    if k < |bs| {
      LiveCounted(bs, lo, hi, k + 1);
      assert bs[k..][1..] == bs[k + 1..];
      forall j | k < j < |bs| ensures bs[j] != bs[k] {
        PayloadsDisjoint(bs, lo, hi, k, j);
        Within(bs, lo, hi, k);
      }
      LiveTail(bs[k..]);
    }
  }

  lemma LiveTail(bs: seq<Block>)
    requires bs != [] && bs[0] !in bs[1..]
    ensures |Live(bs)| == |Live(bs[1..])| + if bs[0].free then 0 else 1
  {
    assert forall b :: b in bs <==> b == bs[0] || b in bs[1..];
    assert Live(bs) == if bs[0].free then Live(bs[1..]) else Live(bs[1..]) + {bs[0]};
  }

  lemma {:induction false} StatsLargest(bs: seq<Block>) returns (k: int)
    ensures forall i :: 0 <= i < |bs| && bs[i].free ==> bs[i].size <= StatsOf(bs).largest
    ensures StatsOf(bs).largest == 0 || (0 <= k < |bs| && bs[k].free && bs[k].size == StatsOf(bs).largest > 0)
  {
    k := 0;
    if bs != [] {
      var n := |bs| - 1;
      k := StatsLargest(bs[..n]);
      if bs[n].free && bs[n].size > StatsOf(bs[..n]).largest { k := n; }
    }
  }

  lemma {:induction false} StatsTotal(bs: seq<Block>, lo: int, n: nat)
    requires n <= |bs| && (n > 0 ==> bs[0].addr == lo)
    requires forall i :: 0 <= i < |bs| - 1 ==> bs[i + 1].addr == End(bs[i])
    ensures StatsOf(bs[..n]).total == if n == 0 then 0 else End(bs[n - 1]) - lo
  {
    if n > 0 {
      StatsTotal(bs, lo, n - 1);
      assert bs[..n][..n - 1] == bs[..n - 1];
      assert n > 1 ==> bs[n - 2 + 1].addr == End(bs[n - 2]);
    }
  }

  /** The statistics account for the whole region, and tell exactly which requests succeed. */
  lemma StatsAgree(bs: seq<Block>, lo: int, hi: int, n: int)
    requires Tiles(bs, lo, hi) && n > 0
    ensures var s := StatsOf(bs);
      && s.total == hi - lo == s.used + s.free + HEADER * s.blocks
      && s.usedBlocks == |Live(bs)|
      && (FirstFit(bs, n) < |bs| <==> n <= s.largest)
  {
    assert bs[..|bs|] == bs == bs[0..];
    LiveCounted(bs, lo, hi, 0);
    StatsTotal(bs, lo, |bs|);
    StatsSums(bs);
    var k := StatsLargest(bs);
  }

  // ---------------------------------------------------------------------
  // Reallocation of live block i to n bytes
  // ---------------------------------------------------------------------

  /** Block list after a growth in place that absorbs the blocks up to j. */
  function Grown(bs: seq<Block>, i: int, j: int, n: int): seq<Block>
    requires 0 <= i <= j < |bs|
  {
    Split(Join(bs, i, j), i, n)
  }

  /** Block list after a move to the first fitting block. */
  function Moved(bs: seq<Block>, i: int, n: int): seq<Block>
    requires 0 <= i < |bs| && FirstFit(bs, n) < |bs|
  {
    ReleaseAt(Allocate(bs, FirstFit(bs, n), n), bs[i].addr)
  }

  /** The user allocator grows over one free successor. */
  predicate UserGrows(bs: seq<Block>, i: int, n: int)
    requires 0 <= i < |bs|
  {
    i < |bs| - 1 && bs[i + 1].free && Span(bs, i, i + 1) >= n
  }

  /** The kernel allocator grows over as many free successors as it needs. */
  predicate KernelGrows(bs: seq<Block>, i: int, n: int)
    requires 0 <= i < |bs|
  {
    Span(bs, i, Reach(bs, i, i, n)) >= n
  }

  /** Which of the two applies, and how far it goes. */
  predicate Grows(bs: seq<Block>, i: int, n: int, kernel: bool)
    requires 0 <= i < |bs|
  {
    if kernel then KernelGrows(bs, i, n) else UserGrows(bs, i, n)
  }

  function GrowsTo(bs: seq<Block>, i: int, n: int, kernel: bool): (j: int)
    requires 0 <= i < |bs|
    ensures i <= j < |bs|
    ensures Grows(bs, i, n, kernel) ==> Span(bs, i, j) >= n && forall m :: i < m <= j ==> bs[m].free
  {
    if kernel then Reach(bs, i, i, n) else if UserGrows(bs, i, n) then i + 1 else i
  }

  /** Block list after a reallocation: cut, grown in place, moved, or unchanged on failure. */
  function Resized(bs: seq<Block>, i: int, n: int, kernel: bool): seq<Block>
    requires 0 <= i < |bs|
  {
    if n <= bs[i].size then Split(bs, i, n)
    else if Grows(bs, i, n, kernel) then Grown(bs, i, GrowsTo(bs, i, n, kernel), n)
    else if FirstFit(bs, n) < |bs| then Moved(bs, i, n)
    else bs
  }

  /** The reallocation needs no new block. */
  predicate InPlace(bs: seq<Block>, i: int, n: int, kernel: bool)
    requires 0 <= i < |bs|
  {
    n <= bs[i].size || Grows(bs, i, n, kernel)
  }

  lemma AlignIdempotent(n: nat)
    requires n < WORD
    ensures AlignUp(AlignUp(n)) == AlignUp(n) < WORD
  {}

  /** After an allocation the other live blocks are still there. */
  lemma StillLive(bs: seq<Block>, lo: int, hi: int, i: int, f: int, n: int)
    requires Tiles(bs, lo, hi) && 0 <= i < |bs| && !bs[i].free
    requires 0 <= f < |bs| && bs[f].free && bs[f].size >= n >= 0 && n % ALIGN == 0
    ensures var b1 := Allocate(bs, f, n);
      LiveAt(b1, bs[i].addr) && b1[IndexOf(b1, bs[i].addr)] == bs[i]
  {
    hide Tiles;
    AllocateTiles(bs, lo, hi, f, n);
    AllocateLive(bs, f, n);
    var b1 := Allocate(bs, f, n);
    assert bs[i] in Live(bs);
    assert bs[i] in Live(b1);
    AtAddress(b1, lo, hi, bs[i]);
  }

  /** What moving block i does to the other live blocks. */
  lemma MoveFacts(bs: seq<Block>, lo: int, hi: int, i: int, n: int)
    requires Tiles(bs, lo, hi) && 0 <= i < |bs| && !bs[i].free && n >= 0 && n % ALIGN == 0
    requires FirstFit(bs, n) < |bs|
    ensures var f := FirstFit(bs, n);
      var b1 := Allocate(bs, f, n);
      var k := IndexOf(b1, bs[i].addr);
      var rest := Live(bs) - {bs[i]};
      && f < |b1| && k < |b1| && k != f && b1[k] == bs[i] && bs[i] in Live(bs)
      && b1[f].addr == bs[f].addr && b1[f].size >= n
      && !b1[f].free && !b1[k].free && rest <= Live(b1) - {b1[k], b1[f]}
      && Live(Moved(bs, i, n)) == rest + {b1[f]} && Tiles(b1, lo, hi)
  {
    hide Tiles;
    var f := FirstFit(bs, n);
    var b1 := Allocate(bs, f, n);
    var k := IndexOf(b1, bs[i].addr);
    StillLive(bs, lo, hi, i, f, n);
    AllocateLive(bs, f, n);
    AllocateTiles(bs, lo, hi, f, n);
    ReleaseLive(b1, lo, hi, k);
    forall b | b in Live(bs) ensures b in b1 && b.addr != bs[f].addr {
      assert b in Live(b1);
      AtAddress(bs, lo, hi, b);
      AtAddress(bs, lo, hi, bs[f]);
    }
    assert bs[i] in Live(bs);
  }

  function Min(a: int, b: int): int { if a <= b then a else b }

  /** A list in which block i is replaced by b and the free blocks behind it by other free blocks
      has b for block i among its live blocks, and otherwise the same ones. */
  lemma ReplaceLive(bs: seq<Block>, lo: int, hi: int, i: int, j: int, b: Block, mid: seq<Block>)
    requires Tiles(bs, lo, hi) && 0 <= i <= j < |bs| && !bs[i].free && !b.free
    requires (forall m :: i < m <= j ==> bs[m].free) && (forall c :: c in mid ==> c.free)
    ensures Live(bs[..i] + [b] + mid + bs[j + 1..]) == Live(bs) - {bs[i]} + {b}
  {
    hide Tiles;
    var bs' := bs[..i] + [b] + mid + bs[j + 1..];
    Within(bs, lo, hi, i);
    forall k | 0 <= k < |bs| && k != i ensures bs[k] != bs[i] { PayloadsDisjoint(bs, lo, hi, i, k); }
    assert forall c :: c in bs' <==> c in bs[..i] || c == b || c in mid || c in bs[j + 1..];
    forall c | c in bs && !c.free && c != bs[i] ensures c in bs[..i] || c in bs[j + 1..] {
      var k :| 0 <= k < |bs| && bs[k] == c;
      assert if k < i then bs[..i][k] == c else bs[j + 1..][k - (j + 1)] == c;
    }
  }

  /** A cut keeps exactly the other live blocks, and block i gets n bytes, or keeps its size if the rest would not
      hold a block. */
  lemma SplitLive(bs: seq<Block>, lo: int, hi: int, i: int, n: int)
    requires Tiles(bs, lo, hi) && 0 <= i < |bs| && !bs[i].free
    ensures i < |Split(bs, i, n)| && !Split(bs, i, n)[i].free && Split(bs, i, n)[i].addr == bs[i].addr
    ensures Split(bs, i, n)[i].size >= Min(bs[i].size, n)
    ensures Split(bs, i, n)[i].size == if bs[i].size >= n + 48 then n else bs[i].size
    ensures Live(Split(bs, i, n)) == Live(bs) - {bs[i]} + {Split(bs, i, n)[i]}
  {
    hide Tiles;
    if Splits(bs[i], n) {
      var b, r := bs[i].(size := n), Rest(bs[i], n);
      ReplaceLive(bs, lo, hi, i, i, b, [r]);
      assert bs[..i] + [b, r] + bs[i + 1..] == bs[..i] + [b] + [r] + bs[i + 1..];
    } else {
      assert bs[i] in Live(bs);
    }
  }

  lemma JoinLive(bs: seq<Block>, lo: int, hi: int, i: int, j: int)
    requires Tiles(bs, lo, hi) && 0 <= i <= j < |bs| && !bs[i].free && forall m :: i < m <= j ==> bs[m].free
    ensures Live(Join(bs, i, j)) == Live(bs) - {bs[i]} + {Join(bs, i, j)[i]}
  {
    var b := bs[i].(size := Span(bs, i, j));
    ReplaceLive(bs, lo, hi, i, j, b, []);
    assert Join(bs, i, j) == bs[..i] + [b] + [] + bs[j + 1..];
  }

  /** Resizing in place keeps exactly the other live blocks, and block i gets n bytes, or all there are if the rest
      would not hold a block. */
  lemma GrownLive(bs: seq<Block>, lo: int, hi: int, i: int, j: int, n: int)
    requires Tiles(bs, lo, hi) && 0 <= i <= j < |bs| && !bs[i].free && forall m :: i < m <= j ==> bs[m].free
    ensures i < |Grown(bs, i, j, n)|
    ensures var b := Grown(bs, i, j, n)[i];
      && !b.free && b.addr == bs[i].addr && b.size >= Min(Span(bs, i, j), n)
      && b.size == (if Span(bs, i, j) >= n + 48 then n else Span(bs, i, j))
      && Live(Grown(bs, i, j, n)) == Live(bs) - {bs[i]} + {b}
  {
    hide Tiles;
    var b1 := Join(bs, i, j);
    JoinTiles(bs, lo, hi, i, j);
    JoinLive(bs, lo, hi, i, j);
    SplitLive(b1, lo, hi, i, n);
    forall b | b in Live(bs) && b != bs[i] ensures b.addr != bs[i].addr {
      AtAddress(bs, lo, hi, b);
      AtAddress(bs, lo, hi, bs[i]);
    }
  }

  /** Other live blocks of both lists, for frames. */
  lemma GrownOthers(bs: seq<Block>, lo: int, hi: int, i: int, j: int, n: int)
    requires Tiles(bs, lo, hi) && 0 <= i <= j < |bs| && !bs[i].free && forall m :: i < m <= j ==> bs[m].free
    ensures forall b :: b in Live(bs) && b != bs[i] ==> b in Join(bs, i, j) && b in Grown(bs, i, j, n)
    ensures Grown(bs, i, j, n)[i].addr == bs[i].addr && Grown(bs, i, j, n)[i].size >= Min(Span(bs, i, j), n)
  {
    JoinLive(bs, lo, hi, i, j);
    GrownLive(bs, lo, hi, i, j, n);
    assert forall b :: b in Live(Join(bs, i, j)) ==> b in Join(bs, i, j);
    assert forall b :: b in Live(Grown(bs, i, j, n)) ==> b in Grown(bs, i, j, n);
  }

  lemma JoinSelf(bs: seq<Block>, i: int)
    requires 0 <= i < |bs|
    ensures Join(bs, i, i) == bs
  {}

  // ---------------------------------------------------------------------
  // Histories
  // ---------------------------------------------------------------------

  /** Reallocation, by the kernel or the user allocator, is of live blocks. */
  datatype HeapOp =
    | Alloc(size: size_t, kernel: bool)
    | Dealloc(addr: int)
    | Resize(addr: int, size: size_t, kernel: bool)

  /** The step of an allocator that takes no memory from elsewhere: a request that no block fits fails. */
  function HeapStep(bs: seq<Block>, op: HeapOp): seq<Block> {
    match op
    case Alloc(size, _) =>
      var i := FirstFit(bs, AlignUp(size));
      if size == 0 || i == |bs| then bs else Allocate(bs, i, AlignUp(size))
    case Dealloc(a) => ReleaseAt(bs, a)
    case Resize(a, size, kernel) =>
      if size == 0 || !LiveAt(bs, a) then ReleaseAt(bs, a)
      else Resized(bs, IndexOf(bs, a), AlignUp(size), kernel)
  }

  function HeapRun(bs: seq<Block>, ops: seq<HeapOp>): seq<Block>
    decreases |ops|
  {
    if ops == [] then bs else HeapRun(HeapStep(bs, ops[0]), ops[1..])
  }

  function Initial(lo: int, hi: int): seq<Block> { [Block(lo, hi - lo - HEADER, true)] }

  lemma AlignBelow(size: size_t)
    ensures AlignUp(size) < WORD && AlignUp(size) % ALIGN == 0
  {}

  lemma TilesEnd(bs: seq<Block>, lo: int, hi: int)
    requires Tiles(bs, lo, hi)
    ensures bs != [] && bs[0].addr == lo <= End(bs[|bs| - 1]) == hi
  {
    Within(bs, lo, hi, 0);
  }

  lemma MovedTiles(bs: seq<Block>, lo: int, hi: int, i: int, n: int)
    requires Tiles(bs, lo, hi) && 0 <= i < |bs| && n >= 0 && n % ALIGN == 0 && FirstFit(bs, n) < |bs|
    ensures Tiles(Moved(bs, i, n), lo, hi)
  {
    hide Tiles;
    AllocateTiles(bs, lo, hi, FirstFit(bs, n), n);
    var b1 := Allocate(bs, FirstFit(bs, n), n);
    if LiveAt(b1, bs[i].addr) { ReleaseTiles(b1, lo, hi, IndexOf(b1, bs[i].addr)); }
  }

  lemma ResizedTiles(bs: seq<Block>, lo: int, hi: int, i: int, n: int, kernel: bool)
    requires Tiles(bs, lo, hi) && 0 <= i < |bs| && n >= 0 && n % ALIGN == 0
    ensures Tiles(Resized(bs, i, n, kernel), lo, hi)
  {
    hide Tiles, Grows, GrowsTo;
    var j := GrowsTo(bs, i, n, kernel);
    SplitTiles(bs, lo, hi, i, n);
    JoinTiles(bs, lo, hi, i, j);
    SplitTiles(Join(bs, i, j), lo, hi, i, n);
    if FirstFit(bs, n) < |bs| { MovedTiles(bs, lo, hi, i, n); }
  }

  lemma StepTiles(bs: seq<Block>, lo: int, hi: int, op: HeapOp)
    requires Tiles(bs, lo, hi)
    ensures Tiles(HeapStep(bs, op), lo, hi)
  {
    hide Tiles, AlignUp, Resized;
    match op
    case Alloc(size, _) =>
      var i := FirstFit(bs, AlignUp(size));
      if i < |bs| { AllocateTiles(bs, lo, hi, i, AlignUp(size)); }
    case Dealloc(a) => if LiveAt(bs, a) { ReleaseTiles(bs, lo, hi, IndexOf(bs, a)); }
    case Resize(a, size, kernel) =>
      if LiveAt(bs, a) {
        ReleaseTiles(bs, lo, hi, IndexOf(bs, a));
        ResizedTiles(bs, lo, hi, IndexOf(bs, a), AlignUp(size), kernel);
      }
  }

  /** The operation shrinks a block in front of a free one and cuts off a rest. */
  predicate CutsBeforeFree(bs: seq<Block>, op: HeapOp) {
    && op.Resize? && op.size > 0 && LiveAt(bs, op.addr)
    && var i := IndexOf(bs, op.addr);
       Splits(bs[i], AlignUp(op.size)) && i < |bs| - 1 && bs[i + 1].free
  }

  /** A realloc that shrinks does not coalesce: it leaves two free neighbours exactly when it
      cuts off a rest in front of a free block. */
  lemma ShrinkCoalesced(bs: seq<Block>, i: int, n: int)
    requires Coalesced(bs) && 0 <= i < |bs| && !bs[i].free
    ensures Coalesced(Split(bs, i, n)) <==> !(Splits(bs[i], n) && i < |bs| - 1 && bs[i + 1].free)
  {
    var bs' := Split(bs, i, n);
    if Splits(bs[i], n) {
      assert bs'[i + 1].free && (i < |bs| - 1 ==> bs'[i + 2] == bs[i + 1]);
      assert forall k :: i + 2 <= k < |bs'| ==> bs'[k] == bs[k - 1];
    }
  }

  lemma JoinCoalesced(bs: seq<Block>, i: int, j: int)
    requires Coalesced(bs) && 0 <= i < j < |bs| && !bs[i].free && forall m :: i < m <= j ==> bs[m].free
    ensures j == i + 1 && Coalesced(Join(bs, i, j)) && (i < |Join(bs, i, j)| - 1 ==> !Join(bs, i, j)[i + 1].free)
  {
    var bs' := Join(bs, i, j);
    assert bs[j].free && (bs[j - 1].free || j - 1 == i);
    assert forall k :: i + 1 <= k < |bs'| ==> bs'[k] == bs[k + 1];
  }

  /** Growing in place or moving keeps free blocks apart. */
  lemma ResizedCoalesced(bs: seq<Block>, lo: int, hi: int, i: int, n: int, kernel: bool)
    requires Tiles(bs, lo, hi) && Coalesced(bs) && 0 <= i < |bs| && !bs[i].free && bs[i].size < n && n % ALIGN == 0
    ensures Coalesced(Resized(bs, i, n, kernel))
  {
    hide Tiles, Coalesced, Grows, GrowsTo;
    if Grows(bs, i, n, kernel) {
      var j := GrowsTo(bs, i, n, kernel);
      JoinCoalesced(bs, i, j);
      ShrinkCoalesced(Join(bs, i, j), i, n);
    } else if FirstFit(bs, n) < |bs| {
      var f := FirstFit(bs, n);
      Within(bs, lo, hi, i);
      StillLive(bs, lo, hi, i, f, n);
      AllocateCoalesced(bs, f, n);
      var b1 := Allocate(bs, f, n);
      ReleaseCoalesced(b1, IndexOf(b1, bs[i].addr));
    }
  }

  /** An operation leaves no two free neighbours exactly when it is not such a cut. */
  lemma StepCoalesced(bs: seq<Block>, lo: int, hi: int, op: HeapOp)
    requires Tiles(bs, lo, hi) && Coalesced(bs)
    ensures Coalesced(HeapStep(bs, op)) <==> !CutsBeforeFree(bs, op)
  {
    hide Tiles, Coalesced, Resized, AlignUp, InPlace;
    match op
    case Alloc(size, kernel) =>
      var i := FirstFit(bs, AlignUp(size));
      if i < |bs| { AllocateCoalesced(bs, i, AlignUp(size)); }
    case Dealloc(a) => if LiveAt(bs, a) { ReleaseCoalesced(bs, IndexOf(bs, a)); }
    case Resize(a, size, kernel) =>
      if LiveAt(bs, a) { ResizeCoalesced(bs, lo, hi, op); }
  }

  lemma ResizeCoalesced(bs: seq<Block>, lo: int, hi: int, op: HeapOp)
    requires Tiles(bs, lo, hi) && Coalesced(bs) && op.Resize? && LiveAt(bs, op.addr)
    ensures Coalesced(HeapStep(bs, op)) <==> !CutsBeforeFree(bs, op)
  {
    hide Tiles, Coalesced, AlignUp, Grows, GrowsTo;
    var i, n := IndexOf(bs, op.addr), AlignUp(op.size);
    ReleaseCoalesced(bs, i);
    if n <= bs[i].size {
      ShrinkCoalesced(bs, i, n);
    } else {
      ResizedCoalesced(bs, lo, hi, i, n, op.kernel);
    }
  }

  /** No operation of the history is such a cut. */
  predicate NoCuts(bs: seq<Block>, ops: seq<HeapOp>)
    decreases |ops|
  {
    ops == [] || (!CutsBeforeFree(bs, ops[0]) && NoCuts(HeapStep(bs, ops[0]), ops[1..]))
  }

  /** Over every history of allocations, frees and reallocations the heap stays tiled. */
  lemma {:induction false} HistoryTiles(bs: seq<Block>, lo: int, hi: int, ops: seq<HeapOp>)
    requires Tiles(bs, lo, hi)
    ensures Tiles(HeapRun(bs, ops), lo, hi)
    decreases |ops|
  {
    hide Tiles, HeapStep;
    if ops != [] {
      StepTiles(bs, lo, hi, ops[0]);
      HistoryTiles(HeapStep(bs, ops[0]), lo, hi, ops[1..]);
    }
  }

  /** Over every history without such cuts no two neighbours are free, and freeing
      what is live in any order ends in the initial state. */
  lemma {:induction false} HistoryCoalesced(bs: seq<Block>, lo: int, hi: int, ops: seq<HeapOp>, ps: seq<int>)
    requires Tiles(bs, lo, hi) && Coalesced(bs) && NoCuts(bs, ops)
    ensures Coalesced(HeapRun(bs, ops))
    ensures (forall b :: b in Live(HeapRun(bs, ops)) ==> b.addr in ps) ==>
      ReleaseAll(HeapRun(bs, ops), ps) == Initial(lo, hi)
    decreases |ops|
  {
    hide Tiles, Coalesced, HeapStep, CutsBeforeFree;
    if ops == [] {
      if forall b :: b in Live(bs) ==> b.addr in ps { FreeAllInAnyOrder(bs, lo, hi, ps); }
    } else {
      StepTiles(bs, lo, hi, ops[0]);
      StepCoalesced(bs, lo, hi, ops[0]);
      HistoryCoalesced(HeapStep(bs, ops[0]), lo, hi, ops[1..], ps);
    }
  }

  /** Without reallocations there are no such cuts. */
  lemma {:induction false} NoResizeNoCuts(bs: seq<Block>, ops: seq<HeapOp>)
    requires forall k :: 0 <= k < |ops| ==> !ops[k].Resize?
    ensures NoCuts(bs, ops)
    decreases |ops|
  {
    if ops != [] { NoResizeNoCuts(HeapStep(bs, ops[0]), ops[1..]); }
  }

  // ---------------------------------------------------------------------
  // Requests
  // ---------------------------------------------------------------------

  /** The size last asked for, for each live block by its address, after one more operation. */
  function Asked(bs: seq<Block>, asked: map<int, size_t>, op: HeapOp): map<int, size_t> {
    match op
    case Alloc(size, _) =>
      var i := FirstFit(bs, AlignUp(size));
      if size == 0 || i == |bs| then asked else asked[bs[i].addr := size]
    case Dealloc(a) => asked - {a}
    case Resize(a, size, kernel) =>
      if size == 0 || !LiveAt(bs, a) then asked - {a}
      else
        var i, n := IndexOf(bs, a), AlignUp(size);
        if InPlace(bs, i, n, kernel) then asked[a := size]
        else if FirstFit(bs, n) < |bs| then (asked - {a})[bs[FirstFit(bs, n)].addr := size]
        else asked
  }

  function AskedRun(bs: seq<Block>, asked: map<int, size_t>, ops: seq<HeapOp>): map<int, size_t>
    decreases |ops|
  {
    if ops == [] then asked else AskedRun(HeapStep(bs, ops[0]), Asked(bs, asked, ops[0]), ops[1..])
  }

  /** A block that serves a request for so many bytes; rounding must not have overflowed. */
  predicate Serves(b: Block, size: size_t) { size <= b.size <==> size <= WORD - ALIGN }

  /** Exactly the live blocks have a request, which they serve. */
  ghost predicate Met(bs: seq<Block>, asked: map<int, size_t>) {
    && (forall b :: b in Live(bs) ==> b.addr in asked && Serves(b, asked[b.addr]))
    && (forall a :: a in asked ==> exists b :: b in Live(bs) && b.addr == a)
  }

  lemma AlignServes(b: Block, size: size_t)
    requires AlignUp(size) <= b.size < WORD - ALIGN
    ensures Serves(b, size)
  {}

  /** Live blocks have different addresses. */
  lemma LiveAddresses(bs: seq<Block>, lo: int, hi: int)
    requires Tiles(bs, lo, hi)
    ensures forall b, c :: b in Live(bs) && c in Live(bs) && b.addr == c.addr ==> b == c
    ensures forall b :: b in Live(bs) ==> lo <= b.addr && End(b) <= hi
  {
    hide Tiles;
    forall b, c | b in Live(bs) && c in Live(bs) && b.addr == c.addr ensures b == c {
      AtAddress(bs, lo, hi, b);
      AtAddress(bs, lo, hi, c);
    }
    forall b | b in Live(bs) ensures lo <= b.addr && End(b) <= hi {
      AtAddress(bs, lo, hi, b);
      Within(bs, lo, hi, IndexOf(bs, b.addr));
    }
  }

  /** One live block added, and one perhaps taken out. */
  lemma MetChange(bs: seq<Block>, bs': seq<Block>, asked: map<int, size_t>, out: set<Block>, gone: set<int>,
                  b: Block, size: size_t)
    requires Met(bs, asked) && out <= Live(bs) && Live(bs') == Live(bs) - out + {b} && Serves(b, size)
    requires forall c, d :: c in Live(bs) && d in Live(bs) && c.addr == d.addr ==> c == d
    requires gone == (set c | c in out :: c.addr) && forall c :: c in Live(bs) - out ==> c.addr != b.addr
    ensures Met(bs', (asked - gone)[b.addr := size])
  {
    var asked' := (asked - gone)[b.addr := size];
    forall c | c in Live(bs') ensures c.addr in asked' && Serves(c, asked'[c.addr]) {
      if c != b { assert c.addr !in gone; }
    }
    forall a | a in asked' ensures exists c :: c in Live(bs') && c.addr == a {
      if a == b.addr { assert b in Live(bs'); }
      else {
        var c :| c in Live(bs) && c.addr == a;
        assert c in Live(bs');
      }
    }
  }

  lemma MetRelease(bs: seq<Block>, lo: int, hi: int, asked: map<int, size_t>, a: int)
    requires Tiles(bs, lo, hi) && Met(bs, asked)
    ensures Met(ReleaseAt(bs, a), asked - {a})
  {
    hide Tiles, Release, Serves, IndexOf;
    LiveAddresses(bs, lo, hi);
    if LiveAt(bs, a) {
      var b := bs[IndexOf(bs, a)];
      assert b in Live(bs);
      ReleaseLive(bs, lo, hi, IndexOf(bs, a));
      var bs' := Release(bs, IndexOf(bs, a));
      forall x | x in asked - {a} ensures exists c :: c in Live(bs') && c.addr == x {
        var c :| c in Live(bs) && c.addr == x;
        assert c in Live(bs');
      }
    } else {
      forall c | c in Live(bs) ensures c.addr != a { AtAddress(bs, lo, hi, c); }
    }
  }

  lemma MetAlloc(bs: seq<Block>, lo: int, hi: int, asked: map<int, size_t>, size: size_t)
    requires Tiles(bs, lo, hi) && 0 <= lo && hi < WORD && Met(bs, asked) && FirstFit(bs, AlignUp(size)) < |bs|
    ensures var i := FirstFit(bs, AlignUp(size));
      Met(Allocate(bs, i, AlignUp(size)), asked[bs[i].addr := size])
  {
    hide Tiles, Serves, Allocate, FirstFit, AlignUp, Met;
    var n := AlignUp(size);
    var i := FirstFit(bs, n);
    AllocateLive(bs, i, n);
    LiveAddresses(bs, lo, hi);
    Within(bs, lo, hi, i);
    SizeAfter(bs, lo, hi, i, n);
    var b := Allocate(bs, i, n)[i];
    AlignServes(b, size);
    forall c | c in Live(bs) ensures c.addr != b.addr {
      AtAddress(bs, lo, hi, c);
      AtAddress(bs, lo, hi, bs[i]);
    }
    var none: set<Block> := {};
    MetChange(bs, Allocate(bs, i, n), asked, none, {}, b, size);
    assert asked - {} == asked;
  }

  lemma SizeAfter(bs: seq<Block>, lo: int, hi: int, i: int, n: int)
    requires Tiles(bs, lo, hi) && 0 <= i < |bs| && 0 <= n && n % ALIGN == 0
    ensures Allocate(bs, i, n)[i].size <= hi - lo - HEADER
  {
    AllocateTiles(bs, lo, hi, i, n);
    Within(Allocate(bs, i, n), lo, hi, i);
  }

  lemma MetResize(bs: seq<Block>, lo: int, hi: int, asked: map<int, size_t>, i: int, size: size_t, kernel: bool)
    requires Tiles(bs, lo, hi) && 0 <= lo && hi < WORD && Met(bs, asked) && 0 <= i < |bs| && !bs[i].free && size > 0
    requires InPlace(bs, i, AlignUp(size), kernel)
    ensures Met(Resized(bs, i, AlignUp(size), kernel), asked[bs[i].addr := size])
  {
    hide Tiles, Serves, AlignUp, Met, Grows, GrowsTo, Grown, Split;
    var n := AlignUp(size);
    var bs' := Resized(bs, i, n, kernel);
    LiveAddresses(bs, lo, hi);
    ResizedTiles(bs, lo, hi, i, n, kernel);
    LiveAddresses(bs', lo, hi);
    if n <= bs[i].size { SplitLive(bs, lo, hi, i, n); }
    else { GrownLive(bs, lo, hi, i, GrowsTo(bs, i, n, kernel), n); }
    var b := bs'[i];
    assert b in Live(bs') && bs[i] in Live(bs);
    AlignServes(b, size);
    MetChange(bs, bs', asked, {bs[i]}, {bs[i].addr}, b, size);
    assert (asked - {bs[i].addr})[bs[i].addr := size] == asked[bs[i].addr := size];
  }

  lemma MetMove(bs: seq<Block>, lo: int, hi: int, asked: map<int, size_t>, i: int, size: size_t)
    requires Tiles(bs, lo, hi) && 0 <= lo && hi < WORD && Met(bs, asked) && 0 <= i < |bs| && !bs[i].free
    requires FirstFit(bs, AlignUp(size)) < |bs|
    ensures Met(Moved(bs, i, AlignUp(size)), (asked - {bs[i].addr})[bs[FirstFit(bs, AlignUp(size))].addr := size])
  {
    hide Tiles, Serves, AlignUp, Met, FirstFit, Allocate, Moved, IndexOf;
    var n := AlignUp(size);
    var f := FirstFit(bs, n);
    MoveFacts(bs, lo, hi, i, n);
    LiveAddresses(bs, lo, hi);
    SizeAfter(bs, lo, hi, f, n);
    Within(bs, lo, hi, f);
    var b := Allocate(bs, f, n)[f];
    AlignServes(b, size);
    forall c | c in Live(bs) ensures c.addr != b.addr {
      AtAddress(bs, lo, hi, c);
      AtAddress(bs, lo, hi, bs[f]);
    }
    MetChange(bs, Moved(bs, i, n), asked, {bs[i]}, {bs[i].addr}, b, size);
  }

  lemma StepMet(bs: seq<Block>, lo: int, hi: int, asked: map<int, size_t>, op: HeapOp)
    requires Tiles(bs, lo, hi) && 0 <= lo && hi < WORD && Met(bs, asked)
    ensures Met(HeapStep(bs, op), Asked(bs, asked, op))
  {
    hide Tiles, Met, AlignUp, Allocate, Release, FirstFit, InPlace;
    match op
    case Alloc(size, _) =>
      if FirstFit(bs, AlignUp(size)) < |bs| { MetAlloc(bs, lo, hi, asked, size); }
    case Dealloc(a) => MetRelease(bs, lo, hi, asked, a);
    case Resize(a, size, kernel) =>
      if size == 0 || !LiveAt(bs, a) { MetRelease(bs, lo, hi, asked, a); }
      else {
        var i := IndexOf(bs, a);
        if InPlace(bs, i, AlignUp(size), kernel) { MetResize(bs, lo, hi, asked, i, size, kernel); }
        else {
          NotInPlace(bs, i, AlignUp(size), kernel);
          if FirstFit(bs, AlignUp(size)) < |bs| { MetMove(bs, lo, hi, asked, i, size); }
        }
      }
  }

  lemma NotInPlace(bs: seq<Block>, i: int, n: int, kernel: bool)
    requires 0 <= i < |bs| && !InPlace(bs, i, n, kernel)
    ensures Resized(bs, i, n, kernel) == if FirstFit(bs, n) < |bs| then Moved(bs, i, n) else bs
  {}

  /** After every history, exactly the live blocks are those asked for and not given back, and
      each is at least as large as last asked for, if and only if rounding that size up does not
      overflow. */
  lemma {:induction false} HistoryMet(bs: seq<Block>, lo: int, hi: int, asked: map<int, size_t>, ops: seq<HeapOp>)
    requires Tiles(bs, lo, hi) && 0 <= lo && hi < WORD && Met(bs, asked)
    ensures Met(HeapRun(bs, ops), AskedRun(bs, asked, ops))
    decreases |ops|
  {
    hide Tiles, Met, HeapStep, Asked;
    if ops != [] {
      StepTiles(bs, lo, hi, ops[0]);
      StepMet(bs, lo, hi, asked, ops[0]);
      HistoryMet(HeapStep(bs, ops[0]), lo, hi, Asked(bs, asked, ops[0]), ops[1..]);
    }
  }

  /** A heap starts without requests. */
  lemma InitialMet(lo: int, hi: int)
    ensures Met(Initial(lo, hi), map[])
  {}

  /** A block is at least as large as requested exactly when rounding the request up does not
      overflow 64 bits; a request in the last seven sizes gets a block of less than 48 bytes. */
  lemma RequestMet(bs: seq<Block>, size: nat)
    requires 0 < size < WORD && FirstFit(bs, AlignUp(size)) < |bs|
    ensures var i := FirstFit(bs, AlignUp(size));
      Allocate(bs, i, AlignUp(size))[i].size >= size <==> size <= WORD - ALIGN
  {
    AllocateLive(bs, FirstFit(bs, AlignUp(size)), AlignUp(size));
  }

  // ---------------------------------------------------------------------
  // Histories from the start in which things go wrong
  // ---------------------------------------------------------------------

  /** Rounding overflows: a request for almost 2^64 bytes gets a block of less than 48 bytes. */
  lemma OverflowHappens(lo: int, hi: int)
    requires lo + HEADER <= hi
    ensures var bs := HeapStep(Initial(lo, hi), Alloc(WORD - 1, false));
      |bs| > 0 && bs[0] in Live(bs) && bs[0].size < MIN_SPLIT
  {
    assert AlignUp(WORD - 1) == 0;
  }

  /** Allocating 96 bytes and shrinking them to 8 leaves two free neighbours. */
  lemma CutHappens(lo: int, hi: int)
    requires lo % ALIGN == 0 && hi % ALIGN == 0 && lo + HEADER + 96 + MIN_SPLIT <= hi
    ensures var bs := HeapStep(Initial(lo, hi), Alloc(96, false));
      CutsBeforeFree(bs, Resize(lo, 8, false)) && !Coalesced(HeapStep(bs, Resize(lo, 8, false)))
  {
    assert AlignUp(96) == 96 && AlignUp(8) == 8;
    assert FirstFit(Initial(lo, hi), 96) == 0;
    var bs := HeapStep(Initial(lo, hi), Alloc(96, false));
    assert |bs| == 2 && IndexOf(bs, lo) == 0 && bs[1].free;
    ShrinkCoalesced(bs, 0, 8);
  }

  lemma AlignedAsIs(n: int)
    requires 0 <= n < WORD && n % ALIGN == 0
    ensures AlignUp(n) == n
  {}
}
