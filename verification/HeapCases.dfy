/** What each operation of the two allocators does to the block list and to the tail pointer, case by case, in terms
    of the blocks alone. */
module HeapCases {
  import opened BlockList
  import opened KernelHeap

  /** Block f is the first free one with room for n bytes. */
  predicate LowestFit(bs: seq<Block>, f: int, n: int) {
    && 0 <= f < |bs| && bs[f].free && bs[f].size >= n
    && forall k :: 0 <= k < f ==> bs[k].free ==> bs[k].size < n
  }

  predicate NoFit(bs: seq<Block>, n: int) {
    forall k :: 0 <= k < |bs| && bs[k].free ==> bs[k].size < n
  }

  /** What becomes of room for `size` bytes at address a that is used for n of them: the rest is a free block
      if it holds a header and 8 bytes. */
  function Pieces(a: int, size: int, n: int): seq<Block> {
    if size >= n + 48 then [Block(a, n, false), Block(a + 40 + n, size - n - 40, true)] else [Block(a, size, false)]
  }

  /** The tail pointer follows the rest. */
  function TailOf(a: int, size: int, n: int, t: int): int {
    if t == a && size >= n + 48 then a + 40 + n else t
  }

  lemma FitIs(bs: seq<Block>, f: int, n: int)
    ensures LowestFit(bs, f, n) ==> FirstFit(bs, n) == f
    ensures NoFit(bs, n) <==> FirstFit(bs, n) == |bs|
  {
    var i := FirstFit(bs, n);
    if LowestFit(bs, f, n) { assert i <= f; }
  }

  lemma FitInList(bs: seq<Block>, f: int, n: int)
    requires LowestFit(bs, f, n)
    ensures 0 <= f < |bs|
  {}

  // ---------------------------------------------------------------------
  // Allocating and freeing
  // ---------------------------------------------------------------------

  lemma TakenList(bs: seq<Block>, f: int, n: int, t: int)
    requires 0 <= f < |bs|
    ensures Allocate(bs, f, n) == bs[..f] + Pieces(bs[f].addr, bs[f].size, n) + bs[f + 1..]
    ensures TailSplit(bs, f, n, t) == TailOf(bs[f].addr, bs[f].size, n, t)
  {}

  /** An allocation takes the first free block that is large enough, and cuts it. */
  lemma AllocTakes(bs: seq<Block>, f: int, size: size_t, kernel: bool, t: int)
    requires size > 0 && LowestFit(bs, f, AlignUp(size))
    ensures var n, op := AlignUp(size), Alloc(size, kernel);
      && HeapStep(bs, op) == bs[..f] + Pieces(bs[f].addr, bs[f].size, n) + bs[f + 1..]
      && TailStep(bs, op, t) == TailOf(bs[f].addr, bs[f].size, n, t)
  {
    hide FirstFit, AlignUp, Allocate, TailSplit, Pieces, TailOf;
    FitIs(bs, f, AlignUp(size));
    TakenList(bs, f, AlignUp(size), t);
  }

  /** A request for nothing and one that no block fits change nothing. */
  lemma AllocFails(bs: seq<Block>, size: size_t, kernel: bool, t: int)
    requires size == 0 || NoFit(bs, AlignUp(size))
    ensures HeapStep(bs, Alloc(size, kernel)) == bs && TailStep(bs, Alloc(size, kernel), t) == t
  {
    FitIs(bs, 0, AlignUp(size));
  }

  /** Freeing block i makes one free block of it and its free neighbours; a tail pointer to one of them then points
      to that block. */
  lemma FreeJoins(bs: seq<Block>, lo: int, hi: int, i: int, t: int)
    requires Tiles(bs, lo, hi) && 0 <= i < |bs| && !bs[i].free
    ensures var l := if i > 0 && bs[i - 1].free then i - 1 else i;
            var r := if i < |bs| - 1 && bs[i + 1].free then i + 1 else i;
            var op := Dealloc(bs[i].addr);
      && HeapStep(bs, op) ==
           bs[..l] + [Block(bs[l].addr, bs[r].addr + bs[r].size - bs[l].addr, true)] + bs[r + 1..]
      && TailStep(bs, op, t) ==
           if t == bs[l].addr || t == bs[i].addr || t == bs[r].addr then bs[l].addr else t
  {
    hide IndexOf, Aligned;
    TailIs(bs, lo, hi, i, bs[i].addr);
    JoinsList(bs, lo, hi, i);
    JoinsTail(bs, lo, hi, i, t);
  }

  lemma JoinsList(bs: seq<Block>, lo: int, hi: int, i: int)
    requires Tiles(bs, lo, hi) && 0 <= i < |bs| && !bs[i].free
    ensures var l := if i > 0 && bs[i - 1].free then i - 1 else i;
            var r := if i < |bs| - 1 && bs[i + 1].free then i + 1 else i;
      Release(bs, i) == bs[..l] + [Block(bs[l].addr, bs[r].addr + bs[r].size - bs[l].addr, true)] + bs[r + 1..]
  {}

  lemma JoinsTail(bs: seq<Block>, lo: int, hi: int, i: int, t: int)
    requires Tiles(bs, lo, hi) && 0 <= i < |bs| && !bs[i].free
    ensures var l := if i > 0 && bs[i - 1].free then i - 1 else i;
            var r := if i < |bs| - 1 && bs[i + 1].free then i + 1 else i;
      TailRelease(bs, i, t) == if t == bs[l].addr || t == bs[i].addr || t == bs[r].addr then bs[l].addr else t
  {}

  /** Freeing at an address where no live block starts changes nothing. */
  lemma FreeIgnores(bs: seq<Block>, lo: int, hi: int, a: int, t: int)
    requires Tiles(bs, lo, hi) && forall k :: 0 <= k < |bs| && bs[k].addr == a ==> bs[k].free
    ensures HeapStep(bs, Dealloc(a)) == bs && TailStep(bs, Dealloc(a), t) == t
  {}

  // ---------------------------------------------------------------------
  // Reallocating live block i
  // ---------------------------------------------------------------------

  /** Payload that blocks i to j give together: the headers in between count. */
  function Room(bs: seq<Block>, i: int, j: int): int
    requires 0 <= i <= j < |bs|
    decreases j
  {
    if i == j then bs[i].size else Room(bs, i, j - 1) + 40 + bs[j].size
  }

  /** Block i has n bytes together with the free blocks behind it up to j. The user allocator looks at one of them
      only, the kernel allocator at as many as it needs. */
  predicate Suffices(bs: seq<Block>, i: int, j: int, n: int, kernel: bool) {
    && 0 <= i < j < |bs| && (forall m :: i < m <= j ==> bs[m].free) && Room(bs, i, j) >= n
    && (kernel || j == i + 1)
  }

  lemma {:induction false} RoomIsSpan(bs: seq<Block>, lo: int, hi: int, i: int, j: int)
    requires Tiles(bs, lo, hi) && 0 <= i <= j < |bs|
    ensures Room(bs, i, j) == Span(bs, i, j)
    decreases j
  {
    if i < j { RoomIsSpan(bs, lo, hi, i, j - 1); }
  }

  lemma {:induction false} RoomGrows(bs: seq<Block>, lo: int, hi: int, i: int, j: int, k: int)
    requires Tiles(bs, lo, hi) && 0 <= i <= j <= k < |bs|
    ensures Room(bs, i, j) <= Room(bs, i, k)
    decreases k
  {
    if j < k { RoomGrows(bs, lo, hi, i, j, k - 1); }
  }

  /** The measuring loop stops at the first block up to which there is room. */
  lemma ReachIs(bs: seq<Block>, lo: int, hi: int, i: int, j: int, n: int)
    requires Tiles(bs, lo, hi) && Suffices(bs, i, j, n, true) && Room(bs, i, j - 1) < n
    ensures Reach(bs, i, i, n) == j
  {
    hide Tiles, Room;
    var k := Reach(bs, i, i, n);
    RoomIsSpan(bs, lo, hi, i, j);
    RoomIsSpan(bs, lo, hi, i, j - 1);
    RoomIsSpan(bs, lo, hi, i, k);
    if k < j {
      RoomGrows(bs, lo, hi, i, k, j - 1);
    } else if k > j {
      RoomIsSpan(bs, lo, hi, i, k - 1);
      RoomGrows(bs, lo, hi, i, j, k - 1);
    }
  }

  /** The reallocation grows in place if and only if there is room behind the block. */
  lemma GrowsExactly(bs: seq<Block>, lo: int, hi: int, i: int, n: int, kernel: bool)
    requires Tiles(bs, lo, hi) && 0 <= i < |bs| && bs[i].size < n
    ensures Grows(bs, i, n, kernel) <==> exists j :: Suffices(bs, i, j, n, kernel)
  {
    hide Tiles, Room;
    if Grows(bs, i, n, kernel) {
      var j := GrowsTo(bs, i, n, kernel);
      RoomIsSpan(bs, lo, hi, i, j);
      assert Suffices(bs, i, j, n, kernel);
    }
    if j :| Suffices(bs, i, j, n, kernel) {
      RoomIsSpan(bs, lo, hi, i, j);
      if kernel { ReachEnough(bs, lo, hi, i, j, n); }
    }
  }

  lemma ReachEnough(bs: seq<Block>, lo: int, hi: int, i: int, j: int, n: int)
    requires Tiles(bs, lo, hi) && Suffices(bs, i, j, n, true)
    ensures Span(bs, i, Reach(bs, i, i, n)) >= n
  {
    hide Tiles, Room;
    var k := Reach(bs, i, i, n);
    RoomIsSpan(bs, lo, hi, i, j);
    RoomIsSpan(bs, lo, hi, i, k);
    if k > j { RoomGrows(bs, lo, hi, i, j, k); }
  }

  /** A block that is large enough is cut. */
  lemma ResizeShrinks(bs: seq<Block>, lo: int, hi: int, i: int, size: size_t, kernel: bool, t: int)
    requires Tiles(bs, lo, hi) && 0 <= i < |bs| && !bs[i].free && size > 0 && AlignUp(size) <= bs[i].size
    ensures var b, n, op := bs[i], AlignUp(size), Resize(bs[i].addr, size, kernel);
      && HeapStep(bs, op) == bs[..i] + Pieces(b.addr, b.size, n) + bs[i + 1..]
      && TailStep(bs, op, t) == TailOf(b.addr, b.size, n, t)
  {
    hide IndexOf, Tiles, AlignUp, Grows;
    TailIs(bs, lo, hi, i, bs[i].addr);
  }

  /** One that has room behind it stays where it is, takes the free blocks up to the first one at which there is
      room, and is cut. */
  lemma ResizeGrows(bs: seq<Block>, lo: int, hi: int, i: int, j: int, size: size_t, kernel: bool, t: int)
    requires Tiles(bs, lo, hi) && 0 <= i < |bs| && !bs[i].free && size > 0
    requires Suffices(bs, i, j, AlignUp(size), kernel) && Room(bs, i, j - 1) < AlignUp(size)
    ensures var a, n, op := bs[i].addr, AlignUp(size), Resize(bs[i].addr, size, kernel);
      && HeapStep(bs, op) == bs[..i] + Pieces(a, Room(bs, i, j), n) + bs[j + 1..]
      && TailStep(bs, op, t) == TailOf(a, Room(bs, i, j), n, t)
  {
    hide IndexOf, Tiles, AlignUp, Room, Span, Grown, Join, TailSplit, Pieces, TailOf, Grows, GrowsTo;
    var n := AlignUp(size);
    TailIs(bs, lo, hi, i, bs[i].addr);
    RoomIsSpan(bs, lo, hi, i, j);
    GrowsToFirst(bs, lo, hi, i, j, n, kernel);
    GrowthList(bs, i, j, n, t);
  }

  lemma GrowsToFirst(bs: seq<Block>, lo: int, hi: int, i: int, j: int, n: int, kernel: bool)
    requires Tiles(bs, lo, hi) && Suffices(bs, i, j, n, kernel) && Room(bs, i, j - 1) < n
    ensures bs[i].size < n && Grows(bs, i, n, kernel) && GrowsTo(bs, i, n, kernel) == j
  {
    hide Tiles, Room, Reach;
    RoomIsSpan(bs, lo, hi, i, j);
    RoomIsSpan(bs, lo, hi, i, i);
    RoomGrows(bs, lo, hi, i, i, j - 1);
    if kernel { ReachIs(bs, lo, hi, i, j, n); }
  }

  lemma GrowthList(bs: seq<Block>, i: int, j: int, n: int, t: int)
    requires 0 <= i < j < |bs| && !bs[i].free
    ensures Grown(bs, i, j, n) == bs[..i] + Pieces(bs[i].addr, Span(bs, i, j), n) + bs[j + 1..]
    ensures TailSplit(Join(bs, i, j), i, n, t) == TailOf(bs[i].addr, Span(bs, i, j), n, t)
  {}

  /** One that has no room is moved: that is an allocation of the rounded size followed by a free. When no block
      fits, nothing changes. */
  lemma ResizeMoves(bs: seq<Block>, lo: int, hi: int, i: int, size: size_t, kernel: bool, t: int)
    requires Tiles(bs, lo, hi) && 0 <= i < |bs| && !bs[i].free && size > 0 && bs[i].size < AlignUp(size)
    requires forall j :: !Suffices(bs, i, j, AlignUp(size), kernel)
    ensures AlignUp(size) < WORD
    ensures var a, op, first := bs[i].addr, Resize(bs[i].addr, size, kernel), Alloc(AlignUp(size), kernel);
      if NoFit(bs, AlignUp(size)) then HeapStep(bs, op) == bs && TailStep(bs, op, t) == t
      else
        && HeapStep(bs, op) == HeapStep(HeapStep(bs, first), Dealloc(a))
        && TailStep(bs, op, t) == TailStep(HeapStep(bs, first), Dealloc(a), TailStep(bs, first, t))
  {
    hide IndexOf, Tiles, AlignUp, Suffices, Grows, GrowsTo, Allocate, TailSplit, TailRelease, Release;
    AlignIdempotent(size);
    TailIs(bs, lo, hi, i, bs[i].addr);
    GrowsExactly(bs, lo, hi, i, AlignUp(size), kernel);
    FitIs(bs, 0, AlignUp(size));
    SizeNonNegative(bs, lo, hi, i);
  }

  lemma SizeNonNegative(bs: seq<Block>, lo: int, hi: int, i: int)
    requires Tiles(bs, lo, hi) && 0 <= i < |bs|
    ensures bs[i].size >= 0
  {}

  /** In all three cases the other live blocks stay, and the block is replaced by one of the rounded size, with less
      than 48 bytes more, at its own address or at that of the first block that fits; or nothing changes. */
  lemma ResizeLive(bs: seq<Block>, lo: int, hi: int, i: int, size: size_t, kernel: bool) returns (c: Block)
    requires Tiles(bs, lo, hi) && 0 <= i < |bs| && !bs[i].free && size > 0
    ensures var n, cs := AlignUp(size), HeapStep(bs, Resize(bs[i].addr, size, kernel));
      var stays := n <= bs[i].size || exists j :: Suffices(bs, i, j, n, kernel);
      && (!stays && NoFit(bs, n) ==> cs == bs)
      && (stays || !NoFit(bs, n) ==> Live(cs) == Live(bs) - {bs[i]} + {c} && !c.free && n <= c.size < n + 48)
      && (stays ==> c.addr == bs[i].addr)
      && (!stays ==> forall f :: LowestFit(bs, f, n) ==> c.addr == bs[f].addr)
  {
    hide IndexOf, Tiles, AlignUp, Suffices, Grows, Live, Resized, NoFit, LowestFit;
    var n := AlignUp(size);
    TailIs(bs, lo, hi, i, bs[i].addr);
    AlignBelow(size);
    AlignPositive(size);
    FitIs(bs, 0, n);
    if n > bs[i].size { GrowsExactly(bs, lo, hi, i, n, kernel); }
    forall f | LowestFit(bs, f, n) ensures f == FirstFit(bs, n) < |bs| {
      FitIs(bs, f, n);
      FitInList(bs, f, n);
    }
    c := ResizedLive(bs, lo, hi, i, n, kernel);
  }

  lemma ResizedLive(bs: seq<Block>, lo: int, hi: int, i: int, n: int, kernel: bool) returns (c: Block)
    requires Tiles(bs, lo, hi) && 0 <= i < |bs| && !bs[i].free && n >= 0 && n % ALIGN == 0
    ensures var cs := Resized(bs, i, n, kernel);
      if n <= bs[i].size || Grows(bs, i, n, kernel) || FirstFit(bs, n) < |bs| then
        && Live(cs) == Live(bs) - {bs[i]} + {c} && !c.free && n <= c.size < n + 48
        && c.addr == if n <= bs[i].size || Grows(bs, i, n, kernel) then bs[i].addr else bs[FirstFit(bs, n)].addr
      else cs == bs
  {
    hide IndexOf, Tiles, Grows, Live, Moved, Split, Grown, Allocate;
    c := bs[i];
    if n <= bs[i].size {
      SplitLive(bs, lo, hi, i, n);
      c := Split(bs, i, n)[i];
    } else if Grows(bs, i, n, kernel) {
      var j := GrowsTo(bs, i, n, kernel);
      GrownLive(bs, lo, hi, i, j, n);
      c := Grown(bs, i, j, n)[i];
    } else if FirstFit(bs, n) < |bs| {
      MoveFacts(bs, lo, hi, i, n);
      AllocateLive(bs, FirstFit(bs, n), n);
      c := Allocate(bs, FirstFit(bs, n), n)[FirstFit(bs, n)];
    }
  }

  lemma AlignPositive(size: size_t)
    ensures AlignUp(size) >= 0
  {}

  /** Reallocation to size 0 frees, and where no live block starts nothing changes. */
  lemma ResizeFrees(bs: seq<Block>, a: int, kernel: bool, t: int)
    ensures HeapStep(bs, Resize(a, 0, kernel)) == HeapStep(bs, Dealloc(a))
    ensures TailStep(bs, Resize(a, 0, kernel), t) == TailStep(bs, Dealloc(a), t)
  {}

  /** What a reallocation of live block i to n bytes returns: the same payload, the payload of the first block that
      fits, or 0. */
  ghost predicate Returns(bs: seq<Block>, i: int, n: int, kernel: bool, q: int)
    requires 0 <= i < |bs|
  {
    if n <= bs[i].size || exists j :: Suffices(bs, i, j, n, kernel) then q == bs[i].addr + 40
    else if NoFit(bs, n) then q == 0
    else exists f :: LowestFit(bs, f, n) && q == bs[f].addr + 40
  }

  lemma ReturnsIs(bs: seq<Block>, lo: int, hi: int, i: int, n: int, kernel: bool, q: int)
    requires Tiles(bs, lo, hi) && 0 <= i < |bs|
    requires if n <= bs[i].size || Grows(bs, i, n, kernel) then q == bs[i].addr + HEADER
             else if FirstFit(bs, n) == |bs| then q == 0 else q == bs[FirstFit(bs, n)].addr + HEADER
    ensures Returns(bs, i, n, kernel, q)
  {
    hide Tiles, Suffices, Grows;
    var f := FirstFit(bs, n);
    FitIs(bs, f, n);
    if n > bs[i].size { GrowsExactly(bs, lo, hi, i, n, kernel); }
    assert f < |bs| ==> LowestFit(bs, f, n);
  }

  /** Where an allocation finds its bytes. */
  lemma ServedExactly(s: HeapState, n: nat, f: int)
    ensures NoFit(s.bs, n) ==> Served(s, n) == 0
    ensures LowestFit(s.bs, f, n) ==> Served(s, n) == s.bs[f].addr + 40
  {
    FitIs(s.bs, f, n);
  }

  // ---------------------------------------------------------------------
  // Operations for which the kernel allocator expands its heap
  // ---------------------------------------------------------------------

  /** An allocation expands the heap if and only if it is the kernel's and no block fits. */
  lemma AllocExpands(bs: seq<Block>, size: size_t, kernel: bool)
    ensures NeedsRoom(bs, Alloc(size, kernel)) <==> kernel && size > 0 && NoFit(bs, AlignUp(size))
  {
    FitIs(bs, 0, AlignUp(size));
  }

  /** A reallocation does if and only if it is the kernel's, the block is too small, the free blocks behind it do not
      suffice, and no block fits. */
  lemma ResizeExpands(bs: seq<Block>, lo: int, hi: int, i: int, size: size_t, kernel: bool)
    requires Tiles(bs, lo, hi) && 0 <= i < |bs| && !bs[i].free
    ensures NeedsRoom(bs, Resize(bs[i].addr, size, kernel)) <==>
      && kernel && size > 0 && AlignUp(size) > bs[i].size
      && (forall j :: !Suffices(bs, i, j, AlignUp(size), true)) && NoFit(bs, AlignUp(size))
  {
    hide IndexOf, Tiles, AlignUp, Suffices, Grows;
    TailIs(bs, lo, hi, i, bs[i].addr);
    FitIs(bs, 0, AlignUp(size));
    if bs[i].size < AlignUp(size) { GrowsExactly(bs, lo, hi, i, AlignUp(size), true); }
  }

  /** An expansion reserves n bytes and a header, in 64-bit arithmetic. */
  lemma NeedExactly(n: nat)
    requires n < WORD && n % 8 == 0
    ensures Need(n) == if n + 40 < WORD then n + 40 else n + 40 - WORD
  {
    hide AlignUp;
    var r := if n + 40 < WORD then n + 40 else n + 40 - WORD;
    Wraps(n + 40);
    AlignedAsIs(r);
  }

  lemma Wraps(x: nat)
    requires x < 2 * WORD
    ensures x % WORD == if x < WORD then x else x - WORD
  {}

  /** It goes astray if and only if n bytes and a header do not fit below the break, down to address 0; of the
      others just those are refused that do not fit into the region. */
  lemma ExpandsExactly(s: HeapState, lo: int, hi: int, n: nat)
    requires Sound(s, lo, hi) && s.bs != [] && n < WORD && n % 8 == 0
    ensures Astray(s, n) <==> n + 40 > s.brk
    ensures n + 40 <= s.brk ==> (Refuses(s, n) <==> n + 40 > s.brk - lo)
  {
    hide Tiles, Need;
    NeedExactly(n);
    RefusesExactly(s, lo, hi, n);
  }

  /** The expansions of one operation reserve equal amounts below the break, and the tail pointer is at the last
      new header. They end when a block fits or an expansion is refused. */
  lemma {:induction false} GrabTakes(s: HeapState, n: nat)
    requires s.bs != [] && 0 <= s.brk < WORD && Grab(s, n).Goes?
    ensures var g := Grab(s, n).s;
      && g.bs != [] && g.brk == s.brk - Rounds(s, n) * Need(n)
      && (Rounds(s, n) == 0 ==> g == s) && (Rounds(s, n) > 0 ==> g.tail == g.brk)
      && (NoFit(g.bs, n) ==> Refuses(g, n))
    ensures Rounds(s, n) > 0 ==> NoFit(s.bs, n)
    decreases s.brk
  {
    hide After, Need, Refuses, NoFit;
    FitIs(s.bs, 0, n);
    if !(FirstFit(s.bs, n) < |s.bs| || Refuses(s, n)) && !Astray(s, n) {
      var nb := NewBreak(s.brk, n);
      NewBreakIs(s.brk, n);
      AfterNonempty(s.bs, s.tail, nb, n);
      match After(s.bs, s.tail, nb, n)
      case None =>
      case Some(cs) =>
        GrabTakes(HeapState(cs, nb, nb), n);
        OneLess(Rounds(s, n), Need(n));
    }
  }

  /** An allocation with expansions takes the first block that fits after them, and fails if none does. */
  lemma StepTakes(s: HeapState, size: size_t, f: int)
    requires s.bs != [] && 0 <= s.brk < WORD && size > 0 && NoFit(s.bs, AlignUp(size))
    requires Grab(s, AlignUp(size)).Goes?
    ensures var n := AlignUp(size);
      var g, r := Grab(s, n).s, Step(s, Alloc(size, true));
      && (NoFit(g.bs, n) ==> r == Goes(g))
      && (LowestFit(g.bs, f, n) ==>
          r == Goes(HeapState(g.bs[..f] + Pieces(g.bs[f].addr, g.bs[f].size, n) + g.bs[f + 1..],
                              TailOf(g.bs[f].addr, g.bs[f].size, n, g.tail), g.brk)))
  {
    hide FirstFit, AlignUp, Grab, Allocate, TailSplit, Pieces, TailOf, LowestFit, NoFit;
    var n := AlignUp(size);
    var g := Grab(s, n).s;
    FitIs(s.bs, f, n);
    FitIs(g.bs, f, n);
    if LowestFit(g.bs, f, n) {
      FitInList(g.bs, f, n);
      TakenList(g.bs, f, n, g.tail);
    }
  }

  /** Without expansions the break stays. */
  lemma StepStays(s: HeapState, op: HeapOp)
    requires s.bs != [] && 0 <= s.brk < WORD && !NeedsRoom(s.bs, op)
    ensures Step(s, op) == Goes(HeapState(HeapStep(s.bs, op), TailStep(s.bs, op, s.tail), s.brk))
  {}
}
