/** The kernel allocator with its tail pointer and the upper end of its region. When no block fits, it
    expands its heap downwards from that end, over memory that its blocks cover already. */
module KernelHeap {
  import opened Basics
  import opened BlockList

  /** The block list, the tail pointer, and where the next expansion starts. */
  datatype HeapState = HeapState(bs: seq<Block>, tail: int, brk: int)

  /** There may be a header at a. */
  predicate InRegion(a: int, lo: int, hi: int) { lo <= a && a + HEADER <= hi && a % ALIGN == 0 }

  predicate IsBreak(brk: int, lo: int, hi: int) { lo <= brk <= hi && brk % ALIGN == 0 }

  ghost predicate Sound(s: HeapState, lo: int, hi: int) {
    && Tiles(s.bs, lo, hi) && 0 < lo && hi < WORD && lo % ALIGN == 0
    && InRegion(s.tail, lo, hi) && IsBreak(s.brk, lo, hi)
  }

  // ---------------------------------------------------------------------
  // The tail pointer
  // ---------------------------------------------------------------------

  function TailSplit(bs: seq<Block>, i: int, req: int, t: int): int
    requires 0 <= i < |bs|
  {
    if Splits(bs[i], req) && t == bs[i].addr then Rest(bs[i], req).addr else t
  }

  function TailMergeNext(bs: seq<Block>, i: int, t: int): int
    requires 0 <= i < |bs|
  {
    if i < |bs| - 1 && bs[i + 1].free && t == bs[i + 1].addr then bs[i].addr else t
  }

  function TailMergePrev(bs: seq<Block>, i: int, t: int): int
    requires 0 <= i < |bs|
  {
    if i > 0 && bs[i - 1].free && t == bs[i].addr then bs[i - 1].addr else t
  }

  function TailRelease(bs: seq<Block>, i: int, t: int): int
    requires 0 <= i < |bs|
  {
    var m := Mark(bs, i, true);
    TailMergePrev(MergeNext(m, i), i, TailMergeNext(m, i, t))
  }

  function TailReleaseAt(bs: seq<Block>, a: int, t: int): int {
    if LiveAt(bs, a) then TailRelease(bs, IndexOf(bs, a), t) else t
  }

  function TailMoved(bs: seq<Block>, i: int, n: int, t: int): int
    requires 0 <= i < |bs| && FirstFit(bs, n) < |bs|
  {
    var f := FirstFit(bs, n);
    TailReleaseAt(Allocate(bs, f, n), bs[i].addr, TailSplit(bs, f, n, t))
  }

  /** A block that grows in place over the last one does not become the tail. */
  function TailResized(bs: seq<Block>, i: int, n: int, kernel: bool, t: int): int
    requires 0 <= i < |bs|
  {
    if n <= bs[i].size then TailSplit(bs, i, n, t)
    else if Grows(bs, i, n, kernel) then TailSplit(Join(bs, i, GrowsTo(bs, i, n, kernel)), i, n, t)
    else if FirstFit(bs, n) < |bs| then TailMoved(bs, i, n, t)
    else t
  }

  function TailStep(bs: seq<Block>, op: HeapOp, t: int): int {
    match op
    case Alloc(size, _) =>
      var i := FirstFit(bs, AlignUp(size));
      if size == 0 || i == |bs| then t else TailSplit(bs, i, AlignUp(size), t)
    case Dealloc(a) => TailReleaseAt(bs, a, t)
    case Resize(a, size, kernel) =>
      if size == 0 || !LiveAt(bs, a) then TailReleaseAt(bs, a, t)
      else TailResized(bs, IndexOf(bs, a), AlignUp(size), kernel, t)
  }

  // ---------------------------------------------------------------------
  // One expansion
  // ---------------------------------------------------------------------

  /** Bytes reserved for a block of n bytes, in 64-bit arithmetic. */
  function Need(n: nat): (r: nat)
    ensures r < WORD
  {
    AlignUp((n + HEADER) % WORD)
  }

  /** Where the new block starts, in 64-bit arithmetic. */
  function NewBreak(brk: int, n: nat): nat { (brk - Need(n)) % WORD }

  predicate Refuses(s: HeapState, n: nat)
    requires s.bs != []
  {
    NewBreak(s.brk, n) < s.bs[0].addr
  }

  /** The address wraps around, or the reserve does not even hold a header. */
  predicate Astray(s: HeapState, n: nat) { Need(n) < HEADER || Need(n) > s.brk }

  /** Headers at a and b overlap. */
  predicate Near(a: int, b: int) { a < b + HEADER && b < a + HEADER }

  predicate Misses(bs: seq<Block>, nb: int) { forall k :: 0 <= k < |bs| ==> !Near(bs[k].addr, nb) }

  /** The block, if any, whose header holds the address. */
  function Hit(bs: seq<Block>, x: int): (k: nat)
    ensures k <= |bs| && (k < |bs| ==> bs[k].addr <= x < bs[k].addr + HEADER)
    ensures forall j :: 0 <= j < k ==> !(bs[j].addr <= x < bs[j].addr + HEADER)
  {
    if bs == [] || bs[0].addr <= x < bs[0].addr + HEADER then 0 else 1 + Hit(bs[1..], x)
  }

  /** The list in memory after one expansion for n bytes, or None if no list that tiles the region is left.
      The header of the new block is written at nb, and its address in the next field of the tail. The list
      survives if both writes miss all headers, or if the second one writes the size or the flag of a block as a
      value that the list can have. If the tail is a block and the new block starts where its successor does, the
      new block takes the place of all that follow, provided it ends where they do. */
  function After(bs: seq<Block>, tail: int, nb: int, n: int): Option<seq<Block>> {
    if Misses(bs, nb) then
      var k := Hit(bs, tail + 32);
      if k == |bs| then Some(bs)
      else if tail + 32 == bs[k].addr + 8 && bs[k].size == nb then Some(bs)
      else if tail + 32 == bs[k].addr + 16 && nb % 0x1_0000_0000 == 0 then Some(Mark(bs, k, false))
      else None
    else
      var k := IndexOf(bs, tail);
      if k < |bs| - 1 && bs[k + 1].addr == nb && nb + HEADER + n == End(bs[|bs| - 1])
      then Some(bs[..k + 1] + [Block(nb, n, true)])
      else None
  }

  lemma AfterTiles(bs: seq<Block>, lo: int, hi: int, tail: int, nb: int, n: int)
    requires Tiles(bs, lo, hi) && n >= 0 && n % ALIGN == 0
    ensures After(bs, tail, nb, n).Some? ==> Tiles(After(bs, tail, nb, n).value, lo, hi)
  {
    hide Misses, Tiles, IndexOf, Hit;
    var h, k := Hit(bs, tail + 32), IndexOf(bs, tail);
    if h < |bs| { MarkTiles(bs, lo, hi, h, false); }
    if k < |bs| - 1 && bs[k + 1].addr == nb && nb + HEADER + n == End(bs[|bs| - 1]) {
      ReplaceRest(bs, lo, hi, k + 1, Block(nb, n, true));
    }
  }

  /** The headers are apart, so that only one can hold the address. */
  lemma HitOnce(bs: seq<Block>, lo: int, hi: int, x: int, j: nat)
    requires Tiles(bs, lo, hi) && j < |bs| && j != Hit(bs, x)
    ensures !(bs[j].addr <= x < bs[j].addr + HEADER)
  {
    hide Tiles;
    var k := Hit(bs, x);
    if k < |bs| {
      PayloadsDisjoint(bs, lo, hi, j, k);
      Within(bs, lo, hi, j);
      Within(bs, lo, hi, k);
    }
  }

  lemma TailIs(bs: seq<Block>, lo: int, hi: int, k: nat, t: int)
    requires Tiles(bs, lo, hi) && k < |bs| && bs[k].addr == t
    ensures IndexOf(bs, t) == k
  {
    hide Tiles;
    AtAddress(bs, lo, hi, bs[k]);
    var i := IndexOf(bs, t);
    if i != k {
      PayloadsDisjoint(bs, lo, hi, i, k);
      Within(bs, lo, hi, k);
    }
  }

  /** One block may take the place of all from k on. */
  lemma ReplaceRest(bs: seq<Block>, lo: int, hi: int, k: int, b: Block)
    requires Tiles(bs, lo, hi) && 0 <= k < |bs| && b.addr == bs[k].addr && End(b) == End(bs[|bs| - 1])
    requires b.size >= 0 && b.size % ALIGN == 0
    ensures Tiles(bs[..k] + [b], lo, hi)
  {
    var cs := bs[..k] + [b];
    assert Aligned(bs[k]);
    assert forall i :: 0 <= i < k ==> cs[i] == bs[i];
  }

  // ---------------------------------------------------------------------
  // Whole operations
  // ---------------------------------------------------------------------

  /** The state after an operation; or no list tiles the region any more; or the code goes on in a way that is
      not followed: it writes outside the region, or copies out of a list that has lost blocks. */
  datatype Result = Goes(s: HeapState) | Broken | Unfollowed

  lemma NewBreakIs(brk: int, n: nat)
    requires HEADER <= Need(n) <= brk < WORD
    ensures 0 <= NewBreak(brk, n) == brk - Need(n) < brk
  {
    hide Need;
  }

  lemma AfterNonempty(bs: seq<Block>, tail: int, nb: int, n: int)
    ensures bs != [] && After(bs, tail, nb, n).Some? ==> After(bs, tail, nb, n).value != []
  {}

  /** Expanding the heap again and again, until a block fits or an expansion is refused. */
  function Grab(s: HeapState, n: nat): Result
    requires s.bs != [] && 0 <= s.brk < WORD
    decreases s.brk
  {
    if FirstFit(s.bs, n) < |s.bs| || Refuses(s, n) then Goes(s)
    else if Astray(s, n) then Unfollowed
    else
      NewBreakIs(s.brk, n);
      AfterNonempty(s.bs, s.tail, NewBreak(s.brk, n), n);
      var nb := NewBreak(s.brk, n);
      match After(s.bs, s.tail, nb, n)
      case None => Broken
      case Some(cs) => Grab(HeapState(cs, nb, nb), n)
  }

  /** How many of these expansions leave a list that tiles the region. */
  function Rounds(s: HeapState, n: nat): nat
    requires s.bs != [] && 0 <= s.brk < WORD
    decreases s.brk
  {
    if FirstFit(s.bs, n) < |s.bs| || Refuses(s, n) || Astray(s, n) then 0
    else
      NewBreakIs(s.brk, n);
      AfterNonempty(s.bs, s.tail, NewBreak(s.brk, n), n);
      var nb := NewBreak(s.brk, n);
      match After(s.bs, s.tail, nb, n)
      case None => 0
      case Some(cs) => 1 + Rounds(HeapState(cs, nb, nb), n)
  }

  /** The operation is one of the kernel allocator that no block fits. */
  predicate NeedsRoom(bs: seq<Block>, op: HeapOp) {
    match op
    case Alloc(size, kernel) => kernel && size > 0 && FirstFit(bs, AlignUp(size)) == |bs|
    case Dealloc(_) => false
    case Resize(a, size, kernel) =>
      && kernel && size > 0 && LiveAt(bs, a)
      && !InPlace(bs, IndexOf(bs, a), AlignUp(size), kernel) && FirstFit(bs, AlignUp(size)) == |bs|
  }

  function Step(s: HeapState, op: HeapOp): Result
    requires s.bs != [] && 0 <= s.brk < WORD
  {
    if NeedsRoom(s.bs, op) then
      var n := AlignUp(op.size);
      match Grab(s, n)
      case Goes(g) =>
        var i := FirstFit(g.bs, n);
        if i == |g.bs| then Goes(g)
        else if op.Alloc? then Goes(HeapState(Allocate(g.bs, i, n), TailSplit(g.bs, i, n, g.tail), g.brk))
        else Unfollowed
      case r => r
    else Goes(HeapState(HeapStep(s.bs, op), TailStep(s.bs, op, s.tail), s.brk))
  }

  /** Expansions in an operation that leave a list. */
  function RoundsOf(s: HeapState, op: HeapOp): nat
    requires s.bs != [] && 0 <= s.brk < WORD
  {
    if NeedsRoom(s.bs, op) then Rounds(s, AlignUp(op.size)) else 0
  }

  /** Where n bytes are found, or 0. */
  function Served(s: HeapState, n: nat): int {
    if FirstFit(s.bs, n) < |s.bs| then s.bs[FirstFit(s.bs, n)].addr + HEADER else 0
  }

  lemma GrabFits(s: HeapState, n: nat)
    requires s.bs != [] && 0 <= s.brk < WORD && FirstFit(s.bs, n) < |s.bs|
    ensures Grab(s, n) == Goes(s) && Rounds(s, n) == 0
  {}

  lemma RoundsMore(s: HeapState, n: nat)
    requires s.bs != [] && 0 <= s.brk < WORD && Rounds(s, n) > 0
    ensures FirstFit(s.bs, n) == |s.bs| && !Refuses(s, n) && !Astray(s, n)
    ensures var nb := NewBreak(s.brk, n);
      var r := After(s.bs, s.tail, nb, n);
      && r.Some? && r.value != [] && 0 <= nb < WORD
      && Rounds(HeapState(r.value, nb, nb), n) == Rounds(s, n) - 1 && Grab(HeapState(r.value, nb, nb), n) == Grab(s, n)
  {
    hide After, Need;
    if !(FirstFit(s.bs, n) < |s.bs| || Refuses(s, n) || Astray(s, n)) {
      NewBreakIs(s.brk, n);
      AfterNonempty(s.bs, s.tail, NewBreak(s.brk, n), n);
    }
  }

  lemma RoundsEnd(s: HeapState, n: nat)
    requires s.bs != [] && 0 <= s.brk < WORD && Rounds(s, n) == 0 && FirstFit(s.bs, n) == |s.bs|
    ensures Grab(s, n) ==
      if Refuses(s, n) then Goes(s) else if Astray(s, n) then Unfollowed else Broken
    ensures !Refuses(s, n) && !Astray(s, n) ==> After(s.bs, s.tail, NewBreak(s.brk, n), n).None?
  {
    hide After, Need, NewBreak;
  }

  lemma StepFrees(s: HeapState, a: int)
    requires s.bs != [] && 0 <= s.brk < WORD
    ensures !NeedsRoom(s.bs, Resize(a, 0, true))
    ensures Step(s, Resize(a, 0, true)) ==
      Goes(HeapState(HeapStep(s.bs, Dealloc(a)), TailStep(s.bs, Dealloc(a), s.tail), s.brk))
  {}

  /** A reallocation of a live block for which there is room. */
  lemma StepResizes(s: HeapState, a: int, size: size_t)
    requires s.bs != [] && 0 <= s.brk < WORD && LiveAt(s.bs, a) && size > 0
    ensures var i, n, op := IndexOf(s.bs, a), AlignUp(size), Resize(a, size, true);
      && (NeedsRoom(s.bs, op) <==> !InPlace(s.bs, i, n, true) && FirstFit(s.bs, n) == |s.bs|)
      && (!NeedsRoom(s.bs, op) ==>
            Step(s, op) == Goes(HeapState(Resized(s.bs, i, n, true), TailResized(s.bs, i, n, true, s.tail), s.brk)))
  {
    hide InPlace, Resized, TailResized, FirstFit, AlignUp, Grab;
  }

  lemma NotInPlaceTail(bs: seq<Block>, i: int, n: int, t: int)
    requires 0 <= i < |bs| && !InPlace(bs, i, n, true)
    ensures FirstFit(bs, n) < |bs| ==>
      Resized(bs, i, n, true) == Moved(bs, i, n) && TailResized(bs, i, n, true, t) == TailMoved(bs, i, n, t)
    ensures n > bs[i].size && !Grows(bs, i, n, true)
  {}

  /** Without room a reallocation expands the heap as an allocation of the rounded size does. */
  lemma NoRoomResize(s: HeapState, lo: int, hi: int, a: int, size: size_t)
    requires Sound(s, lo, hi) && s.bs != [] && NeedsRoom(s.bs, Resize(a, size, true))
    requires AlignUp(AlignUp(size)) == AlignUp(size) && 0 < AlignUp(size) < WORD && AlignUp(size) % ALIGN == 0
    ensures var n, op := AlignUp(size), Resize(a, size, true);
      var r := Step(s, Alloc(n, true));
      && RoundsOf(s, op) == RoundsOf(s, Alloc(n, true)) && NeedsRoom(s.bs, Alloc(n, true))
      && Step(s, op) == (if r.Goes? && Served(Grab(s, n).s, n) != 0 then Unfollowed else r)
  {
    hide AlignUp, Rounds, Allocate, TailSplit, Tiles;
    GrabSound(s, lo, hi, AlignUp(size));
    match Grab(s, AlignUp(size))
    case Goes(g) =>
      var i := FirstFit(g.bs, AlignUp(size));
      if i < |g.bs| { Within(g.bs, lo, hi, i); }
    case _ =>
  }

  /** What the code computes for one expansion. */
  lemma NeedFacts(brk: int, n: nat)
    requires 0 <= brk < WORD && brk % ALIGN == 0
    ensures Need(n) == AlignUp((n + HEADER) % WORD) && NewBreak(brk, n) == (brk - Need(n)) % WORD
    ensures HEADER <= Need(n) <= brk ==>
      NewBreak(brk, n) == brk - Need(n) && NewBreak(brk, n) + HEADER <= brk && NewBreak(brk, n) % ALIGN == 0
  {
    NeedAligned(brk, n);
    if Need(n) <= brk { BreakIs(brk, n); }
  }

  /** An expansion is refused if and only if it reserves more than lies between the region's start and the break, and
      no more than the break's address: beyond that the address wraps around and is granted. */
  lemma RefusesExactly(s: HeapState, lo: int, hi: int, n: nat)
    requires Sound(s, lo, hi) && s.bs != []
    ensures Refuses(s, n) <==> s.brk - lo < Need(n) <= s.brk
  {
    hide Tiles, Need;
    TilesEnd(s.bs, lo, hi);
    if Need(n) <= s.brk { BreakIs(s.brk, n); } else { assert NewBreak(s.brk, n) == s.brk - Need(n) + WORD; }
  }

  lemma SplitTail(bs: seq<Block>, lo: int, hi: int, i: int, n: int, t: int)
    requires Tiles(bs, lo, hi) && 0 <= i < |bs| && 0 <= n && n % ALIGN == 0 && InRegion(t, lo, hi)
    ensures InRegion(TailSplit(bs, i, n, t), lo, hi)
  {
    hide Tiles, Aligned;
    Within(bs, lo, hi, i);
    AlignedAt(bs, lo, hi, i);
    SplitAligned(bs[i], n);
    RestAligned(bs[i], n);
  }

  lemma RestAligned(b: Block, n: int)
    requires Aligned(b) && n % ALIGN == 0
    ensures Rest(b, n).addr % ALIGN == 0
  {}

  lemma AlignedAt(bs: seq<Block>, lo: int, hi: int, i: int)
    requires Tiles(bs, lo, hi) && 0 <= i < |bs|
    ensures Aligned(bs[i]) && bs[i].addr % ALIGN == 0
  {}

  lemma ReleaseTail(bs: seq<Block>, lo: int, hi: int, i: int, t: int)
    requires Tiles(bs, lo, hi) && 0 <= i < |bs| && InRegion(t, lo, hi)
    ensures InRegion(TailRelease(bs, i, t), lo, hi)
  {
    hide Tiles, Aligned;
    Within(bs, lo, hi, i);
    AlignedAt(bs, lo, hi, i);
    if i > 0 {
      Within(bs, lo, hi, i - 1);
      AlignedAt(bs, lo, hi, i - 1);
    }
  }

  lemma ResizedTail(bs: seq<Block>, lo: int, hi: int, i: int, n: int, kernel: bool, t: int)
    requires Tiles(bs, lo, hi) && 0 <= i < |bs| && 0 <= n && n % ALIGN == 0 && InRegion(t, lo, hi)
    ensures InRegion(TailResized(bs, i, n, kernel, t), lo, hi)
  {
    hide Tiles, TailSplit, TailRelease, Grows, GrowsTo, IndexOf;
    if n <= bs[i].size {
      SplitTail(bs, lo, hi, i, n, t);
    } else if Grows(bs, i, n, kernel) {
      var j := GrowsTo(bs, i, n, kernel);
      JoinTiles(bs, lo, hi, i, j);
      SplitTail(Join(bs, i, j), lo, hi, i, n, t);
    } else if FirstFit(bs, n) < |bs| {
      var f := FirstFit(bs, n);
      SplitTail(bs, lo, hi, f, n, t);
      AllocateTiles(bs, lo, hi, f, n);
      var b1 := Allocate(bs, f, n);
      if LiveAt(b1, bs[i].addr) { ReleaseTail(b1, lo, hi, IndexOf(b1, bs[i].addr), TailSplit(bs, f, n, t)); }
    }
  }

  lemma StepTail(bs: seq<Block>, lo: int, hi: int, op: HeapOp, t: int)
    requires Tiles(bs, lo, hi) && InRegion(t, lo, hi)
    ensures InRegion(TailStep(bs, op, t), lo, hi)
  {
    hide Tiles, TailSplit, TailRelease, TailResized, IndexOf, AlignUp;
    match op
    case Alloc(size, _) =>
      if FirstFit(bs, AlignUp(size)) < |bs| { SplitTail(bs, lo, hi, FirstFit(bs, AlignUp(size)), AlignUp(size), t); }
    case Dealloc(a) => if LiveAt(bs, a) { ReleaseTail(bs, lo, hi, IndexOf(bs, a), t); }
    case Resize(a, size, kernel) =>
      if LiveAt(bs, a) {
        ReleaseTail(bs, lo, hi, IndexOf(bs, a), t);
        ResizedTail(bs, lo, hi, IndexOf(bs, a), AlignUp(size), kernel, t);
      }
  }

  lemma NeedAligned(brk: int, n: nat)
    requires brk % ALIGN == 0
    ensures (brk - Need(n)) % ALIGN == 0
  {}

  /** However often the heap is expanded, the list tiles the region as long as there is one. */
  lemma {:induction false} GrabSound(s: HeapState, lo: int, hi: int, n: nat)
    requires Sound(s, lo, hi) && s.bs != [] && n % ALIGN == 0
    ensures Grab(s, n).Goes? ==> Sound(Grab(s, n).s, lo, hi) && Grab(s, n).s.bs != []
    decreases s.brk
  {
    hide Tiles, After, Need;
    TilesEnd(s.bs, lo, hi);
    if !(FirstFit(s.bs, n) < |s.bs| || Refuses(s, n)) && !Astray(s, n) {
      var nb := NewBreak(s.brk, n);
      NewBreakIs(s.brk, n);
      NeedAligned(s.brk, n);
      AfterTiles(s.bs, lo, hi, s.tail, nb, n);
      AfterNonempty(s.bs, s.tail, nb, n);
      match After(s.bs, s.tail, nb, n)
      case None =>
      case Some(cs) => GrabSound(HeapState(cs, nb, nb), lo, hi, n);
    }
  }

  /** An operation that goes on leaves a list that tiles the region. */
  lemma StepSound(s: HeapState, lo: int, hi: int, op: HeapOp)
    requires Sound(s, lo, hi) && s.bs != []
    ensures Step(s, op).Goes? ==> Sound(Step(s, op).s, lo, hi) && Step(s, op).s.bs != []
  {
    hide Tiles, TailSplit, TailStep, HeapStep, Grab, AlignUp, NeedsRoom;
    if NeedsRoom(s.bs, op) {
      NeedsSize(s.bs, op);
      var n := AlignUp(op.size);
      AlignBelow(op.size);
      GrabSound(s, lo, hi, n);
      match Grab(s, n)
      case Goes(g) =>
        var i := FirstFit(g.bs, n);
        if i < |g.bs| {
          AllocateTiles(g.bs, lo, hi, i, n);
          SplitTail(g.bs, lo, hi, i, n, g.tail);
          TilesEnd(Allocate(g.bs, i, n), lo, hi);
        }
      case _ =>
    } else {
      StepTiles(s.bs, lo, hi, op);
      StepTail(s.bs, lo, hi, op, s.tail);
      TilesEnd(HeapStep(s.bs, op), lo, hi);
    }
  }

  lemma NeedsSize(bs: seq<Block>, op: HeapOp)
    requires NeedsRoom(bs, op)
    ensures !op.Dealloc? && op.size > 0
  {}

  // ---------------------------------------------------------------------
  // When a list survives an expansion
  // ---------------------------------------------------------------------

  /** With the tail pointer at the last block no list survives. */
  lemma LastTailBreaks(bs: seq<Block>, lo: int, hi: int, nb: int, n: int)
    requires Tiles(bs, lo, hi)
    ensures After(bs, bs[|bs| - 1].addr, nb, n) == None
  {
    hide Tiles, Misses, Hit;
    TilesEnd(bs, lo, hi);
    var last := |bs| - 1;
    TailIs(bs, lo, hi, last, bs[last].addr);
    if Hit(bs, bs[last].addr + 32) != last { HitOnce(bs, lo, hi, bs[last].addr + 32, last); }
  }

  /** The range lies in the payload of a block. */
  predicate Inside(bs: seq<Block>, a: int, len: int) {
    exists k :: 0 <= k < |bs| && bs[k].addr + HEADER <= a && a + len <= End(bs[k])
  }

  /** A range of the region meets no header if and only if it lies in one payload. */
  lemma InsideExactly(bs: seq<Block>, lo: int, hi: int, a: int, len: int)
    requires Tiles(bs, lo, hi) && lo <= a && 0 < len && a + len <= hi
    ensures Inside(bs, a, len) <==> forall k :: 0 <= k < |bs| ==> a + len <= bs[k].addr || bs[k].addr + HEADER <= a
  {
    hide Tiles;
    if k :| 0 <= k < |bs| && bs[k].addr + HEADER <= a && a + len <= End(bs[k]) {
      forall j | 0 <= j < |bs| ensures a + len <= bs[j].addr || bs[j].addr + HEADER <= a {
        if j != k {
          PayloadsDisjoint(bs, lo, hi, j, k);
          Within(bs, lo, hi, j);
        }
      }
    }
    if forall k :: 0 <= k < |bs| ==> a + len <= bs[k].addr || bs[k].addr + HEADER <= a {
      TilesEnd(bs, lo, hi);
      var k := Holder(bs, lo, hi, a, 0);
      NextStarts(bs, lo, hi, k);
      assert bs[k].addr + HEADER <= a && a + len <= End(bs[k]);
    }
  }

  lemma NextStarts(bs: seq<Block>, lo: int, hi: int, k: int)
    requires Tiles(bs, lo, hi) && 0 <= k < |bs|
    ensures if k < |bs| - 1 then bs[k + 1].addr == End(bs[k]) else End(bs[k]) == hi
  {}

  lemma {:induction false} Holder(bs: seq<Block>, lo: int, hi: int, a: int, j: int) returns (k: int)
    requires Tiles(bs, lo, hi) && 0 <= j < |bs| && bs[j].addr <= a < hi
    ensures 0 <= k < |bs| && bs[k].addr <= a < End(bs[k])
    decreases |bs| - j
  {
    hide Tiles;
    NextStarts(bs, lo, hi, j);
    k := j;
    if a >= End(bs[j]) { k := Holder(bs, lo, hi, a, j + 1); }
  }

  lemma WordClear(t: int, a: int)
    requires t % ALIGN == 0 && a % ALIGN == 0
    ensures !(a <= t < a + HEADER) <==> t + 8 <= a || a + HEADER <= t
  {
    var x, y := t / ALIGN, a / ALIGN;
    assert t == 8 * x && a == 8 * y;
  }

  lemma Plus32(t: int)
    requires t % ALIGN == 0
    ensures (t + 32) % ALIGN == 0
  {}

  /** Both writes miss every header, and the list survives as it is, if and only if the new header lies in a
      payload and so does the next field of the tail. */
  lemma MissesExactly(bs: seq<Block>, lo: int, hi: int, tail: int, nb: int, n: int)
    requires Tiles(bs, lo, hi) && lo <= nb && nb + HEADER <= hi && InRegion(tail, lo, hi)
    ensures Misses(bs, nb) && Hit(bs, tail + 32) == |bs| <==> Inside(bs, nb, HEADER) && Inside(bs, tail + 32, 8)
    ensures Inside(bs, nb, HEADER) && Inside(bs, tail + 32, 8) ==> After(bs, tail, nb, n) == Some(bs)
  {
    hide Tiles, Inside, Hit;
    InsideExactly(bs, lo, hi, nb, HEADER);
    InsideExactly(bs, lo, hi, tail + 32, 8);
    Plus32(tail);
    forall k | 0 <= k < |bs|
      ensures !(bs[k].addr <= tail + 32 < bs[k].addr + HEADER) <==>
        tail + 32 + 8 <= bs[k].addr || bs[k].addr + HEADER <= tail + 32
    {
      AlignedAt(bs, lo, hi, k);
      WordClear(tail + 32, bs[k].addr);
    }
    assert Misses(bs, nb) <==> forall k :: 0 <= k < |bs| ==> nb + HEADER <= bs[k].addr || bs[k].addr + HEADER <= nb;
  }

  // ---------------------------------------------------------------------
  // When the tail pointer goes stale
  // ---------------------------------------------------------------------

  function Last(bs: seq<Block>): int
    requires bs != []
  {
    bs[|bs| - 1].addr
  }

  /** The operation grows a block in place over the last one. */
  predicate GrowsOverLast(bs: seq<Block>, op: HeapOp) {
    && op.Resize? && op.size > 0 && LiveAt(bs, op.addr)
    && var i, n := IndexOf(bs, op.addr), AlignUp(op.size);
       n > bs[i].size && Grows(bs, i, n, op.kernel) && GrowsTo(bs, i, n, op.kernel) == |bs| - 1
  }

  lemma AddressesDiffer(bs: seq<Block>, lo: int, hi: int, i: int, j: int)
    requires Tiles(bs, lo, hi) && 0 <= i < |bs| && 0 <= j < |bs| && i != j
    ensures bs[i].addr != bs[j].addr
  {
    hide Tiles;
    PayloadsDisjoint(bs, lo, hi, i, j);
    Within(bs, lo, hi, i);
    Within(bs, lo, hi, j);
  }

  lemma SplitKeepsTail(bs: seq<Block>, lo: int, hi: int, i: int, n: int)
    requires Tiles(bs, lo, hi) && 0 <= i < |bs|
    ensures Split(bs, i, n) != [] && TailSplit(bs, i, n, Last(bs)) == Last(Split(bs, i, n))
  {
    hide Tiles;
    if i < |bs| - 1 { AddressesDiffer(bs, lo, hi, i, |bs| - 1); }
  }

  lemma AllocateKeepsTail(bs: seq<Block>, lo: int, hi: int, i: int, n: int)
    requires Tiles(bs, lo, hi) && 0 <= i < |bs|
    ensures Allocate(bs, i, n) != [] && TailSplit(bs, i, n, Last(bs)) == Last(Allocate(bs, i, n))
  {
    hide Tiles, TailSplit;
    SplitKeepsTail(bs, lo, hi, i, n);
  }

  lemma ReleaseKeepsTail(bs: seq<Block>, lo: int, hi: int, i: int)
    requires Tiles(bs, lo, hi) && 0 <= i < |bs|
    ensures Release(bs, i) != [] && TailRelease(bs, i, Last(bs)) == Last(Release(bs, i))
  {
    hide Tiles;
    var m := Mark(bs, i, true);
    MarkTiles(bs, lo, hi, i, true);
    if i < |m| - 1 {
      MergeTiles(m, lo, hi, i);
      if i + 1 < |m| - 1 { AddressesDiffer(m, lo, hi, i + 1, |m| - 1); }
    }
    var b := MergeNext(m, i);
    if i < |b| - 1 { AddressesDiffer(b, lo, hi, i, |b| - 1); }
  }

  lemma MoveKeepsTail(bs: seq<Block>, lo: int, hi: int, i: int, n: int)
    requires Tiles(bs, lo, hi) && 0 <= i < |bs| && 0 <= n && n % ALIGN == 0 && FirstFit(bs, n) < |bs|
    ensures Moved(bs, i, n) != [] && TailMoved(bs, i, n, Last(bs)) == Last(Moved(bs, i, n))
  {
    hide Tiles, TailSplit, TailRelease, Release, IndexOf, Split, Allocate;
    var f := FirstFit(bs, n);
    AllocateKeepsTail(bs, lo, hi, f, n);
    AllocateTiles(bs, lo, hi, f, n);
    var b := Allocate(bs, f, n);
    if LiveAt(b, bs[i].addr) { ReleaseKeepsTail(b, lo, hi, IndexOf(b, bs[i].addr)); }
  }

  lemma GrowthTail(bs: seq<Block>, lo: int, hi: int, i: int, j: int, n: int)
    requires Tiles(bs, lo, hi) && 0 <= i < j < |bs| && Span(bs, i, j - 1) < n
    ensures Grown(bs, i, j, n) != []
    ensures TailSplit(Join(bs, i, j), i, n, Last(bs)) == Last(Grown(bs, i, j, n)) <==> j < |bs| - 1
  {
    hide Tiles;
    AddressesDiffer(bs, lo, hi, i, |bs| - 1);
    NextStarts(bs, lo, hi, j - 1);
  }

  /** An operation for which there is room leaves the tail pointer at the last block if and only if it does not
      grow a block in place over the last one. */
  lemma StepKeepsTail(bs: seq<Block>, lo: int, hi: int, op: HeapOp)
    requires Tiles(bs, lo, hi) && bs != []
    ensures HeapStep(bs, op) != []
    ensures TailStep(bs, op, Last(bs)) == Last(HeapStep(bs, op)) <==> !GrowsOverLast(bs, op)
  {
    hide Tiles, AlignUp, TailSplit, TailRelease, Release, Allocate, FirstFit, IndexOf;
    match op
    case Alloc(size, _) =>
      var n := AlignUp(size);
      if FirstFit(bs, n) < |bs| { AllocateKeepsTail(bs, lo, hi, FirstFit(bs, n), n); }
    case Dealloc(a) => if LiveAt(bs, a) { ReleaseKeepsTail(bs, lo, hi, IndexOf(bs, a)); }
    case Resize(a, size, kernel) =>
      if LiveAt(bs, a) {
        ReleaseKeepsTail(bs, lo, hi, IndexOf(bs, a));
        ResizeKeepsTail(bs, lo, hi, IndexOf(bs, a), AlignUp(size), kernel);
      }
  }

  lemma ResizeKeepsTail(bs: seq<Block>, lo: int, hi: int, i: int, n: int, kernel: bool)
    requires Tiles(bs, lo, hi) && 0 <= i < |bs| && 0 <= n && n % ALIGN == 0
    ensures Resized(bs, i, n, kernel) != []
    ensures TailResized(bs, i, n, kernel, Last(bs)) == Last(Resized(bs, i, n, kernel)) <==>
      !(n > bs[i].size && Grows(bs, i, n, kernel) && GrowsTo(bs, i, n, kernel) == |bs| - 1)
  {
    hide Tiles, TailSplit, Split, Moved, TailMoved, Reach;
    SplitKeepsTail(bs, lo, hi, i, n);
    if n > bs[i].size {
      if Grows(bs, i, n, kernel) { GrowthTail(bs, lo, hi, i, GrowsTo(bs, i, n, kernel), n); }
      else if FirstFit(bs, n) < |bs| { MoveKeepsTail(bs, lo, hi, i, n); }
    }
  }

  // ---------------------------------------------------------------------
  // Histories
  // ---------------------------------------------------------------------

  /** All operations of a history, as far as the code is followed. */
  ghost function StateRun(s: HeapState, ops: seq<HeapOp>, lo: int, hi: int): (r: Result)
    requires Sound(s, lo, hi) && s.bs != []
    ensures r.Goes? ==> Sound(r.s, lo, hi)
    decreases |ops|
  {
    if ops == [] then Goes(s)
    else
      StepSound(s, lo, hi, ops[0]);
      if Step(s, ops[0]).Goes? then StateRun(Step(s, ops[0]).s, ops[1..], lo, hi) else Step(s, ops[0])
  }

  /** For no operation of the history does the kernel allocator lack room. */
  predicate Roomy(bs: seq<Block>, ops: seq<HeapOp>)
    decreases |ops|
  {
    ops == [] || (!NeedsRoom(bs, ops[0]) && Roomy(HeapStep(bs, ops[0]), ops[1..]))
  }

  /** Such a history is one of the allocator without expansions, and all that holds of those holds of it. */
  lemma {:induction false} RoomyRun(s: HeapState, ops: seq<HeapOp>, lo: int, hi: int)
    requires Sound(s, lo, hi) && s.bs != [] && Roomy(s.bs, ops)
    ensures StateRun(s, ops, lo, hi).Goes? && StateRun(s, ops, lo, hi).s.bs == HeapRun(s.bs, ops)
    ensures StateRun(s, ops, lo, hi).s.brk == s.brk
    decreases |ops|
  {
    hide Tiles, NeedsRoom, HeapStep, TailStep, Grab;
    if ops != [] {
      StepSound(s, lo, hi, ops[0]);
      RoomyRun(Step(s, ops[0]).s, ops[1..], lo, hi);
    }
  }

  predicate ByKernel(op: HeapOp) { !op.Dealloc? && op.kernel }

  lemma {:induction false} UserRoomy(bs: seq<Block>, ops: seq<HeapOp>)
    requires forall k :: 0 <= k < |ops| ==> !ByKernel(ops[k])
    ensures Roomy(bs, ops)
    decreases |ops|
  {
    if ops != [] {
      assert !ByKernel(ops[0]);
      UserRoomy(HeapStep(bs, ops[0]), ops[1..]);
    }
  }

  /** When room is lacking and the tail pointer is at the last block, an expansion that is neither refused nor goes
      astray breaks the list. */
  lemma FirstExpansionBreaks(s: HeapState, lo: int, hi: int, op: HeapOp)
    requires Sound(s, lo, hi) && s.bs != [] && s.tail == Last(s.bs) && NeedsRoom(s.bs, op)
    ensures Step(s, op) ==
      if Refuses(s, AlignUp(op.size)) then Goes(s) else if Astray(s, AlignUp(op.size)) then Unfollowed else Broken
  {
    hide Tiles, After, AlignUp, Need, NewBreak;
    NeedsFit(s.bs, op);
    LastTailBreaks(s.bs, lo, hi, NewBreak(s.brk, AlignUp(op.size)), AlignUp(op.size));
  }

  lemma NeedsFit(bs: seq<Block>, op: HeapOp)
    requires NeedsRoom(bs, op)
    ensures !op.Dealloc? && FirstFit(bs, AlignUp(op.size)) == |bs|
  {}

  // ---------------------------------------------------------------------
  // Histories from the start in which this happens
  // ---------------------------------------------------------------------

  function Started(lo: int, hi: int): HeapState { HeapState(Initial(lo, hi), lo, hi) }

  lemma StartedSound(lo: int, hi: int)
    requires 0 < lo && lo + HEADER <= hi < WORD && lo % ALIGN == 0 && hi % ALIGN == 0
    ensures Sound(Started(lo, hi), lo, hi)
  {}

  lemma NeedIs(n: nat)
    requires n % ALIGN == 0 && n + HEADER < WORD
    ensures Need(n) == n + HEADER
  {
    AlignedAsIs(n + HEADER);
  }

  /** When all memory is allocated, the next request of the kernel breaks the list. */
  lemma BreakHappens(lo: int, hi: int)
    requires 0 < lo && lo % ALIGN == 0 && hi % ALIGN == 0 && hi < WORD && lo + MIN_SPLIT <= hi
    ensures Sound(Started(lo, hi), lo, hi)
    ensures StateRun(Started(lo, hi), [Alloc(hi - lo - HEADER, true), Alloc(8, true)], lo, hi) == Broken
  {
    hide AlignUp, Sound, After, Need, Tiles, StateRun;
    StartedSound(lo, hi);
    var op1, op2 := Alloc(hi - lo - HEADER, true), Alloc(8, true);
    var s := HeapState([Block(lo, hi - lo - HEADER, false)], lo, hi);
    AlignedAsIs(hi - lo - HEADER);
    AlignedAsIs(8);
    NeedIs(8);
    AllTaken(lo, hi);
    StepSound(Started(lo, hi), lo, hi, op1);
    NewBreakIs(hi, 8);
    FirstExpansionBreaks(s, lo, hi, op2);
    RunTwo(Started(lo, hi), op1, s, op2, lo, hi);
  }

  lemma AllTaken(lo: int, hi: int)
    requires 0 <= lo && lo + HEADER < hi < WORD && AlignUp(hi - lo - HEADER) == hi - lo - HEADER
    ensures Step(Started(lo, hi), Alloc(hi - lo - HEADER, true)) ==
      Goes(HeapState([Block(lo, hi - lo - HEADER, false)], lo, hi))
  {
    assert FirstFit(Initial(lo, hi), hi - lo - HEADER) == 0;
  }

  lemma RunTwo(s: HeapState, op1: HeapOp, s1: HeapState, op2: HeapOp, lo: int, hi: int)
    requires Sound(s, lo, hi) && s.bs != [] && Step(s, op1) == Goes(s1)
    ensures Sound(s1, lo, hi) && s1.bs != [] && StateRun(s, [op1, op2], lo, hi) == Step(s1, op2)
  {
    hide Sound, Step;
    StepSound(s, lo, hi, op1);
    assert [op1, op2][1..] == [op2] && [op2][1..] == [];
    RunOne(s1, op2, lo, hi);
  }

  lemma RunOne(s: HeapState, op: HeapOp, lo: int, hi: int)
    requires Sound(s, lo, hi) && s.bs != []
    ensures StateRun(s, [op], lo, hi) == Step(s, op)
  {
    hide Sound, Step;
    StepSound(s, lo, hi, op);
    assert [op][1..] == [];
  }

  /** One live block over the whole region, with a stale tail pointer inside it: every expansion writes into its
      payload, until one is refused. */
  lemma {:induction false} StarvedSurvives(lo: int, hi: int, tail: int, brk: int, n: nat, need: nat, q: nat)
    requires 8 <= lo && lo % ALIGN == 0 && hi < WORD && brk <= hi && lo + 8 <= tail && n > 0 && lo + HEADER >= need
    requires Need(n) == need == n + HEADER && brk == lo + HEADER + q * need
    ensures var s := HeapState([Block(lo, hi - lo - HEADER, false)], tail, brk);
      Grab(s, n) == Goes(s.(tail := if q == 0 then tail else lo + HEADER, brk := lo + HEADER)) && Rounds(s, n) == q
    decreases q
  {
    hide Need, NewBreak, After, FirstFit, Grab, Rounds;
    var bs := [Block(lo, hi - lo - HEADER, false)];
    var s := HeapState(bs, tail, brk);
    NoneFree(bs, n);
    if q == 0 {
      assert brk == lo + HEADER;
      Ends(s, n);
    } else {
      var nb := brk - need;
      OneLess(q, need);
      MissesOne(bs, tail, nb, n);
      GoesOn(s, n, nb);
      StarvedSurvives(lo, hi, nb, nb, n, need, q - 1);
    }
  }

  lemma OneLess(q: nat, x: nat)
    requires q > 0
    ensures q * x == (q - 1) * x + x && (q - 1) * x >= 0
  {}

  lemma NoneFree(bs: seq<Block>, n: nat)
    requires |bs| == 1 && !bs[0].free
    ensures FirstFit(bs, n) == 1
  {}

  lemma Ends(s: HeapState, n: nat)
    requires s.bs != [] && 0 <= s.brk < WORD && FirstFit(s.bs, n) == |s.bs| && Need(n) <= s.brk
    requires s.brk - Need(n) < s.bs[0].addr
    ensures Grab(s, n) == Goes(s) && Rounds(s, n) == 0
  {
    hide Need, After, NewBreak;
    BreakIs(s.brk, n);
  }

  lemma BreakIs(brk: int, n: nat)
    requires Need(n) <= brk < WORD
    ensures NewBreak(brk, n) == brk - Need(n)
  {
    hide Need;
  }

  /** One expansion that the list survives. */
  lemma GoesOn(s: HeapState, n: nat, nb: int)
    requires s.bs != [] && 0 <= s.brk < WORD && FirstFit(s.bs, n) == |s.bs| && HEADER <= Need(n) <= s.brk
    requires nb == s.brk - Need(n) >= s.bs[0].addr && After(s.bs, s.tail, nb, n) == Some(s.bs)
    ensures Grab(s, n) == Grab(HeapState(s.bs, nb, nb), n) && Rounds(s, n) == 1 + Rounds(HeapState(s.bs, nb, nb), n)
  {
    hide Need, After;
    NewBreakIs(s.brk, n);
  }

  lemma MissesOne(bs: seq<Block>, tail: int, nb: int, n: int)
    requires |bs| == 1 && nb >= bs[0].addr + HEADER && tail + 32 >= bs[0].addr + HEADER
    ensures After(bs, tail, nb, n) == Some(bs)
  {}

  /** In a region of 1000 bytes: allocate 64, grow them to all there is, and request 8 more. The heap is expanded 20
      times, each time into the payload of the live block, until the request fails; the list is as before. */
  lemma SurvivalHappens(lo: int)
    requires 8 <= lo && lo % ALIGN == 0 && lo + 1000 < WORD
    ensures Sound(Started(lo, lo + 1000), lo, lo + 1000)
    ensures StateRun(Started(lo, lo + 1000), [Alloc(64, true), Resize(lo, 960, true), Alloc(8, true)], lo, lo + 1000)
      == Goes(HeapState([Block(lo, 960, false)], lo + HEADER, lo + HEADER))
  {
    hide Sound, Step, StateRun;
    var hi := lo + 1000;
    StartedSound(lo, hi);
    var op1, op2, op3 := Alloc(64, true), Resize(lo, 960, true), Alloc(8, true);
    StepSound(Started(lo, hi), lo, hi, op1);
    Given64(lo);
    Grown960(lo);
    Asked8(lo);
    assert [op1, op2, op3][1..] == [op2, op3];
    RunMore(Started(lo, hi), [op1, op2, op3], lo, hi);
    RunTwo(HeapState([Block(lo, 64, false), Block(lo + 104, 856, true)], lo + 104, hi), op2,
           HeapState([Block(lo, 960, false)], lo + 104, hi), op3, lo, hi);
  }

  lemma RunMore(s: HeapState, ops: seq<HeapOp>, lo: int, hi: int)
    requires Sound(s, lo, hi) && s.bs != [] && ops != [] && Step(s, ops[0]).Goes?
    ensures Sound(Step(s, ops[0]).s, lo, hi) && Step(s, ops[0]).s.bs != []
    ensures StateRun(s, ops, lo, hi) == StateRun(Step(s, ops[0]).s, ops[1..], lo, hi)
  {
    StepSound(s, lo, hi, ops[0]);
  }

  lemma Given64(lo: int)
    requires 0 < lo && lo + 1000 < WORD
    ensures Step(Started(lo, lo + 1000), Alloc(64, true)) ==
      Goes(HeapState([Block(lo, 64, false), Block(lo + 104, 856, true)], lo + 104, lo + 1000))
  {
    AlignedAsIs(64);
    assert FirstFit(Initial(lo, lo + 1000), 64) == 0;
  }

  lemma Grown960(lo: int)
    requires 0 < lo && lo + 1000 < WORD
    ensures var s := HeapState([Block(lo, 64, false), Block(lo + 104, 856, true)], lo + 104, lo + 1000);
      Step(s, Resize(lo, 960, true)) == Goes(HeapState([Block(lo, 960, false)], lo + 104, lo + 1000))
  {
    AlignedAsIs(960);
    var bs := [Block(lo, 64, false), Block(lo + 104, 856, true)];
    assert IndexOf(bs, lo) == 0 && Reach(bs, 0, 1, 960) == 1 && Reach(bs, 0, 0, 960) == 1;
    assert Join(bs, 0, 1) == [Block(lo, 960, false)];
  }

  lemma Asked8(lo: int)
    requires 8 <= lo && lo % ALIGN == 0 && lo + 1000 < WORD
    ensures Step(HeapState([Block(lo, 960, false)], lo + 104, lo + 1000), Alloc(8, true)) ==
      Goes(HeapState([Block(lo, 960, false)], lo + HEADER, lo + HEADER))
  {
    hide Need, Grab;
    AlignedAsIs(8);
    NeedIs(8);
    StarvedSurvives(lo, lo + 1000, lo + 104, lo + 1000, 8, 48, 20);
  }

  lemma BlockInRegion(bs: seq<Block>, lo: int, hi: int, i: int)
    requires Tiles(bs, lo, hi) && 0 <= i < |bs|
    ensures InRegion(bs[i].addr, lo, hi)
  {
    hide Tiles;
    Within(bs, lo, hi, i);
    AlignedAt(bs, lo, hi, i);
  }
}
