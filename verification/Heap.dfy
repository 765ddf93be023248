/** The heap allocators over bytes: headers are read from and written to memory, and the block
    list is followed through its pointers. The kernel and the user allocator share this code
    except for the magic number, for realloc and for the expansion of the kernel heap. */
module Heap {
  import opened Basics
  import opened BlockList
  import opened HeapMemory
  import opened HeapList
  import opened KernelHeap
  import opened HeapCases
  import opened HeapExpansion

  class Heap {
    const mem: array<byte>
    const lo: int
    const hi: int
    const magic: int
    var head: int
    var tail: int
    var brk: int
    ghost var bs: seq<Block>

    ghost predicate Valid()
      reads this, mem
    {
      && 0 < lo && lo % ALIGN == 0 && hi == mem.Length && hi < WORD && 0 <= magic < 0x1_0000_0000 && head == lo
      && InRegion(tail, lo, hi) && IsBreak(brk, lo, hi)
      && Tiles(bs, lo, hi) && Rep(mem[..], bs, magic)
    }

    ghost function State(): HeapState
      reads this
    {
      HeapState(bs, tail, brk)
    }

    /** The list and the tail pointer after an operation that no expansion is needed for. */
    twostate predicate Stepped(op: HeapOp)
      reads this
    {
      bs == HeapStep(old(bs), op) && tail == TailStep(old(bs), op, old(tail))
    }

    /** Some list that tiles the region can be read from memory. */
    ghost predicate Tiled()
      reads this, mem
    {
      exists cs :: Tiles(cs, lo, hi) && Rep(mem[..], cs, magic)
    }

    /** Cuts a block down to req bytes, if the rest can hold a block. */
    method SplitBlock(ghost i: int, h: int, req: int)
      requires Valid() && 0 <= i < |bs| && h == bs[i].addr && req % ALIGN == 0 && 0 <= req
      modifies this`tail, this`bs, mem
      ensures Valid() && bs == Split(old(bs), i, req) && tail == TailSplit(old(bs), i, req, old(tail))
      ensures Keeps(old(mem[..]), mem[..], lo, Blocks(bs))
    {
      hide Load, Tiles, Touched, Keeps, Outside, Rep, InRegion, IsBreak;
      Links(mem[..], bs, lo, hi, magic, i);
      SplitTiles(bs, lo, hi, i, req);
      SplitTail(bs, lo, hi, i, req, tail);
      ghost var m := mem[..];
      var hd := Load(mem[..], h);
      if hd.size < req + MIN_SPLIT {
        KeepsAll(m, lo, Blocks(bs));
        return;
      }
      var newh := h + HEADER + req;
      if i < |bs| - 1 { Links(m, bs, lo, hi, magic, i + 1); }
      WriteHeader(mem, newh, Header(magic, hd.size - req - HEADER, 1, h, hd.next));
      TouchedOnce(m, mem[..], newh);
      ghost var s := {newh};
      ghost var m1 := mem[..];
      if hd.next != 0 {
        SetPrev(mem, hd.next, newh);
        TouchedThen(m, m1, mem[..], s, hd.next);
        LoadOutside(m, m1, newh, newh + HEADER, hd.next);
        LoadOutside(m1, mem[..], hd.next, hd.next + HEADER, newh);
        s := s + {hd.next};
      }
      ghost var m2 := mem[..];
      LoadUntouched(m, m2, s, h);
      SetSizeNext(mem, h, req, newh);
      TouchedThen(m, m2, mem[..], s, h);
      LoadOutside(m2, mem[..], h, h + HEADER, newh);
      if hd.next != 0 { LoadOutside(m2, mem[..], h, h + HEADER, hd.next); }
      if tail == h { tail := newh; }
      SplitDone(m, mem[..], bs, lo, hi, i, req, magic, s + {h});
      bs := Split(bs, i, req);
    }

    /** The block at h absorbs its successors up to block j, whose end is `next`'s start. */
    method JoinBlocks(ghost i: int, ghost j: int, h: int, size: int, next: int)
      requires Valid() && 0 <= i < j < |bs| && h == bs[i].addr && size == Span(bs, i, j)
      requires next == HeaderOf(bs, j, magic).next
      modifies this`bs, mem
      ensures Valid() && bs == Join(old(bs), i, j)
      ensures Keeps(old(mem[..]), mem[..], lo, Blocks(bs))
      ensures Touched(old(mem[..]), mem[..], if next == 0 then {h} else {h} + {next})
    {
      hide InRegion, IsBreak, Load, Tiles, Touched, Keeps, Outside;
      Links(mem[..], bs, lo, hi, magic, i);
      Links(mem[..], bs, lo, hi, magic, j);
      Ordered(bs, lo, hi, i, j);
      JoinTiles(bs, lo, hi, i, j);
      ghost var m := mem[..];
      SetSizeNext(mem, h, size, next);
      TouchedOnce(m, mem[..], h);
      ghost var s := {h};
      ghost var m1 := mem[..];
      if j < |bs| - 1 {
        Within(bs, lo, hi, j + 1);
        Ordered(bs, lo, hi, i, j + 1);
      }
      if next != 0 {
        SetPrev(mem, next, h);
        TouchedThen(m, m1, mem[..], s, next);
        LoadOutside(m, m1, h, h + HEADER, next);
        LoadOutside(m1, mem[..], next, next + HEADER, h);
        s := s + {next};
      }
      JoinDone(m, mem[..], bs, lo, hi, i, j, magic, s);
      bs := Join(bs, i, j);
    }

    method SetMark(ghost i: int, h: int, free: bool)
      requires Valid() && 0 <= i < |bs| && h == bs[i].addr
      modifies this`bs, mem
      ensures Valid() && bs == Mark(old(bs), i, free)
      ensures Keeps(old(mem[..]), mem[..], lo, Blocks(bs))
      ensures Touched(old(mem[..]), mem[..], {h})
    {
      hide InRegion, IsBreak, Load, Tiles, Touched, Keeps, Outside;
      Within(bs, lo, hi, i);
      MarkTiles(bs, lo, hi, i, free);
      ghost var m := mem[..];
      SetFree(mem, h, if free then 1 else 0);
      TouchedOnce(m, mem[..], h);
      SplitOthers(m, mem[..], bs, lo, hi, i, i, {h});
      MarkRep(m, mem[..], bs, i, free, magic);
      bs := Mark(bs, i, free);
      assert bs[i].addr == h;
      HeadersKeep(m, mem[..], bs, lo, hi, {h}, i);
    }

    /** The block absorbs its successor if that is free. */
    method AbsorbNext(ghost i: int, h: int)
      requires Valid() && 0 <= i < |bs| && h == bs[i].addr && bs[i].free
      modifies this`tail, this`bs, mem
      ensures Valid() && bs == MergeNext(old(bs), i) && Live(bs) == Live(old(bs))
      ensures tail == TailMergeNext(old(bs), i, old(tail))
      ensures Keeps(old(mem[..]), mem[..], lo, Live(bs))
    {
      hide InRegion, IsBreak, Load, Tiles, Keeps;
      ghost var m := mem[..];
      KeepsAll(m, lo, Live(bs));
      Links(m, bs, lo, hi, magic, i);
      var hd := Load(mem[..], h);
      if hd.next != 0 {
        Links(m, bs, lo, hi, magic, i + 1);
        var n := Load(mem[..], hd.next);
        if n.free != 0 {
          JoinIsMerge(bs, lo, hi, i);
          MergeLive(bs, i);
          JoinBlocks(i, i + 1, h, hd.size + HEADER + n.size, n.next);
          KeepsThen(m, m, mem[..], lo, Live(bs), Blocks(bs));
          if tail == hd.next { tail := h; }
          BlockInRegion(bs, lo, hi, i);
        }
      }
    }

    /** The predecessor absorbs the block if it is free. */
    method AbsorbPrev(ghost i: int, h: int)
      requires Valid() && 0 <= i < |bs| && h == bs[i].addr && bs[i].free
      modifies this`tail, this`bs, mem
      ensures Valid() && bs == MergePrev(old(bs), i) && Live(bs) == Live(old(bs))
      ensures tail == TailMergePrev(old(bs), i, old(tail))
      ensures Keeps(old(mem[..]), mem[..], lo, Live(bs))
      ensures InMemory(mem[..], h) && Load(mem[..], h).free == 1
    {
      hide InRegion, IsBreak, Load, Tiles, Keeps, Touched, Rep;
      ghost var m := mem[..];
      KeepsAll(m, lo, Live(bs));
      Links(m, bs, lo, hi, magic, i);
      var hd := Load(mem[..], h);
      if hd.prev != 0 {
        Links(m, bs, lo, hi, magic, i - 1);
        var p := Load(mem[..], hd.prev);
        if p.free != 0 {
          JoinIsMerge(bs, lo, hi, i - 1);
          MergeLive(bs, i - 1);
          Ordered(bs, lo, hi, i - 1, i);
          if i < |bs| - 1 { Ordered(bs, lo, hi, i, i + 1); }
          JoinBlocks(i - 1, i, hd.prev, p.size + HEADER + hd.size, hd.next);
          LoadUntouched(m, mem[..], if hd.next == 0 then {hd.prev} else {hd.prev} + {hd.next}, h);
          KeepsThen(m, m, mem[..], lo, Live(bs), Blocks(bs));
          if tail == h { tail := hd.prev; }
          BlockInRegion(bs, lo, hi, i - 1);
        }
      }
    }

    /** Merges the block with free neighbours. */
    method CoalesceAt(ghost i: int, h: int)
      requires Valid() && 0 <= i < |bs| && h == bs[i].addr && bs[i].free
      modifies this`tail, this`bs, mem
      ensures Valid() && bs == Coalesce(old(bs), i) && Live(bs) == Live(old(bs))
      ensures tail == TailMergePrev(MergeNext(old(bs), i), i, TailMergeNext(old(bs), i, old(tail)))
      ensures Keeps(old(mem[..]), mem[..], lo, Live(bs))
      ensures InMemory(mem[..], h) && Load(mem[..], h).free == 1
    {
      hide InRegion, IsBreak, Load, Tiles, Keeps, Rep, Live;
      ghost var m := mem[..];
      AbsorbNext(i, h);
      ghost var m1 := mem[..];
      AbsorbPrev(i, h);
      KeepsThen(m, m1, mem[..], lo, Live(bs), Live(bs));
    }

    method FindFit(n: int) returns (h: int, ghost i: int)
      requires Valid()
      ensures i == FirstFit(bs, n)
      ensures h == (if FirstFit(bs, n) < |bs| then bs[FirstFit(bs, n)].addr else 0)
      ensures h == 0 <==> FirstFit(bs, n) == |bs|
    {
      hide InRegion, IsBreak, Load;
      h, i := head, 0;
      while h != 0
        invariant 0 <= i <= |bs| && h == if i < |bs| then bs[i].addr else 0
        invariant forall k :: 0 <= k < i ==> !(bs[k].free && bs[k].size >= n)
        invariant h == 0 <==> i == |bs|
        decreases |bs| - i
      {
        Links(mem[..], bs, lo, hi, magic, i);
        var hd := Load(mem[..], h);
        if hd.free != 0 && hd.size >= n { break; }
        h, i := hd.next, i + 1;
      }
    }

    /** What allocating does: the lowest free block that is large enough is taken. */
    twostate predicate Allocated(size: size_t, kernel: bool, p: int)
      reads this, mem
    {
      var i := FirstFit(old(bs), AlignUp(size));
      && Stepped(Alloc(size, kernel))
      && Keeps(old(mem[..]), mem[..], lo, Live(old(bs)))
      && if size == 0 || i == |old(bs)| then p == 0 && mem[..] == old(mem[..])
         else p == old(bs)[i].addr + HEADER
    }

    /** Takes n bytes from block i. */
    method TakeFit(ghost i: int, h: int, n: int)
      requires Valid() && 0 <= i < |bs| && bs[i].free && bs[i].size >= n >= 0 && n % ALIGN == 0 && h == bs[i].addr
      modifies this`tail, this`bs, mem
      ensures Valid() && bs == Allocate(old(bs), i, n) && tail == TailSplit(old(bs), i, n, old(tail))
      ensures Keeps(old(mem[..]), mem[..], lo, Live(old(bs)))
    {
      hide InRegion, IsBreak, Load, Tiles, Touched, Keeps, Outside, Rep;
      ghost var m, all := mem[..], bs;
      KeepsAll(m, lo, Live(bs));
      AllocateLive(bs, i, n);
      SplitBlock(i, h, n);
      KeepsThen(m, m, mem[..], lo, Live(all), Blocks(bs));
      ghost var m1 := mem[..];
      SetMark(i, h, false);
      KeepsThen(m, m1, mem[..], lo, Live(all), Blocks(bs));
    }

    /** Allocation; 0 when the size is 0 or no free block is large enough. */
    method Malloc(size: size_t) returns (p: int)
      requires Valid()
      modifies this`tail, this`bs, mem
      ensures Valid() && Allocated(size, false, p)
    {
      hide InRegion, IsBreak, Load, Tiles, Keeps, Rep, Allocate, TailSplit, Live;
      KeepsAll(mem[..], lo, Live(bs));
      if size == 0 { return 0; }
      var n := AlignUp(size);
      var h, i := FindFit(n);
      if h == 0 { return 0; }
      TakeFit(i, h, n);
      p := h + HEADER;
    }

    constructor (size: int, start: int, magic: int)
      requires 0 < start && start % ALIGN == 0 && size % ALIGN == 0 && HEADER <= size && start + size < WORD
      requires 0 <= magic < 0x1_0000_0000
      ensures Valid() && fresh(mem) && lo == start && hi == start + size && this.magic == magic
      ensures State() == Started(lo, hi)
    {
      hide Load, Rep, Tiles, Outside, HeaderOf;
      this.mem := new byte[start + size](_ => 0);
      this.lo, this.hi, this.magic := start, start + size, magic;
      head, tail, brk := start, start, start + size;
      bs := [Block(start, size - HEADER, true)];
      new;
      WriteHeader(mem, start, Header(magic, size - HEADER, 1, 0, 0));
      InitialRep(mem[..], lo, hi, magic);
    }

    /** Frees a block. Passing a pointer whose header does not look live changes nothing; one
        that looks live must be live. A pointer just freed no longer looks live. */
    method Free(p: int)
      requires Valid() && (p == 0 || InMemory(mem[..], p - HEADER))
      requires p != 0 && LooksLive(Load(mem[..], p - HEADER)) ==> LiveAt(bs, p - HEADER)
      modifies this`tail, this`bs, mem
      ensures Valid() && if p == 0 then State() == old(State()) else Stepped(Dealloc(p - HEADER))
      ensures p == 0 || !LiveAt(old(bs), p - HEADER) ==> mem[..] == old(mem[..])
      ensures p != 0 ==> !LooksLive(Load(mem[..], p - HEADER))
      ensures Keeps(old(mem[..]), mem[..], lo, Live(bs))
    {
      hide InRegion, IsBreak, Tiles, Touched, Keeps, Load;
      ghost var m := mem[..];
      KeepsAll(m, lo, Live(bs));
      if p == 0 { return; }
      var h := p - HEADER;
      ghost var i := IndexOf(bs, h);
      if i < |bs| { Links(m, bs, lo, hi, magic, i); }
      var hd := Load(mem[..], h);
      if hd.magic != magic || hd.free != 0 { return; }
      ReleaseLive(bs, lo, hi, i);
      SetMark(i, h, true);
      ghost var m1, b1 := mem[..], bs;
      CoalesceAt(i, h);
      LiveIsBlock(bs, b1);
      KeepsThen(m, m, m1, lo, Live(bs), Blocks(b1));
      KeepsThen(m, m1, mem[..], lo, Live(bs), Live(bs));
    }

    predicate LooksLive(h: Header) { h.magic == magic && h.free == 0 }

    /** Freeing twice in a row is freeing once. */
    method FreeTwice(p: int)
      requires Valid() && InMemory(mem[..], p - HEADER) && p != 0 && LiveAt(bs, p - HEADER)
      modifies this`tail, this`bs, mem
      ensures Valid() && Stepped(Dealloc(p - HEADER))
    {
      hide InRegion, IsBreak, Tiles, Rep, Load, Keeps;
      Free(p);
      NotLive(mem[..], bs, lo, hi, magic, p - HEADER);
      Free(p);
    }

    // -------------------------------------------------------------------
    // Reallocation
    // -------------------------------------------------------------------

    /** memcpy of the first len payload bytes of block k into the payload of block j. */
    method Copy(ghost j: int, ghost k: int, q: int, p: int, len: int)
      requires Valid() && 0 <= j < |bs| && 0 <= k < |bs| && j != k && 0 <= len <= bs[j].size && len <= bs[k].size
      requires q == bs[j].addr + HEADER && p == bs[k].addr + HEADER
      modifies mem
      ensures Valid()
      ensures SameBytes(old(mem[..]), mem[..], p, q, len)
      ensures Keeps(old(mem[..]), mem[..], lo, Blocks(bs) - {bs[j]})
    {
      hide InRegion, IsBreak, Tiles, Load;
      Links(mem[..], bs, lo, hi, magic, j);
      Links(mem[..], bs, lo, hi, magic, k);
      Within(bs, lo, hi, j);
      PayloadsDisjoint(bs, lo, hi, j, k);
      ghost var m := mem[..];
      forall x | 0 <= x < len { mem[q + x] := mem[p + x]; }
      assert Outside(m, mem[..], q, q + len);
      PayloadWritten(m, mem[..], bs, lo, hi, magic, j, len);
    }

    /** Copies live block k into live block f and frees k. */
    method CopyAndFree(ghost f: int, ghost k: int, q: int, p: int, size: int)
      requires Valid() && 0 <= f < |bs| && 0 <= k < |bs| && f != k && !bs[f].free && !bs[k].free
      requires q == bs[f].addr + HEADER && p == bs[k].addr + HEADER && size == bs[k].size <= bs[f].size
      modifies this`tail, this`bs, mem
      ensures Valid() && bs == Release(old(bs), k) && tail == TailRelease(old(bs), k, old(tail))
      ensures SameBytes(old(mem[..]), mem[..], p, q, size)
      ensures Keeps(old(mem[..]), mem[..], lo, Live(old(bs)) - {old(bs)[k], old(bs)[f]})
    {
      hide InRegion, IsBreak, Tiles, Load, Keeps, Rep, SameBytes, Live, IndexOf, Release;
      ghost var m, b1 := mem[..], bs;
      Links(m, bs, lo, hi, magic, f);
      Links(m, bs, lo, hi, magic, k);
      Copy(f, k, q, p, size);
      ghost var m2, rest := mem[..], Live(b1) - {b1[k], b1[f]};
      TwoLive(b1, lo, hi, f, k);
      KeepsLess(m, m2, lo, Blocks(b1) - {b1[f]}, rest);
      Links(m2, b1, lo, hi, magic, k);
      Free(p);
      KeepsThen(m, m2, mem[..], lo, rest, Live(bs));
      KeptBytes(m2, mem[..], lo, Live(bs), b1[f], size);
      SameThen(m, m2, mem[..], p, q, q, size);
    }

    /** After n bytes have been allocated in list b0, copies the payload of block i there and frees it. */
    method FinishMove(ghost b0: seq<Block>, ghost i: int, ghost m: seq<byte>, ghost t: int,
                      p: int, q: int, size: int, ghost n: int)
      requires Valid() && Tiles(b0, lo, hi) && 0 <= i < |b0| && !b0[i].free && p == b0[i].addr + HEADER
      requires size == b0[i].size < n && n % ALIGN == 0 && FirstFit(b0, n) < |b0|
      requires q == b0[FirstFit(b0, n)].addr + HEADER && End(b0[i]) <= mem.Length && 0 < lo <= b0[i].addr
      requires bs == Allocate(b0, FirstFit(b0, n), n) && tail == TailSplit(b0, FirstFit(b0, n), n, t)
      requires Keeps(m, mem[..], lo, Live(b0)) && 0 <= size
      modifies this`tail, this`bs, mem
      ensures Valid() && bs == Moved(b0, i, n) && tail == TailMoved(b0, i, n, t)
      ensures SameBytes(m, mem[..], p, q, size) && Keeps(m, mem[..], lo, Live(b0) - {b0[i]})
    {
      hide InRegion, IsBreak, Tiles, Load, Keeps, Rep, SameBytes, Live, Allocate, FirstFit, IndexOf, Release, TailSplit,
        TailRelease;
      ghost var f, rest, b1, m1 := FirstFit(b0, n), Live(b0) - {b0[i]}, bs, mem[..];
      MoveFacts(b0, lo, hi, i, n);
      ghost var k := IndexOf(b1, b0[i].addr);
      KeepsLess(m, m1, lo, Live(b0), rest);
      KeptBytes(m, m1, lo, Live(b0), b0[i], size);
      CopyAndFree(f, k, q, p, size);
      SameThen(m, m1, mem[..], p, p, q, size);
      KeepsThen(m, m1, mem[..], lo, rest, Live(b1) - {b1[k], b1[f]});
    }

    /** Allocates anew, copies the old payload and frees it. */
    method Move(ghost i: int, p: int, size: int, n: size_t) returns (q: int)
      requires Valid() && 0 <= i < |bs| && !bs[i].free && p == bs[i].addr + HEADER && size == bs[i].size
      requires size < n && n % ALIGN == 0
      modifies this`tail, this`bs, mem
      ensures Valid()
      ensures FirstFit(old(bs), n) == |old(bs)| ==> q == 0 && State() == old(State()) && mem[..] == old(mem[..])
      ensures FirstFit(old(bs), n) < |old(bs)| ==>
        && q == old(bs)[FirstFit(old(bs), n)].addr + HEADER && bs == Moved(old(bs), i, n)
        && tail == TailMoved(old(bs), i, n, old(tail))
        && SameBytes(old(mem[..]), mem[..], p, q, size)
      ensures Keeps(old(mem[..]), mem[..], lo, Live(old(bs)) - {old(bs)[i]})
    {
      hide InRegion, IsBreak, Tiles, Load, Keeps, Rep, SameBytes, Live, Allocate, FirstFit, Moved, TailMoved, AlignUp,
        TailSplit;
      AlignIdempotent(n);
      ghost var m, b0, t := mem[..], bs, tail;
      Links(m, bs, lo, hi, magic, i);
      if FirstFit(bs, n) < |bs| { Links(m, bs, lo, hi, magic, FirstFit(bs, n)); }
      q := Malloc(n);
      KeepsLess(m, mem[..], lo, Live(b0), Live(b0) - {b0[i]});
      if q != 0 { FinishMove(b0, i, m, t, p, q, size, n); }
    }

    /** Cuts live block i down to n bytes. */
    method Shrink(ghost i: int, h: int, n: int)
      requires Valid() && 0 <= i < |bs| && !bs[i].free && h == bs[i].addr && 0 <= n <= bs[i].size && n % ALIGN == 0
      modifies this`tail, this`bs, mem
      ensures Valid() && bs == Split(old(bs), i, n) && tail == TailSplit(old(bs), i, n, old(tail))
      ensures SameBytes(old(mem[..]), mem[..], h + HEADER, h + HEADER, n)
      ensures Keeps(old(mem[..]), mem[..], lo, Live(old(bs)) - {old(bs)[i]})
    {
      hide InRegion, IsBreak, Tiles, Load, Keeps, Rep, SameBytes;
      ghost var m, rest := mem[..], Live(bs) - {bs[i]};
      GrownOthers(bs, lo, hi, i, i, n);
      JoinSelf(bs, i);
      SplitBlock(i, h, n);
      Links(mem[..], bs, lo, hi, magic, i);
      KeptBytes(m, mem[..], lo, Blocks(bs), bs[i], n);
      KeepsLess(m, mem[..], lo, Blocks(bs), rest);
    }

    /** Gives back what a live block does not need. */
    method Trim(ghost i: int, h: int, n: int)
      requires Valid() && 0 <= i < |bs| && !bs[i].free && h == bs[i].addr && 0 <= n && n % ALIGN == 0
      modifies this`tail, this`bs, mem
      ensures Valid() && bs == Split(old(bs), i, n) && tail == TailSplit(old(bs), i, n, old(tail))
      ensures Keeps(old(mem[..]), mem[..], lo, Blocks(bs))
    {
      hide InRegion, IsBreak, Tiles, Load, Keeps, Rep, Touched;
      ghost var m := mem[..];
      SplitBlock(i, h, n);
      ghost var m1, b1 := mem[..], bs;
      SetMark(i, h, false);
      assert bs == b1;
      KeepsThen(m, m1, mem[..], lo, Blocks(bs), Blocks(bs));
    }

    /** After block i has absorbed the blocks up to j of list b0, it is trimmed to n bytes. */
    method FinishGrow(ghost i: int, ghost j: int, h: int, n: int, ghost m: seq<byte>, ghost b0: seq<Block>)
      requires Valid() && 0 <= i < j < |b0| && Tiles(b0, lo, hi) && !b0[i].free && h == b0[i].addr
      requires 0 <= b0[i].size < n <= Span(b0, i, j) && n % ALIGN == 0 && forall k :: i < k <= j ==> b0[k].free
      requires bs == Join(b0, i, j) && Keeps(m, mem[..], lo, Blocks(bs))
      modifies this`tail, this`bs, mem
      ensures Valid() && bs == Grown(b0, i, j, n) && tail == TailSplit(Join(b0, i, j), i, n, old(tail))
      ensures SameBytes(m, mem[..], h + HEADER, h + HEADER, b0[i].size)
      ensures Keeps(m, mem[..], lo, Live(b0) - {b0[i]})
    {
      hide InRegion, IsBreak, Tiles, Load, Keeps, Rep, SameBytes;
      ghost var m1, b1, rest := mem[..], bs, Live(b0) - {b0[i]};
      GrownOthers(b0, lo, hi, i, j, n);
      Links(m1, b1, lo, hi, magic, i);
      SameLength(m, m1, lo, Blocks(b1));
      KeptBytes(m, m1, lo, Blocks(b1), b1[i], b0[i].size);
      KeepsLess(m, m1, lo, Blocks(b1), rest);
      Trim(i, h, n);
      Links(mem[..], bs, lo, hi, magic, i);
      KeptBytes(m1, mem[..], lo, Blocks(bs), bs[i], b0[i].size);
      KeepsThen(m, m1, mem[..], lo, rest, Blocks(bs));
      SameThen(m, m1, mem[..], h + HEADER, h + HEADER, h + HEADER, b0[i].size);
    }

    /** What reallocating live block i to n > 0 bytes does: the bytes common to both sizes and all
        other live payloads stay, and failure changes nothing. */
    twostate predicate Reallocated(i: int, kernel: bool, p: int, n: int, q: int)
      requires 0 <= i < |old(bs)|
      reads this, mem
    {
      var b := old(bs)[i];
      && bs == Resized(old(bs), i, n, kernel)
      && Keeps(old(mem[..]), mem[..], lo, Live(old(bs)) - {b})
      && (q != 0 ==> SameBytes(old(mem[..]), mem[..], p, q, Min(b.size, n)))
      && if n <= b.size || Grows(old(bs), i, n, kernel) then q == p
         else if FirstFit(old(bs), n) == |old(bs)| then q == 0 && mem[..] == old(mem[..])
         else q == old(bs)[FirstFit(old(bs), n)].addr + HEADER
    }

    /** Grows block i to n bytes over its successor, if that is free and large enough. */
    method GrowOverNext(ghost i: int, h: int, n: int) returns (ok: bool)
      requires Valid() && 0 <= i < |bs| && !bs[i].free && h == bs[i].addr && bs[i].size < n && n % ALIGN == 0
      modifies this`tail, this`bs, mem
      ensures Valid() && ok == UserGrows(old(bs), i, n)
      ensures !ok ==> bs == old(bs) && mem[..] == old(mem[..]) && tail == old(tail)
      ensures ok ==> bs == Grown(old(bs), i, i + 1, n) && tail == TailSplit(Join(old(bs), i, i + 1), i, n, old(tail))
      ensures ok ==> SameBytes(old(mem[..]), mem[..], h + HEADER, h + HEADER, old(bs)[i].size)
      ensures ok ==> Keeps(old(mem[..]), mem[..], lo, Live(old(bs)) - {old(bs)[i]})
    {
      hide InRegion, IsBreak, Tiles, Load, Keeps, Rep, SameBytes;
      Links(mem[..], bs, lo, hi, magic, i);
      var hd := Load(mem[..], h);
      if hd.next == 0 { return false; }
      Links(mem[..], bs, lo, hi, magic, i + 1);
      var next := Load(mem[..], hd.next);
      if next.free == 0 || hd.size + HEADER + next.size < n { return false; }
      ghost var m, b0 := mem[..], bs;
      JoinBlocks(i, i + 1, h, hd.size + HEADER + next.size, next.next);
      FinishGrow(i, i + 1, h, n, m, b0);
      ok := true;
    }

    /** realloc of the user allocator: shrinks, grows over one free successor, or moves. */
    method UserRealloc(p: int, newSize: size_t) returns (q: int)
      requires Valid() && (p == 0 || LiveAt(bs, p - HEADER))
      modifies this`tail, this`bs, mem
      ensures Valid()
      ensures p == 0 ==> Allocated(newSize, false, q)
      ensures p != 0 ==> Stepped(Resize(p - HEADER, newSize, false))
      ensures p != 0 && newSize == 0 ==> q == 0 && Keeps(old(mem[..]), mem[..], lo, Live(bs))
      ensures p != 0 && newSize != 0 ==>
        var i := IndexOf(old(bs), p - HEADER);
        Reallocated(i, false, p, AlignUp(newSize), q) && Returns(old(bs), i, AlignUp(newSize), false, q)
    {
      hide InRegion, IsBreak, Tiles, Load, Keeps, Rep, SameBytes, IndexOf, FirstFit, AlignUp, Returns;
      if p == 0 { q := Malloc(newSize); return; }
      var h := p - HEADER;
      ghost var i := IndexOf(bs, h);
      Links(mem[..], bs, lo, hi, magic, i);
      if newSize == 0 { Free(p); return 0; }
      var n := AlignUp(newSize);
      var hd := Load(mem[..], h);
      if n <= hd.size {
        Shrink(i, h, n);
        q := p;
      } else {
        var grown := GrowOverNext(i, h, n);
        if grown { q := p; } else { q := Move(i, p, hd.size, n); }
      }
      ReturnsIs(old(bs), lo, hi, i, n, false, q);
    }

    /** Measures how far block i can grow to n bytes over free successors. */
    method Measure(ghost i: int, h: int, n: int) returns (sum: int)
      requires Valid() && 0 <= i < |bs| && h == bs[i].addr
      ensures sum == Span(bs, i, Reach(bs, i, i, n))
    {
      hide InRegion, IsBreak, Load, Rep, Tiles, Reach;
      Links(mem[..], bs, lo, hi, magic, i);
      var hd := Load(mem[..], h);
      sum := hd.size;
      var cur := hd.next;
      ghost var j := i;
      while cur != 0
        invariant i <= j < |bs| && sum == Span(bs, i, j) && cur == if j < |bs| - 1 then bs[j + 1].addr else 0
        invariant Reach(bs, i, j, n) == Reach(bs, i, i, n)
        decreases |bs| - j
      {
        RunStep(mem[..], bs, lo, hi, magic, i, j, n);
        var c := Load(mem[..], cur);
        if !(c.free != 0 && sum < n) { break; }
        sum, cur, j := sum + HEADER + c.size, c.next, j + 1;
      }
      if j < |bs| - 1 { RunStep(mem[..], bs, lo, hi, magic, i, j, n); } else { ReachEnd(bs, i, n); }
    }

    /** Block i absorbs free successors until it has n bytes: its size grows in memory block by
        block, then the pointers are set. */
    method MergeRun(ghost i: int, h: int, n: int) returns (ghost j: int)
      requires Valid() && 0 <= i < |bs| - 1 && h == bs[i].addr && bs[i + 1].free && bs[i].size < n
      modifies this`bs, mem
      ensures Valid() && i < j == Reach(old(bs), i, i, n) && bs == Join(old(bs), i, j)
      ensures Keeps(old(mem[..]), mem[..], lo, Blocks(bs))
    {
      hide InRegion, IsBreak, Load, Rep, Tiles, Touched, Keeps, Outside, Reach;
      ghost var m := mem[..];
      Links(m, bs, lo, hi, magic, i);
      var to := Load(mem[..], h).next;
      j := i;
      OutsideSelf(m, h, h + HEADER);
      while to != 0
        invariant bs == old(bs) && i <= j < |bs| && to == if j < |bs| - 1 then bs[j + 1].addr else 0
        invariant Outside(m, mem[..], h, h + HEADER) && Load(mem[..], h) == Load(m, h).(size := Span(bs, i, j))
        invariant Reach(bs, i, j, n) == Reach(bs, i, i, n)
        decreases |bs| - j
      {
        RunStep(m, bs, lo, hi, magic, i, j, n);
        LoadOutside(m, mem[..], h, h + HEADER, to);
        var c := Load(mem[..], to);
        var size := Load(mem[..], h).size;
        if !(c.free != 0 && size < n) { break; }
        ghost var m1 := mem[..];
        SetSize(mem, h, size + HEADER + c.size);
        OutsideThen(m, m1, mem[..], h, h + HEADER);
        to, j := c.next, j + 1;
      }
      if j < |bs| - 1 { RunStep(m, bs, lo, hi, magic, i, j, n); } else { ReachEnd(bs, i, n); }
      RunStarts(bs, i, n);
      FinishRun(i, j, h, to, m);
    }

    /** Sets the pointers around a block that has already taken over the size of blocks i to j. */
    method FinishRun(ghost i: int, ghost j: int, h: int, to: int, ghost m: seq<byte>)
      requires 0 < lo && lo % ALIGN == 0 && hi == mem.Length == |m| && hi < WORD && head == lo
      requires 0 <= magic < 0x1_0000_0000
      requires InRegion(tail, lo, hi) && IsBreak(brk, lo, hi)
      requires Tiles(bs, lo, hi) && Rep(m, bs, magic) && 0 <= i < j < |bs| && h == bs[i].addr
      requires InMemory(m, h) && Outside(m, mem[..], h, h + HEADER)
      requires Load(mem[..], h) == Load(m, h).(size := Span(bs, i, j)) && to == HeaderOf(bs, j, magic).next
      modifies this`bs, mem
      ensures Valid() && bs == Join(old(bs), i, j) && Keeps(m, mem[..], lo, Blocks(bs))
    {
      hide InRegion, IsBreak, Load, Tiles, Touched, Keeps;
      Links(m, bs, lo, hi, magic, i);
      Links(m, bs, lo, hi, magic, j);
      Ordered(bs, lo, hi, i, j);
      JoinTiles(bs, lo, hi, i, j);
      ghost var s := {h};
      SetNext(mem, h, to);
      assert Outside(m, mem[..], h, h + HEADER);
      TouchedOnce(m, mem[..], h);
      ghost var m1 := mem[..];
      if j < |bs| - 1 {
        Within(bs, lo, hi, j + 1);
        Ordered(bs, lo, hi, i, j + 1);
      }
      if to != 0 {
        SetPrev(mem, to, h);
        TouchedThen(m, m1, mem[..], s, to);
        LoadOutside(m, m1, h, h + HEADER, to);
        LoadOutside(m1, mem[..], to, to + HEADER, h);
        s := s + {to};
      }
      JoinDone(m, mem[..], bs, lo, hi, i, j, magic, s);
      bs := Join(bs, i, j);
    }

    /** Grows live block i to n bytes over free successors, if they suffice. */
    method GrowOverRun(ghost i: int, h: int, n: int) returns (ok: bool)
      requires Valid() && 0 <= i < |bs| && !bs[i].free && h == bs[i].addr && bs[i].size < n && n % ALIGN == 0
      modifies this`tail, this`bs, mem
      ensures Valid() && ok == KernelGrows(old(bs), i, n)
      ensures !ok ==> bs == old(bs) && mem[..] == old(mem[..]) && tail == old(tail)
      ensures ok ==> bs == Grown(old(bs), i, Reach(old(bs), i, i, n), n)
      ensures ok ==> tail == TailSplit(Join(old(bs), i, Reach(old(bs), i, i, n)), i, n, old(tail))
      ensures ok ==> SameBytes(old(mem[..]), mem[..], h + HEADER, h + HEADER, old(bs)[i].size)
      ensures ok ==> Keeps(old(mem[..]), mem[..], lo, Live(old(bs)) - {old(bs)[i]})
    {
      hide InRegion, IsBreak, Tiles, Load, Keeps, Rep, SameBytes, Join;
      ghost var m, b0 := mem[..], bs;
      Links(m, bs, lo, hi, magic, i);
      var hd := Load(mem[..], h);
      if hd.next == 0 { return false; }
      Links(m, bs, lo, hi, magic, i + 1);
      var next := Load(mem[..], hd.next);
      if next.free == 0 { return false; }
      var sum := Measure(i, h, n);
      if sum < n { return false; }
      ghost var j := MergeRun(i, h, n);
      FinishGrow(i, j, h, n, m, b0);
      return true;
    }

    // -------------------------------------------------------------------
    // Expansion of the kernel heap
    // -------------------------------------------------------------------

    /** The magic number of the kernel is odd. */
    predicate OddMagic() { magic % 2 == 1 && magic > 1 }

    /** The header of a new block, and the link to it from the tail. */
    method Graft(nb: int, n: int) returns (ghost m1: seq<byte>)
      requires Valid() && lo <= nb && nb + HEADER <= hi && nb % ALIGN == 0 && 0 <= n < WORD
      modifies this`brk, this`tail, mem
      ensures Grafted(old(mem[..]), m1, mem[..], nb, n, old(tail), magic) && tail == nb && brk == nb
    {
      hide Load, Rep, Tiles, Word;
      WriteHeader(mem, nb, Header(magic, n, 1, tail, 0));
      m1 := mem[..];
      Capacities();
      Store(mem, tail + 32, 8, nb);
      brk, tail := nb, nb;
    }

    /** heap_expand: a new block of n bytes below the break. It is refused if it would start below the region. One
        that goes astray is not followed. Otherwise memory holds the list that After tells, if any, and is changed
        only in the new header and in the next field of the tail. */
    method HeapExpand(n: nat) returns (ok: bool)
      requires Valid() && n < WORD && n % ALIGN == 0 && OddMagic() && bs != []
      modifies this`brk, this`tail, this`bs, mem
      ensures ok <==> !Refuses(old(State()), n)
      ensures !ok || Astray(old(State()), n) ==> Valid() && State() == old(State()) && mem[..] == old(mem[..])
      ensures ok && !Astray(old(State()), n) ==> Extended(n)
    {
      hide Load, Rep, Tiles, Outside, After, Word, Need, Grafted;
      TilesEnd(bs, lo, hi);
      NeedFacts(brk, n);
      var need := AlignUp((n + HEADER) % WORD);
      var nb := (brk - need) % WORD;
      if nb < lo { return false; }
      if need < HEADER || need > brk { return true; }
      ghost var m, t := mem[..], tail;
      ghost var m1 := Graft(nb, n);
      GraftedRanges(m, m1, mem[..], nb, n, t, magic);
      ghost var r := After(bs, t, nb, n);
      forall cs ensures Tiles(cs, lo, hi) && Rep(mem[..], cs, magic) <==> r == Some(cs) {
        AfterExactly(m, m1, mem[..], bs, lo, hi, magic, t, nb, n, cs);
      }
      if r.Some? { bs := r.value; }
      ok := true;
    }

    /** What an expansion for n bytes that is neither refused nor astray does. */
    twostate predicate Extended(n: nat)
      requires old(bs) != []
      reads this, mem
    {
      var nb := NewBreak(old(brk), n);
      var r := After(old(bs), old(tail), nb, n);
      && (if r.Some? then Valid() && State() == HeapState(r.value, nb, nb) else !Tiled())
      && SameBut(old(mem[..]), mem[..], nb, old(tail) + 32) && InMemory(mem[..], nb)
    }

    /** Allocation by the kernel: when no block fits, the heap is expanded until one does or the expansion is
        refused. It is followed up to the first expansion that leaves no list or goes astray; rounds is the number
        of expansions before that. */
    method KernelMalloc(size: size_t, rounds: nat) returns (p: int, stopped: bool)
      requires Valid() && OddMagic() && bs != [] && rounds == RoundsOf(State(), Alloc(size, true))
      modifies this`tail, this`brk, this`bs, mem
      ensures stopped <==> !Step(old(State()), Alloc(size, true)).Goes?
      ensures !stopped ==> Valid() && State() == Step(old(State()), Alloc(size, true)).s
      ensures !stopped ==> p == if size == 0 then 0 else Served(Grab(old(State()), AlignUp(size)).s, AlignUp(size))
      ensures Step(old(State()), Alloc(size, true)).Broken? ==> !Tiled()
      ensures !NeedsRoom(old(bs), Alloc(size, true)) ==> Allocated(size, true, p)
    {
      hide Tiles, Load, Keeps, Rep, Allocate, TailSplit, Live, AlignUp, After, Need, NewBreak, FirstFit;
      KeepsAll(mem[..], lo, Live(bs));
      if size == 0 { return 0, false; }
      var n := AlignUp(size);
      AlignBelow(size);
      if FirstFit(bs, n) < |bs| { GrabFits(State(), n); }
      ghost var m := mem[..];
      var h, i := FindFit(n);
      var k := 0;
      while h == 0 && k < rounds
        invariant Valid() && bs != [] && i == FirstFit(bs, n) && h == (if i < |bs| then bs[i].addr else 0)
        invariant h == 0 <==> i == |bs|
        invariant (k < rounds ==> h == 0) && (h == 0 ==> Rounds(State(), n) == rounds - k)
        invariant Grab(State(), n) == Grab(old(State()), n)
        invariant NeedsRoom(old(bs), Alloc(size, true)) || (State() == old(State()) && mem[..] == m)
        decreases rounds - k
      {
        RoundsMore(State(), n);
        var _ := HeapExpand(n);
        h, i := FindFit(n);
        k := k + 1;
      }
      if h == 0 {
        RoundsEnd(State(), n);
        stopped := HeapExpand(n);
        p := 0;
      } else {
        GrabFits(State(), n);
        TakeFit(i, h, n);
        p, stopped := h + HEADER, false;
      }
    }

    /** Shrinks live block i, or grows it over as many free successors as needed. */
    method ResizeInPlace(ghost i: int, p: int, n: int) returns (ok: bool)
      requires Valid() && 0 <= i < |bs| && !bs[i].free && p == bs[i].addr + HEADER && 0 <= n && n % ALIGN == 0
      modifies this`tail, this`bs, mem
      ensures Valid() && ok == InPlace(old(bs), i, n, true)
      ensures ok ==> Reallocated(i, true, p, n, p) && tail == TailResized(old(bs), i, n, true, old(tail))
      ensures !ok ==> State() == old(State()) && mem[..] == old(mem[..])
    {
      hide InRegion, IsBreak, Tiles, Load, Keeps, Rep, SameBytes, FirstFit, Reach, TailSplit;
      var h := p - HEADER;
      Links(mem[..], bs, lo, hi, magic, i);
      var hd := Load(mem[..], h);
      if n <= hd.size {
        Shrink(i, h, n);
        ok := true;
      } else {
        ok := GrowOverRun(i, h, n);
      }
    }

    /** realloc of the kernel allocator: in place if possible, and otherwise by moving. When no block fits, the heap
        is expanded as in an allocation; if one fits after that, the copy is not followed. */
    method KernelRealloc(p: int, newSize: size_t, rounds: nat) returns (q: int, stopped: bool)
      requires Valid() && OddMagic() && bs != [] && (p == 0 || LiveAt(bs, p - HEADER))
      requires rounds == RoundsOf(State(), Request(p, newSize))
      modifies this`tail, this`brk, this`bs, mem
      ensures stopped <==> !Step(old(State()), Request(p, newSize)).Goes?
      ensures !stopped ==> Valid() && State() == Step(old(State()), Request(p, newSize)).s
      ensures Step(old(State()), Request(p, newSize)).Broken? ==> !Tiled()
      ensures !stopped && NeedsRoom(old(bs), Request(p, newSize)) ==>
        q == if p == 0 then Served(Grab(old(State()), AlignUp(newSize)).s, AlignUp(newSize)) else 0
      ensures p == 0 && !NeedsRoom(old(bs), Request(p, newSize)) ==> Allocated(newSize, true, q)
      ensures p != 0 && newSize == 0 ==> q == 0 && Keeps(old(mem[..]), mem[..], lo, Live(bs))
      ensures p != 0 && newSize != 0 && !NeedsRoom(old(bs), Request(p, newSize)) ==>
        var i := IndexOf(old(bs), p - HEADER);
        Reallocated(i, true, p, AlignUp(newSize), q) && Returns(old(bs), i, AlignUp(newSize), true, q)
    {
      hide Tiles, Load, Keeps, Rep, SameBytes, IndexOf, FirstFit, AlignUp, Grab, Rounds, Step, NeedsRoom, Resized,
        Moved, TailResized, TailMoved, InPlace, Served, Returns;
      stopped := false;
      if p == 0 {
        if NeedsRoom(bs, Alloc(newSize, true)) { NeedsSize(bs, Alloc(newSize, true)); }
        q, stopped := KernelMalloc(newSize, rounds);
        return;
      }
      ghost var i, s := IndexOf(bs, p - HEADER), State();
      Links(mem[..], bs, lo, hi, magic, i);
      if newSize == 0 {
        StepFrees(s, p - HEADER);
        Free(p);
        return 0, false;
      }
      var n := AlignUp(newSize);
      AlignBelow(newSize);
      StepResizes(s, p - HEADER, newSize);
      var ok := ResizeInPlace(i, p, n);
      if ok { q := p; } else { q, stopped := ResizeElsewhere(i, p, newSize, n, rounds); }
      if !NeedsRoom(s.bs, Request(p, newSize)) { ReturnsIs(s.bs, lo, hi, i, n, true, q); }
    }

    /** Moves live block i, or expands the heap when no block fits. */
    method ResizeElsewhere(ghost i: int, p: int, ghost newSize: size_t, n: int, rounds: nat)
      returns (q: int, stopped: bool)
      requires Valid() && OddMagic() && bs != [] && p != 0 && LiveAt(bs, p - HEADER) && i == IndexOf(bs, p - HEADER)
      requires newSize > 0 && n == AlignUp(newSize) && !InPlace(bs, i, n, true)
      requires rounds == RoundsOf(State(), Request(p, newSize))
      modifies this`tail, this`brk, this`bs, mem
      ensures stopped <==> !Step(old(State()), Request(p, newSize)).Goes?
      ensures !stopped ==> Valid() && State() == Step(old(State()), Request(p, newSize)).s
      ensures Step(old(State()), Request(p, newSize)).Broken? ==> !Tiled()
      ensures !stopped && FirstFit(old(bs), n) == |old(bs)| ==> q == 0
      ensures FirstFit(old(bs), n) < |old(bs)| ==> Reallocated(i, true, p, n, q)
    {
      hide Tiles, Load, Keeps, Rep, SameBytes, IndexOf, FirstFit, AlignUp, Grab, Rounds, Step, NeedsRoom, Resized,
        Moved, TailResized, TailMoved, InPlace, Served, RoundsOf;
      stopped := false;
      ghost var s := State();
      AlignBelow(newSize);
      AlignIdempotent(newSize);
      StepResizes(s, p - HEADER, newSize);
      Links(mem[..], bs, lo, hi, magic, i);
      NotInPlaceTail(bs, i, n, tail);
      if FirstFit(bs, n) < |bs| { Links(mem[..], bs, lo, hi, magic, FirstFit(bs, n)); }
      q := Move(i, p, Load(mem[..], p - HEADER).size, n);
      if q == 0 {
        NoRoomResize(s, lo, hi, p - HEADER, newSize);
        q, stopped := KernelMalloc(n, rounds);
        stopped := stopped || q != 0;
      }
    }

    /** The operation that a call of realloc stands for. */
    function Request(p: int, size: size_t): HeapOp {
      if p == 0 then Alloc(size, true) else Resize(p - HEADER, size, true)
    }

    /** Walks the list and counts. */
    method GetStats() returns (s: Stats)
      requires Valid()
      ensures s == StatsOf(bs)
    {
      hide InRegion, IsBreak, Load, Rep;
      s := Stats(0, 0, 0, 0, 0, 0, 0);
      var cur := head;
      ghost var k := 0;
      while cur != 0
        invariant 0 <= k <= |bs| && s == StatsOf(bs[..k]) && cur == if k < |bs| then bs[k].addr else 0
        decreases |bs| - k
      {
        Links(mem[..], bs, lo, hi, magic, k);
        var hd := Load(mem[..], cur);
        s := s.(total := s.total + HEADER + hd.size, blocks := s.blocks + 1);
        if hd.free != 0 {
          s := s.(freeBlocks := s.freeBlocks + 1, free := s.free + hd.size,
                  largest := if hd.size > s.largest then hd.size else s.largest);
        } else {
          s := s.(usedBlocks := s.usedBlocks + 1, used := s.used + hd.size);
        }
        assert bs[..k + 1][..k] == bs[..k];
        cur, k := hd.next, k + 1;
      }
      if k < |bs| { Links(mem[..], bs, lo, hi, magic, k); }
      assert bs[..k] == bs;
    }
  }

  /** Two steps in a row, for blocks that both keep. */
  lemma KeepsThen(m: seq<byte>, m1: seq<byte>, m2: seq<byte>, lo: int, s: set<Block>, t: set<Block>)
    requires Keeps(m, m1, lo, s) && Keeps(m1, m2, lo, t) && s <= t
    ensures Keeps(m, m2, lo, s)
  {}

  lemma KeepsAll(m: seq<byte>, lo: int, s: set<Block>)
    ensures Keeps(m, m, lo, s)
  {}

  lemma LiveIsBlock(bs: seq<Block>, b1: seq<Block>)
    requires Live(bs) == Live(b1)
    ensures Live(bs) <= Blocks(b1)
  {}

  lemma NotLive(m: seq<byte>, bs: seq<Block>, lo: int, hi: int, magic: int, a: int)
    requires Tiles(bs, lo, hi) && Rep(m, bs, magic) && 0 < lo && InMemory(m, a)
    requires Load(m, a).free != 0 || Load(m, a).magic != magic
    ensures !LiveAt(bs, a)
  {
    hide Load, Tiles;
    if IndexOf(bs, a) < |bs| { Links(m, bs, lo, hi, magic, IndexOf(bs, a)); }
  }

  /** The n bytes at q in m' are those at p in m. */
  ghost predicate SameBytes(m: seq<byte>, m': seq<byte>, p: int, q: int, n: int) {
    0 <= n && 0 <= p && 0 <= q && p + n <= |m| && q + n <= |m'| && m'[q..q + n] == m[p..p + n]
  }

  lemma KeepsLess(m: seq<byte>, m': seq<byte>, lo: int, s: set<Block>, t: set<Block>)
    requires Keeps(m, m', lo, s) && t <= s
    ensures Keeps(m, m', lo, t)
  {}

  lemma KeptBytes(m: seq<byte>, m': seq<byte>, lo: int, s: set<Block>, b: Block, n: int)
    requires Keeps(m, m', lo, s) && b in s && 0 <= b.addr && 0 <= n <= b.size && End(b) <= |m|
    ensures SameBytes(m, m', b.addr + HEADER, b.addr + HEADER, n)
  {}

  lemma SameThen(m: seq<byte>, m1: seq<byte>, m2: seq<byte>, p: int, q: int, r: int, n: int)
    requires SameBytes(m, m1, p, q, n) && SameBytes(m1, m2, q, r, n)
    ensures SameBytes(m, m2, p, r, n)
  {}

  /** Writing into a payload leaves the list and the other payloads. */
  lemma PayloadWritten(m: seq<byte>, m': seq<byte>, bs: seq<Block>, lo: int, hi: int, magic: int, j: int, len: int)
    requires Tiles(bs, lo, hi) && Rep(m, bs, magic) && 0 < lo && hi <= |m| && 0 <= j < |bs| && 0 <= len <= bs[j].size
    requires Outside(m, m', bs[j].addr + HEADER, bs[j].addr + HEADER + len)
    ensures Rep(m', bs, magic) && Keeps(m, m', lo, Blocks(bs) - {bs[j]})
  {
    hide Load, Tiles;
    Within(bs, lo, hi, j);
    forall k | 0 <= k < |bs| ensures InMemory(m', bs[k].addr) && Load(m', bs[k].addr) == HeaderOf(bs, k, magic) {
      if k != j { PayloadsDisjoint(bs, lo, hi, j, k); Within(bs, lo, hi, k); }
      LoadOutside(m, m', bs[j].addr + HEADER, bs[j].addr + HEADER + len, bs[k].addr);
    }
    forall b, x | b in bs && b != bs[j] && b.addr + HEADER <= x < End(b) && 0 <= x < |m| ensures m'[x] == m[x] {
      var k :| 0 <= k < |bs| && bs[k] == b;
      PayloadsDisjoint(bs, lo, hi, j, k);
    }
  }

  lemma TwoLive(bs: seq<Block>, lo: int, hi: int, f: int, k: int)
    requires Tiles(bs, lo, hi) && 0 <= f < |bs| && 0 <= k < |bs| && f != k && !bs[f].free && !bs[k].free
    ensures LiveAt(bs, bs[k].addr) && IndexOf(bs, bs[k].addr) == k
    ensures Live(bs) - {bs[k], bs[f]} <= Blocks(bs) - {bs[f]}
    ensures Live(Release(bs, k)) == Live(bs) - {bs[k]} && bs[f] in Live(Release(bs, k))
  {
    hide Tiles;
    AtAddress(bs, lo, hi, bs[k]);
    if IndexOf(bs, bs[k].addr) != k { PayloadsDisjoint(bs, lo, hi, IndexOf(bs, bs[k].addr), k); Within(bs, lo, hi, k); }
    PayloadsDisjoint(bs, lo, hi, f, k);
    Within(bs, lo, hi, k);
    Within(bs, lo, hi, f);
    ReleaseLive(bs, lo, hi, k);
  }

  lemma OutsideSelf(m: seq<byte>, a: int, b: int)
    ensures Outside(m, m, a, b)
  {}

  lemma SameLength(m: seq<byte>, m': seq<byte>, lo: int, s: set<Block>)
    requires Keeps(m, m', lo, s)
    ensures |m'| == |m|
  {}

  lemma OutsideThen(m: seq<byte>, m1: seq<byte>, m2: seq<byte>, a: int, b: int)
    requires Outside(m, m1, a, b) && Outside(m1, m2, a, b)
    ensures Outside(m, m2, a, b)
  {}

  /** One step of a run of free blocks. */
  lemma RunStep(m: seq<byte>, bs: seq<Block>, lo: int, hi: int, magic: int, i: int, j: int, n: int)
    requires Tiles(bs, lo, hi) && Rep(m, bs, magic) && 0 < lo && hi < WORD && 0 <= i <= j < |bs| - 1
    ensures InMemory(m, bs[j + 1].addr) && Load(m, bs[j + 1].addr) == HeaderOf(bs, j + 1, magic)
    ensures 0 < bs[i].addr && bs[i].addr + HEADER <= bs[j + 1].addr
    ensures 0 <= Span(bs, i, j + 1) == Span(bs, i, j) + HEADER + bs[j + 1].size < WORD
    ensures Reach(bs, i, j, n) == if bs[j + 1].free && Span(bs, i, j) < n then Reach(bs, i, j + 1, n) else j
  {
    hide Load, Rep, Tiles;
    Links(m, bs, lo, hi, magic, i);
    Links(m, bs, lo, hi, magic, j);
    Links(m, bs, lo, hi, magic, j + 1);
    Ordered(bs, lo, hi, i, j + 1);
  }

  lemma ReachEnd(bs: seq<Block>, i: int, n: int)
    requires 0 <= i < |bs|
    ensures Reach(bs, i, |bs| - 1, n) == |bs| - 1
  {}

  lemma RunStarts(bs: seq<Block>, i: int, n: int)
    requires 0 <= i < |bs| - 1 && bs[i + 1].free && bs[i].size < n
    ensures Reach(bs, i, i, n) > i
  {}
}
