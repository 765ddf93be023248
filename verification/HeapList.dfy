/** Block lists in memory: what it means that memory holds a list, and how writing headers changes
    the list and which payloads it leaves. */
module HeapList {
  import opened Basics
  import opened BlockList
  import opened HeapMemory

  /** The header that block i of the list should have. */
  function HeaderOf(bs: seq<Block>, i: int, magic: int): Header
    requires 0 <= i < |bs|
  {
    Header(magic, bs[i].size, if bs[i].free then 1 else 0,
           if i > 0 then bs[i - 1].addr else 0,
           if i < |bs| - 1 then bs[i + 1].addr else 0)
  }

  /** Memory holds exactly this list: every header with its size, its flag and both pointers. */
  ghost predicate Rep(m: seq<byte>, bs: seq<Block>, magic: int) {
    && (forall i :: 0 <= i < |bs| ==> InMemory(m, bs[i].addr))
    && (forall i {:trigger HeaderOf(bs, i, magic)} :: 0 <= i < |bs| ==> Load(m, bs[i].addr) == HeaderOf(bs, i, magic))
  }

  /** One free block over the whole region. */
  lemma InitialRep(m: seq<byte>, lo: int, hi: int, magic: int)
    requires lo % ALIGN == 0 && hi % ALIGN == 0 && 0 < lo && lo + HEADER <= hi == |m|
    requires Load(m, lo) == Header(magic, hi - lo - HEADER, 1, 0, 0)
    ensures Tiles(Initial(lo, hi), lo, hi) && Rep(m, Initial(lo, hi), magic)
  {
    hide Load;
  }

  /** Memory differs at most in the headers at the given addresses. */
  ghost predicate Touched(m: seq<byte>, m': seq<byte>, s: set<int>) {
    |m'| == |m| && forall x :: 0 <= x < |m| && !InHeaders(x, s) ==> m'[x] == m[x]
  }

  ghost predicate InHeaders(x: int, s: set<int>) { exists a :: a in s && a <= x < a + HEADER }

  lemma TouchedOnce(m: seq<byte>, m': seq<byte>, a: int)
    requires Outside(m, m', a, a + HEADER)
    ensures Touched(m, m', {a})
  {
    forall x | a <= x < a + HEADER ensures InHeaders(x, {a}) { assert a in {a}; }
  }

  lemma TouchedThen(m: seq<byte>, m1: seq<byte>, m2: seq<byte>, s: set<int>, a: int)
    requires Touched(m, m1, s) && Outside(m1, m2, a, a + HEADER)
    ensures Touched(m, m2, s + {a})
  {
    forall x | InHeaders(x, s) ensures InHeaders(x, s + {a}) {
      var b :| b in s && b <= x < b + HEADER;
      assert b in s + {a};
    }
    forall x | a <= x < a + HEADER ensures InHeaders(x, s + {a}) { assert a in s + {a}; }
  }

  lemma LoadUntouched(m: seq<byte>, m': seq<byte>, s: set<int>, c: int)
    requires Touched(m, m', s) && InMemory(m, c)
    requires forall a :: a in s ==> a + HEADER <= c || c + HEADER <= a
    ensures Load(m', c) == Load(m, c)
  {
    forall x | c <= x < c + HEADER ensures m'[x] == m[x] { assert !InHeaders(x, s); }
    WordSame(m, m', c, 4);
    WordSame(m, m', c + 8, 8);
    WordSame(m, m', c + 16, 4);
    WordSame(m, m', c + 24, 8);
    WordSame(m, m', c + 32, 8);
  }

  lemma WordSame(m: seq<byte>, m': seq<byte>, a: int, k: nat)
    requires |m'| == |m| && 0 <= a && a + k <= |m| && forall x :: a <= x < a + k ==> m'[x] == m[x]
    ensures Word(m', a, k) == Word(m, a, k)
  {
    assert m'[a..a + k] == m[a..a + k];
  }

  /** The payloads of the given blocks, and all memory below the heap, hold the same bytes. */
  ghost predicate Keeps(m: seq<byte>, m': seq<byte>, lo: int, s: set<Block>) {
    && |m'| == |m|
    && (forall x :: 0 <= x < |m| && x < lo ==> m'[x] == m[x])
    && (forall b, x :: b in s && b.addr + HEADER <= x < End(b) && 0 <= x < |m| ==> m'[x] == m[x])
  }

  /** The address of block i, or of one of the two blocks after it. */
  predicate Beside(bs: seq<Block>, i: int, a: int)
    requires 0 <= i < |bs|
  {
    a == bs[i].addr || (i + 1 < |bs| && a == bs[i + 1].addr) || (i + 2 < |bs| && a == bs[i + 2].addr)
  }

  /** Writing headers of a tiled list leaves all its payloads. */
  lemma HeadersKeep(m: seq<byte>, m': seq<byte>, bs: seq<Block>, lo: int, hi: int, s: set<int>, i: int)
    requires Tiles(bs, lo, hi) && Touched(m, m', s) && 0 <= i < |bs|
    requires forall a :: a in s ==> Beside(bs, i, a)
    ensures Keeps(m, m', lo, Blocks(bs))
  {
    hide Tiles;
    forall x | 0 <= x < |m| && x < lo ensures m'[x] == m[x] {
      forall a | a in s ensures lo <= a { BesideApart(bs, lo, hi, i, a, i); }
      assert !InHeaders(x, s);
    }
    forall b, x | b in bs && b.addr + HEADER <= x < End(b) && 0 <= x < |m| ensures m'[x] == m[x] {
      var j :| 0 <= j < |bs| && bs[j] == b;
      forall a | a in s ensures !(a <= x < a + HEADER) { BesideApart(bs, lo, hi, i, a, j); }
      assert !InHeaders(x, s);
    }
  }

  lemma BesideApart(bs: seq<Block>, lo: int, hi: int, i: int, a: int, j: int)
    requires Tiles(bs, lo, hi) && 0 <= i < |bs| && 0 <= j < |bs| && Beside(bs, i, a)
    ensures lo <= a && (a + HEADER <= bs[j].addr + HEADER || End(bs[j]) <= a)
  {
    hide Tiles;
    var k := if a == bs[i].addr then i else if i + 1 < |bs| && a == bs[i + 1].addr then i + 1 else i + 2;
    Within(bs, lo, hi, k);
    if k != j { PayloadsDisjoint(bs, lo, hi, j, k); Within(bs, lo, hi, j); }
  }

  // ---------------------------------------------------------------------
  // How header writes change the list
  // ---------------------------------------------------------------------

  lemma SplitRep(m: seq<byte>, m': seq<byte>, bs: seq<Block>, lo: int, hi: int, i: int, req: int, magic: int)
    requires Rep(m, bs, magic) && 0 <= i < |bs| && Splits(bs[i], req) && |m'| == |m|
    requires var r := Rest(bs[i], req);
      && InMemory(m, r.addr) && Load(m', r.addr) == HeaderOf(Split(bs, i, req), i + 1, magic)
      && Load(m', bs[i].addr) == Load(m, bs[i].addr).(next := r.addr, size := req)
      && (i < |bs| - 1 ==> Load(m', bs[i + 1].addr) == Load(m, bs[i + 1].addr).(prev := r.addr))
    requires forall k :: 0 <= k < |bs| && k != i && k != i + 1 ==> Load(m', bs[k].addr) == Load(m, bs[k].addr)
    ensures Rep(m', Split(bs, i, req), magic)
  {
    hide Load;
    var bs' := Split(bs, i, req);
    forall k | 0 <= k < |bs'| ensures InMemory(m', bs'[k].addr) && Load(m', bs'[k].addr) == HeaderOf(bs', k, magic) {
      var was := HeaderOf(bs, if k < i then k else if k <= i + 1 then i else k - 1, magic);
      if k < i { assert bs'[k] == bs[k] && bs'[k + 1].addr == bs[k + 1].addr; }
      else if k > i + 1 { assert bs'[k] == bs[k - 1]; }
    }
  }

  lemma JoinRep(m: seq<byte>, m': seq<byte>, bs: seq<Block>, lo: int, hi: int, i: int, j: int, magic: int)
    requires Rep(m, bs, magic) && 0 <= i < j < |bs| && |m'| == |m|
    requires Load(m', bs[i].addr) == Load(m, bs[i].addr).(size := Span(bs, i, j), next := Load(m, bs[j].addr).next)
    requires j < |bs| - 1 ==> Load(m', bs[j + 1].addr) == Load(m, bs[j + 1].addr).(prev := bs[i].addr)
    requires forall k :: 0 <= k < i || j + 1 < k < |bs| ==> Load(m', bs[k].addr) == Load(m, bs[k].addr)
    ensures Rep(m', Join(bs, i, j), magic)
  {
    hide Load;
    var bs' := Join(bs, i, j);
    forall k | 0 <= k < |bs'| ensures InMemory(m', bs'[k].addr) && Load(m', bs'[k].addr) == HeaderOf(bs', k, magic) {
      var was := HeaderOf(bs, if k <= i then k else k + (j - i), magic);
      var end := HeaderOf(bs, j, magic);
      if k < i { assert bs'[k] == bs[k] && bs'[k + 1].addr == bs[k + 1].addr; }
      else if k > i { assert bs'[k] == bs[k + (j - i)]; }
    }
  }

  lemma MarkRep(m: seq<byte>, m': seq<byte>, bs: seq<Block>, i: int, free: bool, magic: int)
    requires Rep(m, bs, magic) && 0 <= i < |bs| && |m'| == |m|
    requires Load(m', bs[i].addr) == Load(m, bs[i].addr).(free := if free then 1 else 0)
    requires forall k :: 0 <= k < |bs| && k != i ==> Load(m', bs[k].addr) == Load(m, bs[k].addr)
    ensures Rep(m', Mark(bs, i, free), magic)
  {
    hide Load;
    var bs' := Mark(bs, i, free);
    forall k | 0 <= k < |bs'| ensures InMemory(m', bs'[k].addr) && Load(m', bs'[k].addr) == HeaderOf(bs', k, magic) {
      var was := HeaderOf(bs, k, magic);
      assert bs'[k].addr == bs[k].addr;
    }
  }

  /** What a header of the list says about its neighbours. */
  lemma Links(m: seq<byte>, bs: seq<Block>, lo: int, hi: int, magic: int, i: int)
    requires Tiles(bs, lo, hi) && Rep(m, bs, magic) && 0 < lo && 0 <= i < |bs|
    ensures InMemory(m, bs[i].addr) && Load(m, bs[i].addr) == HeaderOf(bs, i, magic)
    ensures 0 < lo <= bs[i].addr && 0 <= bs[i].size && End(bs[i]) <= hi
    ensures i < |bs| - 1 ==>
      0 < bs[i + 1].addr == End(bs[i]) && Span(bs, i, i + 1) == bs[i].size + HEADER + bs[i + 1].size
    ensures i > 0 ==> 0 < bs[i - 1].addr && Span(bs, i - 1, i) == bs[i - 1].size + HEADER + bs[i].size
  {
    hide Load;
    Within(bs, lo, hi, i);
    if i < |bs| - 1 { Within(bs, lo, hi, i + 1); }
    if i > 0 {
      Within(bs, lo, hi, i - 1);
      assert bs[i - 1 + 1].addr == End(bs[i - 1]);
    }
  }

  function Blocks(bs: seq<Block>): set<Block> { set b | b in bs }

  lemma SplitOthers(m: seq<byte>, m': seq<byte>, bs: seq<Block>, lo: int, hi: int, i: int, j: int, s: set<int>)
    requires Tiles(bs, lo, hi) && 0 <= lo && hi <= |m| == |m'| && Touched(m, m', s) && 0 <= i <= j < |bs|
    requires forall a :: a in s ==>
      (bs[i].addr <= a && a + HEADER <= End(bs[i])) || (bs[j].addr <= a && a + HEADER <= End(bs[j]))
    ensures forall k :: 0 <= k < |bs| && k != i && k != j ==>
      InMemory(m, bs[k].addr) && Load(m', bs[k].addr) == Load(m, bs[k].addr)
  {
    hide Load, Touched, Tiles;
    forall k | 0 <= k < |bs| && k != i && k != j
      ensures InMemory(m, bs[k].addr) && Load(m', bs[k].addr) == Load(m, bs[k].addr)
    {
      Within(bs, lo, hi, k);
      PayloadsDisjoint(bs, lo, hi, i, k);
      PayloadsDisjoint(bs, lo, hi, j, k);
      LoadUntouched(m, m', s, bs[k].addr);
    }
  }

  lemma SplitDone(m: seq<byte>, m': seq<byte>, bs: seq<Block>, lo: int, hi: int, i: int, req: int, magic: int,
                  s: set<int>)
    requires Tiles(bs, lo, hi) && 0 <= lo && hi <= |m| == |m'| && Rep(m, bs, magic)
    requires 0 <= i < |bs| && 0 <= req && req % ALIGN == 0 && Splits(bs[i], req) && InMemory(m, Rest(bs[i], req).addr)
    requires Load(m', Rest(bs[i], req).addr) == HeaderOf(Split(bs, i, req), i + 1, magic)
    requires Load(m', bs[i].addr) == Load(m, bs[i].addr).(next := Rest(bs[i], req).addr, size := req)
    requires i < |bs| - 1 ==> Load(m', bs[i + 1].addr) == Load(m, bs[i + 1].addr).(prev := Rest(bs[i], req).addr)
    requires Touched(m, m', s)
    requires forall a :: a in s ==>
      a == bs[i].addr || a == Rest(bs[i], req).addr || (i < |bs| - 1 && a == bs[i + 1].addr)
    ensures Rep(m', Split(bs, i, req), magic) && Keeps(m, m', lo, Blocks(Split(bs, i, req)))
  {
    hide Load, Tiles, Touched, Keeps;
    SplitTiles(bs, lo, hi, i, req);
    Within(bs, lo, hi, i);
    if i < |bs| - 1 { Within(bs, lo, hi, i + 1); }
    SplitOthers(m, m', bs, lo, hi, i, if i < |bs| - 1 then i + 1 else i, s);
    SplitRep(m, m', bs, lo, hi, i, req, magic);
    HeadersKeep(m, m', Split(bs, i, req), lo, hi, s, i);
  }

  lemma JoinDone(m: seq<byte>, m': seq<byte>, bs: seq<Block>, lo: int, hi: int, i: int, j: int, magic: int, s: set<int>)
    requires Tiles(bs, lo, hi) && 0 <= lo && hi <= |m| == |m'| && Rep(m, bs, magic) && 0 <= i < j < |bs|
    requires Load(m', bs[i].addr) == Load(m, bs[i].addr).(size := Span(bs, i, j), next := HeaderOf(bs, j, magic).next)
    requires j < |bs| - 1 ==> Load(m', bs[j + 1].addr) == Load(m, bs[j + 1].addr).(prev := bs[i].addr)
    requires Touched(m, m', s)
    requires forall a :: a in s ==> a == bs[i].addr || (j < |bs| - 1 && a == bs[j + 1].addr)
    ensures Rep(m', Join(bs, i, j), magic) && Keeps(m, m', lo, Blocks(Join(bs, i, j)))
  {
    hide Load, Tiles, Touched, Keeps;
    JoinTiles(bs, lo, hi, i, j);
    Within(bs, lo, hi, i);
    if j < |bs| - 1 { Within(bs, lo, hi, j + 1); }
    SplitOthers(m, m', bs, lo, hi, i, if j < |bs| - 1 then j + 1 else i, s);
    JoinRep(m, m', bs, lo, hi, i, j, magic);
    HeadersKeep(m, m', Join(bs, i, j), lo, hi, s, i);
  }
}
