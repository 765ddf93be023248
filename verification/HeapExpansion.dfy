/** What one expansion of the kernel heap leaves in memory. It writes the header of the new block and then
    the next field of the tail; these may lie in payloads, in headers, or partly in either. */
module HeapExpansion {
  import opened Basics
  import opened BlockList
  import opened HeapMemory
  import opened HeapList
  import opened KernelHeap

  const LOW := 0x1_0000_0000

  /** A header for n bytes is written at nb, which gives m1, and then nb to the next field of the tail. */
  ghost predicate Grafted(m: seq<byte>, m1: seq<byte>, m2: seq<byte>, nb: int, n: int, tail: int, magic: int) {
    && InMemory(m, nb) && InMemory(m, tail) && nb % ALIGN == 0 && tail % ALIGN == 0
    && Outside(m, m1, nb, nb + HEADER) && Load(m1, nb) == Header(magic, n, 1, tail, 0)
    && Outside(m1, m2, tail + 32, tail + HEADER) && Word(m2, tail + 32, 8) == nb
  }

  /** Memory differs at most in a header at nb and a word at w. */
  ghost predicate SameBut(m: seq<byte>, m2: seq<byte>, nb: int, w: int) {
    |m2| == |m| && forall x :: 0 <= x < |m| && !(nb <= x < nb + HEADER) && !(w <= x < w + 8) ==> m2[x] == m[x]
  }

  lemma GraftedRanges(m: seq<byte>, m1: seq<byte>, m2: seq<byte>, nb: int, n: int, tail: int, magic: int)
    requires Grafted(m, m1, m2, nb, n, tail, magic)
    ensures SameBut(m, m2, nb, tail + 32) && InMemory(m2, nb)
  {
    hide Load, Word;
  }

  // ---------------------------------------------------------------------
  // Words
  // ---------------------------------------------------------------------

  /** The parity of a word is that of its lowest byte. */
  lemma WordParity(m: seq<byte>, a: int, k: nat)
    requires 0 <= a && 0 < k && a + k <= |m|
    ensures Word(m, a, k) % 2 == m[a] % 2
  {
    assert m[a..a + k][0] == m[a];
  }

  lemma DecodeStep(s: seq<byte>)
    requires s != []
    ensures Decode(s) == s[0] + 256 * Decode(s[1..])
  {}

  lemma DecodeLow(s: seq<byte>)
    requires |s| >= 4
    ensures Decode(s) == Decode(s[..4]) + LOW * Decode(s[4..]) && Decode(s[..4]) < LOW
  {
    hide Decode;
    var t := s[..4];
    assert s[1..][1..] == s[2..] && s[2..][1..] == s[3..] && s[3..][1..] == s[4..];
    assert t[1..][1..] == t[2..] && t[2..][1..] == t[3..] && t[3..][1..] == [];
    DecodeStep(s);
    DecodeStep(s[1..]);
    DecodeStep(s[2..]);
    DecodeStep(s[3..]);
    DecodeStep(t);
    DecodeStep(t[1..]);
    DecodeStep(t[2..]);
    DecodeStep(t[3..]);
    DecodeNone();
  }

  lemma DecodeNone()
    ensures Decode([]) == 0
  {}

  /** A 4-byte word is the low half of the 8-byte word. */
  lemma LowWord(m: seq<byte>, a: int)
    requires 0 <= a && a + 8 <= |m|
    ensures Word(m, a, 4) == Word(m, a, 8) % LOW
  {
    var s := m[a..a + 8];
    DecodeLow(s);
    assert s[..4] == m[a..a + 4];
    LowPart(Decode(s[..4]), Decode(s[4..]));
  }

  lemma LowPart(x: int, y: int)
    requires 0 <= x < LOW
    ensures (x + LOW * y) % LOW == x
  {}

  lemma AlignedApart(x: int, y: int)
    requires x % ALIGN == 0 && y % ALIGN == 0 && x != y
    ensures x + 8 <= y || y + 8 <= x
  {
    var i, j := x / ALIGN, y / ALIGN;
    assert x == 8 * i && y == 8 * j;
  }

  lemma AlignedPlus(x: int)
    requires x % ALIGN == 0
    ensures (x + 8) % ALIGN == 0 && (x + 16) % ALIGN == 0 && (x + 24) % ALIGN == 0 && (x + 32) % ALIGN == 0
  {}

  /** Writing the aligned word at w changes the aligned word at x only if it is the same. */
  lemma WordAfter(m1: seq<byte>, m2: seq<byte>, w: int, v: int, x: int)
    requires Outside(m1, m2, w, w + 8) && 0 <= w && w + 8 <= |m1| && Word(m2, w, 8) == v
    requires w % ALIGN == 0 && x % ALIGN == 0 && 0 <= x && x + 8 <= |m1|
    ensures Word(m2, x, 8) == if x == w then v else Word(m1, x, 8)
    ensures Word(m2, x, 4) == if x == w then v % LOW else Word(m1, x, 4)
  {
    if x == w {
      LowWord(m2, x);
    } else {
      AlignedApart(x, w);
      WordOutside(m1, m2, w, w + 8, x, 8);
      WordOutside(m1, m2, w, w + 8, x, 4);
    }
  }

  /** A header with the word at w written. */
  function Patched(h: Header, a: int, w: int, v: int): Header {
    Header(if w == a then v % LOW else h.magic,
           if w == a + 8 then v else h.size,
           if w == a + 16 then v % LOW else h.free,
           if w == a + 24 then v else h.prev,
           if w == a + 32 then v else h.next)
  }

  lemma Reload(m1: seq<byte>, m2: seq<byte>, tail: int, nb: int, a: int)
    requires Outside(m1, m2, tail + 32, tail + HEADER) && InMemory(m1, tail) && Word(m2, tail + 32, 8) == nb
    requires tail % ALIGN == 0 && a % ALIGN == 0 && InMemory(m1, a)
    ensures Load(m2, a) == Patched(Load(m1, a), a, tail + 32, nb)
  {
    hide Word, Outside;
    AlignedPlus(tail);
    AlignedPlus(a);
    assert HEADER == 32 + 8;
    SameLength2(m1, m2, tail + 32, tail + HEADER);
    WordAfter(m1, m2, tail + 32, nb, a);
    WordAfter(m1, m2, tail + 32, nb, a + 8);
    WordAfter(m1, m2, tail + 32, nb, a + 16);
    WordAfter(m1, m2, tail + 32, nb, a + 24);
    WordAfter(m1, m2, tail + 32, nb, a + 32);
  }

  lemma SameLength2(m1: seq<byte>, m2: seq<byte>, a: int, b: int)
    requires Outside(m1, m2, a, b)
    ensures |m2| == |m1|
  {}

  // ---------------------------------------------------------------------
  // Headers
  // ---------------------------------------------------------------------

  /** What a header at address a of a tiled list is like. */
  predicate Proper(h: Header, magic: int, a: int) {
    && h.magic == magic && h.free <= 1 && h.prev % 2 == 0 && h.next % 2 == 0
    && (h.prev == 0 || h.prev + HEADER <= a) && (h.next == 0 || a + HEADER <= h.next)
  }

  lemma Even(x: int)
    requires x % ALIGN == 0
    ensures x % 2 == 0
  {
    var y := x / ALIGN;
    assert x == 2 * (4 * y);
  }

  lemma HeaderFacts(m: seq<byte>, bs: seq<Block>, lo: int, hi: int, magic: int, k: nat)
    requires Tiles(bs, lo, hi) && Rep(m, bs, magic) && 0 < lo && k < |bs|
    ensures InMemory(m, bs[k].addr) && Proper(Load(m, bs[k].addr), magic, bs[k].addr)
    ensures Load(m, bs[k].addr) == HeaderOf(bs, k, magic)
    ensures lo <= bs[k].addr && bs[k].addr % ALIGN == 0 && 0 <= bs[k].size
    ensures if k < |bs| - 1 then End(bs[k]) == bs[k + 1].addr > 0 else End(bs[k]) == hi
  {
    hide Load, Tiles, Aligned;
    Links(m, bs, lo, hi, magic, k);
    AlignedAt(bs, lo, hi, k);
    TilesEnd(bs, lo, hi);
    if k > 0 {
      AlignedAt(bs, lo, hi, k - 1);
      Even(bs[k - 1].addr);
      Ordered(bs, lo, hi, k - 1, k);
      Within(bs, lo, hi, k - 1);
    }
    if k < |bs| - 1 {
      AlignedAt(bs, lo, hi, k + 1);
      Even(bs[k + 1].addr);
    }
  }

  lemma Distances(a: int, b: int)
    requires a != b && Near(a, b) && a % ALIGN == 0 && b % ALIGN == 0
    ensures var d := a - b;
      d == 8 || d == 16 || d == 24 || d == 32 || d == -8 || d == -16 || d == -24 || d == -32
  {
    var x, y := a / ALIGN, b / ALIGN;
    assert a == x * ALIGN && b == y * ALIGN;
  }

  /** A header that overlaps that of the new block in part, after the first write. */
  lemma Overlaid(m: seq<byte>, nb: int, n: int, tail: int, magic: int, a: int)
    requires InMemory(m, nb) && Load(m, nb) == Header(magic, n, 1, tail, 0) && InMemory(m, a)
    requires a != nb && Near(a, nb) && a % ALIGN == 0 && nb % ALIGN == 0
    requires magic % 2 == 1 && n % 2 == 0 && tail % 2 == 0
    ensures var h, d := Load(m, a), a - nb;
      if d > 0 then h.magic % 2 == 0 || h.magic == 1
      else if d == -8 || d == -24 then h.prev % 2 == 1
      else (d == -16 || d == -32) && h.next % 2 == 1
  {
    Distances(a, nb);
    var d := a - nb;
    if d == 8 || d == 24 || d == 32 {
      WordParity(m, a, 4);
      WordParity(m, a, 8);
    } else if d == -24 || d == -32 {
      WordParity(m, nb, 4);
      WordParity(m, nb, 8);
    } else if d == -8 || d == -16 {
      WordParity(m, nb + 16, 4);
      WordParity(m, nb + 16, 8);
    }
  }

  /** The second write cannot mend it. */
  lemma Mangled(m1: seq<byte>, m2: seq<byte>, nb: int, n: int, tail: int, magic: int, a: int)
    requires InMemory(m1, nb) && Load(m1, nb) == Header(magic, n, 1, tail, 0) && InMemory(m1, a) && nb > 0
    requires Outside(m1, m2, tail + 32, tail + HEADER) && InMemory(m1, tail) && Word(m2, tail + 32, 8) == nb
    requires a != nb && Near(a, nb) && a % ALIGN == 0 && nb % ALIGN == 0 && tail % ALIGN == 0
    requires magic % 2 == 1 && magic > 1 && n % 2 == 0
    ensures InMemory(m2, a) && !Proper(Load(m2, a), magic, a)
  {
    hide Load, Word;
    Even(tail);
    LowEven(nb);
    Overlaid(m1, nb, n, tail, magic, a);
    Reload(m1, m2, tail, nb, a);
    Distances(a, nb);
  }

  lemma LowEven(x: int)
    requires x % ALIGN == 0
    ensures x % LOW % 2 == 0 && (x % LOW == 0 || x % LOW > 1)
  {
    var y := x / LOW;
    assert x % LOW == x - LOW * y;
    Even(x);
    assert x % LOW == 2 * (x / 2 - LOW / 2 * y);
  }

  /** A header just where the new block is, unless the tail is the block before it. */
  lemma OnTop(m1: seq<byte>, m2: seq<byte>, nb: int, n: int, tail: int, magic: int)
    requires InMemory(m1, nb) && Load(m1, nb) == Header(magic, n, 1, tail, 0) && nb > 0 && tail > 0
    requires Outside(m1, m2, tail + 32, tail + HEADER) && InMemory(m1, tail) && Word(m2, tail + 32, 8) == nb
    requires nb % ALIGN == 0 && tail % ALIGN == 0 && magic % 2 == 1
    ensures InMemory(m2, nb) && (!Proper(Load(m2, nb), magic, nb) || Load(m2, nb) == Header(magic, n, 1, tail, 0))
  {
    hide Load, Word;
    LowEven(nb);
    Reload(m1, m2, tail, nb, nb);
  }

  /** Lists that start alike stay alike as long as the next fields are those of the first list. */
  lemma {:induction false} SamePrefix(m: seq<byte>, bs: seq<Block>, cs: seq<Block>, lo: int, hi: int, magic: int,
                                      k: nat)
    requires Tiles(bs, lo, hi) && Tiles(cs, lo, hi) && Rep(m, cs, magic) && 0 < lo && k < |bs|
    requires forall j :: 0 <= j < k ==> InMemory(m, bs[j].addr) && Load(m, bs[j].addr).next == bs[j + 1].addr
    ensures k < |cs| && cs[k].addr == bs[k].addr && (k > 0 ==> cs[k - 1].addr == bs[k - 1].addr)
  {
    hide Load, Tiles, Rep;
    if k == 0 {
      TilesEnd(bs, lo, hi);
      TilesEnd(cs, lo, hi);
    } else {
      SamePrefix(m, bs, cs, lo, hi, magic, k - 1);
      Within(bs, lo, hi, k);
      HeaderFacts(m, cs, lo, hi, magic, k - 1);
      assert Load(m, bs[k - 1].addr).next == bs[k - 1 + 1].addr;
    }
  }

  // ---------------------------------------------------------------------
  // The list after an expansion
  // ---------------------------------------------------------------------

  /** A setting in which the heap is expanded. */
  ghost predicate Expanding(m: seq<byte>, m1: seq<byte>, m2: seq<byte>, bs: seq<Block>, lo: int, hi: int, magic: int,
                            tail: int, nb: int, n: int)
  {
    && Tiles(bs, lo, hi) && Rep(m, bs, magic) && 0 < lo && hi == |m| && magic % 2 == 1 && magic > 1
    && lo <= nb && nb + HEADER <= hi && lo <= tail && tail + HEADER <= hi && 0 <= n && n % ALIGN == 0
    && Grafted(m, m1, m2, nb, n, tail, magic)
  }

  /** The header of block j after both writes, if it is not near that of the new block. */
  lemma FarHeader(m: seq<byte>, m1: seq<byte>, m2: seq<byte>, bs: seq<Block>, lo: int, hi: int, magic: int,
                  tail: int, nb: int, n: int, j: nat)
    requires Expanding(m, m1, m2, bs, lo, hi, magic, tail, nb, n) && j < |bs| && !Near(bs[j].addr, nb)
    ensures InMemory(m2, bs[j].addr)
    ensures Load(m2, bs[j].addr) == Patched(HeaderOf(bs, j, magic), bs[j].addr, tail + 32, nb)
  {
    hide Load, Tiles, Rep, HeaderOf, Word;
    HeaderFacts(m, bs, lo, hi, magic, j);
    LoadOutside(m, m1, nb, nb + HEADER, bs[j].addr);
    Reload(m1, m2, tail, nb, bs[j].addr);
  }

  lemma PatchedElsewhere(h: Header, a: int, w: int, v: int)
    requires !(a <= w < a + HEADER)
    ensures Patched(h, a, w, v) == h
  {}

  /** The list survives both writes. */
  lemma MissedSurvives(m: seq<byte>, m1: seq<byte>, m2: seq<byte>, bs: seq<Block>, lo: int, hi: int, magic: int,
                       tail: int, nb: int, n: int)
    requires Expanding(m, m1, m2, bs, lo, hi, magic, tail, nb, n) && Misses(bs, nb)
    ensures After(bs, tail, nb, n).Some? ==> Rep(m2, After(bs, tail, nb, n).value, magic)
  {
    hide Load, Tiles, Hit, Grafted;
    var h := Hit(bs, tail + 32);
    if After(bs, tail, nb, n).Some? {
      var cs := After(bs, tail, nb, n).value;
      forall j | 0 <= j < |cs| ensures InMemory(m2, cs[j].addr) && Load(m2, cs[j].addr) == HeaderOf(cs, j, magic) {
        FarHeader(m, m1, m2, bs, lo, hi, magic, tail, nb, n, j);
        if j != h {
          HitOnce(bs, lo, hi, tail + 32, j);
          PatchedElsewhere(HeaderOf(bs, j, magic), bs[j].addr, tail + 32, nb);
        }
      }
    }
  }

  lemma TailDistance(tail: int, a: int)
    requires tail % ALIGN == 0 && a % ALIGN == 0 && a <= tail + 32 < a + HEADER
    ensures var d := tail + 32 - a; d == 0 || d == 8 || d == 16 || d == 24 || d == 32
  {
    var x, y := tail / ALIGN, a / ALIGN;
    assert tail == 8 * x && a == 8 * y;
  }

  /** The next fields before block k are as they were, if no header there is near that of the new block and none is
      that of the tail. */
  lemma NextKept(m: seq<byte>, m1: seq<byte>, m2: seq<byte>, bs: seq<Block>, lo: int, hi: int, magic: int,
                 tail: int, nb: int, n: int, k: nat)
    requires Expanding(m, m1, m2, bs, lo, hi, magic, tail, nb, n) && k < |bs|
    requires forall j :: 0 <= j < k ==> !Near(bs[j].addr, nb) && bs[j].addr != tail
    ensures forall j :: 0 <= j < k ==> InMemory(m2, bs[j].addr) && Load(m2, bs[j].addr).next == bs[j + 1].addr
  {
    hide Load, Tiles, Rep, Grafted;
    forall j | 0 <= j < k ensures InMemory(m2, bs[j].addr) && Load(m2, bs[j].addr).next == bs[j + 1].addr {
      FarHeader(m, m1, m2, bs, lo, hi, magic, tail, nb, n, j);
    }
  }

  /** The new header misses all others, and the write to the tail destroys one. */
  lemma MissedDestroyed(m: seq<byte>, m1: seq<byte>, m2: seq<byte>, bs: seq<Block>, lo: int, hi: int, magic: int,
                        tail: int, nb: int, n: int, cs: seq<Block>)
    requires Expanding(m, m1, m2, bs, lo, hi, magic, tail, nb, n) && Misses(bs, nb) && After(bs, tail, nb, n).None?
    ensures !(Tiles(cs, lo, hi) && Rep(m2, cs, magic))
  {
    hide Load, Tiles, Rep, Hit;
    var k := Hit(bs, tail + 32);
    HeaderFacts(m, bs, lo, hi, magic, k);
    TailDistance(tail, bs[k].addr);
    FarHeader(m, m1, m2, bs, lo, hi, magic, tail, nb, n, k);
    LowEven(nb);
    if k > 0 { assert !Near(bs[k - 1].addr, nb); }
    if k < |bs| - 1 { assert !Near(bs[k + 1].addr, nb); }
    if Tiles(cs, lo, hi) && Rep(m2, cs, magic) {
      forall j | 0 <= j < k ensures bs[j].addr != tail { HitOnce(bs, lo, hi, tail + 32, j); }
      NextKept(m, m1, m2, bs, lo, hi, magic, tail, nb, n, k);
      SamePrefix(m2, bs, cs, lo, hi, magic, k);
      HeaderFacts(m2, cs, lo, hi, magic, k);
      assert false;
    }
  }

  /** The first block whose header is near that of the new block. */
  function FirstNear(bs: seq<Block>, nb: int): (k: nat)
    ensures k <= |bs| && (k < |bs| ==> Near(bs[k].addr, nb))
    ensures forall j :: 0 <= j < k ==> !Near(bs[j].addr, nb)
    ensures k == |bs| <==> Misses(bs, nb)
  {
    if bs == [] || Near(bs[0].addr, nb) then 0
    else
      assert forall j :: 0 <= j < |bs[1..]| ==> bs[1..][j] == bs[j + 1];
      1 + FirstNear(bs[1..], nb)
  }

  /** The tail is a block and the new block starts where its successor does. */
  lemma TakesPlace(m: seq<byte>, m1: seq<byte>, m2: seq<byte>, bs: seq<Block>, lo: int, hi: int, magic: int,
                   tail: int, nb: int, n: int, k: nat)
    requires Expanding(m, m1, m2, bs, lo, hi, magic, tail, nb, n)
    requires k < |bs| - 1 && bs[k].addr == tail && bs[k + 1].addr == nb
    ensures InMemory(m2, nb) && Load(m2, nb) == Header(magic, n, 1, tail, 0)
    ensures forall j :: 0 <= j <= k ==> !Near(bs[j].addr, nb)
    ensures forall j :: 0 <= j <= k ==> InMemory(m2, bs[j].addr) && Load(m2, bs[j].addr) == HeaderOf(bs, j, magic)
  {
    hide Load, Tiles, Rep;
    Ordered(bs, lo, hi, k, k + 1);
    Reload(m1, m2, tail, nb, nb);
    forall j | 0 <= j <= k
      ensures !Near(bs[j].addr, nb) && InMemory(m2, bs[j].addr) && Load(m2, bs[j].addr) == HeaderOf(bs, j, magic)
    {
      Ordered(bs, lo, hi, j, k + 1);
      Within(bs, lo, hi, j);
      FarHeader(m, m1, m2, bs, lo, hi, magic, tail, nb, n, j);
      if j < k {
        Ordered(bs, lo, hi, j, k);
        PatchedElsewhere(HeaderOf(bs, j, magic), bs[j].addr, tail + 32, nb);
      }
    }
  }

  /** The new block has taken the place of the rest of the list. */
  lemma NearSurvives(m: seq<byte>, m1: seq<byte>, m2: seq<byte>, bs: seq<Block>, lo: int, hi: int, magic: int,
                     tail: int, nb: int, n: int)
    requires Expanding(m, m1, m2, bs, lo, hi, magic, tail, nb, n) && !Misses(bs, nb)
    ensures After(bs, tail, nb, n).Some? ==> Rep(m2, After(bs, tail, nb, n).value, magic)
  {
    hide Load, Tiles, Misses, Grafted;
    if After(bs, tail, nb, n).Some? {
      var k := IndexOf(bs, tail);
      var cs := After(bs, tail, nb, n).value;
      TakesPlace(m, m1, m2, bs, lo, hi, magic, tail, nb, n, k);
      forall j | 0 <= j < |cs| ensures InMemory(m2, cs[j].addr) && Load(m2, cs[j].addr) == HeaderOf(cs, j, magic) {
        assert j <= k ==> cs[j] == bs[j];
      }
    }
  }

  /** The first header near the new one is that of a list only if the tail is the block before it. */
  lemma NearImproper(m: seq<byte>, m1: seq<byte>, m2: seq<byte>, bs: seq<Block>, lo: int, hi: int, magic: int,
                     tail: int, nb: int, n: int, k: nat)
    requires Expanding(m, m1, m2, bs, lo, hi, magic, tail, nb, n) && k < |bs| && Near(bs[k].addr, nb)
    ensures InMemory(m2, bs[k].addr)
    ensures Proper(Load(m2, bs[k].addr), magic, bs[k].addr) ==> Load(m2, bs[k].addr).prev == tail
  {
    hide Load, Tiles, Rep, Word, HeaderOf;
    HeaderFacts(m, bs, lo, hi, magic, k);
    Even(n);
    if bs[k].addr == nb { OnTop(m1, m2, nb, n, tail, magic); }
    else { Mangled(m1, m2, nb, n, tail, magic, bs[k].addr); }
  }

  lemma NearDestroyed(m: seq<byte>, m1: seq<byte>, m2: seq<byte>, bs: seq<Block>, lo: int, hi: int, magic: int,
                      tail: int, nb: int, n: int, cs: seq<Block>)
    requires Expanding(m, m1, m2, bs, lo, hi, magic, tail, nb, n) && !Misses(bs, nb) && After(bs, tail, nb, n).None?
    ensures !(Tiles(cs, lo, hi) && Rep(m2, cs, magic))
  {
    hide Load, Tiles, Rep, Misses, Grafted;
    var f, k := FirstNear(bs, nb), IndexOf(bs, tail);
    HeaderFacts(m, bs, lo, hi, magic, f);
    if Tiles(cs, lo, hi) && Rep(m2, cs, magic) {
      if k < f {
        TailBefore(m, m1, m2, bs, lo, hi, magic, tail, nb, n, k, f, cs);
      } else {
        forall j | 0 <= j < f ensures bs[j].addr != tail {}
        NextKept(m, m1, m2, bs, lo, hi, magic, tail, nb, n, f);
        SamePrefix(m2, bs, cs, lo, hi, magic, f);
        HeaderFacts(m2, cs, lo, hi, magic, f);
        NearImproper(m, m1, m2, bs, lo, hi, magic, tail, nb, n, f);
        assert false;
      }
    }
  }

  /** The tail is a block before the first one near the new block. */
  lemma TailBefore(m: seq<byte>, m1: seq<byte>, m2: seq<byte>, bs: seq<Block>, lo: int, hi: int, magic: int,
                   tail: int, nb: int, n: int, k: nat, f: nat, cs: seq<Block>)
    requires Expanding(m, m1, m2, bs, lo, hi, magic, tail, nb, n) && !Misses(bs, nb)
    requires k < f < |bs| && bs[k].addr == tail && forall j :: 0 <= j < f ==> !Near(bs[j].addr, nb)
    requires Tiles(cs, lo, hi) && Rep(m2, cs, magic)
    ensures After(bs, tail, nb, n).Some?
  {
    hide Load, Tiles, Rep, Misses, Grafted;
    TailIs(bs, lo, hi, k, tail);
    forall j | 0 <= j < k ensures bs[j].addr != tail {}
    NextKept(m, m1, m2, bs, lo, hi, magic, tail, nb, n, k);
    SamePrefix(m2, bs, cs, lo, hi, magic, k);
    HeaderFacts(m, bs, lo, hi, magic, k);
    HeaderFacts(m2, cs, lo, hi, magic, k);
    FarHeader(m, m1, m2, bs, lo, hi, magic, tail, nb, n, k);
    assert bs[k + 1].addr == nb;
    TakesPlace(m, m1, m2, bs, lo, hi, magic, tail, nb, n, k);
    HeaderFacts(m2, cs, lo, hi, magic, k + 1);
    TilesEnd(bs, lo, hi);
  }

  /** Exactly: after an expansion memory holds the list that After tells, and no other list that tiles the
      region; and none at all if After tells none. */
  lemma AfterExactly(m: seq<byte>, m1: seq<byte>, m2: seq<byte>, bs: seq<Block>, lo: int, hi: int, magic: int,
                     tail: int, nb: int, n: int, cs: seq<Block>)
    requires Expanding(m, m1, m2, bs, lo, hi, magic, tail, nb, n)
    ensures Tiles(cs, lo, hi) && Rep(m2, cs, magic) <==> After(bs, tail, nb, n) == Some(cs)
  {
    hide Tiles, Rep, Misses, After, Grafted;
    if After(bs, tail, nb, n).Some? {
      var ds := After(bs, tail, nb, n).value;
      AfterTiles(bs, lo, hi, tail, nb, n);
      if Misses(bs, nb) { MissedSurvives(m, m1, m2, bs, lo, hi, magic, tail, nb, n); }
      else { NearSurvives(m, m1, m2, bs, lo, hi, magic, tail, nb, n); }
      if Tiles(cs, lo, hi) && Rep(m2, cs, magic) { OneList(m2, ds, cs, lo, hi, magic); }
    } else {
      if Misses(bs, nb) { MissedDestroyed(m, m1, m2, bs, lo, hi, magic, tail, nb, n, cs); }
      else { NearDestroyed(m, m1, m2, bs, lo, hi, magic, tail, nb, n, cs); }
    }
  }

  /** Memory holds at most one list that tiles the region. */
  lemma OneList(m: seq<byte>, bs: seq<Block>, cs: seq<Block>, lo: int, hi: int, magic: int)
    requires Tiles(bs, lo, hi) && Rep(m, bs, magic) && Tiles(cs, lo, hi) && Rep(m, cs, magic) && 0 < lo
    ensures bs == cs
  {
    hide Tiles, Load, Rep;
    if |bs| <= |cs| { SameBlocks(m, bs, cs, lo, hi, magic); } else { SameBlocks(m, cs, bs, lo, hi, magic); }
  }

  lemma SameBlocks(m: seq<byte>, bs: seq<Block>, cs: seq<Block>, lo: int, hi: int, magic: int)
    requires Tiles(bs, lo, hi) && Rep(m, bs, magic) && Tiles(cs, lo, hi) && Rep(m, cs, magic) && 0 < lo && |bs| <= |cs|
    ensures bs == cs
  {
    hide Tiles, Load, Rep;
    forall k | 0 <= k < |bs| ensures bs[k] == cs[k] && (k == |bs| - 1 ==> |cs| == |bs|) {
      forall j | 0 <= j < k ensures InMemory(m, bs[j].addr) && Load(m, bs[j].addr).next == bs[j + 1].addr {
        HeaderFacts(m, bs, lo, hi, magic, j);
      }
      SamePrefix(m, bs, cs, lo, hi, magic, k);
      HeaderFacts(m, bs, lo, hi, magic, k);
      HeaderFacts(m, cs, lo, hi, magic, k);
    }
    TilesEnd(bs, lo, hi);
  }

  /** An expansion whose header lies in the payload of a block destroys that payload: its byte under the magic
      number becomes odd, whatever it was. */
  lemma PayloadLost(m: seq<byte>, m1: seq<byte>, m2: seq<byte>, bs: seq<Block>, lo: int, hi: int, magic: int,
                    tail: int, nb: int, n: int, k: nat)
    requires Expanding(m, m1, m2, bs, lo, hi, magic, tail, nb, n) && tail + 32 != nb && m[nb] % 2 == 0
    requires k < |bs| && bs[k].addr + HEADER <= nb < End(bs[k])
    ensures !Keeps(m, m2, lo, {bs[k]})
  {
    hide Load, Tiles, Rep;
    MagicByte(m1, nb, n, tail, magic);
    AlignedPlus(tail);
    AlignedApart(tail + 32, nb);
    assert m2[nb] == m1[nb];
  }

  lemma MagicByte(m1: seq<byte>, nb: int, n: int, tail: int, magic: int)
    requires InMemory(m1, nb) && Load(m1, nb) == Header(magic, n, 1, tail, 0) && magic % 2 == 1
    ensures m1[nb] % 2 == 1
  {
    WordParity(m1, nb, 4);
  }
}
