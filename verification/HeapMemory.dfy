/** Block headers as bytes in memory, laid out as the C structure: a 4-byte magic number, an
    8-byte size, a 4-byte flag and two 8-byte pointers, little-endian, 40 bytes in all. */
module HeapMemory {
  import opened Basics
  import opened BlockList

  function Capacity(k: nat): nat { if k == 0 then 1 else 256 * Capacity(k - 1) }

  lemma Capacities()
    ensures Capacity(4) == 0x1_0000_0000 && Capacity(8) == WORD
  {
    assert Capacity(1) == 256 && Capacity(2) == 0x1_0000 && Capacity(3) == 0x100_0000;
    assert Capacity(4) == 0x1_0000_0000 && Capacity(5) == 0x100_0000_0000 && Capacity(6) == 0x1_0000_0000_0000;
    assert Capacity(7) == 0x100_0000_0000_0000;
  }

  function Encode(n: nat, k: nat): (s: seq<byte>)
    ensures |s| == k
  {
    if k == 0 then [] else [n % 256] + Encode(n / 256, k - 1)
  }

  function Decode(s: seq<byte>): nat {
    if s == [] then 0 else s[0] + 256 * Decode(s[1..])
  }

  lemma {:induction false} DecodeEncode(n: nat, k: nat)
    requires n < Capacity(k)
    ensures Decode(Encode(n, k)) == n
  {
    if k > 0 {
      DecodeEncode(n / 256, k - 1);
      assert Encode(n, k)[1..] == Encode(n / 256, k - 1);
    }
  }

  datatype Header = Header(magic: int, size: int, free: int, prev: int, next: int)

  function Word(m: seq<byte>, a: int, k: nat): nat
    requires 0 <= a && a + k <= |m|
  {
    Decode(m[a..a + k])
  }

  predicate InMemory(m: seq<byte>, a: int) { 0 <= a && a + HEADER <= |m| }

  function Load(m: seq<byte>, a: int): Header
    requires InMemory(m, a)
  {
    Header(Word(m, a, 4), Word(m, a + 8, 8), Word(m, a + 16, 4), Word(m, a + 24, 8), Word(m, a + 32, 8))
  }

  /** Memory differs at most in [a, b). */
  ghost predicate Outside(m: seq<byte>, m': seq<byte>, a: int, b: int) {
    |m'| == |m| && forall x :: 0 <= x < |m| && !(a <= x < b) ==> m'[x] == m[x]
  }

  lemma WordOutside(m: seq<byte>, m': seq<byte>, a: int, b: int, c: int, k: nat)
    requires Outside(m, m', a, b) && 0 <= c && c + k <= |m| && (c + k <= a || b <= c)
    ensures Word(m', c, k) == Word(m, c, k)
  {
    assert m'[c..c + k] == m[c..c + k];
  }

  lemma LoadOutside(m: seq<byte>, m': seq<byte>, a: int, b: int, c: int)
    requires Outside(m, m', a, b) && InMemory(m, c) && (c + HEADER <= a || b <= c)
    ensures Load(m', c) == Load(m, c)
  {
    WordOutside(m, m', a, b, c, 4);
    WordOutside(m, m', a, b, c + 8, 8);
    WordOutside(m, m', a, b, c + 16, 4);
    WordOutside(m, m', a, b, c + 24, 8);
    WordOutside(m, m', a, b, c + 32, 8);
  }

  /** Stores a k-byte word. */
  method Store(mem: array<byte>, a: int, k: nat, n: int)
    requires 0 <= a && a + k <= mem.Length && 0 <= n < Capacity(k)
    modifies mem
    ensures Word(mem[..], a, k) == n && Outside(old(mem[..]), mem[..], a, a + k)
  {
    var d := Encode(n, k);
    forall i | 0 <= i < k { mem[a + i] := d[i]; }
    assert mem[..][a..a + k] == d;
    DecodeEncode(n, k);
  }

  method SetSize(mem: array<byte>, a: int, n: int)
    requires InMemory(mem[..], a) && 0 <= n < WORD
    modifies mem
    ensures Load(mem[..], a) == old(Load(mem[..], a)).(size := n) && Outside(old(mem[..]), mem[..], a, a + HEADER)
  {
    Capacities();
    ghost var m := mem[..];
    Store(mem, a + 8, 8, n);
    WordOutside(m, mem[..], a + 8, a + 16, a, 4);
    WordOutside(m, mem[..], a + 8, a + 16, a + 16, 4);
    WordOutside(m, mem[..], a + 8, a + 16, a + 24, 8);
    WordOutside(m, mem[..], a + 8, a + 16, a + 32, 8);
  }

  method SetFree(mem: array<byte>, a: int, n: int)
    requires InMemory(mem[..], a) && 0 <= n <= 1
    modifies mem
    ensures Load(mem[..], a) == old(Load(mem[..], a)).(free := n) && Outside(old(mem[..]), mem[..], a, a + HEADER)
  {
    Capacities();
    ghost var m := mem[..];
    Store(mem, a + 16, 4, n);
    WordOutside(m, mem[..], a + 16, a + 20, a, 4);
    WordOutside(m, mem[..], a + 16, a + 20, a + 8, 8);
    WordOutside(m, mem[..], a + 16, a + 20, a + 24, 8);
    WordOutside(m, mem[..], a + 16, a + 20, a + 32, 8);
  }

  method SetPrev(mem: array<byte>, a: int, n: int)
    requires InMemory(mem[..], a) && 0 <= n < WORD
    modifies mem
    ensures Load(mem[..], a) == old(Load(mem[..], a)).(prev := n) && Outside(old(mem[..]), mem[..], a, a + HEADER)
  {
    Capacities();
    ghost var m := mem[..];
    Store(mem, a + 24, 8, n);
    WordOutside(m, mem[..], a + 24, a + 32, a, 4);
    WordOutside(m, mem[..], a + 24, a + 32, a + 8, 8);
    WordOutside(m, mem[..], a + 24, a + 32, a + 16, 4);
    WordOutside(m, mem[..], a + 24, a + 32, a + 32, 8);
  }

  method SetNext(mem: array<byte>, a: int, n: int)
    requires InMemory(mem[..], a) && 0 <= n < WORD
    modifies mem
    ensures Load(mem[..], a) == old(Load(mem[..], a)).(next := n) && Outside(old(mem[..]), mem[..], a, a + HEADER)
  {
    Capacities();
    ghost var m := mem[..];
    Store(mem, a + 32, 8, n);
    WordOutside(m, mem[..], a + 32, a + 40, a, 4);
    WordOutside(m, mem[..], a + 32, a + 40, a + 8, 8);
    WordOutside(m, mem[..], a + 32, a + 40, a + 16, 4);
    WordOutside(m, mem[..], a + 32, a + 40, a + 24, 8);
  }

  method SetMagic(mem: array<byte>, a: int, n: int)
    requires InMemory(mem[..], a) && 0 <= n < 0x1_0000_0000
    modifies mem
    ensures Load(mem[..], a) == old(Load(mem[..], a)).(magic := n) && Outside(old(mem[..]), mem[..], a, a + HEADER)
  {
    Capacities();
    ghost var m := mem[..];
    Store(mem, a, 4, n);
    WordOutside(m, mem[..], a, a + 4, a + 8, 8);
    WordOutside(m, mem[..], a, a + 4, a + 16, 4);
    WordOutside(m, mem[..], a, a + 4, a + 24, 8);
    WordOutside(m, mem[..], a, a + 4, a + 32, 8);
  }

  method WriteHeader(mem: array<byte>, a: int, h: Header)
    requires InMemory(mem[..], a) && 0 <= h.magic < 0x1_0000_0000 && 0 <= h.size < WORD && 0 <= h.free <= 1
    requires 0 <= h.prev < WORD && 0 <= h.next < WORD
    modifies mem
    ensures Load(mem[..], a) == h && Outside(old(mem[..]), mem[..], a, a + HEADER)
  {
    SetMagic(mem, a, h.magic);
    SetFree(mem, a, h.free);
    SetSize(mem, a, h.size);
    SetPrev(mem, a, h.prev);
    SetNext(mem, a, h.next);
  }

  method SetSizeNext(mem: array<byte>, a: int, size: int, next: int)
    requires InMemory(mem[..], a) && 0 <= size < WORD && 0 <= next < WORD
    modifies mem
    ensures Load(mem[..], a) == old(Load(mem[..], a)).(size := size, next := next)
    ensures Outside(old(mem[..]), mem[..], a, a + HEADER)
  {
    SetNext(mem, a, next);
    SetSize(mem, a, size);
  }
}
