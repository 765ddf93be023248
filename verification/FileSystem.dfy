/** The cluster-level file system: the table of links, the entry table and the RAM disk,
    changed in place. Every operation is proved to be a step of module Volume. */
module FileSystem {
  import opened Basics
  import opened FatTable
  import opened Volume
  import V = Volume

  datatype Entry = Entry(name: CString, ext: CString, parent: int, first: u16, size: nat, used: bool, isDir: bool)

  const BLANK := Entry("", "", 0, 0, 0, false, false)

  function ByteAt(disk: seq<byte>, c: int, r: int): byte {
    var a := Offset(c) + r;
    if 0 <= a < |disk| then disk[a] else 0
  }

  /** The first n bytes stored along a chain. */
  function Content(disk: seq<byte>, cs: seq<int>, n: nat): (d: seq<byte>)
    ensures |d| == n
  {
    seq(n, p requires 0 <= p < n => if p / CLUSTER < |cs| then ByteAt(disk, cs[p / CLUSTER], p % CLUSTER) else 0)
  }

  function NodeOf(e: Entry, bytes: Option<seq<byte>>): Node {
    if e.isDir then Dir(e.parent, e.name, bytes)
    else File(e.parent, e.name, e.ext, if bytes.Some? then bytes.value else [])
  }

  /** The bytes along the chain of an entry, if it has one. */
  function DataOf(e: Entry, i: int, of: map<int, seq<int>>, disk: seq<byte>): Option<seq<byte>> {
    if i in of then Some(Content(disk, of[i], e.size)) else None
  }

  function Nodes(es: seq<Entry>, of: map<int, seq<int>>, disk: seq<byte>): map<int, Node> {
    map i | 0 <= i < |es| && es[i].used :: NodeOf(es[i], DataOf(es[i], i, of, disk))
  }

  /** The entry table and the chains fit together. Chains with negative keys are lost: no entry has
      them. */
  ghost predicate Linked(es: seq<Entry>, of: map<int, seq<int>>) {
    && |es| == MAX_ENTRIES
    && (forall i :: i in of ==> i < MAX_ENTRIES && (0 <= i ==> es[i].used))
    && (forall i :: 0 <= i < MAX_ENTRIES && es[i].used && !es[i].isDir ==> i in of)
    && (forall i :: i in of && 0 <= i ==> |of[i]| == Clusters(es[i].size) && of[i][0] == es[i].first)
    && (forall i :: 0 <= i < MAX_ENTRIES && es[i].used ==> |es[i].name| < NAME_MAX && |es[i].ext| < NAME_MAX)
    && (forall i :: 0 <= i < MAX_ENTRIES && es[i].used && i !in of ==> es[i].first == 0 && es[i].size == 0)
  }

  /** Comparison of terminated strings, as far as n characters. */
  method NameEq(a: CString, b: CString, n: nat) returns (r: bool)
    ensures r <==> a == b || (|a| >= n && |b| >= n && a[..n] == b[..n])
  {
    var i := 0;
    while i < n
      invariant 0 <= i <= n && i <= |a| && i <= |b| && a[..i] == b[..i]
    {
      var ca := if i < |a| then a[i] else '\0';
      var cb := if i < |b| then b[i] else '\0';
      if ca == '\0' && cb == '\0' { return true; }
      if ca != cb {
        assert a != b;
        return false;
      }
      i := i + 1;
    }
    return true;
  }

  class FileSystem {
    const fat: array<u16>
    const entries: array<Entry>
    const disk: array<byte>
    ghost var ch: Chains
    ghost var lost: int

    constructor ()
      ensures Valid() && View() == INIT && fresh(fat) && fresh(entries) && fresh(disk)
    {
      fat := new u16[FAT_ENTRIES](_ => 0);
      entries := new Entry[MAX_ENTRIES](i => if i == ROOT then Entry("/", "", -1, 0, 0, true, true) else BLANK);
      disk := new byte[RAMDISK_SIZE](_ => 0);
      ch, lost := Chains(map[], map[]), 0;
      new;
      AllFree(fat[..]);
      assert Nodes(entries[..], ch.of, disk[..]) == INIT.nodes;
    }

    ghost predicate Shape() {
      fat.Length == FAT_ENTRIES && entries.Length == MAX_ENTRIES && disk.Length == RAMDISK_SIZE
      && fat as object != disk as object && fat as object != entries as object && disk as object != entries as object
    }

    ghost predicate Valid()
      reads this, fat, entries, disk
    {
      Shape() && Linked(entries[..], ch.of) && Owned(fat[..], ch)
      && lost >= 0 && forall i :: i in ch.of ==> -lost <= i
    }

    /** Lost chains stay as they are. */
    twostate predicate LostKept()
      reads this
    {
      forall j :: j < 0 && j in old(ch).of ==> j in ch.of && ch.of[j] == old(ch).of[j]
    }

    ghost function View(): Volume
      requires Shape()
      reads this, fat, entries, disk
    {
      Volume(Nodes(entries[..], ch.of, disk[..]), |FreeSet(fat[..])|)
    }

    method FindInDir(name: Option<CString>, ext: CString, parent: int) returns (r: int)
      requires Shape() && Linked(entries[..], ch.of)
      ensures r == if name.None? then -1 else Lookup(View(), Key(parent, name.value, ext))
    {
      if name.None? || parent < 0 || parent >= MAX_ENTRIES { return -1; }
      ghost var k := Key(parent, name.value, ext);
      r := -1;
      for i := 0 to MAX_ENTRIES
        invariant forall j :: 0 <= j < i ==> !EntryMatches(entries[j], k)
        invariant r == -1
      {
        if entries[i].used && entries[i].parent == parent {
          var sameName := NameEq(entries[i].name, name.value, NAME_MAX);
          if entries[i].isDir {
            if ext == "" && sameName { r := i; break; }
          } else {
            var sameExt := NameEq(entries[i].ext, ext, NAME_MAX);
            if sameName && sameExt { r := i; break; }
          }
        }
      }
      LookupIs(entries[..], ch.of, disk[..], View().free, k, r);
    }

    method FindFreeEntry() returns (r: int)
      requires Shape()
      ensures r == FreeSlot(View())
      ensures r >= 0 ==> 1 <= r < MAX_ENTRIES && !entries[r].used
    {
      r := -1;
      for i := 1 to MAX_ENTRIES
        invariant forall j :: 1 <= j < i ==> entries[j].used
        invariant r == -1
      {
        if !entries[i].used { r := i; break; }
      }
      FreeSlotIs(entries[..], ch.of, disk[..], View().free, r);
    }

    /** Is there an entry below directory idx? */
    method ChildExists(idx: int) returns (b: bool)
      requires Shape()
      ensures InTable(idx) ==> (b <==> HasChildren(View(), idx))
      ensures !InTable(idx) ==> !b
    {
      if idx < 0 || idx >= MAX_ENTRIES { return false; }
      for i := 0 to MAX_ENTRIES
        invariant forall j :: 0 <= j < i && entries[j].used ==> entries[j].parent != idx
      {
        if entries[i].used && entries[i].parent == idx {
          assert i in View().nodes;
          return true;
        }
      }
      return false;
    }

    /** Is there a directory (or a file) of this name in the directory? */
    method TwinExists(dir: bool, name: CString, ext: CString, parent: int) returns (b: bool)
      requires Shape() && Linked(entries[..], ch.of)
      ensures b <==> if dir then DirNamed(View(), parent, name) else FileNamed(View(), Key(parent, name, ext))
    {
      for i := 0 to MAX_ENTRIES
        invariant forall j :: 0 <= j < i ==> !IsTwin(entries[j], dir, name, ext, parent)
      {
        if entries[i].used && entries[i].parent == parent && entries[i].isDir == dir {
          b := NameEq(entries[i].name, name, NAME_MAX);
          if b && !dir { b := NameEq(entries[i].ext, ext, NAME_MAX); }
          if b {
            TwinIs(entries[..], ch.of, disk[..], View().free, dir, name, ext, parent, i);
            return;
          }
        }
      }
      TwinIs(entries[..], ch.of, disk[..], View().free, dir, name, ext, parent, -1);
      b := false;
    }

    /** Stores an entry that is not a file over one that is not a file. */
    method PutDirEntry(i: int, e: Entry)
      requires Valid() && InTable(i) && i !in ch.of
      requires e.used ==> e.isDir && e.first == 0 && e.size == 0 && |e.name| < NAME_MAX && |e.ext| < NAME_MAX
      modifies entries
      ensures Valid()
      ensures View() == old(View()).(nodes :=
        if e.used then old(View()).nodes[i := NodeOf(e, None)] else old(View()).nodes - {i})
    {
      NodesChange(entries[..], ch.of, disk[..], i, e, ch.of, disk[..]);
      entries[i] := e;
      assert entries[..] == old(entries[..])[i := e];
    }

    method Mkdir(name: Option<CString>, parent: int) returns (r: int)
      requires Valid()
      modifies entries
      ensures Valid()
      ensures (View(), r) == V.Mkdir(old(View()), name, parent)
    {
      hide Owned, FreeSet, Nodes, Lowest;
      NodeIsEntry(entries[..], ch.of, disk[..], parent);
      if name.None? || parent < 0 || parent >= MAX_ENTRIES { return -1; }
      if !entries[parent].used || !entries[parent].isDir { return -2; }
      var twin := TwinExists(true, name.value, "", parent);
      if twin { return -3; }
      var idx := FindFreeEntry();
      if idx < 0 { return -4; }
      PutDirEntry(idx, Entry(Stored(name.value), "", parent, 0, 0, true, true));
      return idx;
    }

    /** Clears a directory entry. A chain of stray bytes is lost: nothing frees it, and it is no entry's
        any more. */
    method DropDir(i: int)
      requires Valid() && InTable(i) && entries[i].used && entries[i].isDir
      modifies this`ch, this`lost, entries
      ensures Valid() && LostKept() && View() == old(View()).(nodes := old(View()).nodes - {i})
      ensures i in old(ch).of ==> -lost in ch.of && ch.of[-lost] == old(ch).of[i] && lost == old(lost) + 1
      ensures i !in old(ch).of ==> ch == old(ch) && lost == old(lost)
    {
      hide Owned, FreeSet, Content, Clusters;
      ghost var es, of := entries[..], ch.of;
      if i in ch.of {
        RekeyOwned(fat[..], ch, i, -lost - 1);
        ch := Rekey(ch, i, -lost - 1);
        lost := lost + 1;
      }
      var e := entries[i].(used := false);
      LinkedLose(es, of, i, e, ch.of, -old(lost) - 1);
      NodesChange(es, of, disk[..], i, e, ch.of, disk[..]);
      entries[i] := e;
      assert entries[..] == es[i := e];
    }

    method Rmdir(idx: int) returns (r: int)
      requires Valid()
      modifies this`ch, this`lost, entries
      ensures Valid() && LostKept()
      ensures (View(), r) == V.Rmdir(old(View()), idx)
    {
      hide Owned, FreeSet, Nodes;
      NodeIsEntry(entries[..], ch.of, disk[..], idx);
      if idx <= 0 || idx >= MAX_ENTRIES { return -1; }
      if !entries[idx].used || !entries[idx].isDir { return -2; }
      var b := ChildExists(idx);
      if b { return -3; }
      DropDir(idx);
      return 0;
    }

    // -------------------------------------------------------------------
    // Chains
    // -------------------------------------------------------------------

    /** Allocates the first cluster of a chain for owner i. */
    method StartChain(ghost i: int) returns (c: u16)
      requires Shape() && Owned(fat[..], ch) && i !in ch.of
      modifies this`ch, fat
      ensures Owned(fat[..], ch)
      ensures c == 0 <==> old(|FreeSet(fat[..])|) == 0
      ensures c == 0 ==> ch == old(ch) && fat[..] == old(fat[..])
      ensures c != 0 ==> ch == Start(old(ch), i, c) && |FreeSet(fat[..])| == old(|FreeSet(fat[..])|) - 1
    {
      c := AllocCluster(fat);
      if c != 0 {
        StartOwned(old(fat[..]), ch, i, c);
        ch := Start(ch, i, c);
        assert c in FreeSet(old(fat[..]));
      }
    }

    /** Releases the chain of owner i, if it has one. */
    method ReleaseChain(ghost i: int, first: u16)
      requires Shape() && Owned(fat[..], ch) && if i in ch.of then ch.of[i][0] == first else !InData(first)
      modifies this`ch, fat
      ensures Owned(fat[..], ch)
      ensures i in old(ch).of ==>
        ch == Drop(old(ch), i) && |FreeSet(fat[..])| == old(|FreeSet(fat[..])|) + |old(ch).of[i]|
      ensures i !in old(ch).of ==> ch == old(ch) && fat[..] == old(fat[..])
    {
      FreeClusterChain(fat, first);
      if i in ch.of {
        ghost var cs := ch.of[i];
        ChainDistinct(old(fat[..]), ch, i);
        forall c ensures Reaches(old(fat[..]), first, c) <==> c in cs { ChainIsReach(old(fat[..]), cs, c); }
        assert fat[..] == Zeroed(old(fat[..]), Elements(cs));
        DropOwned(old(fat[..]), ch, i);
        ch := Drop(ch, i);
      }
    }

    /** The cluster after position pos of the chain of owner i; a new one at the end of the
        chain, or 0 when there is none left. */
    method NextCluster(ghost i: int, ghost pos: nat, cur: u16) returns (nc: u16)
      requires Shape() && Owned(fat[..], ch) && i in ch.of && pos < |ch.of[i]| && cur == ch.of[i][pos]
      modifies this`ch, fat
      ensures Owned(fat[..], ch) && i in ch.of
      ensures nc == 0 ==> pos == |old(ch).of[i]| - 1 && |FreeSet(fat[..])| == 0
      ensures nc == 0 || pos < |old(ch).of[i]| - 1 ==> ch == old(ch) && fat[..] == old(fat[..])
      ensures nc != 0 && pos == |old(ch).of[i]| - 1 ==>
        ch == Extend(old(ch), i, nc) && |FreeSet(fat[..])| == old(|FreeSet(fat[..])|) - 1
      ensures nc != 0 ==> pos + 1 < |ch.of[i]| && nc == ch.of[i][pos + 1]
    {
      hide Owned;
      ChainLink(fat[..], ch, i, pos);
      if fat[cur] == END {
        ghost var before := fat[..];
        nc := AllocCluster(fat);
        if nc == 0 {
          fat[cur] := END;
          assert fat[..] == before;
        } else {
          fat[cur] := nc;
          ExtendOwned(before, ch, i, nc);
          ch := Extend(ch, i, nc);
          assert nc in FreeSet(before);
        }
      } else {
        nc := fat[cur];
      }
    }

    /** Writes along the chain that starts at `first`, extending it when it ends too early. */
    method WriteChain(ghost i: int, first: u16, data: seq<byte>) returns (written: nat)
      requires Shape() && Owned(fat[..], ch)
      requires InData(first) ==> i in ch.of && ch.of[i][0] == first
      modifies this`ch, fat, disk
      ensures !InData(first) ==> written == 0 && ch == old(ch) && fat[..] == old(fat[..]) && disk[..] == old(disk[..])
      ensures InData(first) ==>
        Wrote(old(fat[..]), old(ch), old(disk[..]), fat[..], ch, disk[..], i, data, written)
    {
      hide Owned, Wrote, Writing, DiskKeeps, Holds, FreeSet;
      if first < 2 || first >= FAT_ENTRIES { return 0; }
      ghost var f0, c0, d0, pos := fat[..], ch, disk[..], 0;
      WriteStarts(f0, c0, d0, i, data);
      var cur := first;
      written := 0;
      while written < |data|
        invariant Writing(f0, c0, d0, fat[..], ch, disk[..], i, pos, pos, data) && i in ch.of && pos < |ch.of[i]|
        invariant cur == ch.of[i][pos] && written == pos * CLUSTER && (data != [] ==> written < |data|)
      {
        WritingLink(f0, c0, d0, fat[..], ch, disk[..], i, pos, data);
        var n := if |data| - written > CLUSTER then CLUSTER else |data| - written;
        ghost var d := disk[..];
        StoreCluster(cur, data[written..written + n]);
        written := written + n;
        if written < |data| {
          WritingStored(f0, c0, d0, fat[..], ch, d, disk[..], i, pos, data);
          ghost var f, c := fat[..], ch;
          cur := NextCluster(i, pos, cur);
          if cur == 0 {
            WriteFills(f0, c0, d0, f, c, disk[..], i, pos, data);
            return;
          }
          WritingNext(f0, c0, d0, f, c, fat[..], ch, disk[..], i, pos, cur, data);
          pos := pos + 1;
        } else {
          WriteEnds(f0, c0, d0, fat[..], ch, d, disk[..], i, pos, data);
          ghost var f: Table := fat[..];
          fat[cur] := END;
          assert fat[..] == f[cur := END];
          return;
        }
      }
      WriteNothing(f0, c0, d0, fat[..], ch, disk[..], i, pos, data);
    }

    method StoreCluster(c: u16, d: seq<byte>)
      requires Shape() && InData(c) && |d| <= CLUSTER
      modifies disk
      ensures Holds(disk[..], c, d)
      ensures DiskKeeps(old(disk[..]), disk[..], [c])
    {
      forall r | 0 <= r < |d| { disk[Offset(c) + r] := d[r]; }
      forall a | 0 <= a < disk.Length && !OnChain([c], a) ensures disk[a] == old(disk[a]) {
        assert [c][0] == c;
      }
    }

    // -------------------------------------------------------------------
    // Files
    // -------------------------------------------------------------------

    method CreateFile(name: Option<CString>, ext: CString, parent: int) returns (r: int, c: u16)
      requires Valid()
      modifies this`ch, fat, entries
      ensures Valid() && LostKept()
      ensures (View(), r) == V.Create(old(View()), name, ext, parent)
      ensures r >= 0 ==> r in ch.of && ch.of[r] == [c]
    {
      hide Owned, FreeSet, Nodes, Lowest;
      NodeIsEntry(entries[..], ch.of, disk[..], parent);
      r, c := -1, 0;
      if name.None? || parent < 0 || parent >= MAX_ENTRIES { return; }
      if !entries[parent].used || !entries[parent].isDir { return -2, 0; }
      var twin := TwinExists(false, name.value, ext, parent);
      if twin { return -3, 0; }
      var idx := FindFreeEntry();
      if idx < 0 { return -4, 0; }
      c := AddFile(idx, Stored(name.value), Stored(ext), parent);
      if c == 0 { return -5, 0; }
      r := idx;
    }

    /** Puts an empty file with one cluster into an unused entry. */
    method AddFile(idx: int, name: CString, ext: CString, parent: int) returns (c: u16)
      requires Valid() && InTable(idx) && !entries[idx].used && |name| < NAME_MAX && |ext| < NAME_MAX
      modifies this`ch, fat, entries
      ensures Valid() && LostKept() && (c == 0 <==> old(View()).free == 0)
      ensures c == 0 ==> View() == old(View())
      ensures c != 0 ==> idx in ch.of && ch.of[idx] == [c]
      ensures c != 0 ==> View() == Volume(old(View()).nodes[idx := File(parent, name, ext, [])], old(View()).free - 1)
    {
      hide Owned, FreeSet, Content;
      ghost var es, of := entries[..], ch.of;
      c := StartChain(idx);
      if c != 0 {
        var e := Entry(name, ext, parent, c, 0, true, false);
        entries[idx] := e;
        assert entries[..] == es[idx := e];
        LinkedPut(es, of, idx, e, [c]);
        NodesChange(es, of, disk[..], idx, e, ch.of, disk[..]);
      }
    }

    method DropFile(idx: int)
      requires Valid() && InTable(idx) && idx in ch.of
      modifies this`ch, fat, entries
      ensures Valid() && LostKept()
      ensures View() == Volume(old(View()).nodes - {idx}, old(View()).free + Clusters(old(entries[idx].size)))
    {
      hide Owned, FreeSet, Content;
      ghost var es, of := entries[..], ch.of;
      ReleaseChain(idx, entries[idx].first);
      var e := entries[idx].(used := false);
      LinkedDrop(es, of, idx, e);
      NodesChange(es, of, disk[..], idx, e, ch.of, disk[..]);
      entries[idx] := e;
      assert entries[..] == es[idx := e];
    }

    method RemoveEntry(idx: int) returns (r: int)
      requires Valid()
      modifies this`ch, this`lost, fat, entries
      ensures Valid() && LostKept()
      ensures (View(), r) == V.Remove(old(View()), idx)
    {
      hide Owned, FreeSet, Nodes;
      NodeIsEntry(entries[..], ch.of, disk[..], idx);
      if idx <= 0 || idx >= MAX_ENTRIES { return -1; }
      if !entries[idx].used { return -2; }
      if entries[idx].isDir {
        var b := ChildExists(idx);
        if b { return -3; }
        DropDir(idx);
      } else {
        DropFile(idx);
      }
      return 0;
    }

    /** Gives the entry a new chain of one cluster and frees its old one. If there was one, there is
        always a cluster, the first of the chain just freed. */
    method Restart(idx: int) returns (c: u16)
      requires Valid() && InTable(idx) && entries[idx].used
      modifies this`ch, fat, entries
      ensures Owned(fat[..], ch)
      ensures c == 0 <==> idx !in old(ch).of && old(View()).free == 0
      ensures c == 0 ==> Valid() && View() == old(View()) && ch == old(ch)
      ensures c != 0 ==>
        && ch.of == old(ch).of[idx := [c]]
        && entries[..] == old(entries[..])[idx := old(entries[idx]).(first := c)]
        && |FreeSet(fat[..])| == old(View()).free - 1 +
             if idx in old(ch).of then Clusters(old(entries[idx]).size) else 0
    {
      hide Owned, FreeSet, Content;
      ReleaseChain(idx, entries[idx].first);
      c := StartChain(idx);
      if c != 0 { entries[idx] := entries[idx].(first := c); }
    }

    /** Writes data to the one-cluster chain of the entry and records the size. */
    method FillEntry(idx: int, c: u16, data: seq<byte>) returns (r: int)
      requires Shape() && Owned(fat[..], ch) && InTable(idx) && idx in ch.of && ch.of[idx] == [c]
      modifies this`ch, fat, entries, disk
      ensures Filled(old(fat[..]), old(ch), old(disk[..]), old(entries[..]), fat[..], ch, disk[..], entries[..],
                     idx, data, r)
    {
      hide Owned, FreeSet, Content, DiskKeeps;
      ChainLink(fat[..], ch, idx, 0);
      if |data| == 0 {
        entries[idx] := entries[idx].(size := 0);
        FillsNothing(fat[..], ch, disk[..], idx);
        return 0;
      }
      var written := WriteChain(idx, c, data);
      entries[idx] := entries[idx].(size := written);
      assert |data[..written]| == written;
      r := if written != |data| then -6 else 0;
    }

    /** Replaces the bytes of an entry that exists, be it a file or a directory. */
    method Overwrite(idx: int, data: seq<byte>) returns (r: int)
      requires Valid() && InTable(idx) && entries[idx].used
      modifies this`ch, fat, entries, disk
      ensures Valid() && LostKept() && (View(), r) == Fill(old(View()), idx, data)
    {
      hide Owned, FreeSet, Content, DiskKeeps, Linked, Fitting, Clusters;
      ghost var es, of, d, v := entries[..], ch.of, disk[..], View();
      NodeIsEntry(es, of, d, idx);
      WeightIs(es, of, d, idx);
      var c := Restart(idx);
      if c == 0 { return -5; }
      ghost var f, h := fat[..], ch;
      r := FillEntry(idx, c, data);
      FillView(es, of, d, v, f, h, c, fat[..], ch, disk[..], entries[..], idx, data, r);
    }

    /** Writes to a file just created. */
    method WriteNew(idx: int, c: u16, data: seq<byte>) returns (r: int)
      requires Valid() && InTable(idx) && idx in ch.of && ch.of[idx] == [c]
      modifies this`ch, fat, entries, disk
      ensures Valid() && LostKept() && (View(), r) == Fill(old(View()), idx, data)
    {
      hide Owned, FreeSet, Content, DiskKeeps, Fitting, Clusters;
      ghost var es, of, d, v, f, h := entries[..], ch.of, disk[..], View(), fat[..], ch;
      NodeIsEntry(es, of, d, idx);
      WeightIs(es, of, d, idx);
      assert es[idx := es[idx].(first := c)] == es && of[idx := [c]] == of;
      r := FillEntry(idx, c, data);
      FillView(es, of, d, v, f, h, c, fat[..], ch, disk[..], entries[..], idx, data, r);
    }

    method WriteFile(name: Option<CString>, ext: CString, parent: int, data: seq<byte>) returns (r: int)
      requires Valid()
      modifies this`ch, fat, entries, disk
      ensures Valid() && LostKept() && (View(), r) == V.Write(old(View()), name, ext, parent, data)
    {
      hide Owned, FreeSet, Nodes, Lowest, Fill;
      NodeIsEntry(entries[..], ch.of, disk[..], parent);
      if name.None? { return -1; }
      if parent < 0 || parent >= MAX_ENTRIES { return -2; }
      if !entries[parent].used || !entries[parent].isDir { return -3; }
      var idx := FindInDir(name, ext, parent);
      NodeIsEntry(entries[..], ch.of, disk[..], idx);
      if idx < 0 {
        var c: u16;
        idx, c := CreateFile(name, ext, parent);
        if idx < 0 { return -4; }
        r := WriteNew(idx, c, data);
      } else {
        r := Overwrite(idx, data);
      }
    }

    // -------------------------------------------------------------------
    // Reading
    // -------------------------------------------------------------------

    /** Reads along the links from any cluster, in any table: cyclic, shared or broken chains included. */
    method ReadChain(first: u16, size: nat) returns (out: seq<byte>)
      requires Shape()
      ensures !InData(first) ==> out == []
      ensures InData(first) ==>
        var cs := Walk(fat[..], first, Clusters(size));
        out == Content(disk[..], cs, if size <= |cs| * CLUSTER then size else |cs| * CLUSTER)
    {
      hide Content, Clusters, Walk, Offset;
      out := [];
      if first < 2 || first >= FAT_ENTRIES { return; }
      ghost var f: Table, cs, pos: nat := fat[..], Walk(fat[..], first, Clusters(size)), 0;
      ContentNil(disk[..], cs);
      var cur := first;
      while cur != 0 && cur < FAT_ENTRIES && |out| < size
        invariant 0 <= cur && f == fat[..] && cs == Walk(f, first, Clusters(size))
        invariant pos <= |cs| && pos <= Clusters(size)
        invariant cs[pos..] == Walk(f, cur, Clusters(size) - pos)
        invariant |out| == (if size <= pos * CLUSTER then size else pos * CLUSTER)
        invariant out == Content(disk[..], cs, |out|)
        decreases size - |out|
      {
        WalkStep(f, cur, Clusters(size) - pos);
        var n := if size - |out| > CLUSTER then CLUSTER else size - |out|;
        ReadOn(disk[..], cs, pos, n, out);
        InDisk(cur);
        out := out + disk[Offset(cur)..Offset(cur) + n];
        pos := pos + 1;
        if fat[cur] == END { break; }
        cur := fat[cur];
      }
      if !(0 < cur < FAT_ENTRIES) { WalkStops(f, cur, Clusters(size) - pos); }
    }

    method ReadFile(name: Option<CString>, ext: CString, parent: int, bufsize: nat) returns (r: int, out: seq<byte>)
      requires Valid()
      ensures name.None? || Read(View(), Key(parent, name.value, ext)).None? <==> r == -1
      ensures r == 0 ==> Read(View(), Key(parent, name.value, ext)) == Some(out) && |out| <= bufsize
      ensures r == -2 ==> bufsize < |Read(View(), Key(parent, name.value, ext)).value|
      ensures r == 0 || r == -1 || r == -2
      ensures r != 0 ==> out == []
    {
      hide Owned, Content, Lowest, Nodes, Walk;
      out := [];
      var idx := FindInDir(name, ext, parent);
      if idx < 0 { return -1, out; }
      NodeIsEntry(entries[..], ch.of, disk[..], idx);
      LookupSlot(View(), Key(parent, name.value, ext));
      ReadIs(fat[..], ch, entries[..], disk[..], idx);
      if bufsize < entries[idx].size { return -2, out; }
      out := ReadChain(entries[idx].first, entries[idx].size);
      r := 0;
    }
  }

  predicate EntryMatches(e: Entry, k: Key) { e.used && Matches(NodeOf(e, None), k) }

  lemma LookupIs(es: seq<Entry>, of: map<int, seq<int>>, disk: seq<byte>, free: nat, k: Key, r: int)
    requires |es| == MAX_ENTRIES && InTable(k.parent)
    requires r == -1 || (0 <= r < MAX_ENTRIES && EntryMatches(es[r], k))
    requires forall j :: 0 <= j < MAX_ENTRIES && (r == -1 || j < r) ==> !EntryMatches(es[j], k)
    ensures Lookup(Volume(Nodes(es, of, disk), free), k) == r
  {
    var nodes := Nodes(es, of, disk);
    assert forall j :: j in nodes ==> (EntryMatches(es[j], k) <==> Matches(nodes[j], k));
    var found := Found(Volume(nodes, free), k);
    assert r != -1 ==> r in found;
    assert forall j :: 0 <= j < MAX_ENTRIES && (r == -1 || j < r) ==> j !in found;
    assert Lowest(found) == r;
  }

  lemma FreeSlotIs(es: seq<Entry>, of: map<int, seq<int>>, disk: seq<byte>, free: nat, r: int)
    requires |es| == MAX_ENTRIES
    requires r == -1 || (1 <= r < MAX_ENTRIES && !es[r].used)
    requires forall j :: 1 <= j < MAX_ENTRIES && (r == -1 || j < r) ==> es[j].used
    ensures FreeSlot(Volume(Nodes(es, of, disk), free)) == r
  {
    var open := set i | 1 <= i < MAX_ENTRIES && i !in Nodes(es, of, disk);
    assert r != -1 ==> r in open;
    assert forall j :: 0 <= j < MAX_ENTRIES && (r == -1 || j < r) ==> j !in open;
    assert Lowest(open) == r;
  }

  lemma NodeIsEntry(es: seq<Entry>, of: map<int, seq<int>>, disk: seq<byte>, i: int)
    requires |es| == MAX_ENTRIES
    ensures i in Nodes(es, of, disk) <==> InTable(i) && es[i].used
    ensures i in Nodes(es, of, disk) ==> Nodes(es, of, disk)[i] == NodeOf(es[i], DataOf(es[i], i, of, disk))
  {}

  predicate IsTwin(e: Entry, dir: bool, name: CString, ext: CString, parent: int) {
    e.used && e.parent == parent && e.isDir == dir && e.name == name && (dir || e.ext == ext)
  }

  lemma TwinIs(es: seq<Entry>, of: map<int, seq<int>>, disk: seq<byte>, free: nat,
               dir: bool, name: CString, ext: CString, parent: int, i: int)
    requires |es| == MAX_ENTRIES
    requires i == -1 || (0 <= i < MAX_ENTRIES && IsTwin(es[i], dir, name, ext, parent))
    requires i == -1 ==> forall j :: 0 <= j < MAX_ENTRIES ==> !IsTwin(es[j], dir, name, ext, parent)
    ensures var v := Volume(Nodes(es, of, disk), free);
      i != -1 <==> if dir then DirNamed(v, parent, name) else FileNamed(v, Key(parent, name, ext))
  {
    var nodes := Nodes(es, of, disk);
    forall j | j in nodes
      ensures IsTwin(es[j], dir, name, ext, parent) <==>
        if dir then nodes[j].Dir? && nodes[j].parent == parent && nodes[j].name == name
        else nodes[j].File? && Matches(nodes[j], Key(parent, name, ext))
    {}
    if i != -1 { assert i in nodes; }
  }

  /** Changing one entry changes one node, if the bytes of the others stay. */
  lemma NodesChange(es: seq<Entry>, of: map<int, seq<int>>, disk: seq<byte>,
                    i: int, e: Entry, of': map<int, seq<int>>, disk': seq<byte>)
    requires |es| == MAX_ENTRIES && InTable(i)
    requires forall j :: 0 <= j < MAX_ENTRIES && j != i && es[j].used ==>
      DataOf(es[j], j, of', disk') == DataOf(es[j], j, of, disk)
    ensures Nodes(es[i := e], of', disk') ==
      if e.used then Nodes(es, of, disk)[i := NodeOf(e, DataOf(e, i, of', disk'))] else Nodes(es, of, disk) - {i}
  {}

  /** The address lies in a cluster of the chain. */
  ghost predicate OnChain(cs: seq<int>, a: int) {
    exists k :: 0 <= k < |cs| && Offset(cs[k]) <= a < Offset(cs[k]) + CLUSTER
  }

  /** The disk changed at most in the clusters of the chain: not in others, and not outside the data area. */
  ghost predicate DiskKeeps(disk: seq<byte>, disk': seq<byte>, cs: seq<int>) {
    |disk'| == |disk| && forall a :: 0 <= a < |disk| && !OnChain(cs, a) ==> disk'[a] == disk[a]
  }

  lemma ClusterKept(disk: seq<byte>, disk': seq<byte>, cs: seq<int>, c: int, r: int)
    requires DiskKeeps(disk, disk', cs) && InData(c) && c !in cs && 0 <= r < CLUSTER
    requires forall k :: 0 <= k < |cs| ==> InData(cs[k])
    ensures ByteAt(disk', c, r) == ByteAt(disk, c, r)
  {
    var a := Offset(c) + r;
    if k :| 0 <= k < |cs| && Offset(cs[k]) <= a < Offset(cs[k]) + CLUSTER {
      ClustersDisjoint(c, cs[k], r, a - Offset(cs[k]));
    }
    assert !OnChain(cs, a);
  }

  lemma KeepsMore(disk: seq<byte>, disk': seq<byte>, cs: seq<int>, ds: seq<int>)
    requires DiskKeeps(disk, disk', cs) && forall c :: c in cs ==> c in ds
    ensures DiskKeeps(disk, disk', ds)
  {
    forall a | OnChain(cs, a) ensures OnChain(ds, a) {
      var k :| 0 <= k < |cs| && Offset(cs[k]) <= a < Offset(cs[k]) + CLUSTER;
      assert cs[k] in ds;
    }
  }

  ghost predicate Holds(disk: seq<byte>, c: int, d: seq<byte>) {
    forall r :: 0 <= r < |d| ==> ByteAt(disk, c, r) == d[r]
  }

  /** The data ends before the chain does. */
  ghost predicate Cuts(cs: seq<int>, data: seq<byte>) { data != [] && Clusters(|data|) < |cs| }

  lemma ContentNil(disk: seq<byte>, cs: seq<int>)
    ensures Content(disk, cs, 0) == []
  {}

  lemma WalkStep(fat: Table, c: int, k: nat)
    requires 0 < c < FAT_ENTRIES && k > 0
    ensures Walk(fat, c, k) != [] && Walk(fat, c, k)[0] == c
    ensures Walk(fat, c, k)[1..] == if fat[c] == END then [] else Walk(fat, fat[c], k - 1)
  {}

  lemma WalkStops(fat: Table, c: int, k: nat)
    requires !(0 < c < FAT_ENTRIES)
    ensures Walk(fat, c, k) == []
  {}

  lemma InDisk(c: int)
    requires 0 < c < FAT_ENTRIES
    ensures 0 <= Offset(c) && Offset(c) + CLUSTER <= RAMDISK_SIZE
  {}

  /** What a look-up finds is in the table. */
  lemma LookupSlot(v: Volume, k: Key)
    ensures Lookup(v, k) < MAX_ENTRIES && (Lookup(v, k) >= 0 ==> Lookup(v, k) in v.nodes)
  {}

  /** Reading an entry gives the contents of its node. */
  lemma ReadIs(fat: Table, ch: Chains, es: seq<Entry>, disk: seq<byte>, i: int)
    requires Linked(es, ch.of) && Owned(fat, ch) && InTable(i) && es[i].used
    ensures var bytes := Contents(NodeOf(es[i], DataOf(es[i], i, ch.of, disk)));
      var cs := Walk(fat, es[i].first, Clusters(es[i].size));
      && |bytes| == es[i].size
      && (InData(es[i].first) ==> es[i].size <= |cs| * CLUSTER && bytes == Content(disk, cs, es[i].size))
      && (!InData(es[i].first) ==> bytes == [])
  {
    hide Content, Walk, Clusters, IsChain;
    if i in ch.of {
      ChainDistinct(fat, ch, i);
      WalkChain(fat, ch.of[i], 0, Clusters(es[i].size));
      assert ch.of[i][0..|ch.of[i]|] == ch.of[i];
    }
  }

  lemma KeepsThen(disk: seq<byte>, disk1: seq<byte>, disk2: seq<byte>, cs: seq<int>)
    requires DiskKeeps(disk, disk1, cs) && DiskKeeps(disk1, disk2, cs)
    ensures DiskKeeps(disk, disk2, cs)
  {}

  /** One more cluster of data along the chain. */
  lemma AppendCluster(disk0: seq<byte>, disk: seq<byte>, disk': seq<byte>, cs: seq<int>, pos: nat, data: seq<byte>,
                      n: nat)
    requires pos < |cs| && Distinct(cs) && forall k :: 0 <= k < |cs| ==> InData(cs[k])
    requires n <= CLUSTER && pos * CLUSTER + n <= |data|
    requires Content(disk, cs, pos * CLUSTER) == data[..pos * CLUSTER]
    requires DiskKeeps(disk0, disk, cs) && DiskKeeps(disk, disk', [cs[pos]])
    requires Holds(disk', cs[pos], data[pos * CLUSTER..pos * CLUSTER + n])
    ensures Content(disk', cs, pos * CLUSTER + n) == data[..pos * CLUSTER + n]
    ensures DiskKeeps(disk0, disk', cs)
  {
    hide DiskKeeps, Offset;
    var m := pos * CLUSTER + n;
    KeepsMore(disk, disk', [cs[pos]], cs);
    KeepsThen(disk0, disk, disk', cs);
    forall p | 0 <= p < m ensures Content(disk', cs, m)[p] == data[p] {
      if p < pos * CLUSTER {
        assert Content(disk, cs, pos * CLUSTER)[p] == data[p];
        assert cs[p / CLUSTER] != cs[pos];
        ClusterKept(disk, disk', [cs[pos]], cs[p / CLUSTER], p % CLUSTER);
      } else {
        assert p / CLUSTER == pos && p % CLUSTER == p - pos * CLUSTER;
        assert data[pos * CLUSTER..m][p - pos * CLUSTER] == data[p];
      }
    }
  }

  /** A longer chain holds the same first bytes. */
  lemma Longer(disk0: seq<byte>, disk: seq<byte>, cs: seq<int>, m: nat, n: nat)
    requires m <= |cs| && n <= m * CLUSTER
    ensures Content(disk, cs, n) == Content(disk, cs[..m], n)
    ensures DiskKeeps(disk0, disk, cs[..m]) ==> DiskKeeps(disk0, disk, cs)
  {
    hide DiskKeeps;
    if DiskKeeps(disk0, disk, cs[..m]) { KeepsMore(disk0, disk, cs[..m], cs); }
  }

  /** State of a write along the chain of owner i that has reached position pos of the chain
      and stored `done` clusters of data. The index 0 marks the state before the write. */
  ghost predicate Writing(f0: Table, c0: Chains, d0: seq<byte>, f: Table, c: Chains, d: seq<byte>,
                          i: int, pos: nat, done: nat, data: seq<byte>)
  {
    && i in c0.of && i in c.of && Owned(f, c) && c.of == c0.of[i := c.of[i]] && c0.of[i] <= c.of[i]
    && pos < |c.of[i]| && pos <= done <= pos + 1
    && (|c.of[i]| > |c0.of[i]| ==> pos == |c.of[i]| - 1)
    && (|c.of[i]| == |c0.of[i]| ==> c == c0 && f == f0)
    && |FreeSet(f)| + |c.of[i]| == |FreeSet(f0)| + |c0.of[i]|
    && done * CLUSTER <= |data| && (data != [] ==> done * CLUSTER < |data|)
    && Content(d, c.of[i], done * CLUSTER) == data[..done * CLUSTER]
    && DiskKeeps(d0, d, c.of[i])
  }

  /** Outcome of a write along the chain of owner i. */
  ghost predicate Wrote(f0: Table, c0: Chains, d0: seq<byte>, f: Table, c: Chains, d: seq<byte>,
                        i: int, data: seq<byte>, written: nat)
  {
    && i in c0.of && i in c.of && written <= |data|
    && Content(d, c.of[i], written) == data[..written]
    && DiskKeeps(d0, d, c.of[i])
    && if Cuts(c0.of[i], data) then
         var last := c0.of[i][Clusters(|data|) - 1];
         written == |data| && c == c0 && InData(last) && f == f0[last := END]
       else
         && Owned(f, c) && c.of == c0.of[i := c.of[i]] && c0.of[i] <= c.of[i]
         && data[..written] == Fitting(data, |c0.of[i]| + |FreeSet(f0)|)
         && (data != [] ==> |c.of[i]| == Clusters(written))
         && |FreeSet(f)| + |c.of[i]| == |FreeSet(f0)| + |c0.of[i]|
  }

  lemma WriteStarts(f: Table, c: Chains, d: seq<byte>, i: int, data: seq<byte>)
    requires Owned(f, c) && i in c.of
    ensures Writing(f, c, d, f, c, d, i, 0, 0, data)
  {}

  lemma WriteNothing(f0: Table, c0: Chains, d0: seq<byte>, f: Table, c: Chains, d: seq<byte>,
                     i: int, pos: nat, data: seq<byte>)
    requires Owned(f0, c0) && Writing(f0, c0, d0, f, c, d, i, pos, pos, data) && data == []
    ensures pos == 0 && Wrote(f0, c0, d0, f, c, d, i, data, 0)
  {}

  lemma WritingLink(f0: Table, c0: Chains, d0: seq<byte>, f: Table, c: Chains, d: seq<byte>,
                    i: int, pos: nat, data: seq<byte>)
    requires Writing(f0, c0, d0, f, c, d, i, pos, pos, data)
    ensures Owned(f, c) && i in c.of && pos < |c.of[i]| && InData(c.of[i][pos])
  {}

  lemma WritingStored(f0: Table, c0: Chains, d0: seq<byte>, f: Table, c: Chains, d: seq<byte>, d': seq<byte>,
                      i: int, pos: nat, data: seq<byte>)
    requires Writing(f0, c0, d0, f, c, d, i, pos, pos, data) && (pos + 1) * CLUSTER < |data|
    requires DiskKeeps(d, d', [c.of[i][pos]])
    requires Holds(d', c.of[i][pos], data[pos * CLUSTER..(pos + 1) * CLUSTER])
    ensures Writing(f0, c0, d0, f, c, d', i, pos, pos + 1, data)
  {
    ChainDistinct(f, c, i);
    AppendCluster(d0, d, d', c.of[i], pos, data, CLUSTER);
  }

  lemma WritingNext(f0: Table, c0: Chains, d0: seq<byte>, f: Table, c: Chains, f': Table, c': Chains, d: seq<byte>,
                    i: int, pos: nat, nc: int, data: seq<byte>)
    requires Writing(f0, c0, d0, f, c, d, i, pos, pos + 1, data)
    requires Owned(f', c')
    requires if pos < |c.of[i]| - 1 then c' == c && f' == f
             else c' == Extend(c, i, nc) && |FreeSet(f')| == |FreeSet(f)| - 1
    ensures Writing(f0, c0, d0, f', c', d, i, pos + 1, pos + 1, data)
  {
    hide Owned, FreeSet;
    if pos == |c.of[i]| - 1 {
      assert c'.of[i][..pos + 1] == c.of[i];
      Longer(d0, d, c'.of[i], pos + 1, (pos + 1) * CLUSTER);
    }
  }

  /** No cluster is left: all room is filled. */
  lemma WriteFills(f0: Table, c0: Chains, d0: seq<byte>, f: Table, c: Chains, d: seq<byte>,
                   i: int, pos: nat, data: seq<byte>)
    requires Writing(f0, c0, d0, f, c, d, i, pos, pos + 1, data) && data != []
    requires pos == |c.of[i]| - 1 && |FreeSet(f)| == 0
    ensures Wrote(f0, c0, d0, f, c, d, i, data, (pos + 1) * CLUSTER)
  {
    hide Owned, FreeSet, Content, DiskKeeps;
  }

  /** All data is stored: the chain ends here. */
  lemma WriteEnds(f0: Table, c0: Chains, d0: seq<byte>, f: Table, c: Chains, d: seq<byte>, d': seq<byte>,
                  i: int, pos: nat, data: seq<byte>)
    requires Writing(f0, c0, d0, f, c, d, i, pos, pos, data) && data != [] && |data| <= (pos + 1) * CLUSTER
    requires DiskKeeps(d, d', [c.of[i][pos]])
    requires Holds(d', c.of[i][pos], data[pos * CLUSTER..|data|])
    ensures InData(c.of[i][pos]) && Wrote(f0, c0, d0, f[c.of[i][pos] := END], c, d', i, data, |data|)
  {
    hide Owned, FreeSet, Content, DiskKeeps;
    ChainDistinct(f, c, i);
    ChainLink(f, c, i, pos);
    AppendCluster(d0, d, d', c.of[i], pos, data, |data| - pos * CLUSTER);
    assert data[..|data|] == data;
    if pos == |c.of[i]| - 1 { assert f[c.of[i][pos] := END] == f; }
  }

  lemma LinkedPut(es: seq<Entry>, of: map<int, seq<int>>, i: int, e: Entry, cs: seq<int>)
    requires Linked(es, of) && InTable(i) && e.used && !e.isDir && |e.name| < NAME_MAX && |e.ext| < NAME_MAX
    requires |cs| == Clusters(e.size) && cs[0] == e.first
    ensures Linked(es[i := e], of[i := cs])
  {}

  lemma LinkedLose(es: seq<Entry>, of: map<int, seq<int>>, i: int, e: Entry, of': map<int, seq<int>>, j: int)
    requires Linked(es, of) && InTable(i) && !e.used && j < 0
    requires if i in of then of' == (of - {i})[j := of[i]] else of' == of
    ensures Linked(es[i := e], of')
  {}

  /** The clusters of an entry's chain, if it has one. */
  lemma WeightIs(es: seq<Entry>, of: map<int, seq<int>>, d: seq<byte>, i: int)
    requires Linked(es, of) && InTable(i) && es[i].used
    ensures Weight(NodeOf(es[i], DataOf(es[i], i, of, d))) == if i in of then Clusters(es[i].size) else 0
  {}

  lemma LinkedDrop(es: seq<Entry>, of: map<int, seq<int>>, i: int, e: Entry)
    requires Linked(es, of) && InTable(i) && !e.used
    ensures Linked(es[i := e], of - {i})
  {}

  /** Outcome of filling entry i, whose chain had one cluster. */
  ghost predicate Filled(f: Table, c: Chains, d: seq<byte>, es: seq<Entry>,
                         f': Table, c': Chains, d': seq<byte>, es': seq<Entry>, i: int, data: seq<byte>, r: int)
  {
    var s := Fitting(data, 1 + |FreeSet(f)|);
    && i in c.of && i in c'.of && c.of[i] != [] && 0 <= i < |es|
    && Owned(f', c') && c'.of == c.of[i := c'.of[i]] && c.of[i] <= c'.of[i]
    && |c'.of[i]| == Clusters(|s|) && |FreeSet(f')| == 1 + |FreeSet(f)| - Clusters(|s|)
    && Content(d', c'.of[i], |s|) == s && DiskKeeps(d, d', c'.of[i])
    && es' == es[i := es[i].(size := |s|)]
    && r == if s == data then 0 else -6
  }

  lemma FillsNothing(f: Table, c: Chains, d: seq<byte>, i: int)
    requires Owned(f, c) && i in c.of
    ensures Content(d, c.of[i], 0) == [] && DiskKeeps(d, d, c.of[i])
  {}

  /** Filling the chain of an entry fills the node. (es, of, d) is the state that v describes. */
  lemma FillView(es: seq<Entry>, of: map<int, seq<int>>, d: seq<byte>, v: Volume, f: Table, c: Chains, first: u16,
                 f': Table, c': Chains, d': seq<byte>, es': seq<Entry>, i: int, data: seq<byte>, r: int)
    requires Linked(es, of) && v.nodes == Nodes(es, of, d) && InTable(i) && |es| == MAX_ENTRIES && es[i].used
    requires i in v.nodes && i in c.of && c.of == of[i := [first]]
    requires Filled(f, c, d, es[i := es[i].(first := first)], f', c', d', es', i, data, r)
    requires 1 + |FreeSet(f)| == v.free + Weight(v.nodes[i])
    ensures Linked(es', c'.of) && (Volume(Nodes(es', c'.of, d'), |FreeSet(f')|), r) == Fill(v, i, data)
  {
    hide Owned, FreeSet, DiskKeeps, Linked, Content, Nodes, Weight;
    var e := es[i].(first := first, size := |Fitting(data, 1 + |FreeSet(f)|)|);
    NodeIsEntry(es, of, d, i);
    OthersKeep(of, d, f', c', d', i);
    LinkedFill(es, of, i, e, c'.of[i]);
    assert es' == es[i := e] && c'.of == of[i := c'.of[i]];
    NodesChange(es, of, d, i, e, c'.of, d');
  }

  lemma LinkedFill(es: seq<Entry>, of: map<int, seq<int>>, i: int, e: Entry, cs: seq<int>)
    requires Linked(es, of) && InTable(i) && |es| == MAX_ENTRIES && es[i].used
    requires e == es[i].(first := e.first, size := e.size)
    requires |cs| == Clusters(e.size) && cs[0] == e.first
    ensures Linked(es[i := e], of[i := cs])
  {}

  /** The bytes of other owners stay. */
  lemma OthersKeep(of: map<int, seq<int>>, d: seq<byte>, f': Table, c': Chains, d': seq<byte>, i: int)
    requires Owned(f', c') && i in c'.of && c'.of == of[i := c'.of[i]] && DiskKeeps(d, d', c'.of[i])
    ensures forall j, n :: j in of && j != i ==> Content(d', of[j], n) == Content(d, of[j], n)
  {
    forall j, n | j in of && j != i ensures Content(d', of[j], n) == Content(d, of[j], n) {
      ChainDistinct(f', c', i);
      ChainDistinct(f', c', j);
      forall k, r | 0 <= k < |of[j]| && 0 <= r < CLUSTER ensures ByteAt(d', of[j][k], r) == ByteAt(d, of[j][k], r) {
        assert c'.owner[c'.of[j][k]] == j;
        ClusterKept(d, d', c'.of[i], of[j][k], r);
      }
    }
  }

  lemma ReadOn(disk: seq<byte>, cs: seq<int>, pos: nat, n: nat, out: seq<byte>)
    requires |disk| == RAMDISK_SIZE && pos < |cs| && 0 < cs[pos] < FAT_ENTRIES && n <= CLUSTER
    requires |out| == pos * CLUSTER && out == Content(disk, cs, |out|)
    ensures out + disk[Offset(cs[pos])..Offset(cs[pos]) + n] == Content(disk, cs, |out| + n)
  {
    var out' := out + disk[Offset(cs[pos])..Offset(cs[pos]) + n];
    forall p | 0 <= p < |out'| ensures out'[p] == Content(disk, cs, |out'|)[p] {
      if p < |out| { assert out[p] == Content(disk, cs, |out|)[p]; }
      else { assert p / CLUSTER == pos && p % CLUSTER == p - |out|; }
    }
  }

  lemma {:induction false} AllFree(fat: Table, n: int := FAT_ENTRIES)
    requires (forall c :: 0 <= c < FAT_ENTRIES ==> fat[c] == 0) && 2 <= n <= FAT_ENTRIES
    ensures |set c | 2 <= c < n && fat[c] == 0| == n - 2
    decreases n
  {
    if n > 2 {
      AllFree(fat, n - 1);
      assert (set c | 2 <= c < n && fat[c] == 0) == (set c | 2 <= c < n - 1 && fat[c] == 0) + {n - 1};
    }
  }
}
