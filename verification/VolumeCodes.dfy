/** Each operation of the file system told exactly: every return code by its own condition on the table, and the
    table and the number of free clusters afterwards. */
module VolumeCodes {
  import opened Basics
  import opened Volume
  import opened VolumeRuns

  /** Names of 64 characters or more are cut to 63. */
  lemma StoredMeans(s: CString)
    ensures Stored(s) <= s && |Stored(s)| == if |s| <= 63 then |s| else 63
  {}

  /** Clusters of 512 bytes for the bytes of a file, at least one, and for those that a write has given to a
      directory; other directories have none. */
  lemma WeightMeans(n: Node)
    ensures n.Dir? && n.stray == None ==> Weight(n) == 0
    ensures n.File? || n.stray.Some? ==>
      var size := if n.File? then |n.data| else |n.stray.value|;
      Weight(n) >= 1 && size <= Weight(n) * 512 && (Weight(n) > 1 ==> (Weight(n) - 1) * 512 < size)
  {}

  /** The lowest unused slot above the root. */
  lemma FreeSlotMeans(v: Volume)
    ensures FreeSlot(v) == -1 <==> forall i :: 1 <= i < 512 ==> i in v.nodes
    ensures FreeSlot(v) != -1 ==>
      1 <= FreeSlot(v) < 512 && FreeSlot(v) !in v.nodes && forall i :: 1 <= i < FreeSlot(v) ==> i in v.nodes
  {
    var s := set i | 1 <= i < MAX_ENTRIES && i !in v.nodes;
    assert forall i :: 1 <= i < 512 ==> (i in s <==> i !in v.nodes);
  }

  /** A directory is removed if and only if it is one, other than the root, and nothing is in it. */
  lemma RmdirExactly(v: Volume, i: int)
    ensures var (w, r) := Step(v, OpRmdir(i));
      && (r == -1 <==> i < 1 || i > 511)
      && (r == -2 <==> 1 <= i <= 511 && !(i in v.nodes && v.nodes[i].Dir?))
      && (r == -3 <==> 1 <= i <= 511 && i in v.nodes && v.nodes[i].Dir?
                       && exists j :: j in v.nodes && v.nodes[j].parent == i)
      && (r == 0 <==> 1 <= i <= 511 && i in v.nodes && v.nodes[i].Dir?
                      && forall j :: j in v.nodes ==> v.nodes[j].parent != i)
      && (r == 0 ==> w == Volume(v.nodes - {i}, v.free)) && (r != 0 ==> w == v)
  {}

  /** An entry is removed if and only if it is used, not the root, and no directory with something in it. A
      file gives back the clusters of its bytes, at least one. */
  lemma RemoveExactly(v: Volume, i: int)
    ensures var (w, r) := Step(v, OpRemove(i));
      && (r == -1 <==> i < 1 || i > 511)
      && (r == -2 <==> 1 <= i <= 511 && i !in v.nodes)
      && (r == -3 <==> 1 <= i <= 511 && i in v.nodes && v.nodes[i].Dir?
                       && exists j :: j in v.nodes && v.nodes[j].parent == i)
      && (r == 0 <==> 1 <= i <= 511 && i in v.nodes
                      && (v.nodes[i].File? || forall j :: j in v.nodes ==> v.nodes[j].parent != i))
      && (r == 0 ==> w.nodes == v.nodes - {i}) && (r != 0 ==> w == v)
      && (r == 0 && v.nodes[i].Dir? ==> w.free == v.free)
      && (r == 0 && v.nodes[i].File? ==>
          var back, n := w.free - v.free, |v.nodes[i].data|;
          back >= 1 && n <= back * 512 && (back > 1 ==> (back - 1) * 512 < n))
  {}

  predicate TwinDir(v: Volume, j: int, parent: int, name: string) {
    j in v.nodes && v.nodes[j].Dir? && v.nodes[j].parent == parent && v.nodes[j].name == name
  }

  predicate TwinFile(v: Volume, j: int, parent: int, name: string, ext: string) {
    && j in v.nodes && v.nodes[j].File? && v.nodes[j].parent == parent
    && v.nodes[j].name == name && v.nodes[j].ext == ext
  }

  lemma NamedMeans(v: Volume, parent: int, name: CString, ext: CString)
    ensures DirNamed(v, parent, name) <==> exists j :: TwinDir(v, j, parent, name)
    ensures FileNamed(v, Key(parent, name, ext)) <==> exists j :: TwinFile(v, j, parent, name, ext)
  {
    if DirNamed(v, parent, name) {
      var j :| j in v.nodes && v.nodes[j].Dir? && v.nodes[j].parent == parent && v.nodes[j].name == name;
      assert TwinDir(v, j, parent, name);
    }
    if FileNamed(v, Key(parent, name, ext)) {
      var j :| j in v.nodes && v.nodes[j].File? && Matches(v.nodes[j], Key(parent, name, ext));
      assert TwinFile(v, j, parent, name, ext);
    }
  }

  /** A directory is made if and only if the parent is a directory, none in it has the given name, and a slot
      is unused. It gets the lowest unused slot, which is returned. */
  lemma MkdirExactly(v: Volume, name: Option<CString>, parent: int)
    ensures var (w, r) := Step(v, OpMkdir(name, parent));
      var bad := name == None || parent < 0 || parent > 511;
      var plain := parent !in v.nodes || v.nodes[parent].File?;
      var twin := name.Some? && exists j :: TwinDir(v, j, parent, name.value);
      var full := forall i :: 1 <= i < 512 ==> i in v.nodes;
      && (r == -1 <==> bad) && (r == -2 <==> !bad && plain) && (r == -3 <==> !bad && !plain && twin)
      && (r == -4 <==> !bad && !plain && !twin && full)
      && (r > 0 <==> !bad && !plain && !twin && !full) && r >= -4 && r != 0
      && (r > 0 ==> r < 512 && r !in v.nodes && (forall i :: 1 <= i < r ==> i in v.nodes)
                    && w == Volume(v.nodes[r := Dir(parent, Stored(name.value), None)], v.free))
      && (r < 0 ==> w == v)
  {
    hide FreeSlot, DirNamed, FileNamed, TwinDir, TwinFile;
    FreeSlotMeans(v);
    if name.Some? { NamedMeans(v, parent, name.value, ""); }
  }

  /** The same for a file, which also takes one cluster. */
  lemma CreateExactly(v: Volume, name: Option<CString>, ext: CString, parent: int)
    ensures var (w, r) := Step(v, OpCreate(name, ext, parent));
      var bad := name == None || parent < 0 || parent > 511;
      var plain := parent !in v.nodes || v.nodes[parent].File?;
      var twin := name.Some? && exists j :: TwinFile(v, j, parent, name.value, ext);
      var full := forall i :: 1 <= i < 512 ==> i in v.nodes;
      && (r == -1 <==> bad) && (r == -2 <==> !bad && plain) && (r == -3 <==> !bad && !plain && twin)
      && (r == -4 <==> !bad && !plain && !twin && full)
      && (r == -5 <==> !bad && !plain && !twin && !full && v.free == 0)
      && (r > 0 <==> !bad && !plain && !twin && !full && v.free > 0) && r >= -5 && r != 0
      && (r > 0 ==> r < 512 && r !in v.nodes && (forall i :: 1 <= i < r ==> i in v.nodes)
                    && w == Volume(v.nodes[r := File(parent, Stored(name.value), Stored(ext), [])], v.free - 1))
      && (r < 0 ==> w == v)
  {
    hide FreeSlot, DirNamed, FileNamed, TwinDir, TwinFile;
    FreeSlotMeans(v);
    if name.Some? { NamedMeans(v, parent, name.value, ext); }
  }

  predicate Named(v: Volume, i: int, k: Key) {
    && i in v.nodes && v.nodes[i].parent == k.parent && v.nodes[i].name == k.name
    && match v.nodes[i] case Dir(_, _, _) => k.ext == "" case File(_, _, ext, _) => ext == k.ext
  }

  /** Looking up finds the lowest entry of the directory with the name and the extension; directories are found
      only without one. */
  lemma LookupExactly(v: Volume, k: Key)
    ensures var r := Lookup(v, k);
      && (r == -1 <==> k.parent < 0 || k.parent > 511 || forall i :: 0 <= i < 512 ==> !Named(v, i, k))
      && (r != -1 ==> 0 <= r < 512 && Named(v, r, k) && forall i :: 0 <= i < r ==> !Named(v, i, k))
  {
    hide Matches, Named;
    forall i ensures i in Found(v, k) <==> Named(v, i, k) { MatchesIsNamed(v, i, k); }
  }

  lemma MatchesIsNamed(v: Volume, i: int, k: Key)
    ensures i in v.nodes && Matches(v.nodes[i], k) <==> Named(v, i, k)
  {}

  /** Reading by name finds nothing, or gives the bytes of that entry. */
  lemma ReadExactly(v: Volume, k: Key, i: int)
    ensures Read(v, k) == None <==> k.parent < 0 || k.parent > 511 || forall i :: 0 <= i < 512 ==> !Named(v, i, k)
    ensures 0 <= k.parent <= 511 && 0 <= i < 512 && Named(v, i, k) && (forall j :: 0 <= j < i ==> !Named(v, j, k)) ==>
      Read(v, k) == Some(match v.nodes[i]
                         case File(_, _, _, data) => data
                         case Dir(_, _, stray) => if stray.Some? then stray.value else [])
  {
    hide Named, Lookup;
    LookupExactly(v, k);
    forall j ensures Named(v, j, k) ==> j in v.nodes { MatchesIsNamed(v, j, k); }
  }

  /** A write by name goes to the entry i with that name, or to a new file in the lowest unused slot i. */
  lemma WriteCodes(v: Volume, name: Option<CString>, ext: CString, parent: int, data: seq<byte>) returns (i: int)
    requires Tree(v.nodes)
    ensures var (w, r) := Step(v, OpWrite(name, ext, parent, data));
      var ok := name.Some? && 0 <= parent <= 511 && parent in v.nodes && v.nodes[parent].Dir?;
      var found := ok && exists j :: 0 <= j < 512 && Named(v, j, Key(parent, name.value, ext));
      var full := forall j :: 1 <= j < 512 ==> j in v.nodes;
      && (r == -1 <==> name == None) && (r == -2 <==> name.Some? && (parent < 0 || parent > 511))
      && (r == -3 <==> name.Some? && 0 <= parent <= 511 && (parent !in v.nodes || v.nodes[parent].File?))
      && (r == -4 <==> ok && !found && (full || v.free == 0)) && (r < 0 && r != -6 ==> w == v)
      && (found ==> 0 <= i < 512 && Named(v, i, Key(parent, name.value, ext))
                    && forall j :: 0 <= j < i ==> !Named(v, j, Key(parent, name.value, ext)))
      && (ok && !found && !full ==> 1 <= i < 512 && i !in v.nodes && forall j :: 1 <= j < i ==> j in v.nodes)
  {
    hide FreeSlot, Lookup, Named, Fitting, Tree;
    FreeSlotMeans(v);
    i := 0;
    if name.Some? {
      var k := Key(parent, name.value, ext);
      LookupExactly(v, k);
      FileAbsent(v, k);
      i := if Lookup(v, k) >= 0 then Lookup(v, k) else FreeSlot(v);
    }
  }

  /** The part of the data that fits into `room` clusters, and the codes and clusters that go with it. */
  ghost predicate Stores(v: Volume, i: int, was: Node, room: nat, data: seq<byte>, w: Volume, r: int) {
    var d := if |data| <= room * 512 then data else data[..room * 512];
    && (r == -5 <==> room == 0) && (r == -6 <==> room > 0 && |data| > room * 512)
    && (r == 0 <==> room > 0 && |data| <= room * 512)
    && (r != -5 ==>
        && w.free == room - (if d == [] then 1 else (|d| + 511) / 512)
        && w.nodes == v.nodes[i := if was.Dir? then was.(stray := Some(d)) else was.(data := d)])
    && (r == -5 ==> w == v)
  }

  lemma FillStores(v: Volume, i: int, data: seq<byte>)
    requires i in v.nodes
    ensures var (w, r) := Fill(v, i, data);
      Stores(v, i, v.nodes[i], v.free + Weight(v.nodes[i]), data, w, r)
  {
    hide Weight;
    FitsExactly(data, v.free + Weight(v.nodes[i]));
  }

  /** Writing to an entry keeps as much of the data as the free clusters and its own hold. */
  lemma OverwriteStores(v: Volume, k: Key, data: seq<byte>)
    requires IsDir(v, k.parent) && InTable(k.parent) && Lookup(v, k) in v.nodes && Lookup(v, k) >= 0
    ensures var (w, r) := Step(v, OpWrite(Some(k.name), k.ext, k.parent, data));
      Stores(v, Lookup(v, k), v.nodes[Lookup(v, k)], v.free + Weight(v.nodes[Lookup(v, k)]), data, w, r)
  {
    hide Stores, Lookup, Weight;
    FillStores(v, Lookup(v, k), data);
  }

  /** Writing a new file keeps as much as the free clusters hold. */
  lemma NewFileStores(v: Volume, k: Key, data: seq<byte>)
    requires IsDir(v, k.parent) && InTable(k.parent) && Lookup(v, k) < 0 && !FileNamed(v, k)
    requires FreeSlot(v) >= 0 && v.free > 0
    ensures var (w, r) := Step(v, OpWrite(Some(k.name), k.ext, k.parent, data));
      Stores(v, FreeSlot(v), File(k.parent, Stored(k.name), Stored(k.ext), []), v.free, data, w, r) && r != -5
  {
    hide Lookup, FreeSlot, Fitting, FileNamed;
    var (w, i) := Create(v, Some(k.name), k.ext, k.parent);
    FillStores(w, i, data);
    assert Weight(w.nodes[i]) == 1;
  }
}
