/** The file system as its callers see it: a table of slots that hold directories and
    files with their bytes, plus the number of free clusters. Clusters and links do not
    appear here; module FileSystem proves that the cluster-level code does exactly these steps. */
module Volume {
  import opened Basics
  import opened FatTable

  const MAX_ENTRIES := 512
  const NAME_MAX := 64
  const ROOT := 0

  /** What a terminated C string holds. */
  type CString = s: string | '\0' !in s

  /** A directory has stray bytes when a write has taken it for a file. */
  datatype Node =
    | Dir(parent: int, name: CString, stray: Option<seq<byte>>)
    | File(parent: int, name: CString, ext: CString, data: seq<byte>)

  datatype Volume = Volume(nodes: map<int, Node>, free: nat)

  /** A file as named by a caller. */
  datatype Key = Key(parent: int, name: CString, ext: CString)

  const INIT := Volume(map[ROOT := Dir(-1, "/", None)], FAT_ENTRIES - 2)

  /** Names and extensions are stored in fields of NAME_MAX bytes, one of them the terminator. */
  function Stored(s: CString): CString {
    if |s| < NAME_MAX then s else s[..NAME_MAX - 1]
  }

  function StoredKey(k: Key): Key { Key(k.parent, Stored(k.name), Stored(k.ext)) }

  /** Clusters a file of n bytes occupies; an empty file keeps one. */
  function Clusters(n: nat): (k: nat)
    ensures k > 0 && n <= k * CLUSTER && (k == 1 || (k - 1) * CLUSTER < n)
  {
    if n == 0 then 1 else (n + CLUSTER - 1) / CLUSTER
  }

  /** Least element of s in [i, MAX_ENTRIES), or -1. */
  function Lowest(s: set<int>, i: nat := 0): (r: int)
    ensures r == -1 || (r in s && i <= r < MAX_ENTRIES)
    ensures forall j :: i <= j < MAX_ENTRIES && (r == -1 || j < r) ==> j !in s
    decreases MAX_ENTRIES - i
  {
    if i >= MAX_ENTRIES then -1 else if i in s then i else Lowest(s, i + 1)
  }

  predicate IsDir(v: Volume, i: int) { i in v.nodes && v.nodes[i].Dir? }

  predicate InTable(i: int) { 0 <= i < MAX_ENTRIES }

  function FreeSlot(v: Volume): int {
    Lowest(set i | 1 <= i < MAX_ENTRIES && i !in v.nodes)
  }

  predicate Matches(n: Node, k: Key) {
    n.parent == k.parent && n.name == k.name && if n.Dir? then k.ext == "" else n.ext == k.ext
  }

  /** The slots that a look-up of k may find. */
  function Found(v: Volume, k: Key): set<int> { set i | i in v.nodes && Matches(v.nodes[i], k) }

  function Lookup(v: Volume, k: Key): int {
    if InTable(k.parent) then Lowest(Found(v, k)) else -1
  }

  predicate HasChildren(v: Volume, i: int) {
    exists j :: j in v.nodes && v.nodes[j].parent == i
  }

  predicate DirNamed(v: Volume, parent: int, name: CString) {
    exists j :: j in v.nodes && v.nodes[j].Dir? && v.nodes[j].parent == parent && v.nodes[j].name == name
  }

  predicate FileNamed(v: Volume, k: Key) {
    exists j :: j in v.nodes && v.nodes[j].File? && Matches(v.nodes[j], k)
  }

  /** The bytes of a node, if it has any clusters. */
  function Bytes(n: Node): Option<seq<byte>> { if n.File? then Some(n.data) else n.stray }

  function WithBytes(n: Node, d: seq<byte>): Node { if n.File? then n.(data := d) else n.(stray := Some(d)) }

  /** Clusters of a node. */
  function Weight(n: Node): nat { if Bytes(n).Some? then Clusters(|Bytes(n).value|) else 0 }

  // ---------------------------------------------------------------------
  // Steps: new volume and return code
  // ---------------------------------------------------------------------

  function Mkdir(v: Volume, name: Option<CString>, parent: int): (Volume, int) {
    if name.None? || !InTable(parent) then (v, -1)
    else if !IsDir(v, parent) then (v, -2)
    else if DirNamed(v, parent, name.value) then (v, -3)
    else if FreeSlot(v) < 0 then (v, -4)
    else (v.(nodes := v.nodes[FreeSlot(v) := Dir(parent, Stored(name.value), None)]), FreeSlot(v))
  }

  function Rmdir(v: Volume, i: int): (Volume, int) {
    if i <= 0 || i >= MAX_ENTRIES then (v, -1)
    else if !IsDir(v, i) then (v, -2)
    else if HasChildren(v, i) then (v, -3)
    else (v.(nodes := v.nodes - {i}), 0)
  }

  function Create(v: Volume, name: Option<CString>, ext: CString, parent: int): (Volume, int) {
    if name.None? || !InTable(parent) then (v, -1)
    else if !IsDir(v, parent) then (v, -2)
    else if FileNamed(v, Key(parent, name.value, ext)) then (v, -3)
    else if FreeSlot(v) < 0 then (v, -4)
    else if v.free == 0 then (v, -5)
    else (Volume(v.nodes[FreeSlot(v) := File(parent, Stored(name.value), Stored(ext), [])], v.free - 1), FreeSlot(v))
  }

  function Remove(v: Volume, i: int): (Volume, int) {
    if i <= 0 || i >= MAX_ENTRIES then (v, -1)
    else if i !in v.nodes then (v, -2)
    else if v.nodes[i].Dir? && HasChildren(v, i) then (v, -3)
    else (Volume(v.nodes - {i}, v.free + if v.nodes[i].File? then Weight(v.nodes[i]) else 0), 0)
  }

  /** The bytes that fit into `room` clusters. */
  function Fitting(data: seq<byte>, room: nat): (d: seq<byte>)
    ensures d <= data
    ensures room > 0 ==> Clusters(|d|) <= room
    ensures d == data <==> |data| <= room * CLUSTER
    ensures d != data ==> |d| == room * CLUSTER
  {
    if |data| <= room * CLUSTER then data else data[..room * CLUSTER]
  }

  /** Replaces the bytes of a node, a file or a directory. */
  function Fill(v: Volume, i: int, data: seq<byte>): (r: (Volume, int))
    requires i in v.nodes
  {
    var room := v.free + Weight(v.nodes[i]);
    var d := Fitting(data, room);
    if room == 0 then (v, -5)
    else (Volume(v.nodes[i := WithBytes(v.nodes[i], d)], room - Clusters(|d|)), if d == data then 0 else -6)
  }

  function Write(v: Volume, name: Option<CString>, ext: CString, parent: int, data: seq<byte>): (Volume, int) {
    if name.None? then (v, -1)
    else if !InTable(parent) then (v, -2)
    else if !IsDir(v, parent) then (v, -3)
    else
      var k := Key(parent, name.value, ext);
      if Lookup(v, k) >= 0 then Fill(v, Lookup(v, k), data)
      else
        var (w, i) := Create(v, name, ext, parent);
        if i < 0 then (w, -4) else Fill(w, i, data)
  }

  /** What reading a node gives. */
  function Contents(n: Node): seq<byte> { if Bytes(n).Some? then Bytes(n).value else [] }

  /** What reading by name returns: nothing, or the bytes. */
  function Read(v: Volume, k: Key): Option<seq<byte>> {
    if Lookup(v, k) < 0 then None else Some(Contents(v.nodes[Lookup(v, k)]))
  }

  datatype Op =
    | OpMkdir(name: Option<CString>, parent: int)
    | OpRmdir(i: int)
    | OpCreate(name: Option<CString>, ext: CString, parent: int)
    | OpRemove(i: int)
    | OpWrite(name: Option<CString>, ext: CString, parent: int, data: seq<byte>)

  function Step(v: Volume, op: Op): (Volume, int) {
    match op
    case OpMkdir(name, parent) => Mkdir(v, name, parent)
    case OpRmdir(i) => Rmdir(v, i)
    case OpCreate(name, ext, parent) => Create(v, name, ext, parent)
    case OpRemove(i) => Remove(v, i)
    case OpWrite(name, ext, parent, data) => Write(v, name, ext, parent, data)
  }

  // ---------------------------------------------------------------------
  // The directory tree
  // ---------------------------------------------------------------------

  /** A parent chain from i to the root. */
  ghost predicate RootPath(nodes: map<int, Node>, i: int, p: seq<int>) {
    && |p| > 0 && p[0] == i && p[|p| - 1] == ROOT
    && (forall j :: 0 <= j < |p| ==> p[j] in nodes)
    && (forall j :: 0 <= j < |p| - 1 ==> nodes[p[j]].parent == p[j + 1])
  }

  ghost predicate Rooted(nodes: map<int, Node>, i: int) { exists p :: RootPath(nodes, i, p) }

  ghost predicate Tree(nodes: map<int, Node>) {
    && ROOT in nodes && nodes[ROOT] == Dir(-1, "/", None)
    && (forall i :: i in nodes ==> InTable(i) && Rooted(nodes, i))
    && (forall i :: i in nodes && i != ROOT ==> nodes[i].parent in nodes && nodes[nodes[i].parent].Dir?)
    && (forall i :: i in nodes ==> |nodes[i].name| < NAME_MAX && (nodes[i].File? ==> |nodes[i].ext| < NAME_MAX))
  }

  /** A new leaf keeps the tree. */
  lemma AddLeaf(nodes: map<int, Node>, i: int, n: Node)
    requires Tree(nodes) && i !in nodes && InTable(i)
    requires n.parent in nodes && nodes[n.parent].Dir?
    requires |n.name| < NAME_MAX && (n.File? ==> |n.ext| < NAME_MAX)
    ensures Tree(nodes[i := n])
  {
    var nodes' := nodes[i := n];
    forall j | j in nodes' ensures Rooted(nodes', j) {
      if j == i {
        var p :| RootPath(nodes, n.parent, p);
        assert RootPath(nodes', i, [i] + p);
      } else {
        var p :| RootPath(nodes, j, p);
        assert RootPath(nodes', j, p);
      }
    }
  }

  /** Removing a node without children keeps the tree, whatever the order of slots. */
  lemma RemoveLeaf(v: Volume, i: int)
    requires Tree(v.nodes) && i in v.nodes && i != ROOT && !HasChildren(v, i)
    ensures Tree(v.nodes - {i})
  {
    var nodes' := v.nodes - {i};
    forall j | j in nodes' ensures Rooted(nodes', j) {
      var p :| RootPath(v.nodes, j, p);
      forall k | 0 <= k < |p| ensures p[k] != i {
        if k > 0 {
          var q := p[k - 1];
          assert q in v.nodes;
          assert v.nodes[q].parent == p[k - 1 + 1];
        }
      }
      assert RootPath(nodes', j, p);
    }
  }

  /** New bytes for a node other than the root keep the tree. */
  lemma Refill(nodes: map<int, Node>, i: int, d: seq<byte>)
    requires Tree(nodes) && i in nodes && i != ROOT
    ensures Tree(nodes[i := WithBytes(nodes[i], d)])
  {
    var nodes' := nodes[i := WithBytes(nodes[i], d)];
    forall j | j in nodes' ensures Rooted(nodes', j) {
      var p :| RootPath(nodes, j, p);
      assert RootPath(nodes', j, p);
    }
  }

  /** A file has no children, since parents are directories. */
  lemma FileIsLeaf(v: Volume, i: int)
    requires Tree(v.nodes) && i in v.nodes && v.nodes[i].File?
    ensures !HasChildren(v, i)
  {}

  /** A look-up never finds the root, which has no parent. */
  lemma LookupFinds(v: Volume, k: Key)
    requires Tree(v.nodes) && Lookup(v, k) >= 0
    ensures Lookup(v, k) in v.nodes && Lookup(v, k) != ROOT && Matches(v.nodes[Lookup(v, k)], k)
  {}

  lemma WriteTree(v: Volume, name: Option<CString>, ext: CString, parent: int, data: seq<byte>)
    requires Tree(v.nodes)
    ensures Tree(Write(v, name, ext, parent, data).0.nodes) && Tree(Create(v, name, ext, parent).0.nodes)
  {
    hide Tree, Lookup, FreeSlot, Fitting, Clusters, Weight;
    if name.Some? && IsDir(v, parent) {
      var j := Lookup(v, Key(parent, name.value, ext));
      var (w, i) := Create(v, name, ext, parent);
      if i >= 0 { NewLeaf(v, w.nodes[i]); }
      if j >= 0 {
        LookupFinds(v, Key(parent, name.value, ext));
        FillTree(v, j, data);
      } else if i >= 0 {
        FillTree(w, i, data);
      }
    }
  }

  lemma NewLeaf(v: Volume, n: Node)
    requires Tree(v.nodes) && FreeSlot(v) >= 0 && IsDir(v, n.parent)
    requires |n.name| < NAME_MAX && (n.File? ==> |n.ext| < NAME_MAX)
    ensures Tree(v.nodes[FreeSlot(v) := n]) && FreeSlot(v) != ROOT && FreeSlot(v) !in v.nodes
  {
    AddLeaf(v.nodes, FreeSlot(v), n);
  }

  lemma FillTree(v: Volume, i: int, data: seq<byte>)
    requires Tree(v.nodes) && i in v.nodes && i != ROOT
    ensures Tree(Fill(v, i, data).0.nodes)
  {
    Refill(v.nodes, i, Fitting(data, v.free + Weight(v.nodes[i])));
  }

  /** Every operation keeps the tree. */
  lemma StepTree(v: Volume, op: Op)
    requires Tree(v.nodes)
    ensures Tree(Step(v, op).0.nodes)
  {
    hide Tree, FreeSlot, Fitting, Write, Create;
    match op
    case OpMkdir(name, parent) =>
      var (w, i) := Mkdir(v, name, parent);
      if i >= 0 { NewLeaf(v, w.nodes[i]); }
    case OpRmdir(i) => if Rmdir(v, i).1 == 0 { RemoveLeaf(v, i); }
    case OpCreate(name, ext, parent) => WriteTree(v, name, ext, parent, []);
    case OpRemove(i) =>
      if Remove(v, i).1 == 0 {
        if v.nodes[i].File? { FileIsLeaf(v, i); }
        RemoveLeaf(v, i);
      }
    case OpWrite(name, ext, parent, data) => WriteTree(v, name, ext, parent, data);
  }

  // ---------------------------------------------------------------------
  // The balance of clusters
  // ---------------------------------------------------------------------

  /** Clusters of the nodes in slots below n. */
  ghost function Occupied(nodes: map<int, Node>, n: nat): nat {
    if n == 0 then 0
    else Occupied(nodes, n - 1) + if n - 1 in nodes then Weight(nodes[n - 1]) else 0
  }

  /** Clusters that are free or belong to a node. */
  ghost function Balance(v: Volume): nat { v.free + Occupied(v.nodes, MAX_ENTRIES) }

  lemma {:induction false} OccupiedChange(m: map<int, Node>, m': map<int, Node>, i: int, n: nat)
    requires forall j :: j != i ==> (j in m <==> j in m') && (j in m ==> m[j] == m'[j])
    ensures Occupied(m', n) - Occupied(m, n) ==
      if 0 <= i < n then (if i in m' then Weight(m'[i]) else 0) - (if i in m then Weight(m[i]) else 0) else 0
  {
    if n > 0 { OccupiedChange(m, m', i, n - 1); }
  }

  /** Clusters that an operation loses: those of a directory with stray bytes that it removes. */
  function Leak(v: Volume, op: Op): nat {
    match op
    case OpRmdir(i) => LeakOf(v, i)
    case OpRemove(i) => LeakOf(v, i)
    case _ => 0
  }

  function LeakOf(v: Volume, i: int): nat {
    if 0 < i < MAX_ENTRIES && IsDir(v, i) && !HasChildren(v, i) then Weight(v.nodes[i]) else 0
  }

  lemma FillBalance(v: Volume, i: int, data: seq<byte>)
    requires i in v.nodes && InTable(i)
    ensures Balance(Fill(v, i, data).0) == Balance(v)
  {
    OccupiedChange(v.nodes, Fill(v, i, data).0.nodes, i, MAX_ENTRIES);
  }

  lemma CreateBalance(v: Volume, name: Option<CString>, ext: CString, parent: int)
    ensures Balance(Create(v, name, ext, parent).0) == Balance(v)
  {
    hide Lowest;
    var (w, i) := Create(v, name, ext, parent);
    if i >= 0 { OccupiedChange(v.nodes, w.nodes, i, MAX_ENTRIES); }
  }

  lemma WriteBalance(v: Volume, name: Option<CString>, ext: CString, parent: int, data: seq<byte>)
    requires Tree(v.nodes)
    ensures Balance(Write(v, name, ext, parent, data).0) == Balance(v)
  {
    hide Tree, Fitting, Clusters, Balance, Lookup, Create, Fill;
    if name.Some? && InTable(parent) && IsDir(v, parent) {
      var j := Lookup(v, Key(parent, name.value, ext));
      var (w, i) := Create(v, name, ext, parent);
      CreateBalance(v, name, ext, parent);
      CreatedSlot(v, name, ext, parent);
      if j >= 0 {
        LookupFinds(v, Key(parent, name.value, ext));
        SlotInTable(v, j);
        FillBalance(v, j, data);
      } else if i >= 0 {
        FillBalance(w, i, data);
      }
    }
  }

  lemma SlotInTable(v: Volume, i: int)
    requires Tree(v.nodes) && i in v.nodes
    ensures InTable(i)
  {}

  lemma CreatedSlot(v: Volume, name: Option<CString>, ext: CString, parent: int)
    ensures var (w, i) := Create(v, name, ext, parent); i >= 0 ==> i in w.nodes && InTable(i)
  {}

  /** Every operation keeps the clusters that are free or belong to a node, less its leak. */
  lemma StepBalance(v: Volume, op: Op)
    requires Tree(v.nodes)
    ensures Balance(Step(v, op).0) == Balance(v) - Leak(v, op)
  {
    hide Tree, Write, Create;
    match op
    case OpMkdir(name, parent) =>
      var (w, i) := Mkdir(v, name, parent);
      if i >= 0 { OccupiedChange(v.nodes, w.nodes, i, MAX_ENTRIES); }
    case OpRmdir(i) => OccupiedChange(v.nodes, v.nodes - {i}, i, MAX_ENTRIES);
    case OpCreate(name, ext, parent) => CreateBalance(v, name, ext, parent);
    case OpRemove(i) => OccupiedChange(v.nodes, v.nodes - {i}, i, MAX_ENTRIES);
    case OpWrite(name, ext, parent, data) => WriteBalance(v, name, ext, parent, data);
  }

  /** The room a write has is what all other nodes leave. */
  lemma RoomIsTheRest(v: Volume, i: int)
    requires i in v.nodes && InTable(i)
    ensures v.free + Weight(v.nodes[i]) == Balance(v) - Occupied(v.nodes - {i}, MAX_ENTRIES)
  {
    OccupiedChange(v.nodes, v.nodes - {i}, i, MAX_ENTRIES);
  }
}
