/** What holds over whole runs of the file system: the directory tree and the cluster
    balance, unique names, reading back the last write, and exact capacity. */
module VolumeRuns {
  import opened Basics
  import opened FatTable
  import opened Volume

  function Run(v: Volume, ops: seq<Op>): Volume
    decreases |ops|
  {
    if ops == [] then v else Run(Step(v, ops[0]).0, ops[1..])
  }

  lemma {:induction false} RunAppend(v: Volume, a: seq<Op>, b: seq<Op>)
    ensures Run(v, a + b) == Run(Run(v, a), b)
    decreases |a|
  {
    if a == [] { assert a + b == b; }
    else {
      assert (a + b)[1..] == a[1..] + b;
      RunAppend(Step(v, a[0]).0, a[1..], b);
    }
  }

  /** The initial volume is a tree with all clusters free. */
  lemma InitGood()
    ensures Tree(INIT.nodes) && Balance(INIT) == FAT_ENTRIES - 2
  {
    assert RootPath(INIT.nodes, ROOT, [ROOT]);
    OccupiedChange(map[], INIT.nodes, ROOT, MAX_ENTRIES);
    NoneOccupied(MAX_ENTRIES);
  }

  lemma {:induction false} NoneOccupied(n: nat)
    ensures Occupied(map[], n) == 0
  {
    if n > 0 { NoneOccupied(n - 1); }
  }

  /** Clusters lost in a run. */
  function Leaks(v: Volume, ops: seq<Op>): nat
    decreases |ops|
  {
    if ops == [] then 0 else Leak(v, ops[0]) + Leaks(Step(v, ops[0]).0, ops[1..])
  }

  /** In every reachable state the entries form a tree below the root, and the clusters that are neither
      free nor part of an entry are those of removed directories with stray bytes. */
  lemma {:induction false} RunGood(v: Volume, ops: seq<Op>)
    requires Tree(v.nodes)
    ensures Tree(Run(v, ops).nodes) && Balance(Run(v, ops)) == Balance(v) - Leaks(v, ops)
    decreases |ops|
  {
    hide Tree, Step, Leak, Balance;
    if ops != [] {
      StepTree(v, ops[0]);
      StepBalance(v, ops[0]);
      RunGood(Step(v, ops[0]).0, ops[1..]);
    }
  }

  /** A write with an empty extension takes a directory for a file; when the directory is removed, the
      clusters of its stray bytes are lost. */
  lemma StrayLeaks(data: seq<byte>)
    requires |data| <= (FAT_ENTRIES - 2) * CLUSTER
    ensures var ops := [OpMkdir(Some("a"), ROOT)] + [OpWrite(Some("a"), "", ROOT, data)] + [OpRmdir(1)];
      Leaks(INIT, ops) == Clusters(|data|) && Balance(Run(INIT, ops)) == FAT_ENTRIES - 2 - Clusters(|data|)
  {
    hide Tree, Balance, Leak;
    var op1, op2, op3 := OpMkdir(Some("a"), ROOT), OpWrite(Some("a"), "", ROOT, data), OpRmdir(1);
    var v1 := Volume(INIT.nodes[1 := Dir(ROOT, "a", None)], INIT.free);
    var v2 := Volume(INIT.nodes[1 := Dir(ROOT, "a", Some(data))], INIT.free - Clusters(|data|));
    StrayMade();
    StrayWritten(v1, data);
    StrayLost(v2, data);
    InitGood();
    var ops := [op1] + [op2] + [op3];
    assert ops[1..] == [op2] + [op3] && ([op2] + [op3])[1..] == [op3] && [op3][1..] == [];
    assert Leak(INIT, op1) == 0 && Leak(v1, op2) == 0;
    assert Leaks(INIT, ops) == Clusters(|data|) by {
      assert Leaks(v2, [op3]) == Leak(v2, op3);
      assert Leaks(v1, [op2] + [op3]) == Leak(v2, op3);
    }
    RunGood(INIT, ops);
  }

  lemma StrayMade()
    ensures Step(INIT, OpMkdir(Some("a"), ROOT)).0 == Volume(INIT.nodes[1 := Dir(ROOT, "a", None)], INIT.free)
    ensures Leak(INIT, OpMkdir(Some("a"), ROOT)) == 0
  {
    assert 1 in set i | 1 <= i < MAX_ENTRIES && i !in INIT.nodes;
  }

  lemma StrayWritten(v: Volume, data: seq<byte>)
    requires v == Volume(INIT.nodes[1 := Dir(ROOT, "a", None)], INIT.free) && |data| <= (FAT_ENTRIES - 2) * CLUSTER
    ensures Step(v, OpWrite(Some("a"), "", ROOT, data)) ==
      (Volume(INIT.nodes[1 := Dir(ROOT, "a", Some(data))], INIT.free - Clusters(|data|)), 0)
    ensures Leak(v, OpWrite(Some("a"), "", ROOT, data)) == 0
  {
    var k := Key(ROOT, "a", "");
    assert Found(v, k) == {1};
    assert Lookup(v, k) == 1;
    assert v.nodes[1 := Dir(ROOT, "a", Some(data))] == INIT.nodes[1 := Dir(ROOT, "a", Some(data))];
  }

  lemma StrayLost(v: Volume, data: seq<byte>)
    requires v.nodes == INIT.nodes[1 := Dir(ROOT, "a", Some(data))]
    ensures Leak(v, OpRmdir(1)) == Clusters(|data|)
  {}

  // ---------------------------------------------------------------------
  // Unique names
  // ---------------------------------------------------------------------

  /** Two directories of one name, or two files of one name and extension, in one directory. */
  predicate Alike(a: Node, b: Node) {
    a.parent == b.parent && a.name == b.name && a.Dir? == b.Dir? && (a.File? ==> a.ext == b.ext)
  }

  ghost predicate Unique(v: Volume) {
    forall i, j :: i in v.nodes && j in v.nodes && i != j ==> !Alike(v.nodes[i], v.nodes[j])
  }

  /** The operation passes all its checks, for the name as given, although the shortened name that it
      stores is already there. */
  predicate StoresTwin(v: Volume, op: Op) {
    match op
    case OpMkdir(name, parent) =>
      && name.Some? && InTable(parent) && IsDir(v, parent) && FreeSlot(v) >= 0
      && !DirNamed(v, parent, name.value) && DirNamed(v, parent, Stored(name.value))
    case OpCreate(name, ext, parent) => name.Some? && CreatesTwin(v, Key(parent, name.value, ext))
    case OpWrite(name, ext, parent, _) =>
      var k := Key(parent, if name.Some? then name.value else "", ext);
      name.Some? && Lookup(v, k) < 0 && CreatesTwin(v, k)
    case _ => false
  }

  predicate CreatesTwin(v: Volume, k: Key) {
    && InTable(k.parent) && IsDir(v, k.parent) && FreeSlot(v) >= 0 && v.free > 0
    && !FileNamed(v, k) && FileNamed(v, StoredKey(k))
  }

  predicate Short(op: Op) {
    match op
    case OpMkdir(name, _) => name.Some? ==> |name.value| < NAME_MAX
    case OpCreate(name, ext, _) => |ext| < NAME_MAX && (name.Some? ==> |name.value| < NAME_MAX)
    case OpWrite(name, ext, _, _) => |ext| < NAME_MAX && (name.Some? ==> |name.value| < NAME_MAX)
    case _ => true
  }

  lemma AddUnique(v: Volume, w: Volume, i: int, n: Node)
    requires Unique(v) && i !in v.nodes && w.nodes == v.nodes[i := n]
    ensures Unique(w) <==> forall j :: j in v.nodes ==> !Alike(v.nodes[j], n)
  {
    if j :| j in v.nodes && Alike(v.nodes[j], n) {
      assert Alike(w.nodes[j], w.nodes[i]);
    }
  }

  lemma CreateUnique(v: Volume, name: Option<CString>, ext: CString, parent: int)
    requires Unique(v)
    ensures Unique(Create(v, name, ext, parent).0) <==>
      !(name.Some? && CreatesTwin(v, Key(parent, name.value, ext)))
  {
    hide Lowest;
    var (w, i) := Create(v, name, ext, parent);
    if i >= 0 {
      var k := StoredKey(Key(parent, name.value, ext));
      AddUnique(v, w, i, w.nodes[i]);
      assert forall j :: j in v.nodes ==>
        (Alike(v.nodes[j], w.nodes[i]) <==> v.nodes[j].File? && Matches(v.nodes[j], k));
    }
  }

  lemma FillUnique(v: Volume, i: int, data: seq<byte>)
    requires i in v.nodes
    ensures Unique(Fill(v, i, data).0) <==> Unique(v)
  {
    var w := Fill(v, i, data).0;
    assert w.nodes.Keys == v.nodes.Keys;
    assert forall a, b :: a in v.nodes && b in v.nodes ==>
      (Alike(w.nodes[a], w.nodes[b]) <==> Alike(v.nodes[a], v.nodes[b]));
  }

  lemma MkdirUnique(v: Volume, name: Option<CString>, parent: int)
    requires Unique(v)
    ensures Unique(Mkdir(v, name, parent).0) <==> !StoresTwin(v, OpMkdir(name, parent))
  {
    hide Lowest;
    var (w, i) := Mkdir(v, name, parent);
    if i >= 0 {
      AddUnique(v, w, i, w.nodes[i]);
      assert forall j :: j in v.nodes ==> (Alike(v.nodes[j], w.nodes[i]) <==>
        v.nodes[j].Dir? && v.nodes[j].parent == parent && v.nodes[j].name == Stored(name.value));
    }
  }

  /** Names stay unique if and only if the operation does not store a twin. */
  lemma StepUnique(v: Volume, op: Op)
    requires Unique(v)
    ensures Unique(Step(v, op).0) <==> !StoresTwin(v, op)
  {
    match op
    case OpMkdir(name, parent) => MkdirUnique(v, name, parent);
    case OpCreate(name, ext, parent) => CreateUnique(v, name, ext, parent);
    case OpWrite(name, ext, parent, data) => WriteUnique(v, name, ext, parent, data);
    case _ =>
  }

  lemma WriteUnique(v: Volume, name: Option<CString>, ext: CString, parent: int, data: seq<byte>)
    requires Unique(v)
    ensures Unique(Write(v, name, ext, parent, data).0) <==> !StoresTwin(v, OpWrite(name, ext, parent, data))
  {
    hide Unique, FreeSlot, Lookup, Fill;
    if name.Some? && IsDir(v, parent) && InTable(parent) {
      var j := Lookup(v, Key(parent, name.value, ext));
      LookupMatches(v, Key(parent, name.value, ext));
      if j >= 0 { FillUnique(v, j, data); }
      else {
        CreateUnique(v, name, ext, parent);
        var (w, i) := Create(v, name, ext, parent);
        if i >= 0 { FillUnique(w, i, data); }
      }
    }
  }

  lemma LookupMatches(v: Volume, k: Key)
    ensures Lookup(v, k) >= 0 ==> Lookup(v, k) in v.nodes && Matches(v.nodes[Lookup(v, k)], k)
  {}

  /** Names that fit their fields never make twins. */
  lemma ShortNoTwin(v: Volume, op: Op)
    requires Short(op)
    ensures !StoresTwin(v, op)
  {}

  lemma {:induction false} RunUnique(v: Volume, ops: seq<Op>)
    requires Unique(v) && forall j :: 0 <= j < |ops| ==> Short(ops[j])
    ensures Unique(Run(v, ops))
    decreases |ops|
  {
    hide Step, StoresTwin, Unique;
    if ops != [] {
      ShortNoTwin(v, ops[0]);
      StepUnique(v, ops[0]);
      RunUnique(Step(v, ops[0]).0, ops[1..]);
    }
  }

  /** A name of 64 characters or more is stored shortened and then not recognised, so making
      the same directory twice makes two of them. */
  lemma LongNamesCollide(name: CString)
    requires |name| >= NAME_MAX
    ensures !Unique(Run(INIT, [OpMkdir(Some(name), ROOT), OpMkdir(Some(name), ROOT)]))
  {
    var op := OpMkdir(Some(name), ROOT);
    var v := Step(INIT, op).0;
    var w := Step(v, op).0;
    assert FreeSlot(INIT) == 1 by {
      assert 1 in set i | 1 <= i < MAX_ENTRIES && i !in INIT.nodes;
    }
    assert v.nodes == INIT.nodes[1 := Dir(ROOT, Stored(name), None)];
    assert FreeSlot(v) == 2 by {
      assert 2 in set i | 1 <= i < MAX_ENTRIES && i !in v.nodes;
    }
    assert Alike(w.nodes[1], w.nodes[2]);
    assert Run(INIT, [op, op]) == w by {
      assert [op, op][1..] == [op];
      assert Run(v, [op]) == w;
    }
  }

  // ---------------------------------------------------------------------
  // Reading back
  // ---------------------------------------------------------------------

  /** The operation is about what key k names, by the name that it stores or by the entry it removes. */
  predicate Targets(v: Volume, op: Op, k: Key) {
    match op
    case OpMkdir(name, parent) => name.Some? && StoredKey(Key(parent, name.value, "")) == k
    case OpCreate(name, ext, parent) => name.Some? && StoredKey(Key(parent, name.value, ext)) == k
    case OpWrite(name, ext, parent, _) => name.Some? && StoredKey(Key(parent, name.value, ext)) == k
    case OpRmdir(i) => i in v.nodes && Matches(v.nodes[i], k)
    case OpRemove(i) => i in v.nodes && Matches(v.nodes[i], k)
  }

  /** Clusters that a write to k can use. */
  function Room(v: Volume, k: Key): nat {
    v.free + if Lookup(v, k) >= 0 then Weight(v.nodes[Lookup(v, k)]) else 0
  }

  /** What k reads when a node with bytes d is added that k names: an older one in a lower slot hides
      the new one. */
  function WithNew(v: Volume, k: Key, d: seq<byte>): Option<seq<byte>> {
    if 0 <= Lookup(v, k) < FreeSlot(v) then Read(v, k) else Some(d)
  }

  /** What k reads when node i is taken away: another node that k names, if there is one. */
  function WithoutNode(v: Volume, k: Key, i: int): Option<seq<byte>> {
    var j := Lowest(Found(v, k) - {i});
    if j < 0 then None else Some(Contents(v.nodes[j]))
  }

  /** What reading k should return after an operation about k that returned r. */
  function Outcome(v: Volume, op: Op, k: Key, r: int): Option<seq<byte>> {
    match op
    case OpMkdir(_, _) => if r < 0 then Read(v, k) else WithNew(v, k, [])
    case OpCreate(_, _, _) => if r < 0 then Read(v, k) else WithNew(v, k, [])
    case OpWrite(name, ext, parent, data) =>
      if r != 0 && r != -6 then Read(v, k)
      else if name.Some? && Lookup(v, Key(parent, name.value, ext)) >= 0 then Some(Fitting(data, Room(v, k)))
      else WithNew(v, k, Fitting(data, v.free))
    case OpRmdir(i) => if r != 0 then Read(v, k) else WithoutNode(v, k, i)
    case OpRemove(i) => if r != 0 then Read(v, k) else WithoutNode(v, k, i)
  }

  /** The lowest element decides a look-up. */
  lemma LowestIs(s: set<int>, r: int)
    requires r in s && InTable(r) && forall j :: 0 <= j < r ==> j !in s
    ensures Lowest(s) == r
  {}

  /** A node is added in a free slot. */
  lemma AddRead(v: Volume, w: Volume, n: Node, k: Key)
    requires Tree(v.nodes) && FreeSlot(v) >= 0 && w.nodes == v.nodes[FreeSlot(v) := n] && InTable(k.parent)
    ensures Read(w, k) == if Matches(n, k) then WithNew(v, k, Contents(n)) else Read(v, k)
  {
    hide Tree, Matches, Lowest;
    var f := FreeSlot(v);
    assert InTable(f) && f !in v.nodes;
    if Matches(n, k) {
      assert Found(w, k) == Found(v, k) + {f};
      FoundInTable(v, k);
      LowestPlus(Found(v, k), f);
    } else {
      assert Found(w, k) == Found(v, k);
    }
  }

  lemma LowestPlus(s: set<int>, f: int)
    requires InTable(f) && forall i :: i in s ==> InTable(i)
    ensures Lowest(s + {f}) == if 0 <= Lowest(s) < f then Lowest(s) else f
  {
    if 0 <= Lowest(s) < f { LowestIs(s + {f}, Lowest(s)); } else { LowestIs(s + {f}, f); }
  }

  lemma FoundInTable(v: Volume, k: Key)
    requires Tree(v.nodes)
    ensures forall i :: i in Found(v, k) ==> InTable(i)
    ensures Lowest(Found(v, k)) == -1 <==> Found(v, k) == {}
  {
    NoneLowest(Found(v, k));
  }

  lemma NoneLowest(s: set<int>)
    requires forall i :: i in s ==> InTable(i)
    ensures Lowest(s) == -1 <==> s == {}
  {
    if Lowest(s) == -1 {
      assert forall i :: InTable(i) ==> i !in s;
      assert s == {};
    }
  }

  /** A node is taken away. */
  lemma RemoveRead(v: Volume, w: Volume, i: int, k: Key)
    requires w.nodes == v.nodes - {i} && i in v.nodes && InTable(k.parent)
    ensures Read(w, k) == if Matches(v.nodes[i], k) then WithoutNode(v, k, i) else Read(v, k)
  {
    hide Lowest;
    assert Found(w, k) == Found(v, k) - {i};
    if !Matches(v.nodes[i], k) { assert Found(w, k) == Found(v, k); }
  }

  /** The bytes of a node are replaced. */
  lemma RefillRead(v: Volume, w: Volume, i: int, d: seq<byte>, q: Key, k: Key)
    requires i in v.nodes && w.nodes == v.nodes[i := WithBytes(v.nodes[i], d)] && i == Lookup(v, q) && i >= 0
    ensures Read(w, k) == if k == q then Some(d) else Read(v, k)
  {
    LookupMatches(v, q);
    assert Found(w, k) == Found(v, k);
    if k != q { assert i !in Found(v, k); }
  }

  /** A key that is found is stored as it is. */
  lemma FoundIsStored(v: Volume, k: Key)
    requires Tree(v.nodes) && Lookup(v, k) >= 0
    ensures StoredKey(k) == k && |k.name| < NAME_MAX && |k.ext| < NAME_MAX
  {
    LookupMatches(v, k);
  }

  lemma WriteRead(v: Volume, op: Op, k: Key)
    requires Tree(v.nodes) && op.OpWrite? && InTable(k.parent)
    ensures ReadOk(v, op, k)
  {
    hide Tree, Lookup, FreeSlot, Fitting, Clusters, Matches, Read, WithNew;
    var (w, r) := Step(v, op);
    if r == 0 || r == -6 {
      var q := Key(op.parent, op.name.value, op.ext);
      if Lookup(v, q) >= 0 {
        FoundIsStored(v, q);
        LookupMatches(v, q);
        RefillRead(v, w, Lookup(v, q), Fitting(op.data, Room(v, q)), q, k);
      } else {
        NewFileIs(v, op);
        NewFileMatches(q, k, w.nodes[FreeSlot(v)]);
        AddRead(v, w, w.nodes[FreeSlot(v)], k);
      }
    }
  }

  lemma NewFileMatches(q: Key, k: Key, n: Node)
    requires n.File? && Key(n.parent, n.name, n.ext) == StoredKey(q)
    ensures Matches(n, k) <==> StoredKey(q) == k
    ensures Contents(n) == n.data
  {}

  /** What a write that creates its file stores. */
  lemma NewFileIs(v: Volume, op: Op)
    requires op.OpWrite? && op.name.Some? && Lookup(v, Key(op.parent, op.name.value, op.ext)) < 0
    requires Step(v, op).1 == 0 || Step(v, op).1 == -6
    ensures FreeSlot(v) >= 0 && Step(v, op).0.nodes == v.nodes[FreeSlot(v) :=
      File(op.parent, Stored(op.name.value), Stored(op.ext), Fitting(op.data, v.free))]
  {
    hide Lookup, FreeSlot, Fitting;
    var (w, i) := Create(v, op.name, op.ext, op.parent);
    assert i == FreeSlot(v) && w.free + Weight(w.nodes[i]) == v.free;
  }

  ghost predicate ReadOk(v: Volume, op: Op, k: Key) {
    var (w, r) := Step(v, op);
    Read(w, k) == if Targets(v, op, k) then Outcome(v, op, k, r) else Read(v, k)
  }

  /** An operation changes what its own key reads, as it should, and what no other key reads. This holds
      for all operations and all keys. */
  lemma StepRead(v: Volume, op: Op, k: Key)
    requires Tree(v.nodes)
    ensures ReadOk(v, op, k)
  {
    hide Tree, FreeSlot, Write, Fitting, Lowest, HasChildren;
    var (w, r) := Step(v, op);
    if !InTable(k.parent) { OutsideTable(v, op, k); }
    else {
      match op
      case OpMkdir(name, parent) => if r >= 0 { AddRead(v, w, Dir(parent, Stored(name.value), None), k); }
      case OpRmdir(i) => if r == 0 { RemoveRead(v, w, i, k); }
      case OpCreate(name, ext, parent) =>
        if r >= 0 { AddRead(v, w, File(parent, Stored(name.value), Stored(ext), []), k); }
      case OpRemove(i) => if r == 0 { RemoveRead(v, w, i, k); }
      case OpWrite(_, _, _, _) => WriteRead(v, op, k);
    }
  }

  /** Nothing can be found, made or removed below a parent outside the table. */
  lemma OutsideTable(v: Volume, op: Op, k: Key)
    requires Tree(v.nodes) && !InTable(k.parent)
    ensures ReadOk(v, op, k)
  {
    hide Fitting, Lowest;
    if (op.OpRmdir? || op.OpRemove?) && op.i in v.nodes && op.i > 0 { RootsParent(v, op.i, k); }
  }

  lemma RootsParent(v: Volume, i: int, k: Key)
    requires Tree(v.nodes) && !InTable(k.parent) && i in v.nodes && i > 0
    ensures !Matches(v.nodes[i], k)
  {}

  /** No operation of the run is about key k. */
  predicate Untouched(v: Volume, ops: seq<Op>, k: Key)
    decreases |ops|
  {
    ops == [] || (!Targets(v, ops[0], k) && Untouched(Step(v, ops[0]).0, ops[1..], k))
  }

  lemma {:induction false} RunKeepsFile(v: Volume, ops: seq<Op>, k: Key)
    requires Tree(v.nodes) && Untouched(v, ops, k)
    ensures Read(Run(v, ops), k) == Read(v, k)
    decreases |ops|
  {
    hide Tree, Step, Targets, Read;
    if ops != [] {
      StepRead(v, ops[0], k);
      StepTree(v, ops[0]);
      RunKeepsFile(Step(v, ops[0]).0, ops[1..], k);
    }
  }

  /** In every run from the empty volume, every key reads as the last operation about it left it. */
  lemma ReadsLastWrite(pre: seq<Op>, op: Op, post: seq<Op>, k: Key)
    ensures var v := Run(INIT, pre);
      var (w, r) := Step(v, op);
      Targets(v, op, k) && Untouched(w, post, k) ==>
        Read(Run(INIT, pre + [op] + post), k) == Outcome(v, op, k, r)
  {
    hide Tree, Step, Targets, Outcome, Read, Untouched;
    var v := Run(INIT, pre);
    var w := Step(v, op).0;
    assert pre + [op] + post == pre + ([op] + post) && ([op] + post)[1..] == post;
    RunAppend(INIT, pre, [op] + post);
    assert Run(v, [op] + post) == Run(w, post);
    InitGood();
    RunGood(INIT, pre);
    StepTree(v, op);
    StepRead(v, op, k);
    if Untouched(w, post, k) { RunKeepsFile(w, post, k); }
  }

  /** A key that no operation was about reads as nothing. */
  lemma NeverWritten(ops: seq<Op>, k: Key)
    requires Untouched(INIT, ops, k)
    ensures Read(Run(INIT, ops), k) == None
  {
    InitGood();
    RunKeepsFile(INIT, ops, k);
    assert InTable(k.parent) ==> Found(INIT, k) == {};
  }

  /** What a caller wrote he reads back under the same name, as much as fitted, if and only if the name and
      the extension fit their fields. */
  lemma WriteThenRead(v: Volume, k: Key, data: seq<byte>)
    requires Tree(v.nodes)
    ensures var (w, r) := Write(v, Some(k.name), k.ext, k.parent, data);
      r == 0 || r == -6 ==>
        (Read(w, k) == Some(Fitting(data, Room(v, k))) <==> |k.name| < NAME_MAX && |k.ext| < NAME_MAX)
  {
    hide Tree, Lookup, FreeSlot, Fitting, Write;
    var op := OpWrite(Some(k.name), k.ext, k.parent, data);
    var (w, r) := Step(v, op);
    StepRead(v, op, k);
    StepTree(v, op);
    if |k.name| >= NAME_MAX || |k.ext| >= NAME_MAX { LongNeverRead(w, k); }
  }

  /** A name that does not fit is never found. */
  lemma LongNeverRead(v: Volume, k: Key)
    requires Tree(v.nodes) && (|k.name| >= NAME_MAX || |k.ext| >= NAME_MAX)
    ensures Read(v, k) == None
  {
    if Lookup(v, k) >= 0 { FoundIsStored(v, k); }
  }

  /** With unique names, for a key with an extension: a created file reads as empty, a written one as what was
      written, and a removed one not at all. */
  lemma FileOutcome(v: Volume, op: Op, k: Key)
    requires Tree(v.nodes) && Unique(v) && !StoresTwin(v, op) && Targets(v, op, k) && k.ext != ""
    ensures var (w, r) := Step(v, op);
      && (op.OpCreate? && r >= 0 ==> Read(w, k) == Some([]))
      && (op.OpWrite? && (r == 0 || r == -6) ==> Read(w, k) == Some(Fitting(op.data, Room(v, k))))
      && (op.OpRemove? && r == 0 ==> Read(w, k) == None)
      && (r < 0 && r != -6 ==> Read(w, k) == Read(v, k))
  {
    hide Tree, Fitting, Lowest, Unique, Write;
    StepRead(v, op, k);
    match op
    case OpCreate(name, ext, parent) => FileAbsent(v, k);
    case OpWrite(name, ext, parent, data) =>
      FileAbsent(v, k);
      if Step(v, op).1 == 0 || Step(v, op).1 == -6 { WriteNoTwin(v, op, k); }
    case OpRemove(i) => OnlyFile(v, k, i);
    case _ =>
  }

  lemma WriteNoTwin(v: Volume, op: Op, k: Key)
    requires Tree(v.nodes) && op.OpWrite? && Targets(v, op, k) && k.ext != "" && !StoresTwin(v, op)
    requires Step(v, op).1 == 0 || Step(v, op).1 == -6
    ensures Lookup(v, Key(op.parent, op.name.value, op.ext)) < 0 ==> Lookup(v, k) < 0
    ensures Lookup(v, Key(op.parent, op.name.value, op.ext)) >= 0 ==> Key(op.parent, op.name.value, op.ext) == k
  {
    hide Tree, Fitting, Lowest;
    var q := Key(op.parent, op.name.value, op.ext);
    if Lookup(v, q) >= 0 { FoundIsStored(v, q); }
    else {
      FileAbsent(v, k);
      FileAbsent(v, q);
    }
  }

  /** Keys with an extension name files only. */
  lemma FileAbsent(v: Volume, k: Key)
    requires Tree(v.nodes)
    ensures k.ext != "" && InTable(k.parent) ==> (Lookup(v, k) < 0 <==> !FileNamed(v, k))
    ensures Lookup(v, k) < 0 && InTable(k.parent) ==> !FileNamed(v, k)
  {
    if InTable(k.parent) {
      FoundInTable(v, k);
      if Lookup(v, k) < 0 { assert forall i :: i in v.nodes && Matches(v.nodes[i], k) ==> i in Found(v, k); }
    }
  }

  lemma OnlyFile(v: Volume, k: Key, i: int)
    requires Unique(v) && k.ext != "" && i in v.nodes && Matches(v.nodes[i], k)
    ensures Found(v, k) == {i}
  {
    forall j | j in Found(v, k) ensures j == i {
      assert Alike(v.nodes[j], v.nodes[i]);
    }
  }

  // ---------------------------------------------------------------------
  // Capacity
  // ---------------------------------------------------------------------

  /** Overwriting succeeds exactly when the data fits into what the other nodes leave; otherwise
      exactly the part that fits is stored and -6 returned. The code -5 means that a directory
      without stray bytes was hit on a full volume. */
  lemma OverwriteCapacity(v: Volume, k: Key, data: seq<byte>)
    requires Tree(v.nodes) && IsDir(v, k.parent) && Lookup(v, k) >= 0
    ensures var i := Lookup(v, k);
      var room := Balance(v) - Occupied(v.nodes - {i}, MAX_ENTRIES);
      var (w, r) := Write(v, Some(k.name), k.ext, k.parent, data);
      && i in v.nodes && room == v.free + Weight(v.nodes[i])
      && (r == 0 <==> Clusters(|data|) <= room)
      && (r == -5 <==> room == 0) && (r == -5 <==> v.nodes[i].Dir? && v.nodes[i].stray == None && v.free == 0)
      && (r == 0 ==> w.nodes == v.nodes[i := WithBytes(v.nodes[i], data)] && w.free == room - Clusters(|data|))
      && (r == -6 ==> w.nodes == v.nodes[i := WithBytes(v.nodes[i], data[..room * CLUSTER])] && w.free == 0)
      && (r == 0 || r == -5 || r == -6) && (r == -5 ==> w == v)
  {
    hide Balance, Occupied, Tree;
    LookupFinds(v, k);
    SlotInTable(v, Lookup(v, k));
    SlotInTable(v, k.parent);
    RoomIsTheRest(v, Lookup(v, k));
    FitsExactly(data, v.free + Weight(v.nodes[Lookup(v, k)]));
  }

  lemma FitsExactly(data: seq<byte>, room: nat)
    ensures Clusters(|data|) <= room <==> room > 0 && |data| <= room * CLUSTER
    ensures |data| > room * CLUSTER ==> Fitting(data, room) == data[..room * CLUSTER]
    ensures |data| > room * CLUSTER && room > 0 ==> Clusters(room * CLUSTER) == room
  {}

  /** Writing a new file succeeds exactly when there is an entry and clusters for the data. */
  lemma CreateCapacity(v: Volume, k: Key, data: seq<byte>)
    requires Tree(v.nodes) && IsDir(v, k.parent) && Lookup(v, k) < 0
    ensures var (w, r) := Write(v, Some(k.name), k.ext, k.parent, data);
      && (r == 0 <==> FreeSlot(v) >= 0 && Clusters(|data|) <= v.free)
      && (r == -4 <==> FreeSlot(v) < 0 || v.free == 0)
      && (r == 0 || r == -4 || r == -6)
      && (r == -4 ==> w == v)
      && (r == -6 ==> w.free == 0 && w.nodes == v.nodes[FreeSlot(v) :=
            File(k.parent, Stored(k.name), Stored(k.ext), data[..v.free * CLUSTER])])
  {
    hide Tree, Lookup, FreeSlot, Fitting;
    SlotInTable(v, k.parent);
    FileAbsent(v, k);
    FitsExactly(data, v.free);
    var (w, i) := Create(v, Some(k.name), k.ext, k.parent);
    if i >= 0 { assert w.free + Weight(w.nodes[i]) == v.free; }
  }

  /** Removing a file that a write has made gives back everything: the volume is as before the write, also
      when only a part was stored. */
  lemma RemoveUndoesWrite(v: Volume, k: Key, data: seq<byte>)
    requires Tree(v.nodes) && Lookup(v, k) < 0
    ensures var (w, r) := Write(v, Some(k.name), k.ext, k.parent, data);
      r == 0 || r == -6 ==> Remove(w, FreeSlot(v)) == (v, 0)
  {
    hide Tree, Lookup, FreeSlot, Fitting;
    var (w, r) := Write(v, Some(k.name), k.ext, k.parent, data);
    if r == 0 || r == -6 {
      var i := FreeSlot(v);
      var (c, j) := Create(v, Some(k.name), k.ext, k.parent);
      assert j == i && c.free + Weight(c.nodes[i]) == v.free;
      FreeSlotFacts(v);
      assert w.nodes - {i} == v.nodes;
    }
  }

  lemma FreeSlotFacts(v: Volume)
    ensures FreeSlot(v) >= 0 ==> 0 < FreeSlot(v) < MAX_ENTRIES && FreeSlot(v) !in v.nodes
  {}
}
