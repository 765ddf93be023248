/** The cluster table of the file system: allocation, release and ownership of
    chains. A table entry is 0 for a free cluster, END for the last cluster of
    a chain and otherwise the number of the next cluster. */
module FatTable {
  import opened Basics

  const BYTES_PER_SECTOR := 512
  const RESERVED_SECTORS := 1
  const NUM_FATS := 2
  const SECTORS_PER_FAT := 32
  const FAT_ENTRIES := BYTES_PER_SECTOR * SECTORS_PER_FAT
  const CLUSTER := BYTES_PER_SECTOR
  const END: u16 := 0xFFFF
  const RAMDISK_SIZE := 64 * 1024 * 1024

  type u16 = x: int | 0 <= x < 0x1_0000
  type Table = t: seq<u16> | |t| == FAT_ENTRIES witness seq(FAT_ENTRIES, i => 0)

  /** Where a cluster starts in the RAM disk. */
  function Offset(c: int): int {
    (RESERVED_SECTORS + NUM_FATS * SECTORS_PER_FAT) * BYTES_PER_SECTOR + (c - 2) * CLUSTER
  }

  predicate InData(c: int) { 2 <= c < FAT_ENTRIES }

  /** Clusters map to pairwise disjoint byte ranges inside the RAM disk. */
  lemma ClustersDisjoint(c: int, d: int, r: int, s: int)
    requires InData(c) && InData(d) && 0 <= r < CLUSTER && 0 <= s < CLUSTER
    ensures 0 <= Offset(c) + r < RAMDISK_SIZE
    ensures Offset(c) + r == Offset(d) + s <==> c == d && r == s
  {}

  // ---------------------------------------------------------------------
  // Chains in an arbitrary table
  // ---------------------------------------------------------------------

  /** The walk of a chain goes on from a cluster with this property. */
  predicate Walkable(fat: Table, c: int) { 0 < c < FAT_ENTRIES && fat[c] != 0 }

  ghost predicate Path(fat: Table, p: seq<int>) {
    && |p| > 0
    && (forall k :: 0 <= k < |p| ==> Walkable(fat, p[k]))
    && (forall k :: 0 <= k < |p| - 1 ==> fat[p[k]] == p[k + 1])
  }

  ghost predicate Reaches(fat: Table, a: int, c: int) {
    exists p :: Path(fat, p) && p[0] == a && p[|p| - 1] == c
  }

  /** A set of clusters that contains a and is closed under links holds all that a reaches. */
  lemma {:induction false} ClosedUnderPath(fat: Table, s: set<int>, p: seq<int>)
    requires Path(fat, p) && p[0] in s
    requires forall c :: c in s && Walkable(fat, c) && Walkable(fat, fat[c]) ==> fat[c] in s
    ensures p[|p| - 1] in s
    decreases |p|
  {
    if |p| > 1 {
      assert Walkable(fat, p[0]) && Walkable(fat, p[1]);
      assert Path(fat, p[1..]);
      ClosedUnderPath(fat, s, p[1..]);
    }
  }

  function NonZero(fat: Table): set<int> { set c | 0 <= c < FAT_ENTRIES && fat[c] != 0 }

  function Zeroed(fat: Table, s: set<int>): (t: Table) {
    seq(FAT_ENTRIES, c requires 0 <= c < FAT_ENTRIES => if c in s then 0 else fat[c])
  }

  /** Releases a chain. Nothing is assumed about the table: links may be cyclic, shared or
      out of range. Exactly the clusters that the walk from `first` reaches are zeroed. */
  method FreeClusterChain(fat: array<u16>, first: u16)
    requires fat.Length == FAT_ENTRIES
    modifies fat
    ensures !InData(first) ==> fat[..] == old(fat[..])
    ensures InData(first) ==> forall c :: 0 <= c < FAT_ENTRIES ==>
      fat[c] == if Reaches(old(fat[..]), first, c) then 0 else old(fat[c])
  {
    if first < 2 || first >= FAT_ENTRIES { return; }
    ghost var was: Table := fat[..];
    ghost var seen: seq<int> := [];
    var cur := first;
    while cur != 0 && cur < FAT_ENTRIES && fat[cur] != 0
      invariant fat[..] == Zeroed(was, set c | c in seen)
      invariant seen != [] ==> Path(was, seen) && seen[0] == first && was[seen[|seen| - 1]] == cur
      invariant seen == [] ==> cur == first
      decreases |NonZero(fat[..])|
    {
      ghost var before: Table := fat[..];
      assert cur !in seen;
      var next := fat[cur];
      fat[cur] := 0;
      seen := seen + [cur];
      assert NonZero(fat[..]) == NonZero(before) - {cur as int};
      if next == END { break; }
      cur := next;
    }
    WalkIsReach(was, first, seen, cur);
  }

  /** When the walk stops, what it has seen is what `first` reaches. */
  lemma WalkIsReach(fat: Table, first: int, seen: seq<int>, cur: int)
    requires seen != [] ==> Path(fat, seen) && seen[0] == first
    requires seen == [] ==> cur == first
    requires seen == [] || fat[seen[|seen| - 1]] == cur || fat[seen[|seen| - 1]] == END
    requires !Walkable(fat, cur) || cur in seen
    ensures forall c :: c in seen <==> Reaches(fat, first, c)
  {
    forall c | c in seen ensures Reaches(fat, first, c) {
      var k :| 0 <= k < |seen| && seen[k] == c;
      assert Path(fat, seen[..k + 1]);
    }
    forall c | Reaches(fat, first, c) ensures c in seen {
      var p :| Path(fat, p) && p[0] == first && p[|p| - 1] == c;
      assert Walkable(fat, p[0]);
      forall d | d in seen && Walkable(fat, fat[d]) ensures fat[d] in seen {
        var k :| 0 <= k < |seen| && seen[k] == d;
        assert k < |seen| - 1 ==> fat[seen[k]] == seen[k + 1];
      }
      ClosedUnderPath(fat, Elements(seen), p);
    }
  }

  /** The first k clusters that a read starting at c visits, in whatever table. */
  function Walk(fat: Table, c: int, k: nat): (cs: seq<int>)
    ensures |cs| <= k && forall p :: 0 <= p < |cs| ==> 0 < cs[p] < FAT_ENTRIES
    decreases k
  {
    if k == 0 || !(0 < c < FAT_ENTRIES) then []
    else [c] + if fat[c] == END then [] else Walk(fat, fat[c], k - 1)
  }

  /** First free cluster, marked END; 0 when there is none. */
  method AllocCluster(fat: array<u16>) returns (c: u16)
    requires fat.Length == FAT_ENTRIES
    modifies fat
    ensures c == 0 ==> fat[..] == old(fat[..]) && FreeSet(fat[..]) == {}
    ensures c != 0 ==> InData(c) && old(fat[c]) == 0 && fat[..] == old(fat[..])[c := END]
    ensures c != 0 ==> forall d :: 2 <= d < c ==> old(fat[d]) != 0
  {
    for i := 2 to FAT_ENTRIES
      invariant forall d :: 2 <= d < i ==> fat[d] != 0
      invariant fat[..] == old(fat[..])
    {
      if fat[i] == 0 {
        fat[i] := END;
        return i;
      }
    }
    return 0;
  }

  function FreeSet(fat: Table): set<int> { set c | 2 <= c < FAT_ENTRIES && fat[c] == 0 }

  // ---------------------------------------------------------------------
  // Ownership: every non-free cluster is on the chain of exactly one owner
  // ---------------------------------------------------------------------

  ghost predicate IsChain(fat: Table, cs: seq<int>) {
    && |cs| > 0
    && (forall k :: 0 <= k < |cs| ==> InData(cs[k]))
    && Distinct(cs)
    && (forall k :: 0 <= k < |cs| - 1 ==> fat[cs[k]] == cs[k + 1])
    && fat[cs[|cs| - 1]] == END
  }

  function Elements(cs: seq<int>): set<int> { set c | c in cs }

  lemma {:induction false} DistinctCard(cs: seq<int>)
    requires Distinct(cs)
    ensures |Elements(cs)| == |cs|
  {
    if cs != [] {
      var n := |cs| - 1;
      DistinctCard(cs[..n]);
      assert Elements(cs) == Elements(cs[..n]) + {cs[n]};
    }
  }

  /** Chains of all owners, with the inverse map from clusters to owners. */
  datatype Chains = Chains(of: map<int, seq<int>>, owner: map<int, int>)

  ghost predicate Owned(fat: Table, ch: Chains) {
    && (forall i :: i in ch.of ==> IsChain(fat, ch.of[i]))
    && (forall i, k :: i in ch.of && 0 <= k < |ch.of[i]| ==>
          ch.of[i][k] in ch.owner && ch.owner[ch.of[i][k]] == i)
    && (forall c :: c in ch.owner ==> ch.owner[c] in ch.of && c in ch.of[ch.owner[c]])
    && (forall c :: 0 <= c < FAT_ENTRIES ==> (fat[c] != 0 <==> c in ch.owner))
  }

  /** Chains of different owners share no cluster, and no chain visits a cluster twice. */
  lemma ChainsDisjoint(fat: Table, ch: Chains, i: int, j: int, a: nat, b: nat)
    requires Owned(fat, ch) && i in ch.of && j in ch.of && a < |ch.of[i]| && b < |ch.of[j]|
    requires ch.of[i][a] == ch.of[j][b]
    ensures i == j && a == b
  {
    assert ch.owner[ch.of[i][a]] == i;
  }

  /** An entry is non-zero exactly when it lies on some chain: nothing is leaked. */
  lemma NothingLeaked(fat: Table, ch: Chains, c: int)
    requires Owned(fat, ch) && 0 <= c < FAT_ENTRIES
    ensures fat[c] != 0 <==> exists i :: i in ch.of && c in ch.of[i]
  {
    if fat[c] != 0 {
      assert c in ch.owner;
      var i := ch.owner[c];
      assert i in ch.of && c in ch.of[i];
    }
    if i :| i in ch.of && c in ch.of[i] {
      var k :| 0 <= k < |ch.of[i]| && ch.of[i][k] == c;
    }
  }

  /** What the walk along an owned chain meets. */
  lemma ChainLink(fat: Table, ch: Chains, i: int, pos: nat)
    requires Owned(fat, ch) && i in ch.of && pos < |ch.of[i]|
    ensures InData(ch.of[i][pos])
    ensures fat[ch.of[i][pos]] == if pos == |ch.of[i]| - 1 then END else ch.of[i][pos + 1]
    ensures pos < |ch.of[i]| - 1 ==> InData(ch.of[i][pos + 1])
  {}

  lemma ChainDistinct(fat: Table, ch: Chains, i: int)
    requires Owned(fat, ch) && i in ch.of
    ensures |ch.of[i]| > 0 && Distinct(ch.of[i]) && forall k :: 0 <= k < |ch.of[i]| ==> InData(ch.of[i][k])
  {}

  /** On an owned chain, what the walk reaches is the chain. */
  lemma ChainIsReach(fat: Table, cs: seq<int>, c: int)
    requires IsChain(fat, cs)
    ensures Reaches(fat, cs[0], c) <==> c in cs
  {
    forall k | 0 <= k < |cs| ensures fat[cs[k]] != 0 {
      assert k < |cs| - 1 ==> fat[cs[k]] == cs[k + 1] && InData(cs[k + 1]);
    }
    WalkIsReach(fat, cs[0], cs, END);
  }

  lemma ChainKept(fat: Table, fat': Table, cs: seq<int>)
    requires IsChain(fat, cs) && forall k :: 0 <= k < |cs| ==> fat'[cs[k]] == fat[cs[k]]
    ensures IsChain(fat', cs)
  {}

  lemma ChainGrows(fat: Table, cs: seq<int>, c: int)
    requires IsChain(fat, cs) && InData(c) && c !in cs
    ensures InData(cs[|cs| - 1]) && IsChain(fat[c := END][cs[|cs| - 1] := c], cs + [c])
  {}

  lemma ChainEnds(fat: Table, cs: seq<int>, k: nat)
    requires IsChain(fat, cs) && k < |cs|
    ensures InData(cs[k]) && IsChain(fat[cs[k] := END], cs[..k + 1])
  {}

  lemma ChainAt(fat: Table, cs: seq<int>, p: nat)
    requires IsChain(fat, cs) && p < |cs|
    ensures InData(cs[p]) && fat[cs[p]] == if p == |cs| - 1 then END else cs[p + 1]
    ensures p < |cs| - 1 ==> InData(cs[p + 1])
  {}

  /** On a chain the read visits the chain, as far as it goes. */
  lemma {:induction false} WalkChain(fat: Table, cs: seq<int>, p: nat, k: nat)
    requires IsChain(fat, cs) && p < |cs|
    ensures Walk(fat, cs[p], k) == if p + k <= |cs| then cs[p..p + k] else cs[p..]
    decreases k
  {
    hide IsChain;
    ChainAt(fat, cs, p);
    if k > 0 && p < |cs| - 1 {
      WalkChain(fat, cs, p + 1, k - 1);
    }
  }

  // The ways in which ownership changes.

  ghost function Start(ch: Chains, i: int, c: int): Chains {
    Chains(ch.of[i := [c]], ch.owner[c := i])
  }

  lemma StartOwned(fat: Table, ch: Chains, i: int, c: int)
    requires Owned(fat, ch) && i !in ch.of && InData(c) && fat[c] == 0
    ensures Owned(fat[c := END], Start(ch, i, c))
    ensures FreeSet(fat[c := END]) == FreeSet(fat) - {c}
  {
    assert [c][0] == c;
  }

  ghost function Extend(ch: Chains, i: int, c: int): Chains
    requires i in ch.of
  {
    Chains(ch.of[i := ch.of[i] + [c]], ch.owner[c := i])
  }

  lemma ExtendOwned(fat: Table, ch: Chains, i: int, c: int)
    requires Owned(fat, ch) && i in ch.of && InData(c) && fat[c] == 0
    ensures Owned(fat[c := END][ch.of[i][|ch.of[i]| - 1] := c], Extend(ch, i, c))
    ensures FreeSet(fat[c := END][ch.of[i][|ch.of[i]| - 1] := c]) == FreeSet(fat) - {c}
  {
    hide IsChain;
    var cs := ch.of[i];
    ChainDistinct(fat, ch, i);
    var last := cs[|cs| - 1];
    var fat' := fat[c := END][last := c];
    var ch' := Extend(ch, i, c);
    assert last in ch.owner && c !in ch.owner;
    ChainGrows(fat, cs, c);
    forall j | j in ch'.of && j != i ensures IsChain(fat', ch'.of[j]) {
      ChainDistinct(fat, ch, j);
      assert forall k :: 0 <= k < |ch.of[j]| ==> ch.owner[ch.of[j][k]] == j;
      ChainKept(fat, fat', ch.of[j]);
    }
    forall d | d in ch'.owner ensures ch'.owner[d] in ch'.of && d in ch'.of[ch'.owner[d]] {
      assert (cs + [c])[|cs|] == c;
      assert d in cs ==> d in cs + [c];
    }
  }

  ghost function Drop(ch: Chains, i: int): Chains
    requires i in ch.of
  {
    Chains(ch.of - {i}, ch.owner - Elements(ch.of[i]))
  }

  lemma DropOwned(fat: Table, ch: Chains, i: int)
    requires Owned(fat, ch) && i in ch.of
    ensures Owned(Zeroed(fat, Elements(ch.of[i])), Drop(ch, i))
    ensures FreeSet(Zeroed(fat, Elements(ch.of[i]))) == FreeSet(fat) + Elements(ch.of[i])
    ensures |FreeSet(Zeroed(fat, Elements(ch.of[i])))| == |FreeSet(fat)| + |ch.of[i]|
  {
    hide IsChain;
    var cs := ch.of[i];
    var fat' := Zeroed(fat, Elements(cs));
    forall j | j in ch.of && j != i ensures IsChain(fat', ch.of[j]) && Elements(ch.of[j]) !! Elements(cs) {
      ChainDistinct(fat, ch, j);
      assert forall k :: 0 <= k < |ch.of[j]| ==> ch.owner[ch.of[j][k]] == j;
      assert forall k :: 0 <= k < |cs| ==> ch.owner[cs[k]] == i;
      ChainKept(fat, fat', ch.of[j]);
    }
    ChainDistinct(fat, ch, i);
    assert forall k :: 0 <= k < |cs| ==> cs[k] in ch.owner;
    DropFrees(fat, cs);
  }

  lemma DropFrees(fat: Table, cs: seq<int>)
    requires Distinct(cs) && forall k :: 0 <= k < |cs| ==> 2 <= cs[k] < FAT_ENTRIES && fat[cs[k]] != 0
    ensures FreeSet(Zeroed(fat, Elements(cs))) == FreeSet(fat) + Elements(cs)
    ensures |FreeSet(Zeroed(fat, Elements(cs)))| == |FreeSet(fat)| + |cs|
  {
    DistinctCard(cs);
    assert FreeSet(fat) !! Elements(cs);
  }

  /** Chain i gets another owner, j. */
  ghost function Rekey(ch: Chains, i: int, j: int): Chains
    requires i in ch.of
  {
    Chains((ch.of - {i})[j := ch.of[i]], map c | c in ch.owner :: if ch.owner[c] == i then j else ch.owner[c])
  }

  lemma RekeyOwned(fat: Table, ch: Chains, i: int, j: int)
    requires Owned(fat, ch) && i in ch.of && j !in ch.of
    ensures Owned(fat, Rekey(ch, i, j))
  {
    hide IsChain;
  }

  /** No walk that starts at one chain reaches a cluster of another. */
  lemma ChainsApart(fat: Table, ch: Chains, i: int, j: int, c: int)
    requires Owned(fat, ch) && i in ch.of && j in ch.of && i != j && c in ch.of[j]
    ensures ch.of[i] != [] && !Reaches(fat, ch.of[i][0], c)
  {
    hide IsChain;
    ChainDistinct(fat, ch, i);
    ChainIsReach(fat, ch.of[i], c);
    var b :| 0 <= b < |ch.of[j]| && ch.of[j][b] == c;
    forall a | 0 <= a < |ch.of[i]| ensures ch.of[i][a] != c {
      assert ch.owner[ch.of[i][a]] == i && ch.owner[ch.of[j][b]] == j;
    }
  }

  /** The table and the first cluster determine the chain. */
  lemma {:induction false} ChainUnique(fat: Table, cs: seq<int>, ds: seq<int>, k: nat)
    requires IsChain(fat, cs) && IsChain(fat, ds) && cs[0] == ds[0] && k < |cs|
    ensures k < |ds| && cs[k] == ds[k] && (k == |cs| - 1 ==> |ds| == |cs|)
  {
    if k > 0 {
      ChainUnique(fat, cs, ds, k - 1);
      assert fat[cs[k - 1]] == cs[k - 1 + 1];
    }
    if k < |ds| - 1 { assert fat[ds[k]] == ds[k + 1]; }
    if k < |cs| - 1 { assert fat[cs[k]] == cs[k + 1]; }
  }

  /** The owner of a cluster and its position on the chain. */
  lemma OwnerAt(fat: Table, ch: Chains, c: int) returns (j: int, b: nat)
    requires Owned(fat, ch) && 0 <= c < FAT_ENTRIES && fat[c] != 0
    ensures j in ch.of && IsChain(fat, ch.of[j]) && b < |ch.of[j]| && ch.of[j][b] == c
  {
    assert c in ch.owner;
    j := ch.owner[c];
    b :| 0 <= b < |ch.of[j]| && ch.of[j][b] == c;
  }

  lemma CutChain(fat: Table, ch: Chains, i: int, k: nat, j: int) returns (cs: seq<int>)
    requires Owned(fat, ch) && i in ch.of && k < |ch.of[i]| - 1 && j in ch.of
    ensures InData(ch.of[i][k]) && IsChain(fat[ch.of[i][k] := END], cs)
    ensures cs <= ch.of[j] && (j == i ==> |cs| == k + 1)
  {
    hide IsChain;
    ChainDistinct(fat, ch, i);
    ChainDistinct(fat, ch, j);
    if j == i {
      cs := ch.of[i][..k + 1];
      ChainEnds(fat, ch.of[i], k);
    } else {
      cs := ch.of[j];
      forall m | 0 <= m < |cs| ensures cs[m] != ch.of[i][k] {
        assert ch.owner[cs[m]] == j;
      }
      ChainKept(fat, fat[ch.of[i][k] := END], cs);
    }
  }

  /** Ending a chain before its last cluster leaks the rest: with the same first clusters, no
      assignment of chains accounts for the table any more. */
  lemma CutLeaks(fat: Table, ch: Chains, i: int, k: nat, ch': Chains)
    requires Owned(fat, ch) && i in ch.of && k < |ch.of[i]| - 1
    requires ch'.of.Keys == ch.of.Keys
    requires forall j :: j in ch.of ==> ch'.of[j] != [] && ch'.of[j][0] == ch.of[j][0]
    ensures InData(ch.of[i][k]) && !Owned(fat[ch.of[i][k] := END], ch')
  {
    hide Owned;
    ChainLink(fat, ch, i, k);
    ChainLink(fat, ch, i, k + 1);
    var fat' := fat[ch.of[i][k] := END];
    if Owned(fat', ch') {
      var j, b := OwnerAt(fat', ch', ch.of[i][k + 1]);
      var cs := CutChain(fat, ch, i, k, j);
      ChainUnique(fat', ch'.of[j], cs, b);
      ChainsDisjoint(fat, ch, i, j, k + 1, b);
    }
  }
}
