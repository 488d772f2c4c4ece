/** The state of a volume as a value: the FAT, the cluster map, the cluster heap and the cluster fields
    of every node. `Consistent` is the invariant of the allocator. */
module Layout {
  import opened Clusters
  import opened Content

  /** The largest number of clusters a `uint32_t` count can hold. */
  const MAX_COUNT: nat := 0xffff_ffff

  /** The cluster fields of an `exfat_node`. */
  datatype File = File(start: u32, contiguous: bool, size: nat, index: nat, cursor: u32)

  /** `size` is the number of bits in the cluster map; the device has two clusters more. */
  datatype Disk<K> = Disk(
    clusterSize: nat,
    size: nat,
    reserved: set<u32>,
    fat: seq<u32>,
    used: seq<bool>,
    heap: seq<seq<byte>>,
    files: map<K, File>)

  /** The number of clusters that hold `bytes` bytes. */
  function ClustersFor(bytes: nat, clusterSize: nat): nat
    requires clusterSize > 0
  {
    (bytes + clusterSize - 1) / clusterSize
  }

  lemma ClustersForBounds(bytes: nat, clusterSize: nat)
    requires clusterSize > 0
    ensures var n := ClustersFor(bytes, clusterSize);
            bytes <= n * clusterSize && (n > 0 ==> (n - 1) * clusterSize < bytes) && (n == 0 <==> bytes == 0)
  {
    var n := ClustersFor(bytes, clusterSize);
    var i := bytes + clusterSize - 1;
    assert i == n * clusterSize + i % clusterSize;
    assert n * clusterSize == (n - 1) * clusterSize + clusterSize;
    if bytes > 0 && n == 0 {
      assert false;
    }
    if bytes == 0 {
      ProductBelow(n, 1, clusterSize);
    }
  }

  lemma ClustersForUnique(bytes: nat, clusterSize: nat, n: nat)
    requires clusterSize > 0
    requires bytes <= n * clusterSize && (n > 0 ==> (n - 1) * clusterSize < bytes)
    ensures ClustersFor(bytes, clusterSize) == n
  {
    var m := ClustersFor(bytes, clusterSize);
    ClustersForBounds(bytes, clusterSize);
    if n > 0 { ProductBelow(n - 1, m, clusterSize); }
    if m > 0 { ProductBelow(m - 1, n, clusterSize); }
  }

  lemma ClustersForMonotone(a: nat, b: nat, clusterSize: nat)
    requires clusterSize > 0 && a <= b
    ensures ClustersFor(a, clusterSize) <= ClustersFor(b, clusterSize)
  {
    var m, n := ClustersFor(a, clusterSize), ClustersFor(b, clusterSize);
    ClustersForBounds(a, clusterSize);
    ClustersForBounds(b, clusterSize);
    if m > 0 { ProductBelow(m - 1, n, clusterSize); }
  }

  /** The same count in the source's widths: a 64-bit sum, and a quotient cut to 32 bits. */
  function Bytes2Clusters(bytes: nat, clusterSize: nat): u32
    requires clusterSize > 0
  {
    (bytes + clusterSize - 1) % 0x1_0000_0000_0000_0000 / clusterSize % 0x1_0000_0000
  }

  lemma FitsCount(bytes: nat, clusterSize: nat)
    requires clusterSize > 0
    ensures ClustersFor(bytes, clusterSize) <= MAX_COUNT <==> bytes <= MAX_COUNT * clusterSize
  {
    hide ClustersFor;
    var n := ClustersFor(bytes, clusterSize);
    ClustersForBounds(bytes, clusterSize);
    if bytes <= MAX_COUNT * clusterSize {
      if n > 0 { ProductBelow(n - 1, MAX_COUNT, clusterSize); }
    } else {
      ProductBelow(MAX_COUNT, n, clusterSize);
    }
  }

  /** The cut loses nothing exactly when at most MAX_COUNT clusters are asked for. */
  lemma Bytes2ClustersExact(bytes: nat, clusterSize: nat)
    requires 0 < clusterSize <= 0x200_0000
    ensures Bytes2Clusters(bytes, clusterSize) == ClustersFor(bytes, clusterSize)
            <==> bytes <= MAX_COUNT * clusterSize
  {
    FitsCount(bytes, clusterSize);
    if bytes <= MAX_COUNT * clusterSize {
      assert MAX_COUNT * clusterSize <= MAX_COUNT * 0x200_0000;
      Uncut(bytes, clusterSize);
    }
  }

  lemma Uncut(bytes: nat, clusterSize: nat)
    requires 0 < clusterSize <= 0x200_0000 && bytes <= MAX_COUNT * 0x200_0000
    requires ClustersFor(bytes, clusterSize) <= MAX_COUNT
    ensures Bytes2Clusters(bytes, clusterSize) == ClustersFor(bytes, clusterSize)
  {
    assert (bytes + clusterSize - 1) % 0x1_0000_0000_0000_0000 == bytes + clusterSize - 1;
  }

  /** Asked for one cluster more than that, the source counts none, and for one more again it counts one. */
  lemma CountCut()
    ensures var size := (MAX_COUNT + 1) * 512;
            ClustersFor(size, 512) == MAX_COUNT + 1 && Bytes2Clusters(size, 512) == 0
    ensures var size := (MAX_COUNT + 2) * 512;
            ClustersFor(size, 512) == MAX_COUNT + 2 && Bytes2Clusters(size, 512) == 1
  {
    assert (MAX_COUNT + 1) * 512 == 0x200_0000_0000;
  }

  /** The cached position names a cluster of the chain (or the start of an empty one). */
  predicate CursorOk(fat: seq<u32>, f: File, n: nat) {
    && (f.index == 0 || f.index < n)
    && f.cursor == Nth(fat, f.contiguous, f.start, f.index)
  }

  /** `f` has a chain of `n` clusters that the map covers. */
  predicate FileOk(fat: seq<u32>, size: nat, f: File, n: nat)
    requires |fat| >= size + FIRST_DATA
  {
    var chain := Chain(fat, f.contiguous, f.start, n);
    && (f.start == FREE <==> n == 0)
    && Sound(chain, size)
    && (n > 0 && !f.contiguous ==> InMap(chain[n - 1], size) && fat[chain[n - 1]] == END)
    && CursorOk(fat, f, n)
  }

  ghost predicate Geometry(d: Disk) {
    && 0 < d.clusterSize <= 0x200_0000
    && d.size + 3 <= LAST_DATA
    && |d.fat| >= d.size + 4
    && |d.used| == d.size
    && |d.heap| == d.size + 2
    && Uniform(d.heap, d.clusterSize)
  }

  ghost function Count<K>(d: Disk<K>, k: K): nat
    requires d.clusterSize > 0 && k in d.files
  {
    ClustersFor(d.files[k].size, d.clusterSize)
  }

  ghost function ChainOf<K>(d: Disk<K>, k: K): (chain: seq<u32>)
    requires d.clusterSize > 0 && k in d.files
    ensures |chain| == Count(d, k)
  {
    var f := d.files[k];
    Chain(d.fat, f.contiguous, f.start, Count(d, k))
  }

  ghost predicate Owns<K>(d: Disk<K>, k: K, c: u32)
    requires d.clusterSize > 0 && k in d.files
  {
    c in ChainOf(d, k)
  }

  ghost predicate IsUsed(d: Disk, c: u32) {
    InMap(c, |d.used|) && d.used[c - FIRST_DATA]
  }

  ghost predicate FilesOk<K>(d: Disk<K>)
    requires Geometry(d)
  {
    forall k :: k in d.files ==> FileOk(d.fat, d.size, d.files[k], Count(d, k))
  }

  ghost predicate OwnedUsed<K>(d: Disk<K>)
    requires Geometry(d)
  {
    forall k, c :: k in d.files && Owns(d, k, c) ==> IsUsed(d, c) && c !in d.reserved
  }

  ghost predicate Disjoint<K>(d: Disk<K>)
    requires Geometry(d)
  {
    forall k, k', c :: k in d.files && k' in d.files && Owns(d, k, c) && Owns(d, k', c) ==> k == k'
  }

  ghost predicate NoLeak<K>(d: Disk<K>)
    requires Geometry(d)
  {
    forall c: u32 :: IsUsed(d, c) ==> c in d.reserved || exists k :: k in d.files && Owns(d, k, c)
  }

  /** Chains are sound and pairwise disjoint, and the set bits are exactly the reserved clusters and the
      clusters of the chains. */
  ghost predicate Consistent<K>(d: Disk<K>) {
    && Geometry(d)
    && FilesOk(d)
    && OwnedUsed(d)
    && Disjoint(d)
    && (forall c :: c in d.reserved ==> IsUsed(d, c))
    && NoLeak(d)
  }

  lemma ChainInHeap<K>(d: Disk<K>, k: K)
    requires Geometry(d) && FilesOk(d) && k in d.files
    ensures InHeap(ChainOf(d, k), d.heap) && Distinct(ChainOf(d, k))
    ensures d.files[k].size <= |ChainOf(d, k)| * d.clusterSize
  {
    var chain := ChainOf(d, k);
    assert FileOk(d.fat, d.size, d.files[k], Count(d, k));
    hide Chain, Nth, CursorOk;
    forall i | 0 <= i < |chain|
      ensures InMap(chain[i], |d.heap|)
    {
      assert chain[i] in chain;
    }
    ClustersForBounds(d.files[k].size, d.clusterSize);
  }

  /** The content of a file: the first `size` bytes of its clusters. */
  ghost function Bytes<K>(d: Disk<K>, k: K): (s: seq<byte>)
    requires Geometry(d) && FilesOk(d) && k in d.files
    ensures |s| == d.files[k].size
  {
    ChainInHeap(d, k);
    Raw(d.heap, d.clusterSize, ChainOf(d, k))[..d.files[k].size]
  }

  /** `d'` differs from `d` only in the file `k`: its fields, the bits of its old and new clusters, and FAT
      entries and heap clusters that no other file and no reserved cluster has. */
  ghost predicate OnlyFile<K>(d: Disk<K>, k: K, d': Disk<K>)
    requires Geometry(d) && k in d.files
  {
    && Geometry(d')
    && d'.clusterSize == d.clusterSize && d'.size == d.size && d'.reserved == d.reserved
    && |d'.fat| == |d.fat|
    && k in d'.files && d'.files == d.files[k := d'.files[k]]
    && (forall c: u32 :: IsUsed(d, c) && !Owns(d, k, c) ==> d'.fat[c] == d.fat[c])
    && (forall c: u32 :: IsUsed(d, c) && !Owns(d, k, c) ==> d'.heap[c - FIRST_DATA] == d.heap[c - FIRST_DATA])
    && (forall c: u32 :: InMap(c, d.size) && !Owns(d, k, c) && !Owns(d', k, c) ==> IsUsed(d', c) == IsUsed(d, c))
    && (forall c: u32 :: Owns(d', k, c) ==> IsUsed(d', c) && (Owns(d, k, c) || !IsUsed(d, c)))
    && (forall c: u32 :: Owns(d, k, c) && !Owns(d', k, c) ==> !IsUsed(d', c))
  }

  /** A change confined to one file keeps every other chain. */
  lemma OtherChainKept<K>(d: Disk<K>, k: K, d': Disk<K>, other: K)
    requires Consistent(d) && k in d.files && OnlyFile(d, k, d')
    requires other in d.files && other != k
    ensures ChainOf(d', other) == ChainOf(d, other)
    ensures FileOk(d'.fat, d'.size, d'.files[other], Count(d', other))
  {
    var f, n := d.files[other], Count(d, other);
    var chain := ChainOf(d, other);
    forall c | c in chain
      ensures d'.fat[c] == d.fat[c]
    {
      assert Owns(d, other, c);
    }
    ChainUnchanged(d.fat, d'.fat, f.contiguous, f.start, n);
    if n > 0 {
      assert Chain(d'.fat, f.contiguous, f.start, n)[f.index] == chain[f.index];
    }
  }

  lemma OwnersAfter<K>(d: Disk<K>, k: K, d': Disk<K>)
    requires Consistent(d) && k in d.files && OnlyFile(d, k, d')
    requires FileOk(d'.fat, d'.size, d'.files[k], Count(d', k))
    requires forall other :: other in d.files && other != k ==> ChainOf(d', other) == ChainOf(d, other)
    ensures forall other, c: u32 :: other in d.files && other != k ==> Owns(d', other, c) == Owns(d, other, c)
    ensures forall c: u32 :: Owns(d', k, c) ==> InMap(c, d.size)
    ensures OwnedUsed(d') && Disjoint(d')
    ensures forall c :: c in d'.reserved ==> IsUsed(d', c)
  {
    hide Count, Nth, Chain;
    forall other, c: u32 | other in d.files && other != k && Owns(d', other, c)
      ensures IsUsed(d', c) && c !in d'.reserved && !Owns(d', k, c)
    {
      assert Owns(d, other, c);
    }
  }

  lemma OnlyFileKeepsConsistent<K>(d: Disk<K>, k: K, d': Disk<K>)
    requires Consistent(d) && k in d.files && OnlyFile(d, k, d')
    requires FileOk(d'.fat, d'.size, d'.files[k], Count(d', k))
    ensures Consistent(d')
  {
    hide Count, Nth, Chain, ChainOf, FileOk, CursorOk, Distinct, Uniform, OwnedUsed, Disjoint;
    forall other | other in d.files && other != k
      ensures ChainOf(d', other) == ChainOf(d, other)
      ensures FileOk(d'.fat, d'.size, d'.files[other], Count(d', other))
    {
      OtherChainKept(d, k, d', other);
    }
    OwnersAfter(d, k, d');
    forall c: u32 | IsUsed(d', c)
      ensures c in d'.reserved || exists k' :: k' in d'.files && Owns(d', k', c)
    {
      if !Owns(d', k, c) && c !in d.reserved {
        assert IsUsed(d, c);
        var owner :| owner in d.files && Owns(d, owner, c);
        assert Owns(d', owner, c);
      }
    }
  }

  /** A change confined to one file keeps the content of every other file. */
  lemma OtherBytesKept<K>(d: Disk<K>, k: K, d': Disk<K>, other: K)
    requires Consistent(d) && k in d.files && OnlyFile(d, k, d') && Consistent(d')
    requires other in d.files && other != k
    ensures Bytes(d', other) == Bytes(d, other)
  {
    OtherChainKept(d, k, d', other);
    ChainInHeap(d, other);
    OtherRawKept(d, k, d', other);
  }

  lemma OtherRawKept<K>(d: Disk<K>, k: K, d': Disk<K>, other: K)
    requires Geometry(d) && k in d.files && OnlyFile(d, k, d') && OwnedUsed(d) && Disjoint(d)
    requires other in d.files && other != k && InHeap(ChainOf(d, other), d.heap)
    ensures Raw(d'.heap, d.clusterSize, ChainOf(d, other)) == Raw(d.heap, d.clusterSize, ChainOf(d, other))
  {
    hide Count, ChainOf, Block, Within;
    var chain, cs := ChainOf(d, other), d.clusterSize;
    forall i | 0 <= i < |chain| * cs
      ensures ByteAt(d'.heap, cs, chain, i) == ByteAt(d.heap, cs, chain, i)
    {
      QuotientBelow(i, cs, |chain|);
      var c := chain[Block(i, cs)];
      assert Owns(d, other, c);
      assert !Owns(d, k, c);
    }
  }
}
