/** What the recovery tool restores, compared with what libexfat would read. */
module Recovery {
  import opened Clusters
  import opened Content
  import opened Layout
  import opened Files
  import opened Device
  import opened Restore

  /** The partition `p` holds the volume `d`, with its clusters placed by `g`. */
  ghost predicate Stores<K>(p: Partition, g: Placement, d: Disk<K>) {
    Consistent(d) && g.Valid() && g.ClusterSize() == d.clusterSize && Holds(p, g, d.heap)
  }

  ghost function ExtentsOf<K>(g: Placement, d: Disk<K>, k: K): seq<Extent>
    requires g.ClusterSize() == d.clusterSize > 0 && k in d.files && Layout.Count(d, k) > 0
  {
    Extents(g, d.fat, d.files[k], Layout.Count(d, k))
  }

  /** The size of the i-th extent of a file, and where it ends. */
  lemma ExtentSize(bytes: nat, size: nat, i: nat)
    requires size > 0 && i < ClustersFor(bytes, size)
    ensures var n, rest := ClustersFor(bytes, size), bytes % size;
            var len := if i == n - 1 && rest != 0 then rest else size;
            && At(i, size) + len <= bytes && 0 < len <= size
            && At(i, size) + len == if i + 1 == n then bytes else At(i + 1, size)
  {
    var n, rest := ClustersFor(bytes, size), bytes % size;
    CountsAgree(bytes, size);
    assert bytes == (bytes / size) * size + rest;
    OneMore(i, size);
    if rest != 0 {
      ProductMonotone(i + 1, n - 1, size);
    } else {
      ProductMonotone(i + 1, n, size);
    }
  }

  /** Where copying has got to after `i` of `n` extents. */
  function Reached(i: nat, n: nat, size: nat, bytes: nat): nat {
    if i == n then bytes else At(i, size)
  }

  /** The i-th extent holds the i-th block of `s`, and can be taken from the partition unless it fails. */
  ghost predicate HoldsBlock(p: Partition, sectorSize: nat, e: Extent, s: seq<byte>, size: nat, i: nat, n: nat)
    requires sectorSize > 0
  {
    var at := At(i, size);
    && e.offset != 0 && 0 < e.size <= size
    && at + e.size == Reached(i + 1, n, size, |s|) <= |s|
    && Taken(p, sectorSize, e) == if Fails(p, sectorSize, e) then Zeros(e.size) else s[at..at + e.size]
  }

  ghost predicate HoldsBlocks(p: Partition, sectorSize: nat, e: seq<Extent>, s: seq<byte>, size: nat)
    requires sectorSize > 0
  {
    size > 0 && |e| > 0 && forall i :: 0 <= i < |e| ==> HoldsBlock(p, sectorSize, e[i], s, size, i, |e|)
  }

  /** A readable extent of a file gives the file's bytes at its place. */
  lemma ExtentHoldsBlock<K>(p: Partition, g: Placement, d: Disk<K>, k: K, i: nat)
    requires Stores(p, g, d) && k in d.files && i < Layout.Count(d, k)
    ensures HoldsBlock(p, g.sectorSize, ExtentsOf(g, d, k)[i], Bytes(d, k), d.clusterSize, i, Layout.Count(d, k))
  {
    hide FilesOk, OwnedUsed, Disjoint, NoLeak, ClustersFor, Placement.ClusterToOffset, Placement.ClusterSize, Fails,
         ExtentsOf, ChainOf, At, Raw, Holds, Bytes;
    var size, cs := d.files[k].size, d.clusterSize;
    ExtentSize(size, cs, i);
    ExtentIs(g, d, k, i);
    var e, c := ExtentsOf(g, d, k)[i], ChainOf(d, k)[i];
    NoClusterOffset(g, c);
    BlockOfBytes(d, k, i, e.size);
    HeldBytes(p, g, d.heap, c, e.size);
  }

  lemma ExtentIs<K>(g: Placement, d: Disk<K>, k: K, i: nat)
    requires g.ClusterSize() == d.clusterSize > 0 && k in d.files && i < Layout.Count(d, k)
    ensures var rest := d.files[k].size % d.clusterSize;
            && |ExtentsOf(g, d, k)| == Layout.Count(d, k)
            && ExtentsOf(g, d, k)[i] == Extent(g.ClusterToOffset(ChainOf(d, k)[i]),
                                               if i == Layout.Count(d, k) - 1 && rest != 0 then rest else d.clusterSize)
  {
    hide Placement.ClusterToOffset, Placement.ClusterSize, Nth, Layout.Count;
  }

  lemma BlockOfBytes<K>(d: Disk<K>, k: K, i: nat, n: nat)
    requires Geometry(d) && FilesOk(d) && k in d.files && i < Layout.Count(d, k) && n <= d.clusterSize
    requires At(i, d.clusterSize) + n <= d.files[k].size
    ensures InMap(ChainOf(d, k)[i], |d.heap|)
    ensures Read(d.heap, ChainOf(d, k)[i], 0, n) == Bytes(d, k)[At(i, d.clusterSize)..At(i, d.clusterSize) + n]
  {
    hide FileOk, ClustersFor, Chain, Uniform;
    ChainInHeap(d, k);
    ReadBlock(d.heap, d.clusterSize, ChainOf(d, k), i, n);
    hide At, Read;
  }

  lemma HeldBytes(p: Partition, g: Placement, heap: seq<seq<byte>>, c: u32, n: nat)
    requires Holds(p, g, heap) && Uniform(heap, g.ClusterSize()) && InMap(c, |heap|) && n <= g.ClusterSize()
    ensures g.ClusterToOffset(c) + n <= |p.bytes|
    ensures Read(heap, c, 0, n) == p.bytes[g.ClusterToOffset(c)..g.ClusterToOffset(c) + n]
  {
    hide Placement.ClusterToOffset, Placement.ClusterSize;
  }

  lemma ReadBlock(heap: seq<seq<byte>>, size: nat, chain: seq<u32>, k: nat, n: nat)
    requires size > 0 && Uniform(heap, size) && InHeap(chain, heap)
    requires k < |chain| && n <= size
    ensures At(k, size) + n <= |Raw(heap, size, chain)| && InMap(chain[k], |heap|)
    ensures Read(heap, chain[k], 0, n) == Raw(heap, size, chain)[At(k, size)..At(k, size) + n]
  {
    ReadInChain(heap, size, chain, k, 0, n);
  }

  /** After any number of extents: as many bytes as they cover, each from the file or, where its extent cannot
      be read, zero. */
  lemma {:induction false} GatheredBytes(p: Partition, sectorSize: nat, e: seq<Extent>, s: seq<byte>, size: nat, i: nat)
    requires sectorSize > 0 && HoldsBlocks(p, sectorSize, e, s, size) && i <= |e|
    ensures var out := Gathered(p, sectorSize, e[..i]);
            && |out| == Reached(i, |e|, size, |s|) <= |s|
            && forall b :: 0 <= b < |out| ==>
                 && Block(b, size) < i
                 && out[b] == if Fails(p, sectorSize, e[Block(b, size)]) then 0 else s[b]
  {
    hide Fails, Taken, Block, At, Gathered, Reached, HoldsBlock;
    GatheredNone(p, sectorSize, size, |e|, |s|);
    if i == 0 {
      assert e[..0] == [];
    } else {
      GatheredBytes(p, sectorSize, e, s, size, i - 1);
      var one := e[i - 1];
      assert HoldsBlock(p, sectorSize, one, s, size, i - 1, |e|);
      BlockTaken(p, sectorSize, one, s, size, i - 1, |e|);
      GatheredOne(p, sectorSize, e, i);
      var out, before := Gathered(p, sectorSize, e[..i]), Gathered(p, sectorSize, e[..i - 1]);
      forall b | 0 <= b < |out|
        ensures Block(b, size) < i && out[b] == if Fails(p, sectorSize, e[Block(b, size)]) then 0 else s[b]
      {
        if b >= |before| {
          BlockOf(i - 1, b, size);
        }
      }
    }
  }

  lemma GatheredNone(p: Partition, sectorSize: nat, size: nat, n: nat, bytes: nat)
    requires sectorSize > 0 && n > 0
    ensures Gathered(p, sectorSize, []) == [] && Reached(0, n, size, bytes) == 0
  {
  }

  lemma GatheredOne(p: Partition, sectorSize: nat, e: seq<Extent>, i: nat)
    requires sectorSize > 0 && 0 < i <= |e|
    ensures Gathered(p, sectorSize, e[..i]) == Gathered(p, sectorSize, e[..i - 1]) + Taken(p, sectorSize, e[i - 1])
  {
    assert e[..i][..i - 1] == e[..i - 1];
  }

  lemma BlockTaken(p: Partition, sectorSize: nat, e: Extent, s: seq<byte>, size: nat, i: nat, n: nat)
    requires sectorSize > 0 && HoldsBlock(p, sectorSize, e, s, size, i, n) && i < n
    ensures var at, taken := At(i, size), Taken(p, sectorSize, e);
            && at == Reached(i, n, size, |s|) && |taken| == e.size <= size
            && at + |taken| == Reached(i + 1, n, size, |s|) <= |s|
            && forall b :: 0 <= b < |taken| ==> taken[b] == if Fails(p, sectorSize, e) then 0 else s[at + b]
  {
    hide Fails, Taken, At;
  }

  lemma BlockOf(i: nat, b: nat, size: nat)
    requires At(i, size) <= b < At(i, size) + size
    ensures Block(b, size) == i
  {
    QuotientOf(i, b - At(i, size), size);
  }

  lemma HasBytes<K>(d: Disk<K>, k: K)
    requires Consistent(d) && k in d.files
    ensures d.clusterSize > 0 && (d.files[k].start >= FIRST_DATA ==> d.files[k].size > 0)
    ensures d.files[k].size > 0 <==> Layout.Count(d, k) > 0
  {
    hide OwnedUsed, Disjoint, NoLeak, ClustersFor, Uniform, Chain, Sound, CursorOk;
    ClustersForBounds(d.files[k].size, d.clusterSize);
    assert FileOk(d.fat, d.size, d.files[k], Layout.Count(d, k));
  }

  /** The extents the recovery tool lists for a file of the volume. */
  ghost function ListOf<K>(g: Placement, d: Disk<K>, k: K): seq<Extent>
    requires Consistent(d) && k in d.files && g.ClusterSize() == d.clusterSize
  {
    HasBytes(d, k);
    Listed(g, d.fat, d.files[k])
  }

  /** The extent list of a file of a consistent volume is never cut short. */
  lemma NothingLost<K>(g: Placement, d: Disk<K>, k: K)
    requires Consistent(d) && k in d.files && g.ClusterSize() == d.clusterSize
    ensures d.clusterSize > 0 && (Layout.Count(d, k) > 0 <==> d.files[k].size > 0)
    ensures ListOf(g, d, k)
            == if Layout.Count(d, k) == 0 then [Extent(0, d.clusterSize)] else ExtentsOf(g, d, k)
  {
    HasBytes(d, k);
    hide OwnedUsed, Disjoint, NoLeak, ClustersFor, Placement.ClusterSize, Placement.ClusterToOffset, Nth, Uniform,
         Whole, Extents, CursorOk;
    var f, n := d.files[k], Layout.Count(d, k);
    ClustersForBounds(f.size, d.clusterSize);
    assert FileOk(d.fat, d.size, f, n);
    if n > 0 {
      var chain := ChainOf(d, k);
      assert chain[0] in chain && chain[0] == Nth(d.fat, f.contiguous, f.start, 0);
      NthStart(d.fat, f.contiguous, f.start);
      forall i | 1 <= i < n
        ensures Nth(d.fat, f.contiguous, f.start, i) != BAD
      {
        assert chain[i] in chain;
      }
      LostIs(d.fat, f, 1, n, n);
    }
  }

  lemma FileHoldsBlocks<K>(p: Partition, g: Placement, d: Disk<K>, k: K)
    requires Stores(p, g, d) && k in d.files && Layout.Count(d, k) > 0
    ensures HoldsBlocks(p, g.sectorSize, ExtentsOf(g, d, k), Bytes(d, k), d.clusterSize)
    ensures |ExtentsOf(g, d, k)| == Layout.Count(d, k)
  {
    hide HoldsBlock, Bytes, FilesOk, OwnedUsed, Disjoint, NoLeak, ClustersFor;
    forall i | 0 <= i < Layout.Count(d, k)
      ensures HoldsBlock(p, g.sectorSize, ExtentsOf(g, d, k)[i], Bytes(d, k), d.clusterSize, i, Layout.Count(d, k))
    {
      ExtentHoldsBlock(p, g, d, k, i);
    }
  }

  /** Some sector of the cluster-sized piece that byte `b` of the file lies in cannot be read. */
  ghost predicate Lost<K>(p: Partition, g: Placement, d: Disk<K>, k: K, b: nat)
    requires Stores(p, g, d) && k in d.files && b < d.files[k].size
  {
    BlockInFile(d, k, b);
    Fails(p, g.sectorSize, ExtentsOf(g, d, k)[Block(b, d.clusterSize)])
  }

  lemma BlockInFile<K>(d: Disk<K>, k: K, b: nat)
    requires d.clusterSize > 0 && k in d.files && b < d.files[k].size
    ensures Block(b, d.clusterSize) < Layout.Count(d, k)
  {
    ClustersForBounds(d.files[k].size, d.clusterSize);
    QuotientBelow(b, d.clusterSize, Layout.Count(d, k));
  }

  /** Restoring everything gives a file of the same length, with zeros exactly in the pieces that cannot be read.
      Restoring only what is good gives the file up to the first such piece. A fully readable file comes back byte for
      byte either way. */
  ghost predicate RestoredAs<K>(p: Partition, g: Placement, d: Disk<K>, k: K, mode: Mode, out: seq<byte>)
    requires Stores(p, g, d) && k in d.files
  {
    var s := Bytes(d, k);
    && |s| == d.files[k].size
    && ((forall b :: 0 <= b < |s| ==> !Lost(p, g, d, k, b)) ==> out == s)
    && (mode == All ==>
          |out| == |s| && forall b :: 0 <= b < |s| ==> out[b] == if Lost(p, g, d, k, b) then 0 else s[b])
    && (mode == OnlyGood ==>
          && out <= s
          && (forall b :: 0 <= b < |out| ==> !Lost(p, g, d, k, b))
          && (|out| < |s| ==> |out| % d.clusterSize == 0 && Lost(p, g, d, k, |out|)))
  }

  /** End to end: the extents of any file, copied off the partition. */
  lemma RestoredFile<K>(p: Partition, g: Placement, d: Disk<K>, k: K, mode: Mode)
    requires Stores(p, g, d) && k in d.files
    ensures RestoredAs(p, g, d, k, mode, Recovered(p, g.sectorSize, ListOf(g, d, k), mode))
  {
    hide HoldsBlock, HoldsBlocks, Bytes, FilesOk, OwnedUsed, Disjoint, NoLeak, ListOf, ExtentsOf, ClustersFor, Fails,
         Recovered, Block, Gathered, Lost, Holds, Uniform;
    NothingLost(g, d, k);
    if d.files[k].size == 0 {
      NothingRecovered(p, g.sectorSize, d.clusterSize, mode);
    } else {
      FileHoldsBlocks(p, g, d, k);
      BlocksRecovered(p, g.sectorSize, ExtentsOf(g, d, k), Bytes(d, k), d.clusterSize, mode);
      LostMeans(p, g, d, k);
    }
  }

  lemma LostMeans<K>(p: Partition, g: Placement, d: Disk<K>, k: K)
    requires Stores(p, g, d) && k in d.files && Layout.Count(d, k) > 0
    ensures forall b :: 0 <= b < d.files[k].size ==>
              && Block(b, d.clusterSize) < |ExtentsOf(g, d, k)|
              && Lost(p, g, d, k, b) == Fails(p, g.sectorSize, ExtentsOf(g, d, k)[Block(b, d.clusterSize)])
  {
    hide Fails, Consistent, ClustersFor, Block;
    forall b | 0 <= b < d.files[k].size
      ensures Block(b, d.clusterSize) < Layout.Count(d, k)
    {
      BlockInFile(d, k, b);
    }
  }

  lemma NothingRecovered(p: Partition, sectorSize: nat, size: nat, mode: Mode)
    requires sectorSize > 0
    ensures Recovered(p, sectorSize, [Extent(0, size)], mode) == []
  {
    var e := [Extent(0, size)];
    assert e[..0] == [] && e[..1] == e;
    assert Gathered(p, sectorSize, e) == Gathered(p, sectorSize, e[..0]) + Taken(p, sectorSize, e[0]);
    assert FirstFailure(p, sectorSize, e, 0) <= 1;
  }

  lemma BlocksRecovered(p: Partition, sectorSize: nat, e: seq<Extent>, s: seq<byte>, size: nat, mode: Mode)
    requires sectorSize > 0 && HoldsBlocks(p, sectorSize, e, s, size)
    ensures forall b :: 0 <= b < |s| ==> Block(b, size) < |e|
    ensures var out := Recovered(p, sectorSize, e, mode);
            && (mode == All ==> |out| == |s| && forall b :: 0 <= b < |s| ==>
                                  out[b] == if Fails(p, sectorSize, e[Block(b, size)]) then 0 else s[b])
            && (mode == OnlyGood ==>
                  && out <= s
                  && (forall b :: 0 <= b < |out| ==> !Fails(p, sectorSize, e[Block(b, size)]))
                  && (|out| < |s| ==> |out| % size == 0 && Fails(p, sectorSize, e[Block(|out|, size)])))
  {
    hide Fails, Gathered, Block, HoldsBlock;
    assert e[..|e|] == e;
    GatheredBytes(p, sectorSize, e, s, size, |e|);
    if mode == OnlyGood {
      var j := FirstFailure(p, sectorSize, e, 0);
      GatheredBytes(p, sectorSize, e, s, size, j);
      BlockExists(p, sectorSize, e, s, size);
      if j < |e| {
        QuotientOf(j, 0, size);
        MultipleOf(j, size);
      }
    }
  }

  lemma BlockExists(p: Partition, sectorSize: nat, e: seq<Extent>, s: seq<byte>, size: nat)
    requires sectorSize > 0 && HoldsBlocks(p, sectorSize, e, s, size)
    ensures forall i :: 0 <= i < |e| ==> e[i].offset != 0 && At(i, size) < |s|
  {
    forall i | 0 <= i < |e|
      ensures e[i].offset != 0 && At(i, size) < |s|
    {
      assert HoldsBlock(p, sectorSize, e[i], s, size, i, |e|);
    }
  }

  lemma MultipleOf(k: nat, size: nat)
    requires size > 0
    ensures At(k, size) % size == 0
  {
    QuotientOf(k, 0, size);
  }

  // --- a broken chain ---

  /** Extents that are whole clusters, none of which meets a bad sector. */
  ghost predicate WholePieces(p: Partition, g: Placement, heap: seq<seq<byte>>, es: seq<Extent>, chain: seq<u32>)
    requires g.sectorSize > 0
  {
    && |es| == |chain|
    && forall i :: 0 <= i < |es| ==>
         && InMap(chain[i], |heap|) && es[i] == Extent(g.ClusterToOffset(chain[i]), g.ClusterSize())
         && !Unreadable(p, g.sectorSize, es[i].offset, es[i].size)
  }

  lemma ClusterTaken(p: Partition, g: Placement, heap: seq<seq<byte>>, es: seq<Extent>, chain: seq<u32>, i: nat)
    requires g.Valid() && Holds(p, g, heap) && WholePieces(p, g, heap, es, chain) && i < |es|
    ensures !Fails(p, g.sectorSize, es[i]) && es[i].offset != 0
    ensures Taken(p, g.sectorSize, es[i]) == ClusterAt(heap, chain[i])
  {
    hide Unreadable, Placement.ClusterToOffset;
    NoClusterOffset(g, chain[i]);
  }

  /** The content of a cluster, and of clusters one after the other. */
  ghost function ClusterAt(heap: seq<seq<byte>>, c: u32): seq<byte> {
    if InMap(c, |heap|) then heap[c - FIRST_DATA] else []
  }

  ghost function Joined(heap: seq<seq<byte>>, chain: seq<u32>): seq<byte> {
    if chain == [] then [] else Joined(heap, chain[..|chain| - 1]) + ClusterAt(heap, chain[|chain| - 1])
  }

  lemma {:induction false} PiecesGathered(p: Partition, g: Placement, heap: seq<seq<byte>>, es: seq<Extent>,
                                          chain: seq<u32>)
    requires g.Valid() && Holds(p, g, heap) && WholePieces(p, g, heap, es, chain)
    ensures Gathered(p, g.sectorSize, es) == Joined(heap, chain)
  {
    hide Taken, Fails, Holds, Unreadable, Placement.ClusterSize, Placement.ClusterToOffset;
    if es != [] {
      var n := |es| - 1;
      PiecesGathered(p, g, heap, es[..n], chain[..n]);
      ClusterTaken(p, g, heap, es, chain, n);
    }
  }

  /** Pieces that can be read and one that is not there give the pieces, in either mode. */
  lemma PiecesRecovered(p: Partition, g: Placement, heap: seq<seq<byte>>, es: seq<Extent>, chain: seq<u32>, mode: Mode)
    requires g.Valid() && Holds(p, g, heap) && es != [] && es[|es| - 1].offset == 0
    requires WholePieces(p, g, heap, es[..|es| - 1], chain)
    ensures Recovered(p, g.sectorSize, es, mode) == Joined(heap, chain)
  {
    hide Taken, Fails, Gathered, Holds, Joined, Unreadable, Placement.ClusterSize, Placement.ClusterToOffset;
    var k := |es| - 1;
    PiecesGathered(p, g, heap, es[..k], chain);
    forall i | 0 <= i < k
      ensures !Fails(p, g.sectorSize, es[i])
    {
      ClusterTaken(p, g, heap, es[..k], chain, i);
      assert es[..k][i] == es[i];
    }
    assert es[..k + 1] == es;
    GatheredOne(p, g.sectorSize, es, k + 1);
    NothingTaken(p, g.sectorSize, es[k]);
    NoFailure(p, g.sectorSize, es, 0);
    assert es[..|es|] == es;
  }

  /** A chain that is lost after `k` clusters gives back those clusters, in either mode, if they can be read. */
  lemma LostChainRecovered(p: Partition, g: Placement, heap: seq<seq<byte>>, fat: seq<u32>, f: File,
                           chain: seq<u32>, mode: Mode)
    requires g.Valid() && Holds(p, g, heap) && f.start >= 2 && f.size > 0 && g.ClusterSize() > 0
    requires LostAt(fat, f, |chain|) && |chain| < ClustersFor(f.size, g.ClusterSize())
    requires chain == Chain(fat, f.contiguous, f.start, |chain|)
    requires forall i :: 0 <= i < |chain| ==> Readable(p, g, |heap|, chain[i])
    ensures Recovered(p, g.sectorSize, Listed(g, fat, f), mode) == Joined(heap, chain)
  {
    ListedMeans(g, fat, f);
    hide Holds, Joined, Recovered, Placement.ClusterSize, Placement.ClusterToOffset, Nth, Listed, LostAt, Unreadable,
         ClustersFor, Findable;
    PiecesRecovered(p, g, heap, Listed(g, fat, f), chain, mode);
  }

  /** The cluster is in the heap, and none of its sectors is bad. */
  ghost predicate Readable(p: Partition, g: Placement, clusters: nat, c: u32)
    requires g.sectorSize > 0
  {
    InMap(c, clusters) && !Unreadable(p, g.sectorSize, g.ClusterToOffset(c), g.ClusterSize())
  }

  lemma NothingTaken(p: Partition, sectorSize: nat, e: Extent)
    requires sectorSize > 0 && e.offset == 0
    ensures Taken(p, sectorSize, e) == []
  {
  }

  lemma {:induction false} NoFailure(p: Partition, sectorSize: nat, es: seq<Extent>, i: nat)
    requires sectorSize > 0 && i <= |es|
    requires forall j :: i <= j < |es| ==> es[j].offset == 0 || !Fails(p, sectorSize, es[j])
    ensures FirstFailure(p, sectorSize, es, i) == |es|
    decreases |es| - i
  {
    hide Fails;
    if i < |es| {
      NoFailure(p, sectorSize, es, i + 1);
    }
  }

  /** A byte is lost exactly if its piece, a cluster or what the file has of its last one, meets a bad sector. */
  lemma LostExactly<K>(p: Partition, g: Placement, d: Disk<K>, k: K, b: nat)
    requires Stores(p, g, d) && k in d.files && b < d.files[k].size
    ensures var cs, size := d.clusterSize, d.files[k].size;
            var n := b / cs;
            && n < |ChainOf(d, k)|
            && var at, len := g.ClusterToOffset(ChainOf(d, k)[n]), if (n + 1) * cs <= size then cs else size - n * cs;
               Lost(p, g, d, k, b) <==> exists i :: at <= i < at + len && i / g.sectorSize in p.bad
  {
    hide FilesOk, OwnedUsed, Disjoint, NoLeak, ClustersFor, Placement.ClusterToOffset, Placement.ClusterSize, ExtentsOf,
         ChainOf, Uniform, Holds, Unreadable;
    BlockInFile(d, k, b);
    var n := Block(b, d.clusterSize);
    ExtentIs(g, d, k, n);
    PieceLength(d.files[k].size, d.clusterSize, n);
    PieceInside(p, g, d, k, n);
    UnreadableMeans(p, g.sectorSize, ExtentsOf(g, d, k)[n].offset, ExtentsOf(g, d, k)[n].size);
  }

  lemma UnreadableMeans(p: Partition, sectorSize: nat, offset: nat, size: nat)
    requires sectorSize > 0
    ensures Unreadable(p, sectorSize, offset, size)
            <==> exists i :: offset <= i < offset + size && i / sectorSize in p.bad
  {
    if i :| offset <= i < offset + size && i / sectorSize in p.bad {
      assert Block(i, sectorSize) in p.bad;
    }
    if i :| offset <= i < offset + size && Block(i, sectorSize) in p.bad {
      assert i / sectorSize in p.bad;
    }
  }

  lemma PieceLength(bytes: nat, size: nat, i: nat)
    requires size > 0 && i < ClustersFor(bytes, size)
    ensures (if i == ClustersFor(bytes, size) - 1 && bytes % size != 0 then bytes % size else size)
            == if (i + 1) * size <= bytes then size else bytes - i * size
  {
    hide ClustersFor;
    ExtentSize(bytes, size, i);
    OneMore(i, size);
    assert At(i, size) == i * size && At(i + 1, size) == (i + 1) * size;
  }

  lemma PieceInside<K>(p: Partition, g: Placement, d: Disk<K>, k: K, i: nat)
    requires Stores(p, g, d) && k in d.files && i < Layout.Count(d, k)
    ensures i < |ExtentsOf(g, d, k)| && ExtentsOf(g, d, k)[i].offset + ExtentsOf(g, d, k)[i].size <= |p.bytes|
  {
    hide FilesOk, OwnedUsed, Disjoint, NoLeak, ClustersFor, Placement.ClusterToOffset, Placement.ClusterSize, ExtentsOf,
         ChainOf, At;
    ExtentIs(g, d, k, i);
    ExtentSize(d.files[k].size, d.clusterSize, i);
    InPartition(p, g, d, k, i);
  }

  lemma InPartition<K>(p: Partition, g: Placement, d: Disk<K>, k: K, i: nat)
    requires Stores(p, g, d) && k in d.files && i < Layout.Count(d, k)
    ensures g.ClusterToOffset(ChainOf(d, k)[i]) + d.clusterSize <= |p.bytes|
  {
    hide FileOk, OwnedUsed, Disjoint, NoLeak, ClustersFor, Placement.ClusterToOffset, Placement.ClusterSize, Chain,
         Uniform;
    ChainInHeap(d, k);
    assert InMap(ChainOf(d, k)[i], |d.heap|);
  }
}
