/** Turning a file's clusters into a list of extents, and copying those extents off the partition. */
module Restore {
  import opened Clusters
  import opened Content
  import opened Layout
  import opened Device

  /** A stretch of the partition; offset 0 means that there is none. */
  datatype Extent = Extent(offset: nat, size: nat)

  datatype Mode = OnlyGood | All

  /** The number of clusters as the recovery tool counts them. */
  function CalcNumClusters(bytes: nat, clusterSize: nat): nat
    requires clusterSize > 0
  {
    if bytes % clusterSize != 0 then bytes / clusterSize + 1 else bytes / clusterSize
  }

  /** It counts what libexfat counts. */
  lemma CountsAgree(bytes: nat, clusterSize: nat)
    requires clusterSize > 0
    ensures CalcNumClusters(bytes, clusterSize) == ClustersFor(bytes, clusterSize)
  {
    var q := bytes / clusterSize;
    assert bytes == q * clusterSize + bytes % clusterSize;
    OneMore(q, clusterSize);
    if bytes % clusterSize == 0 && q > 0 {
      OneMore(q - 1, clusterSize);
    }
    ClustersForUnique(bytes, clusterSize, CalcNumClusters(bytes, clusterSize));
  }

  /** One whole cluster for each of the first `n` clusters of the file. */
  function Whole(g: Placement, fat: seq<u32>, f: File, n: nat): (e: seq<Extent>)
    ensures |e| == n
    ensures forall i :: 0 <= i < n ==>
              e[i] == Extent(g.ClusterToOffset(Nth(fat, f.contiguous, f.start, i)), g.ClusterSize())
  {
    seq(n, i requires 0 <= i < n => Extent(g.ClusterToOffset(Nth(fat, f.contiguous, f.start, i)), g.ClusterSize()))
  }

  /** The extents of a file: whole clusters, the last one cut to the bytes that remain. */
  function Extents(g: Placement, fat: seq<u32>, f: File, n: nat): seq<Extent>
    requires g.ClusterSize() > 0 && n > 0
  {
    var e, rest := Whole(g, fat, f, n), f.size % g.ClusterSize();
    if rest != 0 then e[n - 1 := Extent(e[n - 1].offset, rest)] else e
  }

  /** The first of the file's clusters from number `i` on that cannot be found, or `n`. */
  function FirstLost(fat: seq<u32>, f: File, i: nat, n: nat): (j: nat)
    requires i <= n
    ensures i <= j <= n
    ensures forall k :: i <= k < j ==> Nth(fat, f.contiguous, f.start, k) != BAD
    ensures j < n ==> Nth(fat, f.contiguous, f.start, j) == BAD
    decreases n - i
  {
    if i == n || Nth(fat, f.contiguous, f.start, i) == BAD then i else FirstLost(fat, f, i + 1, n)
  }

  /** What the extent list of a file should be: nothing for an empty file; an empty extent where the chain is
      lost; otherwise all of its clusters. */
  function Listed(g: Placement, fat: seq<u32>, f: File): seq<Extent>
    requires g.ClusterSize() > 0 && (f.start >= FIRST_DATA ==> f.size > 0)
  {
    if f.start < FIRST_DATA then [Extent(0, g.ClusterSize())]
    else
      ClustersForBounds(f.size, g.ClusterSize());
      var n := ClustersFor(f.size, g.ClusterSize());
      var j := FirstLost(fat, f, 1, n);
      if j < n then Whole(g, fat, f, j) + [Extent(0, 0)] else Extents(g, fat, f, n)
  }

  lemma {:induction false} LostIs(fat: seq<u32>, f: File, i: nat, j: nat, n: nat)
    requires i <= j <= n
    requires forall k :: i <= k < j ==> Nth(fat, f.contiguous, f.start, k) != BAD
    requires j < n ==> Nth(fat, f.contiguous, f.start, j) == BAD
    ensures FirstLost(fat, f, i, n) == j
    decreases j - i
  {
    hide Nth;
    if i < j {
      LostIs(fat, f, i + 1, j, n);
    }
  }

  /** None of the first `n` clusters but the start is the mark of a place that cannot be found. */
  predicate Findable(fat: seq<u32>, f: File, n: nat) {
    forall i :: 1 <= i < n ==> Nth(fat, f.contiguous, f.start, i) != 0xffff_fff7
  }

  /** The first of those is at number `k`. */
  predicate LostAt(fat: seq<u32>, f: File, k: nat) {
    k >= 1 && Findable(fat, f, k) && Nth(fat, f.contiguous, f.start, k) == 0xffff_fff7
  }

  /** What an extent list says of a file: nothing of one without clusters; all of its clusters, the last one cut to the
      bytes that remain, if they can be found; and otherwise all up to the first that cannot, and an empty extent. */
  ghost predicate Lists(g: Placement, fat: seq<u32>, f: File, out: seq<Extent>)
    requires g.ClusterSize() > 0
  {
    var n, rest := ClustersFor(f.size, g.ClusterSize()), f.size % g.ClusterSize();
    && (f.start < 2 ==> out == [Extent(0, g.ClusterSize())])
    && (f.start >= 2 && Findable(fat, f, n) ==>
          && |out| == n
          && forall i :: 0 <= i < |out| ==>
               out[i] == Extent(g.ClusterToOffset(Nth(fat, f.contiguous, f.start, i)),
                                if i == n - 1 && rest != 0 then rest else g.ClusterSize()))
    && forall k: nat :: f.start >= 2 && LostAt(fat, f, k) && k < n ==>
         && |out| == k + 1 && out[k] == Extent(0, 0)
         && forall i :: 0 <= i < k ==>
              out[i] == Extent(g.ClusterToOffset(Nth(fat, f.contiguous, f.start, i)), g.ClusterSize())
  }

  lemma ListedMeans(g: Placement, fat: seq<u32>, f: File)
    requires g.Valid() && g.ClusterSize() > 0 && (f.start >= FIRST_DATA ==> f.size > 0)
    ensures Lists(g, fat, f, Listed(g, fat, f))
  {
    hide Placement.ClusterToOffset, Placement.ClusterSize, ClustersFor, Nth;
    ClustersForBounds(f.size, g.ClusterSize());
    var n := ClustersFor(f.size, g.ClusterSize());
    if f.start >= 2 {
      if Findable(fat, f, n) {
        LostIs(fat, f, 1, n, n);
      }
      forall k: nat | LostAt(fat, f, k) && k < n
        ensures FirstLost(fat, f, 1, n) == k
      {
        LostIs(fat, f, 1, k, n);
      }
    }
  }

  method GetOffsets(g: Placement, fat: seq<u32>, f: File) returns (out: seq<Extent>)
    requires g.Valid() && g.ClusterSize() > 0 && f.size < 0x1_0000_0000_0000_0000
    requires f.start < FIRST_DATA || f.size > 0
    ensures out == Listed(g, fat, f)
    ensures Lists(g, fat, f, out)
  {
    hide Lists, Placement.ClusterToOffset, Placement.ClusterSize, ClustersFor, CalcNumClusters, Nth;
    CountsAgree(f.size, g.ClusterSize());
    ClustersForBounds(f.size, g.ClusterSize());
    ClustersAtMost(f.size, g.ClusterSize());
    NoClusterOffset(g, f.start);
    NthStart(fat, f.contiguous, f.start);
    ghost var n := ClustersFor(f.size, g.ClusterSize());
    var calcClusters := (CalcNumClusters(f.size, g.ClusterSize()) - 1) % 0x1_0000_0000_0000_0000;
    var next := f.start;
    out := [Extent(g.ClusterToOffset(next), g.ClusterSize())];
    if out[0].offset == 0 {
      ListedMeans(g, fat, f);
      return;
    }
    var i := 0;
    while i < calcClusters
      invariant i <= calcClusters == n - 1
      invariant next == Nth(fat, f.contiguous, f.start, i)
      invariant out == Whole(g, fat, f, i + 1)
      invariant forall j :: 1 <= j < i + 1 ==> Nth(fat, f.contiguous, f.start, j) != BAD
    {
      NthNext(fat, f, i);
      next := Next(fat, f.contiguous, next);
      if next == BAD {
        LostIs(fat, f, 1, i + 1, n);
        out := out + [Extent(0, 0)];
        ListedMeans(g, fat, f);
        return;
      }
      out := out + [Extent(g.ClusterToOffset(next), g.ClusterSize())];
      assert out == Whole(g, fat, f, i + 2);
      i := i + 1;
    }
    LostIs(fat, f, 1, n, n);
    var lastBytes := f.size % g.ClusterSize();
    if lastBytes != 0 {
      out := out[calcClusters := Extent(out[calcClusters].offset, lastBytes)];
    }
    ListedMeans(g, fat, f);
  }

  lemma NthNext(fat: seq<u32>, f: File, i: nat)
    ensures Nth(fat, f.contiguous, f.start, i + 1) == Next(fat, f.contiguous, Nth(fat, f.contiguous, f.start, i))
  {
  }

  lemma ClustersAtMost(bytes: nat, clusterSize: nat)
    requires clusterSize > 0
    ensures ClustersFor(bytes, clusterSize) <= bytes
  {
    var n := ClustersFor(bytes, clusterSize);
    ClustersForBounds(bytes, clusterSize);
    if n > 0 {
      ProductMonotone(1, clusterSize, n - 1);
    }
  }

  /** Reading an extent fails when it leaves the partition or meets a bad sector. */
  ghost predicate Fails(p: Partition, sectorSize: nat, e: Extent)
    requires sectorSize > 0
  {
    e.offset + e.size > |p.bytes| || Unreadable(p, sectorSize, e.offset, e.size)
  }

  /** The bytes of one extent; zeros if it cannot be read, nothing if there is none. */
  ghost function Taken(p: Partition, sectorSize: nat, e: Extent): seq<byte>
    requires sectorSize > 0
  {
    if e.offset == 0 then []
    else if Fails(p, sectorSize, e) then Zeros(e.size)
    else p.bytes[e.offset..e.offset + e.size]
  }

  ghost function Gathered(p: Partition, sectorSize: nat, extents: seq<Extent>): seq<byte>
    requires sectorSize > 0
  {
    if extents == [] then []
    else Gathered(p, sectorSize, extents[..|extents| - 1]) + Taken(p, sectorSize, extents[|extents| - 1])
  }

  /** The first extent from number `i` on that exists and cannot be read, or the number of extents. */
  ghost function FirstFailure(p: Partition, sectorSize: nat, extents: seq<Extent>, i: nat): (j: nat)
    requires sectorSize > 0 && i <= |extents|
    ensures i <= j <= |extents|
    ensures forall k :: i <= k < j ==> extents[k].offset == 0 || !Fails(p, sectorSize, extents[k])
    ensures j < |extents| ==> extents[j].offset != 0 && Fails(p, sectorSize, extents[j])
    decreases |extents| - i
  {
    if i == |extents| || (extents[i].offset != 0 && Fails(p, sectorSize, extents[i])) then i
    else FirstFailure(p, sectorSize, extents, i + 1)
  }

  /** The restored file: everything, or, keeping only what is good, everything before the first failure. */
  ghost function Recovered(p: Partition, sectorSize: nat, extents: seq<Extent>, mode: Mode): seq<byte>
    requires sectorSize > 0
  {
    Gathered(p, sectorSize, if mode == OnlyGood then extents[..FirstFailure(p, sectorSize, extents, 0)] else extents)
  }

  /** The device call: whether it threw, and the buffer, which stays zero if it did. */
  method ReadPartition(p: Partition, sectorSize: nat, e: Extent) returns (failed: bool, buffer: seq<byte>)
    requires sectorSize > 0
    ensures failed == Fails(p, sectorSize, e)
    ensures |buffer| == e.size && buffer == if failed then Zeros(e.size) else p.bytes[e.offset..e.offset + e.size]
  {
    buffer := Zeros(e.size);
    if e.offset + e.size > |p.bytes| {
      return true, buffer;
    }
    var i := e.offset;
    while i < e.offset + e.size
      invariant e.offset <= i
      invariant forall k :: e.offset <= k < i && k < e.offset + e.size ==> Block(k, sectorSize) !in p.bad
    {
      if Block(i, sectorSize) in p.bad {
        return true, buffer;
      }
      i := i + 1;
    }
    return false, p.bytes[e.offset..e.offset + e.size];
  }

  method RecoverUnit(p: Partition, sectorSize: nat, extents: seq<Extent>, mode: Mode) returns (file: seq<byte>)
    requires sectorSize > 0
    ensures file == Recovered(p, sectorSize, extents, mode)
  {
    hide Fails, Taken, Gathered;
    GatheredNone(p, sectorSize);
    file := [];
    for i := 0 to |extents|
      invariant file == Gathered(p, sectorSize, extents[..i])
      invariant mode == OnlyGood ==> FirstFailure(p, sectorSize, extents, 0) == FirstFailure(p, sectorSize, extents, i)
    {
      GatheredNext(p, sectorSize, extents, i);
      if extents[i].offset == 0 {
        continue;
      }
      var failed, buffer := ReadPartition(p, sectorSize, extents[i]);
      if failed {
        if mode == OnlyGood {
          break;
        }
      }
      file := file + buffer;
    }
    assert extents[..|extents|] == extents;
  }

  lemma GatheredNone(p: Partition, sectorSize: nat)
    requires sectorSize > 0
    ensures Gathered(p, sectorSize, []) == []
  {
  }

  lemma GatheredNext(p: Partition, sectorSize: nat, extents: seq<Extent>, i: nat)
    requires sectorSize > 0 && i < |extents|
    ensures Gathered(p, sectorSize, extents[..i + 1])
            == Gathered(p, sectorSize, extents[..i])
               + if extents[i].offset == 0 then []
                 else if Fails(p, sectorSize, extents[i]) then Zeros(extents[i].size)
                 else p.bytes[extents[i].offset..extents[i].offset + extents[i].size]
  {
    assert extents[..i + 1][..i] == extents[..i];
  }
}
