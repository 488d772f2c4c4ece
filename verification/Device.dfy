/** Where clusters lie on the partition, in sectors and in bytes, and reading the partition. */
module Device {
  import opened Clusters
  import opened Content

  /** The superblock fields that place the cluster heap. Sizes are powers of two in the source, kept there
      as shift counts. */
  datatype Placement = Placement(sectorSize: nat, sectorsPerCluster: nat, heapStart: nat) {
    ghost predicate Valid() {
      sectorSize > 0 && sectorsPerCluster > 0 && heapStart > 0
    }

    function ClusterSize(): nat {
      sectorSize * sectorsPerCluster
    }

    function SectorToOffset(sector: nat): nat {
      sector * sectorSize
    }

    /** Sector 0 stands for "no cluster". */
    function ClusterToSector(c: u32): nat {
      if c < FIRST_DATA then 0 else heapStart + (c - FIRST_DATA) * sectorsPerCluster
    }

    function ClusterToOffset(c: u32): nat {
      SectorToOffset(ClusterToSector(c))
    }

    function SectorToCluster(sector: nat): int
      requires sectorsPerCluster > 0
    {
      (sector - heapStart) / sectorsPerCluster + FIRST_DATA
    }
  }

  lemma OffsetOfCluster(g: Placement, c: u32)
    requires g.Valid() && c >= FIRST_DATA
    ensures g.ClusterToOffset(c) == g.heapStart * g.sectorSize + (c - FIRST_DATA) * g.ClusterSize()
  {
    var k, spc, ss := c - FIRST_DATA, g.sectorsPerCluster, g.sectorSize;
    assert (g.heapStart + k * spc) * ss == g.heapStart * ss + (k * spc) * ss;
    assert (k * spc) * ss == k * (ss * spc);
  }

  /** Every sector of a cluster is mapped back to it. */
  lemma SectorRoundTrip(g: Placement, c: u32, i: nat)
    requires g.Valid() && c >= FIRST_DATA && i < g.sectorsPerCluster
    ensures g.SectorToCluster(g.ClusterToSector(c) + i) == c
  {
    QuotientOf(c - FIRST_DATA, i, g.sectorsPerCluster);
  }

  lemma PositiveProduct(a: nat, b: nat)
    requires a > 0 && b > 0
    ensures a * b > 0
  {
  }

  /** Offset 0 means "no cluster". */
  lemma NoClusterOffset(g: Placement, c: u32)
    requires g.Valid()
    ensures g.ClusterToOffset(c) == 0 <==> c < FIRST_DATA
  {
    if c >= FIRST_DATA {
      PositiveProduct(g.ClusterToSector(c), g.sectorSize);
    }
  }

  /** Different clusters do not overlap. */
  lemma ClustersApart(g: Placement, c: u32, c': u32)
    requires g.Valid() && FIRST_DATA <= c < c'
    ensures g.ClusterToOffset(c) + g.ClusterSize() <= g.ClusterToOffset(c')
  {
    OffsetOfCluster(g, c);
    OffsetOfCluster(g, c');
    ProductMonotone(c - FIRST_DATA + 1, c' - FIRST_DATA, g.ClusterSize());
    OneMore(c - FIRST_DATA, g.ClusterSize());
    hide Placement.ClusterToOffset, Placement.ClusterSize;
  }

  lemma OneMore(k: nat, size: nat)
    ensures (k + 1) * size == k * size + size
  {
  }

  /** A partition: its bytes, and the sectors that cannot be read. */
  datatype Partition = Partition(bytes: seq<byte>, bad: set<nat>)

  ghost predicate Unreadable(p: Partition, sectorSize: nat, offset: nat, size: nat)
    requires sectorSize > 0
  {
    exists i :: offset <= i < offset + size && Block(i, sectorSize) in p.bad
  }

  /** The cluster heap that the partition holds, cluster by cluster. */
  ghost predicate Holds(p: Partition, g: Placement, heap: seq<seq<byte>>) {
    forall c: u32 :: InMap(c, |heap|) ==>
      && g.ClusterToOffset(c) + g.ClusterSize() <= |p.bytes|
      && heap[c - FIRST_DATA] == p.bytes[g.ClusterToOffset(c)..g.ClusterToOffset(c) + g.ClusterSize()]
  }
}
