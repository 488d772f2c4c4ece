/** Where a directory's entries lie: a directory is a file, and its entries are in the clusters of its chain. */
module Positions {
  import opened Clusters
  import opened Content
  import opened Entries
  import opened Files
  import opened FileSpec
  import opened Layout
  import opened Views

  /** Sectors, and so clusters, are at least this long. */
  const SECTOR_MIN: nat := 512

  /** A directory's bytes as entries. */
  function Slots(b: seq<byte>): (es: seq<Slot>)
    requires |b| % ENTRY_SIZE == 0
    ensures |es| == |b| / ENTRY_SIZE
    ensures forall i :: 0 <= i < |es| ==> es[i] == b[ENTRY_SIZE * i..ENTRY_SIZE * i + ENTRY_SIZE]
  {
    seq(|b| / ENTRY_SIZE, i requires 0 <= i < |b| / ENTRY_SIZE => b[ENTRY_SIZE * i..ENTRY_SIZE * i + ENTRY_SIZE])
  }

  lemma SlotsSplice(b: seq<byte>, i: nat, s: seq<byte>)
    requires |b| % ENTRY_SIZE == 0 && i < |b| / ENTRY_SIZE && |s| <= ENTRY_SIZE
    ensures ENTRY_SIZE * i + |s| <= |b|
    ensures Slots(Splice(b, ENTRY_SIZE * i, s)) == Slots(b)[i := s + Slots(b)[i][|s|..]]
  {
    var b' := Splice(b, ENTRY_SIZE * i, s);
    forall k | 0 <= k < |b| / ENTRY_SIZE
      ensures Slots(b')[k] == if k == i then s + Slots(b)[i][|s|..] else Slots(b)[k]
    {
      assert ENTRY_SIZE * k + ENTRY_SIZE <= |b|;
    }
  }

  lemma SlotsGrown(b: seq<byte>, n: nat)
    requires |b| % ENTRY_SIZE == 0 && n % ENTRY_SIZE == 0 && n >= |b|
    ensures |b| / ENTRY_SIZE <= n / ENTRY_SIZE
    ensures Slots(Resized(b, n))
            == Slots(b) + seq(n / ENTRY_SIZE - |b| / ENTRY_SIZE, _ => Zeros(ENTRY_SIZE))
  {
    var es, es' := Slots(b), Slots(Resized(b, n));
    forall k | 0 <= k < |es'|
      ensures es'[k] == if k < |es| then es[k] else Zeros(ENTRY_SIZE)
    {
    }
  }

  lemma SlotsCut(b: seq<byte>, n: nat)
    requires |b| % ENTRY_SIZE == 0 && n % ENTRY_SIZE == 0 && n <= |b|
    ensures n / ENTRY_SIZE <= |b| / ENTRY_SIZE
    ensures Slots(Resized(b, n)) == Slots(b)[..n / ENTRY_SIZE]
  {
    var es, es' := Slots(b), Slots(Resized(b, n));
    forall k | 0 <= k < |es'|
      ensures es'[k] == es[k]
    {
    }
  }

  /** A file that can be a directory: some whole clusters, each of them whole entries. */
  ghost predicate DirFile<K>(d: Disk<K>, k: K) {
    && Consistent(d) && k in d.files
    && d.clusterSize % ENTRY_SIZE == 0 && d.clusterSize >= SECTOR_MIN
    && d.files[k].size > 0 && d.files[k].size % d.clusterSize == 0
  }

  lemma WholeMultiple(size: nat, cs: nat)
    requires cs > 0 && cs % ENTRY_SIZE == 0 && size > 0 && size % cs == 0
    ensures size % ENTRY_SIZE == 0 && Block(size, cs) > 0 && Block(size, cs) * cs == size
    ensures (Block(size, cs) - 1) * cs < size
  {
    var q, r := size / cs, cs / ENTRY_SIZE;
    assert size == q * cs && cs == r * ENTRY_SIZE;
    assert size == q * r * ENTRY_SIZE;
    QuotientOf(q * r, 0, ENTRY_SIZE);
  }

  lemma WholeEntries<K>(d: Disk<K>, k: K)
    requires DirFile(d, k)
    ensures d.files[k].size % ENTRY_SIZE == 0 && |Bytes(d, k)| == d.files[k].size
    ensures |ChainOf(d, k)| * d.clusterSize == d.files[k].size && |ChainOf(d, k)| > 0
  {
    hide FilesOk, OwnedUsed, Disjoint, NoLeak, Uniform, Block, ClustersFor, Bytes;
    WholeMultiple(d.files[k].size, d.clusterSize);
    ClustersForUnique(d.files[k].size, d.clusterSize, Block(d.files[k].size, d.clusterSize));
  }

  ghost function EntriesOf<K>(d: Disk<K>, k: K): (es: seq<Slot>)
    requires DirFile(d, k)
  {
    WholeEntries(d, k);
    Slots(Bytes(d, k))
  }

  /** `cluster` is the one that holds the entry at `offset`. */
  ghost predicate Here<K>(d: Disk<K>, k: K, cluster: u32, offset: nat) {
    && d.clusterSize > 0 && k in d.files
    && offset % ENTRY_SIZE == 0 && offset < d.files[k].size
    && Block(offset, d.clusterSize) < |ChainOf(d, k)|
    && cluster == ChainOf(d, k)[Block(offset, d.clusterSize)]
  }

  lemma StartHere<K>(d: Disk<K>, k: K)
    requires DirFile(d, k)
    ensures !Invalid(d.files[k].start) && Here(d, k, d.files[k].start, 0)
  {
    WholeEntries(d, k);
    ChainInHeap(d, k);
    ChainStart(d.fat, d.files[k].contiguous, d.files[k].start, |ChainOf(d, k)|);
  }

  /** From one entry to the next, into the next cluster where one ends. */
  lemma NextHere<K>(d: Disk<K>, k: K, cluster: u32, offset: nat)
    requires DirFile(d, k) && Here(d, k, cluster, offset) && offset + ENTRY_SIZE < d.files[k].size
    ensures var next := Next(d.fat, d.files[k].contiguous, cluster);
            if (offset + ENTRY_SIZE) % d.clusterSize == 0 then !Invalid(next) && Here(d, k, next, offset + ENTRY_SIZE)
            else Here(d, k, cluster, offset + ENTRY_SIZE)
  {
    hide FilesOk, OwnedUsed, Disjoint, NoLeak, Uniform, Block, Within, ClustersFor, ChainOf, Count, Next, Nth, CursorOk,
         ViewOf, Raw, Bytes, Distinct, Chain;
    WholeEntries(d, k);
    ReadyToWalk(d, k);
    var cs, chain := d.clusterSize, ChainOf(d, k);
    QuotientBelow(offset + ENTRY_SIZE, cs, |chain|);
    NextPlace(offset, cs);
    if (offset + ENTRY_SIZE) % cs == 0 {
      ChainNext(d.fat, d.files[k].contiguous, d.files[k].start, |chain|, Block(offset, cs));
      assert InMap(chain[Block(offset, cs) + 1], |d.heap|);
    }
  }

  lemma NextPlace(offset: nat, cs: nat)
    requires cs > 0 && cs % ENTRY_SIZE == 0 && offset % ENTRY_SIZE == 0
    ensures Block(offset + ENTRY_SIZE, cs) == Block(offset, cs) + if (offset + ENTRY_SIZE) % cs == 0 then 1 else 0
  {
    EntryFits(offset, cs);
    var q, r := Block(offset, cs), Within(offset, cs);
    if r + ENTRY_SIZE == cs {
      assert offset + ENTRY_SIZE == (q + 1) * cs + 0;
      QuotientOf(q + 1, 0, cs);
    } else {
      assert offset + ENTRY_SIZE == q * cs + (r + ENTRY_SIZE);
      QuotientOf(q, r + ENTRY_SIZE, cs);
    }
  }

  /** An entry does not straddle clusters. */
  lemma EntryFits(offset: nat, cs: nat)
    requires cs > 0 && cs % ENTRY_SIZE == 0 && offset % ENTRY_SIZE == 0
    ensures offset == Block(offset, cs) * cs + Within(offset, cs)
    ensures Within(offset, cs) % ENTRY_SIZE == 0 && Within(offset, cs) + ENTRY_SIZE <= cs
  {
    var q, r := offset / cs, offset % cs;
    assert offset == q * cs + r;
    var m := cs / ENTRY_SIZE;
    assert cs == m * ENTRY_SIZE;
    assert q * cs == q * m * ENTRY_SIZE;
    assert r == (offset / ENTRY_SIZE - q * m) * ENTRY_SIZE;
  }

  /** What a directory's iterator reads at its position is the entry there. */
  lemma EntryHere<K>(d: Disk<K>, k: K, cluster: u32, offset: nat)
    requires DirFile(d, k) && Here(d, k, cluster, offset)
    ensures offset / ENTRY_SIZE < |EntriesOf(d, k)|
    ensures var w := Within(offset, d.clusterSize);
            && InMap(cluster, |d.heap|) && |d.heap[cluster - FIRST_DATA]| == d.clusterSize
            && w + ENTRY_SIZE <= d.clusterSize
            && d.heap[cluster - FIRST_DATA][w..w + ENTRY_SIZE] == EntriesOf(d, k)[offset / ENTRY_SIZE]
  {
    hide FilesOk, OwnedUsed, Disjoint, NoLeak, Block, Within, ClustersFor, ChainOf, Count, CursorOk, Bytes, Raw;
    WholeEntries(d, k);
    ReadyToWalk(d, k);
    EntryFits(offset, d.clusterSize);
    var cs, chain := d.clusterSize, ChainOf(d, k);
    assert InMap(chain[Block(offset, cs)], |d.heap|);
    ReadInChain(d.heap, cs, chain, Block(offset, cs), Within(offset, cs), ENTRY_SIZE);
    BytesAre(d, k);
    assert offset == ENTRY_SIZE * (offset / ENTRY_SIZE);
  }

  lemma BytesAre<K>(d: Disk<K>, k: K)
    requires DirFile(d, k)
    ensures InHeap(ChainOf(d, k), d.heap) && Bytes(d, k) == Raw(d.heap, d.clusterSize, ChainOf(d, k))
  {
    WholeEntries(d, k);
    ChainInHeap(d, k);
  }

  /** Bytes written at an entry's place on the device change that entry and nothing else of any file. */
  lemma WriteHere<K>(d: Disk<K>, k: K, cluster: u32, offset: nat, b: seq<byte>)
    requires DirFile(d, k) && Here(d, k, cluster, offset) && |b| <= ENTRY_SIZE
    ensures var w := Within(offset, d.clusterSize);
            && InMap(cluster, |d.heap|) && |d.heap[cluster - FIRST_DATA]| == d.clusterSize && w + |b| <= d.clusterSize
    ensures var w := Within(offset, d.clusterSize);
            var d' := d.(heap := Write(d.heap, cluster, w, b));
            var i := offset / ENTRY_SIZE;
            && DirFile(d', k) && i < |EntriesOf(d, k)|
            && offset + |b| <= |Bytes(d, k)|
            && ViewOf(d') == ViewOf(d).(files := ViewOf(d).files[k := Splice(Bytes(d, k), offset, b)])
            && EntriesOf(d', k) == EntriesOf(d, k)[i := b + EntriesOf(d, k)[i][|b|..]]
  {
    hide FilesOk, OwnedUsed, Disjoint, NoLeak, Uniform, ChainOf, Count, Block, Within, CursorOk, Bytes, Splice, ViewOf,
         Wrote, Write, Slots, ClustersFor;
    WholeEntries(d, k);
    ReadyToWalk(d, k);
    EntryFits(offset, d.clusterSize);
    var cs, chain := d.clusterSize, ChainOf(d, k);
    var q, w := Block(offset, cs), Within(offset, cs);
    EntryHere(d, k, cluster, offset);
    WroteNothing(d.heap, cs, chain, q * cs + w);
    WroteMore(d.heap, cs, chain, q * cs + w, [], d.heap, q, w, b);
    assert [] + b == b;
    var f, heap' := d.files[k], Write(d.heap, cluster, w, b);
    WrittenView(d, k, offset, b, heap', f);
    SameButHeap(d, k, heap');
    assert offset == ENTRY_SIZE * (offset / ENTRY_SIZE);
    SlotsSplice(Bytes(d, k), offset / ENTRY_SIZE, b);
    BytesIn(d.(heap := heap'), k);
    BytesIn(d, k);
  }

  lemma SameButHeap<K>(d: Disk<K>, k: K, heap: seq<seq<byte>>)
    requires k in d.files
    ensures Replaced(d, k, d.fat, d.used, heap, d.files[k]) == d.(heap := heap)
  {
    assert d.files[k := d.files[k]] == d.files;
  }

  lemma BytesIn<K>(d: Disk<K>, k: K)
    requires Consistent(d) && k in d.files
    ensures k in ViewOf(d).files && ViewOf(d).files[k] == Bytes(d, k)
  {
  }

  // --- what one step on the device does to the directory ---

  /** `d'` differs from `d` in the content of the directory `k` only. */
  ghost predicate OnlyContent<K>(d: Disk<K>, k: K, d': Disk<K>) {
    && DirFile(d, k) && DirFile(d', k)
    && d' == d.(heap := d'.heap)
    && ViewOf(d') == ViewOf(d).(files := ViewOf(d).files[k := Bytes(d', k)])
  }

  ghost predicate SlotWritten<K>(d: Disk<K>, k: K, i: nat, e: Slot, d': Disk<K>) {
    OnlyContent(d, k, d') && i < |EntriesOf(d, k)| && EntriesOf(d', k) == EntriesOf(d, k)[i := e]
  }

  /** A whole entry written at its place. */
  lemma SlotPut<K>(d: Disk<K>, k: K, cluster: u32, offset: nat, e: Slot)
    requires DirFile(d, k) && Here(d, k, cluster, offset)
    ensures var w := Within(offset, d.clusterSize);
            && InMap(cluster, |d.heap|) && |d.heap[cluster - FIRST_DATA]| == d.clusterSize && w + |e| <= d.clusterSize
            && SlotWritten(d, k, offset / ENTRY_SIZE, e, d.(heap := Write(d.heap, cluster, w, e)))
  {
    hide Consistent, Within, Write, Splice, Slots, Bytes, Block, ChainOf;
    WriteHere(d, k, cluster, offset, e);
    WrittenBytes(d, k, cluster, offset, e);
    var es, i := EntriesOf(d, k), offset / ENTRY_SIZE;
    assert e + es[i][|e|..] == e;
  }

  /** The first byte of an entry, its type, written at its place. */
  lemma TypePut<K>(d: Disk<K>, k: K, cluster: u32, offset: nat, t: byte)
    requires DirFile(d, k) && Here(d, k, cluster, offset)
    ensures var w := Within(offset, d.clusterSize); var i := offset / ENTRY_SIZE;
            && InMap(cluster, |d.heap|) && |d.heap[cluster - FIRST_DATA]| == d.clusterSize && w + 1 <= d.clusterSize
            && i < |EntriesOf(d, k)|
            && SlotWritten(d, k, i, EntriesOf(d, k)[i][0 := t], d.(heap := Write(d.heap, cluster, w, [t])))
  {
    hide Consistent, Within, Write, Splice, Slots, Bytes, Block, ChainOf;
    WriteHere(d, k, cluster, offset, [t]);
    WrittenBytes(d, k, cluster, offset, [t]);
    var es, i := EntriesOf(d, k), offset / ENTRY_SIZE;
    assert [t] + es[i][1..] == es[i][0 := t];
  }

  lemma WrittenBytes<K>(d: Disk<K>, k: K, cluster: u32, offset: nat, b: seq<byte>)
    requires DirFile(d, k) && Here(d, k, cluster, offset) && |b| <= ENTRY_SIZE
    ensures var w := Within(offset, d.clusterSize);
            && InMap(cluster, |d.heap|) && |d.heap[cluster - FIRST_DATA]| == d.clusterSize && w + |b| <= d.clusterSize
            && OnlyContent(d, k, d.(heap := Write(d.heap, cluster, w, b)))
  {
    hide Consistent, Within, Write, Splice, Slots, Bytes, Block, ChainOf;
    WriteHere(d, k, cluster, offset, b);
    BytesIn(d.(heap := Write(d.heap, cluster, Within(offset, d.clusterSize), b)), k);
  }

  lemma ContentTwice<K>(d: Disk<K>, k: K, d1: Disk<K>, d2: Disk<K>)
    requires OnlyContent(d, k, d1) && OnlyContent(d1, k, d2)
    ensures OnlyContent(d, k, d2)
  {
    hide Consistent, Bytes;
  }

  lemma ContentSame<K>(d: Disk<K>, k: K)
    requires DirFile(d, k)
    ensures OnlyContent(d, k, d)
  {
    hide Bytes;
    BytesIn(d, k);
    assert ViewOf(d).files[k := Bytes(d, k)] == ViewOf(d).files;
  }

  /** Positions do not depend on content. */
  lemma HereStill<K>(d: Disk<K>, k: K, d': Disk<K>, cluster: u32, offset: nat)
    requires OnlyContent(d, k, d')
    ensures Here(d', k, cluster, offset) == Here(d, k, cluster, offset)
  {
  }

  /** Nor do they change when a directory gets longer or shorter, as far as it still reaches. */
  lemma HereAfter<K>(d: Disk<K>, k: K, d': Disk<K>, cluster: u32, offset: nat)
    requires DirFile(d, k) && DirFile(d', k) && ChainsKept(d, k, d')
    requires Here(d, k, cluster, offset) && offset < d'.files[k].size
    ensures Here(d', k, cluster, offset)
  {
    hide Consistent, ChainOf, Block;
    WholeEntries(d', k);
    QuotientBelow(offset, d'.clusterSize, |ChainOf(d', k)|);
  }
}
