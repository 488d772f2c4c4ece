/** The entries of a directory read and written on a mounted volume. */
module Directories {
  import opened Bitmap
  import opened Checksum
  import opened Clusters
  import opened Content
  import opened Entries
  import opened Files
  import opened FileSpec
  import opened Growth
  import opened Layout
  import opened Positions
  import opened Scanning
  import opened Agreement
  import opened Upkeep
  import opened Utf
  import opened Views
  import opened Volumes

  /** A position in a directory and a copy of the cluster it is in. */
  class Iterator {
    var cluster: u32
    var offset: nat
    var chunk: seq<byte>

    constructor (cluster: u32, chunk: seq<byte>)
      ensures this.cluster == cluster && offset == 0 && this.chunk == chunk
    {
      this.cluster, this.offset, this.chunk := cluster, 0, chunk;
    }

    /** The entry at the iterator's position. */
    function Entry(clusterSize: nat): Slot
      requires clusterSize > 0 && Within(offset, clusterSize) + ENTRY_SIZE <= |chunk|
      reads this
    {
      chunk[Within(offset, clusterSize)..Within(offset, clusterSize) + ENTRY_SIZE]
    }
  }

  /** The position is that of an entry, with its cluster in hand, or the end of the directory. */
  ghost predicate Standing<K>(d: Disk<K>, k: K, cluster: u32, offset: nat, chunk: seq<byte>)
    requires DirFile(d, k)
  {
    && offset % ENTRY_SIZE == 0 && offset <= d.files[k].size
    && (offset < d.files[k].size ==>
          Here(d, k, cluster, offset) && InMap(cluster, |d.heap|) && chunk == d.heap[cluster - FIRST_DATA])
  }

  lemma EntryCount<K>(d: Disk<K>, k: K)
    requires DirFile(d, k)
    ensures ENTRY_SIZE * |EntriesOf(d, k)| == d.files[k].size
  {
    WholeEntries(d, k);
  }

  method Opendir(vol: Volume, dir: Node) returns (it: Iterator)
    requires vol.MapFits() && DirFile(vol.Snapshot(), dir)
    ensures fresh(it) && it.offset == 0 && Standing(vol.Snapshot(), dir, it.cluster, 0, it.chunk)
  {
    hide Consistent, ChainOf, Here;
    StartHere(vol.Snapshot(), dir);
    assert !Invalid(dir.startCluster);
    HereInHeap(vol.Snapshot(), dir, dir.startCluster, 0);
    it := new Iterator(dir.startCluster, vol.heap[dir.startCluster - FIRST_DATA]);
  }

  lemma HereInHeap<K>(d: Disk<K>, k: K, cluster: u32, offset: nat)
    requires DirFile(d, k) && Here(d, k, cluster, offset)
    ensures InMap(cluster, |d.heap|) && |d.heap[cluster - FIRST_DATA]| == d.clusterSize
  {
    EntryHere(d, k, cluster, offset);
  }

  /** On to the next entry, fetching the next cluster where one ends. */
  method FetchNextEntry(vol: Volume, dir: Node, it: Iterator)
    requires vol.MapFits() && DirFile(vol.Snapshot(), dir)
    requires it.offset < dir.size && Here(vol.Snapshot(), dir, it.cluster, it.offset)
    requires (it.offset + ENTRY_SIZE) % vol.clusterSize != 0 ==>
               Standing(vol.Snapshot(), dir, it.cluster, it.offset, it.chunk)
    modifies it
    ensures it.offset == old(it.offset) + ENTRY_SIZE
    ensures Standing(vol.Snapshot(), dir, it.cluster, it.offset, it.chunk)
  {
    hide Consistent, Here, Standing, Block, Within;
    ghost var d := vol.Snapshot();
    FetchPlan(d, dir, it.cluster, it.offset, it.chunk);
    it.offset := it.offset + ENTRY_SIZE;
    if it.offset % vol.clusterSize == 0 {
      if it.offset >= dir.size {
        return;
      }
      it.cluster := Next(vol.fat, dir.contiguous, it.cluster);
      assert !Invalid(it.cluster);
      it.chunk := vol.heap[it.cluster - FIRST_DATA];
    }
  }

  lemma FetchPlan<K>(d: Disk<K>, k: K, cluster: u32, offset: nat, chunk: seq<byte>)
    requires DirFile(d, k) && Here(d, k, cluster, offset)
    requires (offset + ENTRY_SIZE) % d.clusterSize != 0 ==> Standing(d, k, cluster, offset, chunk)
    ensures d.clusterSize > 0
    ensures var next := offset + ENTRY_SIZE;
            if next % d.clusterSize != 0 || next >= d.files[k].size then Standing(d, k, cluster, next, chunk)
            else
              var c := Next(d.fat, d.files[k].contiguous, cluster);
              !Invalid(c) && InMap(c, |d.heap|) && Standing(d, k, c, next, d.heap[c - FIRST_DATA])
  {
    hide FilesOk, OwnedUsed, Disjoint, NoLeak, Uniform, ChainOf, Block, Within;
    var next := offset + ENTRY_SIZE;
    EntryCount(d, k);
    NotPastEnd(offset, d.files[k].size, d.clusterSize);
    if next < d.files[k].size {
      NextHere(d, k, cluster, offset);
      if next % d.clusterSize == 0 {
        HereInHeap(d, k, Next(d.fat, d.files[k].contiguous, cluster), next);
      }
    }
  }

  lemma NotPastEnd(offset: nat, size: nat, cs: nat)
    requires cs > 0 && size % cs == 0 && size % ENTRY_SIZE == 0 && offset % ENTRY_SIZE == 0 && offset < size
    ensures offset + ENTRY_SIZE <= size
    ensures offset + ENTRY_SIZE == size ==> (offset + ENTRY_SIZE) % cs == 0
  {
  }

  /** The same without an iterator: the entry after the one at `offset`. */
  method NextEntry(vol: Volume, dir: Node, cluster: u32, offset: nat) returns (cluster': u32, offset': nat)
    requires vol.MapFits() && DirFile(vol.Snapshot(), dir)
    requires Here(vol.Snapshot(), dir, cluster, offset) && offset + ENTRY_SIZE < dir.size
    ensures offset' == offset + ENTRY_SIZE && Here(vol.Snapshot(), dir, cluster', offset')
  {
    hide Consistent, ChainOf, Block, Within;
    NextHere(vol.Snapshot(), dir, cluster, offset);
    cluster', offset' := cluster, offset + ENTRY_SIZE;
    if offset' % vol.clusterSize == 0 {
      cluster' := Next(vol.fat, dir.contiguous, cluster);
      assert !Invalid(cluster');
    }
  }

  // --- finding room for a file's entries ---

  /** No set is longer than this: two entries with fields and seventeen with a name. */
  const MAX_ENTRIES: nat := 19

  /** The state of the search after `d1` has been reached: the directory is as it was or has been lengthened once by
      whole vacant entries. */
  ghost predicate Enlarged<K>(d: Disk<K>, k: K, d': Disk<K>)
    requires DirFile(d, k)
  {
    && DirFile(d', k) && ChainsKept(d, k, d')
    && d'.clusterSize == d.clusterSize
    && ViewOf(d').files == ViewOf(d).files[k := Bytes(d', k)]
    && ViewOf(d').free == ViewOf(d).free - Cost(d.files[k].size, d'.files[k].size, d.clusterSize)
    && |EntriesOf(d, k)| <= |EntriesOf(d', k)|
    && EntriesOf(d', k) == EntriesOf(d, k) + seq(|EntriesOf(d', k)| - |EntriesOf(d, k)|, _ => Zeros(ENTRY_SIZE))
  }

  ghost predicate VacantRun(es: seq<Slot>, from: nat, to: nat) {
    to <= |es| && forall j :: from <= j < to ==> Vacant(es[j])
  }

  /** `n` vacant entries in a row begin at entry `i`. */
  ghost predicate RunAt(es: seq<Slot>, n: nat, i: nat) {
    VacantRun(es, i, i + n)
  }

  ghost predicate HasRun(es: seq<Slot>, n: nat) {
    exists i: nat :: RunAt(es, n, i)
  }

  ghost predicate FirstRun(es: seq<Slot>, n: nat, i: nat) {
    RunAt(es, n, i) && forall j: nat :: j < i ==> !RunAt(es, n, j)
  }

  /** How many entries at the end are vacant. */
  function Tail(es: seq<Slot>): (t: nat)
    ensures t <= |es|
  {
    if es == [] || !Vacant(es[|es| - 1]) then 0 else 1 + Tail(es[..|es| - 1])
  }

  /** A search that has looked at the first `at` entries: the last `run` of them are vacant and the one before those is
      not, and no `n` vacant ones in a row begin any earlier. */
  ghost predicate Scanned(es: seq<Slot>, n: nat, at: nat, run: nat) {
    && run <= at <= |es| && run <= n && VacantRun(es, at - run, at)
    && (run < at ==> !Vacant(es[at - run - 1]))
    && forall j: nat :: j < at - run && j + n <= at ==> !RunAt(es, n, j)
  }

  lemma ScannedNone(es: seq<Slot>, n: nat)
    ensures Scanned(es, n, 0, 0)
  {
  }

  lemma ScannedMore(es: seq<Slot>, n: nat, at: nat, run: nat)
    requires Scanned(es, n, at, run) && run < n && at < |es|
    ensures Scanned(es, n, at + 1, if Vacant(es[at]) then run + 1 else 0)
  {
    var run' := if Vacant(es[at]) then run + 1 else 0;
    forall j: nat | j < at + 1 - run' && j + n <= at + 1
      ensures !RunAt(es, n, j)
    {
      if j + n == at + 1 {
        assert !Vacant(es[if Vacant(es[at]) then at - run - 1 else at]);
      }
    }
  }

  lemma ScannedFound(es: seq<Slot>, n: nat, at: nat)
    requires Scanned(es, n, at, n)
    ensures HasRun(es, n) && FirstRun(es, n, at - n)
  {
    assert RunAt(es, n, at - n);
  }

  /** Having looked at all entries without success, the search stands behind the vacant ones at the end. */
  lemma ScannedAll(es: seq<Slot>, n: nat, run: nat)
    requires Scanned(es, n, |es|, run) && run < n
    ensures !HasRun(es, n) && run == Tail(es)
  {
    forall i: nat
      ensures !RunAt(es, n, i)
    {
    }
    TailIs(es, run);
  }

  lemma {:induction false} TailIs(es: seq<Slot>, run: nat)
    requires run <= |es| && VacantRun(es, |es| - run, |es|) && (run < |es| ==> !Vacant(es[|es| - run - 1]))
    ensures Tail(es) == run
  {
    if run > 0 {
      var rest := es[..|es| - 1];
      assert forall j :: |rest| - (run - 1) <= j < |rest| ==> rest[j] == es[j];
      TailIs(rest, run - 1);
    }
  }

  /** The size of a directory made long enough for `n` entries behind the last one in use. */
  ghost function LongerSize<K>(d: Disk<K>, k: K, n: nat): nat
    requires DirFile(d, k)
  {
    var t := Tail(EntriesOf(d, k));
    RoundedUp(d.files[k].size + (if t < n then n - t else 0) * ENTRY_SIZE, d.clusterSize)
  }

  /** The clusters it takes to make room for `n` entries. */
  ghost function SlotCost<K>(d: Disk<K>, k: K, n: nat): int
    requires DirFile(d, k)
  {
    if HasRun(EntriesOf(d, k), n) then 0 else Cost(d.files[k].size, LongerSize(d, k, n), d.clusterSize)
  }

  /** What the search promises. It succeeds exactly when there are vacant entries enough in a row or clusters enough to
      lengthen the directory. In the first case nothing changes and the first such entries are found; in the second
      they begin behind the last entry in use, and the directory is as long as that takes. */
  ghost predicate SlotFound<K>(d: Disk<K>, k: K, n: nat, ok: bool, cluster: u32, offset: nat, d': Disk<K>)
    requires DirFile(d, k)
  {
    && (ok <==> SlotCost(d, k, n) <= CountClear(d.used))
    && if !ok then Consistent(d') && ViewOf(d') == ViewOf(d) && DirFile(d', k) && ChainsKept(d, k, d')
       else
         && Enlarged(d, k, d') && Here(d', k, cluster, offset) && RunAt(EntriesOf(d', k), n, offset / ENTRY_SIZE)
         && if HasRun(EntriesOf(d, k), n) then d' == d && FirstRun(EntriesOf(d, k), n, offset / ENTRY_SIZE)
            else
              && d'.files[k].size == LongerSize(d, k, n)
              && offset / ENTRY_SIZE == |EntriesOf(d, k)| - Tail(EntriesOf(d, k))
  }

  /** In numbers: nothing if so many entries in a row are out of use; otherwise the least number of clusters that hold
      those that are missing behind the ones out of use at the end. */
  lemma SlotNeeds<K>(d: Disk<K>, k: K, n: nat)
    requires DirFile(d, k) && n > 0
    ensures var es, cost := EntriesOf(d, k), SlotCost(d, k, n);
            && (forall i: nat :: RunAt(es, n, i) <==> i + n <= |es| && forall j :: i <= j < i + n ==> es[j][0] < 0x80)
            && if exists i: nat :: RunAt(es, n, i) then cost == 0
               else
                 var t := Tail(es);
                 && t < n && (forall j :: |es| - t <= j < |es| ==> es[j][0] < 0x80)
                 && (t < |es| ==> es[|es| - t - 1][0] >= 0x80)
                 && cost * d.clusterSize >= 32 * (n - t) > (cost - 1) * d.clusterSize
  {
    hide EntriesOf, Tail, DirFile, LongerSize, Cost;
    var es := EntriesOf(d, k);
    if !HasRun(es, n) {
      TailShort(es, n);
      TailVacant(es);
      TailEnds(es);
      LongerNeeds(d, k, n);
    }
  }

  lemma {:induction false} TailEnds(es: seq<Slot>)
    ensures Tail(es) < |es| ==> !Vacant(es[|es| - Tail(es) - 1])
  {
    if Tail(es) > 0 {
      TailEnds(es[..|es| - 1]);
    }
  }

  lemma LongerNeeds<K>(d: Disk<K>, k: K, n: nat)
    requires DirFile(d, k) && Tail(EntriesOf(d, k)) < n
    ensures var more, cost := n - Tail(EntriesOf(d, k)), Cost(d.files[k].size, LongerSize(d, k, n), d.clusterSize);
            cost * d.clusterSize >= 32 * more > (cost - 1) * d.clusterSize
  {
    hide EntriesOf, Tail, Consistent, RoundedUp, ClustersFor;
    MoreClusters(d.files[k].size, 32 * (n - Tail(EntriesOf(d, k))), d.clusterSize);
  }

  lemma MoreClusters(size: nat, more: nat, cs: nat)
    requires cs > 0 && cs % ENTRY_SIZE == 0 && size % cs == 0 && more > 0
    ensures var cost := Cost(size, RoundedUp(size + more, cs), cs);
            cost * cs >= more > (cost - 1) * cs
  {
    hide RoundedUp, ClustersFor;
    var q, r := size / cs, RoundedUp(size + more, cs);
    RoundedBounds(size + more, cs);
    assert size == q * cs && r == (r / cs) * cs;
    RoundedExact(q, cs);
    RoundedExact(r / cs, cs);
    assert (r / cs - q) * cs == r - size;
    assert (r / cs - q - 1) * cs == r - size - cs;
  }

  /** The search will not spring the trap: it need not lengthen the directory, or the directory does not stand in it. */
  ghost predicate Searchable<K>(d: Disk<K>, k: K, n: nat)
    requires DirFile(d, k)
  {
    HasRun(EntriesOf(d, k), n) || Clear(d, k)
  }

  /** Otherwise the lengthening that the search asks for springs it, and the volume is no longer consistent. */
  lemma SearchSprings<K>(d: Disk<K>, k: K, n: nat)
    requires DirFile(d, k) && 0 < n && !Searchable(d, k, n)
    ensures Springs(d, k, LongerSize(d, k, n))
    ensures forall ok, d' :: Truncated(d, k, LongerSize(d, k, n), true, ok, d') ==> !Consistent(d')
  {
    hide Consistent, Trap, ChainsKept;
    TailShort(EntriesOf(d, k), n);
    LongerCosts(d, k, n);
  }

  lemma TailShort(es: seq<Slot>, n: nat)
    requires !HasRun(es, n)
    ensures Tail(es) < n
  {
    TailVacant(es);
    var t := Tail(es);
    if n <= t {
      assert RunAt(es, n, |es| - t);
      assert false;
    }
  }

  lemma {:induction false} TailVacant(es: seq<Slot>)
    ensures VacantRun(es, |es| - Tail(es), |es|)
  {
    if Tail(es) > 0 {
      var rest := es[..|es| - 1];
      TailVacant(rest);
      assert forall j :: |rest| - Tail(rest) <= j < |rest| ==> rest[j] == es[j];
    }
  }

  /** A directory has no room to spare in its last cluster, so lengthening it takes clusters. */
  lemma LongerCosts<K>(d: Disk<K>, k: K, n: nat)
    requires DirFile(d, k) && Tail(EntriesOf(d, k)) < n
    ensures LongerSize(d, k, n) > d.files[k].size && Cost(d.files[k].size, LongerSize(d, k, n), d.clusterSize) > 0
  {
    hide Consistent, ChainOf;
    var size, cs := d.files[k].size, d.clusterSize;
    var more := (n - Tail(EntriesOf(d, k))) * ENTRY_SIZE;
    WholeEntries(d, k);
    RoundedBounds(size + more, cs);
    RoundedExact(|ChainOf(d, k)|, cs);
    RoundedExact(ClustersFor(size + more, cs), cs);
    if ClustersFor(size + more, cs) <= |ChainOf(d, k)| {
      ProductMonotone(ClustersFor(size + more, cs), |ChainOf(d, k)|, cs);
    }
  }

  /** The file does not stand in the trap that `grow_file` would spring. */
  ghost predicate Clear<K>(d: Disk<K>, k: K)
    requires DirFile(d, k)
  {
    !Trap(d.used, d.files[k], Layout.Count(d, k))
  }

  function RoundedUp(size: nat, clusterSize: nat): nat
    requires clusterSize > 0
  {
    At(ClustersFor(size, clusterSize), clusterSize)
  }

  lemma RoundedBounds(size: nat, clusterSize: nat)
    requires clusterSize > 0 && clusterSize % ENTRY_SIZE == 0
    ensures size <= RoundedUp(size, clusterSize) < size + clusterSize
    ensures RoundedUp(size, clusterSize) % clusterSize == 0
    ensures RoundedUp(size, clusterSize) % ENTRY_SIZE == 0
  {
    ClustersForBounds(size, clusterSize);
    var n := ClustersFor(size, clusterSize);
    assert n * clusterSize == (n - 1) * clusterSize + clusterSize;
    QuotientOf(n, 0, clusterSize);
    assert n * clusterSize == n * (clusterSize / ENTRY_SIZE) * ENTRY_SIZE;
    QuotientOf(n * (clusterSize / ENTRY_SIZE), 0, ENTRY_SIZE);
  }

  /** A directory can never be asked to grow past what a count of clusters can hold. */
  lemma GrowthFits<K>(d: Disk<K>, k: K, more: nat)
    requires DirFile(d, k) && more <= MAX_ENTRIES * ENTRY_SIZE
    ensures RoundedUp(d.files[k].size + more, d.clusterSize) <= MAX_COUNT * d.clusterSize
  {
    hide Consistent, ChainOf;
    WholeEntries(d, k);
    ChainShort(d, k);
    var n, cs := |ChainOf(d, k)|, d.clusterSize;
    assert (n + 2) * cs == n * cs + 2 * cs;
    ClustersForMonotone(d.files[k].size + more, (n + 2) * cs, cs);
    RoundedExact(n + 2, cs);
    ProductMonotone(ClustersFor(d.files[k].size + more, cs), n + 2, cs);
    ProductMonotone(n + 2, MAX_COUNT, cs);
  }

  lemma RoundedExact(n: nat, clusterSize: nat)
    requires clusterSize > 0
    ensures ClustersFor(n * clusterSize, clusterSize) == n
  {
    if n > 0 {
      assert (n - 1) * clusterSize < n * clusterSize;
    }
    ClustersForUnique(n * clusterSize, clusterSize, n);
  }

  lemma ChainShort<K>(d: Disk<K>, k: K)
    requires Consistent(d) && k in d.files
    ensures |ChainOf(d, k)| + 2 <= MAX_COUNT
  {
    ReadyToGrow(d, k);
    OwnChain(d, k);
    ChainFits(ChainOf(d, k), d.size);
  }

  /** What lengthening promises. */
  ghost predicate Lengthened<K>(d: Disk<K>, k: K, more: nat, ok: bool, d': Disk<K>)
    requires DirFile(d, k)
  {
    && Consistent(d') && ChainsKept(d, k, d') && DirFile(d', k)
    && (ok <==> Cost(d.files[k].size, RoundedUp(d.files[k].size + more, d.clusterSize), d.clusterSize)
                <= CountClear(d.used))
    && if ok then Enlarged(d, k, d') && d'.files[k].size == RoundedUp(d.files[k].size + more, d.clusterSize)
       else ViewOf(d') == ViewOf(d)
  }

  /** A directory lengthened by a truncation that erases. */
  lemma GrownDirectory<K>(d: Disk<K>, k: K, more: nat, ok: bool, d': Disk<K>)
    requires DirFile(d, k) && !Springs(d, k, RoundedUp(d.files[k].size + more, d.clusterSize))
    requires Truncated(d, k, RoundedUp(d.files[k].size + more, d.clusterSize), true, ok, d')
    ensures Lengthened(d, k, more, ok, d')
  {
    hide Consistent, Bytes, ChainOf, Springs, ChainsKept, Layout.Count, CountClear;
    var size := RoundedUp(d.files[k].size + more, d.clusterSize);
    RoundedBounds(d.files[k].size + more, d.clusterSize);
    WholeEntries(d, k);
    TruncatedBytes(d, k, size, ok, d');
    if ok {
      EntriesGrown(d, k, size, d');
    }
  }

  lemma EntriesGrown<K>(d: Disk<K>, k: K, size: nat, d': Disk<K>)
    requires DirFile(d, k) && DirFile(d', k) && size >= d.files[k].size && size % ENTRY_SIZE == 0
    requires Bytes(d', k) == Resized(Bytes(d, k), size)
    ensures |EntriesOf(d, k)| <= |EntriesOf(d', k)|
    ensures EntriesOf(d', k) == EntriesOf(d, k) + seq(|EntriesOf(d', k)| - |EntriesOf(d, k)|, _ => Zeros(ENTRY_SIZE))
  {
    hide Bytes, Resized, Slots;
    WholeEntries(d, k);
    WholeEntries(d', k);
    SlotsGrown(Bytes(d, k), size);
  }

  /** A truncation that erases, seen as a change of the directory's bytes. */
  lemma TruncatedBytes<K>(d: Disk<K>, k: K, size: nat, ok: bool, d': Disk<K>)
    requires DirFile(d, k) && !Springs(d, k, size) && Truncated(d, k, size, true, ok, d')
    ensures Consistent(d') && ChainsKept(d, k, d') && k in d'.files && d'.clusterSize == d.clusterSize
    ensures !ok ==> ViewOf(d') == ViewOf(d) && d'.files[k].size == d.files[k].size
    ensures ok ==> d'.files[k].size == size && Bytes(d', k) == Resized(Bytes(d, k), size)
    ensures ok ==> ViewOf(d').files == ViewOf(d).files[k := Bytes(d', k)]
    ensures ok ==> ViewOf(d').free == ViewOf(d).free - Cost(d.files[k].size, size, d.clusterSize)
    ensures ok <==> Cost(d.files[k].size, size, d.clusterSize) <= CountClear(d.used)
  {
    hide Consistent, ChainOf, Trap, Layout.Count;
    BytesIn(d, k);
    BytesIn(d', k);
    KeysOf(d, d');
  }

  lemma KeysOf<K>(d: Disk<K>, d': Disk<K>)
    requires Consistent(d) && Consistent(d')
    ensures ViewOf(d).files.Keys == d.files.Keys && ViewOf(d').files.Keys == d'.files.Keys
  {
    hide Bytes;
  }

  method GrowDirectory(vol: Volume, dir: Node, asize: nat, difference: nat) returns (rc: Status)
    requires vol.Valid() && DirFile(vol.Snapshot(), dir)
    requires asize == dir.size && difference <= MAX_ENTRIES * ENTRY_SIZE
    modifies vol`fat, vol`heap, vol`mapDirty, vol.chunk
    modifies dir`startCluster, dir`contiguous, dir`fptrIndex, dir`fptrCluster, dir`size, dir`dirty
    ensures Truncated(old(vol.Snapshot()), dir, RoundedUp(asize + difference, vol.clusterSize), true, rc == Ok,
                      vol.Snapshot())
    ensures !Springs(old(vol.Snapshot()), dir, RoundedUp(asize + difference, vol.clusterSize)) ==>
              Lengthened(old(vol.Snapshot()), dir, difference, rc == Ok, vol.Snapshot())
  {
    hide Consistent, Truncated, Springs, Lengthened, RoundedUp, ViewOf;
    ghost var d := vol.Snapshot();
    GrowthFits(d, dir, difference);
    rc := vol.Truncate(dir, RoundedUp(asize + difference, vol.clusterSize), true);
    if !Springs(d, dir, RoundedUp(asize + difference, vol.clusterSize)) {
      GrownDirectory(d, dir, difference, rc == Ok, vol.Snapshot());
    }
  }

  /** How far the search has come: the last `run` of the entries before `at` are vacant, and began at `offset` in
      `cluster`. Once the directory has been lengthened, they are the last ones it had or come behind those, and all
      that follow are vacant and enough to finish the run. */
  ghost predicate Searched<K>(d: Disk<K>, k: K, n: nat, grown: bool, run: nat, at: nat, cluster: u32, offset: nat,
                              d1: Disk<K>)
    requires DirFile(d, k)
  {
    && DirFile(d1, k) && at % ENTRY_SIZE == 0 && at <= d1.files[k].size
    && run <= n <= MAX_ENTRIES && run <= at / ENTRY_SIZE
    && (run > 0 ==> Here(d1, k, cluster, offset) && offset + run * ENTRY_SIZE == at)
    && if !grown then d1 == d && Scanned(EntriesOf(d, k), n, at / ENTRY_SIZE, run)
       else
         && Enlarged(d, k, d1) && !HasRun(EntriesOf(d, k), n) && d1.files[k].size == LongerSize(d, k, n)
         && SlotCost(d, k, n) <= CountClear(d.used)
         && at / ENTRY_SIZE - run == |EntriesOf(d, k)| - Tail(EntriesOf(d, k))
         && VacantRun(EntriesOf(d1, k), at / ENTRY_SIZE - run, |EntriesOf(d1, k)|)
         && run + |EntriesOf(d1, k)| - at / ENTRY_SIZE >= n
  }

  lemma SearchBegins<K>(d: Disk<K>, k: K, n: nat)
    requires DirFile(d, k) && 0 < n <= MAX_ENTRIES
    ensures Searched(d, k, n, false, 0, 0, 0, 0, d)
  {
    ScannedNone(EntriesOf(d, k), n);
  }

  lemma EnlargedSame<K>(d: Disk<K>, k: K)
    requires DirFile(d, k)
    ensures Enlarged(d, k, d)
  {
    hide Bytes;
    ChainsUnmoved(d, k);
    BytesIn(d, k);
    assert ViewOf(d).files[k := Bytes(d, k)] == ViewOf(d).files;
    assert EntriesOf(d, k) + [] == EntriesOf(d, k);
  }

  /** One more entry looked at. */
  lemma Looks<K>(d: Disk<K>, k: K, n: nat, grown: bool, run: nat, at: nat, cluster: u32, offset: nat, d1: Disk<K>,
                 here: u32, run': nat)
    requires DirFile(d, k) && Searched(d, k, n, grown, run, at, cluster, offset, d1) && run < n
    requires Here(d1, k, here, at) && at / ENTRY_SIZE < |EntriesOf(d1, k)|
    requires run' == if Vacant(EntriesOf(d1, k)[at / ENTRY_SIZE]) then run + 1 else 0
    ensures Searched(d, k, n, grown, run', at + ENTRY_SIZE, if run == 0 then here else cluster,
                     if run == 0 then at else offset, d1)
    ensures at + ENTRY_SIZE <= d1.files[k].size
    ensures run' < n && at + ENTRY_SIZE >= d1.files[k].size ==> !grown
  {
    hide Consistent, DirFile, Enlarged, EntriesOf, Here, Scanned, LongerSize, SlotCost, Tail, HasRun;
    EntryCount(d1, k);
    if !grown {
      ScannedMore(EntriesOf(d, k), n, at / ENTRY_SIZE, run);
    }
  }

  lemma SearchEnds<K>(d: Disk<K>, k: K, n: nat, grown: bool, at: nat, cluster: u32, offset: nat, d1: Disk<K>)
    requires DirFile(d, k) && Searched(d, k, n, grown, n, at, cluster, offset, d1) && n > 0
    ensures SlotFound(d, k, n, true, cluster, offset, d1)
  {
    hide Consistent, Enlarged, Here, EntriesOf, LongerSize, Tail, CountClear, FirstRun;
    assert offset / ENTRY_SIZE == at / ENTRY_SIZE - n;
    if !grown {
      EnlargedSame(d, k);
      ScannedFound(EntriesOf(d, k), n, at / ENTRY_SIZE);
      hide Scanned, HasRun;
    } else {
      hide HasRun;
    }
  }

  /** The last entry has been looked at without success: what the directory must be lengthened by. */
  lemma SearchExhausted<K>(d: Disk<K>, k: K, n: nat, run: nat, at: nat, cluster: u32, offset: nat)
    requires DirFile(d, k) && Searched(d, k, n, false, run, at, cluster, offset, d) && run < n && at == d.files[k].size
    ensures !HasRun(EntriesOf(d, k), n) && run == Tail(EntriesOf(d, k))
    ensures LongerSize(d, k, n) == RoundedUp(d.files[k].size + (n - run) * ENTRY_SIZE, d.clusterSize)
    ensures SlotCost(d, k, n) == Cost(d.files[k].size, LongerSize(d, k, n), d.clusterSize)
    ensures Searchable(d, k, n) ==> !Springs(d, k, LongerSize(d, k, n))
  {
    hide Consistent, Here, EntriesOf, Tail, HasRun, Scanned, Trap;
    EntryCount(d, k);
    ScannedAll(EntriesOf(d, k), n, run);
  }

  /** The directory has been lengthened behind its last entry. */
  lemma SearchGrown<K>(d: Disk<K>, k: K, n: nat, run: nat, at: nat, cluster: u32, offset: nat, here: u32, d': Disk<K>)
    requires DirFile(d, k) && Searched(d, k, n, false, run, at, cluster, offset, d) && run < n
    requires at == d.files[k].size && at >= ENTRY_SIZE && Here(d, k, here, at - ENTRY_SIZE)
    requires Lengthened(d, k, (n - run) * ENTRY_SIZE, true, d')
    ensures Searched(d, k, n, true, run, at, cluster, offset, d')
    ensures Here(d', k, here, at - ENTRY_SIZE) && at < d'.files[k].size && at % d'.clusterSize == 0
  {
    hide Consistent, ChainsKept, CountClear;
    var more := (n - run) * ENTRY_SIZE;
    SearchExhausted(d, k, n, run, at, cluster, offset);
    RoundedBounds(d.files[k].size + more, d.clusterSize);
    EntryCount(d, k);
    EntryCount(d', k);
    HereAfter(d, k, d', here, at - ENTRY_SIZE);
    if run > 0 {
      HereAfter(d, k, d', cluster, offset);
    }
    TailVacant(EntriesOf(d, k));
    hide EntriesOf, Here, HasRun, Tail, SlotCost, LongerSize, Scanned, RoundedUp;
    GrownTail(EntriesOf(d, k), EntriesOf(d', k), run);
  }

  /** Zeros behind a directory make its vacant tail longer. */
  lemma GrownTail(es: seq<Slot>, es': seq<Slot>, run: nat)
    requires run <= |es| <= |es'| && VacantRun(es, |es| - run, |es|)
    requires es' == es + seq(|es'| - |es|, _ => Zeros(ENTRY_SIZE))
    ensures VacantRun(es', |es| - run, |es'|)
  {
  }

  lemma SearchRefused<K>(d: Disk<K>, k: K, n: nat, run: nat, at: nat, cluster: u32, offset: nat, d': Disk<K>)
    requires DirFile(d, k) && Searched(d, k, n, false, run, at, cluster, offset, d) && run < n && at == d.files[k].size
    requires Lengthened(d, k, (n - run) * ENTRY_SIZE, false, d')
    ensures SlotFound(d, k, n, false, cluster, offset, d')
  {
    SearchExhausted(d, k, n, run, at, cluster, offset);
    hide Consistent, ChainsKept, CountClear, EntriesOf, HasRun, Tail, LongerSize, Scanned, SlotCost, Searched;
  }

  lemma LengthenedDir<K>(d: Disk<K>, k: K, more: nat, ok: bool, d': Disk<K>)
    requires DirFile(d, k) && Lengthened(d, k, more, ok, d')
    ensures DirFile(d', k)
  {
  }

  lemma DirKnown(vol: Volume, dir: Node)
    requires vol.MapFits() && DirFile(vol.Snapshot(), dir)
    ensures vol.Valid() && dir in vol.nodes && dir in vol.Snapshot().files
    ensures vol.Snapshot().files[dir].size == dir.size > 0
    ensures vol.Snapshot().clusterSize == vol.clusterSize > 0
  {
  }

  lemma DirSizes<K>(d: Disk<K>, k: K)
    requires DirFile(d, k)
    ensures Consistent(d) && k in d.files && d.clusterSize > 0 && d.files[k].size > 0
  {
  }

  /** The body of the search but for its ends: counts the entry at the iterator into the run, or starts a new one. */
  method CountEntry(vol: Volume, dir: Node, it: Iterator, n: nat, run: nat, cluster: u32, offset: nat,
                    ghost d: Disk<Node>, ghost grown: bool)
    returns (run': nat, cluster': u32, offset': nat)
    requires vol.MapFits() && DirFile(d, dir) && DirFile(vol.Snapshot(), dir) && it.offset < dir.size && run < n
    requires Searched(d, dir, n, grown, run, it.offset, cluster, offset, vol.Snapshot())
    requires Standing(vol.Snapshot(), dir, it.cluster, it.offset, it.chunk)
    ensures run' <= n && it.offset + ENTRY_SIZE <= dir.size
    ensures Searched(d, dir, n, grown, run', it.offset + ENTRY_SIZE, cluster', offset', vol.Snapshot())
    ensures Here(vol.Snapshot(), dir, it.cluster, it.offset)
    ensures run' < n && it.offset + ENTRY_SIZE >= dir.size ==> !grown
  {
    hide Consistent, Here, Standing, Searched, EntriesOf, Within, DirFile;
    ghost var d1 := vol.Snapshot();
    cluster', offset' := cluster, offset;
    if run == 0 {
      cluster', offset' := it.cluster, it.offset;
    }
    DirSizes(d1, dir);
    StandingHere(d1, dir, it.cluster, it.offset, it.chunk);
    if it.Entry(vol.clusterSize)[0] >= VALID {
      run' := 0;
    } else {
      run' := run + 1;
    }
    Looks(d, dir, n, grown, run, it.offset, cluster, offset, d1, it.cluster, run');
  }

  /** Looks for `n` consecutive vacant entries, lengthening the directory if it ends first. */
  method FindSlot(vol: Volume, dir: Node, n: nat) returns (rc: Status, cluster: u32, offset: nat)
    requires vol.MapFits() && DirFile(vol.Snapshot(), dir) && Searchable(vol.Snapshot(), dir, n)
    requires 0 < n <= MAX_ENTRIES
    modifies vol`fat, vol`heap, vol`mapDirty, vol.chunk
    modifies dir`startCluster, dir`contiguous, dir`fptrIndex, dir`fptrCluster, dir`size, dir`dirty
    ensures SlotFound(old(vol.Snapshot()), dir, n, rc == Ok, cluster, offset, vol.Snapshot())
  {
    hide Consistent, Here, Standing, Searched, SlotFound, Searchable, Lengthened, DirFile, Volume.Snapshot, LongerSize,
         RoundedUp, Springs, Truncated;
    ghost var d := vol.Snapshot();
    DirKnown(vol, dir);
    DirSizes(d, dir);
    cluster, offset := 0, 0;
    var it := Opendir(vol, dir);
    var run: nat := 0;
    ghost var grown := false;
    SearchBegins(d, dir, n);
    while true
      invariant vol.MapFits() && fresh(it) && DirFile(vol.Snapshot(), dir) && it.offset < dir.size && run < n
      invariant grown || vol.Snapshot() == d
      invariant Searched(d, dir, n, grown, run, it.offset, cluster, offset, vol.Snapshot())
      invariant Standing(vol.Snapshot(), dir, it.cluster, it.offset, it.chunk)
      decreases !grown, dir.size - it.offset
    {
      DirKnown(vol, dir);
      run, cluster, offset := CountEntry(vol, dir, it, n, run, cluster, offset, d, grown);
      if run == n {
        SearchEnds(d, dir, n, grown, it.offset + ENTRY_SIZE, cluster, offset, vol.Snapshot());
        return Ok, cluster, offset;
      }
      if it.offset + ENTRY_SIZE >= dir.size {
        SearchExhausted(d, dir, n, run, it.offset + ENTRY_SIZE, cluster, offset);
        rc := GrowDirectory(vol, dir, dir.size, (n - run) * ENTRY_SIZE);
        LengthenedDir(d, dir, (n - run) * ENTRY_SIZE, rc == Ok, vol.Snapshot());
        DirKnown(vol, dir);
        if rc != Ok {
          SearchRefused(d, dir, n, run, it.offset + ENTRY_SIZE, cluster, offset, vol.Snapshot());
          return;
        }
        SearchGrown(d, dir, n, run, it.offset + ENTRY_SIZE, cluster, offset, it.cluster, vol.Snapshot());
        grown := true;
      }
      DirKnown(vol, dir);
      FetchNextEntry(vol, dir, it);
    }
  }

  lemma StandingHere<K>(d: Disk<K>, k: K, cluster: u32, offset: nat, chunk: seq<byte>)
    requires DirFile(d, k) && Standing(d, k, cluster, offset, chunk) && offset < d.files[k].size
    ensures Here(d, k, cluster, offset)
    ensures var w := Within(offset, d.clusterSize);
            && offset / ENTRY_SIZE < |EntriesOf(d, k)| && w + ENTRY_SIZE <= |chunk|
            && chunk[w..w + ENTRY_SIZE] == EntriesOf(d, k)[offset / ENTRY_SIZE]
  {
    EntryHere(d, k, cluster, offset);
  }

  // --- reading ---

  /** The switch of readdir: what one more entry does to the file being read. */
  method TakeEntry(p: Partial, e: Slot, i: nat, clusterSize: nat) returns (t: Taken)
    requires clusterSize > 0 && PartialOk(p)
    ensures t == Take(p, e, i, clusterSize)
  {
    hide Fold, Kept, Plausible;
    if e[0] == FILE {
      if p.left != 0 {
        return Wrong;
      }
      if e[1] < 2 {
        return Wrong;
      }
      if e[1] > 18 {
        return Wrong;
      }
      var sum := StartChecksum(Sixteen, e, SUM_FIELD);
      return Going(Partial(e[1], i, Info(Field(e, 4, 2), 0, 0, false, []), sum, Field(e, 2, 2), 0));
    } else if e[0] == FILE_INFO {
      if p.left < 2 {
        return Wrong;
      }
      if e[1] > 3 {
        return Wrong;
      }
      var sum := AddChecksum(Sixteen, e, p.sum);
      return Going(p.(left := p.left - 1, sum := sum, validSize := Field(e, 8, 8),
                      info := p.info.(size := Field(e, 24, 8), start := Field(e, 20, 4),
                                      contiguous := e[1] / 2 % 2 == 1)));
    } else if e[0] == FILE_NAME {
      if p.left == 0 {
        return Wrong;
      }
      var sum := AddChecksum(Sixteen, e, p.sum);
      var name := Cut(p.info.name + UnitsOf(e));
      if p.left - 1 == 0 {
        var info := p.info.(name := Padded(name));
        if sum != p.stored || !Plausible(info, p.validSize, clusterSize) {
          return Wrong;
        }
        return Complete(info);
      }
      return Going(p.(left := p.left - 1, sum := sum, info := p.info.(name := name)));
    } else if e[0] == BITMAP || e[0] == UPCASE || e[0] == LABEL {
      return Going(p);
    }
    if e[0] < VALID {
      return Going(p);
    }
    if e[0] / 0x20 % 2 == 0 {
      return Wrong;
    }
    if p.left == 0 {
      return Wrong;
    }
    return Going(p.(left := p.left - 1));
  }

  /** Reads on from the iterator's position to the end of the next file's entries. */
  method Readdir(vol: Volume, dir: Node, it: Iterator) returns (found: Outcome, cluster: u32)
    requires vol.MapFits() && DirFile(vol.Snapshot(), dir)
    requires Standing(vol.Snapshot(), dir, it.cluster, it.offset, it.chunk)
    modifies it
    ensures old(it.offset) / ENTRY_SIZE <= |EntriesOf(vol.Snapshot(), dir)|
    ensures found == Scan(EntriesOf(vol.Snapshot(), dir), old(it.offset) / ENTRY_SIZE, NOTHING, vol.clusterSize)
    ensures found.Found? ==>
              it.offset == ENTRY_SIZE * found.next
              && Standing(vol.Snapshot(), dir, it.cluster, it.offset, it.chunk)
              && Here(vol.Snapshot(), dir, cluster, ENTRY_SIZE * found.at)
  {
    hide Consistent, Here, Standing, DirFile, Volume.Snapshot, EntriesOf, Take, Scan, PartialOk;
    ghost var es, d := EntriesOf(vol.Snapshot(), dir), vol.Snapshot();
    DirKnown(vol, dir);
    EntryCount(d, dir);
    StandingBounds(d, dir, it.cluster, it.offset, it.chunk);
    var p := NOTHING;
    cluster := FREE;
    NothingOk();
    ghost var start := it.offset / ENTRY_SIZE;
    while true
      invariant PartialOk(p) && it.offset % ENTRY_SIZE == 0 && it.offset / ENTRY_SIZE <= |es|
      invariant Standing(d, dir, it.cluster, it.offset, it.chunk)
      invariant Scan(es, start, NOTHING, vol.clusterSize) == Scan(es, it.offset / ENTRY_SIZE, p, vol.clusterSize)
      invariant p.left > 0 ==> Here(d, dir, cluster, ENTRY_SIZE * p.at)
      decreases dir.size - it.offset
    {
      if it.offset >= dir.size {
        ScanStops(es, p, vol.clusterSize);
        if p.left != 0 {
          return Malformed, cluster;
        }
        return End, cluster;
      }
      StandingHere(d, dir, it.cluster, it.offset, it.chunk);
      var e := it.Entry(vol.clusterSize);
      ghost var i := it.offset / ENTRY_SIZE;
      ScanOne(es, i, p, vol.clusterSize);
      var t := TakeEntry(p, e, it.offset / ENTRY_SIZE, vol.clusterSize);
      TakeKeepsPlace(p, e, i, vol.clusterSize);
      if t == Wrong {
        return Malformed, cluster;
      }
      if e[0] == FILE {
        cluster := it.cluster;
      }
      FetchNextEntry(vol, dir, it);
      StandingBounds(d, dir, it.cluster, it.offset, it.chunk);
      if t.Complete? {
        return Found(p.at, t.info, it.offset / ENTRY_SIZE), cluster;
      }
      p := t.p;
    }
  }

  lemma TakeKeepsPlace(p: Partial, e: Slot, i: nat, clusterSize: nat)
    requires clusterSize > 0 && PartialOk(p)
    ensures var t := Take(p, e, i, clusterSize);
            && (t.Complete? ==> p.left > 0 && e[0] != FILE)
            && (t.Going? && e[0] == FILE ==> t.p.at == i)
            && (t.Going? && e[0] != FILE ==> t.p.at == p.at && t.p.left <= p.left)
  {
  }

  lemma NothingOk()
    ensures PartialOk(NOTHING)
  {
  }

  lemma ScanStops(es: seq<Slot>, p: Partial, clusterSize: nat)
    requires clusterSize > 0 && PartialOk(p)
    ensures Scan(es, |es|, p, clusterSize) == if p.left == 0 then End else Malformed
  {
  }

  lemma StandingBounds<K>(d: Disk<K>, k: K, cluster: u32, offset: nat, chunk: seq<byte>)
    requires DirFile(d, k) && Standing(d, k, cluster, offset, chunk)
    ensures offset % ENTRY_SIZE == 0 && offset <= d.files[k].size
  {
  }

  /** A file of a directory as it is kept in core: where its entries begin, and what they say. */
  datatype Kid = Kid(cluster: u32, offset: nat, info: Info)

  /** The files read, each with the place of its first entry. */
  ghost predicate Cached<K>(d: Disk<K>, k: K, kids: seq<Kid>, l: seq<Agreement.Entry>)
    requires DirFile(d, k)
  {
    && |kids| == |l|
    && forall j :: 0 <= j < |kids| ==>
         && kids[j].offset == ENTRY_SIZE * l[j].at && kids[j].info == l[j].info
         && Here(d, k, kids[j].cluster, kids[j].offset)
  }

  /** Reads the whole directory. */
  method CacheDirectory(vol: Volume, dir: Node) returns (ok: bool, kids: seq<Kid>)
    requires vol.MapFits() && DirFile(vol.Snapshot(), dir)
    ensures var es := EntriesOf(vol.Snapshot(), dir);
            && (ok <==> Readable(es, 0, vol.clusterSize))
            && (ok ==> Cached(vol.Snapshot(), dir, kids, Listing(es, 0, vol.clusterSize)))
  {
    hide Consistent, Here, Standing, DirFile, Volume.Snapshot, EntriesOf, Scan, Cached, Readable, Listing;
    ghost var es, d := EntriesOf(vol.Snapshot(), dir), vol.Snapshot();
    DirKnown(vol, dir);
    EntryCount(d, dir);
    var it := Opendir(vol, dir);
    kids := [];
    CachedNone(d, dir);
    ghost var done: seq<Agreement.Entry> := [];
    while true
      invariant it.offset % ENTRY_SIZE == 0 && it.offset / ENTRY_SIZE <= |es| && it.offset <= dir.size && fresh(it)
      invariant Standing(d, dir, it.cluster, it.offset, it.chunk)
      invariant Cached(d, dir, kids, done)
      invariant Readable(es, 0, vol.clusterSize) == Readable(es, it.offset / ENTRY_SIZE, vol.clusterSize)
      invariant Listing(es, 0, vol.clusterSize) == done + Listing(es, it.offset / ENTRY_SIZE, vol.clusterSize)
      decreases dir.size - it.offset
    {
      ghost var i := it.offset / ENTRY_SIZE;
      ListingStep(es, i, vol.clusterSize, done);
      var found, cluster := Readdir(vol, dir, it);
      if !found.Found? {
        return found == End, kids;
      }
      CachedMore(d, dir, kids, done, cluster, found.at, found.info);
      kids := kids + [Kid(cluster, ENTRY_SIZE * found.at, found.info)];
      done := done + [Agreement.Entry(found.at, found.info)];
      StandingBounds(d, dir, it.cluster, it.offset, it.chunk);
    }
  }

  lemma CachedNone<K>(d: Disk<K>, k: K)
    requires DirFile(d, k)
    ensures Cached(d, k, [], [])
  {
  }

  lemma CachedMore<K>(d: Disk<K>, k: K, kids: seq<Kid>, l: seq<Agreement.Entry>, cluster: u32, at: nat, info: Info)
    requires DirFile(d, k) && Cached(d, k, kids, l) && Here(d, k, cluster, ENTRY_SIZE * at)
    ensures Cached(d, k, kids + [Kid(cluster, ENTRY_SIZE * at, info)], l + [Agreement.Entry(at, info)])
  {
    hide DirFile, Here;
  }

  lemma ListingStep(es: seq<Slot>, i: nat, clusterSize: nat, done: seq<Agreement.Entry>)
    requires clusterSize > 0 && i <= |es|
    ensures match Scan(es, i, NOTHING, clusterSize)
            case Found(at, info, next) =>
              && Readable(es, i, clusterSize) == Readable(es, next, clusterSize)
              && done + Listing(es, i, clusterSize)
                 == done + [Agreement.Entry(at, info)] + Listing(es, next, clusterSize)
            case End => Readable(es, i, clusterSize) && done + Listing(es, i, clusterSize) == done
            case Malformed => !Readable(es, i, clusterSize)
  {
    hide Scan;
  }

  // --- writing ---

  /** The first entries of a run have been written. */
  ghost predicate PutSome<K>(d: Disk<K>, k: K, i: nat, es: seq<Slot>, d1: Disk<K>)
    requires DirFile(d, k)
  {
    OnlyContent(d, k, d1) && i + |es| <= |EntriesOf(d, k)| && EntriesOf(d1, k) == Put(EntriesOf(d, k), i, es)
  }

  lemma PutNone<K>(d: Disk<K>, k: K, i: nat)
    requires DirFile(d, k) && i <= |EntriesOf(d, k)|
    ensures PutSome(d, k, i, [], d)
  {
    ContentSame(d, k);
    hide EntriesOf;
    assert Put(EntriesOf(d, k), i, []) == EntriesOf(d, k);
  }

  lemma PutOneMore<K>(d: Disk<K>, k: K, i: nat, es: seq<Slot>, d1: Disk<K>, e: Slot, d2: Disk<K>)
    requires DirFile(d, k) && PutSome(d, k, i, es, d1) && SlotWritten(d1, k, i + |es|, e, d2)
    ensures PutSome(d, k, i, es + [e], d2)
  {
    hide DirFile, EntriesOf, OnlyContent;
    ContentDirs(d, k, d1);
    ContentTwice(d, k, d1, d2);
    var all := EntriesOf(d, k);
    assert Put(all, i, es + [e]) == Put(all, i, es)[i + |es| := e];
  }

  lemma ContentDirs<K>(d: Disk<K>, k: K, d': Disk<K>)
    requires OnlyContent(d, k, d')
    ensures DirFile(d, k) && DirFile(d', k) && |EntriesOf(d', k)| == |EntriesOf(d, k)|
  {
    EntryCount(d, k);
    EntryCount(d', k);
  }

  lemma PutSomeDirs<K>(d: Disk<K>, k: K, i: nat, es: seq<Slot>, d1: Disk<K>)
    requires DirFile(d, k) && PutSome(d, k, i, es, d1)
    ensures DirFile(d1, k) && OnlyContent(d, k, d1) && |EntriesOf(d1, k)| == |EntriesOf(d, k)|
  {
    ContentDirs(d, k, d1);
  }

  /** Writes one whole entry at its place on the device. */
  method PutEntry(vol: Volume, dir: Node, cluster: u32, offset: nat, e: Slot)
    requires vol.MapFits() && DirFile(vol.Snapshot(), dir) && Here(vol.Snapshot(), dir, cluster, offset)
    modifies vol`heap
    ensures SlotWritten(old(vol.Snapshot()), dir, offset / ENTRY_SIZE, e, vol.Snapshot())
  {
    hide Consistent, Here, SlotWritten, DirFile, Write, Within;
    ghost var d := vol.Snapshot();
    DirKnown(vol, dir);
    SlotPut(d, dir, cluster, offset, e);
    vol.heap := Write(vol.heap, cluster, Within(offset, vol.clusterSize), e);
    assert vol.Snapshot() == d.(heap := vol.heap);
  }

  /** Writes entries one after another, the first at `offset`. */
  method PutEntries(vol: Volume, dir: Node, cluster: u32, offset: nat, es: seq<Slot>)
    requires vol.MapFits() && DirFile(vol.Snapshot(), dir) && Here(vol.Snapshot(), dir, cluster, offset)
    requires 0 < |es| && offset / ENTRY_SIZE + |es| <= |EntriesOf(vol.Snapshot(), dir)|
    modifies vol`heap
    ensures PutSome(old(vol.Snapshot()), dir, offset / ENTRY_SIZE, es, vol.Snapshot())
  {
    hide Consistent, Here, SlotWritten, PutSome, DirFile, EntriesOf, OnlyContent, Volume.Snapshot;
    ghost var d, at := vol.Snapshot(), offset / ENTRY_SIZE;
    var c, o := cluster, offset;
    var i := 0;
    PutNone(d, dir, at);
    assert es[..0] == [];
    HereAligned(d, dir, cluster, offset);
    EntryCount(d, dir);
    DirKnown(vol, dir);
    while true
      invariant i < |es| && o == offset + ENTRY_SIZE * i
      invariant PutSome(d, dir, at, es[..i], vol.Snapshot())
      invariant DirFile(vol.Snapshot(), dir) && Here(vol.Snapshot(), dir, c, o)
      decreases |es| - i
    {
      ghost var d1 := vol.Snapshot();
      PutEntry(vol, dir, c, o, es[i]);
      PutOneMore(d, dir, at, es[..i], d1, es[i], vol.Snapshot());
      assert es[..i] + [es[i]] == es[..i + 1];
      WrittenHere(d1, dir, at + i, es[i], vol.Snapshot(), c, o);
      i := i + 1;
      if i == |es| {
        assert es[..i] == es;
        return;
      }
      PutSomeDirs(d, dir, at, es[..i], vol.Snapshot());
      EntryCount(vol.Snapshot(), dir);
      DirKnown(vol, dir);
      c, o := NextEntry(vol, dir, c, o);
    }
  }

  lemma HereAligned<K>(d: Disk<K>, k: K, cluster: u32, offset: nat)
    requires DirFile(d, k) && Here(d, k, cluster, offset)
    ensures offset == ENTRY_SIZE * (offset / ENTRY_SIZE) && offset < d.files[k].size
  {
  }

  lemma WrittenHere<K>(d: Disk<K>, k: K, i: nat, e: Slot, d': Disk<K>, cluster: u32, offset: nat)
    requires SlotWritten(d, k, i, e, d') && Here(d, k, cluster, offset)
    ensures DirFile(d', k) && Here(d', k, cluster, offset)
  {
    HereStill(d, k, d', cluster, offset);
  }

  // --- deleting ---

  /** The first `n` entries of a run have been deleted. */
  ghost predicate ErasedSome<K>(d: Disk<K>, k: K, i: nat, n: nat, d1: Disk<K>)
    requires DirFile(d, k)
  {
    OnlyContent(d, k, d1) && i + n <= |EntriesOf(d, k)| && EntriesOf(d1, k) == Unlisted(EntriesOf(d, k), i, n)
  }

  lemma ErasedNone<K>(d: Disk<K>, k: K, i: nat)
    requires DirFile(d, k) && i <= |EntriesOf(d, k)|
    ensures ErasedSome(d, k, i, 0, d)
  {
    ContentSame(d, k);
    hide EntriesOf;
    assert Unlisted(EntriesOf(d, k), i, 0) == EntriesOf(d, k);
  }

  lemma ErasedOneMore<K>(d: Disk<K>, k: K, i: nat, n: nat, d1: Disk<K>, t: byte, d2: Disk<K>)
    requires DirFile(d, k) && ErasedSome(d, k, i, n, d1)
    requires i + n < |EntriesOf(d, k)| && t == EntriesOf(d, k)[i + n][0] % VALID
    requires DirFile(d1, k) && i + n < |EntriesOf(d1, k)|
    requires SlotWritten(d1, k, i + n, EntriesOf(d1, k)[i + n][0 := t], d2)
    ensures ErasedSome(d, k, i, n + 1, d2)
  {
    hide DirFile, EntriesOf, OnlyContent;
    ContentDirs(d, k, d1);
    ContentTwice(d, k, d1, d2);
    var all := EntriesOf(d, k);
    assert Unlisted(all, i, n + 1) == Unlisted(all, i, n)[i + n := Deleted(all[i + n])];
  }

  lemma ErasedSomeDirs<K>(d: Disk<K>, k: K, i: nat, n: nat, d1: Disk<K>)
    requires DirFile(d, k) && ErasedSome(d, k, i, n, d1)
    ensures DirFile(d1, k) && OnlyContent(d, k, d1) && |EntriesOf(d1, k)| == |EntriesOf(d, k)|
  {
    ContentDirs(d, k, d1);
  }

  /** Writes the type of an entry at its place on the device. */
  method PutType(vol: Volume, dir: Node, cluster: u32, offset: nat, t: byte)
    requires vol.MapFits() && DirFile(vol.Snapshot(), dir) && Here(vol.Snapshot(), dir, cluster, offset)
    modifies vol`heap
    ensures old(offset / ENTRY_SIZE < |EntriesOf(vol.Snapshot(), dir)|)
    ensures SlotWritten(old(vol.Snapshot()), dir, offset / ENTRY_SIZE,
                        old(EntriesOf(vol.Snapshot(), dir)[offset / ENTRY_SIZE][0 := t]), vol.Snapshot())
  {
    hide Consistent, Here, SlotWritten, DirFile, Write, Within, EntriesOf;
    ghost var d := vol.Snapshot();
    DirKnown(vol, dir);
    TypePut(d, dir, cluster, offset, t);
    vol.heap := Write(vol.heap, cluster, Within(offset, vol.clusterSize), [t]);
    assert vol.Snapshot() == d.(heap := vol.heap);
  }

  /** The types of a file's entries with the bit for "in use" taken away. */
  function DeletedType(i: nat): byte {
    if i == 0 then FILE - VALID else if i == 1 then FILE_INFO - VALID else FILE_NAME - VALID
  }

  lemma TypesOf(es: seq<Slot>, i: nat, r: Record, clusterSize: nat, j: nat)
    requires clusterSize > 0 && Good(r, clusterSize) && Placed(es, i, r) && j < Length(r)
    ensures i + j < |es| && DeletedType(j) == es[i + j][0] % VALID
  {
    hide Plausible, SetSum, Field;
    assert es[i + j] == es[i..i + Length(r)][j] == EntrySet(r)[j];
  }

  /** Takes the "in use" bit from every entry of a file; `r` is what they say. */
  method EraseEntry(vol: Volume, dir: Node, cluster: u32, offset: nat, nameEntries: nat, ghost r: Record)
    requires vol.MapFits() && DirFile(vol.Snapshot(), dir) && Here(vol.Snapshot(), dir, cluster, offset)
    requires Good(r, vol.clusterSize) && Placed(EntriesOf(vol.Snapshot(), dir), offset / ENTRY_SIZE, r)
    requires nameEntries == NameParts(r.name)
    modifies vol`heap
    ensures ErasedSome(old(vol.Snapshot()), dir, offset / ENTRY_SIZE, Length(r), vol.Snapshot())
  {
    hide Consistent, Here, SlotWritten, ErasedSome, DirFile, EntriesOf, OnlyContent, Volume.Snapshot, Good, Placed;
    ghost var d, at := vol.Snapshot(), offset / ENTRY_SIZE;
    ghost var es, size := EntriesOf(d, dir), vol.clusterSize;
    var c, o := cluster, offset;
    DirKnown(vol, dir);
    GoodName(r, size);
    TypesOf(es, at, r, size, 0);
    ErasedNone(d, dir, at);
    HereAligned(d, dir, cluster, offset);
    PutType(vol, dir, c, o, FILE - VALID);
    ErasedOneMore(d, dir, at, 0, d, DeletedType(0), vol.Snapshot());
    WrittenHere(d, dir, at, es[at][0 := DeletedType(0)], vol.Snapshot(), c, o);
    var i: nat := 1;
    while i < nameEntries + 2
      invariant 1 <= i <= nameEntries + 2 && o == offset + ENTRY_SIZE * (i - 1)
      invariant DirFile(vol.Snapshot(), dir) && Here(vol.Snapshot(), dir, c, o)
      invariant ErasedSome(d, dir, at, i, vol.Snapshot())
    {
      TypesOf(es, at, r, size, i);
      ErasedSomeDirs(d, dir, at, i, vol.Snapshot());
      EntryCount(vol.Snapshot(), dir);
      DirKnown(vol, dir);
      c, o := NextEntry(vol, dir, c, o);
      ghost var d1 := vol.Snapshot();
      PutType(vol, dir, c, o, if i == 1 then FILE_INFO - VALID else FILE_NAME - VALID);
      ErasedOneMore(d, dir, at, i, d1, DeletedType(i), vol.Snapshot());
      WrittenHere(d1, dir, at + i, EntriesOf(d1, dir)[at + i][0 := DeletedType(i)], vol.Snapshot(), c, o);
      i := i + 1;
    }
  }
}
