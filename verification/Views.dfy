/** How the outside view of a volume changes when one of its files is reshaped. */
module Views {
  import opened Bitmap
  import opened Clusters
  import opened Content
  import opened Layout
  import opened Growth
  import opened Files
  import opened FileSpec

  lemma ReshapedView<K>(d: Disk<K>, k: K, fat': seq<u32>, used': seq<bool>, heap': seq<seq<byte>>, f': File, n: nat)
    requires Consistent(d) && k in d.files && Reshaped(d, k, fat', used', heap', f', n)
    ensures var d' := Replaced(d, k, fat', used', heap', f');
            var chain' := Chain(fat', f'.contiguous, f'.start, n);
            && Consistent(d')
            && InHeap(chain', heap') && f'.size <= n * d.clusterSize
            && var s' := Raw(heap', d.clusterSize, chain')[..f'.size];
            && ViewOf(d') == View(d.clusterSize, CountClear(used'), ViewOf(d).files[k := s'])
  {
    hide Reshaped, OnlyFile, Raw, Chain, CountClear, FileOk, Disjoint, OwnedUsed, NoLeak, ClustersFor;
    ReshapedOnly(d, k, fat', used', heap', f', n);
    var d' := Replaced(d, k, fat', used', heap', f');
    ChainInHeap(d', k);
    FilesAfter(d, k, d');
  }

  lemma FilesAfter<K>(d: Disk<K>, k: K, d': Disk<K>)
    requires Consistent(d) && Consistent(d') && k in d.files && k in d'.files
    requires d'.files.Keys == d.files.Keys
    requires forall other :: other in d.files && other != k ==> Bytes(d', other) == Bytes(d, other)
    ensures ViewOf(d').files == ViewOf(d).files[k := Bytes(d', k)]
  {
    hide Bytes;
  }

  /** The bytes of a file, before any change, found in the chain it grew into. */
  lemma OldBytes<K>(d: Disk<K>, k: K, chain: seq<u32>)
    requires Consistent(d) && k in d.files && InHeap(chain, d.heap)
    requires Count(d, k) <= |chain| && chain[..Count(d, k)] == ChainOf(d, k)
    ensures var size := d.files[k].size;
            size <= |chain| * d.clusterSize && Bytes(d, k) == Raw(d.heap, d.clusterSize, chain)[..size]
  {
    hide Chain, FileOk, ClustersFor;
    var size, n := d.files[k].size, Count(d, k);
    ChainInHeap(d, k);
    RawPrefix(d.heap, d.clusterSize, chain, n);
    assert Raw(d.heap, d.clusterSize, chain)[..n * d.clusterSize][..size] == Raw(d.heap, d.clusterSize, chain)[..size];
  }

  /** Content after growing and, if asked, erasing. */
  lemma ErasedBytes(raw: seq<byte>, raw': seq<byte>, begin: nat, end: nat, e: nat)
    requires begin <= end <= e <= |raw|
    requires raw' == Splice(raw, begin, Zeros(e - begin))
    ensures raw'[..end] == Resized(raw[..begin], end)
  {
  }

  lemma CutBytes(s: seq<byte>, from: nat, to: nat)
    requires to <= from <= |s|
    ensures s[..to] == Resized(s[..from], to)
  {
  }

  /** What GrowFile needs of a file of a consistent volume. */
  lemma ReadyToGrow<K>(d: Disk<K>, k: K)
    requires Consistent(d) && k in d.files
    ensures Geometry(d) && FileOk(d.fat, d.size, d.files[k], Count(d, k))
    ensures forall c :: c in ChainOf(d, k) ==> d.used[c - FIRST_DATA]
    ensures ChainOf(d, k) == Chain(d.fat, d.files[k].contiguous, d.files[k].start, Count(d, k))
    ensures Linkable(d.fat, ChainOf(d, k)) && Walkable(d.heap, ChainOf(d, k))
    ensures CursorOk(d.fat, d.files[k], Count(d, k))
    ensures d.files[k].size <= MAX_COUNT * d.clusterSize
  {
    OwnChain(d, k);
    SoundWalkable(d.fat, d.heap, d.size, ChainOf(d, k));
    ChainFits(ChainOf(d, k), d.size);
    ClustersForBounds(d.files[k].size, d.clusterSize);
    ProductMonotone(Count(d, k), MAX_COUNT, d.clusterSize);
  }

  lemma SoundWalkable(fat: seq<u32>, heap: seq<seq<byte>>, size: nat, chain: seq<u32>)
    requires Sound(chain, size) && size + 3 <= LAST_DATA && |fat| >= size + 4 && |heap| == size + 2
    ensures Linkable(fat, chain) && Walkable(heap, chain)
  {
    forall i | 0 <= i < |chain|
      ensures InMap(chain[i], size)
    {
      assert chain[i] in chain;
    }
  }

  /** A sound chain has no more clusters than the map has bits. */
  lemma ChainFits(chain: seq<u32>, size: nat)
    requires Sound(chain, size)
    ensures |chain| <= size
  {
    DistinctCount(chain);
    Pigeonhole((set c: u32 | c in chain), size);
  }

  lemma {:induction false} DistinctCount(chain: seq<u32>)
    requires Distinct(chain)
    ensures |set c: u32 | c in chain| == |chain|
  {
    if chain != [] {
      var n := |chain| - 1;
      DistinctCount(chain[..n]);
      var members := set c: u32 | c in chain[..n];
      assert chain == chain[..n] + [chain[n]];
      assert (set c: u32 | c in chain) == members + {chain[n]};
      assert chain[n] !in members;
    }
  }

  lemma {:induction false} Pigeonhole(members: set<u32>, size: nat)
    requires forall c :: c in members ==> InMap(c, size)
    ensures |members| <= size
  {
    if size == 0 {
      assert members == {};
    } else {
      var last := size - 1 + FIRST_DATA;
      var rest := set c | c in members && c != last;
      Pigeonhole(rest, size - 1);
      assert members == if last in members then rest + {last} else rest;
    }
  }

  /** No consistent volume has a file of more clusters than the 32-bit count can hold: a truncation to such a size that
      succeeds, because the count was cut, breaks the invariant whatever else it does. */
  lemma OversizeBreaks<K>(d: Disk<K>, k: K)
    requires k in d.files && d.files[k].size > MAX_COUNT * d.clusterSize
    ensures !Consistent(d)
  {
    if Consistent(d) {
      ReadyToGrow(d, k);
    }
  }

  /** Truncation to fewer clusters. */
  lemma TruncatedShorter<K>(d: Disk<K>, k: K, size: nat, fat': seq<u32>, used': seq<bool>, g: File, f': File)
    requires Consistent(d) && k in d.files && ClustersFor(size, d.clusterSize) < Count(d, k)
    requires Shrunk(d.fat, d.used, d.files[k], Count(d, k), Count(d, k) - ClustersFor(size, d.clusterSize),
                    fat', used', g)
    requires f' == g.(size := size)
    ensures var d' := Replaced(d, k, fat', used', d.heap, f');
            Consistent(d') && forall erase :: Truncates(ViewOf(d), k, size, erase, true, ViewOf(d'))
  {
    hide FileOk, CursorOk, ClustersFor, FilesOk, OwnedUsed, Disjoint, NoLeak, Uniform, Nth;
    var n, n' := Count(d, k), ClustersFor(size, d.clusterSize);
    ShrunkReshaped(d, k, n - n', fat', used', g, f');
    ShrunkCount(d, k, n - n', fat', used', g);
    ReshapedView(d, k, fat', used', d.heap, f', n');
    ChainInHeap(d, k);
    var chain := ChainOf(d, k);
    RawPrefix(d.heap, d.clusterSize, chain, n');
    if size > d.files[k].size {
      ClustersForMonotone(d.files[k].size, size, d.clusterSize);
    }
    assert Raw(d.heap, d.clusterSize, chain)[..n' * d.clusterSize][..size] == Raw(d.heap, d.clusterSize, chain)[..size];
    CutBytes(Raw(d.heap, d.clusterSize, chain), d.files[k].size, size);
  }

  /** Truncation to as many clusters, or to more, after growing and perhaps erasing. */
  lemma TruncatedLonger<K>(d: Disk<K>, k: K, size: nat, erase: bool, fat': seq<u32>, used': seq<bool>, g: File,
                           heap': seq<seq<byte>>, f': File)
    requires Consistent(d) && k in d.files && Count(d, k) <= ClustersFor(size, d.clusterSize)
    requires Grown(d.fat, d.used, d.files[k], Count(d, k), ClustersFor(size, d.clusterSize) - Count(d, k),
                   fat', used', g)
    requires f' == g.(size := size, index := f'.index, cursor := f'.cursor)
    requires CursorOk(fat', f', ClustersFor(size, d.clusterSize))
    requires var chain := Chain(fat', g.contiguous, g.start, ClustersFor(size, d.clusterSize));
             if erase && d.files[k].size < size then
               Erased(d.heap, d.clusterSize, chain, d.files[k].size, size, heap')
             else heap' == d.heap
    ensures var d' := Replaced(d, k, fat', used', heap', f');
            && Consistent(d') && Truncates(ViewOf(d), k, size, erase, true, ViewOf(d'))
  {
    hide FileOk, CursorOk, ClustersFor, FilesOk, OwnedUsed, Disjoint, NoLeak, Uniform, Nth, Trap, InMap, Mark,
         Reshaped, Grown, Chain, Erased, Raw, OnlyIn, Walkable, Distinct;
    var n, n' := Count(d, k), ClustersFor(size, d.clusterSize);
    var chain := Chain(fat', g.contiguous, g.start, n');
    var from := d.files[k].size;
    GrownFacts(d, k, fat', used', g, n');
    HeapAfter(d.heap, d.clusterSize, chain, from, size, erase, heap');
    GrownReshaped(d, k, n' - n, fat', used', g, heap', f');
    GrownCount(d, k, n' - n, fat', used', g);
    ReshapedView(d, k, fat', used', heap', f', n');
    OldBytes(d, k, chain);
    hide Replaced, CountClear;
    LongerBytes(Raw(d.heap, d.clusterSize, chain), Raw(heap', d.clusterSize, chain), from, size, erase,
                if size <= from - from % d.clusterSize + d.clusterSize then size else n' * d.clusterSize);
  }

  lemma GrownFacts<K>(d: Disk<K>, k: K, fat': seq<u32>, used': seq<bool>, g: File, n: nat)
    requires Consistent(d) && k in d.files && Count(d, k) <= n
    requires Grown(d.fat, d.used, d.files[k], Count(d, k), n - Count(d, k), fat', used', g)
    ensures var chain := Chain(fat', g.contiguous, g.start, n);
            && Walkable(d.heap, chain) && Distinct(chain) && InHeap(chain, d.heap) && |chain| == n
            && chain[..Count(d, k)] == ChainOf(d, k)
    ensures d.clusterSize > 0 && Uniform(d.heap, d.clusterSize)
  {
    hide Nth, Trap, Mark, Uniform, ClustersFor;
    GrownWalkable(d, k, fat', used', g, n);
  }

  /** The heap of a longer file: only its own clusters differ, and they hold zeros where it was erased. */
  lemma HeapAfter(heap: seq<seq<byte>>, size: nat, chain: seq<u32>, begin: nat, end: nat, erase: bool,
                  heap': seq<seq<byte>>)
    requires size > 0 && Uniform(heap, size) && InHeap(chain, heap) && Distinct(chain)
    requires |chain| == ClustersFor(end, size)
    requires if erase && begin < end then Erased(heap, size, chain, begin, end, heap') else heap' == heap
    ensures |heap'| == |heap| && Uniform(heap', size) && OnlyIn(heap, heap', chain) && InHeap(chain, heap')
    ensures var e := if end <= begin - begin % size + size then end else |chain| * size;
            var raw, raw' := Raw(heap, size, chain), Raw(heap', size, chain);
            if erase && begin < end then
              begin <= e <= |raw| && raw' == Splice(raw, begin, Zeros(e - begin))
            else raw' == raw
  {
    hide Raw, Splice;
  }

  lemma LongerBytes(raw: seq<byte>, raw': seq<byte>, from: nat, size: nat, erase: bool, e: nat)
    requires from <= |raw| && size <= |raw|
    requires if erase && from < size then size <= e <= |raw| && raw' == Splice(raw, from, Zeros(e - from))
             else raw' == raw
    ensures |raw'| == |raw|
    ensures forall i :: 0 <= i < from && i < size ==> raw'[..size][i] == raw[..from][i]
    ensures erase ==> raw'[..size] == Resized(raw[..from], size)
  {
    if erase && from < size {
      ErasedBytes(raw, raw', from, size, e);
    } else if size <= from {
      CutBytes(raw, from, size);
    }
  }

  lemma GrownWalkable<K>(d: Disk<K>, k: K, fat': seq<u32>, used': seq<bool>, g: File, n: nat)
    requires Consistent(d) && k in d.files && Count(d, k) <= n
    requires Grown(d.fat, d.used, d.files[k], Count(d, k), n - Count(d, k), fat', used', g)
    ensures Walkable(d.heap, Chain(fat', g.contiguous, g.start, n)) && Distinct(Chain(fat', g.contiguous, g.start, n))
    ensures CursorOk(fat', g, n)
  {
    SoundWalkable(fat', d.heap, d.size, Chain(fat', g.contiguous, g.start, n));
  }

  /** A refused truncation leaves the volume as it looked. */
  lemma TruncationRefused<K>(d: Disk<K>, k: K, size: nat, fat': seq<u32>, used': seq<bool>, f': File)
    requires Consistent(d) && k in d.files && Cost(d.files[k].size, size, d.clusterSize) > CountClear(d.used)
    requires RolledBack(d.fat, d.used, d.files[k], Count(d, k), fat', used', f')
    ensures var d' := Replaced(d, k, fat', used', d.heap, f');
            Consistent(d') && forall erase :: Truncates(ViewOf(d), k, size, erase, false, ViewOf(d'))
  {
    hide FileOk, CursorOk, ClustersFor, FilesOk, OwnedUsed, Disjoint, NoLeak, Uniform, Nth;
    RolledBackReshaped(d, k, fat', used', f');
    ReshapedView(d, k, fat', used', d.heap, f', Count(d, k));
    assert ViewOf(d).files[k := Bytes(d, k)] == ViewOf(d).files;
  }

  /** In the trap exactly one bit is clear. */
  lemma TrapCount(used: seq<bool>, f: File, n: nat)
    requires Trap(used, f, n)
    ensures CountClear(used) == 1
  {
    var i := f.start - 1 - FIRST_DATA;
    CountAfterUpdate(used, i, true);
    CountClearZero(used[i := true]);
  }

  /** The two clusters the trapped file seems to have can still be gone to. */
  lemma TrapWalkable<K>(d: Disk<K>, k: K, f: File)
    requires Consistent(d) && k in d.files && Trap(d.used, d.files[k], Count(d, k))
    requires f.contiguous && f.start == d.files[k].start
    ensures Walkable(d.heap, Chain(d.fat, f.contiguous, f.start, 2))
  {
    OwnChain(d, k);
    var chain := Chain(d.fat, f.contiguous, f.start, 2);
    assert ChainOf(d, k)[0] == f.start;
    assert Nth(d.fat, true, f.start, 1) == f.start + 1;
  }

  /** `d'` is what has become of `d` after the trap in which `k` stood has sprung: the cluster before the file is marked
      as used, and the file begins where it did. */
  ghost predicate Leaking<K>(d: Disk<K>, k: K, d': Disk<K>)
    requires k in d.files
  {
    && d'.clusterSize == d.clusterSize && d'.size == d.size && d'.reserved == d.reserved && d'.fat == d.fat
    && k in d'.files && d'.files == d.files[k := d'.files[k]]
    && d'.files[k].contiguous && d'.files[k].start == d.files[k].start > FIRST_DATA
    && IsUsed(d', d.files[k].start - 1)
  }

  /** The cluster before the file is marked as used but belongs to nobody. */
  ghost predicate Leaky<K>(d: Disk<K>, k: K) {
    && d.clusterSize > 0 && k in d.files && d.files[k].contiguous && d.files[k].start > FIRST_DATA
    && IsUsed(d, d.files[k].start - 1) && d.files[k].start - 1 !in d.reserved
    && forall other :: other in d.files && other != k ==> !Owns(d, other, d.files[k].start - 1)
  }

  lemma LeakyBroken<K>(d: Disk<K>, k: K)
    requires Leaky(d, k)
    ensures !Consistent(d)
  {
    var lost := d.files[k].start - 1;
    if Consistent(d) {
      var owner :| owner in d.files && Owns(d, owner, lost);
      OwnChain(d, k);
      ContiguousRun(d.fat, d.files[k].start, Count(d, k), d.size);
    }
  }

  lemma LeakingLeaky<K>(d: Disk<K>, k: K, d': Disk<K>)
    requires Consistent(d) && k in d.files && Trap(d.used, d.files[k], Count(d, k)) && Leaking(d, k, d')
    ensures Leaky(d', k)
  {
    hide Chain, Nth, Uniform, FilesOk, Disjoint;
    var lost := d.files[k].start - 1;
    assert !IsUsed(d, lost);
    forall other | other in d.files && other != k
      ensures !Owns(d', other, lost)
    {
      assert ChainOf(d', other) == ChainOf(d, other);
      assert !Owns(d, other, lost);
    }
  }

  /** Once the trap has sprung, no size the file may be given makes the volume consistent again. */
  lemma LeakBreaksAnySize<K>(d: Disk<K>, k: K, d': Disk<K>)
    requires Consistent(d) && k in d.files && Trap(d.used, d.files[k], Count(d, k)) && Leaking(d, k, d')
    ensures !Consistent(d') && Leaky(d', k)
  {
    LeakingLeaky(d, k, d');
    LeakyBroken(d', k);
  }

  /** Growing the file `k` to `size` bytes would spring the trap of cluster.c:288. */
  ghost predicate Springs<K>(d: Disk<K>, k: K, size: nat)
    requires d.clusterSize > 0 && k in d.files
  {
    Trap(d.used, d.files[k], Count(d, k)) && Cost(d.files[k].size, size, d.clusterSize) > 0
  }

  /** Other files keep their chains, and the file itself the clusters it had as far as both sizes reach. */
  ghost predicate ChainsKept<K>(d: Disk<K>, k: K, d': Disk<K>)
    requires Consistent(d) && k in d.files
  {
    Consistent(d') ==>
      && d'.clusterSize == d.clusterSize && k in d'.files && d'.files == d.files[k := d'.files[k]]
      && (forall other :: other in d.files && other != k ==> ChainOf(d', other) == ChainOf(d, other))
      && (forall i :: 0 <= i < |ChainOf(d, k)| && i < |ChainOf(d', k)| ==> ChainOf(d', k)[i] == ChainOf(d, k)[i])
  }

  /** What a truncation promises: the volume stays consistent exactly when the trap was not sprung, and then
      it looks as `Truncates` says. */
  ghost predicate Truncated<K>(d: Disk<K>, k: K, size: nat, erase: bool, ok: bool, d': Disk<K>)
    requires Consistent(d) && k in d.files
  {
    && (Consistent(d') <==> !Springs(d, k, size))
    && (Consistent(d') ==> Truncates(ViewOf(d), k, size, erase, ok, ViewOf(d')))
    && (Consistent(d') && ok && size >= d.files[k].size && k in d'.files ==>
          (Trap(d'.used, d'.files[k], Count(d', k))
           <==> Trap(d.used, d.files[k], Count(d, k)) && Cost(d.files[k].size, size, d.clusterSize) == 0))
    && (Consistent(d') && Cost(d.files[k].size, size, d.clusterSize) < 0 && k in d'.files ==>
          !Trap(d'.used, d'.files[k], Count(d', k)))
    && (size == d.files[k].size ==> d' == d)
    && ChainsKept(d, k, d')
    && (Springs(d, k, size) ==>
          Leaky(d', k) && d'.clusterSize == d.clusterSize && (ok ==> Sprung(d', k) && d'.files[k].size == size))
  }

  /** A file that the trap has made one cluster longer than its chain, on a map that is now full. */
  ghost predicate Sprung<K>(d: Disk<K>, k: K) {
    && Geometry(d) && k in d.files && Count(d, k) == 2 && Full(d.used)
    && d.files[k].contiguous && d.files[k].start != FREE && CursorOk(d.fat, d.files[k], 2)
    && Walkable(d.heap, Chain(d.fat, true, d.files[k].start, 2))
  }

  /** What a truncation to no fewer bytes does to such a file: it cannot grow any more, and only its own content, size
      and cursor can change. */
  ghost predicate Stretched<K>(d: Disk<K>, k: K, size: nat, ok: bool, d': Disk<K>)
    requires d.clusterSize > 0 && k in d.files
  {
    && (ok <==> ClustersFor(size, d.clusterSize) <= 2)
    && Sprung(d', k) && d'.files[k].size == (if ok then size else d.files[k].size)
    && d'.files[k].start == d.files[k].start
    && d' == Replaced(d, k, d.fat, d.used, d'.heap, d'.files[k])
  }

  /** What is needed to grow such a file and to erase in it. */
  lemma SprungReady<K>(d: Disk<K>, k: K, size: nat)
    requires Sprung(d, k) && size >= d.files[k].size
    ensures ClustersFor(size, d.clusterSize) >= Count(d, k) == 2 && Stuck(d.fat, d.used, d.files[k], 2)
    ensures d.files[k].size <= MAX_COUNT * d.clusterSize && d.clusterSize <= 0x200_0000 && Geometry(d)
    ensures Walkable(d.heap, Chain(d.fat, d.files[k].contiguous, d.files[k].start, 2))
    ensures CursorOk(d.fat, d.files[k], 2)
  {
    hide Uniform, CursorOk, Full;
    ClustersForMonotone(d.files[k].size, size, d.clusterSize);
    ClustersForBounds(d.files[k].size, d.clusterSize);
    WalkableMeans(d.heap, Chain(d.fat, true, d.files[k].start, 2));
    hide Walkable;
  }

  lemma WalkableMeans(heap: seq<seq<byte>>, chain: seq<u32>)
    requires Walkable(heap, chain)
    ensures forall i :: 0 <= i < |chain| ==> !Invalid(chain[i])
  {
  }

  lemma StretchRefused<K>(d: Disk<K>, k: K, size: nat, f': File)
    requires Sprung(d, k) && ClustersFor(size, d.clusterSize) > 2
    requires f' == d.files[k].(index := f'.index, cursor := f'.cursor) && CursorOk(d.fat, f', 2)
    ensures Stretched(d, k, size, false, Replaced(d, k, d.fat, d.used, d.heap, f'))
  {
    hide Uniform, CursorOk, Full, ClustersFor, Walkable;
  }

  lemma StretchEnds<K>(d: Disk<K>, k: K, size: nat, erase: bool, heap': seq<seq<byte>>, f': File)
    requires Sprung(d, k) && size >= d.files[k].size && ClustersFor(size, d.clusterSize) == 2
    requires f' == d.files[k].(size := size, index := f'.index, cursor := f'.cursor) && CursorOk(d.fat, f', 2)
    requires if erase && d.files[k].size < size then
               Erased(d.heap, d.clusterSize, Chain(d.fat, d.files[k].contiguous, d.files[k].start, 2), d.files[k].size,
                      size, heap')
             else heap' == d.heap
    ensures Stretched(d, k, size, true, Replaced(d, k, d.fat, d.used, heap', f'))
  {
    hide CursorOk, Full, ClustersFor, Raw;
    var chain := Chain(d.fat, true, d.files[k].start, 2);
    assert |heap'| == |d.heap|;
  }

  /** The leak stays through whatever happens to the file afterwards. */
  lemma LeakStays<K>(d: Disk<K>, k: K, d': Disk<K>)
    requires Leaky(d, k) && k in d'.files && d' == Replaced(d, k, d.fat, d.used, d'.heap, d'.files[k])
    requires d'.files[k].contiguous && d'.files[k].start == d.files[k].start
    ensures Leaky(d', k) && !Consistent(d')
  {
    hide Chain, Nth, Consistent;
    forall other | other in d'.files && other != k
      ensures !Owns(d', other, d.files[k].start - 1)
    {
      assert !Owns(d, other, d.files[k].start - 1);
    }
    LeakyBroken(d', k);
  }

  lemma TruncationToSame<K>(d: Disk<K>, k: K, erase: bool)
    requires Consistent(d) && k in d.files
    ensures Truncated(d, k, d.files[k].size, erase, true, d)
  {
    var v := ViewOf(d);
    hide Bytes, CountClear, ChainsKept;
    ChainsUnmoved(d, k);
    assert v.files[k := v.files[k]] == v.files;
  }

  /** Everything a truncation's end needs to know about its middle. */
  ghost predicate Resizing<K>(d: Disk<K>, k: K, size: nat, fat: seq<u32>, used: seq<bool>, g: File)
    requires Consistent(d) && k in d.files
  {
    var n, n' := Count(d, k), ClustersFor(size, d.clusterSize);
    && g.size == d.files[k].size
    && if n' > n && Trap(d.used, d.files[k], n) then
         n' == n + 1 && Leaked(d.fat, d.files[k], fat, used, g) && used == SetFlag(d.used, d.files[k].start - 1, true)
       else if n' >= n then Grown(d.fat, d.used, d.files[k], n, n' - n, fat, used, g)
       else Shrunk(d.fat, d.used, d.files[k], n, n - n', fat, used, g)
  }

  /** The chain is ready to be erased in. */
  lemma ResizingWalkable<K>(d: Disk<K>, k: K, size: nat, fat: seq<u32>, used: seq<bool>, g: File)
    requires Consistent(d) && k in d.files && Resizing(d, k, size, fat, used, g)
    ensures Walkable(d.heap, Chain(fat, g.contiguous, g.start, ClustersFor(size, d.clusterSize)))
    ensures CursorOk(fat, g, ClustersFor(size, d.clusterSize))
  {
    hide ClustersFor, Trap, Grown, Leaked, CursorOk, Walkable, FileOk, OwnedUsed, Disjoint, NoLeak, FilesOk, Uniform;
    var n, n' := Count(d, k), ClustersFor(size, d.clusterSize);
    if n' > n && Trap(d.used, d.files[k], n) {
      LeakedFields(d.fat, d.files[k], fat, used, g);
      TrapStart(d.used, d.files[k], n);
      TrapWalkable(d, k, g);
    } else if n' >= n {
      GrownWalkable(d, k, fat, used, g, n');
    } else {
      ReadyToGrow(d, k);
      PrefixWalkable(d.heap, ChainOf(d, k), n');
      StartCursor(fat, g, n');
    }
  }

  lemma LeakedFields(fat0: seq<u32>, f0: File, fat: seq<u32>, used: seq<bool>, f: File)
    requires Leaked(fat0, f0, fat, used, f)
    ensures fat == fat0 && f.contiguous && f.start == f0.start && CursorOk(fat, f, 2)
  {
  }

  lemma StartCursor(fat: seq<u32>, f: File, n: nat)
    requires f.index == 0 && f.cursor == f.start
    ensures CursorOk(fat, f, n)
  {
  }

  lemma PrefixWalkable(heap: seq<seq<byte>>, chain: seq<u32>, n: nat)
    requires Walkable(heap, chain) && n <= |chain|
    ensures Walkable(heap, chain[..n])
  {
  }

  /** Growth that succeeded, shrinking, and no change of clusters all lead to Resizing. */
  lemma Resizes<K>(d: Disk<K>, k: K, size: nat, fat: seq<u32>, used: seq<bool>, g: File)
    requires Consistent(d) && k in d.files
    requires var n, n' := Count(d, k), ClustersFor(size, d.clusterSize);
             if n' > n then GrowOutcome(d.fat, d.used, d.files[k], n, n' - n, true, fat, used, g)
             else if n' < n then Shrunk(d.fat, d.used, d.files[k], n, n - n', fat, used, g)
             else fat == d.fat && used == d.used && g == d.files[k]
    ensures Resizing(d, k, size, fat, used, g)
    ensures Walkable(d.heap, Chain(fat, g.contiguous, g.start, ClustersFor(size, d.clusterSize)))
    ensures CursorOk(fat, g, ClustersFor(size, d.clusterSize))
  {
    hide ClustersFor, Trap, FileOk, CountClear, CursorOk, Walkable;
    var n, n' := Count(d, k), ClustersFor(size, d.clusterSize);
    if n' > n && Trap(d.used, d.files[k], n) {
      TrapCount(d.used, d.files[k], n);
    } else if n' == n {
      ReadyToGrow(d, k);
      GrowNothing(d.fat, d.used, d.files[k], n);
    }
    ResizingWalkable(d, k, size, fat, used, g);
  }

  lemma GrowthRefused<K>(d: Disk<K>, k: K, size: nat, fat': seq<u32>, used': seq<bool>, f': File)
    requires Consistent(d) && k in d.files && ClustersFor(size, d.clusterSize) > Count(d, k)
    requires GrowOutcome(d.fat, d.used, d.files[k], Count(d, k), ClustersFor(size, d.clusterSize) - Count(d, k), false,
                         fat', used', f')
    ensures forall erase :: Truncated(d, k, size, erase, false, Replaced(d, k, fat', used', d.heap, f'))
  {
    hide ClustersFor, Trap, FileOk, RolledBack, Leaked, CountClear, ChainsKept;
    ChainsRefused(d, k, size, fat', used', f');
    if Trap(d.used, d.files[k], Count(d, k)) {
      LeakAfter(d, k, f'.size, fat', used', f', d.heap, f');
    } else {
      TruncationRefused(d, k, size, fat', used', f');
    }
  }

  /** The end of a truncation: `h` are the node's fields before the new size is set. */
  lemma TruncationEnds<K>(d: Disk<K>, k: K, size: nat, erase: bool, fat: seq<u32>, used: seq<bool>, g: File,
                          heap': seq<seq<byte>>, h: File)
    requires Consistent(d) && k in d.files && Resizing(d, k, size, fat, used, g) && size != d.files[k].size
    requires h == g.(index := h.index, cursor := h.cursor) && (size <= d.files[k].size ==> h == g)
    requires CursorOk(fat, h, ClustersFor(size, d.clusterSize))
    requires if erase && d.files[k].size < size then
               Erased(d.heap, d.clusterSize, Chain(fat, g.contiguous, g.start, ClustersFor(size, d.clusterSize)),
                      d.files[k].size, size, heap')
             else heap' == d.heap
    ensures Truncated(d, k, size, erase, true, Replaced(d, k, fat, used, heap', h.(size := size)))
  {
    hide ClustersFor, Trap, Grown, Shrunk, Erased, Chain, CursorOk, FileOk, OwnedUsed, Disjoint, NoLeak, FilesOk,
         ChainsKept;
    ChainsEnd(d, k, size, fat, used, g, heap', h);
    var n, n' := Count(d, k), ClustersFor(size, d.clusterSize);
    CursorResized(fat, h, n', size);
    TrapResized(used, g, h.(size := size), n');
    CostSign(d.files[k].size, size, d.clusterSize);
    if n' > n && Trap(d.used, d.files[k], n) {
      LeakAfter(d, k, size, fat, used, g, heap', h.(size := size));
      TrapStart(d.used, d.files[k], n);
      SprungAfter(d, k, size, erase, fat, used, g, heap', h.(size := size));
    } else if n' >= n {
      TruncatedLonger(d, k, size, erase, fat, used, g, heap', h.(size := size));
      GrownTrap(d.fat, d.used, d.files[k], n, n' - n, fat, used, g);
    } else {
      TruncatedShorter(d, k, size, fat, used, g, h.(size := size));
      ShrunkNotTrapped(d, k, n', fat, used, g);
    }
  }

  /** A file that has been made shorter does not stand in the trap: the cluster after it is free. */
  lemma ShrunkNotTrapped<K>(d: Disk<K>, k: K, n: nat, fat: seq<u32>, used: seq<bool>, g: File)
    requires Consistent(d) && k in d.files && n < Count(d, k)
    requires Shrunk(d.fat, d.used, d.files[k], Count(d, k), Count(d, k) - n, fat, used, g)
    ensures !Trap(used, g, n)
  {
    OwnChain(d, k);
    if n == 1 && g.contiguous {
      ContiguousRun(d.fat, d.files[k].start, Count(d, k), d.size);
      hide Consistent, Nth, Chain, ClustersFor, Distinct;
      NextFree(d.used, ChainOf(d, k), d.size);
    }
  }

  /** The second cluster of a chain cut after the first is free. */
  lemma NextFree(used: seq<bool>, chain: seq<u32>, size: nat)
    requires |chain| > 1 && |used| == size && forall c :: c in chain ==> InMap(c, size)
    ensures InMap(chain[1], size) && !Mark(used, chain[1..], false)[chain[1] - FIRST_DATA]
  {
    assert chain[1] in chain && chain[1..][0] == chain[1];
  }

  lemma SprungAfter<K>(d: Disk<K>, k: K, size: nat, erase: bool, fat: seq<u32>, used: seq<bool>, g: File,
                       heap': seq<seq<byte>>, f': File)
    requires Consistent(d) && k in d.files && Trap(d.used, d.files[k], Count(d, k))
    requires ClustersFor(size, d.clusterSize) == 2 && Leaked(d.fat, d.files[k], fat, used, g)
    requires used == SetFlag(d.used, d.files[k].start - 1, true)
    requires f' == g.(size := size, index := f'.index, cursor := f'.cursor) && CursorOk(fat, f', 2)
    requires if erase && d.files[k].size < size then
               Erased(d.heap, d.clusterSize, Chain(fat, g.contiguous, g.start, 2), d.files[k].size, size, heap')
             else heap' == d.heap
    ensures Sprung(Replaced(d, k, fat, used, heap', f'), k)
  {
    TrapWalkable(d, k, g);
    hide CursorOk, ClustersFor, Raw, FilesOk, OwnedUsed, Disjoint, NoLeak, Chain, Nth;
    assert |heap'| == |d.heap| && Uniform(heap', d.clusterSize);
  }

  /** A truncation may be asked of a file of a consistent volume, or, to no fewer bytes, of one whose trap has
      sprung. */
  ghost predicate Resizable<K>(d: Disk<K>, k: K, size: nat) {
    k in d.files && (Consistent(d) || (Sprung(d, k) && size >= d.files[k].size))
  }

  /** What truncation promises: on a consistent volume a file of the new size or a refusal; after the trap has
      sprung, that nothing gets better. */
  ghost predicate TruncateOutcome<K>(d: Disk<K>, k: K, size: nat, erase: bool, ok: bool, d': Disk<K>)
    requires k in d.files && d.clusterSize > 0
  {
    if Consistent(d) then Truncated(d, k, size, erase, ok, d') else Stretched(d, k, size, ok, d')
  }

  lemma ResizeBegins<K>(d: Disk<K>, k: K, size: nat)
    requires Resizable(d, k, size) && size <= MAX_COUNT * d.clusterSize
    ensures d.clusterSize > 0 && |d.fat| >= d.size + 4 && |d.used| == d.size && Uniform(d.heap, d.clusterSize)
    ensures Bytes2Clusters(d.files[k].size, d.clusterSize) == Count(d, k)
    ensures Bytes2Clusters(size, d.clusterSize) == ClustersFor(size, d.clusterSize)
    ensures if Consistent(d) then
              && FileOk(d.fat, d.size, d.files[k], Count(d, k)) && Linkable(d.fat, ChainOf(d, k))
              && ChainOf(d, k) == Chain(d.fat, d.files[k].contiguous, d.files[k].start, Count(d, k))
              && (forall c :: c in ChainOf(d, k) ==> d.used[c - FIRST_DATA])
              && CursorOk(d.fat, d.files[k], Count(d, k)) && (Count(d, k) > 0 ==> d.files[k].start != FREE)
            else Stuck(d.fat, d.used, d.files[k], Count(d, k)) && Count(d, k) == 2 <= ClustersFor(size, d.clusterSize)
  {
    hide Bytes2Clusters, ClustersFor, Stuck, Uniform;
    if Consistent(d) {
      ReadyToGrow(d, k);
    } else {
      SprungReady(d, k, size);
    }
    Bytes2ClustersExact(d.files[k].size, d.clusterSize);
    Bytes2ClustersExact(size, d.clusterSize);
  }

  lemma ResizeToSame<K>(d: Disk<K>, k: K, erase: bool)
    requires k in d.files && d.clusterSize > 0 && Resizable(d, k, d.files[k].size)
    ensures TruncateOutcome(d, k, d.files[k].size, erase, true, d)
  {
    hide Consistent, Truncated;
    if Consistent(d) {
      TruncationToSame(d, k, erase);
    } else {
      StretchEnds(d, k, d.files[k].size, erase, d.heap, d.files[k]);
      assert d.files[k := d.files[k]] == d.files;
    }
  }

  lemma ResizeRefused<K>(d: Disk<K>, k: K, size: nat, erase: bool, fat: seq<u32>, used: seq<bool>, f': File)
    requires Resizable(d, k, size) && d.clusterSize > 0 && ClustersFor(size, d.clusterSize) > Count(d, k)
    requires if Consistent(d) then
               GrowOutcome(d.fat, d.used, d.files[k], Count(d, k), ClustersFor(size, d.clusterSize) - Count(d, k),
                           false, fat, used, f')
             else
               && fat == d.fat && used == d.used && f' == d.files[k].(index := f'.index, cursor := f'.cursor)
               && CursorOk(fat, f', Count(d, k))
    ensures TruncateOutcome(d, k, size, erase, false, Replaced(d, k, fat, used, d.heap, f'))
  {
    hide Consistent, Truncated, GrowOutcome, ClustersFor, Stretched, CursorOk;
    if Consistent(d) {
      GrowthRefused(d, k, size, fat, used, f');
    } else {
      SprungCount(d, k);
      StretchRefused(d, k, size, f');
    }
  }

  lemma SprungCount<K>(d: Disk<K>, k: K)
    requires Sprung(d, k)
    ensures d.clusterSize > 0 && k in d.files && Count(d, k) == 2 && d.files[k].contiguous
  {
  }

  /** The file has the clusters that `size` bytes need; its size and its bytes are still to be changed. */
  ghost predicate ClustersChanged<K>(d: Disk<K>, k: K, size: nat, fat: seq<u32>, used: seq<bool>, g: File)
    requires k in d.files && d.clusterSize > 0
  {
    var n := ClustersFor(size, d.clusterSize);
    && Walkable(d.heap, Chain(fat, g.contiguous, g.start, n)) && CursorOk(fat, g, n)
    && if Consistent(d) then Resizing(d, k, size, fat, used, g)
       else fat == d.fat && used == d.used && g == d.files[k] && n == 2
  }

  lemma ClustersThere<K>(d: Disk<K>, k: K, size: nat, fat: seq<u32>, used: seq<bool>, g: File)
    requires k in d.files && d.clusterSize > 0 && ClustersChanged(d, k, size, fat, used, g)
    ensures var n := ClustersFor(size, d.clusterSize);
            Walkable(d.heap, Chain(fat, g.contiguous, g.start, n)) && CursorOk(fat, g, n)
  {
    hide Consistent, Walkable, CursorOk, Chain, Resizing;
  }

  lemma ResizeGoesOn<K>(d: Disk<K>, k: K, size: nat, fat: seq<u32>, used: seq<bool>, g: File)
    requires Resizable(d, k, size) && d.clusterSize > 0
    requires var n, n' := Count(d, k), ClustersFor(size, d.clusterSize);
             if !Consistent(d) then n' == n && fat == d.fat && used == d.used && g == d.files[k]
             else if n' > n then GrowOutcome(d.fat, d.used, d.files[k], n, n' - n, true, fat, used, g)
             else if n' < n then Shrunk(d.fat, d.used, d.files[k], n, n - n', fat, used, g)
             else fat == d.fat && used == d.used && g == d.files[k]
    ensures ClustersChanged(d, k, size, fat, used, g)
  {
    hide Consistent, Resizing, GrowOutcome, Shrunk, ClustersFor, CursorOk, Walkable;
    if Consistent(d) {
      Resizes(d, k, size, fat, used, g);
    } else {
      SprungCount(d, k);
      SprungReady(d, k, size);
    }
  }

  lemma ResizeEnds<K>(d: Disk<K>, k: K, size: nat, erase: bool, fat: seq<u32>, used: seq<bool>, g: File,
                      heap': seq<seq<byte>>, h: File)
    requires Resizable(d, k, size) && d.clusterSize > 0 && size != d.files[k].size
    requires ClustersChanged(d, k, size, fat, used, g)
    requires h == g.(index := h.index, cursor := h.cursor) && (size <= d.files[k].size ==> h == g)
    requires CursorOk(fat, h, ClustersFor(size, d.clusterSize))
    requires if erase && d.files[k].size < size then
               Erased(d.heap, d.clusterSize, Chain(fat, g.contiguous, g.start, ClustersFor(size, d.clusterSize)),
                      d.files[k].size, size, heap')
             else heap' == d.heap
    ensures TruncateOutcome(d, k, size, erase, true, Replaced(d, k, fat, used, heap', h.(size := size)))
  {
    hide Consistent, Resizing, Truncated, Stretched, ClustersFor, CursorOk, Erased, Sprung;
    if Consistent(d) {
      TruncationEnds(d, k, size, erase, fat, used, g, heap', h);
    } else {
      CursorResized(fat, h, 2, size);
      StretchEnds(d, k, size, erase, heap', h.(size := size));
    }
  }

  lemma TrapResized(used: seq<bool>, f: File, f': File, n: nat)
    requires f'.contiguous == f.contiguous && f'.start == f.start
    ensures Trap(used, f', n) == Trap(used, f, n)
  {
  }

  lemma GrownTrap(fat0: seq<u32>, used0: seq<bool>, f0: File, n: nat, difference: nat,
                  fat: seq<u32>, used: seq<bool>, f: File)
    requires Grown(fat0, used0, f0, n, difference, fat, used, f)
    ensures Trap(used, f, n + difference) <==> difference == 0 && Trap(used0, f0, n)
  {
    hide Trap;
  }

  lemma CursorResized(fat: seq<u32>, f: File, n: nat, size: nat)
    requires CursorOk(fat, f, n)
    ensures CursorOk(fat, f.(size := size), n)
  {
  }

  lemma CostSign(from: nat, to: nat, clusterSize: nat)
    requires clusterSize > 0
    ensures from <= to ==> Cost(from, to, clusterSize) >= 0
    ensures to <= from ==> Cost(from, to, clusterSize) <= 0
  {
    if from <= to {
      ClustersForMonotone(from, to, clusterSize);
    } else {
      ClustersForMonotone(to, from, clusterSize);
    }
  }

  lemma LeakAfter<K>(d: Disk<K>, k: K, size: nat, fat: seq<u32>, used: seq<bool>, g: File,
                     heap': seq<seq<byte>>, f': File)
    requires Consistent(d) && k in d.files && Trap(d.used, d.files[k], Count(d, k))
    requires Leaked(d.fat, d.files[k], fat, used, g)
    requires f'.contiguous == g.contiguous && f'.start == g.start && (f'.size != size ==> f' == g)
    ensures var d' := Replaced(d, k, fat, used, heap', f');
            !Consistent(d') && Leaky(d', k)
  {
    hide Trap, Consistent, CursorOk, Leaky;
    var d' := Replaced(d, k, fat, used, heap', f');
    LeakBreaksAnySize(d, k, d');
  }

  lemma ChainsUnmoved<K>(d: Disk<K>, k: K)
    requires Consistent(d) && k in d.files
    ensures ChainsKept(d, k, d)
  {
    assert d.files[k := d.files[k]] == d.files;
  }

  lemma ReshapedChains<K>(d: Disk<K>, k: K, fat': seq<u32>, used': seq<bool>, heap': seq<seq<byte>>, f': File, n: nat,
                          heap2: seq<seq<byte>>)
    requires Consistent(d) && k in d.files && Reshaped(d, k, fat', used', heap', f', n)
    requires var chain := Chain(fat', f'.contiguous, f'.start, n);
             forall i :: 0 <= i < |ChainOf(d, k)| && i < n ==> chain[i] == ChainOf(d, k)[i]
    ensures ChainsKept(d, k, Replaced(d, k, fat', used', heap2, f'))
  {
    hide Reshaped, OnlyFile, Chain, CountClear, Consistent, ClustersFor, Bytes;
    var d' := Replaced(d, k, fat', used', heap', f');
    GeometryOf(d);
    ReshapedOnly(d, k, fat', used', heap', f', n);
    forall other | other in d.files && other != k
      ensures ChainOf(d', other) == ChainOf(d, other)
    {
      OtherChainKept(d, k, d', other);
    }
    SameChains(d', heap2);
  }

  lemma GeometryOf(d: Disk)
    requires Consistent(d)
    ensures d.clusterSize > 0
  {
  }

  /** Chains do not depend on what is in the clusters. */
  lemma SameChains<K>(d: Disk<K>, heap: seq<seq<byte>>)
    requires d.clusterSize > 0
    ensures forall k :: k in d.files ==> ChainOf(d.(heap := heap), k) == ChainOf(d, k)
  {
  }

  lemma ChainsRefused<K>(d: Disk<K>, k: K, size: nat, fat': seq<u32>, used': seq<bool>, f': File)
    requires Consistent(d) && k in d.files && ClustersFor(size, d.clusterSize) > Count(d, k)
    requires GrowOutcome(d.fat, d.used, d.files[k], Count(d, k), ClustersFor(size, d.clusterSize) - Count(d, k), false,
                         fat', used', f')
    ensures ChainsKept(d, k, Replaced(d, k, fat', used', d.heap, f'))
  {
    hide ClustersFor, Trap, FileOk, RolledBack, Leaked, CountClear, ChainsKept, Chain;
    if Trap(d.used, d.files[k], Count(d, k)) {
      LeakAfter(d, k, f'.size, fat', used', f', d.heap, f');
      ChainsLost(d, k, Replaced(d, k, fat', used', d.heap, f'));
    } else {
      RolledBackReshaped(d, k, fat', used', f');
      ReshapedChains(d, k, fat', used', d.heap, f', Count(d, k), d.heap);
    }
  }

  lemma ChainsLost<K>(d: Disk<K>, k: K, d': Disk<K>)
    requires Consistent(d) && k in d.files && !Consistent(d')
    ensures ChainsKept(d, k, d')
  {
  }

  lemma ChainsEnd<K>(d: Disk<K>, k: K, size: nat, fat: seq<u32>, used: seq<bool>, g: File, heap': seq<seq<byte>>,
                     h: File)
    requires Consistent(d) && k in d.files && Resizing(d, k, size, fat, used, g)
    requires h == g.(index := h.index, cursor := h.cursor) && (size <= d.files[k].size ==> h == g)
    requires CursorOk(fat, h, ClustersFor(size, d.clusterSize))
    ensures ChainsKept(d, k, Replaced(d, k, fat, used, heap', h.(size := size)))
  {
    hide ClustersFor, Trap, Grown, Shrunk, Chain, CursorOk, FileOk, OwnedUsed, Disjoint, NoLeak, FilesOk, ChainsKept;
    var n, n' := Count(d, k), ClustersFor(size, d.clusterSize);
    var f' := h.(size := size);
    CursorResized(fat, h, n', size);
    CostSign(d.files[k].size, size, d.clusterSize);
    if n' > n && Trap(d.used, d.files[k], n) {
      LeakAfter(d, k, size, fat, used, g, heap', f');
      ChainsLost(d, k, Replaced(d, k, fat, used, heap', f'));
    } else if n' >= n {
      UnchangedIn(d.heap, Chain(fat, g.contiguous, g.start, n'));
      GrownReshaped(d, k, n' - n, fat, used, g, d.heap, f');
      GrownPrefix(d.fat, d.used, d.files[k], n, n' - n, fat, used, g);
      ReshapedChains(d, k, fat, used, d.heap, f', n', heap');
    } else {
      ClustersForMonotoneStrict(d.files[k].size, size, d.clusterSize);
      ShrunkReshaped(d, k, n - n', fat, used, g, f');
      ShrunkPrefix(d.fat, d.used, d.files[k], n, n - n', fat, used, g);
      ReshapedChains(d, k, fat, used, d.heap, f', n', heap');
    }
  }

  lemma UnchangedIn(heap: seq<seq<byte>>, chain: seq<u32>)
    ensures OnlyIn(heap, heap, chain)
  {
  }

  lemma GrownPrefix(fat0: seq<u32>, used0: seq<bool>, f0: File, n: nat, difference: nat,
                    fat: seq<u32>, used: seq<bool>, f: File)
    requires Grown(fat0, used0, f0, n, difference, fat, used, f)
    ensures var chain0 := Chain(fat0, f0.contiguous, f0.start, n);
            var chain := Chain(fat, f.contiguous, f.start, n + difference);
            forall i :: 0 <= i < n ==> chain[i] == chain0[i]
  {
    hide Nth, FileOk, Trap;
    var chain0, chain := Chain(fat0, f0.contiguous, f0.start, n), Chain(fat, f.contiguous, f.start, n + difference);
    assert forall i :: 0 <= i < n ==> chain[..n][i] == chain[i];
  }

  lemma ShrunkPrefix(fat: seq<u32>, used: seq<bool>, f: File, n: nat, difference: nat,
                     fat': seq<u32>, used': seq<bool>, f': File)
    requires difference <= n && Shrunk(fat, used, f, n, difference, fat', used', f')
    ensures var chain := Chain(fat, f.contiguous, f.start, n);
            var chain' := Chain(fat', f'.contiguous, f'.start, n - difference);
            forall i :: 0 <= i < n - difference ==> chain'[i] == chain[i]
  {
    hide Nth;
  }

  lemma ClustersForMonotoneStrict(a: nat, b: nat, clusterSize: nat)
    requires clusterSize > 0 && ClustersFor(b, clusterSize) < ClustersFor(a, clusterSize)
    ensures b < a
  {
    if a <= b {
      ClustersForMonotone(a, b, clusterSize);
    }
  }

  /** Bytes written over a file's own clusters. */
  lemma WrittenView<K>(d: Disk<K>, k: K, at: nat, b: seq<byte>, heap': seq<seq<byte>>, f': File)
    requires Consistent(d) && k in d.files && at + |b| <= d.files[k].size
    requires Wrote(d.heap, d.clusterSize, ChainOf(d, k), at, b, heap')
    requires f' == d.files[k].(index := f'.index, cursor := f'.cursor) && CursorOk(d.fat, f', Count(d, k))
    ensures var d' := Replaced(d, k, d.fat, d.used, heap', f');
            && Consistent(d')
            && ViewOf(d') == ViewOf(d).(files := ViewOf(d).files[k := Splice(Bytes(d, k), at, b)])
  {
    hide CursorOk, ClustersFor, FilesOk, OwnedUsed, Disjoint, NoLeak, Uniform, Nth, InMap, Mark;
    OwnChain(d, k);
    SameChainReshaped(d, k, heap', f');
    hide Reshaped, FileOk;
    ReshapedView(d, k, d.fat, d.used, heap', f', Count(d, k));
    ChainInHeap(d, k);
    SpliceCut(Raw(d.heap, d.clusterSize, ChainOf(d, k)), at, b, d.files[k].size);
  }

  lemma SameChainReshaped<K>(d: Disk<K>, k: K, heap': seq<seq<byte>>, f': File)
    requires Consistent(d) && k in d.files
    requires |heap'| == |d.heap| && Uniform(heap', d.clusterSize) && OnlyIn(d.heap, heap', ChainOf(d, k))
    requires f' == d.files[k].(index := f'.index, cursor := f'.cursor) && CursorOk(d.fat, f', Count(d, k))
    ensures Reshaped(d, k, d.fat, d.used, heap', f', Count(d, k))
  {
    hide CursorOk, ClustersFor, Nth, Uniform;
    OwnChain(d, k);
  }

  lemma SpliceCut(raw: seq<byte>, at: nat, b: seq<byte>, size: nat)
    requires at + |b| <= size <= |raw|
    ensures Splice(raw, at, b)[..size] == Splice(raw[..size], at, b)
  {
  }

  /** Reading moves only the cached cursor. */
  lemma CursorView<K>(d: Disk<K>, k: K, f': File)
    requires Consistent(d) && k in d.files
    requires f' == d.files[k].(index := f'.index, cursor := f'.cursor) && CursorOk(d.fat, f', Count(d, k))
    ensures var d' := Replaced(d, k, d.fat, d.used, d.heap, f');
            Consistent(d') && ViewOf(d') == ViewOf(d)
  {
    ChainInHeap(d, k);
    WroteNothing(d.heap, d.clusterSize, ChainOf(d, k), 0);
    WrittenView(d, k, 0, [], d.heap, f');
    assert Splice(Bytes(d, k), 0, []) == Bytes(d, k);
    assert ViewOf(d).files[k := Bytes(d, k)] == ViewOf(d).files;
  }

  /** What writing in place needs of a file: its chain can be walked and is long enough. */
  ghost predicate Walks<K>(d: Disk<K>, k: K) {
    && Geometry(d) && k in d.files && Walkable(d.heap, ChainOf(d, k)) && Distinct(ChainOf(d, k))
    && CursorOk(d.fat, d.files[k], Count(d, k)) && d.files[k].size <= |ChainOf(d, k)| * d.clusterSize
  }

  lemma WalksFacts<K>(d: Disk<K>, k: K)
    requires Walks(d, k)
    ensures var chain, f := ChainOf(d, k), d.files[k];
            && Geometry(d) && Walkable(d.heap, chain) && Distinct(chain) && CursorOk(d.fat, f, Count(d, k))
            && chain == Chain(d.fat, f.contiguous, f.start, Count(d, k)) && |chain| == Count(d, k)
            && f.size <= |chain| * d.clusterSize && InHeap(chain, d.heap) && Uniform(d.heap, d.clusterSize)
  {
    hide CursorOk, Distinct, Uniform;
  }

  lemma ConsistentWalks<K>(d: Disk<K>, k: K)
    requires Consistent(d) && k in d.files
    ensures Walks(d, k)
  {
    ReadyToWalk(d, k);
  }

  /** A file whose trap has sprung can be written to as well, into the cluster behind it, whosever that is. */
  lemma SprungWalks<K>(d: Disk<K>, k: K)
    requires Sprung(d, k)
    ensures Walks(d, k)
  {
    hide Uniform, Full, ClustersFor, CursorOk;
    ClustersForBounds(d.files[k].size, d.clusterSize);
    var chain := ChainOf(d, k);
    assert chain[1] == (chain[0] + 1) % 0x1_0000_0000;
  }

  /** What reading in place needs of a file of a consistent volume. */
  lemma ReadyToWalk<K>(d: Disk<K>, k: K)
    requires Consistent(d) && k in d.files
    ensures var chain, f := ChainOf(d, k), d.files[k];
            && Geometry(d) && Walkable(d.heap, chain) && Distinct(chain) && CursorOk(d.fat, f, Count(d, k))
            && chain == Chain(d.fat, f.contiguous, f.start, Count(d, k)) && |chain| == Count(d, k)
            && f.size <= |chain| * d.clusterSize && InHeap(chain, d.heap)
            && Uniform(d.heap, d.clusterSize)
            && ViewOf(d).files[k] == Raw(d.heap, d.clusterSize, chain)[..f.size]
  {
    ReadyToGrow(d, k);
    ChainInHeap(d, k);
  }

  /** A read in progress: the buffer holds the first `done` bytes of the wanted stretch. */
  ghost predicate Reading(heap: seq<seq<byte>>, size: nat, chain: seq<u32>, at: nat, total: nat, done: nat, k: nat,
                          offset: nat, buffer0: seq<byte>, buffer: seq<byte>) {
    && size > 0 && Uniform(heap, size) && InHeap(chain, heap) && total <= |buffer0|
    && Walking(size, |chain|, at, total, done, k, offset)
    && buffer == Splice(buffer0, 0, Raw(heap, size, chain)[at..at + done])
  }

  lemma ReadBegins(heap: seq<seq<byte>>, size: nat, chain: seq<u32>, at: nat, total: nat, buffer: seq<byte>)
    requires size > 0 && Uniform(heap, size) && InHeap(chain, heap) && 0 < total <= |buffer|
    requires at + total <= |chain| * size
    ensures at / size >= 0 && 0 <= at % size < size && at / size < |chain|
    ensures Reading(heap, size, chain, at, total, 0, at / size, at % size, buffer, buffer)
  {
    WalkingStarts(size, |chain|, at, total);
    var raw := Raw(heap, size, chain);
    assert raw[at..at + 0] == [];
    assert Splice(buffer, 0, []) == buffer;
  }

  lemma ReadStep(heap: seq<seq<byte>>, size: nat, chain: seq<u32>, at: nat, total: nat, done: nat, k: nat,
                 offset: nat, buffer0: seq<byte>, buffer: seq<byte>)
    requires Reading(heap, size, chain, at, total, done, k, offset, buffer0, buffer) && done < total
    ensures k < |chain| && InMap(chain[k], |heap|) && offset < size
    ensures var piece := Piece(size, offset, total - done);
            && 0 < piece && offset + piece <= |heap[chain[k] - FIRST_DATA]|
            && |Read(heap, chain[k], offset, piece)| == piece
            && done + piece <= total && done + piece <= |buffer|
            && (done + piece < total ==> k + 1 < |chain|)
            && Reading(heap, size, chain, at, total, done + piece, k + 1, 0, buffer0,
                       Splice(buffer, done, Read(heap, chain[k], offset, piece)))
  {
    hide Walking;
    WalkingStep(size, |chain|, at, total, done, k, offset);
    var piece := Piece(size, offset, total - done);
    ReadInChain(heap, size, chain, k, offset, piece);
    var raw := Raw(heap, size, chain);
    SpliceTwice(buffer0, 0, raw[at..at + done], raw[at + done..at + done + piece]);
    assert raw[at..at + done] + raw[at + done..at + done + piece] == raw[at..at + done + piece];
  }

  /** The first `total` bytes of the buffer are those of the chain at `at`, the others are as they were. */
  ghost predicate GotOut(heap: seq<seq<byte>>, size: nat, chain: seq<u32>, at: nat, total: nat,
                         buffer0: seq<byte>, buffer: seq<byte>) {
    && size > 0 && Uniform(heap, size) && InHeap(chain, heap)
    && at + total <= |chain| * size && total <= |buffer0|
    && buffer == Splice(buffer0, 0, Raw(heap, size, chain)[at..at + total])
  }

  lemma ReadFinished(heap: seq<seq<byte>>, size: nat, chain: seq<u32>, at: nat, total: nat, k: nat, offset: nat,
                     buffer0: seq<byte>, buffer: seq<byte>)
    requires Reading(heap, size, chain, at, total, total, k, offset, buffer0, buffer)
    ensures GotOut(heap, size, chain, at, total, buffer0, buffer)
  {
    hide Uniform, InHeap, Raw;
  }

  /** What a read promises: it returns the slice of the content, cut at the end of the file, and changes
      nothing that can be seen from outside. */
  ghost predicate ReadOut<K>(d: Disk<K>, k: K, offset: nat, size: nat, buffer0: seq<byte>,
                             n: nat, d': Disk<K>, buffer: seq<byte>)
    requires Consistent(d) && k in d.files
  {
    var slice := Slice(ViewOf(d).files[k], offset, size);
    && Consistent(d') && ViewOf(d') == ViewOf(d) && ChainsKept(d, k, d')
    && n == |slice| <= |buffer0| && buffer == slice + buffer0[n..]
  }

  lemma ReadNothing<K>(d: Disk<K>, k: K, offset: nat, size: nat, buffer: seq<byte>)
    requires Consistent(d) && k in d.files && (offset >= d.files[k].size || size == 0)
    ensures ReadOut(d, k, offset, size, buffer, 0, d, buffer)
  {
    hide Consistent, Bytes, CountClear, ChainsKept;
    ChainsUnmoved(d, k);
  }

  /** There is as much in the clusters as the file's size says. */
  lemma ReadInside<K>(d: Disk<K>, k: K, at: nat, total: nat)
    requires Consistent(d) && k in d.files && at + total <= d.files[k].size
    ensures at + total <= Count(d, k) * d.clusterSize
  {
    hide FilesOk, OwnedUsed, Disjoint, NoLeak, ClustersFor, Uniform;
    ClustersForBounds(d.files[k].size, d.clusterSize);
  }

  lemma ReadEnds<K>(d: Disk<K>, k: K, at: nat, wanted: nat, total: nat, buffer0: seq<byte>, buffer: seq<byte>, f': File)
    requires Consistent(d) && k in d.files && at < d.files[k].size
    requires total == if wanted < d.files[k].size - at then wanted else d.files[k].size - at
    requires GotOut(d.heap, d.clusterSize, ChainOf(d, k), at, total, buffer0, buffer)
    requires f' == d.files[k].(index := f'.index, cursor := f'.cursor) && CursorOk(d.fat, f', Count(d, k))
    ensures ReadOut(d, k, at, wanted, buffer0, total, Replaced(d, k, d.fat, d.used, d.heap, f'), buffer)
  {
    hide Consistent, Geometry, CursorOk, Walkable, Chain, Walking, FileOk, ChainOf, Count, Uniform, InHeap, Replaced;
    ReadyToWalk(d, k);
    CursorView(d, k, f');
    CursorChains(d, k, d.heap, f');
    hide Bytes, CountClear, ViewOf, ChainsKept;
    SliceOfRaw(Raw(d.heap, d.clusterSize, ChainOf(d, k)), d.files[k].size, at, wanted);
  }

  lemma SliceOfRaw(raw: seq<byte>, length: nat, at: nat, wanted: nat)
    requires at < length <= |raw|
    ensures var total := if wanted < length - at then wanted else length - at;
            Slice(raw[..length], at, wanted) == raw[at..at + total]
  {
  }

  /** A write in progress: the first `done` bytes of `b` are in the chain. */
  ghost predicate Writing(heap: seq<seq<byte>>, size: nat, chain: seq<u32>, at: nat, b: seq<byte>, done: nat, k: nat,
                          offset: nat, heap': seq<seq<byte>>) {
    && Walking(size, |chain|, at, |b|, done, k, offset)
    && Wrote(heap, size, chain, at, b[..done], heap')
  }

  lemma WriteBegins(heap: seq<seq<byte>>, size: nat, chain: seq<u32>, at: nat, b: seq<byte>)
    requires size > 0 && Uniform(heap, size) && InHeap(chain, heap) && b != []
    requires at + |b| <= |chain| * size
    ensures at / size >= 0 && 0 <= at % size < size && at / size < |chain|
    ensures Writing(heap, size, chain, at, b, 0, at / size, at % size, heap)
  {
    WalkingStarts(size, |chain|, at, |b|);
    WroteNothing(heap, size, chain, at);
    assert b[..0] == [];
  }

  lemma WriteStep(heap: seq<seq<byte>>, size: nat, chain: seq<u32>, at: nat, b: seq<byte>, done: nat, k: nat,
                  offset: nat, heap': seq<seq<byte>>)
    requires Writing(heap, size, chain, at, b, done, k, offset, heap') && done < |b|
    ensures k < |chain| && InMap(chain[k], |heap'|) && offset < size
    ensures var piece := Piece(size, offset, |b| - done);
            && 0 < piece && offset + piece <= |heap'[chain[k] - FIRST_DATA]| && done + piece <= |b|
            && (done + piece < |b| ==> k + 1 < |chain|)
            && Writing(heap, size, chain, at, b, done + piece, k + 1, 0,
                       Write(heap', chain[k], offset, b[done..done + piece]))
  {
    hide Wrote, Walking, Write;
    WalkingStep(size, |chain|, at, |b|, done, k, offset);
    var piece := Piece(size, offset, |b| - done);
    WroteMore(heap, size, chain, at, b[..done], heap', k, offset, b[done..done + piece]);
    assert b[..done] + b[done..done + piece] == b[..done + piece];
  }

  lemma WriteFinished(heap: seq<seq<byte>>, size: nat, chain: seq<u32>, at: nat, b: seq<byte>, k: nat,
                      offset: nat, heap': seq<seq<byte>>)
    requires Writing(heap, size, chain, at, b, |b|, k, offset, heap')
    ensures Wrote(heap, size, chain, at, b, heap')
  {
    assert b[..|b|] == b;
  }

  /** Two changes of one file, the first of which makes it no shorter. */
  lemma ChainsTwice<K>(d: Disk<K>, k: K, d1: Disk<K>, d2: Disk<K>)
    requires Consistent(d) && Consistent(d1) && k in d.files && k in d1.files
    requires ChainsKept(d, k, d1) && ChainsKept(d1, k, d2) && d.files[k].size <= d1.files[k].size
    ensures ChainsKept(d, k, d2)
  {
    hide Chain, ClustersFor, FilesOk, OwnedUsed, Disjoint, NoLeak, Uniform;
    if Consistent(d2) {
      ClustersForMonotone(d.files[k].size, d1.files[k].size, d.clusterSize);
      hide Consistent;
      assert d.files[k := d1.files[k]][k := d2.files[k]] == d.files[k := d2.files[k]];
    }
  }

  /** New content and a moved cursor leave the chains alone. */
  lemma CursorChains<K>(d: Disk<K>, k: K, heap: seq<seq<byte>>, f': File)
    requires Consistent(d) && k in d.files && f' == d.files[k].(index := f'.index, cursor := f'.cursor)
    ensures ChainsKept(d, k, Replaced(d, k, d.fat, d.used, heap, f'))
  {
    hide Chain, ClustersFor, FilesOk, OwnedUsed, Disjoint, NoLeak, Uniform;
  }

  function Grow(s: seq<byte>, offset: nat): nat {
    if offset > |s| then offset else |s|
  }

  /** What a write promises: outside, the volume changes as `Written` says. */
  ghost predicate WriteIn<K>(d: Disk<K>, k: K, offset: nat, b: seq<byte>, n: int, d': Disk<K>)
    requires Consistent(d) && k in d.files
  {
    var r := Written(ViewOf(d), k, offset, b);
    Consistent(d') && ViewOf(d') == r.view && ChainsKept(d, k, d') && n == if r.ok then |b| else -1
  }

  /** The size a file needs to take the bytes. */
  function Reach(size: nat, offset: nat, b: seq<byte>): nat {
    if offset + |b| > size then offset + |b| else size
  }

  /** What a write promises in all: the volume stays consistent exactly when the trap is not sprung on the way. */
  ghost predicate WriteOutcome<K>(d: Disk<K>, k: K, offset: nat, b: seq<byte>, n: int, d': Disk<K>)
    requires Consistent(d) && k in d.files
  {
    && (Consistent(d') <==> !Springs(d, k, Reach(d.files[k].size, offset, b)))
    && (Consistent(d') ==> WriteIn(d, k, offset, b, n, d'))
  }

  lemma WriteInConsistent<K>(d: Disk<K>, k: K, offset: nat, b: seq<byte>, n: int, d': Disk<K>)
    requires Consistent(d) && k in d.files && WriteIn(d, k, offset, b, n, d')
    ensures Consistent(d')
  {
  }

  /** The state after the gap up to `offset` has been filled. */
  ghost predicate Filled<K>(d: Disk<K>, k: K, offset: nat, d': Disk<K>)
    requires Consistent(d) && k in d.files
  {
    var v := ViewOf(d);
    var grown := Grow(v.files[k], offset);
    var gap := Cost(|v.files[k]|, grown, d.clusterSize);
    && gap <= v.free && Consistent(d') && k in d'.files && d'.files[k].size == grown
    && ViewOf(d') == View(d.clusterSize, v.free - gap, v.files[k := Resized(v.files[k], grown)])
    && ChainsKept(d, k, d')
  }

  /** The same, unless the trap has sprung on the way; if not, whether it still will is as before. */
  ghost predicate Filling<K>(d: Disk<K>, k: K, offset: nat, b: seq<byte>, d': Disk<K>)
    requires Consistent(d) && k in d.files
  {
    var size := Reach(d.files[k].size, offset, b);
    if Consistent(d') then Filled(d, k, offset, d') && (Springs(d', k, size) <==> Springs(d, k, size))
    else
      && Springs(d, k, size) && Leaky(d', k) && Sprung(d', k) && d'.clusterSize == d.clusterSize
      && d'.files[k].size == (if offset > d.files[k].size then offset else d.files[k].size)
  }

  lemma NoGap<K>(d: Disk<K>, k: K, offset: nat)
    requires Consistent(d) && k in d.files && offset <= d.files[k].size
    ensures Filled(d, k, offset, d)
  {
    var v := ViewOf(d);
    hide Bytes, CountClear, Consistent, ChainsKept;
    ChainsUnmoved(d, k);
    assert Resized(v.files[k], |v.files[k]|) == v.files[k];
    assert v.files[k := v.files[k]] == v.files;
  }

  lemma NoGapToFill<K>(d: Disk<K>, k: K, offset: nat, b: seq<byte>)
    requires Consistent(d) && k in d.files && offset <= d.files[k].size
    ensures Filling(d, k, offset, b, d)
  {
    hide Filled, Springs, Consistent;
    NoGap(d, k, offset);
  }

  lemma GapFilled<K>(d: Disk<K>, k: K, offset: nat, ok: bool, d': Disk<K>)
    requires Consistent(d) && k in d.files && offset > d.files[k].size
    requires Truncated(d, k, offset, true, ok, d') && !Springs(d, k, offset)
    ensures Consistent(d') && k in d'.files && d'.clusterSize == d.clusterSize
    ensures ok ==> Filled(d, k, offset, d')
    ensures !ok ==> ViewOf(d') == ViewOf(d) && Cost(d.files[k].size, offset, d.clusterSize) > CountClear(d.used)
    ensures ChainsKept(d, k, d')
  {
    hide Bytes, CountClear, Trap, ClustersFor, FilesOk, OwnedUsed, Disjoint, NoLeak, Uniform, ChainOf;
    CostSign(d.files[k].size, offset, d.clusterSize);
    if ok {
      assert d'.files[k].size == |ViewOf(d').files[k]|;
    }
  }

  /** Filling the gap without springing the trap changes nothing about whether it will be sprung. */
  lemma GapTrap<K>(d: Disk<K>, k: K, offset: nat, size: nat, d': Disk<K>)
    requires Consistent(d) && k in d.files && d.files[k].size < offset <= size
    requires Truncated(d, k, offset, true, true, d') && !Springs(d, k, offset)
    requires Consistent(d') && k in d'.files && d'.clusterSize == d.clusterSize && d'.files[k].size == offset
    ensures Springs(d', k, size) <==> Springs(d, k, size)
  {
    GeometryOf(d);
    hide Consistent, ViewOf, Trap, ClustersFor, ChainsKept, Truncates, Sprung, Leaky;
    CostSign(d.files[k].size, offset, d.clusterSize);
  }

  /** Without room for the gap the trap has no part in it. */
  lemma GapRefused<K>(d: Disk<K>, k: K, offset: nat, b: seq<byte>, d': Disk<K>)
    requires Consistent(d) && k in d.files && offset > d.files[k].size && !Springs(d, k, offset)
    requires Cost(d.files[k].size, offset, d.clusterSize) > CountClear(d.used)
    requires Consistent(d') && ViewOf(d') == ViewOf(d) && ChainsKept(d, k, d')
    ensures WriteOutcome(d, k, offset, b, -1, d')
  {
    hide ChainsKept, Bytes, CountClear, FilesOk, OwnedUsed, Disjoint, NoLeak, Uniform, ClustersFor, Trap;
    assert |ViewOf(d).files[k]| == d.files[k].size;
  }

  lemma GapFilling<K>(d: Disk<K>, k: K, offset: nat, b: seq<byte>, ok: bool, d': Disk<K>)
    requires Consistent(d) && k in d.files && offset > d.files[k].size && Truncated(d, k, offset, true, ok, d')
    ensures ok ==> Filling(d, k, offset, b, d')
    ensures !ok ==> WriteOutcome(d, k, offset, b, -1, d')
  {
    var size := Reach(d.files[k].size, offset, b);
    if Springs(d, k, offset) {
      SpringsFurther(d, k, offset, size);
      TruncatedSprung(d, k, offset, true, ok, d');
      hide Consistent, Sprung, Leaky, Springs, WriteIn, Truncated;
    } else {
      GapFilled(d, k, offset, ok, d');
      if ok {
        FilledSize(d, k, offset, d');
        GapTrap(d, k, offset, size, d');
        hide Consistent, Sprung, Leaky, Springs, Truncated, Filled;
      } else {
        hide Truncated;
        GapRefused(d, k, offset, b, d');
      }
    }
  }

  lemma SpringsFurther<K>(d: Disk<K>, k: K, size: nat, more: nat)
    requires d.clusterSize > 0 && k in d.files && Springs(d, k, size) && size <= more
    ensures Springs(d, k, more)
  {
    hide ClustersFor, Trap;
    ClustersForMonotone(size, more, d.clusterSize);
  }

  lemma TruncatedSprung<K>(d: Disk<K>, k: K, size: nat, erase: bool, ok: bool, d': Disk<K>)
    requires Consistent(d) && k in d.files && Springs(d, k, size) && Truncated(d, k, size, erase, ok, d')
    ensures !Consistent(d') && Leaky(d', k) && d'.clusterSize == d.clusterSize
    ensures ok ==> Sprung(d', k) && d'.files[k].size == size
  {
    hide Consistent, Sprung, Leaky, ViewOf, ChainsKept, Trap;
  }

  lemma FilledSize<K>(d: Disk<K>, k: K, offset: nat, d': Disk<K>)
    requires Consistent(d) && k in d.files && Filled(d, k, offset, d')
    ensures Consistent(d') && k in d'.files && d'.clusterSize == d.clusterSize
    ensures d'.files[k].size == if offset > d.files[k].size then offset else d.files[k].size
  {
    hide ChainOf, CountClear;
  }

  /** What is known before room is made. */
  lemma FillingKnown<K>(d: Disk<K>, k: K, offset: nat, b: seq<byte>, d': Disk<K>)
    requires Consistent(d) && k in d.files && Filling(d, k, offset, b, d')
    ensures k in d'.files && (Consistent(d') || Sprung(d', k)) && d'.clusterSize == d.clusterSize
    ensures d'.files[k].size == if offset > d.files[k].size then offset else d.files[k].size
  {
    hide Consistent, Sprung, Springs, Filled;
    if Consistent(d') {
      FilledSize(d, k, offset, d');
    }
  }

  /** The state when the file is long enough to take the bytes; what lies under them may be anything. */
  ghost predicate Roomy<K>(d: Disk<K>, k: K, offset: nat, b: seq<byte>, d': Disk<K>)
    requires Consistent(d) && k in d.files
  {
    var v := ViewOf(d);
    var s := v.files[k];
    var grown := Grow(s, offset);
    var size := if offset + |b| > grown then offset + |b| else grown;
    && Consistent(d') && k in d'.files && d'.files[k].size == size && ChainsKept(d, k, d')
    && Cost(|s|, grown, d.clusterSize) <= v.free
    && Cost(grown, size, d.clusterSize) <= v.free - Cost(|s|, grown, d.clusterSize)
    && var s' := Bytes(d', k);
       && (forall i :: 0 <= i < grown ==> s'[i] == Resized(s, grown)[i])
       && ViewOf(d') == View(d.clusterSize, v.free - Cost(|s|, grown, d.clusterSize) - Cost(grown, size, d.clusterSize),
                             v.files[k := s'])
  }

  lemma RoomAlready<K>(d: Disk<K>, k: K, offset: nat, b: seq<byte>, d1: Disk<K>)
    requires Consistent(d) && k in d.files && Filled(d, k, offset, d1)
    requires offset + |b| <= d1.files[k].size
    ensures Roomy(d, k, offset, b, d1)
  {
    hide CountClear, FilesOk, OwnedUsed, Disjoint, NoLeak, Uniform, ClustersFor, Raw, ChainsKept;
    assert ViewOf(d1).files[k] == Bytes(d1, k);
  }

  lemma RoomMade<K>(d: Disk<K>, k: K, offset: nat, b: seq<byte>, d1: Disk<K>, ok: bool, d': Disk<K>)
    requires Consistent(d) && k in d.files && Filled(d, k, offset, d1) && !Springs(d1, k, offset + |b|)
    requires offset + |b| > d1.files[k].size
    requires Truncated(d1, k, offset + |b|, false, ok, d')
    ensures Consistent(d')
    ensures ok ==> Roomy(d, k, offset, b, d') && offset + |b| <= d'.files[k].size
    ensures !ok ==> WriteIn(d, k, offset, b, -1, d')
  {
    hide CountClear, FilesOk, OwnedUsed, Disjoint, NoLeak, Uniform, Springs, ClustersFor, Raw, Trap, ChainsKept;
    ChainsTwice(d, k, d1, d');
    var v, v1, v' := ViewOf(d), ViewOf(d1), ViewOf(d');
    assert d1.files[k].size == |v1.files[k]|;
    if ok {
      assert d'.files[k].size == |v'.files[k]|;
      assert v.files[k := v1.files[k]][k := v'.files[k]] == v.files[k := v'.files[k]];
    }
  }

  /** Room has been made, or the trap has sprung and the file only seems to be long enough. */
  ghost predicate Making<K>(d: Disk<K>, k: K, offset: nat, b: seq<byte>, d': Disk<K>)
    requires Consistent(d) && k in d.files
  {
    if Consistent(d') then Roomy(d, k, offset, b, d') && !Springs(d, k, Reach(d.files[k].size, offset, b))
    else
      && Springs(d, k, Reach(d.files[k].size, offset, b)) && Leaky(d', k) && Sprung(d', k)
      && offset + |b| <= d'.files[k].size
  }

  lemma RoomThere<K>(d: Disk<K>, k: K, offset: nat, b: seq<byte>, d1: Disk<K>)
    requires Consistent(d) && k in d.files && Filling(d, k, offset, b, d1)
    requires k in d1.files && offset + |b| <= d1.files[k].size
    ensures Making(d, k, offset, b, d1)
  {
    hide Consistent, Sprung, Filled, Roomy, Trap;
    if Consistent(d1) {
      FilledSize(d, k, offset, d1);
      RoomAlready(d, k, offset, b, d1);
      assert Reach(d.files[k].size, offset, b) == d1.files[k].size;
    }
  }

  lemma RoomMaking<K>(d: Disk<K>, k: K, offset: nat, b: seq<byte>, d1: Disk<K>, ok: bool, d': Disk<K>)
    requires Consistent(d) && k in d.files && Filling(d, k, offset, b, d1)
    requires k in d1.files && offset + |b| > d1.files[k].size && d1.clusterSize == d.clusterSize > 0
    requires if Consistent(d1) then Truncated(d1, k, offset + |b|, false, ok, d')
             else Stretched(d1, k, offset + |b|, ok, d')
    ensures ok ==> Making(d, k, offset, b, d')
    ensures !ok ==> WriteOutcome(d, k, offset, b, -1, d')
  {
    hide Consistent, Sprung, Springs, Leaky, Stretched, Truncated, WriteIn, Filled, Roomy;
    if !Consistent(d1) {
      SprungCount(d1, k);
      StretchedLeak(d1, k, offset + |b|, ok, d');
    } else {
      FilledSize(d, k, offset, d1);
      assert Reach(d.files[k].size, offset, b) == offset + |b|;
      if Springs(d1, k, offset + |b|) {
        TruncatedSprung(d1, k, offset + |b|, false, ok, d');
      } else {
        RoomMade(d, k, offset, b, d1, ok, d');
        if !ok {
          WriteInConsistent(d, k, offset, b, -1, d');
        }
      }
    }
  }

  lemma StretchedLeak<K>(d: Disk<K>, k: K, size: nat, ok: bool, d': Disk<K>)
    requires d.clusterSize > 0 && Leaky(d, k) && Stretched(d, k, size, ok, d')
    ensures Leaky(d', k) && !Consistent(d') && Sprung(d', k) && (ok ==> d'.files[k].size == size)
  {
    hide Consistent, Leaky;
    SprungCount(d', k);
    LeakyMeans(d, k);
    LeakStays(d, k, d');
  }

  lemma LeakyMeans<K>(d: Disk<K>, k: K)
    requires Leaky(d, k)
    ensures k in d.files && d.files[k].contiguous
  {
  }

  /** Bytes put into a file's own clusters; only the cursor moves besides. */
  ghost predicate PutIn<K>(d: Disk<K>, k: K, offset: nat, b: seq<byte>, d': Disk<K>)
    requires d.clusterSize > 0 && k in d.files
  {
    && k in d'.files
    && Wrote(d.heap, d.clusterSize, ChainOf(d, k), offset, b, d'.heap)
    && d'.files[k] == d.files[k].(index := d'.files[k].index, cursor := d'.files[k].cursor)
    && CursorOk(d.fat, d'.files[k], Count(d, k))
    && d' == Replaced(d, k, d.fat, d.used, d'.heap, d'.files[k])
  }

  lemma WriteEnds<K>(d: Disk<K>, k: K, offset: nat, b: seq<byte>, d2: Disk<K>, d': Disk<K>)
    requires Consistent(d) && k in d.files && Roomy(d, k, offset, b, d2) && PutIn(d2, k, offset, b, d')
    ensures WriteIn(d, k, offset, b, |b|, d')
  {
    hide CountClear, FilesOk, OwnedUsed, Disjoint, NoLeak, Uniform, ClustersFor, Raw, CursorOk, Bytes, PutIn, Chain,
         ChainsKept;
    RoomyView(d, k, offset, b, d2);
    PutInView(d2, k, offset, b, d');
    ChainsTwice(d, k, d2, d');
    var v, size := ViewOf(d), d2.files[k].size;
    var s, s' := v.files[k], Bytes(d2, k);
    SpliceOverAnything(Resized(s, size), s', Grow(s, offset), offset, b);
    assert v.files[k := s'][k := Splice(s', offset, b)] == v.files[k := Splice(s', offset, b)];
  }

  lemma PutInView<K>(d: Disk<K>, k: K, offset: nat, b: seq<byte>, d': Disk<K>)
    requires Consistent(d) && k in d.files && offset + |b| <= d.files[k].size && PutIn(d, k, offset, b, d')
    ensures Consistent(d') && |Bytes(d, k)| == d.files[k].size
    ensures ViewOf(d') == ViewOf(d).(files := ViewOf(d).files[k := Splice(Bytes(d, k), offset, b)])
    ensures ChainsKept(d, k, d')
  {
    CursorChains(d, k, d'.heap, d'.files[k]);
    hide ChainsKept;
    WrittenView(d, k, offset, b, d'.heap, d'.files[k]);
  }

  lemma RoomyView<K>(d: Disk<K>, k: K, offset: nat, b: seq<byte>, d2: Disk<K>)
    requires Consistent(d) && k in d.files && Roomy(d, k, offset, b, d2)
    ensures Consistent(d2) && k in d2.files
    ensures k in ViewOf(d).files && ViewOf(d).clusterSize == d.clusterSize > 0
    ensures offset + |b| <= d2.files[k].size && |Bytes(d2, k)| == d2.files[k].size
    ensures d.files[k].size <= d2.files[k].size
  {
    hide ChainsKept;
  }

  lemma WriteNone<K>(d: Disk<K>, k: K, offset: nat, d2: Disk<K>)
    requires Consistent(d) && k in d.files && Roomy(d, k, offset, [], d2)
    ensures WriteIn(d, k, offset, [], 0, d2)
  {
    hide CountClear, FilesOk, OwnedUsed, Disjoint, NoLeak, Uniform, ClustersFor, Raw, Bytes, ChainsKept;
    assert Splice(Resized(ViewOf(d).files[k], d2.files[k].size), offset, []) == ViewOf(d2).files[k];
  }

  /** What is known before the bytes are written. */
  lemma MakingKnown<K>(d: Disk<K>, k: K, offset: nat, b: seq<byte>, d': Disk<K>)
    requires Consistent(d) && k in d.files && Making(d, k, offset, b, d')
    ensures Walks(d', k) && k in d'.files && d'.clusterSize > 0 && offset + |b| <= d'.files[k].size
  {
    hide Consistent, Sprung, Springs, Roomy, Walks, Leaky;
    if Consistent(d') {
      RoomyView(d, k, offset, b, d');
      GeometryOf(d');
      ConsistentWalks(d', k);
    } else {
      SprungCount(d', k);
      SprungWalks(d', k);
    }
  }

  lemma NothingToWrite<K>(d: Disk<K>, k: K, offset: nat, d': Disk<K>)
    requires Consistent(d) && k in d.files && Making(d, k, offset, [], d')
    ensures WriteOutcome(d, k, offset, [], 0, d')
  {
    hide Consistent, Sprung, Springs, Roomy, WriteIn, Leaky;
    if Consistent(d') {
      WriteNone(d, k, offset, d');
    }
  }

  lemma WritingEnds<K>(d: Disk<K>, k: K, offset: nat, b: seq<byte>, d2: Disk<K>, d': Disk<K>)
    requires Consistent(d) && k in d.files && Making(d, k, offset, b, d2)
    requires d2.clusterSize > 0 && k in d2.files && PutIn(d2, k, offset, b, d')
    ensures WriteOutcome(d, k, offset, b, |b|, d')
  {
    hide Consistent, Sprung, Springs, Roomy, WriteIn, Leaky;
    if Consistent(d2) {
      WriteEnds(d, k, offset, b, d2, d');
      WriteInConsistent(d, k, offset, b, |b|, d');
    } else {
      LeakyMeans(d2, k);
      LeakStays(d2, k, d');
    }
  }

  lemma SpliceOverAnything(s: seq<byte>, s': seq<byte>, grown: nat, offset: nat, b: seq<byte>)
    requires |s| == |s'| && offset <= grown <= |s| && offset + |b| <= |s|
    requires |s| == grown || |s| == offset + |b|
    requires forall i :: 0 <= i < grown ==> s'[i] == s[i]
    ensures Splice(s', offset, b) == Splice(s, offset, b)
  {
  }
}
