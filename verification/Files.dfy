/** What a change to one file's chain and clusters means for the whole volume and for file contents. */
module Files {
  import opened Bitmap
  import opened Clusters
  import opened Content
  import opened Layout
  import opened Growth

  /** The file `k` of `d` replaced by `f`, with new FAT, map and heap. */
  ghost function Replaced<K>(d: Disk<K>, k: K, fat: seq<u32>, used: seq<bool>, heap: seq<seq<byte>>, f: File): Disk<K> {
    d.(fat := fat, used := used, heap := heap, files := d.files[k := f])
  }

  /** The map after a file's chain has become another one, made of its own clusters and of free ones. */
  ghost predicate Booked(used: seq<bool>, used': seq<bool>, chain: seq<u32>, chain': seq<u32>) {
    && |used'| == |used|
    && (forall c: u32 :: InMap(c, |used|) ==>
          used'[c - FIRST_DATA] == (c in chain' || (used[c - FIRST_DATA] && c !in chain)))
    && (forall c: u32 :: c in chain' && InMap(c, |used|) ==> c in chain || !used[c - FIRST_DATA])
  }

  /** Used clusters beside those of `chain` have kept their FAT entries and their bytes. */
  ghost predicate KeptBeside<K>(d: Disk<K>, chain: seq<u32>, fat': seq<u32>, heap': seq<seq<byte>>)
    requires Geometry(d)
  {
    && |fat'| == |d.fat| && |heap'| == |d.heap|
    && (forall c: u32 :: IsUsed(d, c) && c !in chain ==> fat'[c] == d.fat[c])
    && (forall c: u32 :: IsUsed(d, c) && c !in chain ==> heap'[c - FIRST_DATA] == d.heap[c - FIRST_DATA])
  }

  /** `f'` is a sound file of `n` clusters, each of them taken from the file itself or from the free ones;
      nothing that belongs to anybody else has changed. */
  ghost predicate Reshaped<K>(d: Disk<K>, k: K, fat': seq<u32>, used': seq<bool>, heap': seq<seq<byte>>, f': File,
                              n: nat)
    requires Geometry(d) && k in d.files
  {
    && Uniform(heap', d.clusterSize)
    && ClustersFor(f'.size, d.clusterSize) == n
    && KeptBeside(d, ChainOf(d, k), fat', heap')
    && FileOk(fat', d.size, f', n)
    && Booked(d.used, used', ChainOf(d, k), Chain(fat', f'.contiguous, f'.start, n))
  }

  lemma ReshapedOnly<K>(d: Disk<K>, k: K, fat': seq<u32>, used': seq<bool>, heap': seq<seq<byte>>, f': File, n: nat)
    requires Consistent(d) && k in d.files && Reshaped(d, k, fat', used', heap', f', n)
    ensures var d' := Replaced(d, k, fat', used', heap', f');
            && OnlyFile(d, k, d') && Consistent(d')
            && ChainOf(d', k) == Chain(fat', f'.contiguous, f'.start, n)
            && forall other :: other in d.files && other != k ==> Bytes(d', other) == Bytes(d, other)
  {
    hide OnlyFile, Bytes, Booked, KeptBeside, FileOk, FilesOk, OwnedUsed, Disjoint, NoLeak, Chain, ClustersFor;
    var d' := Replaced(d, k, fat', used', heap', f');
    ReshapedConfined(d, k, fat', used', heap', f', n);
    OnlyFileKeepsConsistent(d, k, d');
    forall other | other in d.files && other != k
      ensures Bytes(d', other) == Bytes(d, other)
    {
      OtherBytesKept(d, k, d', other);
    }
  }

  lemma ReshapedConfined<K>(d: Disk<K>, k: K, fat': seq<u32>, used': seq<bool>, heap': seq<seq<byte>>, f': File, n: nat)
    requires Geometry(d) && OwnedUsed(d) && k in d.files && Reshaped(d, k, fat', used', heap', f', n)
    ensures var d' := Replaced(d, k, fat', used', heap', f');
            && Geometry(d') && OnlyFile(d, k, d') && Count(d', k) == n
            && ChainOf(d', k) == Chain(fat', f'.contiguous, f'.start, n)
  {
    hide Chain, Uniform, ClustersFor, CursorOk, Distinct;
    var d' := Replaced(d, k, fat', used', heap', f');
    assert ChainOf(d', k) == Chain(fat', f'.contiguous, f'.start, n);
    forall c: u32 | Owns(d, k, c)
      ensures IsUsed(d, c)
    {
    }
  }

  lemma {:induction false} CountMarked(used: seq<bool>, chain: seq<u32>, n: nat, b: bool)
    requires n <= |chain| && Distinct(chain)
    requires forall i :: 0 <= i < |chain| ==> InMap(chain[i], |used|) && used[chain[i] - FIRST_DATA] != b
    ensures b ==> CountClear(Mark(used, chain[..n], b)) + n == CountClear(used)
    ensures !b ==> CountClear(Mark(used, chain[..n], b)) == CountClear(used) + n
  {
    hide CountClear, Distinct, Mark;
    if n == 0 {
      MarkNone(used, chain, 0, b);
      assert chain[..n] == chain[0..0];
    } else {
      CountMarked(used, chain, n - 1, b);
      MarkedNext(used, chain, n - 1, b);
      CountAfterUpdate(Mark(used, chain[..n - 1], b), chain[n - 1] - FIRST_DATA, b);
    }
  }

  lemma MarkedNext(used: seq<bool>, chain: seq<u32>, n: nat, b: bool)
    requires n < |chain| && Distinct(chain) && InMap(chain[n], |used|)
    ensures var before := Mark(used, chain[..n], b);
            && before[chain[n] - FIRST_DATA] == used[chain[n] - FIRST_DATA]
            && Mark(used, chain[..n + 1], b) == before[chain[n] - FIRST_DATA := b]
  {
    assert chain[n] !in chain[..n];
    assert chain[..n + 1] == chain[..n] + [chain[n]];
  }

  lemma CountMarkedAll(used: seq<bool>, chain: seq<u32>, b: bool)
    requires Distinct(chain)
    requires forall i :: 0 <= i < |chain| ==> InMap(chain[i], |used|) && used[chain[i] - FIRST_DATA] != b
    ensures b ==> CountClear(Mark(used, chain, b)) + |chain| == CountClear(used)
    ensures !b ==> CountClear(Mark(used, chain, b)) == CountClear(used) + |chain|
  {
    assert chain[..|chain|] == chain;
    CountMarked(used, chain, |chain|, b);
  }

  /** A chain's own clusters are used, in range and, by index, all different. */
  lemma OwnChain<K>(d: Disk<K>, k: K)
    requires Consistent(d) && k in d.files
    ensures var chain := ChainOf(d, k);
            && FileOk(d.fat, d.size, d.files[k], Count(d, k)) && Distinct(chain)
            && (forall c :: c in chain ==> IsUsed(d, c))
            && (forall i :: 0 <= i < |chain| ==> IsUsed(d, chain[i]))
  {
    var chain := ChainOf(d, k);
    forall c | c in chain
      ensures IsUsed(d, c)
    {
      assert Owns(d, k, c);
    }
    forall i | 0 <= i < |chain|
      ensures IsUsed(d, chain[i])
    {
      assert chain[i] in chain;
    }
  }

  /** The map after appending clusters, cluster by cluster. */
  lemma MarkGrown(used: seq<bool>, chain: seq<u32>, n: nat)
    requires n <= |chain|
    requires forall c :: c in chain[..n] ==> InMap(c, |used|) && used[c - FIRST_DATA]
    ensures forall c: u32 :: InMap(c, |used|) ==>
              Mark(used, chain[n..], true)[c - FIRST_DATA]
              == (c in chain || (used[c - FIRST_DATA] && c !in chain[..n]))
    ensures forall c :: c in chain ==> c in chain[..n] || c in chain[n..]
  {
    assert chain == chain[..n] + chain[n..];
  }

  /** The map after cutting clusters off, cluster by cluster. */
  lemma MarkShrunk(used: seq<bool>, chain: seq<u32>, keep: nat)
    requires keep <= |chain| && Distinct(chain)
    requires forall c :: c in chain ==> InMap(c, |used|) && used[c - FIRST_DATA]
    ensures forall c: u32 :: InMap(c, |used|) ==>
              Mark(used, chain[keep..], false)[c - FIRST_DATA]
              == (c in chain[..keep] || (used[c - FIRST_DATA] && c !in chain))
    ensures forall c :: c in chain[..keep] ==> c in chain
  {
    Parts(chain, keep);
    hide Distinct;
    forall c: u32 | InMap(c, |used|)
      ensures Mark(used, chain[keep..], false)[c - FIRST_DATA]
              == (c in chain[..keep] || (used[c - FIRST_DATA] && c !in chain))
    {
      assert Mark(used, chain[keep..], false)[c - FIRST_DATA] == (c !in chain[keep..] && used[c - FIRST_DATA]);
    }
  }

  /** A grown file, given its new size and new cluster contents, is a reshaped one. */
  lemma GrownReshaped<K>(d: Disk<K>, k: K, difference: nat, fat': seq<u32>, used': seq<bool>, g: File,
                         heap': seq<seq<byte>>, f': File)
    requires Consistent(d) && k in d.files
    requires Grown(d.fat, d.used, d.files[k], Count(d, k), difference, fat', used', g)
    requires f'.start == g.start && f'.contiguous == g.contiguous
    requires ClustersFor(f'.size, d.clusterSize) == Count(d, k) + difference
    requires CursorOk(fat', f', Count(d, k) + difference)
    requires |heap'| == |d.heap| && Uniform(heap', d.clusterSize)
    requires OnlyIn(d.heap, heap', Chain(fat', g.contiguous, g.start, Count(d, k) + difference))
    ensures Reshaped(d, k, fat', used', heap', f', Count(d, k) + difference)
  {
    hide Uniform, Grown, Chain, FileOk, CursorOk, Distinct, ClustersFor, KeptBeside, Booked;
    var n := Count(d, k);
    GrownSound(d.fat, d.used, d.files[k], n, difference, fat', used', g);
    FileOkAs(fat', d.size, g, n + difference, f');
    OwnChain(d, k);
    GrownBooked(d.fat, d.used, d.files[k], n, difference, fat', used', g);
    GrownBeside(d, k, difference, fat', used', g, heap');
  }

  lemma GrownSound(fat: seq<u32>, used: seq<bool>, f: File, n: nat, difference: nat,
                   fat': seq<u32>, used': seq<bool>, g: File)
    requires Grown(fat, used, f, n, difference, fat', used', g)
    ensures |fat'| == |fat| >= |used| + FIRST_DATA && FileOk(fat', |used|, g, n + difference)
  {
    hide FileOk, Chain, Trap;
  }

  /** The state of a file that differs from a sound one in its size and its cached position only. */
  lemma FileOkAs(fat: seq<u32>, size: nat, g: File, n: nat, f: File)
    requires |fat| >= size + FIRST_DATA && FileOk(fat, size, g, n)
    requires f.start == g.start && f.contiguous == g.contiguous && CursorOk(fat, f, n)
    ensures FileOk(fat, size, f, n)
  {
    hide Chain, Sound, CursorOk;
  }

  lemma GrownBooked(fat: seq<u32>, used: seq<bool>, f: File, n: nat, difference: nat,
                    fat': seq<u32>, used': seq<bool>, g: File)
    requires Grown(fat, used, f, n, difference, fat', used', g)
    requires forall c :: c in Chain(fat, f.contiguous, f.start, n) ==> InMap(c, |used|) && used[c - FIRST_DATA]
    ensures Booked(used, used', Chain(fat, f.contiguous, f.start, n),
                   Chain(fat', g.contiguous, g.start, n + difference))
  {
    hide Chain, FileOk, Trap, Mark;
    MarkGrown(used, Chain(fat', g.contiguous, g.start, n + difference), n);
  }

  lemma GrownBeside<K>(d: Disk<K>, k: K, difference: nat, fat': seq<u32>, used': seq<bool>, g: File,
                       heap': seq<seq<byte>>)
    requires Consistent(d) && k in d.files
    requires Grown(d.fat, d.used, d.files[k], Count(d, k), difference, fat', used', g)
    requires OnlyIn(d.heap, heap', Chain(fat', g.contiguous, g.start, Count(d, k) + difference))
    ensures KeptBeside(d, ChainOf(d, k), fat', heap')
  {
    hide Grown, Chain, FileOk, FilesOk, OwnedUsed, Disjoint, NoLeak, Count, Uniform;
    var f, n := d.files[k], Count(d, k);
    GrownSound(d.fat, d.used, f, n, difference, fat', used', g);
    forall c: u32 | IsUsed(d, c) && c !in ChainOf(d, k)
      ensures fat'[c] == d.fat[c] && heap'[c - FIRST_DATA] == d.heap[c - FIRST_DATA]
    {
      GrownPast(d.fat, d.used, f, n, difference, fat', used', g, c);
    }
  }

  /** A cluster in use that the file did not have is not in the grown chain. */
  lemma GrownPast(fat: seq<u32>, used: seq<bool>, f: File, n: nat, difference: nat,
                  fat': seq<u32>, used': seq<bool>, g: File, c: u32)
    requires Grown(fat, used, f, n, difference, fat', used', g)
    requires InMap(c, |used|) && used[c - FIRST_DATA] && c !in Chain(fat, f.contiguous, f.start, n)
    ensures c !in Chain(fat', g.contiguous, g.start, n + difference) && fat'[c] == fat[c]
  {
    hide Chain, FileOk, Trap, Mark;
    var chain := Chain(fat', g.contiguous, g.start, n + difference);
    assert chain == chain[..n] + chain[n..];
  }

  lemma GrownCount<K>(d: Disk<K>, k: K, difference: nat, fat': seq<u32>, used': seq<bool>, g: File)
    requires Consistent(d) && k in d.files
    requires Grown(d.fat, d.used, d.files[k], Count(d, k), difference, fat', used', g)
    ensures CountClear(used') + difference == CountClear(d.used)
  {
    hide Nth, Chain, CountClear, CursorOk, Mark, FilesOk, OwnedUsed, Disjoint, NoLeak, Uniform, ClustersFor, Trap,
         Distinct;
    var n := Count(d, k);
    var chain: seq<u32> := Chain(fat', g.contiguous, g.start, n + difference);
    CountTail(d.used, chain, n, true);
  }

  /** Setting or clearing the bits of a chain's tail, none of which was so before. */
  lemma CountTail(used: seq<bool>, chain: seq<u32>, keep: nat, b: bool)
    requires Distinct(chain) && keep <= |chain|
    requires forall c :: c in chain[keep..] ==> InMap(c, |used|) && used[c - FIRST_DATA] != b
    ensures b ==> CountClear(Mark(used, chain[keep..], b)) + |chain| - keep == CountClear(used)
    ensures !b ==> CountClear(Mark(used, chain[keep..], b)) == CountClear(used) + |chain| - keep
  {
    hide CountClear, Mark, Distinct;
    Parts(chain, keep);
    var tail := chain[keep..];
    forall i | 0 <= i < |tail|
      ensures InMap(tail[i], |used|) && used[tail[i] - FIRST_DATA] != b
    {
      assert tail[i] in tail;
    }
    CountMarkedAll(used, tail, b);
  }

  lemma RolledBackReshaped<K>(d: Disk<K>, k: K, fat': seq<u32>, used': seq<bool>, f': File)
    requires Consistent(d) && k in d.files
    requires RolledBack(d.fat, d.used, d.files[k], Count(d, k), fat', used', f')
    ensures Reshaped(d, k, fat', used', d.heap, f', Count(d, k))
    ensures used' == d.used && Chain(fat', f'.contiguous, f'.start, Count(d, k)) == ChainOf(d, k)
  {
    hide Nth, Uniform, CountClear, CursorOk, Distinct, FileOk, Chain;
    OwnChain(d, k);
  }

  lemma ShrunkReshaped<K>(d: Disk<K>, k: K, difference: nat, fat': seq<u32>, used': seq<bool>, g: File, f': File)
    requires Consistent(d) && k in d.files && difference <= Count(d, k)
    requires Shrunk(d.fat, d.used, d.files[k], Count(d, k), difference, fat', used', g)
    requires f' == g.(size := f'.size) && ClustersFor(f'.size, d.clusterSize) == Count(d, k) - difference
    ensures Reshaped(d, k, fat', used', d.heap, f', Count(d, k) - difference)
  {
    hide Uniform, FileOk, FilesOk, OwnedUsed, Disjoint, NoLeak, Booked, Chain, CursorOk, Distinct, ClustersFor;
    var n := Count(d, k);
    OwnChain(d, k);
    ShrunkOk(d.fat, d.used, d.files[k], n, difference, fat', used', g);
    assert CursorOk(fat', f', n - difference) by {
      CursorAtStart(fat', f', n - difference);
    }
    FileOkAs(fat', d.size, g, n - difference, f');
    ShrunkBooked(d.fat, d.used, d.files[k], n, difference, fat', used', g);
  }

  lemma CursorAtStart(fat: seq<u32>, f: File, n: nat)
    requires f.index == 0 && f.cursor == f.start
    ensures CursorOk(fat, f, n)
  {
  }

  lemma ShrunkBooked(fat: seq<u32>, used: seq<bool>, f: File, n: nat, difference: nat,
                     fat': seq<u32>, used': seq<bool>, g: File)
    requires difference <= n && Shrunk(fat, used, f, n, difference, fat', used', g)
    requires Distinct(Chain(fat, f.contiguous, f.start, n))
    requires forall c :: c in Chain(fat, f.contiguous, f.start, n) ==> InMap(c, |used|) && used[c - FIRST_DATA]
    ensures Booked(used, used', Chain(fat, f.contiguous, f.start, n),
                   Chain(fat', g.contiguous, g.start, n - difference))
  {
    hide Chain, Distinct, Mark;
    MarkShrunk(used, Chain(fat, f.contiguous, f.start, n), n - difference);
  }

  lemma Parts(chain: seq<u32>, keep: nat)
    requires Distinct(chain) && keep <= |chain|
    ensures forall c :: c in chain <==> c in chain[..keep] || c in chain[keep..]
    ensures forall c :: c in chain[..keep] ==> c !in chain[keep..]
    ensures Distinct(chain[keep..])
  {
    assert chain == chain[..keep] + chain[keep..];
  }

  /** What is left after shrinking a sound chain is sound. */
  lemma ShrunkOk(fat: seq<u32>, used: seq<bool>, f: File, n: nat, difference: nat,
                 fat': seq<u32>, used': seq<bool>, g: File)
    requires |fat| >= |used| + FIRST_DATA && FileOk(fat, |used|, f, n) && difference <= n
    requires Shrunk(fat, used, f, n, difference, fat', used', g)
    ensures FileOk(fat', |used|, g, n - difference)
  {
    var chain, keep := Chain(fat, f.contiguous, f.start, n), n - difference;
    hide Mark;
    if keep > 0 {
      assert chain[keep - 1] in chain;
      assert chain[0] == f.start;
    }
  }

  lemma ShrunkCount<K>(d: Disk<K>, k: K, difference: nat, fat': seq<u32>, used': seq<bool>, g: File)
    requires Consistent(d) && k in d.files && difference <= Count(d, k)
    requires Shrunk(d.fat, d.used, d.files[k], Count(d, k), difference, fat', used', g)
    ensures CountClear(used') == CountClear(d.used) + difference
  {
    hide Nth, Chain, CountClear, CursorOk, Mark, Distinct, FilesOk, OwnedUsed, Disjoint, NoLeak, ClustersFor, Uniform;
    OwnChain(d, k);
    var chain, keep := ChainOf(d, k), Count(d, k) - difference;
    forall c | c in chain[keep..]
      ensures IsUsed(d, c)
    {
      assert c in chain;
    }
    CountTail(d.used, chain, keep, false);
  }

  /** Every cluster of the chain can be gone to and lies in the heap. */
  ghost predicate Walkable(heap: seq<seq<byte>>, chain: seq<u32>) {
    InHeap(chain, heap) && forall i :: 0 <= i < |chain| ==> !Invalid(chain[i])
  }

  lemma WalkChain(fat: seq<u32>, heap: seq<seq<byte>>, f: File, n: nat)
    requires Walkable(heap, Chain(fat, f.contiguous, f.start, n)) && CursorOk(fat, f, n)
    ensures InHeap(Chain(fat, f.contiguous, f.start, n), heap)
    ensures f.cursor == Nth(fat, f.contiguous, f.start, f.index)
    ensures forall k :: 0 <= k < n ==> !Invalid(Nth(fat, f.contiguous, f.start, k))
    ensures forall k :: 0 <= k < n ==> !Invalid(Chain(fat, f.contiguous, f.start, n)[k])
  {
    var chain := Chain(fat, f.contiguous, f.start, n);
    assert forall k :: 0 <= k < n ==> chain[k] == Nth(fat, f.contiguous, f.start, k);
  }

  lemma CursorAt(fat: seq<u32>, f: File, n: nat)
    requires f.index < n && f.cursor == Nth(fat, f.contiguous, f.start, f.index)
    ensures CursorOk(fat, f, n) && f.cursor == Chain(fat, f.contiguous, f.start, n)[f.index]
  {
  }

  /** The bytes from `begin` to `end` are zero, and perhaps some after them in the chain; the rest is as it
      was. (Whole clusters are zeroed after the first one.) */
  ghost predicate Erased(heap: seq<seq<byte>>, size: nat, chain: seq<u32>, begin: nat, end: nat, heap': seq<seq<byte>>)
    requires size > 0
  {
    var e := if end <= begin - begin % size + size then end else ClustersFor(end, size) * size;
    begin <= end <= e && Wrote(heap, size, chain, begin, Zeros(e - begin), heap')
  }

  /** The state of EraseRange's loop: bytes from `begin` to `e` are zero, the k-th cluster was the last. */
  ghost predicate Erasing(heap: seq<seq<byte>>, size: nat, chain: seq<u32>, begin: nat, end: nat,
                          heap': seq<seq<byte>>, k: nat, boundary: nat) {
    && size > 0 && begin < end && |chain| == ClustersFor(end, size) && k < |chain|
    && boundary == (k + 1) * size && k * size < end
    && var first := begin - begin % size + size;
       var e := if end <= first then end else boundary;
       begin < first <= boundary && begin <= e && Wrote(heap, size, chain, begin, Zeros(e - begin), heap')
  }

  lemma FirstBlock(begin: nat, end: nat, size: nat)
    requires size > 0 && begin < end
    ensures var k, boundary := begin / size, begin - begin % size + size;
            && boundary == (k + 1) * size && begin < boundary && k * size < end
            && k < ClustersFor(end, size)
            && begin == k * size + begin % size
  {
    ClustersForBounds(end, size);
    assert begin == (begin / size) * size + begin % size;
    ProductBelow(begin / size, ClustersFor(end, size), size);
  }

  lemma EraseBegins(heap: seq<seq<byte>>, size: nat, chain: seq<u32>, begin: nat, end: nat)
    requires size > 0 && Uniform(heap, size) && InHeap(chain, heap)
    requires begin < end && |chain| == ClustersFor(end, size)
    ensures var k, boundary := begin / size, begin - begin % size + size;
            var e := if boundary < end then boundary else end;
            && k < |chain| && InMap(chain[k], |heap|) && begin <= e
            && begin % size + (e - begin) <= |heap[chain[k] - FIRST_DATA]|
            && Erasing(heap, size, chain, begin, end,
                       Write(heap, chain[k], begin % size, Zeros(e - begin)), k, boundary)
  {
    hide ClustersFor, Write, Uniform;
    var k, boundary := begin / size, begin - begin % size + size;
    var e := if boundary < end then boundary else end;
    FirstBlock(begin, end, size);
    RowSize(heap, size, chain, k);
    ClustersForBounds(end, size);
    assert begin <= |chain| * size;
    WroteNothing(heap, size, chain, begin);
    WroteMore(heap, size, chain, begin, [], heap, k, begin % size, Zeros(e - begin));
    assert [] + Zeros(e - begin) == Zeros(e - begin);
  }

  lemma RowSize(heap: seq<seq<byte>>, size: nat, chain: seq<u32>, k: nat)
    requires Uniform(heap, size) && InHeap(chain, heap) && k < |chain|
    ensures InMap(chain[k], |heap|) && |heap[chain[k] - FIRST_DATA]| == size
  {
  }

  lemma EraseGoesOn(heap: seq<seq<byte>>, size: nat, chain: seq<u32>, begin: nat, end: nat, heap': seq<seq<byte>>,
                    k: nat, boundary: nat)
    requires Erasing(heap, size, chain, begin, end, heap', k, boundary) && boundary < end
    ensures k + 1 < |chain| && InMap(chain[k + 1], |heap'|) && |heap'[chain[k + 1] - FIRST_DATA]| == size
    ensures Erasing(heap, size, chain, begin, end, Write(heap', chain[k + 1], 0, Zeros(size)), k + 1, boundary + size)
  {
    hide ClustersFor, Write, Uniform;
    ClustersForBounds(end, size);
    ProductBelow(k + 1, |chain|, size);
    assert (k + 2) * size == boundary + size;
    assert Wrote(heap, size, chain, begin, Zeros(boundary - begin), heap');
    WroteMore(heap, size, chain, begin, Zeros(boundary - begin), heap', k + 1, 0, Zeros(size));
    assert Zeros(boundary - begin) + Zeros(size) == Zeros(boundary + size - begin);
    RowSize(heap', size, chain, k + 1);
  }

  lemma EraseEnds(heap: seq<seq<byte>>, size: nat, chain: seq<u32>, begin: nat, end: nat, heap': seq<seq<byte>>,
                  k: nat, boundary: nat)
    requires Erasing(heap, size, chain, begin, end, heap', k, boundary) && end <= boundary
    ensures Erased(heap, size, chain, begin, end, heap')
  {
    ClustersForUnique(end, size, k + 1);
    hide ClustersFor, Wrote;
  }
}
