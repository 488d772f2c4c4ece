/** Giving back the clusters behind a directory's last file. */
module Shrinking {
  import Bitmap
  import opened Clusters
  import opened Content
  import opened Entries
  import opened FileRecords
  import opened Files
  import opened FileSpec
  import Growth
  import opened Layout
  import opened Listed
  import opened Positions
  import opened Scanning
  import opened Agreement
  import opened Upkeep
  import opened Utf
  import opened Views
  import opened Volumes
  import opened Directories

  /** Where a child's entries end. */
  function EndOf(kid: Kid): nat
    requires Buffer(kid.info.name)
  {
    Place(kid) + 2 + NameParts(kid.info.name)
  }

  /** The j-th child is the one furthest back. */
  predicate Furthest(kids: seq<Kid>, n: nat, j: nat) {
    j < n <= |kids| && forall i :: 0 <= i < n ==> kids[i].offset <= kids[j].offset
  }

  lemma KidPlace<K>(d: Disk<K>, k: K, kids: seq<Kid>, rs: Records, j: nat)
    requires DirOk(d, k, kids, rs) && j < |kids|
    ensures var kid := kids[j];
            && Buffer(kid.info.name) && Place(kid) in rs && Good(rs[Place(kid)], d.clusterSize)
            && SameName(kid.info.name, rs[Place(kid)].name)
            && kid.offset == ENTRY_SIZE * Place(kid) && Here(d, k, kid.cluster, kid.offset)
            && EndOf(kid) == Place(kid) + Length(rs[Place(kid)]) <= |EntriesOf(d, k)|
            && Placed(EntriesOf(d, k), Place(kid), rs[Place(kid)])
  {
    hide DirFile, Good, EntriesOf, Here;
    assert OneOf(d, k, kids[j], rs);
    HereAligned(d, k, kids[j].cluster, kids[j].offset);
    LaidPlaced(EntriesOf(d, k), rs, d.clusterSize, Place(kids[j]));
  }

  /** No file's entries end behind those of the child furthest back. */
  lemma FurthestEnds<K>(d: Disk<K>, k: K, kids: seq<Kid>, rs: Records, j: nat)
    requires DirOk(d, k, kids, rs) && Furthest(kids, |kids|, j)
    ensures Buffer(kids[j].info.name)
    ensures forall at :: at in rs ==> Buffer(rs[at].name) && at + Length(rs[at]) <= EndOf(kids[j])
  {
    hide DirFile, Good, EntriesOf, Here, Laid, SameName;
    DirOkFile(d, k, kids, rs);
    KidPlace(d, k, kids, rs, j);
    forall at | at in rs
      ensures Buffer(rs[at].name) && at + Length(rs[at]) <= EndOf(kids[j])
    {
      var i :| 0 <= i < |kids| && Place(kids[i]) == at;
      KidPlace(d, k, kids, rs, i);
      if at != Place(kids[j]) {
        ThenNext(EntriesOf(d, k), rs, d.clusterSize, at);
      }
    }
  }

  lemma NoFiles<K>(d: Disk<K>, k: K, kids: seq<Kid>, rs: Records)
    requires DirOk(d, k, kids, rs) && kids == []
    ensures rs == map[]
  {
    hide DirFile, Laid, EntriesOf;
  }

  /** The size a directory is cut to: at least one cluster, and as many as its entries need. */
  function SizeFor(entries: nat, clusterSize: nat): nat
    requires clusterSize > 0
  {
    if entries == 0 then clusterSize else RoundedUp(entries * ENTRY_SIZE, clusterSize)
  }

  /** Some child lies behind the deleted entries. */
  predicate Behind(kids: seq<Kid>, deletedOffset: nat) {
    exists j :: 0 <= j < |kids| && deletedOffset < kids[j].offset
  }

  predicate Named(kids: seq<Kid>) {
    forall kid :: kid in kids ==> Buffer(kid.info.name)
  }

  /** Where the last entry of all the children ends. */
  function EntriesEnd(kids: seq<Kid>): (n: nat)
    requires Named(kids)
  {
    if kids == [] then 0
    else
      var rest, end := EntriesEnd(kids[1..]), EndOf(kids[0]);
      if rest < end then end else rest
  }

  /** The size of a directory after a deletion, by what is left in it: as before if some child lies behind the deleted
      entries, and otherwise the clusters that the children need, at least one. */
  function CutSize(kids: seq<Kid>, deletedOffset: nat, size: nat, clusterSize: nat): nat
    requires Named(kids) && clusterSize > 0
  {
    if Behind(kids, deletedOffset) then size else SizeFor(EntriesEnd(kids), clusterSize)
  }

  /** In numbers: nothing is cut off while a child lies behind; otherwise the size is the least positive number of whole
      clusters in which the entries of every child end. */
  lemma CutLeast(kids: seq<Kid>, deletedOffset: nat, size: nat, clusterSize: nat)
    requires Named(kids) && clusterSize > 0 && clusterSize % 32 == 0
    ensures var r := CutSize(kids, deletedOffset, size, clusterSize);
            if exists j :: 0 <= j < |kids| && kids[j].offset > deletedOffset then r == size
            else
              && r > 0 && r % clusterSize == 0
              && (forall j :: 0 <= j < |kids| ==> 32 * LastEntry(kids[j]) <= r)
              && (r > clusterSize ==> exists j :: 0 <= j < |kids| && 32 * LastEntry(kids[j]) > r - clusterSize)
  {
    hide EntriesEnd, EndOf, RoundedUp, LastEntry;
    EndOfAll(kids);
    var n := EntriesEnd(kids);
    RoundedBounds(n * ENTRY_SIZE, clusterSize);
    forall j | 0 <= j < |kids|
      ensures Buffer(kids[j].info.name) && EndOf(kids[j]) == LastEntry(kids[j])
    {
      assert kids[j] in kids;
      EndIs(kids[j]);
    }
    if kids == [] {
      NoEnd();
    } else {
      var j :| 0 <= j < |kids| && Buffer(kids[j].info.name) && EndOf(kids[j]) == n;
      assert LastEntry(kids[j]) == n;
    }
  }

  lemma NoEnd()
    ensures EntriesEnd([]) == 0
  {
  }

  /** The number of the entry behind a child's last one. */
  function LastEntry(kid: Kid): nat {
    kid.offset / 32 + 2 + (|Name(kid.info.name)| + 14) / 15
  }

  lemma EndIs(kid: Kid)
    requires Buffer(kid.info.name)
    ensures EndOf(kid) == LastEntry(kid)
  {
  }

  lemma {:induction false} EndOfAll(kids: seq<Kid>)
    requires Named(kids)
    ensures forall j :: 0 <= j < |kids| ==> Buffer(kids[j].info.name) && EndOf(kids[j]) <= EntriesEnd(kids)
    ensures kids != [] ==>
              exists j :: 0 <= j < |kids| && Buffer(kids[j].info.name) && EndOf(kids[j]) == EntriesEnd(kids)
  {
    hide EndOf, Buffer;
    if kids != [] {
      assert forall kid :: kid in kids[1..] ==> kid in kids;
      EndOfAll(kids[1..]);
      assert kids[0] in kids;
      assert forall j :: 1 <= j < |kids| ==> kids[j] == kids[1..][j - 1];
      if EntriesEnd(kids) != EndOf(kids[0]) {
        var j :| 0 <= j < |kids[1..]| && EndOf(kids[1..][j]) == EntriesEnd(kids[1..]);
        assert kids[j + 1] == kids[1..][j];
      }
    }
  }

  /** Files do not overlap, so the child that begins last also ends last. */
  lemma UsedIsEnd<K>(d: Disk<K>, k: K, kids: seq<Kid>, rs: Records, entries: nat)
    requires DirOk(d, k, kids, rs) && EntriesUsed(kids, entries)
    ensures Named(kids) && entries == EntriesEnd(kids)
  {
    hide DirOk, EndOf;
    KidNames(d, k, kids, rs);
    EndOfAll(kids);
    if kids != [] {
      var j: nat :| Furthest(kids, |kids|, j) && Buffer(kids[j].info.name) && entries == EndOf(kids[j]);
      var i :| 0 <= i < |kids| && Buffer(kids[i].info.name) && EndOf(kids[i]) == EntriesEnd(kids);
      FurthestEnds(d, k, kids, rs, j);
      KidEnd(d, k, kids, rs, i);
    }
  }

  lemma KidEnd<K>(d: Disk<K>, k: K, kids: seq<Kid>, rs: Records, j: nat)
    requires DirOk(d, k, kids, rs) && j < |kids|
    ensures var kid := kids[j];
            && Buffer(kid.info.name) && Place(kid) in rs && Buffer(rs[Place(kid)].name)
            && EndOf(kid) == Place(kid) + Length(rs[Place(kid)])
  {
    hide DirOk, DirFile, EntriesOf, Here, Placed, SameName;
    KidPlace(d, k, kids, rs, j);
  }

  /** The number of entries up to the end of the child furthest back. */
  ghost predicate EntriesUsed(kids: seq<Kid>, entries: nat) {
    if kids == [] then entries == 0
    else exists j: nat :: Furthest(kids, |kids|, j) && Buffer(kids[j].info.name) && entries == EndOf(kids[j])
  }

  lemma SizeBounds(entries: nat, size: nat, cs: nat)
    requires cs > 0 && cs % ENTRY_SIZE == 0 && size > 0 && size % cs == 0 && entries * ENTRY_SIZE <= size
    ensures var new_size := SizeFor(entries, cs);
            && cs <= new_size <= size && new_size % cs == 0 && new_size % ENTRY_SIZE == 0
            && entries <= new_size / ENTRY_SIZE
  {
    WholeMultiple(size, cs);
    var q := Block(size, cs);
    if entries > 0 {
      RoundedBounds(entries * ENTRY_SIZE, cs);
      ClustersForMonotone(entries * ENTRY_SIZE, size, cs);
      RoundedExact(q, cs);
      ProductMonotone(ClustersFor(entries * ENTRY_SIZE, cs), q, cs);
      ClustersForBounds(entries * ENTRY_SIZE, cs);
      ProductMonotone(1, ClustersFor(entries * ENTRY_SIZE, cs), cs);
    } else {
      ProductMonotone(1, q, cs);
    }
  }

  /** A directory that has been cut: it keeps its first entries, the clusters of the others are free, and it does not
      stand in the trap. */
  ghost predicate Reclaimed<K>(d: Disk<K>, k: K, d': Disk<K>)
    requires DirFile(d, k)
  {
    && DirFile(d', k) && Clear(d', k) && d'.clusterSize == d.clusterSize
    && |EntriesOf(d', k)| <= |EntriesOf(d, k)| && EntriesOf(d', k) == EntriesOf(d, k)[..|EntriesOf(d', k)|]
    && Bitmap.CountClear(d'.used)
       == Bitmap.CountClear(d.used) - Cost(d.files[k].size, d'.files[k].size, d.clusterSize)
  }

  /** What shrinking promises: the size is the one that the children left decide, and if that is another size, the
      clusters behind it are free. */
  ghost predicate ShrunkTo<K>(d: Disk<K>, k: K, kids: seq<Kid>, rs: Records, deletedOffset: nat, d': Disk<K>)
    requires DirFile(d, k)
  {
    && DirOk(d', k, kids, rs) && OthersKept(d, k, d') && Named(kids)
    && d'.files[k].size == CutSize(kids, deletedOffset, d.files[k].size, d.clusterSize)
    && d.clusterSize <= d'.files[k].size <= d.files[k].size && d'.files[k].size % d.clusterSize == 0
    && if d'.files[k].size == d.files[k].size then d' == d else Reclaimed(d, k, d')
  }

  lemma NotShrunk<K>(d: Disk<K>, k: K, kids: seq<Kid>, rs: Records, deletedOffset: nat)
    requires DirOk(d, k, kids, rs) && Named(kids) && d.clusterSize > 0 && k in d.files
    requires CutSize(kids, deletedOffset, d.files[k].size, d.clusterSize) == d.files[k].size
    ensures DirFile(d, k) && ShrunkTo(d, k, kids, rs, deletedOffset, d)
  {
    hide Consistent, Laid, EntriesOf, Agrees, CutSize;
    OthersNone(d, k);
    WholeMultiple(d.files[k].size, d.clusterSize);
    ProductMonotone(1, Block(d.files[k].size, d.clusterSize), d.clusterSize);
  }

  /** An entry of the directory, its own or one of the volume's, is still there after that if and only if it ends
      within the size that the children left decide. */
  lemma EntrySurvives<K>(d: Disk<K>, k: K, kids: seq<Kid>, rs: Records, deletedOffset: nat, d': Disk<K>, i: nat)
    requires DirFile(d, k) && ShrunkTo(d, k, kids, rs, deletedOffset, d') && i < |EntriesOf(d, k)|
    ensures DirFile(d', k) && Named(kids)
    ensures (i < |EntriesOf(d', k)| && EntriesOf(d', k)[i] == EntriesOf(d, k)[i])
            <==> ENTRY_SIZE * (i + 1) <= CutSize(kids, deletedOffset, d.files[k].size, d.clusterSize)
  {
    hide Consistent, DirOk, OthersKept, EntriesOf, CutSize, Clear, Bitmap.CountClear;
    DirOkFile(d', k, kids, rs);
    EntryCount(d, k);
    EntryCount(d', k);
  }

  /** A cut that leaves every file's entries. */
  lemma CutOk<K>(d: Disk<K>, k: K, kids: seq<Kid>, rs: Records, deletedOffset: nat, entries: nat, ok: bool, d': Disk<K>)
    requires DirOk(d, k, kids, rs) && EntriesUsed(kids, entries) && entries * ENTRY_SIZE <= d.files[k].size
    requires !Behind(kids, deletedOffset)
    requires Truncated(d, k, SizeFor(entries, d.clusterSize), true, ok, d')
    requires SizeFor(entries, d.clusterSize) != d.files[k].size
    ensures ok && ShrunkTo(d, k, kids, rs, deletedOffset, d')
  {
    hide Behind, EntriesEnd, Reclaimed, Consistent, DirFile, DirOk, Laid, Agrees, ChainsKept, Truncated, SizeFor,
         EntriesUsed, EntriesOf, OthersKept, Buffer, NameParts;
    DirOkFile(d, k, kids, rs);
    DirSizes(d, k);
    WholeClusters(d, k);
    UsedIsEnd(d, k, kids, rs, entries);
    var size := SizeFor(entries, d.clusterSize);
    SizeBounds(entries, d.files[k].size, d.clusterSize);
    CutContent(d, k, size, ok, d');
    CutReclaims(d, k, size, ok, d');
    FilesWithin(d, k, kids, rs, entries);
    LaidCut(EntriesOf(d, k), rs, d.clusterSize, size / ENTRY_SIZE);
    KidsWithin(d, k, kids, rs, entries, d');
    DirOkOf(d', k, kids, rs);
  }

  lemma WholeClusters<K>(d: Disk<K>, k: K)
    requires DirFile(d, k)
    ensures d.clusterSize > 0 && d.clusterSize % ENTRY_SIZE == 0 && k in d.files
    ensures d.files[k].size > 0 && d.files[k].size % d.clusterSize == 0
  {
  }

  lemma DirOkOf<K>(d: Disk<K>, k: K, kids: seq<Kid>, rs: Records)
    requires DirFile(d, k) && Laid(EntriesOf(d, k), rs, d.clusterSize) && Agrees(d, k, kids, rs)
    ensures DirOk(d, k, kids, rs)
  {
  }

  /** A directory made shorter keeps its first entries. */
  lemma CutContent<K>(d: Disk<K>, k: K, size: nat, ok: bool, d': Disk<K>)
    requires DirFile(d, k) && Truncated(d, k, size, true, ok, d')
    requires 0 < size <= d.files[k].size && size % d.clusterSize == 0 && size % ENTRY_SIZE == 0
    ensures ok && DirFile(d', k) && d'.files[k].size == size && d'.clusterSize == d.clusterSize
    ensures ChainsKept(d, k, d') && OthersKept(d, k, d')
    ensures size / ENTRY_SIZE <= |EntriesOf(d, k)| && EntriesOf(d', k) == EntriesOf(d, k)[..size / ENTRY_SIZE]
  {
    hide Consistent, Layout.Bytes, ChainsKept, Truncated, Slots, OthersKept;
    CostSign(d.files[k].size, size, d.clusterSize);
    CutSucceeds(d, k, size, ok, d');
    TruncatedBytes(d, k, size, ok, d');
    EntriesCut(d, k, size, d');
    OthersCut(d, k, d');
  }

  lemma CutReclaims<K>(d: Disk<K>, k: K, size: nat, ok: bool, d': Disk<K>)
    requires DirFile(d, k) && Truncated(d, k, size, true, ok, d')
    requires 0 < size < d.files[k].size && size % d.clusterSize == 0 && size % ENTRY_SIZE == 0
    ensures Reclaimed(d, k, d')
  {
    hide ChainsKept, OthersKept, Slots, Layout.Bytes, Consistent, Truncated, Clear, EntriesOf, Bitmap.CountClear,
         ViewOf;
    CutContent(d, k, size, ok, d');
    EntryCount(d', k);
    WholeCost(d.files[k].size, size, d.clusterSize);
    CutSucceeds(d, k, size, ok, d');
    TruncatedBytes(d, k, size, ok, d');
    FreeOf(d);
    FreeOf(d');
    CutClear(d, k, size, ok, d');
  }

  lemma FreeOf<K>(d: Disk<K>)
    requires Consistent(d)
    ensures ViewOf(d).free == Bitmap.CountClear(d.used)
  {
    hide Layout.Bytes;
  }

  lemma CutClear<K>(d: Disk<K>, k: K, size: nat, ok: bool, d': Disk<K>)
    requires DirFile(d, k) && Truncated(d, k, size, true, ok, d') && DirFile(d', k)
    requires Cost(d.files[k].size, size, d.clusterSize) < 0
    ensures Clear(d', k)
  {
    hide ChainsKept, Growth.Trap, ViewOf, Truncates, Sprung, Leaky;
  }

  /** Sizes of whole clusters differ by the clusters between them. */
  lemma WholeCost(from: nat, to: nat, clusterSize: nat)
    requires clusterSize > 0 && clusterSize % ENTRY_SIZE == 0
    requires 0 < to < from && from % clusterSize == 0 && to % clusterSize == 0
    ensures Cost(from, to, clusterSize) < 0
  {
    WholeMultiple(from, clusterSize);
    WholeMultiple(to, clusterSize);
    RoundedExact(Block(from, clusterSize), clusterSize);
    RoundedExact(Block(to, clusterSize), clusterSize);
    if Block(from, clusterSize) <= Block(to, clusterSize) {
      ProductMonotone(Block(from, clusterSize), Block(to, clusterSize), clusterSize);
    }
  }

  lemma CutSucceeds<K>(d: Disk<K>, k: K, size: nat, ok: bool, d': Disk<K>)
    requires Consistent(d) && k in d.files && Cost(d.files[k].size, size, d.clusterSize) <= 0
    requires Truncated(d, k, size, true, ok, d')
    ensures ok && !Springs(d, k, size)
  {
    hide Consistent, ChainsKept;
    BytesIn(d, k);
    BytesLong(d, k);
  }

  lemma BytesLong<K>(d: Disk<K>, k: K)
    requires Consistent(d) && k in d.files
    ensures |Layout.Bytes(d, k)| == d.files[k].size
  {
  }

  lemma EntriesCut<K>(d: Disk<K>, k: K, size: nat, d': Disk<K>)
    requires DirFile(d, k) && Consistent(d') && k in d'.files && d'.clusterSize == d.clusterSize
    requires 0 < size <= d.files[k].size && size % d.clusterSize == 0 && size % ENTRY_SIZE == 0
    requires d'.files[k].size == size && Layout.Bytes(d', k) == Resized(Layout.Bytes(d, k), size)
    ensures DirFile(d', k) && size / ENTRY_SIZE <= |EntriesOf(d, k)|
    ensures EntriesOf(d', k) == EntriesOf(d, k)[..size / ENTRY_SIZE]
  {
    hide Layout.Bytes, Resized, Slots;
    WholeEntries(d, k);
    WholeEntries(d', k);
    SlotsCut(Layout.Bytes(d, k), size);
  }

  lemma FilesWithin<K>(d: Disk<K>, k: K, kids: seq<Kid>, rs: Records, entries: nat)
    requires DirOk(d, k, kids, rs) && EntriesUsed(kids, entries)
    ensures forall at :: at in rs ==> Buffer(rs[at].name) && at + Length(rs[at]) <= entries
  {
    hide DirOk;
    if kids == [] {
      NoFiles(d, k, kids, rs);
    } else {
      var j: nat :| Furthest(kids, |kids|, j) && Buffer(kids[j].info.name) && entries == EndOf(kids[j]);
      FurthestEnds(d, k, kids, rs, j);
    }
  }

  lemma OthersCut<K>(d: Disk<K>, k: K, d': Disk<K>)
    requires DirFile(d, k) && Consistent(d') && ChainsKept(d, k, d') && k in d'.files && d'.clusterSize == d.clusterSize
    requires ViewOf(d').files == ViewOf(d).files[k := Layout.Bytes(d', k)]
    ensures OthersKept(d, k, d')
  {
    hide Layout.Bytes, ChainOf, Geometry, FilesOk, OwnedUsed, Disjoint, NoLeak;
    OthersView(d, k, d');
  }

  lemma KidsWithin<K>(d: Disk<K>, k: K, kids: seq<Kid>, rs: Records, entries: nat, d': Disk<K>)
    requires DirOk(d, k, kids, rs) && EntriesUsed(kids, entries)
    requires DirFile(d', k) && ChainsKept(d, k, d') && entries * ENTRY_SIZE <= d'.files[k].size
    ensures Agrees(d', k, kids, rs)
  {
    DirOkFile(d, k, kids, rs);
    FilesWithin(d, k, kids, rs, entries);
    hide DirOk, EntriesUsed, DirFile, Here, Laid, Agrees, SameName, Good, EntriesOf, ChainsKept;
    forall j | 0 <= j < |kids|
      ensures Here(d', k, kids[j].cluster, kids[j].offset)
    {
      KidPlace(d, k, kids, rs, j);
      HereAfter(d, k, d', kids[j].cluster, kids[j].offset);
    }
    AgreesStill(d, k, d', kids, rs);
  }

  /** Cuts the directory behind its last child, unless the entries deleted at `deletedOffset` were not the last. */
  method ShrinkDirectory(vol: Volume, dir: Node, kids: seq<Kid>, deletedOffset: nat, ghost rs: Records)
    returns (rc: Status)
    requires vol.MapFits() && DirOk(vol.Snapshot(), dir, kids, rs)
    modifies vol`fat, vol`heap, vol`mapDirty, vol.chunk
    modifies dir`startCluster, dir`contiguous, dir`fptrIndex, dir`fptrCluster, dir`size, dir`dirty
    ensures old(DirFile(vol.Snapshot(), dir))
    ensures rc == Ok && ShrunkTo(old(vol.Snapshot()), dir, kids, rs, deletedOffset, vol.Snapshot())
  {
    hide Behind, EntriesEnd, Consistent, DirFile, DirOk, ShrunkTo, Truncated, Volume.Snapshot, SizeFor, EntriesUsed,
         Here, Good, EntriesOf, Buffer;
    ghost var d := vol.Snapshot();
    DirOkFile(d, dir, kids, rs);
    DirKnown(vol, dir);
    DirSizes(d, dir);
    KidNames(d, dir, kids, rs);
    var behind, entries := CountEntries(kids, deletedOffset);
    if behind {
      NotShrunk(d, dir, kids, rs, deletedOffset);
      return Ok;
    }
    UsedIsEnd(d, dir, kids, rs, entries);
    Used(d, dir, kids, rs, entries);
    var newSize := SizeFor(entries, vol.clusterSize);
    if newSize == dir.size {
      NotShrunk(d, dir, kids, rs, deletedOffset);
      return Ok;
    }
    SizeFits(d, dir, entries);
    rc := vol.Truncate(dir, newSize, true);
    CutOk(d, dir, kids, rs, deletedOffset, entries, rc == Ok, vol.Snapshot());
  }

  /** The walk over the children: whether one lies behind the deleted entries, and if not, how many entries are used
      up to the end of the one furthest back. */
  method CountEntries(kids: seq<Kid>, deletedOffset: nat) returns (behind: bool, entries: nat)
    requires Named(kids)
    ensures behind <==> Behind(kids, deletedOffset)
    ensures !behind ==> EntriesUsed(kids, entries)
  {
    hide Name, NameParts;
    var last, i: nat := 0, 0;
    while i < |kids|
      invariant i <= |kids| && (last == 0 || last < i)
      invariant forall j :: 0 <= j < i ==> kids[j].offset <= deletedOffset
      invariant i > 0 ==> Furthest(kids, i, last)
    {
      if deletedOffset < kids[i].offset {
        return true, 0;
      }
      if kids[last].offset < kids[i].offset {
        last := i;
      }
      i := i + 1;
    }
    behind, entries := false, 0;
    if |kids| > 0 {
      assert kids[last] in kids;
      entries := entries + kids[last].offset / ENTRY_SIZE;
      entries := entries + 2;
      entries := entries + NameParts(kids[last].info.name);
    }
  }

  lemma KidNames<K>(d: Disk<K>, k: K, kids: seq<Kid>, rs: Records)
    requires DirOk(d, k, kids, rs)
    ensures Named(kids)
  {
    hide DirOk;
    forall kid | kid in kids
      ensures Buffer(kid.info.name)
    {
      var j :| 0 <= j < |kids| && kids[j] == kid;
      KidPlace(d, k, kids, rs, j);
    }
  }

  lemma Used<K>(d: Disk<K>, k: K, kids: seq<Kid>, rs: Records, entries: nat)
    requires DirOk(d, k, kids, rs) && EntriesUsed(kids, entries)
    ensures k in d.files && entries * ENTRY_SIZE <= d.files[k].size
  {
    hide DirOk, DirFile, EntriesOf, Here, Good;
    DirOkFile(d, k, kids, rs);
    EntryCount(d, k);
    DirSizes(d, k);
    if kids != [] {
      var last: nat :| Furthest(kids, |kids|, last) && Buffer(kids[last].info.name) && entries == EndOf(kids[last]);
      KidPlace(d, k, kids, rs, last);
    }
  }

  lemma SizeFits<K>(d: Disk<K>, k: K, entries: nat)
    requires DirFile(d, k) && entries * ENTRY_SIZE <= d.files[k].size
    ensures d.clusterSize > 0 && SizeFor(entries, d.clusterSize) <= MAX_COUNT * d.clusterSize
  {
    hide ChainOf, FilesOk, OwnedUsed, Disjoint, NoLeak;
    SizeBounds(entries, d.files[k].size, d.clusterSize);
    ReadyToGrow(d, k);
  }
}
