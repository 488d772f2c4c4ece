/** Directories in core, changed together with their entries on the disk. */
module CachedDirectory {
  import Bitmap
  import opened Clusters
  import opened Content
  import opened Entries
  import opened FileRecords
  import opened Files
  import opened FileSpec
  import opened Layout
  import opened LittleEndian
  import opened Listed
  import opened Positions
  import opened Scanning
  import opened Agreement
  import opened Upkeep
  import opened Utf
  import opened Views
  import opened Volumes
  import opened Directories
  import opened Shrinking
  import opened Reuse

  // --- reading a directory again ---

  /** The child is as it is on the disk. */
  predicate AsStored(kid: Kid, rs: Records) {
    Place(kid) in rs && Buffer(rs[Place(kid)].name) && kid.info == ReadInfo(rs[Place(kid)])
  }

  /** What has been read from a directory that is laid out properly are its files, as they are stored. */
  lemma CachedAgrees<K>(d: Disk<K>, k: K, kids: seq<Kid>, rs: Records)
    requires DirFile(d, k) && Laid(EntriesOf(d, k), rs, d.clusterSize)
    requires Cached(d, k, kids, Listing(EntriesOf(d, k), 0, d.clusterSize))
    ensures Agrees(d, k, kids, rs) && forall j :: 0 <= j < |kids| ==> AsStored(kids[j], rs)
  {
    hide Laid, EntriesOf, Here, SameName, ReadName, DirFile, Listing, OneOf, Cached, Place, AsStored;
    WholeClusters(d, k);
    var l := Listing(EntriesOf(d, k), 0, d.clusterSize);
    StartBoundary(EntriesOf(d, k), rs, d.clusterSize);
    ListsAll(EntriesOf(d, k), rs, 0, d.clusterSize);
    CachedLength(d, k, kids, l);
    forall j | 0 <= j < |kids|
      ensures OneOf(d, k, kids[j], rs) && Place(kids[j]) == l[j].at && AsStored(kids[j], rs)
    {
      CachedAt(d, k, kids, l, rs, j);
    }
    forall at | at in rs
      ensures exists j :: 0 <= j < |kids| && Place(kids[j]) == at
    {
      var j :| 0 <= j < |l| && l[j].at == at;
      assert Place(kids[j]) == at;
    }
  }

  lemma StartBoundary(es: seq<Slot>, rs: Records, clusterSize: nat)
    requires Laid(es, rs, clusterSize)
    ensures Boundary(rs, 0)
  {
  }

  lemma CachedLength<K>(d: Disk<K>, k: K, kids: seq<Kid>, l: seq<Agreement.Entry>)
    requires DirFile(d, k) && Cached(d, k, kids, l)
    ensures |kids| == |l|
  {
  }

  lemma CachedAt<K>(d: Disk<K>, k: K, kids: seq<Kid>, l: seq<Agreement.Entry>, rs: Records, j: nat)
    requires DirFile(d, k) && Cached(d, k, kids, l) && j < |kids| && |l| == |kids| && l[j].at in rs
    requires Buffer(rs[l[j].at].name) && l[j].info == ReadInfo(rs[l[j].at])
    ensures OneOf(d, k, kids[j], rs) && Place(kids[j]) == l[j].at && AsStored(kids[j], rs)
  {
    hide DirFile, Here, SameName, ReadName, Field;
    ReadNameSame(rs[l[j].at].name);
  }

  /** The same file: at the same place, under the same name. */
  predicate SameFile(a: Kid, b: Kid) {
    a.cluster == b.cluster && a.offset == b.offset && Name(a.info.name) == Name(b.info.name)
  }

  ghost predicate AmongFiles(a: Kid, kids: seq<Kid>) {
    exists j :: 0 <= j < |kids| && SameFile(a, kids[j])
  }

  /** Two lists of a directory's children that both agree with its files name the same files. */
  lemma SameFiles<K>(d: Disk<K>, k: K, a: seq<Kid>, b: seq<Kid>, rs: Records, i: nat)
    requires Agrees(d, k, a, rs) && Agrees(d, k, b, rs) && i < |a|
    ensures AmongFiles(a[i], b)
  {
    hide OneOf, Place, SameFile;
    assert OneOf(d, k, a[i], rs);
    OneOfPlace(d, k, a[i], rs);
    var j :| 0 <= j < |b| && Place(b[j]) == Place(a[i]);
    assert OneOf(d, k, b[j], rs);
    SamePlace(d, k, a[i], b[j], rs);
  }

  lemma OneOfPlace<K>(d: Disk<K>, k: K, kid: Kid, rs: Records)
    requires OneOf(d, k, kid, rs)
    ensures Place(kid) in rs
  {
  }

  lemma SamePlace<K>(d: Disk<K>, k: K, a: Kid, b: Kid, rs: Records)
    requires OneOf(d, k, a, rs) && OneOf(d, k, b, rs) && Place(a) == Place(b)
    ensures SameFile(a, b)
  {
    hide Name;
  }

  lemma NoneTwice<K>(d: Disk<K>, k: K, kids: seq<Kid>, rs: Records)
    requires Agrees(d, k, kids, rs)
    ensures forall i, j :: 0 <= i < j < |kids| ==> !SameFile(kids[i], kids[j])
  {
    hide OneOf, Name;
    forall i, j | 0 <= i < j < |kids|
      ensures !SameFile(kids[i], kids[j])
    {
      assert Place(kids[i]) != Place(kids[j]);
    }
  }

  /** Reading a directory again yields exactly the children it has in core, each once, in the same places, under the
      same names, with the fields its entries record, and every checksum accepted. */
  lemma ReadAgain<K>(d: Disk<K>, k: K, kids: seq<Kid>, rs: Records)
    requires DirOk(d, k, kids, rs)
    ensures DirFile(d, k) && Readable(EntriesOf(d, k), 0, d.clusterSize)
    ensures forall again :: Cached(d, k, again, Listing(EntriesOf(d, k), 0, d.clusterSize)) ==>
              && (forall i :: 0 <= i < |kids| ==> AmongFiles(kids[i], again))
              && (forall i :: 0 <= i < |again| ==> AmongFiles(again[i], kids))
              && (forall i, j :: 0 <= i < j < |again| ==> !SameFile(again[i], again[j]))
              && (forall i :: 0 <= i < |again| ==> AsStored(again[i], rs))
  {
    DirOkFile(d, k, kids, rs);
    ListsAll(EntriesOf(d, k), rs, 0, d.clusterSize);
    hide DirOk, DirFile, Laid, EntriesOf, Agrees, Listing, Cached, AmongFiles, AsStored;
    forall again | Cached(d, k, again, Listing(EntriesOf(d, k), 0, d.clusterSize))
      ensures forall i :: 0 <= i < |kids| ==> AmongFiles(kids[i], again)
      ensures forall i :: 0 <= i < |again| ==> AmongFiles(again[i], kids)
      ensures forall i, j :: 0 <= i < j < |again| ==> !SameFile(again[i], again[j])
      ensures forall i :: 0 <= i < |again| ==> AsStored(again[i], rs)
    {
      CachedAgrees(d, k, again, rs);
      NoneTwice(d, k, again, rs);
      forall i | 0 <= i < |kids|
        ensures AmongFiles(kids[i], again)
      {
        SameFiles(d, k, kids, again, rs, i);
      }
      forall i | 0 <= i < |again|
        ensures AmongFiles(again[i], kids)
      {
        SameFiles(d, k, again, kids, rs, i);
      }
    }
  }

  // --- the steps of each change ---

  /** The name field of a node given a name: zero behind it. */
  function NodeName(name: seq<unit>): (n: seq<unit>)
    requires Buffer(name)
    ensures Buffer(n) && Name(n) == Name(name)
  {
    NameShort(name);
    var n := Padded(Name(name));
    NameKept(name, n, |Name(name)|);
    n
  }

  // --- what the second entry of a file says of its name ---

  /** The entry after `at` is an info entry with the length of the name and its hash. */
  ghost predicate NameSaid<K>(d: Disk<K>, k: K, at: nat, name: seq<unit>, hash: nat) {
    && DirFile(d, k) && at + 1 < |EntriesOf(d, k)|
    && var e := EntriesOf(d, k)[at + 1];
       e[0] == 0xc0 && e[3] == |Name(name)| && e[4] == hash % 256 && e[5] == hash / 256 % 256
  }

  lemma SecondEntry<K>(d: Disk<K>, k: K, kids: seq<Kid>, rs: Records, at: nat)
    requires DirOk(d, k, kids, rs) && at in rs
    ensures DirFile(d, k) && at + 1 < |EntriesOf(d, k)| && EntriesOf(d, k)[at + 1] == rs[at].meta2
    ensures rs[at].meta2[0] == 0xc0
  {
    hide DirFile, EntriesOf, Agrees, SetSum, Field, Plausible, NameParts, Name, NameSlots;
    LaidPlaced(EntriesOf(d, k), rs, d.clusterSize, at);
    assert EntriesOf(d, k)[at + 1] == EntriesOf(d, k)[at..at + Length(rs[at])][1];
  }

  /** The name length that a directory's records say can be read from its entries. */
  lemma LengthOnDisk<K>(d: Disk<K>, k: K, kids: seq<Kid>, rs: Records, j: nat)
    requires DirOk(d, k, kids, rs) && LengthsSaid(rs) && j < |kids|
    ensures DirFile(d, k) && Place(kids[j]) + 1 < |EntriesOf(d, k)|
    ensures EntriesOf(d, k)[Place(kids[j]) + 1][3] == |Name(kids[j].info.name)|
  {
    hide DirOk, DirFile, EntriesOf, NameParts, Name, Good, Here, Placed;
    KidPlace(d, k, kids, rs, j);
    SecondEntry(d, k, kids, rs, Place(kids[j]));
  }

  lemma NewSaidAt<K>(d: Disk<K>, k: K, kids: seq<Kid>, rs: Records, at: nat, name: seq<unit>, attrib: nat,
                     now: StoredTime, hash: nat)
    requires DirOk(d, k, kids, rs) && Buffer(name) && at in rs && rs[at] == NewRecord(NodeName(name), attrib, now, hash)
    ensures NameSaid(d, k, at, name, hash)
  {
    hide DirOk, DirFile, EntriesOf, Name, NewRecord, NodeName;
    SecondEntry(d, k, kids, rs, at);
    NodeNameIs(name);
    NewBytes(NodeName(name), attrib, now, hash);
  }

  lemma NodeNameIs(name: seq<unit>)
    requires Buffer(name)
    ensures Buffer(NodeName(name)) && Name(NodeName(name)) == Name(name)
  {
  }

  lemma RenamedSaidAt<K>(d: Disk<K>, k: K, kids: seq<Kid>, rs: Records, at: nat, r: Record, name: seq<unit>, hash: nat)
    requires DirOk(d, k, kids, rs) && Buffer(name) && at in rs && rs[at] == Renamed(r, name, hash)
    ensures NameSaid(d, k, at, name, hash)
  {
    hide DirOk, DirFile, EntriesOf, Name, Renamed;
    SecondEntry(d, k, kids, rs, at);
    RenamedBytes(r, name, hash);
  }

  /** The records keep saying so when one is added, changed or taken away. */
  lemma SaidStill(rs: Records, at: nat, r: Record)
    requires LengthsSaid(rs)
    ensures LengthsSaid(rs - {at}) && (LengthSaid(r) ==> LengthsSaid(rs[at := r]) && LengthsSaid((rs - {at})[at := r]))
  {
    hide LengthSaid;
  }

  lemma CreatedSaid(rs: Records, at: nat, name: seq<unit>, attrib: nat, now: StoredTime, hash: nat)
    requires LengthsSaid(rs) && Buffer(name)
    ensures LengthsSaid(rs[at := NewRecord(name, attrib, now, hash)])
  {
    hide LengthsSaid, LengthSaid, NewRecord;
    NewSaid(name, attrib, now, hash);
    SaidStill(rs, at, NewRecord(name, attrib, now, hash));
  }

  lemma RenamedAllSaid(rs: Records, at: nat, r: Record, name: seq<unit>, hash: nat)
    requires LengthsSaid(rs) && Buffer(name)
    ensures LengthsSaid(rs[at := Renamed(r, name, hash)])
  {
    hide LengthsSaid, LengthSaid, Renamed;
    RenamedSaid(r, name, hash);
    SaidStill(rs, at, Renamed(r, name, hash));
  }

  lemma RenameSaid(from: Records, at: nat, rs: Records, same: bool, to: nat, name: seq<unit>, hash: nat)
    requires LengthsSaid(rs) && LengthsSaid(from) && at in from && Buffer(name)
    ensures LengthsSaid(from - {at})
    ensures LengthsSaid((if same then rs - {at} else rs)[to := Renamed(from[at], name, hash)])
  {
    hide LengthsSaid, Renamed;
    SaidStill(from, at, from[at]);
    SaidStill(rs, at, from[at]);
    RenamedAllSaid(if same then rs - {at} else rs, to, from[at], name, hash);
  }

  lemma FlushedAllSaid(rs: Records, kid: Kid, f: Fields, rs': Records)
    requires LengthsSaid(rs) && FieldsFlushed(rs, kid, f, rs')
    ensures LengthsSaid(rs')
  {
    hide Flushed, Name;
    FlushedSaid(rs[Place(kid)], f, kid.info.name);
  }

  lemma SameNameSelf(name: seq<unit>)
    requires Buffer(name)
    ensures SameName(name, name)
  {
  }

  ghost predicate Room<K>(d: Disk<K>, k: K, n: nat, cluster: u32, offset: nat)
    requires DirFile(d, k)
  {
    Here(d, k, cluster, offset) && VacantRun(EntriesOf(d, k), offset / ENTRY_SIZE, offset / ENTRY_SIZE + n)
  }

  /** After a search that succeeded, all is as it was and there is room. */
  /** The fields of a directory in which a slot has been found: as they were if that cost nothing, and otherwise with a
      greater size. */
  ghost predicate SearchedFields<K>(d: Disk<K>, k: K, n: nat, f: File)
    requires DirFile(d, k)
  {
    if SlotCost(d, k, n) == 0 then f == d.files[k] else f.size == LongerSize(d, k, n) > d.files[k].size
  }

  lemma DirFields(vol: Volume, dir: Node)
    requires vol.MapFits() && DirFile(vol.Snapshot(), dir)
    ensures dir in vol.Snapshot().files && vol.Snapshot().files[dir] == dir.Fields()
  {
    hide Consistent;
  }

  lemma SearchedFieldsOf<K>(d: Disk<K>, k: K, n: nat, cluster: u32, offset: nat, d': Disk<K>)
    requires DirFile(d, k) && 0 < n && SlotFound(d, k, n, true, cluster, offset, d')
    ensures k in d'.files && SearchedFields(d, k, n, d'.files[k])
  {
    hide Consistent, Enlarged, Here, EntriesOf, LongerSize, Tail, HasRun, Bitmap.CountClear;
    if !HasRun(EntriesOf(d, k), n) {
      TailShort(EntriesOf(d, k), n);
      LongerCosts(d, k, n);
      EnlargedFile(d, k, d');
    }
  }

  lemma AfterSearch<K>(d: Disk<K>, k: K, n: nat, ok: bool, cluster: u32, offset: nat, d': Disk<K>, kids: seq<Kid>,
                       rs: Records)
    requires DirOk(d, k, kids, rs) && DirFile(d, k) && SlotFound(d, k, n, ok, cluster, offset, d')
    ensures OthersKept(d, k, d') && DirOk(d', k, kids, rs) && DirFile(d', k)
    ensures ok ==> Room(d', k, n, cluster, offset)
    ensures ok <==> SlotCost(d, k, n) <= Bitmap.CountClear(d.used)
    ensures Bitmap.CountClear(d'.used) == Bitmap.CountClear(d.used) - if ok then SlotCost(d, k, n) else 0
    ensures ok && 0 < n ==> k in d'.files && SearchedFields(d, k, n, d'.files[k])
  {
    hide DirFile, DirOk, Enlarged, Here, EntriesOf, SlotCost, LongerSize, Tail, HasRun, Bitmap.CountClear,
         SearchedFields;
    if ok && 0 < n {
      SearchedFieldsOf(d, k, n, cluster, offset, d');
    }
    FoundFree(d, k, n, ok, cluster, offset, d');
    if ok {
      DirOkEnlarged(d, k, d', kids, rs);
      OthersEnlarged(d, k, d');
      EnlargedFile(d, k, d');
    } else {
      Refused(d, k, d', kids, rs);
    }
  }

  /** A search takes the clusters it says. */
  lemma FoundFree<K>(d: Disk<K>, k: K, n: nat, ok: bool, cluster: u32, offset: nat, d': Disk<K>)
    requires DirFile(d, k) && SlotFound(d, k, n, ok, cluster, offset, d')
    ensures Bitmap.CountClear(d'.used) == Bitmap.CountClear(d.used) - if ok then SlotCost(d, k, n) else 0
  {
    hide EntriesOf, Here, LongerSize, Tail, HasRun, Bitmap.CountClear, Layout.Bytes, ChainsKept, FirstRun, RunAt;
  }

  lemma EnlargedFile<K>(d: Disk<K>, k: K, d': Disk<K>)
    requires DirFile(d, k) && Enlarged(d, k, d')
    ensures DirFile(d', k)
  {
  }

  /** A search that found no room leaves the directory as it was. */
  lemma Refused<K>(d: Disk<K>, k: K, d': Disk<K>, kids: seq<Kid>, rs: Records)
    requires DirOk(d, k, kids, rs) && DirFile(d', k) && ChainsKept(d, k, d') && ViewOf(d') == ViewOf(d)
    ensures OthersKept(d, k, d') && DirOk(d', k, kids, rs)
  {
    DirOkFile(d, k, kids, rs);
    hide DirOk, Consistent, Laid, Agrees, Layout.Bytes, Slots, Here, ChainOf;
    RefusedSame(d, k, d');
    DirOkFile(d, k, kids, rs);
    forall j | 0 <= j < |kids|
      ensures Here(d', k, kids[j].cluster, kids[j].offset)
    {
      KidHere(d, k, kids, rs, j);
      HereAfter(d, k, d', kids[j].cluster, kids[j].offset);
    }
    AgreesStill(d, k, d', kids, rs);
    DirOkOf(d', k, kids, rs);
  }

  lemma KidHere<K>(d: Disk<K>, k: K, kids: seq<Kid>, rs: Records, j: nat)
    requires DirFile(d, k) && Agrees(d, k, kids, rs) && j < |kids|
    ensures Here(d, k, kids[j].cluster, kids[j].offset) && kids[j].offset < d.files[k].size
  {
    hide Here, DirFile;
    assert OneOf(d, k, kids[j], rs);
    HereAligned(d, k, kids[j].cluster, kids[j].offset);
  }

  lemma RefusedSame<K>(d: Disk<K>, k: K, d': Disk<K>)
    requires DirFile(d, k) && DirFile(d', k) && ChainsKept(d, k, d') && ViewOf(d') == ViewOf(d)
    ensures OthersKept(d, k, d') && d'.files[k].size == d.files[k].size && d'.clusterSize == d.clusterSize
    ensures EntriesOf(d', k) == EntriesOf(d, k)
  {
    hide Layout.Bytes, ChainOf, Geometry, FilesOk, OwnedUsed, Disjoint, NoLeak;
    BytesIn(d, k);
    BytesIn(d', k);
    BytesLong(d, k);
    BytesLong(d', k);
    assert ViewOf(d').files == ViewOf(d).files[k := Layout.Bytes(d', k)];
    OthersView(d, k, d');
  }

  /** Writing a new file's entries where there is room. */
  lemma AfterWrite<K>(d: Disk<K>, k: K, d': Disk<K>, kids: seq<Kid>, rs: Records, kid: Kid, r: Record)
    requires DirOk(d, k, kids, rs) && DirFile(d, k) && Good(r, d.clusterSize) && SameName(kid.info.name, r.name)
    requires Room(d, k, Length(r), kid.cluster, kid.offset) && PutSome(d, k, Place(kid), EntrySet(r), d')
    ensures OthersKept(d, k, d') && DirOk(d', k, [kid] + kids, rs[Place(kid) := r])
  {
    hide DirFile, DirOk, Good, Here, EntriesOf, SameName, EntrySet, OnlyContent;
    DirOkWritten(d, k, d', kids, rs, kid, r);
    OthersContent(d, k, d');
  }

  /** Deleting a file's entries. */
  lemma AfterErase<K>(d: Disk<K>, k: K, d': Disk<K>, kids: seq<Kid>, rs: Records, j: nat)
    requires DirOk(d, k, kids, rs) && DirFile(d, k) && j < |kids|
    requires Place(kids[j]) in rs && Buffer(rs[Place(kids[j])].name)
    requires ErasedSome(d, k, Place(kids[j]), Length(rs[Place(kids[j])]), d')
    ensures OthersKept(d, k, d') && DirOk(d', k, Without(kids, j), rs - {Place(kids[j])})
  {
    hide DirFile, DirOk, Here, EntriesOf, SameName, OnlyContent;
    DirOkErased(d, k, d', kids, rs, j);
    OthersContent(d, k, d');
  }

  /** Room stays room when other entries are deleted. */
  lemma RoomStill<K>(d: Disk<K>, k: K, at: nat, len: nat, d': Disk<K>, n: nat, cluster: u32, offset: nat)
    requires DirFile(d, k) && ErasedSome(d, k, at, len, d') && Room(d, k, n, cluster, offset)
    ensures DirFile(d', k) && Room(d', k, n, cluster, offset)
  {
    hide DirFile, EntriesOf, Here, OnlyContent;
    ErasedSomeDirs(d, k, at, len, d');
    HereStill(d, k, d', cluster, offset);
  }

  lemma RoomElsewhere<K>(d: Disk<K>, other: K, d': Disk<K>, k: K, n: nat, cluster: u32, offset: nat)
    requires OnlyContent(d, other, d') && other != k && DirFile(d, k) && Room(d, k, n, cluster, offset)
    ensures DirFile(d', k) && Room(d', k, n, cluster, offset)
  {
    hide Consistent, Layout.Bytes, ChainOf, Block, Slots;
    OthersContent(d, other, d');
    WholeEntries(d, k);
    WholeEntries(d', k);
    assert EntriesOf(d', k) == EntriesOf(d, k);
  }

  /** Rewriting a file's entries in place. */
  lemma AfterRewrite<K>(d: Disk<K>, k: K, d': Disk<K>, kids: seq<Kid>, rs: Records, at: nat, r: Record)
    requires DirOk(d, k, kids, rs) && DirFile(d, k) && at in rs && Good(r, d.clusterSize) && r.name == rs[at].name
    requires PutSome(d, k, at, EntrySet(r), d')
    ensures OthersKept(d, k, d') && DirOk(d', k, kids, rs[at := r])
  {
    hide DirFile, DirOk, Good, EntriesOf, EntrySet, OnlyContent;
    DirOkRewritten(d, k, d', kids, rs, at, r);
    OthersContent(d, k, d');
  }

  /** A directory whose children are cached. */
  class Directory {
    const vol: Volume
    const file: Node
    var kids: seq<Kid>
    ghost var files: Records

    ghost predicate Valid()
      reads this, vol, vol.chunk, vol.nodes
    {
      vol.MapFits() && DirOk(vol.Snapshot(), file, kids, files)
    }

    /** A directory that has just been read. */
    constructor (vol: Volume, file: Node, kids: seq<Kid>, ghost files: Records)
      requires vol.MapFits() && DirFile(vol.Snapshot(), file)
      requires Laid(EntriesOf(vol.Snapshot(), file), files, vol.clusterSize)
      requires Cached(vol.Snapshot(), file, kids, Listing(EntriesOf(vol.Snapshot(), file), 0, vol.clusterSize))
      ensures Valid() && this.vol == vol && this.file == file && this.kids == kids && this.files == files
      ensures forall j :: 0 <= j < |kids| ==> AsStored(kids[j], files)
    {
      hide DirFile, Laid, Cached, Listing, EntriesOf, AsStored, Agrees, Volume.Snapshot;
      this.vol, this.file, this.kids, this.files := vol, file, kids, files;
      new;
      DirKnown(vol, file);
      CachedAgrees(vol.Snapshot(), file, kids, files);
    }

    /** Makes an empty file, or a directory still without a cluster. */
    method Create(name: seq<unit>, attrib: nat, now: StoredTime, hash: nat) returns (rc: Status)
      requires Valid() && Buffer(name) && Name(name) != [] && attrib < 0x1_0000
      requires DirFile(vol.Snapshot(), file) && Searchable(vol.Snapshot(), file, 2 + NameParts(name))
      modifies this, vol`fat, vol`heap, vol`mapDirty, vol.chunk
      modifies file`startCluster, file`contiguous, file`fptrIndex, file`fptrCluster, file`size, file`dirty
      ensures Valid() && OthersKept(old(vol.Snapshot()), file, vol.Snapshot())
      ensures rc == Ok <==> old(SlotCost(vol.Snapshot(), file, 2 + NameParts(name))
                                <= Bitmap.CountClear(vol.Snapshot().used))
      ensures Bitmap.CountClear(vol.Snapshot().used)
              == old(Bitmap.CountClear(vol.Snapshot().used)
                     - if rc == Ok then SlotCost(vol.Snapshot(), file, 2 + NameParts(name)) else 0)
      ensures rc != Ok ==> kids == old(kids)
      ensures rc == Ok ==> kids != [] && kids == [kids[0]] + old(kids)
                           && kids[0].info == Info(attrib, 0, FREE, false, NodeName(name))
      ensures files == if rc != Ok then old(files)
                       else old(files)[Place(kids[0]) := NewRecord(NodeName(name), attrib, now, hash)]
      ensures rc == Ok ==> NameSaid(vol.Snapshot(), file, Place(kids[0]), name, hash)
      ensures old(LengthsSaid(files)) ==> LengthsSaid(files)
    {
      hide NameSaid, LengthsSaid, NewRecord, DirOk, DirFile, Volume.Snapshot, SlotFound, OthersKept, Room, SlotCost,
           Searchable, Bitmap.CountClear, Volume.Used, NameParts, Name, Place;
      ghost var d, n: nat := vol.Snapshot(), 2 + NameParts(name);
      var cluster, offset;
      rc, cluster, offset := FindSlot(vol, file, 2 + NameParts(name));
      AfterSearch(d, file, n, rc == Ok, cluster, offset, vol.Snapshot(), kids, files);
      if rc != Ok {
        return;
      }
      ghost var d1 := vol.Snapshot();
      var kid;
      kid, files := WriteEntry(vol, file, name, cluster, offset, attrib, now, hash, kids, files);
      OthersTwice(d, file, d1, vol.Snapshot());
      kids := [kid] + kids;
      NodeNameIs(name);
      if LengthsSaid(old(files)) {
        CreatedSaid(old(files), Place(kid), NodeName(name), attrib, now, hash);
      }
    }

    /** Takes the j-th child out of the directory, and gives back the clusters it no longer needs. */
    method Delete(j: nat) returns (rc: Status)
      requires Valid() && j < |kids|
      modifies this, vol`fat, vol`heap, vol`mapDirty, vol.chunk
      modifies file`startCluster, file`contiguous, file`fptrIndex, file`fptrCluster, file`size, file`dirty
      ensures rc == Ok && Valid() && kids == Without(old(kids), j)
      ensures files == old(files) - {Place(old(kids[j]))}
      ensures OthersKept(old(vol.Snapshot()), file, vol.Snapshot())
      ensures KidDeleted(old(vol.Snapshot()), file, old(kids), j, vol.Snapshot())
      ensures Reusable(vol.Snapshot(), file, old(2 + NameParts(kids[j].info.name)))
      ensures old(LengthsSaid(files)) ==> LengthsSaid(files)
    {
      hide KidDeleted, DirOk, DirFile, Volume.Snapshot, OthersKept, Without, Agrees, Laid, Reusable, NameParts;
      DirOkFile(vol.Snapshot(), file, kids, files);
      ghost var rs;
      rc, rs := DeleteKid(vol, file, kids, j, files);
      ghost var d := vol.Snapshot();
      kids, files := Without(kids, j), rs;
      assert vol.Snapshot() == d;
    }

    /** Renames the j-th child of `from`, which may be this directory, into this directory. */
    method Rename(from: Directory, j: nat, name: seq<unit>, hash: nat) returns (rc: Status)
      requires Valid() && from.Valid() && from.vol == vol && (from == this || from.file != file) && j < |from.kids|
      requires Buffer(name) && Name(name) != []
      requires DirFile(vol.Snapshot(), file) && Searchable(vol.Snapshot(), file, 2 + NameParts(name))
      modifies this, from, vol`fat, vol`heap, vol`mapDirty, vol.chunk
      modifies file`startCluster, file`contiguous, file`fptrIndex, file`fptrCluster, file`size, file`dirty
      ensures Valid() && from.Valid()
      ensures rc == Ok <==> old(SlotCost(vol.Snapshot(), file, 2 + NameParts(name))
                                <= Bitmap.CountClear(vol.Snapshot().used))
      ensures rc == Ok ==> SearchedFields(old(vol.Snapshot()), file, 2 + NameParts(name), file.Fields())
      ensures rc != Ok ==> kids == old(kids) && from.kids == old(from.kids)
      ensures rc == Ok && from != this ==> from.kids == Without(old(from.kids), j)
      ensures rc == Ok ==> kids != [] && kids[0].info == old(from.kids[j].info).(name := name)
                           && kids == [kids[0]] + if from == this then Without(old(kids), j) else old(kids)
      ensures KeptOutside(old(vol.Snapshot()), {from.file, file}, vol.Snapshot())
      ensures rc != Ok ==> files == old(files) && from.files == old(from.files)
      ensures rc == Ok && from != this ==> from.files == old(from.files) - {Place(old(from.kids[j]))}
      ensures rc == Ok ==> Place(old(from.kids[j])) in old(from.files)
                           && files == (if from == this then old(files) - {Place(old(from.kids[j]))} else old(files))
                                       [Place(kids[0]) := Renamed(old(from.files)[Place(old(from.kids[j]))], name,
                                                                  hash)]
      ensures rc == Ok ==> NameSaid(vol.Snapshot(), file, Place(kids[0]), name, hash)
      ensures old(LengthsSaid(files) && LengthsSaid(from.files)) ==> LengthsSaid(files) && LengthsSaid(from.files)
    {
      hide NameSaid, LengthsSaid, SearchedFields, DirOk, DirFile, Volume.Snapshot, SlotFound, OthersKept, KeptOutside,
           Room, Without, Place, Renamed, Consistent, Name, NameParts, SlotCost, Searchable, Bitmap.CountClear,
           Volume.Used;
      ghost var d, n: nat := vol.Snapshot(), 2 + NameParts(name);
      var cluster, offset;
      rc, cluster, offset := FindSlot(vol, file, 2 + NameParts(name));
      ghost var d1 := vol.Snapshot();
      AfterSearch(d, file, n, rc == Ok, cluster, offset, d1, kids, files);
      DirFields(vol, file);
      ghost var f := file.Fields();
      if from != this {
        DirOkElsewhere(d, file, d1, from.file, from.kids, from.files);
      }
      if rc != Ok {
        KeptOne(d, file, {from.file, file}, d1);
        return;
      }
      ghost var rs, dirRs;
      var kid;
      kid, rs, dirRs := RenameEntry(vol, from.file, from.kids, j, from.files, file, kids, files, name, hash, cluster,
                                    offset);
      ghost var d2 := vol.Snapshot();
      KeptOne(d, file, {file}, d1);
      KeptThen(d, {file}, d1, {from.file, file}, d2);
      assert {file} + {from.file, file} == {from.file, file};
      from.kids, from.files := Without(from.kids, j), rs;
      kids, files := [kid] + kids, dirRs;
      assert vol.Snapshot() == d2;
      if LengthsSaid(old(files)) && LengthsSaid(old(from.files)) {
        RenameSaid(old(from.files), Place(old(from.kids[j])), old(files), from == this, Place(kid), name, hash);
      }
      assert file.Fields() == f;
    }

    /** Writes the j-th child's fields from core over those on the disk. */
    method Flush(j: nat, f: Fields)
      requires Valid() && j < |kids| && vol.clusterSize > 0 && Sensible(f, vol.clusterSize)
      modifies this`files, vol`heap
      ensures Valid() && OthersKept(old(vol.Snapshot()), file, vol.Snapshot())
      ensures FieldsFlushed(old(files), kids[j], f, files)
      ensures vol.Snapshot().used == old(vol.Snapshot().used)
      ensures old(LengthsSaid(files)) ==> LengthsSaid(files)
    {
      hide LengthsSaid, DirOk, DirFile, Volume.Snapshot, OthersKept, FieldsFlushed;
      ghost var rs := FlushKid(vol, file, kids, j, f, files);
      if LengthsSaid(files) {
        FlushedAllSaid(files, kids[j], f, rs);
      }
      files := rs;
    }
  }

  /** The entries of a renamed file, from those it had. */
  method RenamedEntries(vol: Volume, dir: Node, kid: Kid, name: seq<unit>, hash: nat, ghost r: Record)
    returns (es: seq<Slot>)
    requires vol.MapFits() && DirFile(vol.Snapshot(), dir) && Here(vol.Snapshot(), dir, kid.cluster, kid.offset)
    requires Placed(EntriesOf(vol.Snapshot(), dir), Place(kid), r) && kid.offset == ENTRY_SIZE * Place(kid)
    requires Buffer(name)
    ensures Buffer(Renamed(r, name, hash).name) && es == EntrySet(Renamed(r, name, hash))
  {
    hide DirFile, Volume.Snapshot, Placed, EntriesOf, Here, Place, Summed, Name, NameParts, NameSlots;
    NameShort(name);
    FirstTwo(vol.Snapshot(), dir, Place(kid), r);
    DirKnown(vol, dir);
    var meta1 := GetEntry(vol, dir, kid.cluster, kid.offset);
    var cluster, offset := NextEntry(vol, dir, kid.cluster, kid.offset);
    var meta2 := GetEntry(vol, dir, cluster, offset);
    meta1 := PutBytes(meta1, 1, [1 + NameParts(name)]);
    meta2 := PutBytes(meta2, 3, [|Name(name)|] + Little(hash, 2));
    meta1 := Summed(meta1, meta2, name);
    es := [meta1, meta2] + NameSlots(name, NameParts(name));
  }

  lemma RenamedReady(r: Record, name: seq<unit>, hash: nat, clusterSize: nat)
    requires clusterSize > 0 && Good(r, clusterSize) && Buffer(name) && Name(name) != []
    ensures var r' := Renamed(r, name, hash);
            && r'.name == name && Good(r', clusterSize) && Length(r') == |EntrySet(r')| == 2 + NameParts(name)
  {
    hide Good, Name, SetSum;
    RenamedGood(r, name, hash, clusterSize);
  }

  /** Moves a child's entries to where there is room for them under its new name, in the same directory or another. */
  method RenameEntry(vol: Volume, from: Node, kids: seq<Kid>, j: nat, ghost rs: Records,
                     dir: Node, ghost dirKids: seq<Kid>, ghost dirRs: Records,
                     name: seq<unit>, hash: nat, cluster: u32, offset: nat)
    returns (kid: Kid, ghost rs': Records, ghost dirRs': Records)
    requires vol.MapFits() && DirOk(vol.Snapshot(), from, kids, rs) && j < |kids|
    requires DirOk(vol.Snapshot(), dir, dirKids, dirRs) && (from == dir ==> dirKids == kids && dirRs == rs)
    requires Buffer(name) && Name(name) != [] && DirFile(vol.Snapshot(), dir)
    requires Room(vol.Snapshot(), dir, 2 + NameParts(name), cluster, offset)
    modifies vol`heap
    ensures kid == Kid(cluster, offset, kids[j].info.(name := name))
    ensures from != dir ==> DirOk(vol.Snapshot(), from, Without(kids, j), rs')
    ensures DirOk(vol.Snapshot(), dir, [kid] + if from == dir then Without(kids, j) else dirKids, dirRs')
    ensures KeptOutside(old(vol.Snapshot()), {from, dir}, vol.Snapshot())
    ensures Place(kids[j]) in rs && rs' == rs - {Place(kids[j])}
    ensures dirRs' == (if from == dir then rs' else dirRs)[Place(kid) := Renamed(rs[Place(kids[j])], name, hash)]
    ensures NameSaid(vol.Snapshot(), dir, Place(kid), name, hash)
  {
    hide NameSaid, DirOk, DirFile, Volume.Snapshot, OthersKept, PutSome, Good, Placed, EntriesOf, Here, OnlyContent,
         Room, SameName, NameParts, Place, Name, EntrySet, Renamed, Length, Without, Agrees, Laid, Buffer, KeptOutside;
    ghost var d := vol.Snapshot();
    KidReady(d, from, kids, rs, j);
    DirKnown(vol, from);
    ghost var r := rs[Place(kids[j])];
    ghost var r' := Renamed(r, name, hash);
    RenamedReady(r, name, hash, vol.clusterSize);
    var es := RenamedEntries(vol, from, kids[j], name, hash, r);
    rs' := EraseKid(vol, from, kids, j, rs);
    ghost var d1 := vol.Snapshot();
    ghost var left := if from == dir then Without(kids, j) else dirKids;
    ghost var rest := if from == dir then rs' else dirRs;
    if from != dir {
      DirOkElsewhere(d, from, d1, dir, dirKids, dirRs);
      RoomElsewhere(d, from, d1, dir, 2 + NameParts(name), cluster, offset);
    }
    kid := Kid(cluster, offset, kids[j].info.(name := name));
    RoomFor(d1, dir, kid, Length(r'));
    PutEntries(vol, dir, cluster, offset, es);
    SameNameSelf(name);
    DirSizes(d1, dir);
    SameClusters(d, from, d1);
    AfterWrite(d1, dir, vol.Snapshot(), left, rest, kid, r');
    dirRs' := rest[Place(kid) := r'];
    RenamedSaidAt(vol.Snapshot(), dir, [kid] + left, dirRs', Place(kid), r, name, hash);
    if from != dir {
      DirOkElsewhere(d1, dir, vol.Snapshot(), from, Without(kids, j), rs');
    }
    KeptOne(d, from, {from}, d1);
    KeptOne(d1, dir, {dir}, vol.Snapshot());
    KeptThen(d, {from}, d1, {dir}, vol.Snapshot());
    assert {from} + {dir} == {from, dir};
  }

  lemma SameClusters<K>(d: Disk<K>, k: K, d': Disk<K>)
    requires OnlyContent(d, k, d')
    ensures d'.clusterSize == d.clusterSize
  {
  }

  /** Only the record of one child is different: it has the fields from core. */
  ghost predicate FieldsFlushed(rs: Records, kid: Kid, f: Fields, rs': Records) {
    && Place(kid) in rs && Buffer(rs[Place(kid)].name) && Buffer(kid.info.name)
    && rs' == rs[Place(kid) := Flushed(rs[Place(kid)], f, kid.info.name)]
  }

  /** Read again, the child has the fields that were in core. */
  lemma FlushedRead(rs: Records, kid: Kid, f: Fields, rs': Records, clusterSize: nat)
    requires clusterSize > 0 && FieldsFlushed(rs, kid, f, rs') && Sensible(f, clusterSize)
    requires Good(rs[Place(kid)], clusterSize) && SameName(kid.info.name, rs[Place(kid)].name)
    ensures var r := rs'[Place(kid)];
            && Good(r, clusterSize)
            && ReadInfo(r) == Info(f.attrib, f.size, f.start, f.size != 0 && f.contiguous, ReadName(r.name))
  {
    hide Good, SetSum, Field, SameName, Name, Flushed;
    FlushedGood(rs[Place(kid)], f, kid.info.name, clusterSize);
    FlushedName(rs[Place(kid)], f, kid.info.name);
  }

  /** Read again, a new file is empty and has the attributes and the name asked for. */
  lemma CreatedRead(name: seq<unit>, attrib: nat, now: StoredTime, hash: nat)
    requires Buffer(name) && Name(name) != [] && attrib < 0x1_0000
    ensures var info := ReadInfo(NewRecord(NodeName(name), attrib, now, hash));
            info == Info(attrib, 0, FREE, false, info.name) && Name(info.name) == Name(name)
  {
    NewGood(NodeName(name), attrib, now, hash, 1);
    NewName(NodeName(name), attrib, now, hash);
    hide Good, SetSum, Field, Name, NewRecord;
  }

  lemma NewName(name: seq<unit>, attrib: nat, now: StoredTime, hash: nat)
    requires Buffer(name)
    ensures NewRecord(name, attrib, now, hash).name == name
  {
  }

  /** Read again, a renamed file has its new name and otherwise what it had. */
  lemma RenamedRead(r: Record, name: seq<unit>, hash: nat, clusterSize: nat)
    requires clusterSize > 0 && Good(r, clusterSize) && Buffer(r.name) && Buffer(name) && Name(name) != []
    ensures var r' := Renamed(r, name, hash);
            Buffer(r'.name) && ReadInfo(r') == ReadInfo(r).(name := ReadName(name))
  {
    RenamedGood(r, name, hash, clusterSize);
    RenamedName(r, name, hash);
    hide Good, SetSum, Field, Name, Renamed;
  }

  lemma RenamedName(r: Record, name: seq<unit>, hash: nat)
    requires Buffer(name)
    ensures Renamed(r, name, hash).name == name
  {
  }

  lemma FlushedName(r: Record, f: Fields, name: seq<unit>)
    requires Buffer(name)
    ensures Flushed(r, f, name).name == r.name
  {
  }

  /** What deleting the j-th child leaves of a directory: the entries it had, the child's no longer in use, up to the
      size that the other children decide. */
  ghost predicate KidDeleted<K>(d: Disk<K>, k: K, kids: seq<Kid>, j: nat, d': Disk<K>) {
    && DirFile(d, k) && DirFile(d', k) && d'.clusterSize == d.clusterSize
    && j < |kids| && Buffer(kids[j].info.name) && Named(Without(kids, j))
    && d'.files[k].size == CutSize(Without(kids, j), kids[j].offset, d.files[k].size, d.clusterSize)
    && d.clusterSize <= d'.files[k].size <= d.files[k].size && d'.files[k].size % d.clusterSize == 0
    && EndOf(kids[j]) <= |EntriesOf(d, k)| && |EntriesOf(d', k)| <= |EntriesOf(d, k)|
    && EntriesOf(d', k)
       == Unlisted(EntriesOf(d, k), Place(kids[j]), 2 + NameParts(kids[j].info.name))[..|EntriesOf(d', k)|]
  }

  lemma DeletedThenCut<K>(d: Disk<K>, k: K, kids: seq<Kid>, j: nat, rs: Records, d1: Disk<K>, d': Disk<K>)
    requires DirFile(d, k) && DirFile(d1, k) && j < |kids| && Buffer(kids[j].info.name)
    requires ErasedSome(d, k, Place(kids[j]), 2 + NameParts(kids[j].info.name), d1)
    requires ShrunkTo(d1, k, Without(kids, j), rs, kids[j].offset, d')
    ensures KidDeleted(d, k, kids, j, d')
  {
    hide DirFile, DirOk, OthersKept, CutSize, Named, Without, NameParts, EntriesOf, OnlyContent, Clear, Place,
         Bitmap.CountClear;
    ContentSize(d, k, d1);
    DirOkFile(d', k, Without(kids, j), rs);
    var es := EntriesOf(d1, k);
    assert es[..|es|] == es;
  }

  /** Work on other files leaves a directory as the deletion left it. */
  lemma DeletedStays<K>(d: Disk<K>, k: K, kids: seq<Kid>, j: nat, d1: Disk<K>, ks: set<K>, d': Disk<K>)
    requires KidDeleted(d, k, kids, j, d1) && KeptOutside(d1, ks, d') && k !in ks
    ensures KidDeleted(d, k, kids, j, d')
  {
    EntriesOutside(d1, ks, d', k);
    hide EntriesOf, NameParts, CutSize, Named, Without, Unlisted, Consistent, ChainOf, Layout.Bytes;
  }

  /** Deletes the entries of the j-th child and cuts the directory behind what is left. */
  method DeleteKid(vol: Volume, dir: Node, kids: seq<Kid>, j: nat, ghost rs: Records)
    returns (rc: Status, ghost rs': Records)
    requires vol.MapFits() && DirOk(vol.Snapshot(), dir, kids, rs) && j < |kids|
    modifies vol`fat, vol`heap, vol`mapDirty, vol.chunk
    modifies dir`startCluster, dir`contiguous, dir`fptrIndex, dir`fptrCluster, dir`size, dir`dirty
    ensures rc == Ok && rs' == rs - {Place(kids[j])} && DirOk(vol.Snapshot(), dir, Without(kids, j), rs')
    ensures OthersKept(old(vol.Snapshot()), dir, vol.Snapshot())
    ensures KidDeleted(old(vol.Snapshot()), dir, kids, j, vol.Snapshot())
    ensures Reusable(vol.Snapshot(), dir, 2 + NameParts(kids[j].info.name))
  {
    hide KidDeleted, ErasedSome, CutSize, Named, DirOk, DirFile, Volume.Snapshot, OthersKept, ShrunkTo, Without,
         OnlyContent, Agrees, Laid, RunAt, Reusable, NameParts, EntriesOf, Place, Good, Here, Placed, Buffer, SameName,
         Consistent, Uniform;
    ghost var d := vol.Snapshot();
    KidReady(d, dir, kids, rs, j);
    DirKnown(vol, dir);
    var deletedOffset, left := kids[j].offset, Without(kids, j);
    rs' := EraseKid(vol, dir, kids, j, rs);
    ghost var d1 := vol.Snapshot();
    ContentSize(d, dir, d1);
    rc := ShrinkDirectory(vol, dir, left, deletedOffset, rs');
    ShrunkMeans(d1, dir, left, rs', deletedOffset, vol.Snapshot());
    DeletedThenCut(d, dir, kids, j, rs', d1, vol.Snapshot());
    VacatedReusable(d1, dir, Place(kids[j]), 2 + NameParts(kids[j].info.name), left, rs', deletedOffset,
                    vol.Snapshot());
    DirOkFile(vol.Snapshot(), dir, left, rs');
    DirKnown(vol, dir);
    OthersTwice(d, dir, d1, vol.Snapshot());
  }

  /** Writing entries leaves the length of a directory alone. */
  lemma ContentSize<K>(d: Disk<K>, k: K, d1: Disk<K>)
    requires OnlyContent(d, k, d1)
    ensures k in d.files && k in d1.files && d1.files[k].size == d.files[k].size && d1.clusterSize == d.clusterSize
  {
  }

  lemma ShrunkMeans<K>(d: Disk<K>, k: K, kids: seq<Kid>, rs: Records, deletedOffset: nat, d': Disk<K>)
    requires DirFile(d, k) && ShrunkTo(d, k, kids, rs, deletedOffset, d')
    ensures DirOk(d', k, kids, rs) && OthersKept(d, k, d') && k in d'.files && d'.clusterSize == d.clusterSize > 0
    ensures d.clusterSize <= d'.files[k].size <= d.files[k].size && d'.files[k].size % d.clusterSize == 0
  {
  }

  /** The entries of the j-th child marked as deleted. */
  method EraseKid(vol: Volume, dir: Node, kids: seq<Kid>, j: nat, ghost rs: Records) returns (ghost rs': Records)
    requires vol.MapFits() && DirOk(vol.Snapshot(), dir, kids, rs) && j < |kids|
    modifies vol`heap
    ensures old(DirFile(vol.Snapshot(), dir)) && OnlyContent(old(vol.Snapshot()), dir, vol.Snapshot())
    ensures rs' == rs - {Place(kids[j])}
    ensures DirOk(vol.Snapshot(), dir, Without(kids, j), rs') && OthersKept(old(vol.Snapshot()), dir, vol.Snapshot())
    ensures DirFile(vol.Snapshot(), dir)
            && RunAt(EntriesOf(vol.Snapshot(), dir), 2 + NameParts(kids[j].info.name), Place(kids[j]))
    ensures ErasedSome(old(vol.Snapshot()), dir, Place(kids[j]), 2 + NameParts(kids[j].info.name), vol.Snapshot())
    ensures forall n, cluster, offset :: old(Room(vol.Snapshot(), dir, n, cluster, offset)) ==>
              DirFile(vol.Snapshot(), dir) && Room(vol.Snapshot(), dir, n, cluster, offset)
  {
    hide DirOk, DirFile, Volume.Snapshot, OthersKept, ErasedSome, Good, Placed, EntriesOf, Here, OnlyContent, Room,
         SameName, NameParts, Place;
    ghost var d := vol.Snapshot();
    KidReady(d, dir, kids, rs, j);
    DirKnown(vol, dir);
    ghost var r := rs[Place(kids[j])];
    EraseEntry(vol, dir, kids[j].cluster, kids[j].offset, NameParts(kids[j].info.name), r);
    AfterErase(d, dir, vol.Snapshot(), kids, rs, j);
    ErasedSomeDirs(d, dir, Place(kids[j]), Length(r), vol.Snapshot());
    ErasedVacant(d, dir, Place(kids[j]), Length(r), vol.Snapshot());
    forall n, cluster, offset | Room(d, dir, n, cluster, offset)
      ensures DirFile(vol.Snapshot(), dir) && Room(vol.Snapshot(), dir, n, cluster, offset)
    {
      RoomStill(d, dir, Place(kids[j]), Length(r), vol.Snapshot(), n, cluster, offset);
    }
    rs' := rs - {Place(kids[j])};
  }

  /** Deleted entries are vacant. */
  lemma ErasedVacant<K>(d: Disk<K>, k: K, i: nat, n: nat, d': Disk<K>)
    requires DirFile(d, k) && ErasedSome(d, k, i, n, d')
    ensures DirFile(d', k) && RunAt(EntriesOf(d', k), n, i)
  {
    hide DirFile, EntriesOf;
    UnlistedVacant(EntriesOf(d, k), i, n);
  }

  lemma UnlistedVacant(es: seq<Slot>, i: nat, n: nat)
    requires i + n <= |es|
    ensures RunAt(Unlisted(es, i, n), n, i)
  {
  }

  /** Reads an entry from the device. */
  method GetEntry(vol: Volume, dir: Node, cluster: u32, offset: nat) returns (e: Slot)
    requires vol.MapFits() && DirFile(vol.Snapshot(), dir) && Here(vol.Snapshot(), dir, cluster, offset)
    ensures offset / ENTRY_SIZE < |EntriesOf(vol.Snapshot(), dir)|
    ensures e == EntriesOf(vol.Snapshot(), dir)[offset / ENTRY_SIZE]
  {
    hide Consistent, DirFile, EntriesOf, Here, Within;
    DirKnown(vol, dir);
    EntryHere(vol.Snapshot(), dir, cluster, offset);
    e := Read(vol.heap, cluster, Within(offset, vol.clusterSize), ENTRY_SIZE);
  }

  lemma FirstTwo<K>(d: Disk<K>, k: K, at: nat, r: Record)
    requires DirFile(d, k) && Placed(EntriesOf(d, k), at, r)
    ensures at + 1 < |EntriesOf(d, k)| && EntriesOf(d, k)[at] == r.meta1 && EntriesOf(d, k)[at + 1] == r.meta2
    ensures ENTRY_SIZE * at + ENTRY_SIZE < d.files[k].size
  {
    hide EntriesOf;
    var es := EntriesOf(d, k);
    assert es[at..at + Length(r)][0] == es[at] && es[at..at + Length(r)][1] == es[at + 1];
    EntryCount(d, k);
  }

  /** New fields over the old ones make the new record of the same name. */
  lemma FieldsPut(es: seq<Slot>, at: nat, r: Record, r': Record)
    requires Placed(es, at, r) && r'.name == r.name
    ensures Buffer(r'.name) && at + Length(r') <= |es| && at + 2 <= |es|
    ensures Put(es, at, EntrySet(r')) == Put(es, at, [r'.meta1, r'.meta2])
  {
    hide NameSlots, NameParts;
    forall i | at + 2 <= i < at + Length(r)
      ensures es[i] == EntrySet(r')[i - at]
    {
      assert es[at..at + Length(r)][i - at] == es[i];
    }
  }

  lemma PutFields<K>(d: Disk<K>, k: K, at: nat, r: Record, r': Record, d': Disk<K>)
    requires DirFile(d, k) && Placed(EntriesOf(d, k), at, r) && r'.name == r.name
    requires PutSome(d, k, at, [r'.meta1, r'.meta2], d')
    ensures Buffer(r'.name) && PutSome(d, k, at, EntrySet(r'), d')
  {
    hide DirFile, EntriesOf, OnlyContent, Placed, EntrySet, Put;
    FieldsPut(EntriesOf(d, k), at, r, r');
    PutLength(r');
  }

  lemma PutLength(r: Record)
    requires Buffer(r.name)
    ensures |EntrySet(r)| == Length(r)
  {
  }

  /** Reads a child's two meta entries, puts the fields and their checksum into them, and writes them back. */
  method FlushKid(vol: Volume, dir: Node, kids: seq<Kid>, j: nat, f: Fields, ghost rs: Records)
    returns (ghost rs': Records)
    requires vol.MapFits() && DirOk(vol.Snapshot(), dir, kids, rs) && j < |kids|
    requires vol.clusterSize > 0 && Sensible(f, vol.clusterSize)
    modifies vol`heap
    ensures DirOk(vol.Snapshot(), dir, kids, rs') && OthersKept(old(vol.Snapshot()), dir, vol.Snapshot())
    ensures FieldsFlushed(rs, kids[j], f, rs') && vol.Snapshot().used == old(vol.Snapshot().used)
  {
    hide DirOk, DirFile, Volume.Snapshot, OthersKept, PutSome, SlotWritten, Good, Placed, EntriesOf, Here, OnlyContent,
         SameName, NameParts, Place, FlushedMeta1, FlushedMeta2, Summed, Buffer, EntrySet, Sensible;
    ghost var d, at := vol.Snapshot(), Place(kids[j]);
    KidReady(d, dir, kids, rs, j);
    DirKnown(vol, dir);
    ghost var r := rs[at];
    FirstTwo(d, dir, at, r);
    var name := kids[j].info.name;
    var cluster1, offset1 := kids[j].cluster, kids[j].offset;
    var cluster2, offset2 := NextEntry(vol, dir, cluster1, offset1);
    var meta1 := GetEntry(vol, dir, cluster1, offset1);
    var meta2 := GetEntry(vol, dir, cluster2, offset2);
    meta1, meta2 := FlushedMeta1(meta1, f), FlushedMeta2(meta2, f);
    meta1 := Summed(meta1, meta2, name);
    ghost var r' := Flushed(r, f, name);
    PutNone(d, dir, at);
    PutEntry(vol, dir, cluster1, offset1, meta1);
    ghost var d1 := vol.Snapshot();
    PutOneMore(d, dir, at, [], d, meta1, d1);
    WrittenHere(d, dir, at, meta1, d1, cluster2, offset2);
    PutEntry(vol, dir, cluster2, offset2, meta2);
    PutOneMore(d, dir, at, [] + [meta1], d1, meta2, vol.Snapshot());
    assert [] + [meta1] + [meta2] == [r'.meta1, r'.meta2];
    PutFields(d, dir, at, r, r', vol.Snapshot());
    PutUsed(d, dir, at, [r'.meta1, r'.meta2], vol.Snapshot());
    FlushedGood(r, f, name, vol.clusterSize);
    AfterRewrite(d, dir, vol.Snapshot(), kids, rs, at, r');
    rs' := rs[at := r'];
  }

  /** What the source's functions need to know of the child they work on. */
  lemma KidReady<K>(d: Disk<K>, k: K, kids: seq<Kid>, rs: Records, j: nat)
    requires DirOk(d, k, kids, rs) && j < |kids|
    ensures DirFile(d, k) && d.clusterSize > 0 && Place(kids[j]) in rs
    ensures kids[j].offset / ENTRY_SIZE == Place(kids[j]) && kids[j].offset == ENTRY_SIZE * Place(kids[j])
    ensures Here(d, k, kids[j].cluster, kids[j].offset)
    ensures var r := rs[Place(kids[j])];
            && Buffer(r.name) && Buffer(kids[j].info.name) && Good(r, d.clusterSize)
            && SameName(kids[j].info.name, r.name) && NameParts(kids[j].info.name) == NameParts(r.name)
            && Placed(EntriesOf(d, k), Place(kids[j]), r) && Place(kids[j]) + Length(r) <= |EntriesOf(d, k)|
  {
    DirOkFile(d, k, kids, rs);
    KidPlace(d, k, kids, rs, j);
  }

  /** Writes a new file's entries where there is room for them. */
  method WriteEntry(vol: Volume, dir: Node, name: seq<unit>, cluster: u32, offset: nat, attrib: nat, now: StoredTime,
                    hash: nat, ghost kids: seq<Kid>, ghost rs: Records)
    returns (kid: Kid, ghost rs': Records)
    requires vol.MapFits() && DirOk(vol.Snapshot(), dir, kids, rs) && DirFile(vol.Snapshot(), dir)
    requires Buffer(name) && Name(name) != [] && attrib < 0x1_0000
    requires Room(vol.Snapshot(), dir, 2 + NameParts(name), cluster, offset)
    modifies vol`heap
    ensures kid == Kid(cluster, offset, Info(attrib, 0, FREE, false, NodeName(name)))
    ensures DirOk(vol.Snapshot(), dir, [kid] + kids, rs') && OthersKept(old(vol.Snapshot()), dir, vol.Snapshot())
    ensures rs' == rs[Place(kid) := NewRecord(NodeName(name), attrib, now, hash)]
    ensures NameSaid(vol.Snapshot(), dir, Place(kid), name, hash)
    ensures vol.Snapshot().used == old(vol.Snapshot().used)
  {
    hide NameSaid, DirOk, DirFile, Volume.Snapshot, OthersKept, Room, PutSome, Good, Here, EntriesOf, EntrySet,
         NewRecord, SameName, Place, NodeName, NameParts, Name, Length;
    ghost var d := vol.Snapshot();
    DirKnown(vol, dir);
    var r := NewRecord(NodeName(name), attrib, now, hash);
    NewReady(name, attrib, now, hash, vol.clusterSize);
    kid := Kid(cluster, offset, Info(attrib, 0, FREE, false, NodeName(name)));
    RoomFor(d, dir, kid, Length(r));
    PutEntries(vol, dir, cluster, offset, EntrySet(r));
    AfterWrite(d, dir, vol.Snapshot(), kids, rs, kid, r);
    PutUsed(d, dir, Place(kid), EntrySet(r), vol.Snapshot());
    rs' := rs[Place(kid) := r];
    NewSaidAt(vol.Snapshot(), dir, [kid] + kids, rs', Place(kid), name, attrib, now, hash);
  }

  lemma PutUsed<K>(d: Disk<K>, k: K, i: nat, es: seq<Slot>, d': Disk<K>)
    requires DirFile(d, k) && PutSome(d, k, i, es, d')
    ensures d'.used == d.used
  {
    hide DirFile, EntriesOf;
  }

  lemma NewReady(name: seq<unit>, attrib: nat, now: StoredTime, hash: nat, clusterSize: nat)
    requires clusterSize > 0 && Buffer(name) && Name(name) != [] && attrib < 0x1_0000
    ensures var r := NewRecord(NodeName(name), attrib, now, hash);
            && Buffer(r.name) && Good(r, clusterSize) && SameName(NodeName(name), r.name)
            && Length(r) == |EntrySet(r)| == 2 + NameParts(name)
  {
    hide Good, Name, SetSum, Field;
    NewGood(NodeName(name), attrib, now, hash, clusterSize);
    SameNameSelf(NodeName(name));
  }

  lemma RoomFor<K>(d: Disk<K>, k: K, kid: Kid, n: nat)
    requires DirFile(d, k) && Room(d, k, n, kid.cluster, kid.offset)
    ensures Here(d, k, kid.cluster, kid.offset) && kid.offset / ENTRY_SIZE == Place(kid)
    ensures kid.offset / ENTRY_SIZE + n <= |EntriesOf(d, k)|
  {
  }
}
