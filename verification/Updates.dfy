/** What is done to a directory by one call, the flush of its own record in the directory above included. */
module Updates {
  import Bitmap
  import opened Clusters
  import opened Content
  import opened Entries
  import opened FileRecords
  import opened Files
  import opened FileSpec
  import opened Layout
  import opened Listed
  import opened Positions
  import opened Scanning
  import opened Agreement
  import opened Utf
  import opened Views
  import opened Volumes
  import opened Directories
  import opened Reuse
  import opened CachedDirectory

  /** The fields of a node, as they are flushed. */
  function NodeFields(f: File, attrib: nat, modified: StoredTime, accessed: StoredTime): Fields {
    Fields(attrib, f.size, f.start, f.contiguous, modified, accessed)
  }

  /** A child with the fields of its node. */
  function Synced(kid: Kid, f: File): Kid {
    kid.(info := kid.info.(size := f.size, start := f.start, contiguous := f.contiguous))
  }

  /** Of the records only the child's is different: read again, it says what the child says in core. */
  ghost predicate Recorded(rs: Records, kid: Kid, rs': Records) {
    var at := Place(kid);
    && at in rs && at in rs' && rs' == rs[at := rs'[at]] && Buffer(rs[at].name) && rs'[at].name == rs[at].name
    && ReadInfo(rs'[at]) == kid.info.(contiguous := kid.info.size != 0 && kid.info.contiguous,
                                      name := ReadName(rs[at].name))
  }

  /** Fields of a child in core do not matter to the agreement, but for its place and name. */
  lemma FieldsFree<K>(d: Disk<K>, k: K, kids: seq<Kid>, j: nat, info: Info, rs: Records)
    requires DirOk(d, k, kids, rs) && j < |kids| && info.name == kids[j].info.name
    ensures DirOk(d, k, kids[j := kids[j].(info := info)], rs)
  {
    hide DirFile, Laid, Here, EntriesOf, SameName;
    var kids' := kids[j := kids[j].(info := info)];
    assert forall i :: 0 <= i < |kids| ==> Place(kids'[i]) == Place(kids[i]);
    forall i | 0 <= i < |kids'|
      ensures OneOf(d, k, kids'[i], rs)
    {
      assert OneOf(d, k, kids[i], rs);
    }
    forall at | at in rs
      ensures exists i :: 0 <= i < |kids'| && Place(kids'[i]) == at
    {
      var i :| 0 <= i < |kids| && Place(kids[i]) == at;
      assert Place(kids'[i]) == at;
    }
  }

  lemma RecordedOf<K>(d: Disk<K>, k: K, kids: seq<Kid>, j: nat, rs: Records, f: File, modified: StoredTime,
                      accessed: StoredTime, rs': Records)
    requires DirOk(d, k, kids, rs) && j < |kids| && d.clusterSize > 0 && kids[j] == Synced(kids[j], f)
    requires Sensible(NodeFields(f, kids[j].info.attrib, modified, accessed), d.clusterSize)
    requires FieldsFlushed(rs, kids[j], NodeFields(f, kids[j].info.attrib, modified, accessed), rs')
    ensures Recorded(rs, kids[j], rs')
  {
    hide DirOk, Good, SameName, ReadName, Flushed, Sensible, Place, Name;
    var fields := NodeFields(f, kids[j].info.attrib, modified, accessed);
    KidReady(d, k, kids, rs, j);
    FlushedRead(rs, kids[j], fields, rs', d.clusterSize);
    FlushedName(rs[Place(kids[j])], fields, kids[j].info.name);
  }

  /** Writes the fields of a node to its child in core and to that one's record. */
  method FlushNode(up: Directory, j: nat, node: Node, modified: StoredTime, accessed: StoredTime)
    requires up.Valid() && j < |up.kids| && node in up.vol.nodes && up.vol.clusterSize > 0
    requires Sensible(NodeFields(node.Fields(), up.kids[j].info.attrib, modified, accessed), up.vol.clusterSize)
    modifies up, up.vol`heap
    ensures up.Valid() && OthersKept(old(up.vol.Snapshot()), up.file, up.vol.Snapshot())
    ensures up.kids == old(up.kids)[j := Synced(old(up.kids[j]), node.Fields())]
    ensures Recorded(old(up.files), up.kids[j], up.files)
    ensures up.vol.Snapshot().used == old(up.vol.Snapshot().used)
  {
    hide DirOk, DirFile, Volume.Snapshot, OthersKept, Recorded, FieldsFlushed, Sensible;
    ghost var d, rs := up.vol.Snapshot(), up.files;
    up.vol.SnapshotOf(node);
    var fields := NodeFields(node.Fields(), up.kids[j].info.attrib, modified, accessed);
    var kid := Synced(up.kids[j], node.Fields());
    FieldsFree(d, up.file, up.kids, j, kid.info, rs);
    up.kids := up.kids[j := kid];
    assert up.vol.Snapshot() == d;
    up.Flush(j, fields);
    RecordedOf(d, up.file, up.kids, j, rs, node.Fields(), modified, accessed, up.files);
  }

  /** A directory's own fields can be flushed. */
  lemma DirSensible<K>(d: Disk<K>, k: K, attrib: nat, modified: StoredTime, accessed: StoredTime)
    requires DirFile(d, k) && attrib < 0x1_0000
    ensures d.clusterSize > 0 && Sensible(NodeFields(d.files[k], attrib, modified, accessed), d.clusterSize)
  {
    StartsSomewhere(d, k);
    ReadyToGrow(d, k);
    SizeBound(d.files[k].size, d.clusterSize);
    hide OwnedUsed, Disjoint, NoLeak, FilesOk, Uniform, ChainOf;
  }

  lemma SizeBound(size: nat, clusterSize: nat)
    requires 0 < clusterSize <= 0x200_0000 && size <= MAX_COUNT * clusterSize
    ensures size < 0x1_0000_0000_0000_0000
  {
    assert MAX_COUNT * clusterSize <= MAX_COUNT * 0x200_0000;
  }

  lemma StartsSomewhere<K>(d: Disk<K>, k: K)
    requires DirFile(d, k)
    ensures !Invalid(d.files[k].start)
  {
    WholeEntries(d, k);
    ChainInHeap(d, k);
    hide FilesOk, OwnedUsed, Disjoint, NoLeak, Uniform, Layout.Bytes, ClustersFor, Distinct;
    assert ChainOf(d, k)[0] == d.files[k].start;
  }

  /** The directory above, if there is one, and the child of it that `dir` is. */
  ghost predicate Parented(up: Directory?, j: nat, dir: Directory)
    reads if up != null then {up} else {}
  {
    up != null ==>
      && up != dir && up.vol == dir.vol && up.file != dir.file && j < |up.kids| && up.kids[j].info.attrib < 0x1_0000
  }

  ghost function FileOf(up: Directory?): set<Node> {
    if up == null then {} else {up.file}
  }

  /** Writes a directory's own fields to its record in the directory above; the root has none. */
  method FlushParent(up: Directory?, j: nat, dir: Directory, modified: StoredTime, accessed: StoredTime)
    requires dir.Valid() && Parented(up, j, dir) && (up != null ==> up.Valid())
    modifies (if up != null then {up} else {}), dir.vol`heap
    ensures dir.Valid() && KeptOutside(old(dir.vol.Snapshot()), FileOf(up), dir.vol.Snapshot())
    ensures dir.vol.Snapshot().used == old(dir.vol.Snapshot().used)
    ensures up != null ==>
              && up.Valid() && Parented(up, j, dir)
              && up.kids == old(up.kids)[j := Synced(old(up.kids[j]), dir.file.Fields())]
              && Recorded(old(up.files), up.kids[j], up.files)
  {
    hide DirOk, DirFile, Volume.Snapshot, OthersKept, KeptOutside, Recorded, Sensible, Consistent;
    ghost var d := dir.vol.Snapshot();
    DirOkFile(d, dir.file, dir.kids, dir.files);
    DirKnown(dir.vol, dir.file);
    if up == null {
      KeptNone(d, {});
      return;
    }
    DirSensible(d, dir.file, up.kids[j].info.attrib, modified, accessed);
    dir.vol.SnapshotOf(dir.file);
    FlushNode(up, j, dir.file, modified, accessed);
    KeptOne(d, up.file, {up.file}, dir.vol.Snapshot());
    DirOkElsewhere(d, up.file, dir.vol.Snapshot(), dir.file, dir.kids, dir.files);
  }

  /** What a call leaves of the directory above: its child has the fields `f`, in core and in its record. */
  ghost predicate Followed(kids0: seq<Kid>, rs0: Records, j: nat, f: File, kids: seq<Kid>, rs: Records) {
    j < |kids0| && kids == kids0[j := Synced(kids0[j], f)] && Recorded(rs0, kids[j], rs)
  }

  /** Makes an empty file, or a directory still without a cluster. */
  method Create(up: Directory?, j: nat, dir: Directory, name: seq<unit>, attrib: nat, now: StoredTime,
                accessed: StoredTime, hash: nat)
    returns (rc: Status)
    requires dir.Valid() && Parented(up, j, dir) && (up != null ==> up.Valid())
    requires Buffer(name) && Name(name) != [] && attrib < 0x1_0000
    requires DirFile(dir.vol.Snapshot(), dir.file) && Searchable(dir.vol.Snapshot(), dir.file, 2 + NameParts(name))
    modifies dir, (if up != null then {up} else {}), dir.vol`fat, dir.vol`heap, dir.vol`mapDirty, dir.vol.chunk
    modifies dir.file`startCluster, dir.file`contiguous, dir.file`fptrIndex, dir.file`fptrCluster, dir.file`size,
             dir.file`dirty
    ensures dir.Valid() && KeptOutside(old(dir.vol.Snapshot()), {dir.file} + FileOf(up), dir.vol.Snapshot())
    ensures rc == Ok <==> old(SlotCost(dir.vol.Snapshot(), dir.file, 2 + NameParts(name))
                              <= Bitmap.CountClear(dir.vol.Snapshot().used))
    ensures Bitmap.CountClear(dir.vol.Snapshot().used)
            == old(Bitmap.CountClear(dir.vol.Snapshot().used))
               - if rc == Ok then old(SlotCost(dir.vol.Snapshot(), dir.file, 2 + NameParts(name))) else 0
    ensures rc != Ok ==> dir.kids == old(dir.kids) && dir.files == old(dir.files)
    ensures rc == Ok ==>
              && dir.kids != [] && dir.kids == [dir.kids[0]] + old(dir.kids)
              && dir.kids[0].info == Info(attrib, 0, FREE, false, NodeName(name))
              && dir.files == old(dir.files)[Place(dir.kids[0]) := NewRecord(NodeName(name), attrib, now, hash)]
    ensures up != null ==>
              && up.Valid() && Parented(up, j, dir)
              && if rc != Ok then up.kids == old(up.kids) && up.files == old(up.files)
                 else Followed(old(up.kids), old(up.files), j, dir.file.Fields(), up.kids, up.files)
  {
    hide DirOk, DirFile, Volume.Snapshot, OthersKept, KeptOutside, Recorded, Place, Searchable, SlotCost, NewRecord,
         NodeName, Name, NameParts, Bitmap.CountClear;
    ghost var d := dir.vol.Snapshot();
    rc := dir.Create(name, attrib, now, hash);
    ghost var d1 := dir.vol.Snapshot();
    KeptOne(d, dir.file, {dir.file}, d1);
    KeptOne(d, dir.file, {dir.file} + FileOf(up), d1);
    if up != null {
      DirOkElsewhere(d, dir.file, d1, up.file, up.kids, up.files);
    }
    if rc != Ok {
      return;
    }
    FlushParent(up, j, dir, now, accessed);
    KeptThen(d, {dir.file}, d1, FileOf(up), dir.vol.Snapshot());
  }

  /** Takes the i-th child out of a directory. */
  method Delete(up: Directory?, j: nat, dir: Directory, i: nat, now: StoredTime, accessed: StoredTime)
    returns (rc: Status)
    requires dir.Valid() && Parented(up, j, dir) && (up != null ==> up.Valid()) && i < |dir.kids|
    modifies dir, (if up != null then {up} else {}), dir.vol`fat, dir.vol`heap, dir.vol`mapDirty, dir.vol.chunk
    modifies dir.file`startCluster, dir.file`contiguous, dir.file`fptrIndex, dir.file`fptrCluster, dir.file`size,
             dir.file`dirty
    ensures rc == Ok && dir.Valid()
    ensures KeptOutside(old(dir.vol.Snapshot()), {dir.file} + FileOf(up), dir.vol.Snapshot())
    ensures dir.kids == Without(old(dir.kids), i) && dir.files == old(dir.files) - {Place(old(dir.kids[i]))}
    ensures KidDeleted(old(dir.vol.Snapshot()), dir.file, old(dir.kids), i, dir.vol.Snapshot())
    ensures up != null ==> up.Valid() && Parented(up, j, dir)
                           && Followed(old(up.kids), old(up.files), j, dir.file.Fields(), up.kids, up.files)
    ensures Reusable(dir.vol.Snapshot(), dir.file, old(2 + NameParts(dir.kids[i].info.name)))
  {
    hide KidDeleted, DirOk, DirFile, Volume.Snapshot, OthersKept, KeptOutside, Recorded, Place, Without, Reusable,
         NameParts, Good, Here, Placed, Buffer, SameName, EntriesOf;
    ghost var d := dir.vol.Snapshot();
    KidReady(d, dir.file, dir.kids, dir.files, i);
    ghost var n := 2 + NameParts(dir.kids[i].info.name);
    rc := dir.Delete(i);
    ghost var d1 := dir.vol.Snapshot();
    KeptOne(d, dir.file, {dir.file}, d1);
    if up != null {
      DirOkElsewhere(d, dir.file, d1, up.file, up.kids, up.files);
    }
    FlushParent(up, j, dir, now, accessed);
    KeptThen(d, {dir.file}, d1, FileOf(up), dir.vol.Snapshot());
    ReusableStays(d1, dir.file, n, FileOf(up), dir.vol.Snapshot());
    DeletedStays(d, dir.file, old(dir.kids), i, d1, FileOf(up), dir.vol.Snapshot());
  }

  /** A record says what the node says. */
  ghost predicate UpToDate(rs: Records, at: nat, f: File) {
    && at in rs && Buffer(rs[at].name)
    && var info := ReadInfo(rs[at]);
       info.size == f.size && info.start == f.start && info.contiguous == (f.size != 0 && f.contiguous)
  }

  lemma OutOfDate<K>(d: Disk<K>, k: K, n: nat, f: File, rs: Records, at: nat)
    requires DirFile(d, k) && SearchedFields(d, k, n, f) && UpToDate(rs, at, d.files[k])
    ensures UpToDate(rs, at, f) <==> SlotCost(d, k, n) == 0
  {
    hide DirFile, SlotCost, LongerSize, ReadInfo, Buffer;
  }

  /** Two children have their records in different places. */
  lemma PlacesApart<K>(d: Disk<K>, k: K, kids: seq<Kid>, rs: Records, i: nat, j: nat)
    requires DirOk(d, k, kids, rs) && i < |kids| && j < |kids| && i != j
    ensures Place(kids[i]) != Place(kids[j])
  {
    hide DirFile, Laid, EntriesOf, OneOf, Place;
    assert Place(kids[if i < j then i else j]) != Place(kids[if i < j then j else i]);
  }

  /** Renames the i-th child of `from` into `dir`. The source does not flush `dir` here, so its own record in the
      directory above stays as it is, and is out of date from then on if and only if the new slot had a cost. */
  method Rename(up: Directory?, j: nat, from: Directory, i: nat, dir: Directory, name: seq<unit>, hash: nat)
    returns (rc: Status)
    requires dir.Valid() && from.Valid() && (up != null ==> up.Valid()) && Parented(up, j, dir)
    requires from.vol == dir.vol && (from == dir || from.file != dir.file) && i < |from.kids|
    requires up != null ==> (up == from || up.file != from.file) && (up == from ==> i != j)
    requires Buffer(name) && Name(name) != []
    requires DirFile(dir.vol.Snapshot(), dir.file) && Searchable(dir.vol.Snapshot(), dir.file, 2 + NameParts(name))
    modifies dir, from, dir.vol`fat, dir.vol`heap, dir.vol`mapDirty, dir.vol.chunk
    modifies dir.file`startCluster, dir.file`contiguous, dir.file`fptrIndex, dir.file`fptrCluster, dir.file`size,
             dir.file`dirty
    ensures dir.Valid() && from.Valid() && (up != null ==> up.Valid())
    ensures rc == Ok <==> old(SlotCost(dir.vol.Snapshot(), dir.file, 2 + NameParts(name))
                              <= Bitmap.CountClear(dir.vol.Snapshot().used))
    ensures up != null ==> var at := old(Place(up.kids[j]));
                           at in old(up.files) && at in up.files && up.files[at] == old(up.files)[at]
    ensures rc == Ok && up != null && old(UpToDate(up.files, Place(up.kids[j]), dir.file.Fields())) ==>
              (UpToDate(up.files, old(Place(up.kids[j])), dir.file.Fields())
               <==> old(SlotCost(dir.vol.Snapshot(), dir.file, 2 + NameParts(name))) == 0)
  {
    hide DirOk, DirFile, Volume.Snapshot, KeptOutside, Place, Without, NameParts, Name, Renamed, SlotCost, Searchable,
         SearchedFields, UpToDate, Bitmap.CountClear;
    ghost var d, n: nat := dir.vol.Snapshot(), 2 + NameParts(name);
    DirFields(dir.vol, dir.file);
    ghost var at, rs := 0, map[];
    if up != null {
      at, rs := Place(up.kids[j]), up.files;
      PlaceIn(d, up.file, up.kids, rs, j);
      if up == from {
        PlacesApart(d, up.file, up.kids, rs, i, j);
      }
    }
    rc := dir.Rename(from, i, name, hash);
    if up != null && up != from {
      DirOkOutside(d, {from.file, dir.file}, dir.vol.Snapshot(), up.file, up.kids, up.files);
    }
    if rc == Ok && up != null && UpToDate(rs, at, d.files[dir.file]) {
      OutOfDate(d, dir.file, n, dir.file.Fields(), rs, at);
      SameRecord(rs, up.files, at, dir.file.Fields());
    }
  }

  lemma PlaceIn<K>(d: Disk<K>, k: K, kids: seq<Kid>, rs: Records, j: nat)
    requires DirOk(d, k, kids, rs) && j < |kids|
    ensures Place(kids[j]) in rs
  {
    hide DirFile, Laid, EntriesOf, Place;
    assert OneOf(d, k, kids[j], rs);
  }

  lemma SameRecord(rs: Records, rs': Records, at: nat, f: File)
    requires at in rs && at in rs' && rs'[at] == rs[at]
    ensures UpToDate(rs', at, f) <==> UpToDate(rs, at, f)
  {
  }
}
