/** Making a directory: its entries in the parent, its first cluster, and all of it undone without room. */
module MakingDirectory {
  import Bitmap
  import opened Clusters
  import opened Content
  import opened Entries
  import opened FileRecords
  import opened Files
  import opened FileSpec
  import opened Layout
  import opened Listed
  import opened Positions
  import opened Scanning
  import opened Agreement
  import opened Utf
  import opened Views
  import opened Volumes
  import opened Directories
  import opened Shrinking
  import opened CachedDirectory
  import opened Updates

  /** A directory whose bytes are all zero is laid out properly and has no children. */
  lemma EmptyDirectory<K>(d: Disk<K>, k: K)
    requires DirFile(d, k) && Layout.Bytes(d, k) == Zeros(d.files[k].size)
    ensures DirOk(d, k, [], map[])
  {
    hide Consistent, Layout.Bytes;
    var es := EntriesOf(d, k);
    forall i | 0 <= i < |es|
      ensures Quiet(es[i])
    {
      assert es[i][0] == 0;
    }
  }

  /** A file that is empty, on a volume whose clusters can hold a directory. */
  ghost predicate Blank<K>(d: Disk<K>, k: K) {
    && Consistent(d) && k in d.files && d.files[k].size == 0
    && d.clusterSize % ENTRY_SIZE == 0 && d.clusterSize >= SECTOR_MIN
  }

  /** What giving an empty file its first cluster comes to: an empty directory, exactly when a cluster is free. */
  ghost predicate Begun<K>(d: Disk<K>, k: K, ok: bool, d': Disk<K>) {
    && OthersKept(d, k, d') && k in d'.files && (ok <==> Bitmap.CountClear(d.used) > 0)
    && if ok then DirOk(d', k, [], map[]) && d'.files[k].size == d.clusterSize && !Invalid(d'.files[k].start)
       else d'.files[k].size == 0
  }

  lemma FirstCluster<K>(d: Disk<K>, k: K, ok: bool, d': Disk<K>)
    requires Blank(d, k) && Truncated(d, k, d.clusterSize, true, ok, d')
    ensures Begun(d, k, ok, d')
  {
    FirstTruncated(d, k, ok, d');
    hide Consistent, Layout.Bytes, ChainOf, Truncated, Bitmap.CountClear;
    if ok {
      assert DirFile(d', k);
      EmptyDirectory(d', k);
      StartsSomewhere(d', k);
    }
  }

  lemma FirstTruncated<K>(d: Disk<K>, k: K, ok: bool, d': Disk<K>)
    requires Blank(d, k) && Truncated(d, k, d.clusterSize, true, ok, d')
    ensures OthersKept(d, k, d') && k in d'.files && (ok <==> Bitmap.CountClear(d.used) > 0)
    ensures d'.files[k].size == if ok then d.clusterSize else 0
    ensures ok ==> Layout.Bytes(d', k) == Zeros(d.clusterSize)
  {
    hide ChainOf, Bitmap.CountClear, Layout.Bytes, Geometry, FilesOk, OwnedUsed, Disjoint, NoLeak;
    NoneAndOne(d.clusterSize);
    BytesLong(d, k);
    BytesIn(d, k);
    assert Consistent(d');
    BytesLong(d', k);
    BytesIn(d', k);
    assert ok ==> Resized(Layout.Bytes(d, k), d.clusterSize) == Zeros(d.clusterSize);
    assert ViewOf(d').files == ViewOf(d).files[k := Layout.Bytes(d', k)];
    OthersView(d, k, d');
  }

  lemma NoneAndOne(clusterSize: nat)
    requires clusterSize > 0
    ensures ClustersFor(0, clusterSize) == 0 && ClustersFor(clusterSize, clusterSize) == 1
  {
  }

  /** A child in front of all others has a place of its own. */
  lemma NewPlace<K>(d: Disk<K>, d': Disk<K>, k: K, kid: Kid, kids: seq<Kid>, rs: Records, rs': Records)
    requires DirOk(d, k, kids, rs) && DirOk(d', k, [kid] + kids, rs')
    ensures Place(kid) !in rs
  {
    hide DirFile, Laid, OneOf, EntriesOf, Place;
    forall j | 0 <= j < |kids|
      ensures Place(kids[j]) != Place(kid)
    {
      assert ([kid] + kids)[0] == kid && ([kid] + kids)[j + 1] == kids[j];
    }
  }

  /** A directory that has been made: the first child, with one cluster, in core and in its entries. */
  ghost predicate Made(kids: seq<Kid>, rs: Records, f: File, name: seq<unit>, clusterSize: nat, kids': seq<Kid>,
                       rs': Records)
    requires Buffer(name)
  {
    && kids' != [] && kids' == [kids'[0]] + kids
    && kids'[0].info == Info(ATTRIB_DIR, clusterSize, f.start, f.contiguous, NodeName(name))
    && var at := Place(kids'[0]);
       && at !in rs && at in rs' && rs' == rs[at := rs'[at]] && Buffer(rs'[at].name)
       && Name(rs'[at].name) == Name(name)
       && ReadInfo(rs'[at]) == kids'[0].info.(name := ReadName(rs'[at].name))
  }

  lemma NodeNamed(name: seq<unit>)
    requires Buffer(name)
    ensures Buffer(NodeName(name)) && Name(NodeName(name)) == Name(name)
  {
  }

  lemma BlankChild<K>(d: Disk<K>, ks: set<K>, child: K, d': Disk<K>)
    requires KeptOutside(d, ks, d') && child in d.files && child !in ks && d.files[child].size == 0
    requires d.clusterSize % ENTRY_SIZE == 0 && d.clusterSize >= SECTOR_MIN
    ensures Blank(d', child) && d'.clusterSize == d.clusterSize > 0
  {
    hide FilesOk, OwnedUsed, Disjoint, NoLeak, Uniform;
  }

  lemma BegunMeans<K>(d: Disk<K>, k: K, ok: bool, d': Disk<K>)
    requires Begun(d, k, ok, d')
    ensures OthersKept(d, k, d') && k in d'.files && (ok <==> Bitmap.CountClear(d.used) > 0)
    ensures if ok then DirOk(d', k, [], map[]) && d'.files[k].size == d.clusterSize else d'.files[k].size == 0
  {
    hide OthersKept, DirOk;
  }

  lemma TakenBack(rs: Records, at: nat, r: Record)
    requires at !in rs
    ensures rs[at := r] - {at} == rs
  {
  }

  lemma MadeOf(kid: Kid, kids: seq<Kid>, rs: Records, f: File, name: seq<unit>, now: StoredTime, hash: nat,
               clusterSize: nat, rs': Records)
    requires Buffer(name) && Place(kid) !in rs && f.size == clusterSize > 0
    requires kid.info == Info(ATTRIB_DIR, 0, FREE, false, NodeName(name))
    requires Recorded(rs[Place(kid) := NewRecord(NodeName(name), ATTRIB_DIR, now, hash)], Synced(kid, f), rs')
    ensures Made(kids, rs, f, name, clusterSize, [Synced(kid, f)] + kids, rs')
  {
    hide NewRecord, NodeName, Name, ReadName, ReadInfo;
    NodeNamed(name);
    NewName(NodeName(name), ATTRIB_DIR, now, hash);
    assert ([Synced(kid, f)] + kids)[0] == Synced(kid, f) && Place(Synced(kid, f)) == Place(kid);
  }

  /** Two updates of the record in the directory above come to the second one. */
  lemma FollowedTwice(kids0: seq<Kid>, rs0: Records, j: nat, f: File, kids1: seq<Kid>, rs1: Records, f': File,
                      kids2: seq<Kid>, rs2: Records)
    requires Followed(kids0, rs0, j, f, kids1, rs1) && Followed(kids1, rs1, j, f', kids2, rs2)
    ensures Followed(kids0, rs0, j, f', kids2, rs2)
  {
    hide ReadName, ReadInfo, Buffer;
    assert kids2[j] == Synced(kids0[j], f') && Place(kids2[j]) == Place(kids0[j]) == Place(kids1[j]);
  }

  /** The entry of a new directory has been made in front of `kids`, whose records are `rs`. */
  ghost predicate JustMade(kids: seq<Kid>, rs: Records, name: seq<unit>, now: StoredTime, hash: nat, kids': seq<Kid>,
                           rs': Records)
    requires Buffer(name)
  {
    && kids' != [] && kids' == [kids'[0]] + kids && kids'[0].info == Info(ATTRIB_DIR, 0, FREE, false, NodeName(name))
    && Place(kids'[0]) !in rs && rs' == rs[Place(kids'[0]) := NewRecord(NodeName(name), ATTRIB_DIR, now, hash)]
  }

  lemma MadeThen(kids: seq<Kid>, rs: Records, name: seq<unit>, now: StoredTime, hash: nat, kids1: seq<Kid>,
                 rs1: Records, f: File, clusterSize: nat, rs': Records)
    requires Buffer(name) && JustMade(kids, rs, name, now, hash, kids1, rs1) && f.size == clusterSize > 0
    requires kids1 != [] && Recorded(rs1, Synced(kids1[0], f), rs')
    ensures Made(kids, rs, f, name, clusterSize, kids1[0 := Synced(kids1[0], f)], rs')
  {
    hide NewRecord, NodeName, Place, Made, Recorded;
    MadeOf(kids1[0], kids, rs, f, name, now, hash, clusterSize, rs');
    assert kids1[0 := Synced(kids1[0], f)] == [Synced(kids1[0], f)] + kids;
  }

  lemma Unmade(kids: seq<Kid>, rs: Records, name: seq<unit>, now: StoredTime, hash: nat, kids': seq<Kid>, rs': Records)
    requires Buffer(name) && JustMade(kids, rs, name, now, hash, kids', rs')
    ensures kids' != [] && Without(kids', 0) == kids && rs' - {Place(kids'[0])} == rs
  {
    hide NewRecord, NodeName, Place;
    TakenBack(rs, Place(kids'[0]), NewRecord(NodeName(name), ATTRIB_DIR, now, hash));
    assert Without(kids', 0) == kids;
  }

  /** The end of that: the first child gets the fields of its node, and so does its record. */
  method FlushFirst(ghost up: Directory?, dir: Directory, child: Node, name: seq<unit>, now: StoredTime,
                    accessed: StoredTime, hash: nat, ghost kids: seq<Kid>, ghost rs: Records)
    requires dir.Valid() && (up != null ==> up.Valid() && up != dir && up.vol == dir.vol && up.file != dir.file)
    requires child in dir.vol.nodes && child != dir.file && child.size == dir.vol.clusterSize && Buffer(name)
    requires dir.kids != [] && JustMade(kids, rs, name, now, hash, dir.kids, dir.files)
    requires DirOk(dir.vol.Snapshot(), child, [], map[])
    modifies dir, dir.vol`heap
    ensures dir.Valid() && KeptOutside(old(dir.vol.Snapshot()), {dir.file}, dir.vol.Snapshot())
    ensures up != null ==> up.Valid()
    ensures DirOk(dir.vol.Snapshot(), child, [], map[])
    ensures Made(kids, rs, child.Fields(), name, dir.vol.clusterSize, dir.kids, dir.files)
  {
    hide DirOk, DirFile, Volume.Snapshot, KeptOutside, OthersKept, Consistent, Made, JustMade, Name, Sensible,
         Recorded;
    ghost var d, kids1, rs1 := dir.vol.Snapshot(), dir.kids, dir.files;
    DirOkFile(d, child, [], map[]);
    DirKnown(dir.vol, child);
    DirSensible(d, child, ATTRIB_DIR, now, accessed);
    MadeAttrib(kids, rs, name, now, hash, dir.kids, dir.files);
    dir.vol.SnapshotOf(child);
    FlushNode(dir, 0, child, now, accessed);
    ghost var d' := dir.vol.Snapshot();
    KeptOne(d, dir.file, {dir.file}, d');
    DirOkElsewhere(d, dir.file, d', child, [], map[]);
    if up != null {
      DirOkElsewhere(d, dir.file, d', up.file, up.kids, up.files);
    }
    MadeThen(kids, rs, name, now, hash, kids1, rs1, child.Fields(), dir.vol.clusterSize, dir.files);
  }

  lemma MadeAttrib(kids: seq<Kid>, rs: Records, name: seq<unit>, now: StoredTime, hash: nat, kids': seq<Kid>,
                   rs': Records)
    requires Buffer(name) && JustMade(kids, rs, name, now, hash, kids', rs')
    ensures kids' != [] && kids'[0].info.attrib == ATTRIB_DIR
  {
  }

  lemma JustCreated(kids: seq<Kid>, rs: Records, name: seq<unit>, now: StoredTime, hash: nat, kids': seq<Kid>,
                    rs': Records)
    requires Buffer(name) && kids' != [] && kids' == [kids'[0]] + kids && Place(kids'[0]) !in rs
    requires kids'[0].info == Info(ATTRIB_DIR, 0, FREE, false, NodeName(name))
    requires rs' == rs[Place(kids'[0]) := NewRecord(NodeName(name), ATTRIB_DIR, now, hash)]
    ensures JustMade(kids, rs, name, now, hash, kids', rs')
  {
  }

  /** Or, without a cluster for it, the first child is taken out again. */
  method Unmake(up: Directory?, j: nat, dir: Directory, ghost name: seq<unit>, now: StoredTime, accessed: StoredTime,
                ghost hash: nat, ghost kids: seq<Kid>, ghost rs: Records, ghost upKids: seq<Kid>,
                ghost upFiles: Records, ghost f: File)
    requires dir.Valid() && Parented(up, j, dir) && Buffer(name)
    requires dir.kids != [] && JustMade(kids, rs, name, now, hash, dir.kids, dir.files)
    requires up != null ==> up.Valid() && Followed(upKids, upFiles, j, f, up.kids, up.files)
    modifies dir, (if up != null then {up} else {}), dir.vol`fat, dir.vol`heap, dir.vol`mapDirty, dir.vol.chunk
    modifies dir.file`startCluster, dir.file`contiguous, dir.file`fptrIndex, dir.file`fptrCluster, dir.file`size,
             dir.file`dirty
    ensures dir.Valid() && KeptOutside(old(dir.vol.Snapshot()), {dir.file} + FileOf(up), dir.vol.Snapshot())
    ensures dir.kids == kids && dir.files == rs
    ensures up != null ==> up.Valid() && Followed(upKids, upFiles, j, dir.file.Fields(), up.kids, up.files)
  {
    hide DirOk, DirFile, Volume.Snapshot, KeptOutside, JustMade, Followed, Without, Place;
    Unmade(kids, rs, name, now, hash, dir.kids, dir.files);
    ghost var kids1, rs1 := (if up != null then up.kids else []), (if up != null then up.files else map[]);
    var _ := Delete(up, j, dir, 0, now, accessed);
    if up != null {
      FollowedTwice(upKids, upFiles, j, f, kids1, rs1, dir.file.Fields(), up.kids, up.files);
    }
  }

  /** Gives a directory whose entry has been made its first cluster, or takes the entry back. */
  method BeginDirectory(up: Directory?, j: nat, dir: Directory, child: Node, name: seq<unit>, now: StoredTime,
                        accessed: StoredTime, hash: nat, ghost kids: seq<Kid>, ghost rs: Records,
                        ghost upKids: seq<Kid>, ghost upFiles: Records)
    returns (rc: Status)
    requires dir.Valid() && Parented(up, j, dir) && Buffer(name) && Blank(dir.vol.Snapshot(), child)
    requires child in dir.vol.nodes && child != dir.file && (up != null ==> child != up.file)
    requires dir.kids != [] && JustMade(kids, rs, name, now, hash, dir.kids, dir.files)
    requires up != null ==> up.Valid() && Followed(upKids, upFiles, j, dir.file.Fields(), up.kids, up.files)
    modifies dir, (if up != null then {up} else {}), dir.vol`fat, dir.vol`heap, dir.vol`mapDirty, dir.vol.chunk
    modifies dir.file`startCluster, dir.file`contiguous, dir.file`fptrIndex, dir.file`fptrCluster, dir.file`size,
             dir.file`dirty
    modifies child`startCluster, child`contiguous, child`fptrIndex, child`fptrCluster, child`size, child`dirty
    ensures dir.Valid() && KeptOutside(old(dir.vol.Snapshot()), {dir.file, child} + FileOf(up), dir.vol.Snapshot())
    ensures rc == Ok <==> old(Bitmap.CountClear(dir.vol.Snapshot().used) > 0)
    ensures rc != Ok ==> dir.kids == kids && dir.files == rs && child.size == 0
    ensures rc == Ok ==> DirOk(dir.vol.Snapshot(), child, [], map[])
                         && Made(kids, rs, child.Fields(), name, dir.vol.clusterSize, dir.kids, dir.files)
    ensures up != null ==> up.Valid() && Followed(upKids, upFiles, j, dir.file.Fields(), up.kids, up.files)
  {
    hide DirOk, DirFile, Volume.Snapshot, KeptOutside, OthersKept, Consistent, Truncated, Begun, Made, JustMade,
         Blank, Bitmap.CountClear, Followed;
    var vol, file := dir.vol, dir.file;
    ghost var d := vol.Snapshot();
    BlankMeans(d, child);
    vol.SnapshotOf(child);
    rc := vol.Truncate(child, vol.clusterSize, true);
    ghost var d1 := vol.Snapshot();
    FirstCluster(d, child, rc == Ok, d1);
    BegunMeans(d, child, rc == Ok, d1);
    DirOkElsewhere(d, child, d1, file, dir.kids, dir.files);
    if up != null {
      DirOkElsewhere(d, child, d1, up.file, up.kids, up.files);
    }
    KeptOne(d, child, {child}, d1);
    if rc != Ok {
      Unmake(up, j, dir, name, now, accessed, hash, kids, rs, upKids, upFiles, file.Fields());
      vol.SnapshotOf(child);
      KeptSame(d1, {file} + FileOf(up), vol.Snapshot(), child);
      KeptThen(d, {child}, d1, {file} + FileOf(up), vol.Snapshot());
      assert {child} + ({file} + FileOf(up)) == {file, child} + FileOf(up);
      return;
    }
    vol.SnapshotOf(child);
    FlushFirst(up, dir, child, name, now, accessed, hash, kids, rs);
    KeptThen(d, {child}, d1, {file}, vol.Snapshot());
    KeptMore(d, {child} + {file}, {file, child} + FileOf(up), vol.Snapshot());
  }

  lemma KeptSame<K>(d: Disk<K>, ks: set<K>, d': Disk<K>, other: K)
    requires KeptOutside(d, ks, d') && other in d.files && other !in ks
    ensures other in d'.files && d'.files[other] == d.files[other]
  {
    hide Consistent;
  }

  lemma BlankMeans<K>(d: Disk<K>, child: K)
    requires Blank(d, child)
    ensures Consistent(d) && child in d.files && d.files[child].size == 0
    ensures 0 < d.clusterSize <= MAX_COUNT * d.clusterSize
  {
    hide FilesOk, OwnedUsed, Disjoint, NoLeak, Uniform;
  }

  /** Makes a directory; `child` is its node, so far an empty file. Without room for its entries or its cluster the
      parent has the children it had. */
  method MakeDirectory(up: Directory?, j: nat, dir: Directory, child: Node, name: seq<unit>, now: StoredTime,
                       accessed: StoredTime, hash: nat)
    returns (rc: Status)
    requires dir.Valid() && Parented(up, j, dir) && (up != null ==> up.Valid() && child != up.file)
    requires Buffer(name) && Name(name) != []
    requires DirFile(dir.vol.Snapshot(), dir.file)
    requires Searchable(dir.vol.Snapshot(), dir.file, 2 + NameParts(name))
    requires child in dir.vol.nodes && child != dir.file && child.size == 0
    modifies dir, (if up != null then {up} else {}), dir.vol`fat, dir.vol`heap, dir.vol`mapDirty, dir.vol.chunk
    modifies dir.file`startCluster, dir.file`contiguous, dir.file`fptrIndex, dir.file`fptrCluster, dir.file`size,
             dir.file`dirty
    modifies child`startCluster, child`contiguous, child`fptrIndex, child`fptrCluster, child`size, child`dirty
    ensures dir.Valid() && KeptOutside(old(dir.vol.Snapshot()), {dir.file, child} + FileOf(up), dir.vol.Snapshot())
    ensures rc == Ok <==> old(SlotCost(dir.vol.Snapshot(), dir.file, 2 + NameParts(name))
                              < Bitmap.CountClear(dir.vol.Snapshot().used))
    ensures rc != Ok ==> dir.kids == old(dir.kids) && dir.files == old(dir.files) && child.size == 0
    ensures rc == Ok ==> DirOk(dir.vol.Snapshot(), child, [], map[])
                         && Made(old(dir.kids), old(dir.files), child.Fields(), name, dir.vol.clusterSize, dir.kids,
                                 dir.files)
    ensures up != null ==>
              && up.Valid()
              && if old(SlotCost(dir.vol.Snapshot(), dir.file, 2 + NameParts(name))
                        <= Bitmap.CountClear(dir.vol.Snapshot().used))
                 then Followed(old(up.kids), old(up.files), j, dir.file.Fields(), up.kids, up.files)
                 else up.kids == old(up.kids) && up.files == old(up.files)
  {
    hide DirOk, DirFile, Volume.Snapshot, KeptOutside, Place, Consistent, Made, JustMade, NewRecord, NodeName, Name,
         NameParts, Blank, Searchable, SlotCost, Bitmap.CountClear, Followed;
    var vol, file := dir.vol, dir.file;
    ghost var d, kids, rs := vol.Snapshot(), dir.kids, dir.files;
    DirOkFile(d, file, kids, rs);
    DirKnown(vol, file);
    WholeClusterSize(d, file);
    vol.SnapshotOf(child);
    rc := Create(up, j, dir, name, ATTRIB_DIR, now, accessed, hash);
    ghost var d1, outside, all := vol.Snapshot(), {file} + FileOf(up), {file, child} + FileOf(up);
    BlankChild(d, outside, child, d1);
    KeptMore(d, outside, all, d1);
    vol.SnapshotOf(child);
    if rc != Ok {
      return;
    }
    DirOkFile(d1, file, dir.kids, dir.files);
    NewPlace(d, d1, file, dir.kids[0], kids, rs, dir.files);
    JustCreated(kids, rs, name, now, hash, dir.kids, dir.files);
    rc := BeginDirectory(up, j, dir, child, name, now, accessed, hash, kids, rs,
                         old(if up != null then up.kids else []), old(if up != null then up.files else map[]));
    KeptAgain(d, all, d1, vol.Snapshot());
  }

  lemma WholeClusterSize<K>(d: Disk<K>, k: K)
    requires DirFile(d, k)
    ensures Consistent(d) && d.clusterSize % ENTRY_SIZE == 0 && d.clusterSize >= SECTOR_MIN
  {
  }
}
