/** Renaming a file to a name that is taken: what is in the way goes first. */
module Replacing {
  import Bitmap
  import Trees
  import opened Clusters
  import opened Content
  import opened Entries
  import opened FileRecords
  import opened Files
  import opened FileSpec
  import opened Layout
  import opened Listed
  import opened Positions
  import opened Scanning
  import opened Agreement
  import opened Utf
  import opened Views
  import opened Volumes
  import opened Directories
  import opened Shrinking
  import opened Reuse
  import opened CachedDirectory
  import opened Updates

  /** Giving back all clusters of a file always succeeds, and touches no other file. */
  lemma Emptied<K>(d: Disk<K>, k: K, ok: bool, d': Disk<K>)
    requires Consistent(d) && k in d.files && Truncated(d, k, 0, true, ok, d')
    ensures ok && OthersKept(d, k, d') && k in d'.files && d'.files[k].size == 0
    ensures d'.used == d.used || Bitmap.CountClear(d'.used) > Bitmap.CountClear(d.used)
  {
    ConsistentSize(d);
    CostSign(d.files[k].size, 0, d.clusterSize);
    CutToNothing(d, k, ok, d');
    hide Consistent, Layout.Bytes, ChainsKept, Truncated, Bitmap.CountClear, ViewOf, ClustersFor;
    EmptiedCount(d, k, ok, d');
  }

  lemma CutToNothing<K>(d: Disk<K>, k: K, ok: bool, d': Disk<K>)
    requires Consistent(d) && k in d.files && Truncated(d, k, 0, true, ok, d')
    requires d.clusterSize > 0 && Cost(d.files[k].size, 0, d.clusterSize) <= 0
    ensures ok && Consistent(d') && OthersKept(d, k, d') && k in d'.files && d'.files[k].size == 0
  {
    hide ChainOf, Bitmap.CountClear, Layout.Bytes, Geometry, FilesOk, OwnedUsed, Disjoint, NoLeak, ClustersFor;
    BytesLong(d, k);
    BytesIn(d, k);
    BytesLong(d', k);
    BytesIn(d', k);
    OthersView(d, k, d');
  }

  lemma EmptiedCount<K>(d: Disk<K>, k: K, ok: bool, d': Disk<K>)
    requires Consistent(d) && Consistent(d') && k in d.files && Truncated(d, k, 0, true, ok, d') && ok
    requires d.clusterSize > 0 && Cost(d.files[k].size, 0, d.clusterSize) <= 0
    ensures d'.used == d.used || Bitmap.CountClear(d'.used) > Bitmap.CountClear(d.used)
  {
    ClustersForBounds(d.files[k].size, d.clusterSize);
    ClustersForBounds(0, d.clusterSize);
    hide Consistent, Bitmap.CountClear, ClustersFor, ChainsKept, Sprung, Leaky, Layout.Bytes;
    BytesLong(d, k);
    BytesIn(d, k);
    FreeOf(d);
    FreeOf(d');
  }

  /** Whether a file or directory that is in the way can be removed. */
  function WayCode(isDirectory: bool, toDirectory: bool, kids: seq<Kid>): Trees.Code {
    if isDirectory != toDirectory then (if isDirectory then Trees.NotADirectory else Trees.IsADirectory)
    else if isDirectory && kids != [] then Trees.NotEmpty else Trees.Ok
  }

  /** Takes the e-th child out of a directory and frees the clusters of its node. */
  method Remove(up: Directory?, j: nat, dir: Directory, e: nat, victim: Node, now: StoredTime, accessed: StoredTime)
    requires dir.Valid() && Parented(up, j, dir) && (up != null ==> up.Valid() && victim != up.file)
    requires e < |dir.kids| && victim in dir.vol.nodes && victim != dir.file
    modifies dir, (if up != null then {up} else {}), dir.vol`fat, dir.vol`heap, dir.vol`mapDirty, dir.vol.chunk
    modifies dir.file`startCluster, dir.file`contiguous, dir.file`fptrIndex, dir.file`fptrCluster, dir.file`size,
             dir.file`dirty
    modifies victim`startCluster, victim`contiguous, victim`fptrIndex, victim`fptrCluster, victim`size, victim`dirty
    ensures dir.Valid() && (up != null ==> up.Valid())
    ensures KeptOutside(old(dir.vol.Snapshot()), {dir.file, victim} + FileOf(up), dir.vol.Snapshot())
    ensures dir.kids == Without(old(dir.kids), e) && dir.files == old(dir.files) - {Place(old(dir.kids[e]))}
    ensures KidDeleted(old(dir.vol.Snapshot()), dir.file, old(dir.kids), e, dir.vol.Snapshot())
    ensures victim.size == 0 && Reusable(dir.vol.Snapshot(), dir.file, old(2 + NameParts(dir.kids[e].info.name)))
    ensures up != null ==> Followed(old(up.kids), old(up.files), j, dir.file.Fields(), up.kids, up.files)
  {
    hide KidDeleted, DirOk, DirFile, Volume.Snapshot, OthersKept, KeptOutside, Place, Without, Reusable, NameParts,
         Followed, Consistent, Truncated, Good, Here, Placed, Buffer, SameName, EntriesOf, Bitmap.CountClear;
    ghost var d, all := dir.vol.Snapshot(), {dir.file, victim} + FileOf(up);
    KidReady(d, dir.file, dir.kids, dir.files, e);
    ghost var n := 2 + NameParts(dir.kids[e].info.name);
    var rc := Delete(up, j, dir, e, now, accessed);
    ghost var d1 := dir.vol.Snapshot();
    DirOkFile(d1, dir.file, dir.kids, dir.files);
    DirKnown(dir.vol, dir.file);
    dir.vol.SnapshotOf(victim);
    rc := dir.vol.Truncate(victim, 0, true);
    ghost var d2 := dir.vol.Snapshot();
    Emptied(d1, victim, rc == Ok, d2);
    dir.vol.SnapshotOf(victim);
    DirOkElsewhere(d1, victim, d2, dir.file, dir.kids, dir.files);
    if up != null {
      DirOkElsewhere(d1, victim, d2, up.file, up.kids, up.files);
    }
    KeptOne(d1, victim, {victim}, d2);
    ReusableStays(d1, dir.file, n, {victim}, d2);
    DeletedStays(d, dir.file, old(dir.kids), e, d1, {victim}, d2);
    KeptThen(d, {dir.file} + FileOf(up), d1, {victim}, d2);
    assert {dir.file} + FileOf(up) + {victim} == all;
  }

  /** Removes the e-th child of a directory, whose node is `victim`, if what takes its place is of the same kind. */
  method MakeWay(up: Directory?, j: nat, dir: Directory, e: nat, victim: Node, gone: Directory?, toDirectory: bool,
                 now: StoredTime, accessed: StoredTime)
    returns (code: Trees.Code)
    requires dir.Valid() && Parented(up, j, dir) && (up != null ==> up.Valid() && victim != up.file)
    requires e < |dir.kids| && victim in dir.vol.nodes && victim != dir.file
    requires IsDirectory(dir.kids[e].info.attrib) ==> gone != null && gone.file == victim
    modifies dir, (if up != null then {up} else {}), dir.vol`fat, dir.vol`heap, dir.vol`mapDirty, dir.vol.chunk
    modifies dir.file`startCluster, dir.file`contiguous, dir.file`fptrIndex, dir.file`fptrCluster, dir.file`size,
             dir.file`dirty
    modifies victim`startCluster, victim`contiguous, victim`fptrIndex, victim`fptrCluster, victim`size, victim`dirty
    ensures code == WayCode(old(IsDirectory(dir.kids[e].info.attrib)), toDirectory,
                            if gone != null then old(gone.kids) else [])
    ensures dir.Valid() && (up != null ==> up.Valid())
    ensures KeptOutside(old(dir.vol.Snapshot()), {dir.file, victim} + FileOf(up), dir.vol.Snapshot())
    ensures code != Trees.Ok ==>
              && dir.vol.Snapshot() == old(dir.vol.Snapshot())
              && dir.kids == old(dir.kids) && dir.files == old(dir.files)
              && (up != null ==> up.kids == old(up.kids) && up.files == old(up.files))
    ensures code == Trees.Ok ==>
              && dir.kids == Without(old(dir.kids), e) && dir.files == old(dir.files) - {Place(old(dir.kids[e]))}
              && victim.size == 0
              && KidDeleted(old(dir.vol.Snapshot()), dir.file, old(dir.kids), e, dir.vol.Snapshot())
              && Reusable(dir.vol.Snapshot(), dir.file, old(2 + NameParts(dir.kids[e].info.name)))
              && (up != null ==>
                    Followed(old(up.kids), old(up.files), j, dir.file.Fields(), up.kids, up.files))
  {
    hide KidDeleted, DirOk, DirFile, Volume.Snapshot, KeptOutside, Place, Without, Reusable, NameParts, Followed,
         Consistent, IsDirectory, Good, Here, Placed, Buffer, SameName, EntriesOf;
    ghost var d := dir.vol.Snapshot();
    KidReady(d, dir.file, dir.kids, dir.files, e);
    DirKnown(dir.vol, dir.file);
    KeptNone(d, {dir.file, victim} + FileOf(up));
    if IsDirectory(dir.kids[e].info.attrib) {
      if !toDirectory {
        return Trees.NotADirectory;
      }
      if |gone.kids| != 0 {
        return Trees.NotEmpty;
      }
    } else if toDirectory {
      return Trees.IsADirectory;
    }
    Remove(up, j, dir, e, victim, now, accessed);
    code := Trees.Ok;
  }

  /** Where the i-th child stands when the e-th has been taken out of the same list. */
  function Moved(i: nat, e: nat): nat {
    if e < i then i - 1 else i
  }

  lemma MovedKid(kids: seq<Kid>, i: nat, e: nat)
    requires i < |kids| && e < |kids| && i != e
    ensures Moved(i, e) < |Without(kids, e)| && Without(kids, e)[Moved(i, e)] == kids[i]
  {
  }

  /** The child to be renamed and its record are what they were, whatever has become of its directory's others. */
  ghost predicate StillThere(kids: seq<Kid>, rs: Records, i: nat, kids': seq<Kid>, rs': Records, i': nat) {
    && i < |kids| && i' < |kids'| && kids'[i'] == kids[i]
    && Place(kids[i]) in rs && Place(kids[i]) in rs' && rs'[Place(kids[i])] == rs[Place(kids[i])]
  }

  lemma StillSame<K>(d: Disk<K>, k: K, kids: seq<Kid>, rs: Records, i: nat, e: nat)
    requires DirOk(d, k, kids, rs) && i < |kids| && e < |kids| && i != e
    ensures StillThere(kids, rs, i, Without(kids, e), rs - {Place(kids[e])}, Moved(i, e))
  {
    hide DirFile, Laid, EntriesOf, OneOf, Place;
    MovedKid(kids, i, e);
    assert OneOf(d, k, kids[i], rs);
    OneOfPlace(d, k, kids[i], rs);
    assert Place(kids[if i < e then i else e]) != Place(kids[if i < e then e else i]);
  }

  lemma StillAbove<K>(d: Disk<K>, k: K, kids: seq<Kid>, rs: Records, i: nat, j: nat, f: File, kids': seq<Kid>,
                      rs': Records)
    requires DirOk(d, k, kids, rs) && i < |kids| && i != j && Followed(kids, rs, j, f, kids', rs')
    ensures StillThere(kids, rs, i, kids', rs', i)
  {
    hide DirFile, Laid, EntriesOf, OneOf, ReadInfo, ReadName, Buffer;
    assert OneOf(d, k, kids[i], rs);
    OneOfPlace(d, k, kids[i], rs);
    assert Place(kids'[j]) == Place(kids[j]);
    assert Place(kids[if i < j then i else j]) != Place(kids[if i < j then j else i]);
  }

  lemma StillElsewhere<K>(d: Disk<K>, k: K, kids: seq<Kid>, rs: Records, i: nat)
    requires DirOk(d, k, kids, rs) && i < |kids|
    ensures StillThere(kids, rs, i, kids, rs, i)
  {
    hide DirFile, Laid, EntriesOf, OneOf, Place;
    assert OneOf(d, k, kids[i], rs);
    OneOfPlace(d, k, kids[i], rs);
  }

  /** How the three directories of a rename lie to each other: the one with the file, the one it goes to, and the one
      above that. What is in the way may be the directory the file is in. */
  ghost predicate Arranged(up: Directory?, j: nat, from: Directory, i: nat, dir: Directory, e: nat, victim: Node,
                           gone: Directory?)
    reads from, dir, dir.vol, (if up != null then {up} else {})
  {
    && Parented(up, j, dir) && from.vol == dir.vol && i < |from.kids| && e < |dir.kids|
    && (from == dir || from.file != dir.file) && (from == dir ==> i != e)
    && (up != null ==> (up == from || up.file != from.file) && (up == from ==> i != j) && victim != up.file)
    && victim in dir.vol.nodes && victim != dir.file
    && (IsDirectory(dir.kids[e].info.attrib) ==> gone != null && gone.file == victim)
    && (victim == from.file ==> IsDirectory(dir.kids[e].info.attrib) && gone == from)
  }

  /** What a rename to a name that is taken leaves in the directory it goes to: the file is the first child, under its
      new name, and what had the name is gone. */
  ghost predicate TookPlace(from: seq<Kid>, fromFiles: Records, i: nat, same: bool, kids: seq<Kid>, files: Records,
                            e: nat, name: seq<unit>, hash: nat, kids': seq<Kid>, files': Records)
    requires Buffer(name)
  {
    && i < |from| && e < |kids| && (same ==> from == kids && i != e) && Place(from[i]) in fromFiles
    && kids' != [] && kids'[0].info == from[i].info.(name := name)
    && kids'[1..] == (if same then Without(Without(kids, e), Moved(i, e)) else Without(kids, e))
    && files' == (files - {Place(kids[e])} - (if same then {Place(from[i])} else {}))
                 [Place(kids'[0]) := Renamed(fromFiles[Place(from[i])], name, hash)]
  }

  lemma TookPlaceOf(from: seq<Kid>, fromFiles: Records, i: nat, from1: seq<Kid>, fromFiles1: Records, i1: nat,
                    same: bool, kids: seq<Kid>, files: Records, e: nat, name: seq<unit>, hash: nat, kids1: seq<Kid>,
                    files1: Records, kids': seq<Kid>, files': Records)
    requires Buffer(name) && StillThere(from, fromFiles, i, from1, fromFiles1, i1)
    requires e < |kids| && kids1 == Without(kids, e) && files1 == files - {Place(kids[e])}
    requires same ==> from == kids && i != e && i1 == Moved(i, e) && from1 == kids1
    requires kids' != [] && kids'[0].info == from1[i1].info.(name := name) && Place(from1[i1]) in fromFiles1
    requires kids' == [kids'[0]] + if same then Without(kids1, i1) else kids1
    requires files' == (if same then files1 - {Place(from1[i1])} else files1)
                       [Place(kids'[0]) := Renamed(fromFiles1[Place(from1[i1])], name, hash)]
    ensures TookPlace(from, fromFiles, i, same, kids, files, e, name, hash, kids', files')
  {
    hide Place, Renamed, Without;
  }

  lemma StillMeans(kids: seq<Kid>, rs: Records, i: nat, kids': seq<Kid>, rs': Records, i': nat)
    requires StillThere(kids, rs, i, kids', rs', i')
    ensures i < |kids| && i' < |kids'| && kids'[i'] == kids[i]
  {
  }

  /** The last step of that: there is room now. */
  method PutInPlace(ghost up: Directory?, from: Directory, ghost i: nat, dir: Directory, ghost e: nat, i': nat,
                    name: seq<unit>, hash: nat, ghost fromKids: seq<Kid>, ghost fromFiles: Records,
                    ghost kids: seq<Kid>, ghost files: Records)
    requires dir.Valid() && from.Valid() && from.vol == dir.vol && (from == dir || from.file != dir.file)
    requires up != null ==> up.Valid() && up != dir && up.vol == dir.vol && up.file != dir.file
                            && (up == from || up.file != from.file)
    requires StillThere(fromKids, fromFiles, i, from.kids, from.files, i')
    requires e < |kids| && dir.kids == Without(kids, e) && dir.files == files - {Place(kids[e])}
    requires from == dir ==> fromKids == kids && i != e && i' == Moved(i, e)
    requires Buffer(name) && Name(name) != [] && Reusable(dir.vol.Snapshot(), dir.file, 2 + NameParts(name))
    modifies dir, from, dir.vol`fat, dir.vol`heap, dir.vol`mapDirty, dir.vol.chunk
    modifies dir.file`startCluster, dir.file`contiguous, dir.file`fptrIndex, dir.file`fptrCluster, dir.file`size,
             dir.file`dirty
    ensures dir.Valid() && from.Valid() && (up != null ==> up.Valid())
    ensures KeptOutside(old(dir.vol.Snapshot()), {from.file, dir.file}, dir.vol.Snapshot())
    ensures TookPlace(fromKids, fromFiles, i, from == dir, kids, files, e, name, hash, dir.kids, dir.files)
    ensures from != dir ==> i' < |old(from.kids)| && from.kids == Without(old(from.kids), i')
                            && i < |fromKids| && from.files == old(from.files) - {Place(fromKids[i])}
  {
    hide DirOk, DirFile, Volume.Snapshot, KeptOutside, Place, Without, Reusable, NameParts, Name, Consistent, EntriesOf,
         SlotCost, Searchable, Bitmap.CountClear, Renamed, StillThere, TookPlace;
    ghost var d, kids1, files1, from1, fromFiles1 := dir.vol.Snapshot(), dir.kids, dir.files, from.kids, from.files;
    ReusableFound(d, dir.file, 2 + NameParts(name));
    StillMeans(fromKids, fromFiles, i, from1, fromFiles1, i');
    var _ := dir.Rename(from, i', name, hash);
    if up != null && up != from {
      DirOkOutside(d, {from.file, dir.file}, dir.vol.Snapshot(), up.file, up.kids, up.files);
    }
    TookPlaceOf(fromKids, fromFiles, i, from1, fromFiles1, i', from == dir, kids, files, e, name, hash, kids1, files1,
                dir.kids, dir.files);
  }

  /** Makes way for the i-th child of `from`, which stays where it is for now. */
  method ClearWay(up: Directory?, j: nat, from: Directory, i: nat, dir: Directory, e: nat, victim: Node,
                  gone: Directory?, n: nat, now: StoredTime, accessed: StoredTime)
    returns (code: Trees.Code)
    requires dir.Valid() && from.Valid() && (up != null ==> up.Valid())
    requires Arranged(up, j, from, i, dir, e, victim, gone)
    requires 0 < n <= 2 + NameParts(dir.kids[e].info.name)
    modifies dir, (if up != null then {up} else {}), dir.vol`fat, dir.vol`heap, dir.vol`mapDirty, dir.vol.chunk
    modifies dir.file`startCluster, dir.file`contiguous, dir.file`fptrIndex, dir.file`fptrCluster, dir.file`size,
             dir.file`dirty
    modifies victim`startCluster, victim`contiguous, victim`fptrIndex, victim`fptrCluster, victim`size, victim`dirty
    ensures code == WayCode(old(IsDirectory(dir.kids[e].info.attrib)), old(IsDirectory(from.kids[i].info.attrib)),
                            if gone != null then old(gone.kids) else [])
    ensures dir.Valid() && from.Valid() && (up != null ==> up.Valid())
    ensures KeptOutside(old(dir.vol.Snapshot()), {dir.file, victim} + FileOf(up), dir.vol.Snapshot())
    ensures code != Trees.Ok ==>
              && dir.vol.Snapshot() == old(dir.vol.Snapshot())
              && dir.kids == old(dir.kids) && dir.files == old(dir.files)
              && (up != null ==> up.kids == old(up.kids) && up.files == old(up.files))
    ensures code == Trees.Ok ==>
              && dir.kids == Without(old(dir.kids), e) && dir.files == old(dir.files) - {Place(old(dir.kids[e]))}
              && victim.size == 0 && Reusable(dir.vol.Snapshot(), dir.file, n)
              && (up != null ==>
                    Followed(old(up.kids), old(up.files), j, dir.file.Fields(), up.kids, up.files))
              && StillThere(old(from.kids), old(from.files), i, from.kids, from.files,
                            if from == dir then Moved(i, e) else i)
  {
    hide KidDeleted, DirOk, DirFile, Volume.Snapshot, KeptOutside, Place, Without, Reusable, NameParts, Followed,
         Consistent, IsDirectory, Good, Here, Placed, Buffer, SameName, EntriesOf, StillThere;
    ghost var d, some := dir.vol.Snapshot(), {dir.file, victim} + FileOf(up);
    KidReady(d, dir.file, dir.kids, dir.files, e);
    code := MakeWay(up, j, dir, e, victim, gone, IsDirectory(from.kids[i].info.attrib), now, accessed);
    ghost var d1 := dir.vol.Snapshot();
    if code != Trees.Ok {
      return;
    }
    if from != dir && from != up {
      DirOkOutside(d, some, d1, from.file, from.kids, from.files);
    }
    if from == dir {
      StillSame(d, dir.file, old(dir.kids), old(dir.files), i, e);
    } else if from == up {
      StillAbove(d, from.file, old(from.kids), old(from.files), i, j, dir.file.Fields(), from.kids, from.files);
    } else {
      StillElsewhere(d, from.file, old(from.kids), old(from.files), i);
    }
    ReusableLess(d1, dir.file, 2 + old(NameParts(dir.kids[e].info.name)), n);
  }

  /** Renames the i-th child of `from` to the name of the e-th child of `dir`, which has to give way. If the two are of
      the same kind this succeeds, however full the volume is. */
  method Replace(up: Directory?, j: nat, from: Directory, i: nat, dir: Directory, e: nat, victim: Node,
                 gone: Directory?, name: seq<unit>, hash: nat, now: StoredTime, accessed: StoredTime)
    returns (code: Trees.Code, ghost f: File, ghost upKids: seq<Kid>, ghost upFiles: Records)
    requires dir.Valid() && from.Valid() && (up != null ==> up.Valid())
    requires Arranged(up, j, from, i, dir, e, victim, gone)
    requires Buffer(name) && Name(name) != [] && NameParts(name) <= NameParts(dir.kids[e].info.name)
    modifies dir, from, (if up != null then {up} else {})
    modifies dir.vol`fat, dir.vol`heap, dir.vol`mapDirty, dir.vol.chunk
    modifies dir.file`startCluster, dir.file`contiguous, dir.file`fptrIndex, dir.file`fptrCluster, dir.file`size,
             dir.file`dirty
    modifies victim`startCluster, victim`contiguous, victim`fptrIndex, victim`fptrCluster, victim`size, victim`dirty
    ensures code == WayCode(old(IsDirectory(dir.kids[e].info.attrib)), old(IsDirectory(from.kids[i].info.attrib)),
                            if gone != null then old(gone.kids) else [])
    ensures dir.Valid() && from.Valid() && (up != null ==> up.Valid())
    ensures KeptOutside(old(dir.vol.Snapshot()), {dir.file, from.file, victim} + FileOf(up), dir.vol.Snapshot())
    ensures code != Trees.Ok ==>
              && dir.vol.Snapshot() == old(dir.vol.Snapshot())
              && dir.kids == old(dir.kids) && dir.files == old(dir.files)
              && from.kids == old(from.kids) && from.files == old(from.files)
              && (up != null ==> up.kids == old(up.kids) && up.files == old(up.files))
    ensures code == Trees.Ok ==>
              && victim.size == 0
              && TookPlace(old(from.kids), old(from.files), i, from == dir, old(dir.kids), old(dir.files), e, name,
                           hash, dir.kids, dir.files)
              && (from != dir && from != up ==>
                    && from.kids == Without(old(from.kids), i)
                    && from.files == old(from.files) - {Place(old(from.kids[i]))})
    ensures code == Trees.Ok && up != null ==>
              && Followed(old(up.kids), old(up.files), j, f, upKids, upFiles) && i < |old(from.kids)|
              && if from == up then i < |upKids| && up.kids == Without(upKids, i)
                                    && up.files == upFiles - {Place(old(from.kids[i]))}
                 else up.kids == upKids && up.files == upFiles
  {
    hide DirOk, DirFile, Volume.Snapshot, KeptOutside, Place, Without, Reusable, NameParts, Name, Followed, Consistent,
         IsDirectory, Good, Here, Placed, Buffer, SameName, EntriesOf, Renamed, StillThere, TookPlace;
    ghost var d, all := dir.vol.Snapshot(), {dir.file, from.file, victim} + FileOf(up);
    ghost var kids, files, from0, fromFiles0 := dir.kids, dir.files, from.kids, from.files;
    KidReady(d, dir.file, kids, files, e);
    code := ClearWay(up, j, from, i, dir, e, victim, gone, 2 + NameParts(name), now, accessed);
    ghost var d1 := dir.vol.Snapshot();
    KeptMore(d, {dir.file, victim} + FileOf(up), all, d1);
    f, upKids, upFiles := dir.file.Fields(), if up != null then up.kids else [], if up != null then up.files else map[];
    if code != Trees.Ok {
      return;
    }
    PutInPlace(up, from, i, dir, e, if from == dir then Moved(i, e) else i, name, hash, from0, fromFiles0, kids, files);
    KeptMore(d1, {from.file, dir.file}, all, dir.vol.Snapshot());
    KeptAgain(d, all, d1, dir.vol.Snapshot());
  }
}
