/** A directory's children in core against its entries on the disk. */
module Listed {
  import opened Clusters
  import opened Content
  import opened Entries
  import opened FileRecords
  import opened FileSpec
  import opened Layout
  import opened Positions
  import opened Scanning
  import opened Agreement
  import opened Upkeep
  import opened Utf
  import opened Views
  import opened Directories

  function Place(kid: Kid): nat {
    kid.offset / ENTRY_SIZE
  }

  /** The child is one of the files, where it says it is and under the name it says. */
  ghost predicate OneOf<K>(d: Disk<K>, k: K, kid: Kid, rs: Records) {
    && Here(d, k, kid.cluster, kid.offset) && Place(kid) in rs && SameName(kid.info.name, rs[Place(kid)].name)
  }

  /** The children are the files, each once. */
  ghost predicate Agrees<K>(d: Disk<K>, k: K, kids: seq<Kid>, rs: Records) {
    && (forall j :: 0 <= j < |kids| ==> OneOf(d, k, kids[j], rs))
    && (forall i, j :: 0 <= i < j < |kids| ==> Place(kids[i]) != Place(kids[j]))
    && (forall at :: at in rs ==> exists j :: 0 <= j < |kids| && Place(kids[j]) == at)
  }

  /** The directory on the disk is laid out properly and agrees with its children in core. */
  ghost predicate DirOk<K>(d: Disk<K>, k: K, kids: seq<Kid>, rs: Records) {
    DirFile(d, k) && Laid(EntriesOf(d, k), rs, d.clusterSize) && Agrees(d, k, kids, rs)
  }

  lemma DirOkFile<K>(d: Disk<K>, k: K, kids: seq<Kid>, rs: Records)
    requires DirOk(d, k, kids, rs)
    ensures DirFile(d, k) && Laid(EntriesOf(d, k), rs, d.clusterSize) && Agrees(d, k, kids, rs)
  {
  }

  /** Positions that stay where they are. */
  lemma AgreesStill<K>(d: Disk<K>, k: K, d': Disk<K>, kids: seq<Kid>, rs: Records)
    requires Agrees(d, k, kids, rs)
    requires forall j :: 0 <= j < |kids| ==> Here(d', k, kids[j].cluster, kids[j].offset)
    ensures Agrees(d', k, kids, rs)
  {
    hide Here;
    forall j | 0 <= j < |kids|
      ensures OneOf(d', k, kids[j], rs)
    {
      assert OneOf(d, k, kids[j], rs);
    }
  }

  // --- lengthening ---

  lemma DirOkEnlarged<K>(d: Disk<K>, k: K, d': Disk<K>, kids: seq<Kid>, rs: Records)
    requires DirOk(d, k, kids, rs) && Enlarged(d, k, d')
    ensures DirOk(d', k, kids, rs)
  {
    hide DirFile, Laid, EntriesOf, ChainsKept, Here;
    var es := EntriesOf(d, k);
    var more := EntriesOf(d', k)[|es|..];
    assert EntriesOf(d', k) == es + more;
    assert forall e :: e in more ==> Vacant(e);
    LaidGrown(es, rs, d.clusterSize, more);
    EntryCount(d, k);
    EntryCount(d', k);
    forall j | 0 <= j < |kids|
      ensures Here(d', k, kids[j].cluster, kids[j].offset)
    {
      assert OneOf(d, k, kids[j], rs);
      HereAligned(d, k, kids[j].cluster, kids[j].offset);
      HereAfter(d, k, d', kids[j].cluster, kids[j].offset);
    }
    AgreesStill(d, k, d', kids, rs);
  }

  // --- writing and deleting ---

  lemma AgreesContent<K>(d: Disk<K>, k: K, d': Disk<K>, kids: seq<Kid>, rs: Records)
    requires Agrees(d, k, kids, rs) && OnlyContent(d, k, d')
    ensures Agrees(d', k, kids, rs)
  {
    hide OnlyContent, Here;
    forall j | 0 <= j < |kids|
      ensures Here(d', k, kids[j].cluster, kids[j].offset)
    {
      assert OneOf(d, k, kids[j], rs);
      HereStill(d, k, d', kids[j].cluster, kids[j].offset);
    }
    AgreesStill(d, k, d', kids, rs);
  }

  /** A child in front of the others, and its file. */
  lemma AgreesMore<K>(d: Disk<K>, k: K, kids: seq<Kid>, rs: Records, kid: Kid, r: Record)
    requires Agrees(d, k, kids, rs) && Place(kid) !in rs
    requires Here(d, k, kid.cluster, kid.offset) && SameName(kid.info.name, r.name)
    ensures Agrees(d, k, [kid] + kids, rs[Place(kid) := r])
  {
    hide Here, SameName;
    var kids', rs' := [kid] + kids, rs[Place(kid) := r];
    forall j | 0 <= j < |kids'|
      ensures OneOf(d, k, kids'[j], rs')
    {
      if j > 0 {
        assert OneOf(d, k, kids[j - 1], rs);
      }
    }
    forall at | at in rs'
      ensures exists j :: 0 <= j < |kids'| && Place(kids'[j]) == at
    {
      if at == Place(kid) {
        assert kids'[0] == kid;
      } else {
        var j :| 0 <= j < |kids| && Place(kids[j]) == at;
        assert kids'[j + 1] == kids[j];
      }
    }
  }

  /** All children but the j-th. */
  function Without(kids: seq<Kid>, j: nat): (r: seq<Kid>)
    requires j < |kids|
    ensures |r| == |kids| - 1
    ensures forall i :: 0 <= i < |r| ==> r[i] == if i < j then kids[i] else kids[i + 1]
  {
    kids[..j] + kids[j + 1..]
  }

  lemma AgreesLess<K>(d: Disk<K>, k: K, kids: seq<Kid>, rs: Records, j: nat)
    requires Agrees(d, k, kids, rs) && j < |kids|
    ensures Agrees(d, k, Without(kids, j), rs - {Place(kids[j])})
  {
    hide OneOf, Place, Without;
    var kids', rs' := Without(kids, j), rs - {Place(kids[j])};
    forall i | 0 <= i < |kids'|
      ensures OneOf(d, k, kids'[i], rs')
    {
      WithoutAt(kids, j, i);
      var i0 := if i < j then i else i + 1;
      OneOfLess(d, k, kids[i0], rs, Place(kids[j]));
    }
    forall i, l | 0 <= i < l < |kids'|
      ensures Place(kids'[i]) != Place(kids'[l])
    {
      WithoutAt(kids, j, i);
      WithoutAt(kids, j, l);
    }
    forall at | at in rs'
      ensures exists i :: 0 <= i < |kids'| && Place(kids'[i]) == at
    {
      var i :| 0 <= i < |kids| && Place(kids[i]) == at;
      WithoutAt(kids, j, if i < j then i else i - 1);
      assert Place(kids'[if i < j then i else i - 1]) == at;
    }
  }

  lemma WithoutAt(kids: seq<Kid>, j: nat, i: nat)
    requires j < |kids| && i < |kids| - 1
    ensures |Without(kids, j)| == |kids| - 1 && Without(kids, j)[i] == kids[if i < j then i else i + 1]
  {
  }

  lemma OneOfLess<K>(d: Disk<K>, k: K, kid: Kid, rs: Records, at: nat)
    requires OneOf(d, k, kid, rs) && Place(kid) != at
    ensures OneOf(d, k, kid, rs - {at})
  {
  }

  lemma AgreesRewritten<K>(d: Disk<K>, k: K, kids: seq<Kid>, rs: Records, at: nat, r: Record)
    requires Agrees(d, k, kids, rs) && at in rs && r.name == rs[at].name
    ensures Agrees(d, k, kids, rs[at := r])
  {
    hide Here, SameName, Place;
    forall j | 0 <= j < |kids|
      ensures OneOf(d, k, kids[j], rs[at := r])
    {
      assert OneOf(d, k, kids[j], rs);
    }
  }

  /** A new file's entries written over vacant ones, and the file taken among the children. */
  lemma DirOkWritten<K>(d: Disk<K>, k: K, d': Disk<K>, kids: seq<Kid>, rs: Records, kid: Kid, r: Record)
    requires DirOk(d, k, kids, rs) && Good(r, d.clusterSize)
    requires Here(d, k, kid.cluster, kid.offset) && SameName(kid.info.name, r.name)
    requires VacantRun(EntriesOf(d, k), Place(kid), Place(kid) + Length(r))
    requires PutSome(d, k, Place(kid), EntrySet(r), d')
    ensures DirOk(d', k, [kid] + kids, rs[Place(kid) := r])
  {
    DirOkFile(d, k, kids, rs);
    hide DirFile, Laid, EntriesOf, Here, Agrees, SameName, EntrySet, OnlyContent;
    LaidWritten(EntriesOf(d, k), rs, d.clusterSize, Place(kid), r);
    PutSomeDirs(d, k, Place(kid), EntrySet(r), d');
    SameSize(d, k, d');
    AgreesContent(d, k, d', kids, rs);
    HereStill(d, k, d', kid.cluster, kid.offset);
    AgreesMore(d', k, kids, rs, kid, r);
  }

  lemma SameSize<K>(d: Disk<K>, k: K, d': Disk<K>)
    requires OnlyContent(d, k, d')
    ensures d'.clusterSize == d.clusterSize
  {
  }

  /** A file's entries deleted, and the file taken from the children. */
  lemma DirOkErased<K>(d: Disk<K>, k: K, d': Disk<K>, kids: seq<Kid>, rs: Records, j: nat)
    requires DirOk(d, k, kids, rs) && j < |kids|
    requires Place(kids[j]) in rs && Buffer(rs[Place(kids[j])].name)
    requires ErasedSome(d, k, Place(kids[j]), Length(rs[Place(kids[j])]), d')
    ensures DirOk(d', k, Without(kids, j), rs - {Place(kids[j])})
  {
    DirOkFile(d, k, kids, rs);
    hide DirFile, Laid, EntriesOf, Here, Agrees, SameName, EntrySet, OnlyContent, Unlisted;
    var at := Place(kids[j]);
    LaidErased(EntriesOf(d, k), rs, d.clusterSize, at);
    ErasedSomeDirs(d, k, at, Length(rs[at]), d');
    SameSize(d, k, d');
    AgreesContent(d, k, d', kids, rs);
    AgreesLess(d', k, kids, rs, j);
  }

  /** A file's entries rewritten under the same name. */
  lemma DirOkRewritten<K>(d: Disk<K>, k: K, d': Disk<K>, kids: seq<Kid>, rs: Records, at: nat, r: Record)
    requires DirOk(d, k, kids, rs) && at in rs && Good(r, d.clusterSize) && r.name == rs[at].name
    requires PutSome(d, k, at, EntrySet(r), d')
    ensures DirOk(d', k, kids, rs[at := r])
  {
    DirOkFile(d, k, kids, rs);
    LaidPlaced(EntriesOf(d, k), rs, d.clusterSize, at);
    GoodName(r, d.clusterSize);
    hide DirFile, Laid, EntriesOf, Agrees, SameName, EntrySet, OnlyContent, Good, Placed, Put, NameParts;
    SameLength(r, rs[at]);
    LaidRewritten(EntriesOf(d, k), rs, d.clusterSize, at, r);
    PutSomeDirs(d, k, at, EntrySet(r), d');
    SameSize(d, k, d');
    AgreesContent(d, k, d', kids, rs);
    AgreesRewritten(d', k, kids, rs, at, r);
  }

  lemma SameLength(r: Record, r': Record)
    requires Buffer(r.name) && r'.name == r.name
    ensures Length(r') == Length(r)
  {
  }

  // --- other directories ---

  /** Nothing about any file but `k` is different. */
  ghost predicate OthersKept<K>(d: Disk<K>, k: K, d': Disk<K>) {
    && Consistent(d) && Consistent(d') && d'.clusterSize == d.clusterSize
    && d'.files.Keys == d.files.Keys
    && forall other :: other in d.files && other != k ==>
         d'.files[other] == d.files[other] && ChainOf(d', other) == ChainOf(d, other)
         && Layout.Bytes(d', other) == Layout.Bytes(d, other)
  }

  /** Nothing about any file but those in `ks` is different. */
  ghost predicate KeptOutside<K>(d: Disk<K>, ks: set<K>, d': Disk<K>) {
    && Consistent(d) && Consistent(d') && d'.clusterSize == d.clusterSize && d'.files.Keys == d.files.Keys
    && forall other :: other in d.files && other !in ks ==>
         d'.files[other] == d.files[other] && ChainOf(d', other) == ChainOf(d, other)
         && Layout.Bytes(d', other) == Layout.Bytes(d, other)
  }

  lemma KeptOne<K>(d: Disk<K>, k: K, ks: set<K>, d': Disk<K>)
    requires OthersKept(d, k, d') && k in ks
    ensures KeptOutside(d, ks, d')
  {
    hide Consistent, Layout.Bytes, ChainOf;
  }

  lemma KeptNone<K>(d: Disk<K>, ks: set<K>)
    requires Consistent(d)
    ensures KeptOutside(d, ks, d)
  {
    hide Consistent, Layout.Bytes, ChainOf;
    ConsistentSize(d);
  }

  lemma ConsistentSize<K>(d: Disk<K>)
    requires Consistent(d)
    ensures d.clusterSize > 0
  {
  }

  lemma KeptThen<K>(d: Disk<K>, ks: set<K>, d1: Disk<K>, ls: set<K>, d2: Disk<K>)
    requires KeptOutside(d, ks, d1) && KeptOutside(d1, ls, d2)
    ensures KeptOutside(d, ks + ls, d2)
  {
    hide Consistent, Layout.Bytes, ChainOf;
  }

  lemma KeptMore<K>(d: Disk<K>, ks: set<K>, ls: set<K>, d': Disk<K>)
    requires KeptOutside(d, ks, d') && ks <= ls
    ensures KeptOutside(d, ls, d')
  {
    hide Consistent, Layout.Bytes, ChainOf;
  }

  lemma KeptAgain<K>(d: Disk<K>, ks: set<K>, d1: Disk<K>, d2: Disk<K>)
    requires KeptOutside(d, ks, d1) && KeptOutside(d1, ks, d2)
    ensures KeptOutside(d, ks, d2)
  {
    hide KeptOutside;
    KeptThen(d, ks, d1, ks, d2);
    assert ks + ks == ks;
  }

  /** A directory that is not among the files that have changed is as it was. */
  lemma DirOkOutside<K>(d: Disk<K>, ks: set<K>, d': Disk<K>, other: K, kids: seq<Kid>, rs: Records)
    requires KeptOutside(d, ks, d') && other !in ks && DirOk(d, other, kids, rs)
    ensures DirOk(d', other, kids, rs)
  {
    hide Consistent, Laid, Layout.Bytes, ChainOf, Block, Slots;
    EntriesOutside(d, ks, d', other);
    forall j | 0 <= j < |kids|
      ensures Here(d', other, kids[j].cluster, kids[j].offset)
    {
      assert OneOf(d, other, kids[j], rs);
    }
    AgreesStill(d, other, d', kids, rs);
  }

  lemma EntriesOutside<K>(d: Disk<K>, ks: set<K>, d': Disk<K>, other: K)
    requires KeptOutside(d, ks, d') && other !in ks && DirFile(d, other)
    ensures DirFile(d', other) && EntriesOf(d', other) == EntriesOf(d, other)
  {
    hide Consistent, Layout.Bytes, ChainOf, Block, Slots;
    WholeEntries(d, other);
    WholeEntries(d', other);
  }

  lemma DirOkElsewhere<K>(d: Disk<K>, k: K, d': Disk<K>, other: K, kids: seq<Kid>, rs: Records)
    requires OthersKept(d, k, d') && other != k && DirOk(d, other, kids, rs)
    ensures DirOk(d', other, kids, rs)
  {
    hide OthersKept, KeptOutside, DirOk;
    KeptOne(d, k, {k}, d');
    DirOkOutside(d, {k}, d', other, kids, rs);
  }

  lemma OthersContent<K>(d: Disk<K>, k: K, d': Disk<K>)
    requires OnlyContent(d, k, d')
    ensures OthersKept(d, k, d')
  {
    hide Consistent, Layout.Bytes;
    SameChains(d, d'.heap);
    OthersView(d, k, d');
  }

  lemma OthersView<K>(d: Disk<K>, k: K, d': Disk<K>)
    requires Consistent(d) && Consistent(d') && k in d.files && k in d'.files && d'.files.Keys == d.files.Keys
    requires ViewOf(d').files == ViewOf(d).files[k := Layout.Bytes(d', k)]
    ensures forall other :: other in d.files && other != k ==> Layout.Bytes(d', other) == Layout.Bytes(d, other)
  {
    hide Layout.Bytes;
    forall other | other in d.files && other != k
      ensures Layout.Bytes(d', other) == Layout.Bytes(d, other)
    {
      BytesIn(d, other);
      BytesIn(d', other);
      assert ViewOf(d').files[other] == ViewOf(d).files[k := Layout.Bytes(d', k)][other];
    }
  }

  lemma OthersEnlarged<K>(d: Disk<K>, k: K, d': Disk<K>)
    requires DirFile(d, k) && Enlarged(d, k, d')
    ensures OthersKept(d, k, d')
  {
    hide Layout.Bytes, ChainOf, Geometry, FilesOk, OwnedUsed, Disjoint, NoLeak;
    OthersView(d, k, d');
  }

  lemma OthersTwice<K>(d: Disk<K>, k: K, d1: Disk<K>, d2: Disk<K>)
    requires OthersKept(d, k, d1) && OthersKept(d1, k, d2)
    ensures OthersKept(d, k, d2)
  {
    hide Consistent, Layout.Bytes, ChainOf;
  }

  lemma OthersNone<K>(d: Disk<K>, k: K)
    requires Consistent(d)
    ensures OthersKept(d, k, d)
  {
  }
}
