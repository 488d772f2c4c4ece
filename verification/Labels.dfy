/** What a deletion does to the entries of a directory that are no file's: in the root, those of the volume. */
module Labels {
  import opened Clusters
  import opened Content
  import opened Entries
  import opened FileRecords
  import opened Layout
  import opened Positions
  import opened Scanning
  import opened Agreement
  import opened Upkeep
  import opened Utf
  import opened Directories
  import opened Listed
  import opened Shrinking
  import opened CachedDirectory

  /** Deleting a child leaves an entry that was not the child's if and only if it ends within the size that the other
      children decide. */
  lemma DeletionSurvived<K>(d: Disk<K>, k: K, kids: seq<Kid>, j: nat, d': Disk<K>, i: nat)
    requires KidDeleted(d, k, kids, j, d') && i < |EntriesOf(d, k)| && !(Place(kids[j]) <= i < EndOf(kids[j]))
    ensures (i < |EntriesOf(d', k)| && EntriesOf(d', k)[i] == EntriesOf(d, k)[i])
            <==> ENTRY_SIZE * (i + 1) <= CutSize(Without(kids, j), kids[j].offset, d.files[k].size, d.clusterSize)
  {
    EntryCount(d, k);
    EntryCount(d', k);
    hide DirFile, EntriesOf, CutSize, Named, Without, NameParts;
  }

  // --- a root directory whose label lies behind its last file ---

  function LabelSlot(): Slot {
    [LABEL] + Zeros(31)
  }

  /** The name "a". */
  function Letter(): (name: seq<unit>)
    ensures Buffer(name) && Name(name) == [97] && NameParts(name) == 1
  {
    var name := [97] + seq(NAME_MAX, _ => 0);
    assert name[1..][0] == 0;
    assert Name(name[1..]) == [];
    name
  }

  function LetterFile(): Record {
    NewRecord(Letter(), 0x20, StoredTime(0, 0, 0), 0)
  }

  function FileCluster(): (b: seq<byte>)
    ensures |b| == 512
  {
    var r := LetterFile();
    r.meta1 + r.meta2 + NameSlot(r.name[..ENAME_MAX]) + Zeros(416)
  }

  /** Two clusters, both the root's: the file's three entries at the start of the first, the label at the start of the
      second. */
  function Labelled(): Disk<int> {
    Disk(512, 2, {}, [0, 0, 0, 0, 0, 0], [true, true],
         [FileCluster(), LabelSlot() + Zeros(480), Zeros(512), Zeros(512)], map[0 := File(2, true, 1024, 0, 2)])
  }

  function OnlyChild(): Kid {
    Kid(2, 0, Info(0x20, 0, FREE, false, Letter()))
  }

  lemma LabelledConsistent()
    ensures Consistent(Labelled()) && ChainOf(Labelled(), 0) == [2, 3] && DirFile(Labelled(), 0)
  {
    hide FileCluster, LabelSlot;
    var d := Labelled();
    assert ClustersFor(1024, 512) == 2;
    assert Nth(d.fat, true, 2, 1) == 3;
    assert ChainOf(d, 0) == [2, 3];
    assert FileOk(d.fat, d.size, d.files[0], 2);
    assert forall c: u32 :: IsUsed(d, c) ==> c == 2 || c == 3;
    assert Owns(d, 0, 2) && Owns(d, 0, 3);
  }

  /** The entries of that directory, by cluster. */
  lemma LabelledEntry(i: nat)
    requires i < 32
    ensures DirFile(Labelled(), 0) && |EntriesOf(Labelled(), 0)| == 32
    ensures EntriesOf(Labelled(), 0)[i]
            == if i < 16 then FileCluster()[32 * i..32 * i + 32]
               else (LabelSlot() + Zeros(480))[32 * i - 512..32 * i - 480]
  {
    LabelledConsistent();
    hide Consistent, EntriesOf, ChainOf, FileCluster, LabelSlot;
    var d, cluster := Labelled(), if i < 16 then 2 else 3;
    EntryCount(d, 0);
    BlockOf512(i);
    assert Here(d, 0, cluster, 32 * i);
    EntryHere(d, 0, cluster, 32 * i);
  }

  lemma BlockOf512(i: nat)
    requires i < 32
    ensures Block(32 * i, 512) == (if i < 16 then 0 else 1) && Within(32 * i, 512) == 32 * i - 512 * Block(32 * i, 512)
  {
  }

  lemma FileEntries(i: nat)
    requires i < 16
    ensures FileCluster()[32 * i..32 * i + 32] == if i < 3 then EntrySet(LetterFile())[i] else Zeros(32)
  {
    var r := LetterFile();
    hide NewMeta1, NewMeta2, Summed, NameSlot;
    assert r.name == Letter();
    var names := NameSlots(r.name, 1);
    assert names[0] == NameSlot(r.name[..ENAME_MAX]);
    var b := FileCluster();
    assert i == 0 ==> b[0..32] == r.meta1;
    assert i == 1 ==> b[32..64] == r.meta2;
    assert i == 2 ==> b[64..96] == names[0];
    assert i >= 3 ==> b[32 * i..32 * i + 32] == Zeros(32);
  }

  lemma LetterGood()
    ensures Good(LetterFile(), 512) && LetterFile().name == Letter() && Length(LetterFile()) == 3
  {
    NewGood(Letter(), 0x20, StoredTime(0, 0, 0), 0, 512);
    hide Good, NewMeta1, NewMeta2, Summed;
  }

  lemma LabelledEntries(i: nat)
    requires i < 32
    ensures DirFile(Labelled(), 0) && |EntriesOf(Labelled(), 0)| == 32 && |EntrySet(LetterFile())| == 3
    ensures i < 3 ==> EntriesOf(Labelled(), 0)[i] == EntrySet(LetterFile())[i]
    ensures i >= 3 ==> Quiet(EntriesOf(Labelled(), 0)[i])
  {
    LetterGood();
    LabelledEntry(i);
    hide DirFile, EntriesOf, EntrySet, LetterFile, FileCluster, LabelSlot, Labelled, Good;
    if i < 16 {
      FileEntries(i);
    } else {
      LabelEntries(i);
    }
  }

  lemma LabelledLaid()
    ensures DirFile(Labelled(), 0) && Laid(EntriesOf(Labelled(), 0), map[0 := LetterFile()], 512)
  {
    LabelledEntry(0);
    LetterGood();
    LabelledStart();
    hide DirFile, EntriesOf, EntrySet, LetterFile, Labelled, Good, Quiet, NameParts;
    var es := EntriesOf(Labelled(), 0);
    forall i: nat | 3 <= i < 32
      ensures Quiet(es[i])
    {
      LabelledEntries(i);
    }
    LaidOne(es, LetterFile(), 512);
  }

  lemma LabelledStart()
    ensures DirFile(Labelled(), 0) && |EntriesOf(Labelled(), 0)| == 32
    ensures EntriesOf(Labelled(), 0)[..3] == EntrySet(LetterFile())
  {
    LabelledEntries(0);
    LabelledEntries(1);
    LabelledEntries(2);
    hide DirFile, EntriesOf, EntrySet, LetterFile, Labelled;
    FirstThree(EntriesOf(Labelled(), 0), EntrySet(LetterFile()));
  }

  lemma FirstThree(es: seq<Slot>, fs: seq<Slot>)
    requires |es| >= |fs| == 3 && es[0] == fs[0] && es[1] == fs[1] && es[2] == fs[2]
    ensures es[..3] == fs
  {
  }

  /** The directory is in order: one file, and after it nothing but entries of no file. */
  lemma LabelledOk()
    ensures DirOk(Labelled(), 0, [OnlyChild()], map[0 := LetterFile()])
  {
    LabelledConsistent();
    LabelledLaid();
    LetterGood();
    hide Consistent, EntriesOf, ChainOf, LetterFile, FileCluster, LabelSlot, Good, Laid, Letter, SameName;
    StartHere(Labelled(), 0);
    SameNameSelf(Letter());
    AgreesMore(Labelled(), 0, [], map[], OnlyChild(), LetterFile());
    assert [OnlyChild()] + [] == [OnlyChild()] && map[][0 := LetterFile()] == map[0 := LetterFile()];
  }

  lemma LabelEntries(i: nat)
    requires 16 <= i < 32
    ensures Quiet((LabelSlot() + Zeros(480))[32 * i - 512..32 * i - 480])
    ensures (LabelSlot() + Zeros(480))[0..32] == LabelSlot()
  {
  }

  lemma LaidOne(es: seq<Slot>, r: Record, clusterSize: nat)
    requires clusterSize > 0 && Good(r, clusterSize) && Length(r) <= |es| && es[..Length(r)] == EntrySet(r)
    requires forall i :: Length(r) <= i < |es| ==> Quiet(es[i])
    ensures Laid(es, map[0 := r], clusterSize)
  {
    hide Good, EntrySet, Quiet, NameParts;
    GoodName(r, clusterSize);
    var rs := map[0 := r];
    forall k: nat | 0 <= k < |es| && !Inside(rs, k)
      ensures Quiet(es[k])
    {
      OutsideRecord(rs, 0, k);
    }
  }

  /** A directory loses all but its first cluster with its only child. */
  lemma LastChildDeleted<K>(d: Disk<K>, k: K, kid: Kid, d': Disk<K>)
    requires KidDeleted(d, k, [kid], 0, d')
    ensures DirFile(d', k) && ENTRY_SIZE * |EntriesOf(d', k)| == d.clusterSize
  {
    assert Without([kid], 0) == [];
    EntryCount(d', k);
    hide DirFile, EntriesOf, NameParts;
  }

  /** Deleting that file cuts the directory to one cluster, and the label with it. */
  lemma LabelLost()
    ensures DirOk(Labelled(), 0, [OnlyChild()], map[0 := LetterFile()])
    ensures DirFile(Labelled(), 0) && |EntriesOf(Labelled(), 0)| == 32 && EntriesOf(Labelled(), 0)[16] == LabelSlot()
    ensures forall d' :: KidDeleted(Labelled(), 0, [OnlyChild()], 0, d') ==> DirFile(d', 0) && |EntriesOf(d', 0)| == 16
  {
    hide DirFile, DirOk, EntriesOf, FileCluster, LabelSlot, LetterFile;
    LabelledOk();
    LabelledEntry(16);
    LabelEntries(16);
    forall d' | KidDeleted(Labelled(), 0, [OnlyChild()], 0, d')
      ensures DirFile(d', 0) && |EntriesOf(d', 0)| == 16
    {
      LabelCut(d');
    }
  }

  lemma LabelCut(d': Disk<int>)
    requires KidDeleted(Labelled(), 0, [OnlyChild()], 0, d')
    ensures DirFile(d', 0) && |EntriesOf(d', 0)| == 16
  {
    var d, kid := Labelled(), OnlyChild();
    LastChildDeleted(d, 0, kid, d');
    hide KidDeleted, DirFile, EntriesOf;
  }
}
