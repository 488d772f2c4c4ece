/** Truncation, writing and reading as one operation, and scripts of them on a mounted volume. */
module Calls {
  import opened Bitmap
  import opened Clusters
  import opened Content
  import opened FileSpec
  import opened Growth
  import opened Layout
  import opened Views
  import opened Runs
  import opened Volumes

  /** The command asks for no size beyond 2^32 - 1 clusters. */
  predicate Sized<K>(c: Command<K>, clusterSize: nat) {
    match c
    case Resize(_, size) => size <= MAX_COUNT * clusterSize
    case WriteAt(_, offset, b) => offset + |b| <= MAX_COUNT * clusterSize
    case ReadAt(_, _, _) => true
  }

  /** One command is one call. */
  method Call(vol: Volume, c: Command<Node>) returns (reply: Reply)
    requires vol.Valid() && c.k in vol.nodes && Sized(c, vol.clusterSize)
    modifies vol`fat, vol`heap, vol`mapDirty, vol.chunk
    modifies c.k`startCluster, c.k`contiguous, c.k`fptrIndex, c.k`fptrCluster, c.k`size, c.k`dirty
    ensures old(c.k in vol.Snapshot().files) && Called(old(vol.Snapshot()), c, reply, vol.Snapshot())
  {
    hide Consistent, Truncated, WriteOutcome, ReadOut, Volume.Snapshot;
    vol.SnapshotOf(c.k);
    match c {
      case Resize(k, size) =>
        Asked(vol.Snapshot(), k, size);
        var rc := vol.Truncate(k, size, true);
        return Done(rc == Ok);
      case WriteAt(k, offset, b) =>
        var n := vol.GenericPwrite(k, b, offset);
        return Count(n);
      case ReadAt(k, offset, size) =>
        ghost var d := vol.Snapshot();
        var buffer := new byte[size];
        assert vol.Snapshot() == d;
        var n := vol.GenericPread(k, buffer, size, offset);
        ReadLength(d, k, offset, size, n, vol.Snapshot(), buffer[..]);
        assert buffer[..n] + buffer[n..] == buffer[..];
        return Got(buffer[..n]);
    }
  }

  lemma Asked<K>(d: Disk<K>, k: K, size: nat)
    requires Consistent(d) && k in d.files
    ensures Resizable(d, k, size) && d.clusterSize > 0
  {
  }

  lemma ReadLength<K>(d: Disk<K>, k: K, offset: nat, size: nat, n: nat, d': Disk<K>, buffer: seq<byte>)
    requires Consistent(d) && k in d.files && exists buffer0 :: ReadOut(d, k, offset, size, buffer0, n, d', buffer)
    ensures n <= |buffer| && ReadOut(d, k, offset, size, buffer, n, d', buffer)
  {
    hide Consistent, ViewOf, ChainsKept;
  }

  /** Seen from outside: more than one cluster is free, or none, or the command takes none. */
  predicate Roomy<K>(v: View<K>, c: Command<K>)
    requires v.clusterSize > 0 && c.k in v.files
  {
    match c
    case Resize(k, size) => v.free != 1 || Cost(|v.files[k]|, size, v.clusterSize) <= 0
    case WriteAt(k, offset, b) => v.free != 1 || Cost(|v.files[k]|, Reach(|v.files[k]|, offset, b), v.clusterSize) <= 0
    case ReadAt(_, _, _) => true
  }

  predicate AllRoomy<K>(v: View<K>, cs: seq<Command<K>>)
    requires v.clusterSize > 0 && forall c :: c in cs ==> c.k in v.files
    decreases |cs|
  {
    cs == []
    || (Roomy(v, cs[0])
        && (PerformKeepsFiles(v, cs[0]); AllRoomy(Perform(v, cs[0]).0, cs[1..])))
  }

  /** The trap has one free cluster. */
  lemma RoomySafe<K>(d: Disk<K>, c: Command<K>)
    requires Consistent(d) && c.k in d.files && Roomy(ViewOf(d), c)
    ensures Safe(d, c)
  {
    hide FilesOk, OwnedUsed, Disjoint, NoLeak, Uniform, Cost, CountClear;
    if Trap(d.used, d.files[c.k], Layout.Count(d, c.k)) {
      TrapCount(d.used, d.files[c.k], Layout.Count(d, c.k));
    }
  }

  /** A script that always finds room, or asks for none, is answered as on plain byte sequences. */
  method CallAll(vol: Volume, cs: seq<Command<Node>>) returns (replies: seq<Reply>)
    requires vol.Valid() && forall c :: c in cs ==> c.k in vol.nodes && Sized(c, vol.clusterSize)
    requires AllRoomy(ViewOf(vol.Snapshot()), cs)
    modifies vol`fat, vol`heap, vol`mapDirty, vol.chunk, vol.nodes
    ensures vol.Valid()
    ensures Outcome(ViewOf(vol.Snapshot()), replies) == PerformAll(old(ViewOf(vol.Snapshot())), cs)
    decreases |cs|
  {
    hide Consistent, ViewOf, Perform, Called, Safe, Roomy, Volume.Snapshot;
    if cs == [] {
      return [];
    }
    ghost var d := vol.Snapshot();
    assert cs[0] in cs;
    vol.SnapshotOf(cs[0].k);
    RoomySafe(d, cs[0]);
    var reply := Call(vol, cs[0]);
    CalledPerforms(d, cs[0], reply, vol.Snapshot());
    forall c | c in cs[1..]
      ensures c.k in vol.nodes && Sized(c, vol.clusterSize)
    {
      assert c in cs;
    }
    var rest := CallAll(vol, cs[1..]);
    return [reply] + rest;
  }
}
