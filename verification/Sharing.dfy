/** Files and directories on one volume: work on files leaves every directory readable. */
module Sharing {
  import opened Content
  import opened Layout
  import opened Growth
  import opened FileSpec
  import opened Views
  import opened Runs
  import opened Listed
  import opened Directories
  import opened Positions
  import opened Agreement
  import opened CachedDirectory

  /** One call on a file changes nothing about any other file. */
  lemma CalledOthers<K>(d: Disk<K>, c: Command<K>, reply: Reply, d': Disk<K>)
    requires Consistent(d) && c.k in d.files && Safe(d, c) && Called(d, c, reply, d')
    ensures OthersKept(d, c.k, d')
  {
    CalledPerforms(d, c, reply, d');
    CalledChains(d, c, reply, d');
    PerformedFiles(ViewOf(d), c);
    BytesIn(d', c.k);
    hide Called, Safe, Perform, Layout.Bytes, ViewOf, Consistent, ChainsKept;
    OthersOf(d, c.k, d');
  }

  lemma OthersOf<K>(d: Disk<K>, k: K, d': Disk<K>)
    requires Consistent(d) && Consistent(d') && k in d.files && k in d'.files && ChainsKept(d, k, d')
    requires ViewOf(d').files == ViewOf(d).files[k := Layout.Bytes(d', k)]
    ensures OthersKept(d, k, d')
  {
    hide Layout.Bytes, ChainOf, Geometry, FilesOk, OwnedUsed, Disjoint, NoLeak;
    OthersView(d, k, d');
  }

  lemma CalledChains<K>(d: Disk<K>, c: Command<K>, reply: Reply, d': Disk<K>)
    requires Consistent(d) && c.k in d.files && Called(d, c, reply, d') && Consistent(d')
    ensures ChainsKept(d, c.k, d')
  {
    hide Consistent, ViewOf, ChainsKept, Springs, Truncates, Leaky, Sprung;
  }

  lemma PerformedFiles<K>(v: View<K>, c: Command<K>)
    requires v.clusterSize > 0 && c.k in v.files
    ensures var v' := Perform(v, c).0;
            c.k in v'.files && v'.files == v.files[c.k := v'.files[c.k]]
  {
    assert v.files[c.k := v.files[c.k]] == v.files;
  }

  /** Any run of calls on other files keeps a directory as it is laid out, and its children in core true to it. */
  lemma {:induction false} DirectoryOutlives<K>(trace: seq<Disk<K>>, cs: seq<Command<K>>, replies: seq<Reply>, k: K,
                                                kids: seq<Kid>, rs: Records)
    requires |trace| == |cs| + 1 && |replies| == |cs| && Answered(trace, cs, replies) && Unsprung(trace, cs)
    requires Consistent(trace[0]) && forall c :: c in cs ==> c.k in trace[0].files && c.k != k
    requires DirOk(trace[0], k, kids, rs)
    ensures DirOk(trace[|cs|], k, kids, rs)
    decreases |cs|
  {
    hide FilesOk, OwnedUsed, Disjoint, NoLeak, Uniform, ViewOf, Called, Safe, DirOk, ChainOf, Layout.Bytes;
    if cs != [] {
      assert cs[0] in cs;
      CalledOthers(trace[0], cs[0], replies[0], trace[1]);
      DirOkElsewhere(trace[0], cs[0].k, trace[1], k, kids, rs);
      forall c | c in cs[1..]
        ensures c.k in trace[1].files && c.k != k
      {
        assert c in cs;
      }
      DirectoryOutlives(trace[1..], cs[1..], replies[1..], k, kids, rs);
    }
  }
}
