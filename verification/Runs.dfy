/** Whole runs of operations on any number of files. */
module Runs {
  import opened Bitmap
  import opened Clusters
  import opened Content
  import opened Layout
  import opened Growth
  import opened FileSpec
  import opened Views

  datatype Command<K> =
    | Resize(k: K, size: nat)
    | WriteAt(k: K, offset: nat, b: seq<byte>)
    | ReadAt(k: K, offset: nat, size: nat)

  datatype Reply = Done(ok: bool) | Count(n: int) | Got(b: seq<byte>)

  datatype Outcome<K> = Outcome(view: View<K>, replies: seq<Reply>)

  /** One command on the outside view. */
  function Perform<K>(v: View<K>, c: Command<K>): (View<K>, Reply)
    requires v.clusterSize > 0 && c.k in v.files
  {
    match c
    case Resize(k, size) =>
      var cost := Cost(|v.files[k]|, size, v.clusterSize);
      if cost > v.free then (v, Done(false))
      else (v.(free := v.free - cost, files := v.files[k := Resized(v.files[k], size)]), Done(true))
    case WriteAt(k, offset, b) =>
      var r := Written(v, k, offset, b);
      (r.view, Count(if r.ok then |b| else -1))
    case ReadAt(k, offset, size) =>
      (v, Got(Slice(v.files[k], offset, size)))
  }

  lemma PerformKeepsFiles<K>(v: View<K>, c: Command<K>)
    requires v.clusterSize > 0 && c.k in v.files
    ensures var v' := Perform(v, c).0;
            v'.clusterSize == v.clusterSize && v'.files.Keys == v.files.Keys
  {
  }

  /** A whole script on the outside view: nothing but byte sequences and a number. */
  function PerformAll<K>(v: View<K>, cs: seq<Command<K>>): Outcome<K>
    requires v.clusterSize > 0 && forall c :: c in cs ==> c.k in v.files
    decreases |cs|
  {
    if cs == [] then Outcome(v, [])
    else
      PerformKeepsFiles(v, cs[0]);
      var (v', reply) := Perform(v, cs[0]);
      var rest := PerformAll(v', cs[1..]);
      Outcome(rest.view, [reply] + rest.replies)
  }

  /** The command does not spring the trap of cluster.c:288. */
  ghost predicate Safe<K>(d: Disk<K>, c: Command<K>)
    requires d.clusterSize > 0 && c.k in d.files
  {
    match c
    case Resize(k, size) => !Springs(d, k, size)
    case WriteAt(k, offset, b) => !Springs(d, k, Reach(d.files[k].size, offset, b))
    case ReadAt(_, _, _) => true
  }

  /** What Truncate, GenericPwrite and GenericPread promise of one call. */
  ghost predicate Called<K>(d: Disk<K>, c: Command<K>, reply: Reply, d': Disk<K>)
    requires Consistent(d) && c.k in d.files
  {
    match c
    case Resize(k, size) => reply.Done? && Truncated(d, k, size, true, reply.ok, d')
    case WriteAt(k, offset, b) => reply.Count? && WriteOutcome(d, k, offset, b, reply.n, d')
    case ReadAt(k, offset, size) =>
      reply.Got? && exists tail :: ReadOut(d, k, offset, size, reply.b + tail, |reply.b|, d', reply.b + tail)
  }

  /** One call keeps the invariant exactly when it does not spring the trap, and then refines one step on byte
      sequences. */
  lemma CalledPerforms<K>(d: Disk<K>, c: Command<K>, reply: Reply, d': Disk<K>)
    requires Consistent(d) && c.k in d.files && Called(d, c, reply, d')
    ensures Consistent(d') <==> Safe(d, c)
    ensures Safe(d, c) ==> (ViewOf(d'), reply) == Perform(ViewOf(d), c) && d'.files.Keys == d.files.Keys
  {
    hide CountClear, Bytes, FilesOk, OwnedUsed, Disjoint, NoLeak, Uniform, Springs, Trap, ChainsKept, Leaky, Sprung;
    if Safe(d, c) {
      match c {
        case Resize(k, size) =>
          var v, v' := ViewOf(d), ViewOf(d');
          assert |v.files[k]| == d.files[k].size;
        case WriteAt(k, offset, b) =>
        case ReadAt(k, offset, size) =>
          var slice := Slice(ViewOf(d).files[k], offset, size);
          var tail :| ReadOut(d, k, offset, size, reply.b + tail, |reply.b|, d', reply.b + tail);
          assert (reply.b + tail)[..|slice|] == slice && (reply.b + tail)[..|reply.b|] == reply.b;
      }
      assert ViewOf(d').files.Keys == ViewOf(d).files.Keys by { PerformKeepsFiles(ViewOf(d), c); }
      assert d'.files.Keys == ViewOf(d').files.Keys;
    }
  }

  /** Every call made on a consistent volume has done what is promised of it. */
  ghost predicate Answered<K>(trace: seq<Disk<K>>, cs: seq<Command<K>>, replies: seq<Reply>)
    requires |trace| == |cs| + 1 && |replies| == |cs|
    decreases |cs|
  {
    cs == []
    || (&& (Consistent(trace[0]) && cs[0].k in trace[0].files ==> Called(trace[0], cs[0], replies[0], trace[1]))
        && Answered(trace[1..], cs[1..], replies[1..]))
  }

  /** No call made on a consistent volume springs the trap. */
  ghost predicate Unsprung<K>(trace: seq<Disk<K>>, cs: seq<Command<K>>)
    requires |trace| == |cs| + 1
    decreases |cs|
  {
    cs == []
    || (&& (Consistent(trace[0]) && cs[0].k in trace[0].files ==> Safe(trace[0], cs[0]))
        && Unsprung(trace[1..], cs[1..]))
  }

  ghost predicate AllConsistent<K>(trace: seq<Disk<K>>) {
    forall i :: 0 <= i < |trace| ==> Consistent(trace[i])
  }

  lemma ConsistentTail<K>(trace: seq<Disk<K>>)
    requires trace != []
    ensures AllConsistent(trace) <==> Consistent(trace[0]) && AllConsistent(trace[1..])
  {
    hide Consistent;
    if Consistent(trace[0]) && AllConsistent(trace[1..]) {
      forall i | 0 <= i < |trace|
        ensures Consistent(trace[i])
      {
        assert i > 0 ==> trace[1..][i - 1] == trace[i];
      }
    }
    assert forall i :: 0 <= i < |trace| - 1 ==> trace[1..][i] == trace[i + 1];
  }

  /** Over any run of calls on any number of files, the invariant holds after every call exactly when none of them
      springs the trap, and then the volume answers and looks exactly as the byte sequences do. */
  lemma {:induction false} WholeRun<K>(trace: seq<Disk<K>>, cs: seq<Command<K>>, replies: seq<Reply>)
    requires |trace| == |cs| + 1 && |replies| == |cs| && Answered(trace, cs, replies)
    requires Consistent(trace[0]) && forall c :: c in cs ==> c.k in trace[0].files
    ensures AllConsistent(trace) <==> Unsprung(trace, cs)
    ensures AllConsistent(trace) ==> Outcome(ViewOf(trace[|cs|]), replies) == PerformAll(ViewOf(trace[0]), cs)
    decreases |cs|
  {
    hide FilesOk, OwnedUsed, Disjoint, NoLeak, Uniform, ViewOf, Perform, Called, Safe, AllConsistent;
    ConsistentTail(trace);
    if cs == [] {
      NoneInconsistent(trace[1..]);
    } else {
      assert cs[0] in cs;
      CalledPerforms(trace[0], cs[0], replies[0], trace[1]);
      ConsistentTail(trace[1..]);
      if Safe(trace[0], cs[0]) {
        forall c | c in cs[1..]
          ensures c.k in trace[1].files
        {
          assert c in cs;
        }
        WholeRun(trace[1..], cs[1..], replies[1..]);
      }
    }
  }

  lemma NoneInconsistent<K>(trace: seq<Disk<K>>)
    requires trace == []
    ensures AllConsistent(trace)
  {
  }

  /** The invariant in plain words. */
  lemma InvariantMeans<K>(d: Disk<K>)
    requires Consistent(d)
    ensures forall k :: k in d.files ==>
              && |ChainOf(d, k)| == ClustersFor(d.files[k].size, d.clusterSize)
              && (d.files[k].start == FREE <==> d.files[k].size == 0)
              && forall i, j :: 0 <= i < j < |ChainOf(d, k)| ==> ChainOf(d, k)[i] != ChainOf(d, k)[j]
    ensures forall k, k' :: k in d.files && k' in d.files && k != k' ==>
              forall c :: c in ChainOf(d, k) ==> c !in ChainOf(d, k')
    ensures forall c: u32 :: InMap(c, d.size) ==>
              (d.used[c - FIRST_DATA] <==> c in d.reserved || exists k :: k in d.files && c in ChainOf(d, k))
  {
    hide Chain, Nth, CursorOk, ClustersFor, Uniform;
    forall k | k in d.files
      ensures FileOk(d.fat, d.size, d.files[k], Layout.Count(d, k))
      ensures d.files[k].size == 0 <==> Layout.Count(d, k) == 0
    {
      ClustersForBounds(d.files[k].size, d.clusterSize);
    }
    forall k, k' | k in d.files && k' in d.files && k != k'
      ensures forall c :: c in ChainOf(d, k) ==> c !in ChainOf(d, k')
    {
      forall c | c in ChainOf(d, k)
        ensures c !in ChainOf(d, k')
      {
        assert Owns(d, k, c);
        assert !Owns(d, k', c);
      }
    }
    forall c: u32 | InMap(c, d.size)
      ensures d.used[c - FIRST_DATA] <==> c in d.reserved || exists k :: k in d.files && c in ChainOf(d, k)
    {
      assert IsUsed(d, c) ==> c in d.reserved || exists k :: k in d.files && Owns(d, k, c);
      if k :| k in d.files && c in ChainOf(d, k) {
        assert Owns(d, k, c);
      }
    }
  }

  /** A file's chain and cursor are sound, in numbers. */
  ghost predicate SoundFile<K>(d: Disk<K>, k: K)
    requires d.clusterSize > 0 && k in d.files
  {
    var f, chain := d.files[k], ChainOf(d, k);
    && (f.start == 0 <==> f.size == 0)
    && (forall i :: 0 <= i < |chain| ==> 2 <= chain[i] < d.size + 2)
    && (forall i, j :: 0 <= i < j < |chain| ==> chain[i] != chain[j])
    && (|chain| > 0 && !f.contiguous ==>
          chain[|chain| - 1] < |d.fat| && d.fat[chain[|chain| - 1]] == 0xffff_ffff)
    && (f.index == 0 || f.index < |chain|) && f.cursor == Nth(d.fat, f.contiguous, f.start, f.index)
  }

  /** The volume has the tables it needs. */
  ghost predicate Whole(d: Disk) {
    && 0 < d.clusterSize <= 0x200_0000 && d.size + 3 <= 0xffff_fff6
    && |d.fat| >= d.size + 4 && |d.used| == d.size && |d.heap| == d.size + 2
    && forall c :: 0 <= c < |d.heap| ==> |d.heap[c]| == d.clusterSize
  }

  lemma FileOkIs<K>(d: Disk<K>, k: K)
    requires Whole(d) && k in d.files
    ensures FileOk(d.fat, d.size, d.files[k], Layout.Count(d, k)) <==> SoundFile(d, k)
  {
    hide Chain, Nth, ClustersFor;
    ClustersForBounds(d.files[k].size, d.clusterSize);
    var chain := ChainOf(d, k);
    if SoundFile(d, k) {
      forall c | c in chain
        ensures InMap(c, d.size)
      {
        var i :| 0 <= i < |chain| && chain[i] == c;
      }
    } else if FileOk(d.fat, d.size, d.files[k], |chain|) {
      forall i | 0 <= i < |chain|
        ensures 2 <= chain[i] < d.size + 2
      {
        assert chain[i] in chain;
      }
    }
  }

  /** No cluster is in two chains, or reserved and in one, and exactly the reserved ones and those of chains have a bit
      set. */
  ghost predicate BitsSaid<K>(d: Disk<K>)
    requires Whole(d)
  {
    && (forall k, k', c :: k in d.files && k' in d.files && c in ChainOf(d, k) && c in ChainOf(d, k') ==> k == k')
    && (forall k, c :: k in d.files && c in ChainOf(d, k) ==> c !in d.reserved)
    && (forall c :: c in d.reserved ==> 2 <= c < d.size + 2)
    && (forall c: u32 :: 2 <= c < d.size + 2 ==>
          (d.used[c - 2] <==> c in d.reserved || exists k :: k in d.files && c in ChainOf(d, k)))
  }

  /** Exactly what the invariant asks for: the tables, sound chains, and bits that say whose each cluster is. */
  lemma ConsistentIs<K>(d: Disk<K>)
    ensures Consistent(d) <==>
            && Whole(d)
            && (forall k :: k in d.files ==> SoundFile(d, k)) && BitsSaid(d)
  {
    hide SoundFile, FileOk, ChainOf, Uniform, Geometry, OwnedUsed, Disjoint, NoLeak, BitsSaid, IsUsed;
    WholeIs(d);
    if Whole(d) {
      forall k | k in d.files
        ensures FileOk(d.fat, d.size, d.files[k], Layout.Count(d, k)) <==> SoundFile(d, k)
      {
        FileOkIs(d, k);
      }
      if FilesOk(d) {
        ChainsInMap(d);
        BitsAre(d);
      }
    }
  }

  lemma ChainsInMap<K>(d: Disk<K>)
    requires Geometry(d) && FilesOk(d)
    ensures forall k, c :: k in d.files && c in ChainOf(d, k) ==> InMap(c, d.size)
  {
    hide ChainOf;
    forall k, c | k in d.files && c in ChainOf(d, k)
      ensures InMap(c, d.size)
    {
      ChainInHeap(d, k);
      assert FileOk(d.fat, d.size, d.files[k], Layout.Count(d, k));
      ChainSound(d, k);
    }
  }

  lemma ChainSound<K>(d: Disk<K>, k: K)
    requires Geometry(d) && k in d.files && FileOk(d.fat, d.size, d.files[k], Layout.Count(d, k))
    ensures forall c :: c in ChainOf(d, k) ==> InMap(c, d.size)
  {
    hide Chain, Nth;
  }

  lemma BitsAre<K>(d: Disk<K>)
    requires Geometry(d) && forall k, c :: k in d.files && c in ChainOf(d, k) ==> InMap(c, d.size)
    ensures BitsSaid(d)
            <==> OwnedUsed(d) && Disjoint(d) && (forall c :: c in d.reserved ==> IsUsed(d, c)) && NoLeak(d)
  {
    hide ChainOf;
    assert forall k, c :: k in d.files ==> (Owns(d, k, c) <==> c in ChainOf(d, k));
    if BitsSaid(d) {
      forall c: u32 | IsUsed(d, c)
        ensures c in d.reserved || exists k :: k in d.files && Owns(d, k, c)
      {
        assert d.used[c - 2];
      }
      forall k, c | k in d.files && Owns(d, k, c)
        ensures IsUsed(d, c) && c !in d.reserved
      {
        assert c in ChainOf(d, k) && InMap(c, d.size);
        assert c in d.reserved || exists k' :: k' in d.files && c in ChainOf(d, k');
        assert d.used[c - 2];
      }
      forall c | c in d.reserved
        ensures IsUsed(d, c)
      {
        assert d.used[c - 2];
      }
    }
    if OwnedUsed(d) && Disjoint(d) && (forall c :: c in d.reserved ==> IsUsed(d, c)) && NoLeak(d) {
      forall c: u32 | 2 <= c < d.size + 2
        ensures d.used[c - 2] <==> c in d.reserved || exists k :: k in d.files && c in ChainOf(d, k)
      {
        BitIs(d, c);
      }
      forall k, c | k in d.files && c in ChainOf(d, k)
        ensures c !in d.reserved
      {
        assert Owns(d, k, c);
      }
      forall k, k', c | k in d.files && k' in d.files && c in ChainOf(d, k) && c in ChainOf(d, k')
        ensures k == k'
      {
        assert Owns(d, k, c) && Owns(d, k', c);
      }
    }
  }

  lemma BitIs<K>(d: Disk<K>, c: u32)
    requires Geometry(d) && OwnedUsed(d) && NoLeak(d) && (forall c :: c in d.reserved ==> IsUsed(d, c))
    requires 2 <= c < d.size + 2
    ensures d.used[c - 2] <==> c in d.reserved || exists k :: k in d.files && c in ChainOf(d, k)
  {
    hide ChainOf;
    assert IsUsed(d, c) <==> d.used[c - 2];
    if k :| k in d.files && c in ChainOf(d, k) {
      assert Owns(d, k, c);
    }
    if k :| k in d.files && Owns(d, k, c) {
      assert c in ChainOf(d, k);
    }
  }

  lemma WholeIs(d: Disk)
    ensures Whole(d) <==> Geometry(d)
  {
  }

  /** A chain in plain words: it begins at the start, each cluster is followed by the next one or by the one in its FAT
      entry, and the entry of the last cluster of a linked chain marks the end. */
  lemma ChainMeans<K>(d: Disk<K>, k: K)
    requires Consistent(d) && k in d.files
    ensures var f, chain := d.files[k], ChainOf(d, k);
            var n := |chain|;
            && n == (f.size + d.clusterSize - 1) / d.clusterSize
            && (f.start == 0 <==> n == 0) && (n > 0 ==> chain[0] == f.start)
            && (forall i :: 0 <= i < n ==> 2 <= chain[i] < d.size + 2)
            && (forall i :: 0 < i < n ==>
                  chain[i] == if f.contiguous then chain[i - 1] + 1 else d.fat[chain[i - 1]])
            && (n > 0 && !f.contiguous ==> d.fat[chain[n - 1]] == 0xffff_ffff)
  {
    hide Chain, Nth, CursorOk, Next;
    ChainInHeap(d, k);
    var f, chain := d.files[k], ChainOf(d, k);
    assert FileOk(d.fat, d.size, f, |chain|);
    forall i | 0 <= i < |chain|
      ensures 2 <= chain[i] < d.size + 2
      ensures i > 0 ==> chain[i] == if f.contiguous then chain[i - 1] + 1 else d.fat[chain[i - 1]]
    {
      assert InMap(chain[i], d.size);
      if i > 0 {
        assert InMap(chain[i - 1], d.size);
        ChainNext(d.fat, f.contiguous, f.start, |chain|, i - 1);
        NextMeans(d.fat, f.contiguous, chain[i - 1]);
      }
    }
    if |chain| > 0 {
      ChainStart(d.fat, f.contiguous, f.start, |chain|);
    }
  }

  lemma NextMeans(fat: seq<u32>, contiguous: bool, c: u32)
    requires 2 <= c < |fat| && c < 0xffff_ffff
    ensures Next(fat, contiguous, c) == if contiguous then c + 1 else fat[c]
  {
  }

  /** Byte i of a file is in its cluster number i / clusterSize, at i % clusterSize. */
  lemma BytesMean<K>(d: Disk<K>, k: K, i: nat)
    requires Consistent(d) && k in d.files && i < d.files[k].size
    ensures i / d.clusterSize < |ChainOf(d, k)|
    ensures var c, at := ChainOf(d, k)[i / d.clusterSize], i % d.clusterSize;
            2 <= c < |d.heap| + 2 && at < |d.heap[c - 2]| && Bytes(d, k)[i] == d.heap[c - 2][at]
  {
    hide Chain, Nth, FileOk;
    ChainInHeap(d, k);
    QuotientBelow(i, d.clusterSize, |ChainOf(d, k)|);
    assert Raw(d.heap, d.clusterSize, ChainOf(d, k))[i] == ByteAt(d.heap, d.clusterSize, ChainOf(d, k), i);
  }

  /** A volume of two clusters, the second of them a contiguous one-cluster file, the first one free. */
  function Trapped(): Disk<int> {
    Disk(512, 2, {}, [0, 0, 0, 0, 0, 0], [false, true], seq(4, _ => Zeros(512)), map[0 := File(3, true, 1, 0, 3)])
  }

  /** The trap exists: on this consistent volume, growing the file by one cluster, for which there is room,
      breaks the invariant. */
  lemma TrapSprings()
    ensures Consistent(Trapped()) && Cost(1, 600, 512) == 1 == CountClear(Trapped().used)
    ensures forall ok, erase, d' :: Truncated(Trapped(), 0, 600, erase, ok, d') ==> !Consistent(d')
  {
    hide Consistent, ViewOf, Truncates, ChainsKept;
    TrappedConsistent();
    assert ClustersFor(1, 512) == 1 && ClustersFor(600, 512) == 2;
    assert [false, true][..1] == [false];
  }

  lemma TrappedConsistent()
    ensures Consistent(Trapped())
  {
    var d := Trapped();
    assert ClustersFor(1, 512) == 1;
    assert ChainOf(d, 0) == [3];
    assert FileOk(d.fat, d.size, d.files[0], 1);
    assert forall c: u32 :: IsUsed(d, c) ==> c == 3;
    assert Owns(d, 0, 3);
  }
}
