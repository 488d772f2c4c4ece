/** The cluster allocator and the files of a mounted volume. */
module Volumes {
  import opened Bitmap
  import opened Clusters
  import opened Content
  import opened Layout
  import opened Growth
  import opened Files
  import opened FileSpec
  import opened Views

  datatype Status = Ok | NoSpace

  /** The cluster fields of an in-core node. */
  class Node {
    var startCluster: u32
    var contiguous: bool
    var size: nat
    var fptrIndex: nat
    var fptrCluster: u32
    var dirty: bool

    function Fields(): File
      reads this
    {
      File(startCluster, contiguous, size, fptrIndex, fptrCluster)
    }
  }

  lemma CountNone(bits: seq<bool>)
    ensures CountClear(bits[..0]) == 0
  {
  }

  lemma CountNext(bits: seq<bool>, i: nat)
    requires i < |bits|
    ensures CountClear(bits[..i + 1]) == CountClear(bits[..i]) + if bits[i] then 0 else 1
  {
    assert bits[..i + 1][..i] == bits[..i];
  }

  class Volume {
    const clusterSize: nat
    const size: nat
    var fat: seq<u32>
    var heap: seq<seq<byte>>
    const chunk: array<bv64>
    var mapDirty: bool
    ghost var nodes: set<Node>
    ghost var reserved: set<u32>

    /** The map has a bit for each of `size` clusters, all numbered below the reserved values. */
    ghost predicate MapFits() {
      size + 3 <= LAST_DATA && size <= WORD_BITS * chunk.Length
    }

    ghost function Snapshot(): Disk<Node>
      requires MapFits()
      reads this, chunk, nodes
    {
      Disk(clusterSize, size, reserved, fat, Used(), heap, map n | n in nodes :: n.Fields())
    }

    lemma SnapshotOf(node: Node)
      requires MapFits() && node in nodes
      ensures node in Snapshot().files && Snapshot().files[node] == node.Fields()
      ensures Snapshot().clusterSize == clusterSize && Snapshot().size == size
      ensures Snapshot().heap == heap && Snapshot().fat == fat && Snapshot().used == Used()
    {
    }

    /** The volume's invariant. */
    ghost predicate Valid()
      reads this, chunk, nodes
    {
      MapFits() && Consistent(Snapshot())
    }

    twostate lemma OneNodeChanged(node: Node)
      requires MapFits() && node in nodes
      requires nodes == old(nodes) && reserved == old(reserved)
      requires forall n :: n in nodes && n != node ==> n.Fields() == old(n.Fields())
      ensures Snapshot() == Replaced(old(Snapshot()), node, fat, Used(), heap, node.Fields())
    {
    }

    ghost function Used(): (used: seq<bool>)
      requires MapFits()
      reads chunk
      ensures |used| == size
    {
      Bits(chunk[..])[..size]
    }

    /** A volume just mounted: what was read from the device, and no node looked at yet but those given. */
    constructor (clusterSize: nat, size: nat, fat: seq<u32>, heap: seq<seq<byte>>, chunk: array<bv64>,
                 ghost nodes: set<Node>, ghost reserved: set<u32>)
      ensures this.clusterSize == clusterSize && this.size == size && this.fat == fat && this.heap == heap
      ensures this.chunk == chunk && this.nodes == nodes && this.reserved == reserved && !mapDirty
    {
      this.clusterSize, this.size, this.fat, this.heap, this.chunk := clusterSize, size, fat, heap, chunk;
      this.nodes, this.reserved, mapDirty := nodes, reserved, false;
    }

    /** The number of clusters whose bit is clear. */
    method CountFreeClusters() returns (free: nat)
      requires MapFits()
      ensures free == CountClear(Used())
    {
      hide CountClear, Has;
      ghost var used := Used();
      free := 0;
      var i := 0;
      CountNone(used);
      while i < size
        invariant i <= size && free == CountClear(used[..i])
      {
        CountNext(used, i);
        assert used[i] == GetBit(chunk[..], i);
        if !Has(chunk[i / WORD_BITS], i % WORD_BITS) {
          free := free + 1;
        }
        i := i + 1;
      }
      assert used[..i] == used;
    }

    method AllocateCluster(hint: u32) returns (c: u32)
      requires MapFits()
      modifies `mapDirty, chunk
      ensures var r := CyclicFirstClear(old(Used()), StartBit(hint, size));
              if r == -1 then c == END && Used() == old(Used())
              else c == r + FIRST_DATA && Used() == SetFlag(old(Used()), c, true)
    {
      hide FirstClear, CyclicFirstClear, GetBit;
      ghost var bits := Bits(chunk[..]);
      var h := (hint - FIRST_DATA) % 0x1_0000_0000;
      if h >= size {
        h := 0;
      }
      CyclicPrefix(bits, size, h);
      var r := FindBitAndSet(chunk, h, size);
      if r == -1 {
        r := FindBitAndSet(chunk, 0, h);
      }
      if r == -1 {
        return END;
      }
      mapDirty := true;
      PrefixSet(bits, size, r);
      return r + FIRST_DATA;
    }

    method FreeCluster(c: u32)
      requires MapFits()
      modifies `mapDirty, chunk
      ensures Used() == SetFlag(old(Used()), c, false)
    {
      if Invalid(c) {
        return;
      }
      if c - FIRST_DATA >= size {
        return;
      }
      ClearBit(chunk, c - FIRST_DATA);
      mapDirty := true;
    }

    method SetNextCluster(contiguous: bool, current: u32, next: u32)
      requires current < |fat|
      modifies `fat
      ensures fat == if contiguous then old(fat) else old(fat)[current := next]
    {
      if contiguous {
        return;
      }
      fat := fat[current := next];
    }

    /** The n-th cluster of the node's chain, walking on from the cached one when that lies before it. */
    method AdvanceCluster(node: Node, count: nat) returns (c: u32)
      modifies node`fptrIndex, node`fptrCluster
      ensures node.fptrIndex == count && node.fptrCluster == c
      ensures old(node.fptrCluster == Nth(fat, node.contiguous, node.startCluster, node.fptrIndex))
              && (forall k :: 0 <= k <= count ==> !Invalid(Nth(fat, node.contiguous, node.startCluster, k)))
              ==> c == Nth(fat, node.contiguous, node.startCluster, count)
    {
      if node.fptrIndex > count {
        node.fptrIndex := 0;
        node.fptrCluster := node.startCluster;
      }
      ghost var exact := node.fptrCluster == Nth(fat, node.contiguous, node.startCluster, node.fptrIndex)
        && forall k :: 0 <= k <= count ==> !Invalid(Nth(fat, node.contiguous, node.startCluster, k));
      var i := node.fptrIndex;
      while i < count
        invariant i <= count
        invariant exact ==> node.fptrCluster == Nth(fat, node.contiguous, node.startCluster, i)
      {
        node.fptrCluster := Next(fat, node.contiguous, node.fptrCluster);
        assert exact ==> node.fptrCluster == Nth(fat, node.contiguous, node.startCluster, i + 1);
        if Invalid(node.fptrCluster) {
          break;
        }
        i := i + 1;
      }
      node.fptrIndex := count;
      c := node.fptrCluster;
    }

    /** Writes the links `first -> first + 1 -> ... -> last`. */
    method MakeNoncontiguous(first: u32, last: u32)
      requires last <= |fat|
      modifies `fat
      ensures Links(old(fat), fat, first, last)
    {
      var c := first;
      while c < last
        invariant first <= c
        invariant |fat| == |old(fat)|
        invariant forall k: u32 :: k < |fat| ==> fat[k] == if first <= k < c && k < last then k + 1 else old(fat)[k]
      {
        SetNextCluster(false, c, c + 1);
        c := c + 1;
      }
    }

    /** Cuts the last `difference` clusters off a chain of `current` and frees them. */
    method ShrinkFile(node: Node, current: nat, difference: nat)
      requires MapFits()
      requires 0 < difference <= current && node.startCluster != FREE
      requires Linkable(fat, Chain(fat, node.contiguous, node.startCluster, current))
      requires CursorOk(fat, node.Fields(), current)
      modifies `fat, `mapDirty, chunk
      modifies node`startCluster, node`fptrIndex, node`fptrCluster, node`dirty
      ensures Shrunk(old(fat), old(Used()), old(node.Fields()), current, difference, fat, Used(), node.Fields())
    {
      hide Nth, Chain, Used, Linkable, Next, Mark, SetFlag, Freeing, CursorOk, Shrunk;
      ghost var fat0, used0, f := fat, Used(), node.Fields();
      ghost var chain := Chain(fat, f.contiguous, f.start, current);
      ghost var keep := current - difference;
      LinkableAt(fat, chain);
      var previous;
      if current > difference {
        CursorValid(fat, f, current);
        var last := AdvanceCluster(node, current - difference - 1);
        ChainNext(fat, f.contiguous, f.start, current, keep - 1);
        previous := Next(fat, node.contiguous, last);
        SetNextCluster(node.contiguous, last, END);
      } else {
        ChainStart(fat, f.contiguous, f.start, current);
        previous := node.startCluster;
        node.startCluster := FREE;
        node.dirty := true;
      }
      node.fptrIndex := 0;
      node.fptrCluster := node.startCluster;

      FreeingStarts(fat0, f.contiguous, chain, keep);
      FreeChain(node.contiguous, current, difference, previous, fat0, used0, f);
      FreeingDone(fat0, used0, f, current, difference, fat);
    }

    /** The loop of shrink_file: frees `difference` clusters, the first of them `first`. */
    method FreeChain(contiguous: bool, ghost current: nat, difference: nat, first: u32,
                     ghost fat0: seq<u32>, ghost used0: seq<bool>, ghost f: File)
      requires MapFits() && 0 < difference <= current && contiguous == f.contiguous
      requires Linkable(fat0, Chain(fat0, f.contiguous, f.start, current)) && Used() == used0
      requires var chain := Chain(fat0, f.contiguous, f.start, current);
               && first == chain[current - difference]
               && Freeing(fat0, f.contiguous, chain, current - difference, current - difference, fat)
      modifies `fat, `mapDirty, chunk
      ensures var chain, keep := Chain(fat0, f.contiguous, f.start, current), current - difference;
              && Freeing(fat0, f.contiguous, chain, keep, current, fat)
              && Used() == Mark(used0, chain[keep..], false)
    {
      hide Nth, Chain, Used, Linkable, Next, Mark, SetFlag, Freeing;
      ghost var chain := Chain(fat0, f.contiguous, f.start, current);
      ghost var keep, k: nat := current - difference, current - difference;
      LinkableAt(fat0, chain);
      MarkNone(used0, chain, keep, false);
      var previous, left := first, difference;
      while left > 0
        invariant k == current - left && left <= difference
        invariant left > 0 ==> previous == chain[k]
        invariant Freeing(fat0, f.contiguous, chain, keep, k, fat)
        invariant Used() == Mark(used0, chain[keep..k], false)
      {
        assert !Invalid(previous);
        FreeingStep(fat0, f, current, keep, k, fat);
        var next := Next(fat, contiguous, previous);
        SetNextCluster(contiguous, previous, FREE);
        MarkMore(used0, chain, keep, k, false);
        FreeCluster(previous);
        previous := next;
        left, k := left - 1, k + 1;
      }
      assert chain[keep..current] == chain[keep..];
    }

    /** Links the cluster just allocated behind the last one; a file whose clusters no longer lie in a row has its
        links written out first. */
    method LinkNext(node: Node, ghost current: nat, previous: u32, next: u32, ghost fat0: seq<u32>,
                    ghost used0: seq<bool>, ghost f0: File, ghost taken: seq<u32>, ghost used: seq<bool>)
      requires MapFits() && GrowState(fat0, used0, f0, current, taken, fat, used, node.Fields())
      requires current + |taken| > 0
      requires previous == (Chain(fat0, f0.contiguous, f0.start, current) + taken)[current + |taken| - 1]
      requires |used| == size && InMap(previous, size) && InMap(next, size)
      requires next - FIRST_DATA == CyclicFirstClear(used, StartBit(previous + 1, size))
      requires Used() == SetFlag(used, next, true)
      modifies `fat, node`contiguous, node`dirty
      ensures GrowState(fat0, used0, f0, current, taken + [next], fat, Used(), node.Fields())
    {
      hide StartBit, Chain, Used, GrowState, SetFlag, CyclicFirstClear, Links;
      ghost var fat1, f1 := fat, node.Fields();
      LastOf(fat0, used0, f0, current, taken, fat, used, f1);
      if next != previous - 1 && node.contiguous {
        MakeNoncontiguous(node.startCluster, previous);
        node.contiguous := false;
        node.dirty := true;
      }
      GrowNext(fat0, used0, f0, current, taken, fat1, used, f1, previous, next, fat);
      SetNextCluster(node.contiguous, previous, next);
    }

    /** The loop of grow_file: links clusters behind `previous` until `difference` have been taken. On a full map, in
        whatever state the file is, it takes none. */
    method ExtendChain(node: Node, current: nat, difference: nat, last: u32, first: nat, ghost stuck: bool,
                       ghost fat0: seq<u32>, ghost used0: seq<bool>, ghost f0: File, ghost taken0: seq<u32>)
      returns (rc: Status)
      requires MapFits() && first <= difference && 0 < difference
      requires if stuck then first == 0 && Full(Used()) && !Invalid(last)
               else
                 && first == |taken0| && current + first > 0
                 && last == (Chain(fat0, f0.contiguous, f0.start, current) + taken0)[current + first - 1]
                 && GrowState(fat0, used0, f0, current, taken0, fat, Used(), node.Fields())
      modifies `fat, `mapDirty, chunk
      modifies node`startCluster, node`contiguous, node`fptrIndex, node`fptrCluster, node`dirty
      ensures if stuck then rc != Ok && fat == old(fat) && Used() == old(Used()) && node.Fields() == old(node.Fields())
              else GrowOutcome(fat0, used0, f0, current, difference, rc == Ok, fat, Used(), node.Fields())
    {
      hide Trap, StartBit, Links, FileOk, Nth, Chain, Used, GrowState, GrowOutcome, Shrunk, SetFlag,
           CyclicFirstClear, Linkable, CursorOk, Full;
      var previous, count := last, first;
      ghost var taken := if stuck then [] else taken0;
      ghost var chain0 := Chain(fat0, f0.contiguous, f0.start, current);
      while count < difference
        invariant count == |taken| <= difference
        invariant stuck ==> count == 0 && previous == last && fat == old(fat) && Used() == old(Used())
                            && node.Fields() == old(node.Fields())
        invariant !stuck ==> current + count > 0 && previous == (chain0 + taken)[current + count - 1]
        invariant !stuck ==> GrowState(fat0, used0, f0, current, taken, fat, Used(), node.Fields())
      {
        ghost var fat1, used1, f1 := fat, Used(), node.Fields();
        if stuck {
          StartBitIn(previous + 1, size);
          NoneClear(Used(), StartBit(previous + 1, size));
        } else {
          LastOf(fat0, used0, f0, current, taken, fat1, used1, f1);
        }
        var next := AllocateCluster(previous + 1);
        if Invalid(next) {
          if count != 0 {
            GrowLinkable(fat0, used0, f0, current, taken, fat1, used1, f1);
            ShrinkFile(node, current + count, count);
            GrowUndone(fat0, used0, f0, current, difference, taken, fat1, used1, f1, fat, Used(), node.Fields());
          } else if !stuck {
            GrowRefused(fat0, used0, f0, current, difference, fat1, used1, f1);
          }
          return NoSpace;
        }
        LinkNext(node, current, previous, next, fat0, used0, f0, taken, used1);
        previous, taken := next, taken + [next];
        count := count + 1;
      }
      GrowEnds(fat0, used0, f0, current, taken, fat, Used(), node.Fields());
      SetNextCluster(node.contiguous, previous, END);
      return Ok;
    }

    /** Appends `difference` clusters to a chain of `current`, or, when the map runs out, gives back the
        ones it took. */
    method GrowFile(node: Node, current: nat, difference: nat, ghost stuck: bool) returns (rc: Status)
      requires MapFits() && |fat| >= size + 4
      requires if stuck then Stuck(fat, Used(), node.Fields(), current)
               else
                 && FileOk(fat, size, node.Fields(), current)
                 && forall c :: c in Chain(fat, node.contiguous, node.startCluster, current) ==> Used()[c - FIRST_DATA]
      modifies `fat, `mapDirty, chunk
      modifies node`startCluster, node`contiguous, node`fptrIndex, node`fptrCluster, node`dirty
      ensures !stuck ==> GrowOutcome(old(fat), old(Used()), old(node.Fields()), current, difference, rc == Ok,
                                     fat, Used(), node.Fields())
      ensures stuck && difference > 0 ==>
                && rc != Ok && fat == old(fat) && Used() == old(Used())
                && node.Fields() == old(node.Fields()).(index := current - 1, cursor := node.fptrCluster)
                && CursorOk(fat, node.Fields(), current)
    {
      hide Trap, FileOk, Nth, Chain, Used, GrowState, GrowOutcome, SetFlag, CyclicFirstClear, CursorOk, StartBit, Full;
      if difference == 0 {
        if !stuck {
          GrowNothing(fat, Used(), node.Fields(), current);
        }
        return Ok;
      }
      ghost var fat0, used0, f0 := fat, Used(), node.Fields();
      var previous;
      if node.startCluster != FREE {
        if stuck {
          StuckEnds(fat0, used0, f0, current);
        } else {
          GrowStarts(fat0, used0, f0, current);
        }
        previous := AdvanceCluster(node, current - 1);
        assert !Invalid(previous);
        rc := ExtendChain(node, current, difference, previous, 0, stuck, fat0, used0, f0, []);
      } else {
        GrowEmpty(fat0, used0, f0, current);
        assert node.fptrIndex == 0;
        previous := AllocateCluster(0);
        if Invalid(previous) {
          return NoSpace;
        }
        GrowFirst(fat0, used0, f0, previous - FIRST_DATA);
        node.fptrCluster, node.startCluster := previous, previous;
        node.contiguous := true;
        rc := ExtendChain(node, current, difference, previous, 1, false, fat0, used0, f0, [previous]);
      }
    }

    /** Zeroes the file's bytes from `begin` on. The cluster size is a power of two, so or-ing `begin` with
        it less one and adding one, as the source does, gives the next cluster boundary. */
    method EraseRange(node: Node, begin: nat, end: nat, ghost n: nat)
      requires 0 < clusterSize && Uniform(heap, clusterSize)
      requires n == ClustersFor(end, clusterSize)
      requires Walkable(heap, Chain(fat, node.contiguous, node.startCluster, n))
      requires CursorOk(fat, node.Fields(), n)
      modifies `heap, node`fptrIndex, node`fptrCluster
      ensures begin >= end ==> heap == old(heap) && node.Fields() == old(node.Fields())
      ensures begin < end ==> Erased(old(heap), clusterSize, Chain(fat, node.contiguous, node.startCluster, n),
                                     begin, end, heap)
      ensures CursorOk(fat, node.Fields(), n)
    {
      hide Nth, Chain, Uniform, Wrote, InHeap, ClustersFor, Erased, Erasing, Walkable, CursorOk, Splice, Write;
      if begin >= end {
        return;
      }
      ghost var heap0, chain := heap, Chain(fat, node.contiguous, node.startCluster, n);
      WalkChain(fat, heap, node.Fields(), n);
      EraseBegins(heap, clusterSize, chain, begin, end);
      var boundary: nat := begin - begin % clusterSize + clusterSize;
      var cluster := AdvanceCluster(node, begin / clusterSize);
      ghost var k: nat := begin / clusterSize;
      CursorAt(fat, node.Fields(), n);
      heap := Write(heap, cluster, begin % clusterSize, Zeros((if boundary < end then boundary else end) - begin));
      while boundary < end
        invariant k < |chain| && cluster == chain[k]
        invariant Erasing(heap0, clusterSize, chain, begin, end, heap, k, boundary)
        invariant CursorOk(fat, node.Fields(), n)
      {
        EraseGoesOn(heap0, clusterSize, chain, begin, end, heap, k, boundary);
        ChainNext(fat, node.contiguous, node.startCluster, n, k);
        cluster := Next(fat, node.contiguous, cluster);
        assert !Invalid(cluster);
        heap := Write(heap, cluster, 0, Zeros(clusterSize));
        boundary, k := boundary + clusterSize, k + 1;
      }
      EraseEnds(heap0, clusterSize, chain, begin, end, heap, k, boundary);
    }

    /** The clusters of a file that is to have `newSize` bytes: more of them, fewer, or the same. */
    method ChangeClusters(node: Node, newSize: nat, c1: nat, c2: nat, ghost erase: bool) returns (rc: Status)
      requires MapFits() && node in nodes && newSize <= MAX_COUNT * clusterSize
      requires Resizable(Snapshot(), node, newSize) && 0 < clusterSize
      requires c1 == Bytes2Clusters(node.size, clusterSize) && c2 == Bytes2Clusters(newSize, clusterSize)
      modifies `fat, `mapDirty, chunk
      modifies node`startCluster, node`contiguous, node`fptrIndex, node`fptrCluster, node`dirty
      ensures rc == Ok ==>
                && ClustersChanged(old(Snapshot()), node, newSize, fat, Used(), node.Fields())
                && node.size == old(node.size)
      ensures rc != Ok ==> TruncateOutcome(old(Snapshot()), node, newSize, erase, false, Snapshot())
    {
      hide FileOk, CursorOk, ClustersFor, Consistent, GrowOutcome, Shrunk, Chain, Nth, Used, TruncateOutcome, Stuck,
           Replaced, Resizable, ClustersChanged, Linkable, Uniform, Bytes2Clusters, Snapshot, Sprung;
      ghost var d := Snapshot();
      ghost var stuck := !Consistent(d);
      SnapshotOf(node);
      ResizeBegins(d, node, newSize);
      rc := Ok;
      if c1 < c2 {
        rc := GrowFile(node, c1, c2 - c1, stuck);
      } else if c1 > c2 {
        ShrinkFile(node, c1, c1 - c2);
      }
      if rc != Ok {
        OneNodeChanged(node);
        ResizeRefused(d, node, newSize, erase, fat, Used(), node.Fields());
        return;
      }
      ResizeGoesOn(d, node, newSize, fat, Used(), node.Fields());
    }

    /** Sets the size of a file, in clusters and in bytes. A file whose trap has sprung can still be asked to grow. */
    method Truncate(node: Node, newSize: nat, erase: bool) returns (rc: Status)
      requires MapFits() && node in nodes && newSize <= MAX_COUNT * clusterSize
      requires Resizable(Snapshot(), node, newSize)
      modifies `fat, `heap, `mapDirty, chunk
      modifies node`startCluster, node`contiguous, node`fptrIndex, node`fptrCluster, node`size, node`dirty
      ensures clusterSize > 0 && TruncateOutcome(old(Snapshot()), node, newSize, erase, rc == Ok, Snapshot())
    {
      hide CursorOk, ClustersFor, Consistent, Chain, Nth, Used, TruncateOutcome, Replaced, ClustersChanged,
           Resizable, Erased, Walkable, Uniform, Bytes2Clusters, Snapshot;
      ghost var d := Snapshot();
      SnapshotOf(node);
      ResizeBegins(d, node, newSize);
      var c1 := Bytes2Clusters(node.size, clusterSize);
      var c2 := Bytes2Clusters(newSize, clusterSize);
      rc := Ok;
      if node.size == newSize {
        ResizeToSame(d, node, erase);
        return;
      }
      rc := ChangeClusters(node, newSize, c1, c2, erase);
      if rc != Ok {
        return;
      }
      ghost var g := node.Fields();
      ClustersThere(d, node, newSize, fat, Used(), g);
      if erase {
        EraseRange(node, node.size, newSize, c2);
      }
      ghost var h := node.Fields();
      ResizeEnds(d, node, newSize, erase, fat, Used(), g, heap, h);
      node.size := newSize;
      node.dirty := true;
      OneNodeChanged(node);
      assert node.Fields() == h.(size := newSize);
    }

    /** The loop of a read: takes `total` bytes from the file's clusters, one after the other. */
    method GetBytes(node: Node, buffer: array<byte>, offset: nat, total: nat, ghost n: nat)
      requires 0 < clusterSize && Uniform(heap, clusterSize)
      requires Walkable(heap, Chain(fat, node.contiguous, node.startCluster, n)) && CursorOk(fat, node.Fields(), n)
      requires 0 < total <= buffer.Length && offset + total <= n * clusterSize
      modifies buffer, node`fptrIndex, node`fptrCluster
      ensures GotOut(heap, clusterSize, Chain(fat, node.contiguous, node.startCluster, n), offset, total,
                     old(buffer[..]), buffer[..])
      ensures CursorOk(fat, node.Fields(), n)
    {
      hide CursorOk, Nth, Chain, Uniform, InHeap, Walkable, Read, Reading, Raw, Piece, GotOut;
      ghost var chain, buffer0 := Chain(fat, node.contiguous, node.startCluster, n), buffer[..];
      WalkChain(fat, heap, node.Fields(), n);
      ReadBegins(heap, clusterSize, chain, offset, total, buffer0);
      var cluster := AdvanceCluster(node, offset / clusterSize);
      CursorAt(fat, node.Fields(), n);
      ghost var f := node.Fields();
      var loffset: nat, remainder: nat, done: nat := offset % clusterSize, total, 0;
      ghost var k: nat := offset / clusterSize;
      while remainder > 0
        invariant done + remainder == total
        invariant Reading(heap, clusterSize, chain, offset, total, done, k, loffset, buffer0, buffer[..])
        invariant remainder > 0 ==> k < |chain| && cluster == chain[k]
        invariant node.Fields() == f
      {
        ReadStep(heap, clusterSize, chain, offset, total, done, k, loffset, buffer0, buffer[..]);
        assert !Invalid(cluster);
        var lsize := Piece(clusterSize, loffset, remainder);
        Copy(buffer, done, Read(heap, cluster, loffset, lsize));
        done, remainder, loffset := done + lsize, remainder - lsize, 0;
        if remainder > 0 {
          ChainNext(fat, node.contiguous, node.startCluster, n, k);
        }
        cluster := Next(fat, node.contiguous, cluster);
        k := k + 1;
      }
      ReadFinished(heap, clusterSize, chain, offset, total, k, loffset, buffer0, buffer[..]);
    }

    /** Reads at most `size` bytes at `offset`, cluster by cluster. */
    method GenericPread(node: Node, buffer: array<byte>, size: nat, offset: nat) returns (n: nat)
      requires Valid() && node in nodes && size <= buffer.Length
      requires buffer as object != chunk as object
      modifies buffer, node`fptrIndex, node`fptrCluster
      ensures ReadOut(old(Snapshot()), node, offset, size, old(buffer[..]), n, Snapshot(), buffer[..])
    {
      hide CursorOk, ClustersFor, Consistent, Nth, Used, Uniform, ChainOf, Chain, Walkable, ReadOut, GotOut, Snapshot;
      ghost var d, buffer0 := Snapshot(), buffer[..];
      SnapshotOf(node);
      ReadyToWalk(d, node);
      if offset >= node.size {
        ReadNothing(d, node, offset, size, buffer0);
        return 0;
      }
      if size == 0 {
        ReadNothing(d, node, offset, size, buffer0);
        return 0;
      }
      n := if size < node.size - offset then size else node.size - offset;
      ReadInside(d, node, offset, n);
      GetBytes(node, buffer, offset, n, Layout.Count(d, node));
      OneNodeChanged(node);
      ReadEnds(d, node, offset, size, n, buffer0, buffer[..], node.Fields());
    }

    /** Writes `b` over bytes the file already has, cluster by cluster. */
    method PutBytes(node: Node, b: seq<byte>, offset: nat)
      requires MapFits() && node in nodes && Walks(Snapshot(), node) && b != [] && offset + |b| <= node.size
      modifies `heap, node`fptrIndex, node`fptrCluster
      ensures PutIn(old(Snapshot()), node, offset, b, Snapshot())
    {
      hide FileOk, CursorOk, ClustersFor, Consistent, Nth, Used, CountClear, Uniform, InHeap, ChainOf, Chain,
           Walkable, Linkable, Write, ViewOf, Writing, Wrote, Piece, Raw, Bytes, Walks;
      ghost var d := Snapshot();
      WalksFacts(d, node);
      ghost var chain := ChainOf(d, node);
      WalkChain(fat, heap, node.Fields(), |chain|);
      WriteBegins(heap, clusterSize, chain, offset, b);
      var cluster := AdvanceCluster(node, offset / clusterSize);
      CursorAt(fat, node.Fields(), |chain|);
      ghost var f := node.Fields();
      var loffset: nat, remainder: nat, done: nat := offset % clusterSize, |b|, 0;
      ghost var k: nat := offset / clusterSize;
      while remainder > 0
        invariant done + remainder == |b|
        invariant Writing(d.heap, clusterSize, chain, offset, b, done, k, loffset, heap)
        invariant remainder > 0 ==> k < |chain| && cluster == chain[k]
        invariant node.Fields() == f
      {
        WriteStep(d.heap, clusterSize, chain, offset, b, done, k, loffset, heap);
        assert !Invalid(cluster);
        var lsize := Piece(clusterSize, loffset, remainder);
        heap := Write(heap, cluster, loffset, b[done..done + lsize]);
        done, remainder, loffset := done + lsize, remainder - lsize, 0;
        if remainder > 0 {
          ChainNext(fat, node.contiguous, node.startCluster, |chain|, k);
        }
        cluster := Next(fat, node.contiguous, cluster);
        k := k + 1;
      }
      WriteFinished(d.heap, clusterSize, chain, offset, b, k, loffset, heap);
      OneNodeChanged(node);
    }

    /** Writes `b` at `offset`: fills a gap with zeros, makes room, then writes. */
    method GenericPwrite(node: Node, b: seq<byte>, offset: nat) returns (n: int)
      requires Valid() && node in nodes && offset + |b| <= MAX_COUNT * clusterSize
      modifies `fat, `heap, `mapDirty, chunk
      modifies node`startCluster, node`contiguous, node`fptrIndex, node`fptrCluster, node`size, node`dirty
      ensures WriteOutcome(old(Snapshot()), node, offset, b, n, Snapshot())
    {
      hide Consistent, Used, CountClear, Bytes, ViewOf, WriteOutcome, Truncated, Stretched, Filling, Making, Springs,
           PutIn, Walks, Sprung, Snapshot, Leaky;
      ghost var d := Snapshot();
      SnapshotOf(node);
      if offset > node.size {
        var rc := Truncate(node, offset, true);
        SnapshotOf(node);
        GapFilling(d, node, offset, b, rc == Ok, Snapshot());
        if rc != Ok {
          return -1;
        }
      } else {
        NoGapToFill(d, node, offset, b);
      }
      ghost var d1 := Snapshot();
      FillingKnown(d, node, offset, b, d1);
      if offset + |b| > node.size {
        var rc := Truncate(node, offset + |b|, false);
        SnapshotOf(node);
        RoomMaking(d, node, offset, b, d1, rc == Ok, Snapshot());
        if rc != Ok {
          return -1;
        }
      } else {
        RoomThere(d, node, offset, b, d1);
      }
      ghost var d2 := Snapshot();
      MakingKnown(d, node, offset, b, d2);
      if |b| == 0 {
        NothingToWrite(d, node, offset, d2);
        return 0;
      }
      PutBytes(node, b, offset);
      WritingEnds(d, node, offset, b, d2, Snapshot());
      return |b|;
    }
  }
}
