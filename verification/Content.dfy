/** The bytes a chain of clusters holds, and what writing inside one cluster does to them. */
module Content {
  import opened Clusters

  type byte = b: nat | b < 256

  /** Every cluster of the heap has `size` bytes. */
  predicate Uniform(heap: seq<seq<byte>>, size: nat) {
    forall i :: 0 <= i < |heap| ==> |heap[i]| == size
  }

  predicate InHeap(chain: seq<u32>, heap: seq<seq<byte>>) {
    forall i :: 0 <= i < |chain| ==> InMap(chain[i], |heap|)
  }

  function Zeros(n: nat): (z: seq<byte>)
    ensures |z| == n && forall i :: 0 <= i < n ==> z[i] == 0
  {
    seq(n, _ => 0)
  }

  /** `s` with `b` written over it from position `at`. */
  function Splice(s: seq<byte>, at: nat, b: seq<byte>): (r: seq<byte>)
    requires at + |b| <= |s|
    ensures |r| == |s|
    ensures forall i :: 0 <= i < |s| ==> r[i] == if at <= i < at + |b| then b[i - at] else s[i]
  {
    s[..at] + b + s[at + |b|..]
  }

  /** Bytes written one after another into a buffer. */
  method Copy(to: array<byte>, at: nat, b: seq<byte>)
    requires at + |b| <= to.Length
    modifies to
    ensures to[..] == Splice(old(to[..]), at, b)
  {
    forall i | 0 <= i < |b| {
      to[at + i] := b[i];
    }
  }

  function Read(heap: seq<seq<byte>>, c: u32, offset: nat, n: nat): seq<byte>
    requires InMap(c, |heap|) && offset + n <= |heap[c - FIRST_DATA]|
  {
    heap[c - FIRST_DATA][offset..offset + n]
  }

  function Write(heap: seq<seq<byte>>, c: u32, offset: nat, b: seq<byte>): (heap': seq<seq<byte>>)
    requires InMap(c, |heap|) && offset + |b| <= |heap[c - FIRST_DATA]|
    ensures |heap'| == |heap|
    ensures forall i :: 0 <= i < |heap| ==> |heap'[i]| == |heap[i]|
  {
    heap[c - FIRST_DATA := Splice(heap[c - FIRST_DATA], offset, b)]
  }

  lemma ProductMonotone(a: nat, b: nat, size: nat)
    ensures a <= b ==> a * size <= b * size
  {
  }

  lemma ProductBelow(a: nat, b: nat, size: nat)
    requires a * size < b * size
    ensures a < b
  {
    ProductMonotone(b, a, size);
  }

  /** Where the k-th block of `size` bytes begins. */
  function At(k: nat, size: nat): nat {
    k * size
  }

  /** The cluster of a chain that byte `i` is in, and its place there. */
  function Block(i: nat, size: nat): nat
    requires size > 0
  {
    i / size
  }

  function Within(i: nat, size: nat): nat
    requires size > 0
  {
    i % size
  }

  lemma QuotientBelow(i: nat, size: nat, n: nat)
    requires size > 0 && i < n * size
    ensures Block(i, size) < n && Within(i, size) < size
  {
    assert i == (i / size) * size + i % size;
    ProductBelow(i / size, n, size);
  }

  lemma QuotientOf(q: nat, r: nat, size: nat)
    requires r < size
    ensures Block(q * size + r, size) == q && Within(q * size + r, size) == r
  {
    var i := q * size + r;
    assert i == (i / size) * size + i % size;
    assert (i / size) * size < (q + 1) * size && q * size < (i / size + 1) * size;
    ProductBelow(i / size, q + 1, size);
    ProductBelow(q, i / size + 1, size);
  }

  /** The position of `i` against a stretch inside the k-th block of `size`. */
  lemma BlockPosition(i: nat, k: nat, size: nat, offset: nat, len: nat)
    requires size > 0 && offset + len <= size
    ensures k * size + offset <= i < k * size + offset + len
            <==> Block(i, size) == k && offset <= Within(i, size) < offset + len
    ensures Block(i, size) == k ==> i - (k * size + offset) == Within(i, size) - offset
  {
    assert i == (i / size) * size + i % size;
    ProductMonotone(i / size + 1, k, size);
    ProductMonotone(k + 1, i / size, size);
  }

  /** Byte `i` of the chain: in its cluster number i / size, at i % size. */
  function ByteAt(heap: seq<seq<byte>>, size: nat, chain: seq<u32>, i: nat): byte
    requires size > 0 && Uniform(heap, size) && InHeap(chain, heap)
    requires i < |chain| * size
  {
    QuotientBelow(i, size, |chain|);
    heap[chain[Block(i, size)] - FIRST_DATA][Within(i, size)]
  }

  /** All bytes of the chain's clusters, in chain order. */
  function Raw(heap: seq<seq<byte>>, size: nat, chain: seq<u32>): (raw: seq<byte>)
    requires size > 0 && Uniform(heap, size) && InHeap(chain, heap)
    ensures |raw| == |chain| * size
    ensures forall i :: 0 <= i < |raw| ==> raw[i] == ByteAt(heap, size, chain, i)
  {
    seq(|chain| * size, i requires 0 <= i < |chain| * size => ByteAt(heap, size, chain, i))
  }

  lemma PositionInChain(k: nat, size: nat, n: nat, offset: nat, len: nat)
    requires k < n && offset + len <= size
    ensures k * size + offset + len <= n * size
  {
    ProductMonotone(k + 1, n, size);
  }

  /** Writing inside the k-th cluster of a chain splices the chain's bytes at that place. */
  lemma WriteInChain(heap: seq<seq<byte>>, size: nat, chain: seq<u32>, k: nat, offset: nat, b: seq<byte>)
    requires size > 0 && Uniform(heap, size) && InHeap(chain, heap) && Distinct(chain)
    requires k < |chain| && offset + |b| <= size
    ensures k * size + offset + |b| <= |chain| * size
    ensures Raw(Write(heap, chain[k], offset, b), size, chain)
            == Splice(Raw(heap, size, chain), k * size + offset, b)
  {
    PositionInChain(k, size, |chain|, offset, |b|);
    var heap' := Write(heap, chain[k], offset, b);
    var at := k * size + offset;
    forall i | 0 <= i < |chain| * size
      ensures ByteAt(heap', size, chain, i) == if at <= i < at + |b| then b[i - at] else ByteAt(heap, size, chain, i)
    {
      ByteWritten(heap, size, chain, k, offset, b, i);
    }
    hide ByteAt, Write, Distinct;
  }

  lemma ByteWritten(heap: seq<seq<byte>>, size: nat, chain: seq<u32>, k: nat, offset: nat, b: seq<byte>, i: nat)
    requires size > 0 && Uniform(heap, size) && InHeap(chain, heap) && Distinct(chain)
    requires k < |chain| && offset + |b| <= size && i < |chain| * size
    ensures var at := k * size + offset;
            ByteAt(Write(heap, chain[k], offset, b), size, chain, i)
            == if at <= i < at + |b| then b[i - at] else ByteAt(heap, size, chain, i)
  {
    hide Write, Distinct, Splice, Block, Within;
    QuotientBelow(i, size, |chain|);
    BlockPosition(i, k, size, offset, |b|);
    RowWritten(heap, size, chain, k, offset, b, Block(i, size), Within(i, size));
  }

  lemma RowWritten(heap: seq<seq<byte>>, size: nat, chain: seq<u32>, k: nat, offset: nat, b: seq<byte>, q: nat, r: nat)
    requires Uniform(heap, size) && InHeap(chain, heap) && Distinct(chain)
    requires k < |chain| && offset + |b| <= size && q < |chain| && r < size
    ensures Write(heap, chain[k], offset, b)[chain[q] - FIRST_DATA][r]
            == if q == k && offset <= r < offset + |b| then b[r - offset] else heap[chain[q] - FIRST_DATA][r]
  {
    assert q != k ==> chain[q] != chain[k];
  }

  /** What lies in the k-th cluster, read from the chain's bytes. */
  lemma ReadInChain(heap: seq<seq<byte>>, size: nat, chain: seq<u32>, k: nat, offset: nat, n: nat)
    requires size > 0 && Uniform(heap, size) && InHeap(chain, heap)
    requires k < |chain| && offset + n <= size
    ensures k * size + offset + n <= |chain| * size
    ensures Read(heap, chain[k], offset, n)
            == Raw(heap, size, chain)[k * size + offset..k * size + offset + n]
  {
    PositionInChain(k, size, |chain|, offset, n);
    var raw := Raw(heap, size, chain);
    var at := k * size + offset;
    forall i | at <= i < at + n
      ensures raw[i] == heap[chain[k] - FIRST_DATA][i - k * size]
    {
      QuotientOf(k, i - k * size, size);
    }
    var here := heap[chain[k] - FIRST_DATA][offset..offset + n];
    assert forall i :: 0 <= i < n ==> here[i] == raw[at + i];
  }

  /** The bytes of a chain's first clusters are the first of its bytes. */
  lemma RawPrefix(heap: seq<seq<byte>>, size: nat, chain: seq<u32>, n: nat)
    requires size > 0 && Uniform(heap, size) && InHeap(chain, heap)
    requires n <= |chain|
    ensures n * size <= |chain| * size
    ensures Raw(heap, size, chain[..n]) == Raw(heap, size, chain)[..n * size]
  {
    ProductMonotone(n, |chain|, size);
    forall i | 0 <= i < n * size
      ensures ByteAt(heap, size, chain[..n], i) == ByteAt(heap, size, chain, i)
    {
      QuotientBelow(i, size, n);
    }
  }

  lemma SpliceTwice(s: seq<byte>, at: nat, a: seq<byte>, b: seq<byte>)
    requires at + |a| + |b| <= |s|
    ensures Splice(Splice(s, at, a), at + |a|, b) == Splice(s, at, a + b)
  {
  }

  /** `heap'` differs from `heap` only in clusters of the chain. */
  ghost predicate OnlyIn(heap: seq<seq<byte>>, heap': seq<seq<byte>>, chain: seq<u32>) {
    && |heap'| == |heap|
    && forall c: u32 :: InMap(c, |heap|) && c !in chain ==> heap'[c - FIRST_DATA] == heap[c - FIRST_DATA]
  }

  /** `heap'` holds `b` at position `at` of the chain, and everything else as in `heap`. */
  ghost predicate Wrote(heap: seq<seq<byte>>, size: nat, chain: seq<u32>, at: nat, b: seq<byte>,
                        heap': seq<seq<byte>>) {
    && size > 0 && Uniform(heap, size) && Uniform(heap', size)
    && InHeap(chain, heap) && at + |b| <= |chain| * size
    && OnlyIn(heap, heap', chain)
    && (Distinct(chain) ==> Raw(heap', size, chain) == Splice(Raw(heap, size, chain), at, b))
  }

  lemma WroteNothing(heap: seq<seq<byte>>, size: nat, chain: seq<u32>, at: nat)
    requires size > 0 && Uniform(heap, size) && InHeap(chain, heap) && at <= |chain| * size
    ensures Wrote(heap, size, chain, at, [], heap)
  {
  }

  /** One more stretch, inside the k-th cluster and next to what has been written. */
  lemma WroteMore(heap: seq<seq<byte>>, size: nat, chain: seq<u32>, at: nat, b: seq<byte>, heap': seq<seq<byte>>,
                  k: nat, offset: nat, more: seq<byte>)
    requires Wrote(heap, size, chain, at, b, heap')
    requires k < |chain| && offset + |more| <= size && at + |b| == k * size + offset
    ensures InMap(chain[k], |heap'|) && offset + |more| <= |heap'[chain[k] - FIRST_DATA]|
    ensures Wrote(heap, size, chain, at, b + more, Write(heap', chain[k], offset, more))
  {
    PositionInChain(k, size, |chain|, offset, |more|);
    if Distinct(chain) {
      WriteInChain(heap', size, chain, k, offset, more);
      SpliceTwice(Raw(heap, size, chain), at, b, more);
    }
  }

  /** A walk over `total` bytes from `at`, `done` of them behind it, now in the k-th cluster at `offset`. */
  ghost predicate Walking(size: nat, n: nat, at: nat, total: nat, done: nat, k: nat, offset: nat) {
    && size > 0 && done <= total && at + total <= n * size
    && (done < total ==> k < n && offset < size && at + done == k * size + offset)
  }

  function Piece(size: nat, offset: nat, left: nat): nat
    requires offset <= size
  {
    if size - offset < left then size - offset else left
  }

  lemma WalkingStarts(size: nat, n: nat, at: nat, total: nat)
    requires size > 0 && at + total <= n * size
    ensures at / size >= 0 && 0 <= at % size < size
    ensures Walking(size, n, at, total, 0, at / size, at % size)
    ensures total > 0 ==> at / size < n
  {
    assert at == (at / size) * size + at % size;
    if total > 0 {
      ProductBelow(at / size, n, size);
    }
  }

  lemma WalkingStep(size: nat, n: nat, at: nat, total: nat, done: nat, k: nat, offset: nat)
    requires Walking(size, n, at, total, done, k, offset) && done < total
    ensures var piece := Piece(size, offset, total - done);
            && 0 < piece && offset + piece <= size && k < n && at + done == k * size + offset
            && Walking(size, n, at, total, done + piece, k + 1, 0)
            && (done + piece < total ==> k + 1 < n)
  {
    var piece := Piece(size, offset, total - done);
    if done + piece < total {
      assert at + done + piece == (k + 1) * size;
      ProductBelow(k + 1, n, size);
    }
  }
}
