/** The volume seen from outside: a byte sequence for each file and a number of free clusters. */
module FileSpec {
  import opened Bitmap
  import opened Content
  import opened Layout

  datatype View<K> = View(clusterSize: nat, free: nat, files: map<K, seq<byte>>)

  ghost function ViewOf<K>(d: Disk<K>): View<K>
    requires Consistent(d)
  {
    View(d.clusterSize, CountClear(d.used), map k | k in d.files :: Bytes(d, k))
  }

  /** `s` cut or filled up with zeros to `size` bytes. */
  function Resized(s: seq<byte>, size: nat): (r: seq<byte>)
    ensures |r| == size
    ensures forall i :: 0 <= i < size ==> r[i] == if i < |s| then s[i] else 0
  {
    if size <= |s| then s[..size] else s + Zeros(size - |s|)
  }

  /** The number of clusters a file gains when its size changes. */
  function Cost(from: nat, to: nat, clusterSize: nat): int
    requires clusterSize > 0
  {
    ClustersFor(to, clusterSize) - ClustersFor(from, clusterSize)
  }

  /** Truncation succeeds exactly when there is room; it keeps the common prefix, and with `erase` fills a
      new tail with zeros. Without room nothing changes. */
  ghost predicate Truncates<K>(v: View<K>, k: K, size: nat, erase: bool, ok: bool, v': View<K>)
    requires v.clusterSize > 0 && k in v.files
  {
    var s, cost := v.files[k], Cost(|v.files[k]|, size, v.clusterSize);
    if cost > v.free then !ok && v' == v
    else
      && ok && v'.clusterSize == v.clusterSize && v'.free == v.free - cost
      && k in v'.files && v'.files == v.files[k := v'.files[k]]
      && |v'.files[k]| == size
      && (forall i :: 0 <= i < |s| && i < size ==> v'.files[k][i] == s[i])
      && (erase ==> v'.files[k] == Resized(s, size))
  }

  datatype Result<K> = Result(ok: bool, view: View<K>)

  /** Writing `b` at `offset`: first the gap up to `offset` is filled with zeros, then the bytes are put
      over what is there; either step may find no room. */
  function Written<K>(v: View<K>, k: K, offset: nat, b: seq<byte>): Result<K>
    requires v.clusterSize > 0 && k in v.files
  {
    var s := v.files[k];
    var grown := if offset > |s| then offset else |s|;
    var size := if offset + |b| > grown then offset + |b| else grown;
    var gap, more := Cost(|s|, grown, v.clusterSize), Cost(grown, size, v.clusterSize);
    if gap > v.free then Result(false, v)
    else
      var filled := v.(free := v.free - gap, files := v.files[k := Resized(s, grown)]);
      if more > filled.free then Result(false, filled)
      else
        Result(true, v.(free := filled.free - more,
                        files := v.files[k := Splice(Resized(s, size), offset, b)]))
  }

  /** What reading at most `size` bytes at `offset` returns. */
  function Slice(s: seq<byte>, offset: nat, size: nat): seq<byte> {
    if offset >= |s| then []
    else if offset + size <= |s| then s[offset..offset + size]
    else s[offset..]
  }

  /** Byte by byte, and with the clusters counted: writing finds room exactly when the size it leads to needs no more
      clusters than there are, and then the file has the written bytes, zeros in the gap before them, and its own
      bytes elsewhere. No other file changes. */
  lemma WrittenBytes<K>(v: View<K>, k: K, offset: nat, b: seq<byte>)
    requires v.clusterSize > 0 && k in v.files
    ensures var s, cs, r := v.files[k], v.clusterSize, Written(v, k, offset, b);
            var end := if offset + |b| > |s| then offset + |b| else |s|;
            var cost := (end + cs - 1) / cs - (|s| + cs - 1) / cs;
            && (r.ok <==> cost <= v.free)
            && r.view.files.Keys == v.files.Keys && r.view.clusterSize == cs
            && (forall k' :: k' in v.files && k' != k ==> r.view.files[k'] == v.files[k'])
            && (r.ok ==>
                  && r.view.free == v.free - cost && |r.view.files[k]| == end
                  && forall i :: 0 <= i < end ==>
                       r.view.files[k][i] == if offset <= i < offset + |b| then b[i - offset]
                                             else if i < |s| then s[i] else 0)
            && (!r.ok ==>
                  || r.view == v
                  || (|s| < offset == |r.view.files[k]|
                      && r.view.free == v.free - ((offset + cs - 1) / cs - (|s| + cs - 1) / cs)
                      && forall i :: 0 <= i < offset ==> r.view.files[k][i] == if i < |s| then s[i] else 0))
  {
    hide ClustersFor;
    var s, cs := v.files[k], v.clusterSize;
    var grown := if offset > |s| then offset else |s|;
    var size := if offset + |b| > grown then offset + |b| else grown;
    CostIs(|s|, grown, cs);
    CostIs(grown, size, cs);
    if grown == |s| {
      ResizedNot(s);
    }
  }

  lemma CostIs(from: nat, to: nat, cs: nat)
    requires cs > 0 && from <= to
    ensures Cost(from, to, cs) == (to + cs - 1) / cs - (from + cs - 1) / cs >= 0
  {
    ClustersForMonotone(from, to, cs);
  }

  lemma ResizedNot(s: seq<byte>)
    ensures Resized(s, |s|) == s
  {
  }

  /** Reading returns what there is from `offset` on, at most `size` bytes of it. */
  lemma SliceBytes(s: seq<byte>, offset: nat, size: nat)
    ensures var r := Slice(s, offset, size);
            && |r| == (if offset >= |s| then 0 else if |s| - offset < size then |s| - offset else size)
            && forall i :: 0 <= i < |r| ==> r[i] == s[offset + i]
  {
  }
}
