/** The byte form of the recovery tool's records: writing them and reading them back. */
module Marshal {
  import opened Content
  import opened LittleEndian
  import opened Options
  import opened Restore

  const EXTENT_BYTES: nat := 16
  const COUNT_BYTES: nat := 8

  /** One file to recover, and whether that has been done. */
  datatype Record = Record(name: seq<byte>, extents: seq<Extent>, processed: bool)

  /** The numbers fit their fields. */
  predicate Fits(r: Record) {
    && |r.extents| < 0x1_0000_0000_0000_0000
    && forall e :: e in r.extents ==> e.offset < 0x1_0000_0000_0000_0000 && e.size < 0x1_0000_0000
  }

  // --- strings ---

  /** What marshalString leaves in its buffer of |name| + 1 bytes: strcpy stops at the first NUL, and the
      bytes after it stay as they came from the heap. */
  function EncodeName(name: seq<byte>, garbage: seq<byte>): (b: seq<byte>)
    requires |garbage| == |name|
    ensures |b| == |name| + 1
  {
    if name == [] then [0]
    else if name[0] == 0 then [0] + garbage
    else [name[0]] + EncodeName(name[1..], garbage[1..])
  }

  function DecodeName(b: seq<byte>): Option<(seq<byte>, nat)> {
    if b == [] then None
    else if b[0] == 0 then Some(([], 1))
    else
      match DecodeName(b[1..])
      case None => None
      case Some((name, n)) => Some(([b[0]] + name, n + 1))
  }

  /** A name survives exactly when it has no NUL in it. */
  lemma {:induction false} NameRoundTrip(name: seq<byte>, garbage: seq<byte>, rest: seq<byte>)
    requires |garbage| == |name|
    ensures DecodeName(EncodeName(name, garbage) + rest) == Some((name, |name| + 1)) <==> 0 !in name
  {
    var b := EncodeName(name, garbage) + rest;
    if name != [] && name[0] != 0 {
      NameRoundTrip(name[1..], garbage[1..], rest);
      assert b[1..] == EncodeName(name[1..], garbage[1..]) + rest;
      assert name == [name[0]] + name[1..];
    }
  }

  /** What strcpy has copied when it stops at position `n`. */
  lemma {:induction false} CopiedName(name: seq<byte>, garbage: seq<byte>, n: nat)
    requires |garbage| == |name| && n <= |name| && 0 !in name[..n] && (n < |name| ==> name[n] == 0)
    ensures EncodeName(name, garbage) == name[..n] + [0] + garbage[n..]
  {
    if n > 0 {
      assert name[0] in name[..n] && name[1..][..n - 1] == name[..n][1..];
      CopiedName(name[1..], garbage[1..], n - 1);
    }
  }

  /** Without a NUL the buffer is the name and one NUL, whatever was there before. */
  lemma {:induction false} CleanName(name: seq<byte>, garbage: seq<byte>)
    requires |garbage| == |name| && 0 !in name
    ensures EncodeName(name, garbage) == name + [0]
  {
    if name != [] {
      CleanName(name[1..], garbage[1..]);
      assert name == [name[0]] + name[1..];
    }
  }

  // --- extents ---

  /** An extent as it lies in memory: 8 bytes, 4 bytes, and 4 of padding. */
  function EncodeExtent(e: Extent): (b: seq<byte>)
    ensures |b| == EXTENT_BYTES
  {
    Little(e.offset, 8) + Little(e.size, 4) + [0, 0, 0, 0]
  }

  function DecodeExtent(b: seq<byte>): Extent
    requires |b| == EXTENT_BYTES
  {
    Extent(Value(b[..8]), Value(b[8..12]))
  }

  lemma ExtentRoundTrip(e: Extent)
    requires e.offset < 0x1_0000_0000_0000_0000 && e.size < 0x1_0000_0000
    ensures DecodeExtent(EncodeExtent(e)) == e
  {
    Widths();
    ValueOfLittle(e.offset, 8);
    ValueOfLittle(e.size, 4);
    var b := EncodeExtent(e);
    assert b[..8] == Little(e.offset, 8) && b[8..12] == Little(e.size, 4);
  }

  function EncodeExtents(es: seq<Extent>): (b: seq<byte>)
    ensures |b| == EXTENT_BYTES * |es|
  {
    if es == [] then [] else EncodeExtents(es[..|es| - 1]) + EncodeExtent(es[|es| - 1])
  }

  function EncodeList(es: seq<Extent>): (b: seq<byte>)
    ensures |b| == COUNT_BYTES + EXTENT_BYTES * |es|
  {
    Little(|es|, 8) + EncodeExtents(es)
  }

  function DecodeExtents(b: seq<byte>, n: nat): (es: seq<Extent>)
    requires EXTENT_BYTES * n <= |b|
    ensures |es| == n
  {
    seq(n, i requires 0 <= i < n => DecodeExtent(b[EXTENT_BYTES * i..EXTENT_BYTES * (i + 1)]))
  }

  /** The list at the start of `b`, if there is room for it, and the bytes it takes. */
  function DecodeList(b: seq<byte>): Option<(seq<Extent>, nat)> {
    if |b| < COUNT_BYTES then None
    else
      var n := Value(b[..COUNT_BYTES]);
      if |b| < COUNT_BYTES + EXTENT_BYTES * n then None
      else Some((DecodeExtents(b[COUNT_BYTES..], n), COUNT_BYTES + EXTENT_BYTES * n))
  }

  lemma {:induction false} ExtentsAt(es: seq<Extent>, i: nat)
    requires i < |es|
    ensures EncodeExtents(es)[EXTENT_BYTES * i..EXTENT_BYTES * (i + 1)] == EncodeExtent(es[i])
  {
    hide EncodeExtents, EncodeExtent;
    var n := |es| - 1;
    var init, last := EncodeExtents(es[..n]), EncodeExtent(es[n]);
    ExtentsLast(es);
    if i < n {
      ExtentsAt(es[..n], i);
      SliceOfPrefix(init, last, EXTENT_BYTES * i, EXTENT_BYTES * (i + 1));
      assert es[..n][i] == es[i];
    } else {
      SliceOfSuffix(init, last);
    }
  }

  lemma ExtentsLast(es: seq<Extent>)
    requires es != []
    ensures var n := |es| - 1;
            && EncodeExtents(es) == EncodeExtents(es[..n]) + EncodeExtent(es[n])
            && |EncodeExtents(es[..n])| == EXTENT_BYTES * n && |EncodeExtent(es[n])| == EXTENT_BYTES
  {
  }

  lemma ExtentsRoundTrip(es: seq<Extent>, rest: seq<byte>)
    requires forall e :: e in es ==> e.offset < 0x1_0000_0000_0000_0000 && e.size < 0x1_0000_0000
    ensures DecodeExtents(EncodeExtents(es) + rest, |es|) == es
  {
    hide EncodeExtents, EncodeExtent, DecodeExtents, DecodeExtent;
    var back := DecodeExtents(EncodeExtents(es) + rest, |es|);
    forall i | 0 <= i < |es|
      ensures back[i] == es[i]
    {
      assert es[i] in es;
      ExtentReadBack(es, rest, i);
      DecodedAt(EncodeExtents(es) + rest, |es|, i);
    }
  }

  lemma DecodedAt(b: seq<byte>, n: nat, i: nat)
    requires EXTENT_BYTES * n <= |b| && i < n
    ensures DecodeExtents(b, n)[i] == DecodeExtent(b[EXTENT_BYTES * i..EXTENT_BYTES * (i + 1)])
  {
  }

  lemma ExtentReadBack(es: seq<Extent>, rest: seq<byte>, i: nat)
    requires i < |es| && es[i].offset < 0x1_0000_0000_0000_0000 && es[i].size < 0x1_0000_0000
    ensures DecodeExtent((EncodeExtents(es) + rest)[EXTENT_BYTES * i..EXTENT_BYTES * (i + 1)]) == es[i]
  {
    hide EncodeExtents, EncodeExtent, DecodeExtent;
    ExtentsAt(es, i);
    ExtentRoundTrip(es[i]);
    SliceOfPrefix(EncodeExtents(es), rest, EXTENT_BYTES * i, EXTENT_BYTES * (i + 1));
  }

  lemma SliceOfSuffix(a: seq<byte>, b: seq<byte>)
    ensures (a + b)[|a|..|a| + |b|] == b
  {
  }

  lemma SliceOfPrefix(a: seq<byte>, b: seq<byte>, from: nat, to: nat)
    requires from <= to <= |a|
    ensures (a + b)[from..to] == a[from..to]
  {
  }

  lemma ListRoundTrip(es: seq<Extent>, rest: seq<byte>)
    requires |es| < 0x1_0000_0000_0000_0000
    requires forall e :: e in es ==> e.offset < 0x1_0000_0000_0000_0000 && e.size < 0x1_0000_0000
    ensures DecodeList(EncodeList(es) + rest) == Some((es, |EncodeList(es)|))
  {
    hide Value, DecodeExtents, EncodeExtents, Power;
    var b := EncodeList(es) + rest;
    Widths();
    ValueOfLittle(|es|, 8);
    ExtentsRoundTrip(es, rest);
    assert b[..COUNT_BYTES] == Little(|es|, 8);
    assert b[COUNT_BYTES..] == EncodeExtents(es) + rest;
  }

  // --- records ---

  function EncodeFlag(b: bool): seq<byte> {
    [if b then 1 else 0]
  }

  /** A record whose name has no NUL, as bytes. */
  function Encode(r: Record): (b: seq<byte>)
    ensures |b| == |r.name| + 1 + COUNT_BYTES + EXTENT_BYTES * |r.extents| + 1
  {
    r.name + [0] + EncodeList(r.extents) + EncodeFlag(r.processed)
  }

  function Decode(b: seq<byte>): Option<(Record, nat)> {
    match DecodeName(b)
    case None => None
    case Some((name, n)) =>
      if n > |b| then None
      else
        match DecodeList(b[n..])
        case None => None
        case Some((extents, m)) =>
          if n + m >= |b| then None
          else Some((Record(name, extents, b[n + m] != 0), n + m + 1))
  }

  /** Reading a record back gives the record, and leaves what follows it. */
  lemma RecordRoundTrip(r: Record, rest: seq<byte>)
    requires Fits(r) && 0 !in r.name
    ensures Decode(Encode(r) + rest) == Some((r, |Encode(r)|))
  {
    hide DecodeName, EncodeName, DecodeList, EncodeList;
    var name, list, flag := r.name + [0], EncodeList(r.extents), EncodeFlag(r.processed);
    var b := Encode(r) + rest;
    CleanName(r.name, r.name);
    NameRoundTrip(r.name, r.name, list + (flag + rest));
    ListRoundTrip(r.extents, flag + rest);
    InThree(name, list, flag, rest);
    assert b[|name| + |list|] == flag[0];
  }

  lemma InThree(a: seq<byte>, b: seq<byte>, c: seq<byte>, rest: seq<byte>)
    ensures a + b + c + rest == a + (b + (c + rest))
    ensures (a + b + c + rest)[|a|..] == b + (c + rest)
  {
    assert a + b + c + rest == a + (b + (c + rest));
  }

  // --- the buffers and cursors that produce and consume these bytes ---

  /** strcpy into a buffer of |what| + 1 bytes that hold whatever they held. */
  method MarshalString(what: seq<byte>) returns (ret: array<byte>, ghost garbage: seq<byte>)
    ensures fresh(ret) && |garbage| == |what| && ret[..] == EncodeName(what, garbage)
    ensures 0 !in what ==> ret[..] == what + [0]
  {
    hide EncodeName;
    ret := new byte[|what| + 1];
    var i := 0;
    while i < |what| && what[i] != 0
      invariant i <= |what| && 0 !in what[..i]
      invariant ret[..i] == what[..i]
    {
      ret[i] := what[i];
      i := i + 1;
    }
    ret[i] := 0;
    garbage := what[..i] + ret[i + 1..];
    CopiedName(what, garbage, i);
    assert garbage[i..] == ret[i + 1..];
    assert ret[..] == what[..i] + [0] + garbage[i..];
    if 0 !in what {
      CleanName(what, garbage);
    }
  }

  lemma ExtentsNone()
    ensures EncodeExtents([]) == []
  {
  }

  /** What has been written so far, when some bytes have been put behind it. */
  lemma CopiedNext(was: seq<byte>, now: seq<byte>, at: nat, b: seq<byte>)
    requires at + |b| <= |was| && now == Splice(was, at, b)
    ensures now[..at + |b|] == was[..at] + b
  {
  }

  method MarshalOffsets(es: seq<Extent>) returns (ret: array<byte>)
    ensures fresh(ret) && ret[..] == EncodeList(es)
  {
    hide Little, EncodeExtent, EncodeExtents, Splice;
    ret := new byte[COUNT_BYTES + EXTENT_BYTES * |es|];
    ghost var before := ret[..];
    Copy(ret, 0, Little(|es|, 8));
    CopiedNext(before, ret[..], 0, Little(|es|, 8));
    ExtentsNone();
    assert es[..0] == [];
    var i := 0;
    while i < |es|
      invariant i <= |es|
      invariant ret[..COUNT_BYTES + EXTENT_BYTES * i] == Little(|es|, 8) + EncodeExtents(es[..i])
    {
      ghost var was := ret[..];
      ExtentsLast(es[..i + 1]);
      assert es[..i + 1][..i] == es[..i];
      Copy(ret, COUNT_BYTES + EXTENT_BYTES * i, EncodeExtent(es[i]));
      CopiedNext(was, ret[..], COUNT_BYTES + EXTENT_BYTES * i, EncodeExtent(es[i]));
      i := i + 1;
    }
    assert es[..i] == es;
  }

  /** Reads a string at `input` and moves the cursor past its NUL. */
  method UnmarshalString(mem: array<byte>, input: nat) returns (out: seq<byte>, next: nat)
    requires input <= mem.Length && DecodeName(mem[input..]) != None
    ensures DecodeName(mem[input..]) == Some((out, next - input)) && input < next <= mem.Length
  {
    hide DecodeName;
    ghost var b := mem[input..];
    NameEnds(b);
    ghost var q := DecodeName(b).value.1 - 1;
    next := input;
    while mem[next] != 0
      invariant input <= next <= input + q
      decreases input + q - next
    {
      assert mem[next] == b[next - input];
      next := next + 1;
    }
    assert mem[next] == b[next - input];
    out := mem[input..next];
    assert out == b[..q];
    next := next + 1;
  }

  /** A decoded name runs up to the first NUL. */
  lemma {:induction false} NameEnds(b: seq<byte>)
    requires DecodeName(b) != None
    ensures var (name, n) := DecodeName(b).value;
            0 < n <= |b| && b[n - 1] == 0 && name == b[..n - 1] && 0 !in name
  {
    if b[0] != 0 {
      NameEnds(b[1..]);
    }
  }

  /** Reads a counted list at `input` and moves the cursor past it. */
  method UnmarshalOffsets(mem: array<byte>, input: nat) returns (out: seq<Extent>, next: nat)
    requires input <= mem.Length && DecodeList(mem[input..]) != None
    ensures DecodeList(mem[input..]) == Some((out, next - input)) && input <= next <= mem.Length
  {
    hide DecodeExtent, Value;
    ghost var b := mem[input..];
    var n := Value(mem[input..input + COUNT_BYTES]);
    assert mem[input..input + COUNT_BYTES] == b[..COUNT_BYTES];
    out := [];
    next := input + COUNT_BYTES;
    var i := 0;
    while i < n
      invariant i <= n && next == input + COUNT_BYTES + EXTENT_BYTES * i
      invariant out == DecodeExtents(b[COUNT_BYTES..], n)[..i]
    {
      assert mem[next..next + EXTENT_BYTES] == b[COUNT_BYTES..][EXTENT_BYTES * i..EXTENT_BYTES * (i + 1)];
      out := out + [DecodeExtent(mem[next..next + EXTENT_BYTES])];
      next := next + EXTENT_BYTES;
      i := i + 1;
    }
    assert out == DecodeExtents(b[COUNT_BYTES..], n);
  }

  /** Reads one whole record. */
  method UnmarshalRecord(mem: array<byte>, input: nat) returns (r: Record, next: nat)
    requires input <= mem.Length && Decode(mem[input..]) != None
    ensures Decode(mem[input..]) == Some((r, next - input)) && input < next <= mem.Length
  {
    hide DecodeName, DecodeList;
    ghost var b := mem[input..];
    var name, afterName := UnmarshalString(mem, input);
    assert b[afterName - input..] == mem[afterName..];
    var extents, afterList := UnmarshalOffsets(mem, afterName);
    r := Record(name, extents, mem[afterList] != 0);
    next := afterList + 1;
  }

  // --- byte by byte ---

  /** Where each field of a record is: the name and a NUL, the number of extents in eight bytes, for each extent its
      offset in eight bytes, its size in four and four bytes of padding, and a byte for the flag. */
  lemma RecordBytes(r: Record, i: nat)
    requires Fits(r)
    ensures var b, at, n := Encode(r), |r.name| + 1, |r.extents|;
            && |b| == |r.name| + 16 * n + 10
            && b[..|r.name|] == r.name && b[|r.name|] == 0
            && Value(b[at..at + 8]) == n
            && (i < n ==> Value(b[at + 16 * i + 8..at + 16 * i + 16]) == r.extents[i].offset
                          && Value(b[at + 16 * i + 16..at + 16 * i + 20]) == r.extents[i].size
                          && b[at + 16 * i + 20..at + 16 * i + 24] == [0, 0, 0, 0])
            && b[at + 16 * n + 8] == if r.processed then 1 else 0
  {
    hide EncodeExtents, EncodeExtent, Little, Value, Power;
    var b, at, n := Encode(r), |r.name| + 1, |r.extents|;
    Widths();
    ValueOfLittle(n, 8);
    assert b[at..at + 8] == Little(n, 8);
    if i < n {
      var e := r.extents[i];
      assert e in r.extents;
      ExtentsAt(r.extents, i);
      var es := EncodeExtents(r.extents);
      assert b[at + 8..at + 8 + |es|] == es;
      ExtentBytes(e);
      ThreeParts(b, at + 8, es, 16 * i, EncodeExtent(e));
    }
  }

  lemma ThreeParts(b: seq<byte>, at: nat, es: seq<byte>, i: nat, e: seq<byte>)
    requires at + |es| <= |b| && b[at..at + |es|] == es && i + 16 <= |es| && es[i..i + 16] == e
    ensures b[at + i..at + i + 8] == e[..8] && b[at + i + 8..at + i + 12] == e[8..12]
    ensures b[at + i + 12..at + i + 16] == e[12..]
  {
    PartOfPart(b, at, |es|, i, 16);
    PartOfPart(b, at + i, 16, 0, 8);
    PartOfPart(b, at + i, 16, 8, 4);
    PartOfPart(b, at + i, 16, 12, 4);
  }

  lemma PartOfPart(s: seq<byte>, a: nat, n: nat, i: nat, m: nat)
    requires a + n <= |s| && i + m <= n
    ensures s[a..a + n][i..i + m] == s[a + i..a + i + m]
  {
    var p, q := s[a..a + n][i..i + m], s[a + i..a + i + m];
    assert forall k :: 0 <= k < m ==> p[k] == s[a..a + n][i + k] == s[a + i + k];
  }

  lemma ExtentBytes(e: Extent)
    requires e.offset < 0x1_0000_0000_0000_0000 && e.size < 0x1_0000_0000
    ensures var b := EncodeExtent(e);
            |b| == 16 && Value(b[..8]) == e.offset && Value(b[8..12]) == e.size && b[12..] == [0, 0, 0, 0]
  {
    Widths();
    ValueOfLittle(e.offset, 8);
    ValueOfLittle(e.size, 4);
    var b := EncodeExtent(e);
    assert b[..8] == Little(e.offset, 8) && b[8..12] == Little(e.size, 4);
  }
}
