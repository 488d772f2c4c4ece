/** The entries written for a new file, a renamed one, and one whose fields have changed. */
module FileRecords {
  import opened Checksum
  import opened Clusters
  import opened Content
  import opened Entries
  import opened LittleEndian
  import opened Scanning
  import opened Utf

  const ALWAYS1: byte := 1
  const CONTIGUOUS: byte := 2

  /** Bytes of an entry replaced. */
  function PutBytes(e: Slot, at: nat, b: seq<byte>): Slot
    requires at + |b| <= ENTRY_SIZE
  {
    Splice(e, at, b)
  }

  /** An entry with the checksum of its set put in. */
  function Summed(meta1: Slot, meta2: Slot, name: seq<unit>): Slot
    requires Buffer(name)
  {
    PutBytes(meta1, 2, Little(SetSum(meta1, meta2, name), 2))
  }

  lemma KeptPut(e: Slot, b: seq<byte>)
    requires |b| == 2
    ensures Kept(PutBytes(e, 2, b), SUM_FIELD) == Kept(e, SUM_FIELD)
  {
    var _ := KeptChange(e, SUM_FIELD, 2, b[0]);
    var _ := KeptChange(e[2 := b[0]], SUM_FIELD, 3, b[1]);
    assert e[2 := b[0]][3 := b[1]] == PutBytes(e, 2, b);
  }

  lemma FieldPut(e: Slot, at: nat, b: seq<byte>, from: nat, n: nat)
    requires at + |b| <= ENTRY_SIZE && from + n <= ENTRY_SIZE
    ensures from + n <= at || at + |b| <= from ==> Field(PutBytes(e, at, b), from, n) == Field(e, from, n)
    ensures from == at && n == |b| ==> Field(PutBytes(e, at, b), from, n) == Value(b)
  {
    hide Value;
    SplicedPart(e, at, b, from, n);
  }

  /** A part of a buffer some bytes of which have been replaced. */
  lemma SplicedPart(s: seq<byte>, at: nat, b: seq<byte>, from: nat, n: nat)
    requires at + |b| <= |s| && from + n <= |s|
    ensures from + n <= at || at + |b| <= from ==> Splice(s, at, b)[from..from + n] == s[from..from + n]
    ensures from == at && n == |b| ==> Splice(s, at, b)[from..from + n] == b
  {
    var s' := Splice(s, at, b);
    var part, was := s'[from..from + n], s[from..from + n];
    if from + n <= at || at + |b| <= from {
      assert forall i :: 0 <= i < n ==> part[i] == was[i];
    } else if from == at && n == |b| {
      assert forall i :: 0 <= i < n ==> part[i] == b[i];
    }
  }

  /** The checksum put in is that of the entries it is put into. */
  lemma SummedRight(meta1: Slot, meta2: Slot, name: seq<unit>)
    requires Buffer(name)
    ensures var m := Summed(meta1, meta2, name);
            && Field(m, 2, 2) == SetSum(m, meta2, name) == SetSum(meta1, meta2, name)
            && m[0] == meta1[0] && m[1] == meta1[1] && Field(m, 4, 2) == Field(meta1, 4, 2)
  {
    hide Field, Fold, Kept, Value, Little;
    var b := Little(SetSum(meta1, meta2, name), 2);
    KeptPut(meta1, b);
    FieldPut(meta1, 2, b, 2, 2);
    FieldPut(meta1, 2, b, 4, 2);
    TwoBytes(SetSum(meta1, meta2, name));
  }

  lemma TwoBytes(n: nat)
    requires n < 0x1_0000
    ensures Value(Little(n, 2)) == n
  {
    assert Power(2) == 0x1_0000 by { assert Power(1) == 256; }
    ValueOfLittle(n, 2);
  }

  /** The checksum of a set, calculated from its two meta entries and the name in core. */
  method CalcChecksum(meta1: Slot, meta2: Slot, name: seq<unit>) returns (sum: nat)
    requires Buffer(name)
    ensures sum == SetSum(meta1, meta2, name)
  {
    hide Fold, Kept, NameSlot, Name;
    var nameEntries := NameParts(name);
    sum := StartChecksum(Sixteen, meta1, SUM_FIELD);
    sum := AddChecksum(Sixteen, meta2, sum);
    ghost var head := Kept(meta1, SUM_FIELD) + meta2;
    FoldAppend(Sixteen, 0, Kept(meta1, SUM_FIELD), meta2);
    assert head + Flat(NameSlots(name, 0)) == head;
    var i := 0;
    while i < nameEntries
      invariant i <= nameEntries && sum == Fold(Sixteen, 0, head + Flat(NameSlots(name, i)))
    {
      var e := NameSlot(name[i * ENAME_MAX..i * ENAME_MAX + ENAME_MAX]);
      assert NameSlots(name, i + 1)[..i] == NameSlots(name, i) && NameSlots(name, i + 1)[i] == e;
      assert head + Flat(NameSlots(name, i + 1)) == head + Flat(NameSlots(name, i)) + e;
      FoldAppend(Sixteen, 0, head + Flat(NameSlots(name, i)), e);
      sum := AddChecksum(Sixteen, e, sum);
      i := i + 1;
    }
  }

  // --- a new file ---

  /** A date, a time of day and a count of centiseconds, as stored. */
  datatype StoredTime = StoredTime(date: nat, time: nat, centisec: byte)

  function NewMeta1(nameParts: nat, attrib: nat, now: StoredTime): Slot
    requires nameParts < 255
  {
    var clock := Little(now.time, 2) + Little(now.date, 2);
    [FILE, 1 + nameParts, 0, 0] + Little(attrib, 2) + [0, 0] + clock + clock + clock
    + [now.centisec, now.centisec] + Zeros(10)
  }

  function NewMeta2(nameLength: nat, hash: nat): Slot
    requires nameLength < 256
  {
    [FILE_INFO, ALWAYS1, 0, nameLength] + Little(hash, 2) + Zeros(26)
  }

  function NewRecord(name: seq<unit>, attrib: nat, now: StoredTime, hash: nat): Record
    requires Buffer(name)
  {
    NameShort(name);
    var meta1, meta2 := NewMeta1(NameParts(name), attrib, now), NewMeta2(|Name(name)|, hash);
    Record(Summed(meta1, meta2, name), meta2, name)
  }

  lemma {:induction false} ZerosValue(n: nat)
    ensures Value(Zeros(n)) == 0
  {
    if n > 0 {
      ZerosValue(n - 1);
      assert Zeros(n)[1..] == Zeros(n - 1);
    }
  }

  /** A new file's entries are accepted and say: empty, no cluster, the attributes asked for. */
  lemma NewGood(name: seq<unit>, attrib: nat, now: StoredTime, hash: nat, clusterSize: nat)
    requires clusterSize > 0 && Buffer(name) && Name(name) != [] && attrib < 0x1_0000
    ensures var r := NewRecord(name, attrib, now, hash);
            && Good(r, clusterSize)
            && InfoOf(r.meta1, r.meta2, name) == Info(attrib, 0, FREE, false, name)
  {
    hide Name, SetSum, Summed, Little, Value;
    NameShort(name);
    var meta1, meta2 := NewMeta1(NameParts(name), attrib, now), NewMeta2(|Name(name)|, hash);
    SummedRight(meta1, meta2, name);
    TwoBytes(attrib);
    assert meta1[4..6] == Little(attrib, 2);
    assert meta2[8..16] == Zeros(8) && meta2[20..24] == Zeros(4) && meta2[24..32] == Zeros(8);
    ZerosValue(8);
    ZerosValue(4);
  }

  /** The name must not be empty: a directory into which a file without a name has been written can no longer be
      read, since its entries announce too few continuations. */
  lemma NameNeeded(name: seq<unit>, attrib: nat, now: StoredTime, hash: nat, clusterSize: nat, es: seq<Slot>, i: nat)
    requires clusterSize > 0 && Buffer(name) && attrib < 0x1_0000
    requires i < |es| && es[i] == NewRecord(name, attrib, now, hash).meta1
    ensures Good(NewRecord(name, attrib, now, hash), clusterSize) <==> Name(name) != []
    ensures Name(name) == [] ==> Scan(es, i, NOTHING, clusterSize) == Malformed
  {
    hide Name, SetSum, Little, Value, Field;
    if Name(name) != [] {
      NewGood(name, attrib, now, hash, clusterSize);
    } else {
      NameShort(name);
      var meta1, meta2 := NewMeta1(NameParts(name), attrib, now), NewMeta2(|Name(name)|, hash);
      SummedRight(meta1, meta2, name);
      ScanOne(es, i, NOTHING, clusterSize);
    }
  }

  // --- a renamed file ---

  function Renamed(r: Record, name: seq<unit>, hash: nat): Record
    requires Buffer(name)
  {
    NameShort(name);
    var meta1 := PutBytes(r.meta1, 1, [1 + NameParts(name)]);
    var meta2 := PutBytes(r.meta2, 3, [|Name(name)|] + Little(hash, 2));
    Record(Summed(meta1, meta2, name), meta2, name)
  }

  /** A renamed file keeps everything but its name. */
  lemma RenamedGood(r: Record, name: seq<unit>, hash: nat, clusterSize: nat)
    requires clusterSize > 0 && Good(r, clusterSize) && Buffer(name) && Name(name) != []
    ensures var r' := Renamed(r, name, hash);
            && Good(r', clusterSize)
            && InfoOf(r'.meta1, r'.meta2, name) == InfoOf(r.meta1, r.meta2, name)
  {
    hide Name, SetSum, Summed, Little, Field, Plausible;
    NameShort(name);
    var meta1 := PutBytes(r.meta1, 1, [1 + NameParts(name)]);
    var b := [|Name(name)|] + Little(hash, 2);
    var meta2 := PutBytes(r.meta2, 3, b);
    SummedRight(meta1, meta2, name);
    FieldPut(r.meta1, 1, [1 + NameParts(name)], 4, 2);
    FieldPut(r.meta2, 3, b, 8, 8);
    FieldPut(r.meta2, 3, b, 20, 4);
    FieldPut(r.meta2, 3, b, 24, 8);
    PlausibleAnyName(InfoOf(r.meta1, r.meta2, r.name), InfoOf(r.meta1, r.meta2, name), Field(r.meta2, 8, 8),
                     clusterSize);
  }

  // --- changed fields ---

  /** Names that take the same entries. */
  predicate SameName(a: seq<unit>, b: seq<unit>) {
    && Buffer(a) && Buffer(b) && Name(a) == Name(b)
    && a[..NameParts(a) * ENAME_MAX] == b[..NameParts(a) * ENAME_MAX]
  }

  lemma SameNameSum(meta1: Slot, meta2: Slot, a: seq<unit>, b: seq<unit>)
    requires SameName(a, b)
    ensures NameParts(a) == NameParts(b) && SetSum(meta1, meta2, a) == SetSum(meta1, meta2, b)
  {
    hide Fold, Kept, NameSlot, Name;
    var n := NameParts(a);
    forall i | 0 <= i < n
      ensures a[i * ENAME_MAX..i * ENAME_MAX + ENAME_MAX] == b[i * ENAME_MAX..i * ENAME_MAX + ENAME_MAX]
    {
      assert a[..n * ENAME_MAX][i * ENAME_MAX..i * ENAME_MAX + ENAME_MAX]
             == a[i * ENAME_MAX..i * ENAME_MAX + ENAME_MAX];
      assert b[..n * ENAME_MAX][i * ENAME_MAX..i * ENAME_MAX + ENAME_MAX]
             == b[i * ENAME_MAX..i * ENAME_MAX + ENAME_MAX];
    }
    assert NameSlots(a, n) == NameSlots(b, n);
  }

  /** The name read back from a file's entries takes the same entries. */
  lemma ReadNameSame(name: seq<unit>)
    requires Buffer(name)
    ensures SameName(ReadName(name), name)
  {
    var n := NameParts(name) * ENAME_MAX;
    assert ReadName(name)[..n] == name[..n];
  }

  /** The in-core fields that a flush writes. */
  datatype Fields = Fields(attrib: nat, size: nat, start: u32, contiguous: bool, modified: StoredTime,
                           accessed: StoredTime)

  function FlushedMeta1(meta1: Slot, f: Fields): Slot {
    PutBytes(PutBytes(PutBytes(meta1, 4, Little(f.attrib, 2)),
            12, Little(f.modified.time, 2) + Little(f.modified.date, 2)
                + Little(f.accessed.time, 2) + Little(f.accessed.date, 2)),
        21, [f.modified.centisec])
  }

  function FlushedMeta2(meta2: Slot, f: Fields): Slot {
    PutBytes(PutBytes(PutBytes(meta2, 1, [if f.size != 0 && f.contiguous then ALWAYS1 + CONTIGUOUS else ALWAYS1]),
            8, Little(f.size, 8)),
        20, Little(f.start, 4) + Little(f.size, 8))
  }

  /** A file's entries after a flush; `name` is the in-core one, from which the checksum is calculated. */
  function Flushed(r: Record, f: Fields, name: seq<unit>): Record
    requires Buffer(name)
  {
    var meta1, meta2 := FlushedMeta1(r.meta1, f), FlushedMeta2(r.meta2, f);
    Record(Summed(meta1, meta2, name), meta2, r.name)
  }

  /** Fields such as every file of a consistent volume has. */
  predicate Sensible(f: Fields, clusterSize: nat)
    requires clusterSize > 0
  {
    && f.attrib < 0x1_0000 && f.size < 0x1_0000_0000_0000_0000
    && (f.size == 0 ==> f.start == FREE) && (f.size > 0 ==> !Invalid(f.start))
    && (IsDirectory(f.attrib) ==> f.size % clusterSize == 0)
  }

  /** A flushed file's entries are accepted and say what is in core. */
  lemma FlushedGood(r: Record, f: Fields, name: seq<unit>, clusterSize: nat)
    requires clusterSize > 0 && Good(r, clusterSize) && SameName(name, r.name) && Sensible(f, clusterSize)
    ensures var r' := Flushed(r, f, name);
            && Good(r', clusterSize) && Length(r') == Length(r)
            && InfoOf(r'.meta1, r'.meta2, r.name)
               == Info(f.attrib, f.size, f.start, f.size != 0 && f.contiguous, r.name)
  {
    hide Name, SetSum, Summed, Little, Value, SameName;
    var meta1, meta2 := FlushedMeta1(r.meta1, f), FlushedMeta2(r.meta2, f);
    SameBuffers(name, r.name);
    SameNameSum(meta1, meta2, name, r.name);
    SummedRight(meta1, meta2, name);
    SameNameSum(Summed(meta1, meta2, name), meta2, name, r.name);
    TwoBytes(f.attrib);
    Flushed1(r.meta1, f);
    Flushed2(r.meta2, f);
  }

  lemma SameBuffers(a: seq<unit>, b: seq<unit>)
    requires SameName(a, b)
    ensures Buffer(a) && Buffer(b)
  {
  }

  lemma Flushed1(meta1: Slot, f: Fields)
    requires f.attrib < 0x1_0000
    ensures var m := FlushedMeta1(meta1, f); m[0] == meta1[0] && m[1] == meta1[1] && Field(m, 4, 2) == f.attrib
  {
    hide Little, Value;
    TwoBytes(f.attrib);
    assert FlushedMeta1(meta1, f)[4..6] == Little(f.attrib, 2);
  }

  lemma Flushed2(meta2: Slot, f: Fields)
    requires f.size < 0x1_0000_0000_0000_0000
    ensures var m := FlushedMeta2(meta2, f);
            && m[0] == meta2[0] && m[1] <= 3 && (m[1] / 2 % 2 == 1 <==> f.size != 0 && f.contiguous)
            && Field(m, 8, 8) == f.size && Field(m, 20, 4) == f.start && Field(m, 24, 8) == f.size
  {
    hide Little, Value, Power;
    Widths();
    ValueOfLittle(f.size, 8);
    ValueOfLittle(f.start, 4);
    var m := FlushedMeta2(meta2, f);
    assert m[8..16] == Little(f.size, 8);
    assert m[20..24] == Little(f.start, 4);
    assert m[24..32] == Little(f.size, 8);
  }

  // --- byte by byte ---

  /** The entries of a new file. Its checksum is at 2..4 of the first. */
  lemma NewBytes(name: seq<unit>, attrib: nat, now: StoredTime, hash: nat)
    requires Buffer(name)
    ensures var r := NewRecord(name, attrib, now, hash);
            var time, date := Little(now.time, 2), Little(now.date, 2);
            && r.name == name
            && r.meta1[0] == 0x85 && r.meta1[1] == 1 + (|Name(name)| + 14) / 15
            && r.meta1[4..6] == Little(attrib, 2) && r.meta1[6..8] == [0, 0]
            && r.meta1[8..10] == r.meta1[12..14] == r.meta1[16..18] == time
            && r.meta1[10..12] == r.meta1[14..16] == r.meta1[18..20] == date
            && r.meta1[20] == r.meta1[21] == now.centisec && r.meta1[22..] == Zeros(10)
            && r.meta2 == [0xc0, 1, 0, |Name(name)|] + [hash % 256, hash / 256 % 256] + Zeros(26)
  {
    hide Name, SetSum, Little;
    NameShort(name);
    Narrow(hash);
    var meta1, meta2 := NewMeta1(NameParts(name), attrib, now), NewMeta2(|Name(name)|, hash);
    SummedOnly(meta1, meta2, name);
    NewClock(NameParts(name), attrib, now);
  }

  lemma NewClock(nameParts: nat, attrib: nat, now: StoredTime)
    requires nameParts < 255
    ensures var m, time, date := NewMeta1(nameParts, attrib, now), Little(now.time, 2), Little(now.date, 2);
            && m[4..6] == Little(attrib, 2) && m[6..8] == [0, 0]
            && m[8..10] == m[12..14] == m[16..18] == time && m[10..12] == m[14..16] == m[18..20] == date
            && m[22..] == Zeros(10)
  {
    hide Little;
  }

  /** Putting the checksum in changes bytes 2 and 3 only. */
  lemma SummedOnly(meta1: Slot, meta2: Slot, name: seq<unit>)
    requires Buffer(name)
    ensures var m := Summed(meta1, meta2, name);
            && m[..2] == meta1[..2] && m[4..] == meta1[4..]
            && forall from, to :: 4 <= from <= to <= 32 ==> m[from..to] == meta1[from..to]
  {
    hide SetSum, Little;
    var m := Summed(meta1, meta2, name);
    assert m[4..] == meta1[4..];
    forall from, to | 4 <= from <= to <= 32
      ensures m[from..to] == meta1[from..to]
    {
      assert m[from..to] == m[4..][from - 4..to - 4];
      assert meta1[from..to] == meta1[4..][from - 4..to - 4];
    }
  }

  /** A renamed file has the length and the hash of its new name, and nothing else has changed but the number of
      entries and the checksum. */
  lemma RenamedBytes(r: Record, name: seq<unit>, hash: nat)
    requires Buffer(name)
    ensures var r' := Renamed(r, name, hash);
            && r'.name == name
            && r'.meta1[0] == r.meta1[0] && r'.meta1[1] == 1 + (|Name(name)| + 14) / 15 && r'.meta1[4..] == r.meta1[4..]
            && r'.meta2[..3] == r.meta2[..3] && r'.meta2[3] == |Name(name)|
            && r'.meta2[4] == hash % 256 && r'.meta2[5] == hash / 256 % 256 && r'.meta2[6..] == r.meta2[6..]
  {
    hide Name, SetSum, Little;
    NameShort(name);
    Narrow(hash);
    var meta1 := PutBytes(r.meta1, 1, [1 + NameParts(name)]);
    SummedOnly(meta1, PutBytes(r.meta2, 3, [|Name(name)|] + Little(hash, 2)), name);
    assert meta1[4..] == r.meta1[4..];
  }

  /** A flush writes attributes, times, flag, sizes and first cluster to their places, and changes nothing else but the
      checksum: not the length or the hash of the name, nor the time the file was made. */
  lemma FlushedBytes(r: Record, f: Fields, name: seq<unit>)
    requires Buffer(name)
    ensures var r' := Flushed(r, f, name);
            && r'.name == r.name
            && r'.meta1[..2] == r.meta1[..2] && r'.meta1[4..6] == Little(f.attrib, 2)
            && r'.meta1[6..12] == r.meta1[6..12]
            && r'.meta1[12..14] == Little(f.modified.time, 2) && r'.meta1[14..16] == Little(f.modified.date, 2)
            && r'.meta1[16..18] == Little(f.accessed.time, 2) && r'.meta1[18..20] == Little(f.accessed.date, 2)
            && r'.meta1[20..21] == r.meta1[20..21] && r'.meta1[21..22] == [f.modified.centisec]
            && r'.meta1[22..32] == r.meta1[22..32]
            && r'.meta2[0] == r.meta2[0] && r'.meta2[1] == (if f.size != 0 && f.contiguous then 3 else 1)
            && r'.meta2[2..8] == r.meta2[2..8] && r'.meta2[8..16] == Little(f.size, 8)
            && r'.meta2[16..20] == r.meta2[16..20]
            && r'.meta2[20..24] == Little(f.start, 4) && r'.meta2[24..32] == Little(f.size, 8)
  {
    hide Name, SetSum, Little;
    SummedOnly(FlushedMeta1(r.meta1, f), FlushedMeta2(r.meta2, f), name);
    FlushedBytes1(r.meta1, f);
    FlushedBytes2(r.meta2, f);
  }

  lemma FlushedBytes1(meta1: Slot, f: Fields)
    ensures var m := FlushedMeta1(meta1, f);
            && m[..2] == meta1[..2] && m[4..6] == Little(f.attrib, 2) && m[6..12] == meta1[6..12]
            && m[12..14] == Little(f.modified.time, 2) && m[14..16] == Little(f.modified.date, 2)
            && m[16..18] == Little(f.accessed.time, 2) && m[18..20] == Little(f.accessed.date, 2)
            && m[20..21] == meta1[20..21] && m[21..22] == [f.modified.centisec] && m[22..32] == meta1[22..32]
  {
    hide Little;
  }

  lemma FlushedBytes2(meta2: Slot, f: Fields)
    ensures var m := FlushedMeta2(meta2, f);
            && m[0] == meta2[0] && m[1] == (if f.size != 0 && f.contiguous then 3 else 1)
            && m[2..8] == meta2[2..8] && m[8..16] == Little(f.size, 8) && m[16..20] == meta2[16..20]
            && m[20..24] == Little(f.start, 4) && m[24..32] == Little(f.size, 8)
  {
    hide Little;
  }

  /** The name entries carry the name, low byte first. */
  lemma NameEntryBytes(name: seq<unit>, n: nat, j: nat, k: nat)
    requires j < n && k < 15 && n * 15 <= |name|
    ensures var e := NameSlots(name, n)[j];
            e[0] == 0xc1 && e[1] == 0
            && e[2 + 2 * k] == name[15 * j + k] % 256 && e[3 + 2 * k] == name[15 * j + k] / 256
  {
    NameBytesAt(name[j * ENAME_MAX..j * ENAME_MAX + ENAME_MAX], k);
  }

  // --- the length of the name, over all records of a directory ---

  /** The second entry says how long the name is. */
  ghost predicate LengthSaid(r: Record) {
    r.meta2[3] == |Name(r.name)|
  }

  ghost predicate LengthsSaid(rs: map<nat, Record>) {
    forall at :: at in rs ==> LengthSaid(rs[at])
  }

  lemma NewSaid(name: seq<unit>, attrib: nat, now: StoredTime, hash: nat)
    requires Buffer(name)
    ensures LengthSaid(NewRecord(name, attrib, now, hash))
  {
    NewBytes(name, attrib, now, hash);
  }

  lemma RenamedSaid(r: Record, name: seq<unit>, hash: nat)
    requires Buffer(name)
    ensures LengthSaid(Renamed(r, name, hash))
  {
    RenamedBytes(r, name, hash);
  }

  lemma FlushedSaid(r: Record, f: Fields, name: seq<unit>)
    requires Buffer(name)
    ensures LengthSaid(Flushed(r, f, name)) <==> LengthSaid(r)
  {
    FlushedBytes(r, f, name);
    var r' := Flushed(r, f, name);
    assert r'.meta2[2..8][1] == r.meta2[2..8][1];
  }
}
