/** Reading a directory: from entries to files. */
module Scanning {
  import opened Checksum
  import opened Content
  import opened Entries
  import opened Utf

  /** A file whose entries are being read: `left` of them are still to come. */
  datatype Partial = Partial(left: nat, at: nat, info: Info, sum: nat, stored: nat, validSize: nat)

  const NOTHING: Partial := Partial(0, 0, Info(0, 0, 0, false, []), 0, 0, 0)

  datatype Taken = Wrong | Complete(info: Info) | Going(p: Partial)

  /** As many units as the name field of a node takes. */
  function Cut(name: seq<unit>): (c: seq<unit>)
    ensures |c| <= NAME_MAX && (|name| <= NAME_MAX ==> c == name)
  {
    if |name| <= NAME_MAX then name else name[..NAME_MAX]
  }

  /** The name field of a node, zero behind what has been read. */
  function Padded(name: seq<unit>): (b: seq<unit>)
    requires |name| <= NAME_MAX
    ensures Buffer(b) && b[..|name|] == name
  {
    name + seq(NAME_MAX + 1 - |name|, _ => 0)
  }

  predicate PartialOk(p: Partial) {
    Sum(Sixteen, p.sum) && |p.info.name| <= NAME_MAX
  }

  /** One entry read. Entries of other kinds (bitmap, upper case table, label) are passed over here. */
  function Take(p: Partial, e: Slot, i: nat, clusterSize: nat): (t: Taken)
    requires clusterSize > 0 && PartialOk(p)
    ensures t.Going? ==> PartialOk(t.p)
  {
    if e[0] == FILE then
      if p.left != 0 || e[1] < 2 || e[1] > 18 then Wrong
      else Going(Partial(e[1], i, Info(Field(e, 4, 2), 0, 0, false, []), Fold(Sixteen, 0, Kept(e, SUM_FIELD)),
                         Field(e, 2, 2), 0))
    else if e[0] == FILE_INFO then
      if p.left < 2 || e[1] > 3 then Wrong
      else
        Going(p.(left := p.left - 1, sum := Fold(Sixteen, p.sum, e), validSize := Field(e, 8, 8),
                 info := p.info.(size := Field(e, 24, 8), start := Field(e, 20, 4), contiguous := e[1] / 2 % 2 == 1)))
    else if e[0] == FILE_NAME then
      if p.left == 0 then Wrong
      else
        var sum, name := Fold(Sixteen, p.sum, e), Cut(p.info.name + UnitsOf(e));
        if p.left > 1 then Going(p.(left := p.left - 1, sum := sum, info := p.info.(name := name)))
        else
          var info := p.info.(name := Padded(name));
          if sum == p.stored && Plausible(info, p.validSize, clusterSize) then Complete(info) else Wrong
    else if e[0] == BITMAP || e[0] == UPCASE || e[0] == LABEL || e[0] < VALID then Going(p)
    else if e[0] / 0x20 % 2 == 0 || p.left == 0 then Wrong
    else Going(p.(left := p.left - 1))
  }

  datatype Outcome = Malformed | End | Found(at: nat, info: Info, next: nat)

  /** The next file at or after entry `i`. */
  function Scan(es: seq<Slot>, i: nat, p: Partial, clusterSize: nat): (r: Outcome)
    requires clusterSize > 0 && i <= |es| && PartialOk(p)
    ensures r.Found? ==> i < r.next <= |es|
    decreases |es| - i
  {
    if i == |es| then (if p.left == 0 then End else Malformed)
    else match Take(p, es[i], i, clusterSize)
      case Wrong => Malformed
      case Complete(info) => Found(p.at, info, i + 1)
      case Going(p') => Scan(es, i + 1, p', clusterSize)
  }

  /** The in-core form of a record that has been read. */
  function ReadInfo(r: Record): Info
    requires Buffer(r.name)
  {
    InfoOf(r.meta1, r.meta2, ReadName(r.name))
  }

  /** Of a name, what its entries carry. */
  function ReadName(name: seq<unit>): (b: seq<unit>)
    requires Buffer(name)
    ensures Buffer(b) && Name(b) == Name(name)
  {
    var n := NameParts(name) * ENAME_MAX;
    NameKept(name, Padded(name[..n]), n);
    Padded(name[..n])
  }

  lemma {:induction false} NameKept(u: seq<unit>, v: seq<unit>, n: nat)
    requires |Name(u)| <= n < |u| && n < |v| && u[..n] == v[..n]
    requires |Name(u)| == n ==> v[n] == 0
    ensures Name(v) == Name(u)
  {
    if n == 0 {
    } else {
      assert u[0] == u[..n][0] == v[0];
      if u[0] != 0 {
        assert u[1..][..n - 1] == u[..n][1..] == v[1..][..n - 1];
        NameKept(u[1..], v[1..], n - 1);
      }
    }
  }

  /** The state after the two entries with a file's fields and `j` of its name entries. */
  function Midway(r: Record, at: nat, j: nat): Partial
    requires Buffer(r.name) && j <= NameParts(r.name)
  {
    Partial(NameParts(r.name) - j, at, InfoOf(r.meta1, r.meta2, r.name[..j * ENAME_MAX]),
            Fold(Sixteen, 0, Kept(r.meta1, SUM_FIELD) + r.meta2 + Flat(NameSlots(r.name, j))),
            Field(r.meta1, 2, 2), Field(r.meta2, 8, 8))
  }

  lemma TakeName(r: Record, at: nat, j: nat, i: nat, clusterSize: nat)
    requires clusterSize > 0 && Good(r, clusterSize) && j < NameParts(r.name)
    ensures PartialOk(Midway(r, at, j))
    ensures Take(Midway(r, at, j), NameSlots(r.name, NameParts(r.name))[j], i, clusterSize)
            == if j + 1 < NameParts(r.name) then Going(Midway(r, at, j + 1)) else Complete(ReadInfo(r))
  {
    hide Kept, Fold, Plausible, Field, NameBytes, UnitAt, Flat, NameSlots, UnitsOf, Name, SetSum;
    var n := NameParts(r.name);
    var e := NameSlots(r.name, n)[j];
    NextPart(r.name, n, j);
    NextSum(r, j);
    if j + 1 == n {
      assert Midway(r, at, n).sum == SetSum(r.meta1, r.meta2, r.name) by { SumOf(r); }
      PlausibleAnyName(InfoOf(r.meta1, r.meta2, r.name), ReadInfo(r), Field(r.meta2, 8, 8), clusterSize);
    }
  }

  lemma SumOf(r: Record)
    requires Buffer(r.name)
    ensures SetSum(r.meta1, r.meta2, r.name)
            == Fold(Sixteen, 0, Kept(r.meta1, SUM_FIELD) + r.meta2 + Flat(NameSlots(r.name, NameParts(r.name))))
  {
  }

  lemma PlausibleAnyName(a: Info, b: Info, validSize: nat, clusterSize: nat)
    requires clusterSize > 0 && a == b.(name := a.name)
    ensures Plausible(a, validSize, clusterSize) == Plausible(b, validSize, clusterSize)
  {
  }

  lemma NextPart(name: seq<unit>, n: nat, j: nat)
    requires n <= 17 && j < n && Buffer(name)
    ensures NameSlots(name, n)[j][0] == FILE_NAME
    ensures name[..j * ENAME_MAX] + UnitsOf(NameSlots(name, n)[j]) == name[..(j + 1) * ENAME_MAX]
  {
    var part := name[j * ENAME_MAX..j * ENAME_MAX + ENAME_MAX];
    NameSlotBack(part);
    assert name[..j * ENAME_MAX] + part == name[..(j + 1) * ENAME_MAX];
  }

  lemma NextSum(r: Record, j: nat)
    requires Buffer(r.name) && j < NameParts(r.name)
    ensures var e := NameSlots(r.name, NameParts(r.name))[j];
            var start := Kept(r.meta1, SUM_FIELD) + r.meta2;
            Fold(Sixteen, Fold(Sixteen, 0, start + Flat(NameSlots(r.name, j))), e)
            == Fold(Sixteen, 0, start + Flat(NameSlots(r.name, j + 1)))
  {
    hide Kept, Fold, NameSlot, Name;
    var e := NameSlots(r.name, NameParts(r.name))[j];
    assert NameSlots(r.name, j + 1)[..j] == NameSlots(r.name, j) && NameSlots(r.name, j + 1)[j] == e;
    var before := Kept(r.meta1, SUM_FIELD) + r.meta2 + Flat(NameSlots(r.name, j));
    assert Kept(r.meta1, SUM_FIELD) + r.meta2 + Flat(NameSlots(r.name, j + 1)) == before + e;
    FoldAppend(Sixteen, 0, before, e);
  }

  /** The entries of a good record are read as that record. */
  lemma {:induction false} ScanNames(es: seq<Slot>, i: nat, r: Record, at: nat, j: nat, clusterSize: nat)
    requires clusterSize > 0 && Good(r, clusterSize) && j < NameParts(r.name)
    requires i + (NameParts(r.name) - j) <= |es|
    requires es[i..i + (NameParts(r.name) - j)] == NameSlots(r.name, NameParts(r.name))[j..]
    ensures PartialOk(Midway(r, at, j))
    ensures Scan(es, i, Midway(r, at, j), clusterSize) == Found(at, ReadInfo(r), i + (NameParts(r.name) - j))
    decreases NameParts(r.name) - j
  {
    hide Good, Midway, Take, NameSlots, ReadInfo, Name, Scan, NameParts, PartialOk, Buffer;
    GoodName(r, clusterSize);
    MidwayAt(r, at, j);
    ScanOne(es, i, Midway(r, at, j), clusterSize);
    TakeName(r, at, j, i, clusterSize);
    var n := NameParts(r.name);
    var left := es[i..i + (n - j)];
    assert left[0] == es[i] && left[1..] == es[i + 1..i + 1 + (n - (j + 1))];
    if j + 1 < n {
      assert NameSlots(r.name, n)[j..][1..] == NameSlots(r.name, n)[j + 1..];
      ScanNames(es, i + 1, r, at, j + 1, clusterSize);
    }
  }

  lemma GoodName(r: Record, clusterSize: nat)
    requires clusterSize > 0 && Good(r, clusterSize)
    ensures Buffer(r.name) && 1 <= NameParts(r.name) <= 17
  {
  }

  lemma MidwayAt(r: Record, at: nat, j: nat)
    requires Buffer(r.name) && j <= NameParts(r.name)
    ensures Midway(r, at, j).at == at && PartialOk(Midway(r, at, j))
  {
  }

  lemma ScanSet(es: seq<Slot>, i: nat, r: Record, clusterSize: nat)
    requires clusterSize > 0 && Good(r, clusterSize)
    requires i + Length(r) <= |es| && es[i..i + Length(r)] == EntrySet(r)
    ensures Scan(es, i, NOTHING, clusterSize) == Found(i, ReadInfo(r), i + Length(r))
  {
    hide Kept, Fold, Field, NameSlots, Plausible, ReadInfo, Scan;
    var n, whole := NameParts(r.name), EntrySet(r);
    assert es[i..i + Length(r)][0] == es[i] && es[i..i + Length(r)][1] == es[i + 1];
    assert es[i + 2..i + 2 + (n - 0)] == es[i..i + Length(r)][2..] == whole[2..];
    assert whole[2..] == NameSlots(r.name, n) == NameSlots(r.name, n)[0..];
    MetaTaken(r, i, clusterSize);
    ScanNames(es, i + 2, r, i, 0, clusterSize);
    ScanOne(es, i, NOTHING, clusterSize);
    ScanOne(es, i + 1, Begun(r, i), clusterSize);
  }

  /** The state after a file's first entry. */
  function Begun(r: Record, at: nat): (p: Partial)
    ensures PartialOk(p)
  {
    Partial(r.meta1[1], at, Info(Field(r.meta1, 4, 2), 0, 0, false, []), Fold(Sixteen, 0, Kept(r.meta1, SUM_FIELD)),
            Field(r.meta1, 2, 2), 0)
  }

  lemma MetaTaken(r: Record, at: nat, clusterSize: nat)
    requires clusterSize > 0 && Good(r, clusterSize)
    ensures Take(NOTHING, r.meta1, at, clusterSize) == Going(Begun(r, at))
    ensures Take(Begun(r, at), r.meta2, at + 1, clusterSize) == Going(Midway(r, at, 0))
  {
    hide Kept, Plausible, Field;
    assert r.name[..0] == [] && Flat(NameSlots(r.name, 0)) == [];
    FoldAppend(Sixteen, 0, Kept(r.meta1, SUM_FIELD), r.meta2);
    assert Kept(r.meta1, SUM_FIELD) + r.meta2 + [] == Kept(r.meta1, SUM_FIELD) + r.meta2;
  }

  lemma ScanOne(es: seq<Slot>, i: nat, p: Partial, clusterSize: nat)
    requires clusterSize > 0 && i < |es| && PartialOk(p)
    ensures var t := Take(p, es[i], i, clusterSize);
            && (t.Going? ==> PartialOk(t.p) && Scan(es, i, p, clusterSize) == Scan(es, i + 1, t.p, clusterSize))
            && (t.Wrong? ==> Scan(es, i, p, clusterSize) == Malformed)
            && (t.Complete? ==> Scan(es, i, p, clusterSize) == Found(p.at, t.info, i + 1))
  {
  }
}
