/** Which sets of entries are accepted, and what is read of them, by their bytes. */
module Acceptance {
  import Agreement
  import opened Checksum
  import opened Content
  import opened Entries
  import opened LittleEndian
  import opened Scanning
  import opened Utf

  /** A file entry, an info entry and `n` name entries, one after the other. */
  predicate InForm(es: seq<Slot>, i: nat, n: nat) {
    && 1 <= n <= 17 && i + 2 + n <= |es|
    && es[i][0] == 0x85 && es[i][1] == 1 + n
    && es[i + 1][0] == 0xc0 && es[i + 1][1] <= 3
    && forall j :: i + 2 <= j < i + 2 + n ==> es[j][0] == 0xc1
  }

  /** The bytes of such a set that its checksum is taken of: all but the two that hold it. */
  function SummedBytes(es: seq<Slot>, i: nat, n: nat): seq<byte>
    requires i + 2 + n <= |es|
  {
    es[i][..2] + es[i][4..] + es[i + 1] + Flat(es[i + 2..i + 2 + n])
  }

  /** The checksum is right, and size, valid size, first cluster, flag and attributes go together. */
  predicate InOrder(es: seq<Slot>, i: nat, n: nat, clusterSize: nat)
    requires clusterSize > 0 && i + 2 + n <= |es|
  {
    var attrib, stored := Value(es[i][4..6]), Value(es[i][2..4]);
    var valid, start, size := Value(es[i + 1][8..16]), Value(es[i + 1][20..24]), Value(es[i + 1][24..32]);
    && stored == Fold(Sixteen, 0, SummedBytes(es, i, n))
    && valid <= size
    && (size == 0 ==> start == 0 && es[i + 1][1] / 2 % 2 == 0)
    && (size > 0 ==> 2 <= start <= 0xffff_fff6)
    && (attrib / 16 % 2 == 1 ==> size % clusterSize == 0)
  }

  /** The k-th unit of the name that the set carries, zero from the end of the entries or of the buffer on. */
  function UnitOf(es: seq<Slot>, i: nat, n: nat, k: nat): nat
    requires i + 2 + n <= |es|
  {
    if k < 15 * n && k < 255 then
      var e := es[i + 2 + k / 15];
      var low: nat, high: nat := e[2 + 2 * (k % 15)], e[3 + 2 * (k % 15)];
      low + 256 * high
    else 0
  }

  /** What is read of a set that is accepted. */
  ghost predicate ReadAs(es: seq<Slot>, i: nat, n: nat, info: Info)
    requires i + 2 + n <= |es|
  {
    && info.attrib == Value(es[i][4..6])
    && info.size == Value(es[i + 1][24..32]) && info.start == Value(es[i + 1][20..24])
    && (info.contiguous <==> es[i + 1][1] / 2 % 2 == 1)
    && |info.name| == 256 && forall k :: 0 <= k < 256 ==> info.name[k] == UnitOf(es, i, n, k)
  }

  /** The units of name entries, one entry after the other. */
  function Units(es: seq<Slot>): (u: seq<unit>)
    ensures |u| == ENAME_MAX * |es|
  {
    if es == [] then [] else Units(es[..|es| - 1]) + UnitsOf(es[|es| - 1])
  }

  lemma {:induction false} UnitsAt(es: seq<Slot>, k: nat)
    requires k < ENAME_MAX * |es|
    ensures Units(es)[k] == UnitAt(es[k / ENAME_MAX], k % ENAME_MAX)
  {
    hide UnitAt;
    var n := |es| - 1;
    if k < ENAME_MAX * n {
      UnitsAt(es[..n], k);
    } else {
      assert k / ENAME_MAX == n && k % ENAME_MAX == k - ENAME_MAX * n;
    }
  }

  lemma {:induction false} UnitsFirst(es: seq<Slot>)
    requires es != []
    ensures Units(es) == UnitsOf(es[0]) + Units(es[1..])
  {
    hide UnitsOf;
    var n := |es| - 1;
    if n == 0 {
      assert es[..0] == [] && es[1..] == [];
    } else {
      UnitsFirst(es[..n]);
      assert es[..n][1..] == es[1..][..n - 1] && es[1..][n - 1] == es[n];
    }
  }

  lemma {:induction false} FlatFirst(es: seq<Slot>)
    requires es != []
    ensures Flat(es) == es[0] + Flat(es[1..])
  {
    hide Flat;
    var n := |es| - 1;
    FlatLast(es);
    if n == 0 {
      assert es[..0] == [] && es[1..] == [];
      assert Flat([]) == [] by { FlatNone(); }
    } else {
      FlatFirst(es[..n]);
      FlatLast(es[1..]);
      assert es[..n][1..] == es[1..][..n - 1] && es[1..][n - 1] == es[n];
      assert es[0] + Flat(es[1..][..n - 1]) + es[n] == es[0] + (Flat(es[1..][..n - 1]) + es[n]);
    }
  }

  lemma FlatNone()
    ensures Flat([]) == []
  {
  }

  lemma FlatLast(es: seq<Slot>)
    requires es != []
    ensures Flat(es) == Flat(es[..|es| - 1]) + es[|es| - 1]
  {
  }

  lemma CutTwice(a: seq<unit>, b: seq<unit>)
    ensures Cut(Cut(a) + b) == Cut(a + b)
  {
  }

  /** The state after `n` more name entries, if they are not the last. */
  function WithNames(p: Partial, names: seq<Slot>): (q: Partial)
    requires PartialOk(p) && |names| <= p.left
    ensures PartialOk(q)
  {
    p.(left := p.left - |names|, sum := Fold(Sixteen, p.sum, Flat(names)),
       info := p.info.(name := Cut(p.info.name + Units(names))))
  }

  /** What the last name entry leads to. */
  function Settled(p: Partial, next: nat, clusterSize: nat): Outcome
    requires clusterSize > 0 && PartialOk(p)
  {
    var info := p.info.(name := Padded(p.info.name));
    if p.sum == p.stored && Plausible(info, p.validSize, clusterSize) then Found(p.at, info, next) else Malformed
  }

  lemma {:induction false} NamesTaken(es: seq<Slot>, i: nat, p: Partial, clusterSize: nat)
    requires clusterSize > 0 && PartialOk(p) && 1 <= p.left && i + p.left <= |es|
    requires forall j :: i <= j < i + p.left ==> es[j][0] == FILE_NAME
    ensures Scan(es, i, p, clusterSize)
            == Settled(WithNames(p, es[i..i + p.left]), i + p.left, clusterSize)
    decreases p.left
  {
    hide Fold, UnitsOf, Plausible, Scan, Flat, Units, Padded, Cut, WithNames;
    var names, e := es[i..i + p.left], es[i];
    ScanOne(es, i, p, clusterSize);
    assert names[0] == e && names[1..] == es[i + 1..i + p.left];
    WithNamesStep(p, names);
    if p.left > 1 {
      NamesTaken(es, i + 1, NameRead(p, e), clusterSize);
    } else {
      WithNamesNone(NameRead(p, e));
      assert names[1..] == [];
    }
  }

  /** The state after one name entry. */
  function NameRead(p: Partial, e: Slot): (q: Partial)
    requires PartialOk(p) && 1 <= p.left
    ensures PartialOk(q)
  {
    p.(left := p.left - 1, sum := Fold(Sixteen, p.sum, e), info := p.info.(name := Cut(p.info.name + UnitsOf(e))))
  }

  lemma WithNamesNone(p: Partial)
    requires PartialOk(p)
    ensures WithNames(p, []) == p
  {
    assert p.info.name + [] == p.info.name;
  }

  lemma WithNamesStep(p: Partial, names: seq<Slot>)
    requires PartialOk(p) && 1 <= |names| <= p.left
    ensures WithNames(p, names) == WithNames(NameRead(p, names[0]), names[1..])
  {
    hide Fold, UnitsOf, Flat, Units, Cut;
    var e, rest := names[0], names[1..];
    UnitsFirst(names);
    FlatFirst(names);
    FoldAppend(Sixteen, p.sum, e, Flat(rest));
    CutTwice(p.info.name + UnitsOf(e), Units(rest));
    assert p.info.name + UnitsOf(e) + Units(rest) == p.info.name + (UnitsOf(e) + Units(rest));
  }

  // --- the law ---

  lemma {:induction false} KeptBehind(bs: seq<byte>)
    requires |bs| >= 4
    ensures Kept(bs, SUM_FIELD) == bs[..2] + bs[4..]
  {
    var n := |bs| - 1;
    if n == 3 {
      KeptStart(bs);
    } else {
      KeptBehind(bs[..n]);
      assert bs[..n][..2] == bs[..2] && bs[4..] == bs[..n][4..] + [bs[n]];
    }
  }

  lemma KeptStart(bs: seq<byte>)
    requires |bs| == 4
    ensures Kept(bs, SUM_FIELD) == bs[..2] + bs[4..]
  {
    assert bs[..3][..2] == bs[..2] && bs[..2][..1] == bs[..1] && bs[..1][..0] == [];
    assert Kept([], SUM_FIELD) == [];
    assert Kept(bs[..1], SUM_FIELD) == [bs[0]];
    assert Kept(bs[..2], SUM_FIELD) == [bs[0], bs[1]];
  }

  /** The state after the two entries with a file's fields. */
  function FieldsRead(es: seq<Slot>, i: nat): (p: Partial)
    requires i + 2 <= |es| && es[i][1] >= 2
    ensures PartialOk(p)
  {
    var e1, e2 := es[i], es[i + 1];
    Partial(e1[1] - 1, i,
            Info(Value(e1[4..6]), Value(e2[24..32]), Value(e2[20..24]), e2[1] / 2 % 2 == 1, []),
            Fold(Sixteen, 0, e1[..2] + e1[4..] + e2), Value(e1[2..4]), Value(e2[8..16]))
  }

  lemma FieldsTaken(es: seq<Slot>, i: nat, n: nat, clusterSize: nat)
    requires clusterSize > 0 && InForm(es, i, n)
    ensures Scan(es, i, NOTHING, clusterSize) == Scan(es, i + 2, FieldsRead(es, i), clusterSize)
  {
    hide Fold, Value, Scan, Kept;
    KeptBehind(es[i]);
    FoldAppend(Sixteen, 0, es[i][..2] + es[i][4..], es[i + 1]);
    ScanOne(es, i, NOTHING, clusterSize);
    var p := Partial(es[i][1], i, Info(Value(es[i][4..6]), 0, 0, false, []), Fold(Sixteen, 0, es[i][..2] + es[i][4..]),
                     Value(es[i][2..4]), 0);
    ScanOne(es, i + 1, p, clusterSize);
  }

  lemma NameOf(es: seq<Slot>, i: nat, n: nat)
    requires i + 2 + n <= |es|
    ensures var name := Padded(Cut(Units(es[i + 2..i + 2 + n])));
            |name| == 256 && forall k :: 0 <= k < 256 ==> name[k] == UnitOf(es, i, n, k)
  {
    var names := es[i + 2..i + 2 + n];
    var name := Padded(Cut(Units(names)));
    hide Units, UnitsOf;
    forall k | 0 <= k < 256
      ensures name[k] == UnitOf(es, i, n, k)
    {
      if k < 15 * n && k < 255 {
        UnitsAt(names, k);
        assert names[k / 15] == es[i + 2 + k / 15];
        assert Cut(Units(names))[k] == Units(names)[k];
      }
    }
  }

  /** A set in the right form is a file if and only if it is in order, and then what is read of it is what its bytes
      say; otherwise the directory is malformed. */
  lemma SetAccepted(es: seq<Slot>, i: nat, n: nat, clusterSize: nat)
    requires clusterSize > 0 && InForm(es, i, n)
    ensures var r := Scan(es, i, NOTHING, clusterSize);
            if InOrder(es, i, n, clusterSize) then
              r.Found? && r.at == i && r.next == i + 2 + n && ReadAs(es, i, n, r.info)
            else r == Malformed
  {
    hide Fold, Value, Scan, Kept, Flat, Units, Padded, Cut;
    FieldsTaken(es, i, n, clusterSize);
    var p, names := FieldsRead(es, i), es[i + 2..i + 2 + n];
    NamesTaken(es, i + 2, p, clusterSize);
    FoldAppend(Sixteen, 0, es[i][..2] + es[i][4..] + es[i + 1], Flat(names));
    assert [] + Units(names) == Units(names);
    NameOf(es, i, n);
  }

  /** The records that a directory in order may have are those whose entries are in form and in order. */
  lemma RecordAccepted(r: Record, clusterSize: nat)
    requires clusterSize > 0 && Buffer(r.name)
    ensures var es, n := EntrySet(r), NameParts(r.name);
            Good(r, clusterSize) <==> InForm(es, 0, n) && InOrder(es, 0, n, clusterSize)
  {
    hide Fold, Value, Kept, Flat, Name;
    var es, n := EntrySet(r), NameParts(r.name);
    KeptBehind(r.meta1);
    assert es[2..2 + n] == NameSlots(r.name, n);
    PartsNeeded(r.name);
  }

  /** And every set in form and in order is such a record, if its name takes all of its name entries and these have
      nothing but the name. */
  lemma SetRecorded(es: seq<Slot>, i: nat, n: nat, clusterSize: nat, name: seq<unit>)
    requires clusterSize > 0 && InForm(es, i, n) && InOrder(es, i, n, clusterSize)
    requires Buffer(name) && NameParts(name) == n && forall k :: 0 <= k < 15 * n ==> name[k] == UnitOf(es, i, n, k)
    requires forall j :: i + 2 <= j < i + 2 + n ==> es[j][1] == 0
    ensures var r := Record(es[i], es[i + 1], name); Good(r, clusterSize) && Agreement.Placed(es, i, r)
  {
    hide InOrder, NameSlot, Name, NameParts;
    var r, slots := Record(es[i], es[i + 1], name), NameSlots(name, n);
    forall j | 0 <= j < n
      ensures slots[j] == es[i + 2 + j]
    {
      SlotOf(es, i, n, name, j);
    }
    assert es[i..i + 2 + n] == EntrySet(r);
    RecordAccepted(r, clusterSize);
    OrderMoved(es, i, n, clusterSize);
  }

  lemma SlotOf(es: seq<Slot>, i: nat, n: nat, name: seq<unit>, j: nat)
    requires n <= 17 && i + 2 + n <= |es| && j < n && es[i + 2 + j][0] == 0xc1 && es[i + 2 + j][1] == 0
    requires |name| >= 15 * n && forall k :: 0 <= k < 15 * n ==> name[k] == UnitOf(es, i, n, k)
    ensures NameSlot(name[15 * j..15 * j + 15]) == es[i + 2 + j]
  {
    hide UnitOf;
    var u, e := name[15 * j..15 * j + 15], es[i + 2 + j];
    forall k | 0 <= k < 15
      ensures NameSlot(u)[2 + 2 * k] == e[2 + 2 * k] && NameSlot(u)[3 + 2 * k] == e[3 + 2 * k]
    {
      assert u[k] == name[15 * j + k];
      UnitPlace(es, i, n, j, k);
      NameBytesAt(u, k);
    }
    SameBytes(NameSlot(u), e);
  }

  lemma UnitPlace(es: seq<Slot>, i: nat, n: nat, j: nat, k: nat)
    requires n <= 17 && i + 2 + n <= |es| && j < n && k < 15
    ensures var e, u := es[i + 2 + j], UnitOf(es, i, n, 15 * j + k);
            u < 0x1_0000 && e[2 + 2 * k] == u % 0x100 && e[3 + 2 * k] == u / 0x100
  {
    assert (15 * j + k) / 15 == j && (15 * j + k) % 15 == k;
  }

  lemma SameBytes(a: Slot, b: Slot)
    requires a[0] == b[0] && a[1] == b[1]
    requires forall k :: 0 <= k < 15 ==> a[2 + 2 * k] == b[2 + 2 * k] && a[3 + 2 * k] == b[3 + 2 * k]
    ensures a == b
  {
    forall i | 2 <= i < 32
      ensures a[i] == b[i]
    {
      var k := (i - 2) / 2;
      assert i == 2 + 2 * k || i == 3 + 2 * k;
    }
  }

  lemma OrderMoved(es: seq<Slot>, i: nat, n: nat, clusterSize: nat)
    requires clusterSize > 0 && i + 2 + n <= |es|
    ensures InOrder(es[i..i + 2 + n], 0, n, clusterSize) == InOrder(es, i, n, clusterSize)
  {
    hide Fold, Value, Flat;
    var part := es[i..i + 2 + n];
    assert part[2..2 + n] == es[i + 2..i + 2 + n];
  }

  /** Entries that do not fit the form: where they end the scan, and where they do not matter to it. */
  lemma OutOfForm(es: seq<Slot>, i: nat, p: Partial, clusterSize: nat)
    requires clusterSize > 0 && i <= |es| && PartialOk(p)
    ensures i == |es| ==> Scan(es, i, p, clusterSize) == if p.left == 0 then End else Malformed
    ensures i < |es| ==>
              var t := es[i][0];
              && (t == 0x85 && (p.left != 0 || es[i][1] < 2 || es[i][1] > 18) ==>
                    Scan(es, i, p, clusterSize) == Malformed)
              && (t == 0xc0 && (p.left < 2 || es[i][1] > 3) ==> Scan(es, i, p, clusterSize) == Malformed)
              && (t == 0xc1 && p.left == 0 ==> Scan(es, i, p, clusterSize) == Malformed)
              && (t < 0x80 || 0x81 <= t <= 0x83 ==> Scan(es, i, p, clusterSize) == Scan(es, i + 1, p, clusterSize))
              && (t >= 0x80 && !(0x81 <= t <= 0x83) && t != 0x85 && t != 0xc0 && t != 0xc1 ==>
                    Scan(es, i, p, clusterSize)
                    == if t / 32 % 2 == 0 || p.left == 0 then Malformed
                       else Scan(es, i + 1, p.(left := p.left - 1), clusterSize))
  {
    hide Fold, Kept, Plausible, Field, UnitsOf;
    if i < |es| {
      ScanOne(es, i, p, clusterSize);
    }
  }
}
