/** The list of files to recover, kept in a mapped file and updated in place as recovery goes on. */
module Storage {
  import opened Content
  import opened Options
  import opened Device
  import opened Restore
  import opened Marshal

  /** Records that can be told apart in the file. */
  ghost predicate Sound(rs: seq<Record>) {
    forall i :: 0 <= i < |rs| ==> Fits(rs[i]) && 0 !in rs[i].name
  }

  /** The file: one record after the other. */
  function Packed(rs: seq<Record>): seq<byte> {
    if rs == [] then [] else Packed(rs[..|rs| - 1]) + Encode(rs[|rs| - 1])
  }

  /** Where the i-th record begins: after all records before it. */
  function Place(rs: seq<Record>, i: nat): nat
    requires i <= |rs|
  {
    |Packed(rs[..i])|
  }

  lemma {:induction false} PackedSplit(rs: seq<Record>, i: nat)
    requires i < |rs|
    ensures Place(rs, i) + |Encode(rs[i])| == Place(rs, i + 1) <= |Packed(rs)|
    ensures Packed(rs)[..Place(rs, i)] == Packed(rs[..i])
    ensures Packed(rs)[Place(rs, i)..Place(rs, i + 1)] == Encode(rs[i])
  {
    hide Encode;
    var n := |rs| - 1;
    assert rs[..i + 1][..i] == rs[..i];
    assert rs[..n + 1] == rs;
    if i < n {
      PackedSplit(rs[..n], i);
      assert rs[..n][..i] == rs[..i] && rs[..n][..i + 1] == rs[..i + 1];
      assert Packed(rs)[..Place(rs, i)] == Packed(rs[..n])[..Place(rs, i)];
      assert Packed(rs)[Place(rs, i)..Place(rs, i + 1)] == Packed(rs[..n])[Place(rs, i)..Place(rs, i + 1)];
    }
  }

  /** At each record's place the file reads back as that record. */
  lemma ReadBack(rs: seq<Record>, i: nat)
    requires Sound(rs) && i < |rs|
    ensures Place(rs, i) + |Encode(rs[i])| == Place(rs, i + 1) <= |Packed(rs)|
    ensures Decode(Packed(rs)[Place(rs, i)..]) == Some((rs[i], |Encode(rs[i])|))
  {
    hide Encode, Decode, Packed;
    PackedSplit(rs, i);
    var b, at := Packed(rs), Place(rs, i);
    RecordRoundTrip(rs[i], b[Place(rs, i + 1)..]);
    assert b[at..] == Encode(rs[i]) + b[Place(rs, i + 1)..];
  }

  function Flagged(r: Record, b: bool): Record {
    r.(processed := b)
  }

  lemma FlagKeepsSize(r: Record, b: bool, n: nat)
    ensures |Encode(Flagged(r, b))| == |Encode(r)|
    ensures n < |Encode(r)| ==> Encode(Flagged(r, b))[..n] == Encode(r)[..n]
  {
  }

  lemma SpliceHead(a: seq<byte>, b: seq<byte>, at: nat, c: seq<byte>)
    requires at + |c| <= |a|
    ensures Splice(a + b, at, c) == Splice(a, at, c) + b
  {
  }

  lemma SpliceTail(a: seq<byte>, b: seq<byte>, c: seq<byte>)
    requires |c| == |b|
    ensures Splice(a + b, |a|, c) == a + c
  {
  }

  lemma SpliceSame(s: seq<byte>, at: nat, b: seq<byte>)
    requires at + |b| <= |s| && s[at..at + |b|] == b
    ensures Splice(s, at, b) == s
  {
    assert forall j :: at <= j < at + |b| ==> s[j] == b[j - at];
  }

  /** Flagging a record rewrites its own bytes at unchanged length. */
  lemma {:induction false} PackedUpdate(rs: seq<Record>, i: nat, b: bool)
    requires i < |rs|
    ensures var r' := Flagged(rs[i], b);
            && Place(rs, i) + |Encode(r')| <= |Packed(rs)|
            && Packed(rs[i := r']) == Splice(Packed(rs), Place(rs, i), Encode(r'))
  {
    hide Encode, Splice;
    var n := |rs| - 1;
    var r' := Flagged(rs[i], b);
    var rs' := rs[i := r'];
    FlagKeepsSize(rs[i], b, 0);
    PackedSplit(rs, i);
    if i == n {
      assert rs'[..n] == rs[..n];
      SpliceTail(Packed(rs[..n]), Encode(rs[n]), Encode(r'));
    } else {
      PackedUpdate(rs[..n], i, b);
      assert rs'[..n] == rs[..n][i := r'];
      assert rs[..n][..i] == rs[..i];
      SpliceHead(Packed(rs[..n]), Encode(rs[n]), Place(rs, i), Encode(r'));
    }
  }

  lemma {:induction false} PlaceKept(rs: seq<Record>, i: nat, b: bool, j: nat)
    requires i < |rs| && j <= |rs|
    ensures Place(rs[i := Flagged(rs[i], b)], j) == Place(rs, j)
  {
    var rs' := rs[i := Flagged(rs[i], b)];
    if j > 0 {
      PlaceKept(rs, i, b, j - 1);
      assert rs'[..j][..j - 1] == rs'[..j - 1] && rs[..j][..j - 1] == rs[..j - 1];
    }
  }

  /** Stopping the rewriting of a record after any number of bytes leaves the file as it was before or as it
      is meant to be: never anything else. */
  lemma TornUpdate(rs: seq<Record>, i: nat, b: bool, n: nat)
    requires i < |rs| && n <= |Encode(rs[i])|
    ensures Place(rs, i) + n <= |Packed(rs)|
    ensures var r' := Flagged(rs[i], b);
            Splice(Packed(rs), Place(rs, i), Encode(r')[..n])
            == if n < |Encode(rs[i])| then Packed(rs) else Packed(rs[i := r'])
  {
    hide Encode, Splice, Packed;
    PackedUpdate(rs, i, b);
    PackedSplit(rs, i);
    FlagKeepsSize(rs[i], b, n);
    var r', at, file := Flagged(rs[i], b), Place(rs, i), Packed(rs);
    if n < |Encode(rs[i])| {
      var part := Encode(r')[..n];
      assert file[at..at + n] == file[at..at + |Encode(rs[i])|][..n];
      SpliceSame(file, at, part);
    } else {
      assert Encode(r')[..n] == Encode(r');
    }
  }

  /** A file to recover, tied to its record in the mapped file once it has been loaded from there. */
  class Unit {
    const name: seq<byte>
    const extents: seq<Extent>
    const mem: array?<byte>
    const offset: nat
    var processed: bool

    constructor (r: Record, mem: array?<byte>, offset: nat)
      ensures Value() == r && this.mem == mem && this.offset == offset
    {
      this.name, this.extents, this.processed := r.name, r.extents, r.processed;
      this.mem, this.offset := mem, offset;
    }

    function Value(): Record
      reads this
    {
      Record(name, extents, processed)
    }

    method Marshal() returns (m: array<byte>)
      requires 0 !in name
      ensures fresh(m) && m[..] == Encode(Value())
    {
      hide EncodeList;
      var m1, _ := MarshalString(name);
      var m2 := MarshalOffsets(extents);
      m := new byte[m1.Length + m2.Length + 1];
      Copy(m, 0, m1[..]);
      Copy(m, m1.Length, m2[..]);
      Copy(m, m1.Length + m2.Length, EncodeFlag(processed));
    }

    /** Writes this unit's record over its old bytes in the mapped file. */
    method SyncMe()
      requires 0 !in name && mem != null && offset + |Encode(Value())| <= mem.Length
      modifies mem
      ensures mem[..] == Splice(old(mem[..]), offset, Encode(Value()))
    {
      var m := Marshal();
      Copy(mem, offset, m[..]);
    }

    method SetProcessed(b: bool)
      requires 0 !in name && mem != null && offset + |Encode(Value())| <= mem.Length
      modifies this, mem
      ensures processed == b
      ensures mem[..] == Splice(old(mem[..]), offset, Encode(Flagged(old(Value()), b)))
    {
      FlagKeepsSize(Value(), b, 0);
      processed := b;
      SyncMe();
    }
  }

  ghost function Values(us: seq<Unit>): (rs: seq<Record>)
    reads us
    ensures |rs| == |us| && forall i :: 0 <= i < |us| ==> rs[i] == us[i].Value()
  {
    seq(|us|, i requires 0 <= i < |us| reads us => us[i].Value())
  }

  /** Writes the records of all units into a new file, one after the other. */
  method Store(us: seq<Unit>) returns (file: array<byte>)
    requires Sound(Values(us))
    ensures fresh(file) && file[..] == Packed(Values(us))
  {
    hide Encode;
    var bytes := [];
    var i := 0;
    while i < |us|
      invariant i <= |us|
      invariant bytes == Packed(Values(us)[..i])
    {
      var m := us[i].Marshal();
      assert Values(us)[..i + 1][..i] == Values(us)[..i];
      bytes := bytes + m[..];
      i := i + 1;
    }
    assert Values(us)[..i] == Values(us);
    file := new byte[|bytes|];
    Copy(file, 0, bytes);
  }

  /** The units stand for the records `rs`, each tied to its place in the file. */
  ghost predicate Tied(us: seq<Unit>, file: array<byte>, rs: seq<Record>)
    reads us
  {
    Values(us) == rs && Seated(us, file, rs)
  }

  /** Different units, each at the place of its record. */
  ghost predicate Seated(us: seq<Unit>, file: array<byte>, rs: seq<Record>) {
    && |us| == |rs|
    && (forall i :: 0 <= i < |us| ==> us[i].mem == file && us[i].offset == Place(rs, i))
    && (forall i, j :: 0 <= i < j < |us| ==> us[i] != us[j])
  }

  /** Reads the file back record by record. */
  method Load(file: array<byte>, ghost rs: seq<Record>) returns (us: seq<Unit>)
    requires Sound(rs) && file[..] == Packed(rs)
    ensures Tied(us, file, rs) && forall u :: u in us ==> fresh(u)
  {
    hide Encode, Decode, Packed;
    us := [];
    var off := 0;
    ghost var i := 0;
    PackedEmpty(rs);
    while file.Length - off > 0
      invariant i <= |rs| && |us| == i && off == Place(rs, i) <= file.Length
      invariant forall k :: 0 <= k < i ==> us[k].Value() == rs[k] && us[k].mem == file && us[k].offset == Place(rs, k)
      invariant forall k :: 0 <= k < i ==> fresh(us[k])
      invariant forall k, l :: 0 <= k < l < i ==> us[k] != us[l]
    {
      PackedWhole(rs);
      assert i < |rs|;
      ReadBack(rs, i);
      EncodeSome(rs[i]);
      var r, next := UnmarshalRecord(file, off);
      var u := new Unit(r, file, off);
      us := us + [u];
      off, i := next, i + 1;
    }
    if i < |rs| {
      ReadBack(rs, i);
      EncodeSome(rs[i]);
    }
  }

  lemma PackedEmpty(rs: seq<Record>)
    ensures Place(rs, 0) == 0
  {
  }

  lemma PackedWhole(rs: seq<Record>)
    ensures Place(rs, |rs|) == |Packed(rs)|
  {
    assert rs[..|rs|] == rs;
  }

  lemma EncodeSome(r: Record)
    ensures |Encode(r)| > 0
  {
  }

  lemma SeatedFlagged(us: seq<Unit>, file: array<byte>, rs: seq<Record>, i: nat, b: bool)
    requires i < |rs| && Seated(us, file, rs)
    ensures Seated(us, file, rs[i := Flagged(rs[i], b)])
  {
    var rs' := rs[i := Flagged(rs[i], b)];
    forall j | 0 <= j < |us|
      ensures us[j].offset == Place(rs', j)
    {
      PlaceKept(rs, i, b, j);
    }
  }
}
