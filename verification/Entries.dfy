/** Directory entries: 32 bytes each, a file described by a set of consecutive ones. */
module Entries {
  import opened Checksum
  import opened Clusters
  import opened Content
  import opened LittleEndian
  import opened Utf

  const ENTRY_SIZE: nat := 32

  type Slot = s: seq<byte> | |s| == ENTRY_SIZE witness Zeros(ENTRY_SIZE)

  const VALID: byte := 0x80
  const FILE: byte := 0x85
  const FILE_INFO: byte := 0xc0
  const FILE_NAME: byte := 0xc1
  const BITMAP: byte := 0x81
  const UPCASE: byte := 0x82
  const LABEL: byte := 0x83

  const ENAME_MAX: nat := 15
  const NAME_MAX: nat := 255

  const ATTRIB_DIR: nat := 0x10

  /** The two bytes of its own field are not in an entry set's sum. */
  const SUM_FIELD: set<nat> := {2, 3}

  // --- names ---

  function UnitBytes(u: unit): (b: seq<byte>)
    ensures |b| == 2
  {
    [u % 0x100, u / 0x100]
  }

  function NameBytes(u: seq<unit>): (b: seq<byte>)
    ensures |b| == 2 * |u|
  {
    if u == [] then [] else NameBytes(u[..|u| - 1]) + UnitBytes(u[|u| - 1])
  }

  function UnitAt(e: Slot, k: nat): unit
    requires k < ENAME_MAX
  {
    var low: nat, high: nat := e[2 + 2 * k], e[3 + 2 * k];
    low + 0x100 * high
  }

  /** The part of a name that an entry carries. */
  function UnitsOf(e: Slot): (u: seq<unit>)
    ensures |u| == ENAME_MAX
  {
    seq(ENAME_MAX, k requires 0 <= k < ENAME_MAX => UnitAt(e, k))
  }

  function NameSlot(u: seq<unit>): Slot
    requires |u| == ENAME_MAX
  {
    [FILE_NAME, 0] + NameBytes(u)
  }

  lemma {:induction false} NameBytesAt(u: seq<unit>, k: nat)
    requires k < |u|
    ensures NameBytes(u)[2 * k] == u[k] % 0x100 && NameBytes(u)[2 * k + 1] == u[k] / 0x100
  {
    if k < |u| - 1 {
      NameBytesAt(u[..|u| - 1], k);
    }
  }

  lemma NameSlotBack(u: seq<unit>)
    requires |u| == ENAME_MAX
    ensures UnitsOf(NameSlot(u)) == u
  {
    forall k | 0 <= k < ENAME_MAX
      ensures UnitAt(NameSlot(u), k) == u[k]
    {
      NameBytesAt(u, k);
    }
  }

  /** A name as an in-core node holds it. */
  predicate Buffer(name: seq<unit>) {
    |name| == NAME_MAX + 1 && name[NAME_MAX] == 0
  }

  function Parts(length: nat): nat {
    (length + ENAME_MAX - 1) / ENAME_MAX
  }

  /** The name entries for the first `n` parts of a buffer. */
  function NameSlots(name: seq<unit>, n: nat): (es: seq<Slot>)
    requires n * ENAME_MAX <= |name|
    ensures |es| == n
  {
    seq(n, i requires 0 <= i < n => NameSlot(name[i * ENAME_MAX..i * ENAME_MAX + ENAME_MAX]))
  }

  /** The name that a buffer holds takes from one to seventeen entries. */
  function NameParts(name: seq<unit>): (n: nat)
    requires Buffer(name)
    ensures n <= 17 && (Name(name) != [] ==> n >= 1) && |Name(name)| <= n * ENAME_MAX
  {
    NameShort(name);
    Parts(|Name(name)|)
  }

  lemma {:induction false} NameStops(u: seq<unit>, k: nat)
    requires k < |u| && u[k] == 0
    ensures |Name(u)| <= k
  {
    if u[0] != 0 {
      NameStops(u[1..], k - 1);
    }
  }

  lemma NameShort(name: seq<unit>)
    requires Buffer(name)
    ensures |Name(name)| <= NAME_MAX
  {
    NameStops(name, NAME_MAX);
  }

  // --- a file's entries ---

  /** What a directory records about a file. */
  datatype Record = Record(meta1: Slot, meta2: Slot, name: seq<unit>)

  function EntrySet(r: Record): (es: seq<Slot>)
    requires Buffer(r.name)
    ensures |es| == Length(r)
  {
    [r.meta1, r.meta2] + NameSlots(r.name, NameParts(r.name))
  }

  function Length(r: Record): nat
    requires Buffer(r.name)
  {
    2 + NameParts(r.name)
  }

  function Flat(es: seq<Slot>): (b: seq<byte>)
    ensures |b| == ENTRY_SIZE * |es|
  {
    if es == [] then [] else Flat(es[..|es| - 1]) + es[|es| - 1]
  }

  /** The checksum of a file's entries, as calculated from what is in core. */
  function SetSum(meta1: Slot, meta2: Slot, name: seq<unit>): (sum: nat)
    requires Buffer(name)
    ensures Sum(Sixteen, sum)
  {
    Fold(Sixteen, 0, Kept(meta1, SUM_FIELD) + meta2 + Flat(NameSlots(name, NameParts(name))))
  }

  function Field(e: Slot, at: nat, n: nat): nat
    requires at + n <= ENTRY_SIZE
  {
    Value(e[at..at + n])
  }

  /** What readdir keeps of a file. */
  datatype Info = Info(attrib: nat, size: nat, start: nat, contiguous: bool, name: seq<unit>)

  predicate IsDirectory(attrib: nat) { attrib / ATTRIB_DIR % 2 == 1 }

  /** The checks on the fields of a file: sizes, first cluster, and no contiguous flag on an empty file. */
  predicate Plausible(info: Info, validSize: nat, clusterSize: nat)
    requires clusterSize > 0
  {
    && validSize <= info.size
    && (info.size == 0 ==> info.start == FREE && !info.contiguous)
    && (info.size > 0 ==> FIRST_DATA <= info.start <= LAST_DATA)
    && (IsDirectory(info.attrib) ==> info.size % clusterSize == 0)
  }

  function InfoOf(meta1: Slot, meta2: Slot, name: seq<unit>): Info {
    Info(Field(meta1, 4, 2), Field(meta2, 24, 8), Field(meta2, 20, 4), meta2[1] / 2 % 2 == 1, name)
  }

  /** A record whose entries readdir accepts. */
  predicate Good(r: Record, clusterSize: nat)
    requires clusterSize > 0
  {
    && Buffer(r.name) && Name(r.name) != []
    && r.meta1[0] == FILE && r.meta1[1] == 1 + NameParts(r.name)
    && r.meta2[0] == FILE_INFO && r.meta2[1] <= 3
    && Field(r.meta1, 2, 2) == SetSum(r.meta1, r.meta2, r.name)
    && Plausible(InfoOf(r.meta1, r.meta2, r.name), Field(r.meta2, 8, 8), clusterSize)
  }

  /** The least number of entries of fifteen units each that hold the name. */
  lemma PartsNeeded(name: seq<unit>)
    requires Buffer(name)
    ensures var n := NameParts(name);
            |Name(name)| <= 15 * n && (n > 0 ==> 15 * (n - 1) < |Name(name)|)
  {
  }
}
