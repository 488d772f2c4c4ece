/** What deleting, writing, rewriting, growing and cutting do to a directory that agrees with its files. */
module Upkeep {
  import opened Content
  import opened Entries
  import opened Agreement
  import opened Scanning
  import opened Utf

  /** An entry no longer in use. */
  function Deleted(e: Slot): Slot {
    e[0 := e[0] % VALID]
  }

  function Unlisted(es: seq<Slot>, i: nat, n: nat): (r: seq<Slot>)
    requires i + n <= |es|
    ensures |r| == |es|
    ensures forall k :: 0 <= k < |es| ==> r[k] == if i <= k < i + n then Deleted(es[k]) else es[k]
  {
    seq(|es|, k requires 0 <= k < |es| => if i <= k < i + n then Deleted(es[k]) else es[k])
  }

  function Put(es: seq<Slot>, i: nat, s: seq<Slot>): (r: seq<Slot>)
    requires i + |s| <= |es|
    ensures |r| == |es|
    ensures forall k :: 0 <= k < |es| ==> r[k] == if i <= k < i + |s| then s[k - i] else es[k]
  {
    es[..i] + s + es[i + |s|..]
  }

  /** Every entry of a file is in use. */
  lemma InUse(r: Record, clusterSize: nat)
    requires clusterSize > 0 && Good(r, clusterSize)
    ensures forall k :: 0 <= k < Length(r) ==> EntrySet(r)[k][0] >= VALID
  {
    hide Plausible, SetSum, Field, Name, NameParts, InfoOf, NameBytes;
    var n := NameParts(r.name);
    forall k | 0 <= k < Length(r)
      ensures EntrySet(r)[k][0] >= VALID
    {
      if k >= 2 {
        assert EntrySet(r)[k] == NameSlots(r.name, n)[k - 2];
        assert NameSlots(r.name, n)[k - 2][0] == FILE_NAME;
      }
    }
  }

  lemma PlacedKept(es: seq<Slot>, es': seq<Slot>, i: nat, r: Record)
    requires Placed(es, i, r) && i + Length(r) <= |es'|
    requires forall k :: i <= k < i + Length(r) ==> es'[k] == es[k]
    ensures Placed(es', i, r)
  {
    assert es'[i..i + Length(r)] == es[i..i + Length(r)];
  }

  /** Deleting a file's entries takes that file, and no other, out of the directory. */
  lemma LaidErased(es: seq<Slot>, rs: Records, clusterSize: nat, i: nat)
    requires Laid(es, rs, clusterSize) && i in rs
    ensures i + Length(rs[i]) <= |es|
    ensures Laid(Unlisted(es, i, Length(rs[i])), rs - {i}, clusterSize)
  {
    hide Good, Placed, EntrySet, NameParts, Covers, Inside, Quiet;
    LaidPlaced(es, rs, clusterSize, i);
    var n := Length(rs[i]);
    var es', rs' := Unlisted(es, i, n), rs - {i};
    forall j | j in rs'
      ensures Placed(es', j, rs'[j])
    {
      LaidPlaced(es, rs, clusterSize, j);
      PlacedKept(es, es', j, rs[j]);
    }
    forall k | 0 <= k < |es'| && !Inside(rs', k)
      ensures Quiet(es'[k])
    {
      if i <= k < i + n {
        DeletedQuiet(es[k]);
      } else {
        StillQuiet(es, rs, clusterSize, i, rs', k);
      }
    }
  }

  lemma DeletedQuiet(e: Slot)
    ensures Quiet(Deleted(e))
  {
  }

  /** An entry that no record covered but perhaps the one at `i`, which has changed. */
  lemma StillQuiet(es: seq<Slot>, rs: Records, clusterSize: nat, i: nat, rs': Records, k: nat)
    requires Laid(es, rs, clusterSize) && k < |es| && !Inside(rs', k)
    requires forall j :: j in rs && j != i ==> j in rs' && rs'[j] == rs[j]
    requires i in rs ==> !(i <= k < i + Length(rs[i]))
    ensures Quiet(es[k])
  {
    hide Good, Placed, Quiet, NameParts;
    forall j | j in rs
      ensures !Covers(rs, j, k)
    {
      if j != i {
        assert !Covers(rs', j, k);
      }
    }
  }

  lemma LaidPlaced(es: seq<Slot>, rs: Records, clusterSize: nat, i: nat)
    requires Laid(es, rs, clusterSize) && i in rs
    ensures Placed(es, i, rs[i]) && i + Length(rs[i]) <= |es| && Good(rs[i], clusterSize)
    ensures es[i..i + Length(rs[i])] == EntrySet(rs[i])
  {
  }

  lemma CoveredInUse(es: seq<Slot>, rs: Records, clusterSize: nat, i: nat, k: nat)
    requires Laid(es, rs, clusterSize) && i in rs && Covers(rs, i, k)
    ensures k < |es| && !Vacant(es[k])
  {
    hide Good, EntrySet;
    LaidPlaced(es, rs, clusterSize, i);
    InUse(rs[i], clusterSize);
    assert es[k] == es[i..i + Length(rs[i])][k - i];
  }

  /** A run of vacant entries belongs to no file. */
  lemma VacantOutside(es: seq<Slot>, rs: Records, clusterSize: nat, k: nat)
    requires Laid(es, rs, clusterSize) && k < |es| && Vacant(es[k])
    ensures !Inside(rs, k)
  {
    hide Laid;
    forall i: nat | i in rs
      ensures !Covers(rs, i, k)
    {
      if Covers(rs, i, k) {
        CoveredInUse(es, rs, clusterSize, i, k);
      }
    }
  }

  /** Writing a file's entries over a run of vacant ones puts that file, and nothing else, into the directory. */
  lemma LaidWritten(es: seq<Slot>, rs: Records, clusterSize: nat, i: nat, r: Record)
    requires Laid(es, rs, clusterSize) && Good(r, clusterSize) && i + Length(r) <= |es|
    requires forall k :: i <= k < i + Length(r) ==> Vacant(es[k])
    ensures i !in rs && Laid(Put(es, i, EntrySet(r)), rs[i := r], clusterSize)
  {
    hide Good, Placed, Laid, Put;
    LaidSize(es, rs, clusterSize);
    GoodName(r, clusterSize);
    var n := Length(r);
    forall k: nat | i <= k < i + n
      ensures !Inside(rs, k)
    {
      VacantOutside(es, rs, clusterSize, k);
    }
    NotInTheWay(es, rs, clusterSize, i, n);
    if i in rs {
      NotInTheWayOne(rs, i, n, i);
    }
    LaidReplaced(es, rs, clusterSize, i, r);
  }

  lemma NotInTheWay(es: seq<Slot>, rs: Records, clusterSize: nat, i: nat, n: nat)
    requires Laid(es, rs, clusterSize) && n > 0 && forall k: nat :: i <= k < i + n ==> !Inside(rs, k)
    ensures forall j :: j in rs ==> Buffer(rs[j].name) && (j + Length(rs[j]) <= i || i + n <= j)
  {
    hide Placed;
    forall j: nat | j in rs
      ensures j + Length(rs[j]) <= i || i + n <= j
    {
      NotInTheWayOne(rs, i, n, j);
    }
  }

  lemma NotInTheWayOne(rs: Records, i: nat, n: nat, j: nat)
    requires j in rs && Buffer(rs[j].name) && n > 0 && forall k: nat :: i <= k < i + n ==> !Inside(rs, k)
    ensures j + Length(rs[j]) <= i || i + n <= j
  {
    var k := if i <= j then j else i;
    assert Covers(rs, j, k) ==> Inside(rs, k);
  }

  /** Entries put where only the file at `i` was, if any, take its place. */
  lemma LaidReplaced(es: seq<Slot>, rs: Records, clusterSize: nat, i: nat, r: Record)
    requires Laid(es, rs, clusterSize) && Good(r, clusterSize) && i + Length(r) <= |es|
    requires i in rs ==> Length(rs[i]) == Length(r)
    requires forall j :: j in rs && j != i ==> j + Length(rs[j]) <= i || i + Length(r) <= j
    ensures Laid(Put(es, i, EntrySet(r)), rs[i := r], clusterSize)
  {
    hide Good, Placed, NameParts, Inside, Quiet;
    GoodName(r, clusterSize);
    var n := Length(r);
    var es', rs' := Put(es, i, EntrySet(r)), rs[i := r];
    PutPlaced(es, i, r);
    forall j | j in rs' && j != i
      ensures Placed(es', j, rs'[j])
    {
      LaidPlaced(es, rs, clusterSize, j);
      PlacedKept(es, es', j, rs[j]);
    }
    forall k | 0 <= k < |es'| && !Inside(rs', k)
      ensures Quiet(es'[k])
    {
      OutsideRecord(rs', i, k);
      StillQuiet(es, rs, clusterSize, i, rs', k);
    }
  }

  lemma OutsideRecord(rs: Records, i: nat, k: nat)
    requires i in rs && Buffer(rs[i].name) && !Inside(rs, k)
    ensures !(i <= k < i + Length(rs[i]))
  {
    assert !Covers(rs, i, k);
  }

  lemma PutPlaced(es: seq<Slot>, i: nat, r: Record)
    requires Buffer(r.name) && i + Length(r) <= |es|
    ensures Placed(Put(es, i, EntrySet(r)), i, r)
  {
  }

  /** Rewriting the fields of a file in place changes that file only. */
  lemma LaidRewritten(es: seq<Slot>, rs: Records, clusterSize: nat, i: nat, r: Record)
    requires Laid(es, rs, clusterSize) && i in rs && Good(r, clusterSize) && Length(r) == Length(rs[i])
    ensures i + Length(r) <= |es| && Laid(Put(es, i, EntrySet(r)), rs[i := r], clusterSize)
  {
    hide Good, Placed;
    LaidPlaced(es, rs, clusterSize, i);
    LaidReplaced(es, rs, clusterSize, i, r);
  }

  /** Room added at the end holds no file. */
  lemma LaidGrown(es: seq<Slot>, rs: Records, clusterSize: nat, more: seq<Slot>)
    requires Laid(es, rs, clusterSize) && forall e :: e in more ==> Vacant(e)
    ensures Laid(es + more, rs, clusterSize)
  {
    hide Good, Placed;
    forall i | i in rs
      ensures Placed(es + more, i, rs[i])
    {
      LaidPlaced(es, rs, clusterSize, i);
      PlacedKept(es, es + more, i, rs[i]);
    }
    assert forall k :: |es| <= k < |es + more| ==> (es + more)[k] in more;
  }

  /** Cutting behind the last file loses none. */
  lemma LaidCut(es: seq<Slot>, rs: Records, clusterSize: nat, n: nat)
    requires Laid(es, rs, clusterSize) && n <= |es|
    requires forall i :: i in rs ==> i + Length(rs[i]) <= n
    ensures Laid(es[..n], rs, clusterSize)
  {
    hide Good, Placed;
    forall i | i in rs
      ensures Placed(es[..n], i, rs[i])
    {
      LaidPlaced(es, rs, clusterSize, i);
      PlacedKept(es, es[..n], i, rs[i]);
    }
  }
}
