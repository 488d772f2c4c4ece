/** The room that a deleted file leaves in its directory. */
module Reuse {
  import Bitmap
  import Growth
  import opened Content
  import opened Entries
  import opened FileSpec
  import opened Layout
  import opened Listed
  import opened Positions
  import opened Agreement
  import opened Views
  import opened Directories
  import opened Shrinking

  /** There is room for `n` entries: vacant ones, or the clusters for them, and then the directory is clear of the
      trap. */
  ghost predicate Reusable<K>(d: Disk<K>, k: K, n: nat) {
    && DirFile(d, k)
    && (HasRun(EntriesOf(d, k), n)
        || (Clear(d, k) && 0 < Cost(d.files[k].size, LongerSize(d, k, n), d.clusterSize) <= Bitmap.CountClear(d.used)))
  }

  /** A search there succeeds, and does not spring the trap. */
  lemma ReusableFound<K>(d: Disk<K>, k: K, n: nat)
    requires Reusable(d, k, n)
    ensures DirFile(d, k) && Searchable(d, k, n) && SlotCost(d, k, n) <= Bitmap.CountClear(d.used)
  {
    hide DirFile, EntriesOf, HasRun, LongerSize, Clear, Bitmap.CountClear;
  }

  /** Fewer entries need no more room. */
  lemma ReusableLess<K>(d: Disk<K>, k: K, n: nat, m: nat)
    requires Reusable(d, k, n) && 0 < m <= n
    ensures Reusable(d, k, m)
  {
    var es := EntriesOf(d, k);
    hide DirFile, EntriesOf, Clear, Bitmap.CountClear;
    if HasRun(es, n) {
      var i: nat :| RunAt(es, n, i);
      assert RunAt(es, m, i);
    } else if !HasRun(es, m) {
      TailShort(es, m);
      LongerCosts(d, k, m);
      LongerLess(d, k, n, m);
    }
  }

  lemma LongerLess<K>(d: Disk<K>, k: K, n: nat, m: nat)
    requires DirFile(d, k) && Tail(EntriesOf(d, k)) < m <= n
    ensures Cost(d.files[k].size, LongerSize(d, k, m), d.clusterSize)
            <= Cost(d.files[k].size, LongerSize(d, k, n), d.clusterSize)
  {
    hide Consistent, EntriesOf, Tail;
    var cs, size, t := d.clusterSize, d.files[k].size, Tail(EntriesOf(d, k));
    var few, many := size + (m - t) * ENTRY_SIZE, size + (n - t) * ENTRY_SIZE;
    ClustersForMonotone(few, many, cs);
    RoundedExact(ClustersFor(few, cs), cs);
    RoundedExact(ClustersFor(many, cs), cs);
  }

  /** Room left by a deletion stays when the directory is cut behind its last file: what is cut off can be had again. */
  lemma VacatedReusable<K>(d: Disk<K>, k: K, at: nat, n: nat, kids: seq<Kid>, rs: Records,
                           deletedOffset: nat, d': Disk<K>)
    requires DirFile(d, k) && RunAt(EntriesOf(d, k), n, at) && 0 < n && ShrunkTo(d, k, kids, rs, deletedOffset, d')
    ensures Reusable(d', k, n)
  {
    hide DirOk, OthersKept, EntriesOf, Clear, Consistent, HasRun, Bitmap.CountClear, CutSize, Named;
    if d'.files[k].size == d.files[k].size {
      RunThere(EntriesOf(d, k), n, at);
    } else {
      var es, es' := EntriesOf(d, k), EntriesOf(d', k);
      if !HasRun(es', n) {
        TailShort(es', n);
        CutTail(es, |es'|, at, n);
        LongerCosts(d', k, n);
        CutCost(d, k, n, d');
      }
    }
  }

  lemma RunThere(es: seq<Slot>, n: nat, at: nat)
    requires RunAt(es, n, at)
    ensures HasRun(es, n)
  {
  }

  /** What is left of a run after a cut is part of the vacant tail. */
  lemma CutTail(es: seq<Slot>, m: nat, at: nat, n: nat)
    requires RunAt(es, n, at) && m <= |es| && !HasRun(es[..m], n)
    ensures m - Tail(es[..m]) <= at
  {
    hide HasRun;
    if at + n <= m {
      CutRun(es, m, at, n);
      assert false;
    } else if at < m {
      TailReaches(es[..m], at);
    }
  }

  lemma CutRun(es: seq<Slot>, m: nat, at: nat, n: nat)
    requires RunAt(es, n, at) && at + n <= m <= |es|
    ensures HasRun(es[..m], n)
  {
    assert RunAt(es[..m], n, at);
  }

  lemma {:induction false} TailReaches(es: seq<Slot>, from: nat)
    requires from <= |es| && VacantRun(es, from, |es|)
    ensures |es| - Tail(es) <= from
  {
    if from < |es| {
      var rest := es[..|es| - 1];
      assert forall j :: from <= j < |rest| ==> rest[j] == es[j];
      TailReaches(rest, from);
    }
  }

  /** Making a cut directory long enough again takes no more clusters than the cut gave back. */
  lemma CutCost<K>(d: Disk<K>, k: K, n: nat, d': Disk<K>)
    requires DirFile(d, k) && Reclaimed(d, k, d') && Tail(EntriesOf(d', k)) < n
    requires |EntriesOf(d', k)| - Tail(EntriesOf(d', k)) + n <= |EntriesOf(d, k)|
    ensures Cost(d'.files[k].size, LongerSize(d', k, n), d'.clusterSize) <= Bitmap.CountClear(d'.used)
  {
    EntryCount(d, k);
    EntryCount(d', k);
    hide EntriesOf, Clear, FilesOk, OwnedUsed, Disjoint, NoLeak, Uniform, Tail, Bitmap.CountClear, ChainOf;
    var cs := d.clusterSize;
    var longer := d'.files[k].size + (n - Tail(EntriesOf(d', k))) * ENTRY_SIZE;
    assert longer <= d.files[k].size;
    ClustersForMonotone(longer, d.files[k].size, cs);
    RoundedExact(ClustersFor(longer, cs), cs);
  }

  /** The room stays when another file gives back clusters. */
  lemma ReusableStays<K>(d: Disk<K>, k: K, n: nat, ks: set<K>, d': Disk<K>)
    requires Reusable(d, k, n) && KeptOutside(d, ks, d') && k !in ks
    requires d'.used == d.used || Bitmap.CountClear(d'.used) > Bitmap.CountClear(d.used)
    ensures Reusable(d', k, n)
  {
    EntriesOutside(d, ks, d', k);
    hide EntriesOf, HasRun, Bitmap.CountClear, Layout.Bytes, ChainOf, Consistent;
    if Growth.Trap(d'.used, d'.files[k], Layout.Count(d', k)) {
      TrapCount(d'.used, d'.files[k], Layout.Count(d', k));
    }
  }
}
