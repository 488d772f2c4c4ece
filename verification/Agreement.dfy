/** A directory whose entries are exactly those of a set of files, and what keeps it so. */
module Agreement {
  import opened Content
  import opened Entries
  import opened Scanning
  import opened Utf

  /** The files of a directory, by the number of their first entry. */
  type Records = map<nat, Record>

  /** An entry that is no part of a file: deleted, never used, or one of the volume's own. */
  predicate Quiet(e: Slot) {
    e[0] < VALID || e[0] == BITMAP || e[0] == UPCASE || e[0] == LABEL
  }

  predicate Vacant(e: Slot) {
    e[0] < VALID
  }

  predicate Covers(rs: Records, i: nat, k: nat)
    requires i in rs
  {
    Buffer(rs[i].name) && i <= k < i + Length(rs[i])
  }

  ghost predicate Inside(rs: Records, k: nat) {
    exists i :: i in rs && Covers(rs, i, k)
  }

  /** The entries of the file at `i` are in their place. */
  predicate Placed(es: seq<Slot>, i: nat, r: Record) {
    Buffer(r.name) && i + Length(r) <= |es| && es[i..i + Length(r)] == EntrySet(r)
  }

  predicate Apart(rs: Records)
    requires forall i :: i in rs ==> Buffer(rs[i].name)
  {
    forall i, j :: i in rs && j in rs && i < j ==> i + Length(rs[i]) <= j
  }

  /** The entries are those of good records, one after another or with quiet entries between them. */
  ghost predicate Laid(es: seq<Slot>, rs: Records, clusterSize: nat) {
    && clusterSize > 0
    && (forall i :: i in rs ==> Good(rs[i], clusterSize) && Placed(es, i, rs[i]))
    && Apart(rs)
    && (forall k :: 0 <= k < |es| && !Inside(rs, k) ==> Quiet(es[k]))
  }

  /** Between two files, or at the start of one. */
  ghost predicate Boundary(rs: Records, i: nat) {
    forall j :: j in rs && Covers(rs, j, i) ==> j == i
  }

  /** What a scan from entry `i` should find: the first file from there on. */
  ghost predicate Finds(rs: Records, i: nat, found: Outcome) {
    match found
    case Malformed => false
    case End => forall j :: j in rs ==> j < i
    case Found(at, info, next) =>
      && at in rs && at >= i && Buffer(rs[at].name)
      && (forall j :: j in rs && j >= i ==> j >= at)
      && info == ReadInfo(rs[at]) && next == at + Length(rs[at])
  }

  lemma {:induction false} ScanFinds(es: seq<Slot>, rs: Records, i: nat, clusterSize: nat)
    requires Laid(es, rs, clusterSize) && i <= |es| && Boundary(rs, i)
    ensures Finds(rs, i, Scan(es, i, NOTHING, clusterSize))
    ensures Scan(es, i, NOTHING, clusterSize).Found? ==> Boundary(rs, Scan(es, i, NOTHING, clusterSize).next)
    decreases |es| - i
  {
    hide Laid, Finds, Boundary, Good, ReadInfo, Take, Scan;
    LaidSize(es, rs, clusterSize);
    if i in rs {
      FoundHere(es, rs, i, clusterSize);
    } else if i == |es| {
      ScanEnd(es, clusterSize);
      NoneLeft(es, rs, clusterSize);
    } else {
      QuietHere(es, rs, i, clusterSize);
      QuietTaken(es[i], i, clusterSize);
      ScanOne(es, i, NOTHING, clusterSize);
      BoundaryMoves(rs, i);
      ScanFinds(es, rs, i + 1, clusterSize);
      FindsEarlier(rs, i, Scan(es, i + 1, NOTHING, clusterSize));
    }
  }

  lemma LaidSize(es: seq<Slot>, rs: Records, clusterSize: nat)
    requires Laid(es, rs, clusterSize)
    ensures clusterSize > 0
  {
  }

  lemma FoundHere(es: seq<Slot>, rs: Records, i: nat, clusterSize: nat)
    requires Laid(es, rs, clusterSize) && i in rs
    ensures i <= |es| && Finds(rs, i, Scan(es, i, NOTHING, clusterSize))
    ensures Scan(es, i, NOTHING, clusterSize).Found? && Boundary(rs, Scan(es, i, NOTHING, clusterSize).next)
  {
    hide Good, ReadInfo, Scan;
    ScanSet(es, i, rs[i], clusterSize);
    AfterOne(es, rs, i, clusterSize);
  }

  lemma QuietHere(es: seq<Slot>, rs: Records, i: nat, clusterSize: nat)
    requires Laid(es, rs, clusterSize) && Boundary(rs, i) && i < |es| && i !in rs
    ensures Quiet(es[i])
  {
    assert !Inside(rs, i);
  }

  lemma FindsEarlier(rs: Records, i: nat, found: Outcome)
    requires i !in rs && Finds(rs, i + 1, found)
    ensures Finds(rs, i, found)
  {
  }

  lemma QuietTaken(e: Slot, i: nat, clusterSize: nat)
    requires clusterSize > 0 && Quiet(e)
    ensures Take(NOTHING, e, i, clusterSize) == Going(NOTHING)
  {
  }

  lemma ScanEnd(es: seq<Slot>, clusterSize: nat)
    requires clusterSize > 0
    ensures Scan(es, |es|, NOTHING, clusterSize) == End
  {
  }

  lemma NoneLeft(es: seq<Slot>, rs: Records, clusterSize: nat)
    requires Laid(es, rs, clusterSize)
    ensures Finds(rs, |es|, End)
  {
  }

  lemma AfterOne(es: seq<Slot>, rs: Records, i: nat, clusterSize: nat)
    requires Laid(es, rs, clusterSize) && i in rs
    ensures Boundary(rs, i + Length(rs[i]))
  {
  }

  lemma BoundaryMoves(rs: Records, i: nat)
    requires Boundary(rs, i) && i !in rs
    ensures Boundary(rs, i + 1)
  {
    forall j | j in rs && Covers(rs, j, i + 1)
      ensures j == i + 1
    {
      if j <= i {
        assert Covers(rs, j, i);
      }
    }
  }

  datatype Entry = Entry(at: nat, info: Info)

  /** All files from entry `i` on. */
  function Listing(es: seq<Slot>, i: nat, clusterSize: nat): seq<Entry>
    requires clusterSize > 0 && i <= |es|
    decreases |es| - i
  {
    match Scan(es, i, NOTHING, clusterSize)
    case Found(at, info, next) => [Entry(at, info)] + Listing(es, next, clusterSize)
    case _ => []
  }

  /** No file from entry `i` on is malformed. */
  predicate Readable(es: seq<Slot>, i: nat, clusterSize: nat)
    requires clusterSize > 0 && i <= |es|
    decreases |es| - i
  {
    match Scan(es, i, NOTHING, clusterSize)
    case Found(_, _, next) => Readable(es, next, clusterSize)
    case End => true
    case Malformed => false
  }

  /** The listing is exactly the records from `i` on, in order of place. */
  ghost predicate Lists(rs: Records, i: nat, l: seq<Entry>) {
    && (forall k :: 0 <= k < |l| ==>
          l[k].at in rs && l[k].at >= i && Buffer(rs[l[k].at].name) && l[k].info == ReadInfo(rs[l[k].at]))
    && (forall j, k :: 0 <= j < k < |l| ==> l[j].at < l[k].at)
    && (forall j :: j in rs && j >= i ==> exists k :: 0 <= k < |l| && l[k].at == j)
  }

  /** Reading a directory through yields exactly its files, each once and accepted. */
  lemma {:induction false} ListsAll(es: seq<Slot>, rs: Records, i: nat, clusterSize: nat)
    requires Laid(es, rs, clusterSize) && i <= |es| && Boundary(rs, i)
    ensures Readable(es, i, clusterSize) && Lists(rs, i, Listing(es, i, clusterSize))
    decreases |es| - i
  {
    hide Scan, Laid, Boundary, ReadInfo;
    LaidSize(es, rs, clusterSize);
    ScanFinds(es, rs, i, clusterSize);
    match Scan(es, i, NOTHING, clusterSize)
    case Found(at, info, next) =>
      ListsAll(es, rs, next, clusterSize);
      ListsMore(es, rs, i, clusterSize, at, info, next, Listing(es, next, clusterSize));
    case _ =>
  }

  lemma ThenNext(es: seq<Slot>, rs: Records, clusterSize: nat, at: nat)
    requires Laid(es, rs, clusterSize) && at in rs
    ensures Buffer(rs[at].name) && forall j :: j in rs && j > at ==> j >= at + Length(rs[at])
  {
  }

  lemma ListsMore(es: seq<Slot>, rs: Records, i: nat, clusterSize: nat, at: nat, info: Info, next: nat, l: seq<Entry>)
    requires Laid(es, rs, clusterSize) && Finds(rs, i, Found(at, info, next)) && Lists(rs, next, l)
    ensures Lists(rs, i, [Entry(at, info)] + l)
  {
    hide ReadInfo, Laid;
    ThenNext(es, rs, clusterSize, at);
    var l' := [Entry(at, info)] + l;
    forall j | j in rs && j >= i
      ensures exists k :: 0 <= k < |l'| && l'[k].at == j
    {
      if j == at {
        assert l'[0].at == j;
      } else {
        assert j >= next;
        var k :| 0 <= k < |l| && l[k].at == j;
        assert l'[k + 1].at == j;
      }
    }
  }
}
