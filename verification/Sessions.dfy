/** Running the recovery over a list of units, stopping anywhere, and starting again. */
module Sessions {
  import opened Content
  import opened Options
  import opened Device
  import opened Restore
  import opened Marshal
  import opened Storage

  /** The restored files, by name. */
  type Outputs = map<seq<byte>, seq<byte>>

  /** What recovery needs besides the list: the partition and how to treat its bad parts. */
  datatype Job = Job(p: Partition, sectorSize: nat, mode: Mode)

  /** One unit: nothing if it has been done, otherwise its file is (re)written. */
  ghost function Saved(job: Job, out: Outputs, r: Record): Outputs
    requires job.sectorSize > 0
  {
    if r.processed then out else out[r.name := Recovered(job.p, job.sectorSize, r.extents, job.mode)]
  }

  ghost function SavedAll(job: Job, out: Outputs, rs: seq<Record>): Outputs
    requires job.sectorSize > 0
  {
    if rs == [] then out else Saved(job, SavedAll(job, out, rs[..|rs| - 1]), rs[|rs| - 1])
  }

  /** No unflagged record behind the i-th one has its name. */
  ghost predicate LastOfName(rs: seq<Record>, i: nat)
    requires i < |rs|
  {
    forall j :: i < j < |rs| && !rs[j].processed ==> rs[j].name != rs[i].name
  }

  ghost predicate Wanted(rs: seq<Record>, name: seq<byte>) {
    exists i :: 0 <= i < |rs| && !rs[i].processed && rs[i].name == name
  }

  /** What a run leaves: the file of every unit that was not flagged, restored from its extents as the mode says, and
      every other file as it was. Of several units of one name the last one counts. */
  ghost predicate Rescued(job: Job, before: Outputs, rs: seq<Record>, out: Outputs)
    requires job.sectorSize > 0
  {
    && (forall i :: 0 <= i < |rs| && !rs[i].processed && LastOfName(rs, i) ==>
          && rs[i].name in out
          && out[rs[i].name] == Recovered(job.p, job.sectorSize, rs[i].extents, job.mode))
    && (forall name :: !Wanted(rs, name) ==>
          && (name in out <==> name in before)
          && (name in out ==> out[name] == before[name]))
  }

  lemma {:induction false} SavedAllRescues(job: Job, before: Outputs, rs: seq<Record>)
    requires job.sectorSize > 0
    ensures Rescued(job, before, rs, SavedAll(job, before, rs))
  {
    hide Recovered, Saved, LastOfName, Wanted;
    if rs == [] {
      assert forall name :: !Wanted([], name) by { NoneWanted(); }
    } else {
      var n := |rs| - 1;
      SavedAllRescues(job, before, rs[..n]);
      RescuedNext(job, before, rs[..n], rs[n], SavedAll(job, before, rs[..n]));
      assert rs[..n] + [rs[n]] == rs;
    }
  }

  lemma NoneWanted()
    ensures forall name :: !Wanted([], name)
  {
  }

  lemma RescuedNext(job: Job, before: Outputs, rest: seq<Record>, r: Record, out: Outputs)
    requires job.sectorSize > 0 && Rescued(job, before, rest, out)
    ensures Rescued(job, before, rest + [r], Saved(job, out, r))
  {
    hide Recovered, LastOfName, Wanted;
    var rs, out' := rest + [r], Saved(job, out, r);
    forall i | 0 <= i < |rs| && !rs[i].processed && LastOfName(rs, i)
      ensures rs[i].name in out'
      ensures out'[rs[i].name] == Recovered(job.p, job.sectorSize, rs[i].extents, job.mode)
    {
      LastBefore(rest, r, i);
    }
    forall name | !Wanted(rs, name)
      ensures name in out' <==> name in before
      ensures name in out' ==> out'[name] == before[name]
    {
      NotWantedBefore(rest, r, name);
    }
  }

  lemma LastBefore(rest: seq<Record>, r: Record, i: nat)
    requires i <= |rest| && LastOfName(rest + [r], i)
    ensures i < |rest| ==> LastOfName(rest, i) && (r.processed || r.name != rest[i].name)
  {
    var rs := rest + [r];
    if i < |rest| {
      assert rs[i] == rest[i] && rs[|rest|] == r;
      assert forall j :: i < j < |rest| ==> rs[j] == rest[j];
    }
  }

  lemma NotWantedBefore(rest: seq<Record>, r: Record, name: seq<byte>)
    requires !Wanted(rest + [r], name)
    ensures !Wanted(rest, name) && (r.processed || r.name != name)
  {
    var rs := rest + [r];
    assert rs[|rest|] == r;
    forall i | 0 <= i < |rest|
      ensures rest[i].processed || rest[i].name != name
    {
      assert rs[i] == rest[i];
    }
  }

  /** The list with its first `n` records flagged. */
  function DoneUpTo(rs: seq<Record>, n: nat): (ds: seq<Record>)
    requires n <= |rs|
    ensures |ds| == |rs|
    ensures forall i :: 0 <= i < |rs| ==> ds[i] == if i < n then Flagged(rs[i], true) else rs[i]
  {
    seq(|rs|, i requires 0 <= i < |rs| => if i < n then Flagged(rs[i], true) else rs[i])
  }

  lemma DoneUpToNext(rs: seq<Record>, n: nat)
    requires n < |rs|
    ensures DoneUpTo(rs, n)[n] == rs[n] && DoneUpTo(rs, n + 1) == Done(DoneUpTo(rs, n), n)
  {
  }

  class Processor {
    const units: seq<Unit>
    const job: Job
    var outputs: Outputs

    constructor (units: seq<Unit>, job: Job, outputs: Outputs)
      ensures this.units == units && this.job == job && this.outputs == outputs
    {
      this.units, this.job, this.outputs := units, job, outputs;
    }

    /** Recovers one unit unless it is flagged, then flags it, in memory and in the file. */
    method ProcessUnit(i: nat, file: array<byte>, ghost rs: seq<Record>)
      requires job.sectorSize > 0 && i < |units| && Tied(units, file, rs) && Storage.Sound(rs) && file[..] == Packed(rs)
      modifies this`outputs, units[i], file
      ensures outputs == Saved(job, old(outputs), rs[i])
      ensures outputs == if rs[i].processed then old(outputs)
                         else old(outputs)[rs[i].name := Recovered(job.p, job.sectorSize, rs[i].extents, job.mode)]
      ensures Tied(units, file, Done(rs, i)) && file[..] == Packed(Done(rs, i))
    {
      hide Encode, Packed, Recovered, Place, Splice, Tied, Sound;
      TiedUnit(units, file, rs, i);
      if units[i].processed {
        DoneAlready(rs, i);
      } else {
        var restored := RecoverUnit(job.p, job.sectorSize, units[i].extents, job.mode);
        outputs := outputs[units[i].name := restored];
        FlagUnit(units, i, file, rs);
      }
    }

    /** Recovers every unit in turn. */
    method Process(file: array<byte>, ghost rs: seq<Record>)
      requires job.sectorSize > 0 && Tied(units, file, rs) && Storage.Sound(rs) && file[..] == Packed(rs)
      modifies this`outputs, units, file
      ensures outputs == SavedAll(job, old(outputs), rs) && Rescued(job, old(outputs), rs, outputs)
      ensures Tied(units, file, DoneUpTo(rs, |rs|)) && file[..] == Packed(DoneUpTo(rs, |rs|))
    {
      hide Encode, Packed, Recovered, Place, Splice, Tied, Saved, Fits, Rescued;
      SavedAllRescues(job, outputs, rs);
      assert DoneUpTo(rs, 0) == rs;
      TiedLength(units, file, rs);
      var i := 0;
      while i < |units|
        invariant i <= |units| == |rs|
        invariant outputs == SavedAll(job, old(outputs), rs[..i])
        invariant Tied(units, file, DoneUpTo(rs, i)) && file[..] == Packed(DoneUpTo(rs, i))
      {
        DoneUpToNext(rs, i);
        assert rs[..i + 1][..i] == rs[..i];
        FitsKept(rs, i);
        ProcessUnit(i, file, DoneUpTo(rs, i));
        i := i + 1;
      }
      assert rs[..i] == rs;
    }
  }

  /** Flags the i-th unit and writes its record over the old one, and once more as the source does. */
  method FlagUnit(us: seq<Unit>, i: nat, file: array<byte>, ghost rs: seq<Record>)
    requires i < |us| && Tied(us, file, rs) && Storage.Sound(rs) && file[..] == Packed(rs)
    modifies us[i], file
    ensures Tied(us, file, Done(rs, i)) && file[..] == Packed(Done(rs, i))
  {
    hide Encode, Packed, Place, Splice, Seated, Sound;
    TiedUnit(us, file, rs, i);
    assert forall j :: 0 <= j < |us| ==> us[j].Value() == rs[j];
    DonePacked(rs, i);
    SeatedFlagged(us, file, rs, i, true);
    us[i].SetProcessed(true);
    DonePacked(Done(rs, i), i);
    PlaceKept(rs, i, true, i);
    DoneAlready(Done(rs, i), i);
    us[i].SyncMe();
    assert Values(us) == Done(rs, i);
  }

  /** The list once its i-th unit has been restored. */
  function Done(rs: seq<Record>, i: nat): seq<Record>
    requires i < |rs|
  {
    rs[i := Flagged(rs[i], true)]
  }

  lemma DoneAlready(rs: seq<Record>, i: nat)
    requires i < |rs| && rs[i].processed
    ensures Done(rs, i) == rs
  {
  }

  lemma DonePacked(rs: seq<Record>, i: nat)
    requires i < |rs| && Storage.Sound(rs)
    ensures 0 !in rs[i].name && Storage.Sound(Done(rs, i))
    ensures |Encode(Flagged(rs[i], true))| == |Encode(rs[i])| && Place(rs, i) + |Encode(rs[i])| <= |Packed(rs)|
    ensures Packed(Done(rs, i)) == Splice(Packed(rs), Place(rs, i), Encode(Flagged(rs[i], true)))
  {
    PackedUpdate(rs, i, true);
    FlagKeepsSize(rs[i], true, 0);
  }

  lemma TiedUnit(us: seq<Unit>, file: array<byte>, rs: seq<Record>, i: nat)
    requires Tied(us, file, rs) && i < |us|
    ensures |us| == |rs| && us[i].Value() == rs[i] && us[i].mem == file && us[i].offset == Place(rs, i)
    ensures forall j :: 0 <= j < |us| && j != i ==> us[j] != us[i]
  {
  }

  lemma TiedLength(us: seq<Unit>, file: array<byte>, rs: seq<Record>)
    requires Tied(us, file, rs)
    ensures |us| == |rs|
  {
  }

  lemma FitsKept(rs: seq<Record>, n: nat)
    requires Storage.Sound(rs) && n <= |rs|
    ensures Storage.Sound(DoneUpTo(rs, n))
  {
  }

  // --- stopping and starting again ---

  /** The state in which a run over `rs` may be cut off: `n` units are done; the file of the next one, if it
      was being restored, may hold anything; its flag is still as it was. */
  datatype Cut = Cut(n: nat, partial: Option<seq<byte>>)

  ghost function CutOutputs(job: Job, out: Outputs, rs: seq<Record>, c: Cut): Outputs
    requires job.sectorSize > 0 && c.n <= |rs|
  {
    var done := SavedAll(job, out, rs[..c.n]);
    if c.partial == None || c.n == |rs| || rs[c.n].processed then done
    else done[rs[c.n].name := c.partial.value]
  }

  lemma {:induction false} SavedSplit(job: Job, out: Outputs, a: seq<Record>, b: seq<Record>)
    requires job.sectorSize > 0
    ensures SavedAll(job, out, a + b) == SavedAll(job, SavedAll(job, out, a), b)
  {
    hide Saved;
    if b == [] {
      assert a + b == a;
    } else {
      var n := |b| - 1;
      SavedSplit(job, out, a, b[..n]);
      assert (a + b)[..|a| + n] == a + b[..n];
    }
  }

  /** Flagged records are passed over. */
  lemma {:induction false} FlaggedSkipped(job: Job, out: Outputs, rs: seq<Record>)
    requires job.sectorSize > 0 && forall r :: r in rs ==> r.processed
    ensures SavedAll(job, out, rs) == out
  {
    if rs != [] {
      FlaggedSkipped(job, out, rs[..|rs| - 1]);
    }
  }

  /** However a run is cut off, running again over the file as it was left gives the same restored files and the
      same list as a run that was never cut. */
  lemma ResumedRun(job: Job, out: Outputs, rs: seq<Record>, c: Cut)
    requires job.sectorSize > 0 && c.n <= |rs|
    ensures SavedAll(job, CutOutputs(job, out, rs, c), DoneUpTo(rs, c.n)) == SavedAll(job, out, rs)
    ensures DoneUpTo(DoneUpTo(rs, c.n), |rs|) == DoneUpTo(rs, |rs|)
  {
    hide Saved, SavedAll, DoneUpTo, CutOutputs;
    var ds, cut := DoneUpTo(rs, c.n), CutOutputs(job, out, rs, c);
    DoneUpToParts(rs, c.n);
    SavedSplit(job, cut, ds[..c.n], rs[c.n..]);
    FlaggedSkipped(job, cut, ds[..c.n]);
    assert rs == rs[..c.n] + rs[c.n..];
    SavedSplit(job, out, rs[..c.n], rs[c.n..]);
    CutGoesOn(job, out, rs, c);
  }

  /** From a cut, what is left to do ends as it would have without the cut. */
  lemma CutGoesOn(job: Job, out: Outputs, rs: seq<Record>, c: Cut)
    requires job.sectorSize > 0 && c.n <= |rs|
    ensures SavedAll(job, CutOutputs(job, out, rs, c), rs[c.n..])
            == SavedAll(job, SavedAll(job, out, rs[..c.n]), rs[c.n..])
  {
    hide Saved, SavedAll;
    var cut, done := CutOutputs(job, out, rs, c), SavedAll(job, out, rs[..c.n]);
    if cut != done {
      var first, rest := [rs[c.n]], rs[c.n + 1..];
      assert rs[c.n..] == first + rest;
      SavedSplit(job, cut, first, rest);
      SavedSplit(job, done, first, rest);
      PartialOverwritten(job, done, rs[c.n], c.partial.value);
    }
  }

  lemma DoneUpToParts(rs: seq<Record>, n: nat)
    requires n <= |rs|
    ensures var ds := DoneUpTo(rs, n);
            && |ds| == |rs|
            && ds == ds[..n] + rs[n..]
            && (forall r :: r in ds[..n] ==> r.processed)
            && DoneUpTo(ds, |rs|) == DoneUpTo(rs, |rs|)
  {
  }

  /** A half-written file is overwritten by the next attempt. */
  lemma PartialOverwritten(job: Job, out: Outputs, r: Record, partial: seq<byte>)
    requires job.sectorSize > 0 && !r.processed
    ensures SavedAll(job, out[r.name := partial], [r]) == SavedAll(job, out, [r])
  {
    hide Recovered;
    assert [r][..0] == [];
  }

  /** The outputs and the list after any number of runs that were cut off. */
  ghost function AfterCuts(job: Job, out: Outputs, rs: seq<Record>, cuts: seq<Cut>): (Outputs, seq<Record>)
    requires job.sectorSize > 0 && forall c :: c in cuts ==> c.n <= |rs|
    decreases |cuts|
  {
    if cuts == [] then (out, rs)
    else AfterCuts(job, CutOutputs(job, out, rs, cuts[0]), DoneUpTo(rs, cuts[0].n), cuts[1..])
  }

  /** Any number of interruptions, anywhere, cost nothing but time: the run that is at last let finish leaves
      exactly what one undisturbed run would have left. */
  lemma {:induction false} ManyCuts(job: Job, out: Outputs, rs: seq<Record>, cuts: seq<Cut>)
    requires job.sectorSize > 0 && forall c :: c in cuts ==> c.n <= |rs|
    ensures var (out', rs') := AfterCuts(job, out, rs, cuts);
            && |rs'| == |rs|
            && SavedAll(job, out', rs') == SavedAll(job, out, rs)
            && DoneUpTo(rs', |rs|) == DoneUpTo(rs, |rs|)
    decreases |cuts|
  {
    if cuts != [] {
      ResumedRun(job, out, rs, cuts[0]);
      ManyCuts(job, CutOutputs(job, out, rs, cuts[0]), DoneUpTo(rs, cuts[0].n), cuts[1..]);
    }
  }

  /** So the run that is at last let finish leaves every file as one undisturbed run promises it. */
  lemma CutsRescue(job: Job, out: Outputs, rs: seq<Record>, cuts: seq<Cut>)
    requires job.sectorSize > 0 && forall c :: c in cuts ==> c.n <= |rs|
    ensures var (out', rs') := AfterCuts(job, out, rs, cuts); Rescued(job, out, rs, SavedAll(job, out', rs'))
  {
    hide Rescued, SavedAll, Saved, AfterCuts;
    ManyCuts(job, out, rs, cuts);
    SavedAllRescues(job, out, rs);
  }
}
