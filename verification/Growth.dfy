/** What growing and shrinking a chain does to the FAT, the map and the node's fields. */
module Growth {
  import opened Bitmap
  import opened Clusters
  import opened Layout

  /** A file of one cluster, marked contiguous, when the only clear bit is that of the cluster before it. */
  ghost predicate Trap(used: seq<bool>, f: File, n: nat) {
    && f.contiguous && n == 1 && f.start > FIRST_DATA && InMap(f.start - 1, |used|)
    && forall i :: 0 <= i < |used| ==> used[i] == (i + FIRST_DATA != f.start - 1)
  }

  /** Growth without the trap: the clusters `taken` have been appended to the chain of `f0`. */
  ghost predicate Growing(fat0: seq<u32>, used0: seq<bool>, f0: File, n: nat, taken: seq<u32>,
                          fat: seq<u32>, used: seq<bool>, f: File) {
    var chain0 := Chain(fat0, f0.contiguous, f0.start, n);
    && Chain(fat, f.contiguous, f.start, n + |taken|) == chain0 + taken
    && Sound(chain0 + taken, |used0|)
    && used == Mark(used0, taken, true)
    && (forall c :: c in taken ==> InMap(c, |used0|) && !used0[c - FIRST_DATA])
    && (forall c :: c in chain0 ==> InMap(c, |used0|) && used0[c - FIRST_DATA])
    && (forall c: u32 :: c < |fat| && c < |fat0| && c !in chain0 + taken ==> fat[c] == fat0[c])
    && (taken == [] ==> fat == fat0 && f.contiguous == f0.contiguous)
    && (f.contiguous ==>
          || taken == []
          || (n == 0 && |taken| == 1 && forall i :: 0 <= i < taken[0] - FIRST_DATA && i < |used0| ==> used0[i]))
  }

  /** Growth in the trap: the one free cluster may have been taken, nothing else has changed. */
  ghost predicate Trapped(fat0: seq<u32>, used0: seq<bool>, f0: File, n: nat, taken: seq<u32>,
                          fat: seq<u32>, used: seq<bool>, f: File) {
    && fat == fat0 && f.contiguous && f.start > FIRST_DATA
    && (taken == [] || taken == [f.start - 1])
    && used == if taken == [] then used0 else SetFlag(used0, f.start - 1, true)
  }

  /** The state of GrowFile's loop after taking `taken`. */
  ghost predicate GrowState(fat0: seq<u32>, used0: seq<bool>, f0: File, n: nat, taken: seq<u32>,
                            fat: seq<u32>, used: seq<bool>, f: File) {
    && |used0| + 3 <= LAST_DATA && |fat| == |fat0| >= |used0| + 4
    && FileOk(fat0, |used0|, f0, n)
    && CountClear(used) + |taken| == CountClear(used0)
    && f.size == f0.size
    && CursorOk(fat, f, n + |taken|)
    && (f.start == FREE <==> n + |taken| == 0)
    && (n > 0 ==> f.start == f0.start)
    && if Trap(used0, f0, n) then Trapped(fat0, used0, f0, n, taken, fat, used, f)
       else Growing(fat0, used0, f0, n, taken, fat, used, f)
  }

  ghost predicate Grown(fat0: seq<u32>, used0: seq<bool>, f0: File, n: nat, difference: nat,
                        fat: seq<u32>, used: seq<bool>, f: File) {
    var chain0 := Chain(fat0, f0.contiguous, f0.start, n);
    var chain := Chain(fat, f.contiguous, f.start, n + difference);
    && |fat| == |fat0| >= |used0| + FIRST_DATA
    && FileOk(fat, |used0|, f, n + difference)
    && f.size == f0.size
    && chain[..n] == chain0
    && (forall c :: c in chain[n..] ==> InMap(c, |used0|) && !used0[c - FIRST_DATA])
    && used == Mark(used0, chain[n..], true)
    && (forall c: u32 :: c < |fat| && c !in chain ==> fat[c] == fat0[c])
    && (Trap(used, f, n + difference) <==> difference == 0 && Trap(used0, f0, n))
  }

  /** The chain and the map are as they were; only entries of clusters that are free may have changed. */
  ghost predicate RolledBack(fat0: seq<u32>, used0: seq<bool>, f0: File, n: nat,
                             fat: seq<u32>, used: seq<bool>, f: File) {
    var chain0 := Chain(fat0, f0.contiguous, f0.start, n);
    && |fat| == |fat0| >= |used0| + FIRST_DATA
    && FileOk(fat, |used0|, f, n)
    && f.size == f0.size && f.start == f0.start
    && Chain(fat, f.contiguous, f.start, n) == chain0
    && used == used0
    && (forall c: u32 :: InMap(c, |used0|) && used0[c - FIRST_DATA] && c !in chain0 ==> fat[c] == fat0[c])
  }

  /** What GrowFile promises: outside the trap it grows the chain exactly when enough clusters are free, and
      otherwise rolls back; in the trap it always leaks a cluster. */
  ghost predicate GrowOutcome(fat0: seq<u32>, used0: seq<bool>, f0: File, n: nat, difference: nat, ok: bool,
                              fat: seq<u32>, used: seq<bool>, f: File) {
    && (ok <==> difference <= CountClear(used0))
    && if difference > 0 && Trap(used0, f0, n) then
         Leaked(fat0, f0, fat, used, f) && (ok ==> used == SetFlag(used0, f0.start - 1, true))
       else if ok then Grown(fat0, used0, f0, n, difference, fat, used, f)
       else RolledBack(fat0, used0, f0, n, fat, used, f)
  }

  /** What the trap leaves: the cluster before the file is marked used, but the file does not reach it. */
  ghost predicate Leaked(fat0: seq<u32>, f0: File, fat: seq<u32>, used: seq<bool>, f: File) {
    && fat == fat0
    && f.contiguous && f.start == f0.start > FIRST_DATA && f.size == f0.size
    && InMap(f.start - 1, |used|) && used[f.start - 1 - FIRST_DATA]
    && CursorOk(fat, f, 2)
  }

  ghost predicate Full(used: seq<bool>) {
    forall i :: 0 <= i < |used| ==> used[i]
  }

  lemma NoneClear(used: seq<bool>, hint: nat)
    requires Full(used) && hint <= |used|
    ensures CyclicFirstClear(used, hint) == -1
  {
  }

  /** Every bit is set, and the file can be walked to its last cluster: it cannot grow, whatever state it is in. */
  ghost predicate Stuck(fat: seq<u32>, used: seq<bool>, f: File, n: nat) {
    && Full(used)
    && n > 0 && f.start != FREE && CursorOk(fat, f, n)
    && forall k :: 0 <= k < n ==> !Invalid(Nth(fat, f.contiguous, f.start, k))
  }

  lemma GrowNothing(fat: seq<u32>, used: seq<bool>, f: File, n: nat)
    requires |fat| >= |used| + 4 && FileOk(fat, |used|, f, n)
    ensures GrowOutcome(fat, used, f, n, 0, true, fat, used, f)
  {
    var chain := Chain(fat, f.contiguous, f.start, n);
    assert chain[..n] == chain && chain[n..] == [];
    assert Mark(used, [], true) == used;
  }

  lemma GrowStarts(fat: seq<u32>, used: seq<bool>, f: File, n: nat)
    requires |used| + 3 <= LAST_DATA && |fat| >= |used| + 4 && FileOk(fat, |used|, f, n) && f.start != FREE
    requires forall c :: c in Chain(fat, f.contiguous, f.start, n) ==> used[c - FIRST_DATA]
    ensures n > 0
    ensures var last := Nth(fat, f.contiguous, f.start, n - 1);
            && (Chain(fat, f.contiguous, f.start, n) + [])[n - 1] == last
            && !Invalid(last)
            && (forall k :: 0 <= k <= n - 1 ==> !Invalid(Nth(fat, f.contiguous, f.start, k)))
            && f.cursor == Nth(fat, f.contiguous, f.start, f.index)
            && GrowState(fat, used, f, n, [], fat, used, f.(index := n - 1, cursor := last))
  {
    var chain := Chain(fat, f.contiguous, f.start, n);
    assert chain + [] == chain;
    assert Mark(used, [], true) == used;
    forall k | 0 <= k < n
      ensures !Invalid(Nth(fat, f.contiguous, f.start, k))
    {
      assert chain[k] in chain;
    }
  }

  lemma GrowEmpty(fat: seq<u32>, used: seq<bool>, f: File, n: nat)
    requires |used| + 3 <= LAST_DATA && |fat| >= |used| + 4 && FileOk(fat, |used|, f, n) && f.start == FREE
    ensures n == 0 && f.index == 0 && StartBit(0, |used|) == 0
    ensures CyclicFirstClear(used, 0) == -1 ==>
              forall difference: nat :: difference > 0 ==>
                GrowOutcome(fat, used, f, n, difference, false, fat, used, f)
  {
    CountClearZero(used);
  }

  lemma GrowFirst(fat: seq<u32>, used: seq<bool>, f: File, r: int)
    requires |used| + 3 <= LAST_DATA && |fat| >= |used| + 4 && FileOk(fat, |used|, f, 0)
    requires r == CyclicFirstClear(used, 0) != -1
    ensures var c := r + FIRST_DATA;
            && !Invalid(c) && (Chain(fat, f.contiguous, f.start, 0) + [c])[0] == c
            && GrowState(fat, used, f, 0, [c], fat, SetFlag(used, c, true), File(c, true, f.size, 0, c))
  {
    hide FirstClear, CountClear, CursorOk;
    var c := r + FIRST_DATA;
    assert Chain(fat, true, c, 1) == [c];
    assert Chain(fat, f.contiguous, f.start, 0) + [c] == [c];
    assert SetFlag(used, c, true) == Mark(used, [c], true);
    CountAfterUpdate(used, r, true);
    OneCluster(fat, c, f.size);
  }

  lemma OneCluster(fat: seq<u32>, c: u32, size: nat)
    ensures CursorOk(fat, File(c, true, size, 0, c), 1)
  {
  }

  /** The bit at which the search for a cluster near `hint` begins; the subtraction wraps at 32 bits. */
  function StartBit(hint: u32, size: nat): nat {
    var h := (hint - FIRST_DATA) % 0x1_0000_0000;
    if h >= size then 0 else h
  }

  /** In numbers: at the hint's own bit if it has one, otherwise at the first. */
  lemma HintBit(hint: u32, size: nat)
    requires size <= 0xffff_fff5
    ensures StartBit(hint, size) == if 2 <= hint < size + 2 then hint - 2 else 0
  {
  }

  lemma StartBitIn(hint: u32, size: nat)
    ensures StartBit(hint, size) <= size
  {
  }

  /** A file on a full map can be walked to its last cluster, where the cursor then stands. */
  lemma StuckEnds(fat: seq<u32>, used: seq<bool>, f: File, n: nat)
    requires Stuck(fat, used, f, n)
    ensures var last := Nth(fat, f.contiguous, f.start, n - 1);
            && f.start != FREE && n > 0 && !Invalid(last) && Full(used)
            && f.cursor == Nth(fat, f.contiguous, f.start, f.index)
            && (forall k :: 0 <= k <= n - 1 ==> !Invalid(Nth(fat, f.contiguous, f.start, k)))
            && CursorOk(fat, f.(index := n - 1, cursor := last), n)
  {
    hide Full;
  }

  lemma LastOf(fat0: seq<u32>, used0: seq<bool>, f0: File, n: nat, taken: seq<u32>,
               fat: seq<u32>, used: seq<bool>, f: File)
    requires GrowState(fat0, used0, f0, n, taken, fat, used, f) && n + |taken| > 0
    ensures InMap((Chain(fat0, f0.contiguous, f0.start, n) + taken)[n + |taken| - 1], |used0|)
    ensures |used| == |used0| < LAST_DATA && |fat| >= |used0| + 4 && CountClear(used) + |taken| == CountClear(used0)
  {
    var all := Chain(fat0, f0.contiguous, f0.start, n) + taken;
    if !Trap(used0, f0, n) {
      assert all[n + |taken| - 1] in all;
    }
  }

  lemma ChoiceInTrap(fat0: seq<u32>, used0: seq<bool>, f0: File, n: nat, taken: seq<u32>,
                     fat: seq<u32>, used: seq<bool>, f: File, previous: u32, r: int)
    requires Trap(used0, f0, n) && Trapped(fat0, used0, f0, n, taken, fat, used, f) && f.start == f0.start
    requires previous == (Chain(fat0, f0.contiguous, f0.start, n) + taken)[n + |taken| - 1]
    requires InMap(previous, |used|) && |used| == |used0| < LAST_DATA
    requires r == CyclicFirstClear(used, StartBit(previous + 1, |used|)) != -1
    ensures r + FIRST_DATA == previous - 1 && taken == [] && previous == f.start
  {
    hide FirstClear;
    assert Chain(fat0, f0.contiguous, f0.start, n)[0] == f0.start;
  }

  lemma ChoiceFirst(fat0: seq<u32>, used0: seq<bool>, f0: File, n: nat, previous: u32, r: int)
    requires |used0| + 3 <= LAST_DATA && f0.contiguous && n > 0
    requires Sound(Chain(fat0, true, f0.start, n), |used0|)
    requires forall c :: c in Chain(fat0, true, f0.start, n) ==> used0[c - FIRST_DATA]
    requires previous == Chain(fat0, true, f0.start, n)[n - 1] && InMap(previous, |used0|)
    requires r == CyclicFirstClear(used0, StartBit(previous + 1, |used0|)) != -1
    requires r + FIRST_DATA == previous - 1
    ensures Trap(used0, f0, n)
  {
    var chain0 := Chain(fat0, f0.contiguous, f0.start, n);
    ContiguousRun(fat0, f0.start, n, |used0|);
    assert chain0[0] in chain0;
    if n > 1 {
      ChainHas(chain0, n - 2);
    }
    hide FirstClear, Chain, Nth;
  }

  lemma ChainHas(chain: seq<u32>, k: nat)
    requires k < |chain|
    ensures chain[k] in chain
  {
  }

  /** The cluster found next lies just before a contiguous file's last one exactly in the trap. */
  lemma ChoiceAfter(fat0: seq<u32>, used0: seq<bool>, f0: File, n: nat, taken: seq<u32>,
                    fat: seq<u32>, used: seq<bool>, f: File, previous: u32, r: int)
    requires GrowState(fat0, used0, f0, n, taken, fat, used, f) && n + |taken| > 0
    requires previous == (Chain(fat0, f0.contiguous, f0.start, n) + taken)[n + |taken| - 1]
    requires InMap(previous, |used|) && |used| == |used0| < LAST_DATA
    requires r == CyclicFirstClear(used, StartBit(previous + 1, |used|)) != -1
    ensures f.contiguous ==> (r + FIRST_DATA == previous - 1 <==> Trap(used0, f0, n))
    ensures Trap(used0, f0, n) ==> taken == [] && r + FIRST_DATA == previous - 1 && previous == f.start
  {
    hide Trap, CyclicFirstClear;
    var chain0 := Chain(fat0, f0.contiguous, f0.start, n);
    if Trap(used0, f0, n) {
      TrapStart(used0, f0, n);
      ChoiceInTrap(fat0, used0, f0, n, taken, fat, used, f, previous, r);
    } else if f.contiguous {
      if taken == [] {
        assert chain0 + taken == chain0;
        assert used == used0 by { assert Mark(used0, [], true) == used0; }
        if r + FIRST_DATA == previous - 1 {
          ChoiceFirst(fat0, used0, f0, n, previous, r);
        }
      } else {
        assert forall i :: 0 <= i < |used| && used0[i] ==> used[i];
        hide Mark, Nth, Chain, CountClear;
      }
    }
  }

  lemma TrapStart(used: seq<bool>, f: File, n: nat)
    requires Trap(used, f, n)
    ensures n == 1 && f.contiguous
    ensures InMap(f.start - 1, |used|) && !used[f.start - 1 - FIRST_DATA]
  {
  }

  /** `linked` is `fat` with the links first -> first + 1 -> ... -> last written. */
  ghost predicate Links(fat: seq<u32>, linked: seq<u32>, first: u32, last: u32) {
    && |linked| == |fat|
    && forall c: u32 :: c < |fat| ==> linked[c] == if first <= c < last then c + 1 else fat[c]
  }

  /** Spelling out a contiguous chain keeps it, and touches no entry outside it. */
  lemma LinksKeepChain(fat: seq<u32>, linked: seq<u32>, start: u32, n: nat, size: nat)
    requires n > 0 && size + 3 <= LAST_DATA && |fat| >= size + 4
    requires Sound(Chain(fat, true, start, n), size)
    requires Links(fat, linked, start, Nth(fat, true, start, n - 1))
    ensures Chain(linked, false, start, n) == Chain(fat, true, start, n)
    ensures forall c: u32 :: c < |fat| && c !in Chain(fat, true, start, n) ==> linked[c] == fat[c]
  {
    var chain := Chain(fat, true, start, n);
    ContiguousRun(fat, start, n, size);
    assert chain[0] in chain && chain[n - 1] in chain;
    forall k | 0 <= k < n
      ensures Nth(linked, false, start, k) == start + k
    {
      NthAsLinks(linked, start, k);
    }
    forall c: u32 | start <= c < start + n
      ensures c in chain
    {
      assert chain[c - start] == c;
    }
  }

  /** Appending `next` to a linked chain that `Growing` describes. */
  lemma AppendLink(fat0: seq<u32>, used0: seq<bool>, f0: File, n: nat, taken: seq<u32>,
                   linked: seq<u32>, start: u32, next: u32)
    requires |linked| == |fat0| >= |used0| + 4 && n + |taken| > 0
    requires var all := Chain(fat0, f0.contiguous, f0.start, n) + taken;
             && Sound(all, |used0|) && Chain(linked, false, start, n + |taken|) == all
             && (forall c: u32 :: c < |fat0| && c !in all ==> linked[c] == fat0[c])
             && InMap(next, |used0|) && next !in all
    ensures var all := Chain(fat0, f0.contiguous, f0.start, n) + taken;
            && InMap(all[n + |taken| - 1], |used0|)
            && var fat := linked[all[n + |taken| - 1] := next];
            && Chain(fat, false, start, n + |taken| + 1) == all + [next]
            && Sound(all + [next], |used0|)
            && (forall c: u32 :: c < |fat0| && c !in all + [next] ==> fat[c] == fat0[c])
  {
    var all := Chain(fat0, f0.contiguous, f0.start, n) + taken;
    var m := n + |taken|;
    assert all[m - 1] in all;
    assert Nth(linked, false, start, m - 1) == all[m - 1];
    ChainLinked(linked, start, m, next);
  }

  /** A clear bit is not one of the chain's nor one taken before; setting it extends the marks. */
  lemma TakeOne(fat0: seq<u32>, used0: seq<bool>, f0: File, n: nat, taken: seq<u32>,
                fat: seq<u32>, used: seq<bool>, f: File, next: u32)
    requires Growing(fat0, used0, f0, n, taken, fat, used, f)
    requires InMap(next, |used|) && !used[next - FIRST_DATA]
    ensures next !in Chain(fat0, f0.contiguous, f0.start, n) + taken && !used0[next - FIRST_DATA]
    ensures SetFlag(used, next, true) == Mark(used0, taken + [next], true)
    ensures CountClear(SetFlag(used, next, true)) + 1 == CountClear(used)
  {
    CountAfterUpdate(used, next - FIRST_DATA, true);
  }

  lemma GrowingStep(fat0: seq<u32>, used0: seq<bool>, f0: File, n: nat, taken: seq<u32>,
                    fat: seq<u32>, used: seq<bool>, f: File, previous: u32, next: u32, linked: seq<u32>)
    requires |used0| + 3 <= LAST_DATA && |fat| == |fat0| >= |used0| + 4 && n + |taken| > 0
    requires Growing(fat0, used0, f0, n, taken, fat, used, f)
    requires previous == (Chain(fat0, f0.contiguous, f0.start, n) + taken)[n + |taken| - 1]
    requires InMap(next, |used|) && !used[next - FIRST_DATA]
    requires if f.contiguous then Links(fat, linked, f.start, previous) else linked == fat
    ensures InMap(previous, |used0|)
    ensures Growing(fat0, used0, f0, n, taken + [next],
                    linked[previous := next], SetFlag(used, next, true), f.(contiguous := false))
    ensures var m := n + |taken|;
            Chain(linked[previous := next], false, f.start, m + 1)[..m] == Chain(fat, f.contiguous, f.start, m)
  {
    hide Nth, CountClear, SetFlag, Sound, Mark;
    assert |linked| == |fat|;
    hide Links;
    var chain0 := Chain(fat0, f0.contiguous, f0.start, n);
    var m := n + |taken|;
    TakeOne(fat0, used0, f0, n, taken, fat, used, f, next);
    assert Nth(fat, f.contiguous, f.start, m - 1) == previous by {
      assert Chain(fat, f.contiguous, f.start, m)[m - 1] == previous;
    }
    if f.contiguous {
      LinksKeepChain(fat, linked, f.start, m, |used0|);
    }
    AppendLink(fat0, used0, f0, n, taken, linked, f.start, next);
    assert chain0 + (taken + [next]) == chain0 + taken + [next];
    hide Chain;
  }

  lemma GrowStep(fat0: seq<u32>, used0: seq<bool>, f0: File, n: nat, taken: seq<u32>,
                 fat: seq<u32>, used: seq<bool>, f: File, previous: u32, next: u32, linked: seq<u32>)
    requires GrowState(fat0, used0, f0, n, taken, fat, used, f) && n + |taken| > 0
    requires previous == (Chain(fat0, f0.contiguous, f0.start, n) + taken)[n + |taken| - 1]
    requires InMap(next, |used|) && !used[next - FIRST_DATA]
    requires !Trap(used0, f0, n)
    requires if f.contiguous then Links(fat, linked, f.start, previous) else linked == fat
    ensures InMap(previous, |used0|)
    ensures GrowState(fat0, used0, f0, n, taken + [next],
                      linked[previous := next], SetFlag(used, next, true), f.(contiguous := false))
  {
    var m := n + |taken|;
    GrowingStep(fat0, used0, f0, n, taken, fat, used, f, previous, next, linked);
    TakeOne(fat0, used0, f0, n, taken, fat, used, f, next);
    hide Growing, Trap, SetFlag, CountClear, FileOk;
    var chain' := Chain(linked[previous := next], false, f.start, m + 1);
    assert chain'[f.index] == chain'[..m][f.index];
  }

  /** In the trap the step sets the last clear bit and changes nothing else. */
  lemma GrowStepTrapped(fat0: seq<u32>, used0: seq<bool>, f0: File, n: nat, fat: seq<u32>, used: seq<bool>, f: File)
    requires GrowState(fat0, used0, f0, n, [], fat, used, f) && Trap(used0, f0, n)
    ensures GrowState(fat0, used0, f0, n, [f.start - 1], fat, SetFlag(used, f.start - 1, true), f)
  {
    CountAfterUpdate(used, f.start - 1 - FIRST_DATA, true);
  }

  /** One round of the loop: the chosen cluster `next` is linked behind `previous`. */
  lemma GrowNext(fat0: seq<u32>, used0: seq<bool>, f0: File, n: nat, taken: seq<u32>,
                 fat: seq<u32>, used: seq<bool>, f: File, previous: u32, next: u32, linked: seq<u32>)
    requires GrowState(fat0, used0, f0, n, taken, fat, used, f) && n + |taken| > 0
    requires previous == (Chain(fat0, f0.contiguous, f0.start, n) + taken)[n + |taken| - 1]
    requires InMap(previous, |used|) && |used| == |used0| < LAST_DATA
    requires InMap(next, |used|) && next - FIRST_DATA == CyclicFirstClear(used, StartBit(previous + 1, |used|))
    requires if f.contiguous && next != previous - 1 then Links(fat, linked, f.start, previous) else linked == fat
    ensures previous < |linked|
    ensures var contiguous := f.contiguous && next == previous - 1;
            GrowState(fat0, used0, f0, n, taken + [next],
                      if contiguous then linked else linked[previous := next],
                      SetFlag(used, next, true), f.(contiguous := contiguous))
  {
    hide Growing, Trapped, CursorOk, FileOk, SetFlag, CountClear, Trap, FirstClear, Chain;
    ChoiceAfter(fat0, used0, f0, n, taken, fat, used, f, previous, next - FIRST_DATA);
    if Trap(used0, f0, n) {
      TrapStart(used0, f0, n);
      GrowStepTrapped(fat0, used0, f0, n, fat, used, f);
      assert f.contiguous by { TrappedContiguous(fat0, used0, f0, n, taken, fat, used, f); }
      assert f.(contiguous := true) == f;
      assert taken + [next] == [f.start - 1];
    } else {
      GrowStep(fat0, used0, f0, n, taken, fat, used, f, previous, next, linked);
    }
  }

  lemma TrappedContiguous(fat0: seq<u32>, used0: seq<bool>, f0: File, n: nat, taken: seq<u32>,
                          fat: seq<u32>, used: seq<bool>, f: File)
    requires Trapped(fat0, used0, f0, n, taken, fat, used, f)
    ensures f.contiguous
  {
  }

  /** The chain with its last entry set to END is the grown file. */
  lemma GrowEnds(fat0: seq<u32>, used0: seq<bool>, f0: File, n: nat, taken: seq<u32>,
                 fat: seq<u32>, used: seq<bool>, f: File)
    requires GrowState(fat0, used0, f0, n, taken, fat, used, f) && taken != []
    ensures var last := (Chain(fat0, f0.contiguous, f0.start, n) + taken)[n + |taken| - 1];
            && InMap(last, |used0|) && last < |fat|
            && GrowOutcome(fat0, used0, f0, n, |taken|, true,
                           if f.contiguous then fat else fat[last := END], used, f)
  {
    LastOf(fat0, used0, f0, n, taken, fat, used, f);
    hide Growing, Grown, FileOk, CursorOk, CountClear;
    if !Trap(used0, f0, n) {
      GrowingEnds(fat0, used0, f0, n, taken, fat, used, f);
    }
  }

  /** A file that has just grown is not in the trap. */
  lemma GrownNotTrapped(fat0: seq<u32>, used0: seq<bool>, f0: File, n: nat, taken: seq<u32>,
                        fat: seq<u32>, used: seq<bool>, f: File)
    requires Growing(fat0, used0, f0, n, taken, fat, used, f) && taken != []
    ensures !Trap(used, f, n + |taken|)
  {
    hide Nth, Distinct;
    if f.contiguous {
      assert n == 0 && |taken| == 1;
      assert f.start == taken[0] by {
        assert Chain(fat, f.contiguous, f.start, 1)[0] == Nth(fat, f.contiguous, f.start, 0);
        NthStart(fat, f.contiguous, f.start);
      }
      if f.start > FIRST_DATA && InMap(f.start - 1, |used|) {
        assert used0[f.start - 1 - FIRST_DATA];
        assert used[f.start - 1 - FIRST_DATA];
      }
    }
  }

  lemma GrowingEnds(fat0: seq<u32>, used0: seq<bool>, f0: File, n: nat, taken: seq<u32>,
                    fat: seq<u32>, used: seq<bool>, f: File)
    requires |fat| == |fat0| >= |used0| + 4 && taken != []
    requires f.size == f0.size && CursorOk(fat, f, n + |taken|) && f.start != FREE
    requires Growing(fat0, used0, f0, n, taken, fat, used, f)
    requires InMap((Chain(fat0, f0.contiguous, f0.start, n) + taken)[n + |taken| - 1], |used0|)
    ensures var last := (Chain(fat0, f0.contiguous, f0.start, n) + taken)[n + |taken| - 1];
            Grown(fat0, used0, f0, n, |taken|, if f.contiguous then fat else fat[last := END], used, f)
  {
    hide Nth, Mark, Chain, Distinct, CursorOk, FileOk, Trap;
    GrownNotTrapped(fat0, used0, f0, n, taken, fat, used, f);
    var m := n + |taken|;
    var chain := Chain(fat, f.contiguous, f.start, m);
    EndedChain(fat, f, m, |used0|);
    assert chain[n..] == taken;
    assert chain[..n] == Chain(fat0, f0.contiguous, f0.start, n);
  }

  /** Setting the last entry to END leaves a sound chain and its cursor in order. */
  lemma EndedChain(fat: seq<u32>, f: File, m: nat, size: nat)
    requires |fat| >= size + 4 && m > 0 && CursorOk(fat, f, m) && f.start != FREE
    requires Sound(Chain(fat, f.contiguous, f.start, m), size)
    ensures var chain := Chain(fat, f.contiguous, f.start, m);
            && InMap(chain[m - 1], size)
            && var fat' := if f.contiguous then fat else fat[chain[m - 1] := END];
            && Chain(fat', f.contiguous, f.start, m) == chain
            && (forall c: u32 :: c < |fat| && c !in chain ==> fat'[c] == fat[c])
            && FileOk(fat', size, f, m)
  {
    var chain := Chain(fat, f.contiguous, f.start, m);
    var last := chain[m - 1];
    assert last in chain;
    var fat' := if f.contiguous then fat else fat[last := END];
    PrefixKept(fat, fat', f.contiguous, f.start, m, m);
    assert chain[..m] == chain;
    assert Chain(fat', f.contiguous, f.start, m)[f.index] == chain[f.index];
  }

  /** Before a rollback the chain can be walked, its links and its cursor are in order. */
  lemma GrowLinkable(fat0: seq<u32>, used0: seq<bool>, f0: File, n: nat, taken: seq<u32>,
                     fat: seq<u32>, used: seq<bool>, f: File)
    requires GrowState(fat0, used0, f0, n, taken, fat, used, f) && taken != []
    ensures Linkable(fat, Chain(fat, f.contiguous, f.start, n + |taken|))
    ensures CursorOk(fat, f, n + |taken|) && f.start != FREE
  {
    hide CountClear, Mark, SetFlag, Nth, CursorOk, Chain;
    if Trap(used0, f0, n) {
      TrappedLinkable(fat0, used0, f0, n, taken, fat, used, f);
    } else {
      SoundLinkable(fat, Chain(fat, f.contiguous, f.start, n + |taken|), |used0|);
    }
  }

  lemma SoundLinkable(fat: seq<u32>, chain: seq<u32>, size: nat)
    requires Sound(chain, size) && size + 3 <= LAST_DATA && |fat| >= size + 4
    ensures Linkable(fat, chain)
  {
    forall i | 0 <= i < |chain|
      ensures !Invalid(chain[i]) && chain[i] < |fat|
    {
      assert chain[i] in chain;
    }
  }

  lemma TrappedLinkable(fat0: seq<u32>, used0: seq<bool>, f0: File, n: nat, taken: seq<u32>,
                        fat: seq<u32>, used: seq<bool>, f: File)
    requires Trap(used0, f0, n) && Trapped(fat0, used0, f0, n, taken, fat, used, f) && |taken| == 1
    requires |used0| + 3 <= LAST_DATA && |fat| == |fat0| >= |used0| + 4 && FileOk(fat0, |used0|, f0, n)
    requires n > 0 ==> f.start == f0.start
    ensures Linkable(fat, Chain(fat, f.contiguous, f.start, n + |taken|))
  {
    hide CountClear, Mark, SetFlag, CursorOk;
    assert Chain(fat0, f0.contiguous, f0.start, n)[0] == f.start;
    assert Chain(fat0, f0.contiguous, f0.start, n)[0] in Chain(fat0, f0.contiguous, f0.start, n);
    assert Nth(fat, true, f.start, 1) == f.start + 1;
  }

  /** Shrinking by what was taken undoes the growth. */
  lemma GrowUndone(fat0: seq<u32>, used0: seq<bool>, f0: File, n: nat, difference: nat, taken: seq<u32>,
                   fat: seq<u32>, used: seq<bool>, f: File, fat': seq<u32>, used': seq<bool>, f': File)
    requires GrowState(fat0, used0, f0, n, taken, fat, used, f) && taken != []
    requires |taken| < difference && (forall i :: 0 <= i < |used| ==> used[i])
    requires Shrunk(fat, used, f, n + |taken|, |taken|, fat', used', f')
    ensures GrowOutcome(fat0, used0, f0, n, difference, false, fat', used', f')
  {
    CountClearZero(used);
    if Trap(used0, f0, n) {
      TrapUndone(fat0, used0, f0, n, taken, fat, used, f, fat', used', f');
    } else {
      hide Trap, Growing, Shrunk, FileOk, CountClear;
      GrowingUndone(fat0, used0, f0, n, taken, fat, used, f, fat', used', f');
    }
  }

  lemma TrapUndone(fat0: seq<u32>, used0: seq<bool>, f0: File, n: nat, taken: seq<u32>,
                   fat: seq<u32>, used: seq<bool>, f: File, fat': seq<u32>, used': seq<bool>, f': File)
    requires |used0| + 3 <= LAST_DATA && Trap(used0, f0, n)
    requires Trapped(fat0, used0, f0, n, taken, fat, used, f) && taken != []
    requires f.size == f0.size && f.start == f0.start
    requires Shrunk(fat, used, f, n + |taken|, |taken|, fat', used', f')
    ensures Leaked(fat0, f0, fat', used', f')
  {
    hide Mark;
    var chain := Chain(fat, f.contiguous, f.start, 2);
    assert Nth(fat, true, f.start, 1) == f.start + 1;
    assert chain[1..] == [f.start + 1];
    hide Nth, Chain;
    assert used'[f.start - 1 - FIRST_DATA];
  }

  lemma GrowingUndone(fat0: seq<u32>, used0: seq<bool>, f0: File, n: nat, taken: seq<u32>,
                      fat: seq<u32>, used: seq<bool>, f: File, fat': seq<u32>, used': seq<bool>, f': File)
    requires |fat| == |fat0| >= |used0| + 4 && taken != [] && FileOk(fat0, |used0|, f0, n)
    requires f.size == f0.size && (n > 0 ==> f.start == f0.start)
    requires Growing(fat0, used0, f0, n, taken, fat, used, f)
    requires Shrunk(fat, used, f, n + |taken|, |taken|, fat', used', f')
    ensures RolledBack(fat0, used0, f0, n, fat', used', f')
  {
    hide CountClear, Nth, Mark;
    var chain0 := Chain(fat0, f0.contiguous, f0.start, n);
    var chain := Chain(fat, f.contiguous, f.start, n + |taken|);
    assert chain[n..] == taken && chain[..n] == chain0;
    Unmarked(used0, taken);
    assert Chain(fat', f'.contiguous, f'.start, n) == chain0;
    hide Chain, Distinct;
    forall c: u32 | InMap(c, |used0|) && used0[c - FIRST_DATA] && c !in chain0
      ensures fat'[c] == fat0[c]
    {
      assert c !in taken;
      assert c !in chain0 + taken;
    }
    NthStart(fat', f'.contiguous, f'.start);
    if n > 0 {
      assert chain0[n - 1] in chain0 && chain[n - 1] == chain0[n - 1];
    }
  }

  /** Setting bits that were clear and clearing them again changes nothing. */
  lemma Unmarked(used: seq<bool>, taken: seq<u32>)
    requires forall c :: c in taken ==> InMap(c, |used|) && !used[c - FIRST_DATA]
    ensures Mark(Mark(used, taken, true), taken, false) == used
  {
  }

  /** Nothing could be taken: it was not the trap, and the file has only had its cursor moved. */
  lemma GrowRefused(fat0: seq<u32>, used0: seq<bool>, f0: File, n: nat, difference: nat,
                    fat: seq<u32>, used: seq<bool>, f: File)
    requires GrowState(fat0, used0, f0, n, [], fat, used, f) && n > 0
    requires difference > 0 && forall i :: 0 <= i < |used| ==> used[i]
    ensures GrowOutcome(fat0, used0, f0, n, difference, false, fat, used, f)
  {
    CountClearZero(used);
    assert Mark(used0, [], true) == used0;
    if Trap(used0, f0, n) {
      TrapStart(used0, f0, n);
    }
  }

  /** While a chain's tail is being freed: the tail from `k` on is untouched, the kept part ends in END. */
  ghost predicate Freeing(fat0: seq<u32>, contiguous: bool, chain: seq<u32>, keep: nat, k: nat, fat: seq<u32>) {
    && keep <= k <= |chain| && |fat| == |fat0|
    && Linkable(fat0, chain)
    && (forall c: u32 :: c < |fat| && c !in chain ==> fat[c] == fat0[c])
    && (forall i :: 0 <= i < keep - 1 ==> fat[chain[i]] == fat0[chain[i]])
    && (forall i :: k <= i < |chain| ==> fat[chain[i]] == fat0[chain[i]])
    && (keep > 0 && !contiguous ==> fat[chain[keep - 1]] == END)
    && (contiguous ==> fat == fat0)
  }

  lemma FreeingStarts(fat: seq<u32>, contiguous: bool, chain: seq<u32>, keep: nat)
    requires Linkable(fat, chain) && keep < |chain|
    ensures keep > 0 && !contiguous ==> Freeing(fat, contiguous, chain, keep, keep, fat[chain[keep - 1] := END])
    ensures keep == 0 || contiguous ==> Freeing(fat, contiguous, chain, keep, keep, fat)
  {
  }

  lemma FreeingStep(fat0: seq<u32>, f: File, n: nat, keep: nat, k: nat, fat: seq<u32>)
    requires Freeing(fat0, f.contiguous, Chain(fat0, f.contiguous, f.start, n), keep, k, fat) && k < n
    ensures var chain := Chain(fat0, f.contiguous, f.start, n);
            && chain[k] < |fat|
            && (k + 1 < n ==> Next(fat, f.contiguous, chain[k]) == chain[k + 1])
            && Freeing(fat0, f.contiguous, chain, keep, k + 1, if f.contiguous then fat else fat[chain[k] := FREE])
  {
  }

  lemma FreeingDone(fat0: seq<u32>, used0: seq<bool>, f: File, n: nat, difference: nat, fat: seq<u32>)
    requires 0 < difference <= n
    requires Freeing(fat0, f.contiguous, Chain(fat0, f.contiguous, f.start, n), n - difference, n, fat)
    ensures var keep := n - difference;
            var start := if keep == 0 then FREE else f.start;
            Shrunk(fat0, used0, f, n, difference, fat,
                   Mark(used0, Chain(fat0, f.contiguous, f.start, n)[keep..], false),
                   File(start, f.contiguous, f.size, 0, start))
  {
    PrefixKept(fat0, fat, f.contiguous, f.start, n, n - difference);
  }

  lemma LinkableAt(fat: seq<u32>, chain: seq<u32>)
    requires Linkable(fat, chain)
    ensures forall i :: 0 <= i < |chain| ==> !Invalid(chain[i]) && chain[i] < |fat|
  {
  }

  lemma CursorValid(fat: seq<u32>, f: File, n: nat)
    requires CursorOk(fat, f, n) && Linkable(fat, Chain(fat, f.contiguous, f.start, n))
    ensures f.cursor == Nth(fat, f.contiguous, f.start, f.index)
    ensures forall k :: 0 <= k < n ==> !Invalid(Nth(fat, f.contiguous, f.start, k))
  {
    var chain := Chain(fat, f.contiguous, f.start, n);
    assert forall k :: 0 <= k < n ==> chain[k] == Nth(fat, f.contiguous, f.start, k);
  }

  /** Valid, distinct cluster numbers with entries in the FAT. */
  ghost predicate Linkable(fat: seq<u32>, chain: seq<u32>) {
    Distinct(chain) && forall i :: 0 <= i < |chain| ==> !Invalid(chain[i]) && chain[i] < |fat|
  }

  /** The state after cutting `difference` clusters off the file `f` with `n` clusters. */
  ghost predicate Shrunk(fat: seq<u32>, used: seq<bool>, f: File, n: nat, difference: nat,
                         fat': seq<u32>, used': seq<bool>, f': File)
    requires difference <= n
  {
    var chain, keep := Chain(fat, f.contiguous, f.start, n), n - difference;
    && f' == File(if keep == 0 then FREE else f.start, f.contiguous, f.size, 0, if keep == 0 then FREE else f.start)
    && used' == Mark(used, chain[keep..], false)
    && |fat'| == |fat|
    && (forall c: u32 :: c < |fat| && c !in chain ==> fat'[c] == fat[c])
    && (f.contiguous ==> fat' == fat)
    && Chain(fat', f'.contiguous, f'.start, keep) == chain[..keep]
    && (keep > 0 && !f.contiguous && chain[keep - 1] < |fat'| ==> fat'[chain[keep - 1]] == END)
  }

  /** A prefix of a chain survives changes to the entry of its last cluster and of later ones. */
  lemma PrefixKept(fat: seq<u32>, fat': seq<u32>, contiguous: bool, start: u32, n: nat, keep: nat)
    requires |fat'| == |fat| && keep <= n
    requires forall k :: 0 <= k < keep - 1 ==>
               var c := Chain(fat, contiguous, start, n)[k]; c < |fat| ==> fat'[c] == fat[c]
    ensures Chain(fat', contiguous, start, keep) == Chain(fat, contiguous, start, n)[..keep]
  {
    var chain := Chain(fat, contiguous, start, n);
    forall k | 0 <= k < keep
      ensures Nth(fat', contiguous, start, k) == chain[k]
    {
      forall j | 0 <= j < k
        ensures var c := Nth(fat, contiguous, start, j); c < |fat| ==> fat'[c] == fat[c]
      {
        assert chain[j] == Nth(fat, contiguous, start, j);
      }
      NthUnchanged(fat, fat', contiguous, start, k);
    }
  }

  lemma {:induction false} FirstClearPrefix(bits: seq<bool>, size: nat, start: nat, end: nat)
    requires end <= size <= |bits|
    ensures FirstClear(bits[..size], start, end) == FirstClear(bits, start, end)
    decreases end - start
  {
    if start < end && bits[start] {
      FirstClearPrefix(bits, size, start + 1, end);
    }
  }

  /** The bits behind the map's end do not matter for the search. */
  lemma CyclicPrefix(bits: seq<bool>, size: nat, h: nat)
    requires h <= size <= |bits|
    ensures var r := FirstClear(bits, h, size);
            CyclicFirstClear(bits[..size], h) == if r == -1 then FirstClear(bits, 0, h) else r
    ensures -1 <= CyclicFirstClear(bits[..size], h) < size
  {
    FirstClearPrefix(bits, size, h, size);
    FirstClearPrefix(bits, size, 0, h);
  }

  lemma PrefixSet(bits: seq<bool>, size: nat, r: nat)
    requires r < size <= |bits| && size + 3 <= LAST_DATA
    ensures bits[r := true][..size] == SetFlag(bits[..size], r + FIRST_DATA, true)
  {
  }
}
