/** Cluster numbers and the two ways a file's cluster chain is recorded. */
module Clusters {

  type u32 = x: nat | x < 0x1_0000_0000

  const FIRST_DATA: u32 := 2
  const LAST_DATA: u32 := 0xffff_fff6
  const FREE: u32 := 0
  const BAD: u32 := 0xffff_fff7
  const END: u32 := 0xffff_ffff

  predicate Invalid(c: u32) {
    c < FIRST_DATA || c > LAST_DATA
  }

  /** The cluster after `c`: its successor in a contiguous file, its FAT entry otherwise. An entry that
      cannot be read gives BAD. */
  function Next(fat: seq<u32>, contiguous: bool, c: u32): u32 {
    if c < FIRST_DATA then 0
    else if contiguous then (c + 1) % 0x1_0000_0000
    else if c < |fat| then fat[c]
    else BAD
  }

  function Nth(fat: seq<u32>, contiguous: bool, start: u32, k: nat): u32 {
    if k == 0 then start else Next(fat, contiguous, Nth(fat, contiguous, start, k - 1))
  }

  function Chain(fat: seq<u32>, contiguous: bool, start: u32, n: nat): (chain: seq<u32>)
    ensures |chain| == n
    ensures forall k :: 0 <= k < n ==> chain[k] == Nth(fat, contiguous, start, k)
  {
    seq(n, k requires 0 <= k < n => Nth(fat, contiguous, start, k))
  }

  predicate Distinct(s: seq<u32>) {
    forall i, j :: 0 <= i < j < |s| ==> s[i] != s[j]
  }

  /** The cluster has a bit in a map of `size` bits. */
  predicate InMap(c: u32, size: nat) {
    FIRST_DATA <= c < FIRST_DATA + size
  }

  /** `used` with the bits of the listed clusters set to `b`. */
  function Mark(used: seq<bool>, clusters: seq<u32>, b: bool): (r: seq<bool>)
    ensures |r| == |used|
    ensures forall i :: 0 <= i < |used| ==> r[i] == if i + FIRST_DATA in clusters then b else used[i]
  {
    seq(|used|, i requires 0 <= i < |used| => if i + FIRST_DATA in clusters then b else used[i])
  }

  lemma ChainNext(fat: seq<u32>, contiguous: bool, start: u32, n: nat, k: nat)
    requires k + 1 < n
    ensures Chain(fat, contiguous, start, n)[k + 1]
            == Next(fat, contiguous, Chain(fat, contiguous, start, n)[k])
  {
  }

  lemma ChainStart(fat: seq<u32>, contiguous: bool, start: u32, n: nat)
    requires n > 0
    ensures Chain(fat, contiguous, start, n)[0] == start
  {
  }

  lemma NthStart(fat: seq<u32>, contiguous: bool, start: u32)
    ensures Nth(fat, contiguous, start, 0) == start
  {
  }

  /** `used` with the bit of `c`, if it has one, set to `b`. */
  function SetFlag(used: seq<bool>, c: u32, b: bool): (r: seq<bool>)
    ensures |r| == |used|
  {
    if InMap(c, |used|) then used[c - FIRST_DATA := b] else used
  }

  lemma MarkMore(used: seq<bool>, chain: seq<u32>, from: nat, k: nat, b: bool)
    requires from <= k < |chain|
    ensures Mark(used, chain[from..k + 1], b) == SetFlag(Mark(used, chain[from..k], b), chain[k], b)
  {
    assert chain[from..k + 1] == chain[from..k] + [chain[k]];
  }

  lemma MarkNone(used: seq<bool>, chain: seq<u32>, from: nat, b: bool)
    requires from <= |chain|
    ensures Mark(used, chain[from..from], b) == used
  {
  }

  /** A chain depends only on the FAT entries of its clusters but the last. */
  lemma {:induction false} NthUnchanged(fat: seq<u32>, fat': seq<u32>, contiguous: bool, start: u32, k: nat)
    requires |fat'| == |fat|
    requires !contiguous ==>
               forall j :: 0 <= j < k ==> var c := Nth(fat, contiguous, start, j); c < |fat| ==> fat'[c] == fat[c]
    ensures Nth(fat', contiguous, start, k) == Nth(fat, contiguous, start, k)
  {
    if k > 0 {
      NthUnchanged(fat, fat', contiguous, start, k - 1);
    }
  }

  lemma ChainUnchanged(fat: seq<u32>, fat': seq<u32>, contiguous: bool, start: u32, n: nat)
    requires |fat'| == |fat|
    requires !contiguous ==>
               forall c :: c in Chain(fat, contiguous, start, n) && c < |fat| ==> fat'[c] == fat[c]
    ensures Chain(fat', contiguous, start, n) == Chain(fat, contiguous, start, n)
  {
    var chain := Chain(fat, contiguous, start, n);
    forall k | 0 <= k < n
      ensures Nth(fat', contiguous, start, k) == chain[k]
    {
      forall j | 0 <= j < k
        ensures !contiguous ==> var c := Nth(fat, contiguous, start, j); c < |fat| ==> fat'[c] == fat[c]
      {
        assert chain[j] in chain;
      }
      NthUnchanged(fat, fat', contiguous, start, k);
    }
  }

  /** Writing the last cluster's entry appends to a linked chain. */
  lemma ChainLinked(fat: seq<u32>, start: u32, n: nat, next: u32)
    requires n > 0
    requires Distinct(Chain(fat, false, start, n))
    requires FIRST_DATA <= Nth(fat, false, start, n - 1) < |fat|
    ensures Chain(fat[Nth(fat, false, start, n - 1) := next], false, start, n + 1)
            == Chain(fat, false, start, n) + [next]
  {
    var chain := Chain(fat, false, start, n);
    var fat' := fat[chain[n - 1] := next];
    forall k | 0 <= k < n
      ensures Nth(fat', false, start, k) == chain[k]
    {
      forall j | 0 <= j < k
        ensures var c := Nth(fat, false, start, j); c < |fat| ==> fat'[c] == fat[c]
      {
        assert chain[j] != chain[n - 1];
      }
      NthUnchanged(fat, fat', false, start, k);
    }
    assert Nth(fat', false, start, n) == next;
  }

  predicate Sound(chain: seq<u32>, size: nat) {
    Distinct(chain) && forall c :: c in chain ==> InMap(c, size)
  }

  /** A contiguous chain within the map is a run of consecutive numbers. */
  lemma ContiguousRun(fat: seq<u32>, start: u32, n: nat, size: nat)
    requires size + 3 <= LAST_DATA
    requires Sound(Chain(fat, true, start, n), size)
    ensures forall k :: 0 <= k < n ==> Chain(fat, true, start, n)[k] == start + k
  {
    hide Chain, Nth, Sound;
    forall k | 0 <= k < n
      ensures Chain(fat, true, start, n)[k] == start + k
    {
      ContiguousAt(fat, start, n, size, k);
    }
  }

  lemma {:induction false} ContiguousAt(fat: seq<u32>, start: u32, n: nat, size: nat, k: nat)
    requires size + 3 <= LAST_DATA && k < n
    requires Sound(Chain(fat, true, start, n), size)
    ensures Chain(fat, true, start, n)[k] == start + k
  {
    hide Nth, Distinct;
    if k == 0 {
      ChainStart(fat, true, start, n);
    } else {
      ContiguousAt(fat, start, n, size, k - 1);
      ChainNext(fat, true, start, n, k - 1);
      assert Chain(fat, true, start, n)[k - 1] in Chain(fat, true, start, n);
    }
  }

  /** Spelling a contiguous run out as FAT links leaves the chain as it was. */
  lemma {:induction false} NthAsLinks(fat: seq<u32>, start: u32, k: nat)
    requires FIRST_DATA <= start && start + k <= |fat| && start + k < 0x1_0000_0000
    requires forall c: u32 :: start <= c < start + k ==> fat[c] == c + 1
    ensures Nth(fat, false, start, k) == start + k
  {
    if k > 0 {
      NthAsLinks(fat, start, k - 1);
    }
  }
}
