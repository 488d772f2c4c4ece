/** The cluster bitmap: words of 64 bits, scanned word by word. */
module Bitmap {

  /** The number of bits in one word of the map (a `bitmap_t` is a `size_t`). */
  const WORD_BITS: nat := 64

  const FULL_WORD: bv64 := 0xffff_ffff_ffff_ffff

  function Shift(i: nat): (s: bv7)
    requires i < WORD_BITS
    ensures s < 64
  {
    i as bv7
  }

  function Power(s: bv7): bv64
    requires s < 64
  {
    1 << s
  }

  function Mask(i: nat): bv64
    requires i < WORD_BITS
  {
    Power(Shift(i))
  }

  predicate Meets(w: bv64, m: bv64) { w & m != 0 }

  function With(w: bv64, m: bv64): bv64 { w | m }

  function Without(w: bv64, m: bv64): bv64 { w & !m }

  predicate Has(w: bv64, i: nat)
    requires i < WORD_BITS
  {
    Meets(w, Mask(i))
  }

  predicate GetBit(words: seq<bv64>, i: nat)
    requires i < WORD_BITS * |words|
  {
    Has(words[i / WORD_BITS], i % WORD_BITS)
  }

  /** The map as one flag for each bit. */
  function Bits(words: seq<bv64>): (bits: seq<bool>)
    ensures |bits| == WORD_BITS * |words|
    ensures forall i :: 0 <= i < |bits| ==> bits[i] == GetBit(words, i)
  {
    seq(WORD_BITS * |words|, i requires 0 <= i < WORD_BITS * |words| => GetBit(words, i))
  }

  /** The first clear bit at or after `start` and before `end`, found one bit at a time. */
  function FirstClear(bits: seq<bool>, start: nat, end: nat): (r: int)
    requires end <= |bits|
    ensures r == -1 <==> (forall i :: start <= i < end ==> bits[i])
    ensures r != -1 ==> start <= r < end && !bits[r] && forall i :: start <= i < r ==> bits[i]
    decreases end - start
  {
    if start >= end then -1
    else if !bits[start] then start
    else FirstClear(bits, start + 1, end)
  }

  /** The first clear bit going upwards from `hint` and wrapping round at the end. */
  function CyclicFirstClear(bits: seq<bool>, hint: nat): (r: int)
    requires hint <= |bits|
    ensures r == -1 <==> (forall i :: 0 <= i < |bits| ==> bits[i])
    ensures r != -1 ==> 0 <= r < |bits| && !bits[r]
    ensures r >= hint ==> forall i :: hint <= i < r ==> bits[i]
    ensures 0 <= r < hint ==> (forall i :: hint <= i < |bits| ==> bits[i]) && (forall i :: 0 <= i < r ==> bits[i])
  {
    var r := FirstClear(bits, hint, |bits|);
    if r == -1 then FirstClear(bits, 0, hint) else r
  }

  function CountClear(bits: seq<bool>): nat {
    if bits == [] then 0
    else CountClear(bits[..|bits| - 1]) + if bits[|bits| - 1] then 0 else 1
  }

  lemma {:induction false} CountAfterUpdate(bits: seq<bool>, i: nat, b: bool)
    requires i < |bits|
    ensures CountClear(bits[i := b]) + (if bits[i] then 0 else 1) == CountClear(bits) + if b then 0 else 1
  {
    var n := |bits| - 1;
    var changed := bits[i := b];
    if i == n {
      assert changed[..n] == bits[..n];
    } else {
      assert changed[..n] == bits[..n][i := b];
      CountAfterUpdate(bits[..n], i, b);
    }
  }

  lemma {:induction false} CountClearZero(bits: seq<bool>)
    ensures CountClear(bits) == 0 <==> forall i :: 0 <= i < |bits| ==> bits[i]
  {
    if bits != [] {
      var n := |bits| - 1;
      CountClearZero(bits[..n]);
      assert bits == bits[..n] + [bits[n]];
    }
  }

  lemma ShiftFits(i: nat)
    requires i < WORD_BITS
    ensures Shift(i) as nat == i
  {
  }

  lemma ShiftsDiffer(i: nat, j: nat)
    requires i < WORD_BITS && j < WORD_BITS && i != j
    ensures Shift(i) != Shift(j)
  {
    ShiftFits(i);
    ShiftFits(j);
  }

  lemma PowersDiffer(a: bv7, b: bv7)
    requires a < 64 && b < 64
    ensures Power(a) != 0
    ensures a != b ==> !Meets(Power(a), Power(b))
  {
  }

  lemma DistinctMasks(i: nat, j: nat)
    requires i < WORD_BITS && j < WORD_BITS
    ensures Mask(i) != 0
    ensures i != j ==> !Meets(Mask(i), Mask(j))
  {
    hide Shift, Power, Meets;
    PowersDiffer(Shift(i), Shift(j));
    if i != j {
      ShiftsDiffer(i, j);
    }
  }

  lemma DisjointWith(w: bv64, m: bv64, n: bv64)
    requires m & n == 0
    ensures With(w, m) & n == w & n
  {
  }

  lemma DisjointWithout(w: bv64, m: bv64, n: bv64)
    requires m & n == 0
    ensures Without(w, m) & n == w & n
  {
  }

  lemma OwnWith(w: bv64, m: bv64)
    ensures With(w, m) & m == m
  {
  }

  lemma OwnWithout(w: bv64, m: bv64)
    ensures Without(w, m) & m == 0
  {
  }

  lemma DisjointMasks(w: bv64, m: bv64, n: bv64)
    requires !Meets(m, n)
    ensures Meets(With(w, m), n) == Meets(w, n)
    ensures Meets(Without(w, m), n) == Meets(w, n)
  {
    hide With, Without;
    DisjointWith(w, m, n);
    DisjointWithout(w, m, n);
  }

  lemma OwnMask(w: bv64, m: bv64)
    requires m != 0
    ensures Meets(With(w, m), m) && !Meets(Without(w, m), m)
  {
    hide With, Without;
    OwnWith(w, m);
    OwnWithout(w, m);
  }

  lemma WordBits(w: bv64, i: nat, j: nat)
    requires i < WORD_BITS && j < WORD_BITS
    ensures Has(With(w, Mask(i)), j) == (i == j || Has(w, j))
    ensures Has(Without(w, Mask(i)), j) == (i != j && Has(w, j))
  {
    hide Mask, Meets, With, Without;
    DistinctMasks(i, j);
    if i == j {
      OwnMask(w, Mask(i));
    } else {
      DisjointMasks(w, Mask(i), Mask(j));
    }
  }

  lemma FullWord(i: nat)
    requires i < WORD_BITS
    ensures Has(FULL_WORD, i)
  {
    hide Shift;
  }

  lemma OneWordChanged(words: seq<bv64>, w: bv64, i: nat, b: bool)
    requires i < WORD_BITS * |words|
    requires forall j :: 0 <= j < WORD_BITS ==>
               Has(w, j) == if j == i % WORD_BITS then b else Has(words[i / WORD_BITS], j)
    ensures Bits(words[i / WORD_BITS := w]) == Bits(words)[i := b]
  {
    hide Has;
    var changed := words[i / WORD_BITS := w];
    forall j | 0 <= j < WORD_BITS * |words|
      ensures GetBit(changed, j) == if j == i then b else GetBit(words, j)
    {
    }
  }

  method SetBit(words: array<bv64>, i: nat)
    requires i < WORD_BITS * words.Length
    modifies words
    ensures Bits(words[..]) == old(Bits(words[..]))[i := true]
  {
    hide Has, Mask, With, Without;
    ghost var before := words[..];
    words[i / WORD_BITS] := With(words[i / WORD_BITS], Mask(i % WORD_BITS));
    forall j | 0 <= j < WORD_BITS
      ensures Has(words[i / WORD_BITS], j) == (j == i % WORD_BITS || Has(before[i / WORD_BITS], j))
    {
      WordBits(before[i / WORD_BITS], i % WORD_BITS, j);
    }
    OneWordChanged(before, words[i / WORD_BITS], i, true);
    assert words[..] == before[i / WORD_BITS := words[i / WORD_BITS]];
  }

  method ClearBit(words: array<bv64>, i: nat)
    requires i < WORD_BITS * words.Length
    modifies words
    ensures Bits(words[..]) == old(Bits(words[..]))[i := false]
  {
    hide Has, Mask, With, Without;
    ghost var before := words[..];
    words[i / WORD_BITS] := Without(words[i / WORD_BITS], Mask(i % WORD_BITS));
    forall j | 0 <= j < WORD_BITS
      ensures Has(words[i / WORD_BITS], j) == (j != i % WORD_BITS && Has(before[i / WORD_BITS], j))
    {
      WordBits(before[i / WORD_BITS], i % WORD_BITS, j);
    }
    OneWordChanged(before, words[i / WORD_BITS], i, false);
    assert words[..] == before[i / WORD_BITS := words[i / WORD_BITS]];
  }

  /** Scanning by words, skipping the full ones, finds what scanning by bits finds. */
  method FindBitAndSet(words: array<bv64>, start: nat, end: nat) returns (r: int)
    requires end <= WORD_BITS * words.Length
    modifies words
    ensures r == FirstClear(old(Bits(words[..])), start, end)
    ensures Bits(words[..]) == if r == -1 then old(Bits(words[..])) else old(Bits(words[..]))[r := true]
  {
    hide Has;
    ghost var before := Bits(words[..]);
    var i := start / WORD_BITS;
    var endIndex := (end + WORD_BITS - 1) / WORD_BITS;
    while i < endIndex
      invariant start / WORD_BITS <= i
      invariant words[..] == old(words[..])
      invariant forall j :: start <= j < end && j < i * WORD_BITS ==> before[j]
    {
      if words[i] == FULL_WORD {
        forall j | start <= j < end && j < (i + 1) * WORD_BITS
          ensures before[j]
        {
          if i * WORD_BITS <= j {
            FullWord(j % WORD_BITS);
            assert GetBit(words[..], j);
          }
        }
      } else {
        var c := if i * WORD_BITS >= start then i * WORD_BITS else start;
        var endBit := if (i + 1) * WORD_BITS <= end then (i + 1) * WORD_BITS else end;
        while c < endBit
          invariant start <= c && i * WORD_BITS <= c
          invariant words[..] == old(words[..])
          invariant forall j :: start <= j < end && j < c ==> before[j]
        {
          if !Has(words[c / WORD_BITS], c % WORD_BITS) {
            assert !GetBit(words[..], c);
            SetBit(words, c);
            return c;
          }
          assert GetBit(words[..], c);
          c := c + 1;
        }
      }
      i := i + 1;
    }
    return -1;
  }

  /** Bit i of a word is the one with the weight of two to the power i. */
  lemma BitWeight(i: nat)
    requires i < 64
    ensures i == 0 ==> Mask(i) == 1
    ensures i > 0 ==> Mask(i) == Mask(i - 1) + Mask(i - 1)
  {
    hide Mask;
    if i > 0 {
      NextMask(i);
    } else {
      FirstMask();
    }
  }

  lemma FirstMask()
    ensures Mask(0) == 1
  {
  }

  lemma NextMask(i: nat)
    requires 0 < i < 64
    ensures Mask(i) == Mask(i - 1) + Mask(i - 1)
  {
    hide Shift, Power;
    ShiftNext(i);
    PowerNext(Shift(i - 1), Shift(i));
  }

  lemma ShiftNext(i: nat)
    requires 0 < i < 64
    ensures Shift(i - 1) < 63 && Shift(i) == Shift(i - 1) + 1
  {
    ShiftFits(i - 1);
    ShiftFits(i);
  }

  lemma PowerNext(a: bv7, b: bv7)
    requires a < 63 && b == a + 1
    ensures Power(b) == Power(a) + Power(a)
  {
  }
}
