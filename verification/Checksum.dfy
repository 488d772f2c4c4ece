/** The rotate-and-add checksums of directory entries (16 bits) and of the boot region (32 bits). */
module Checksum {
  import opened Content
  import LittleEndian

  /** The top bit of a sum of the given width. */
  datatype Width = Sixteen | ThirtyTwo

  function Top(w: Width): nat {
    if w == Sixteen then 0x8000 else 0x8000_0000
  }

  predicate Sum(w: Width, s: nat) { s < 2 * Top(w) }

  /** One bit round to the right. */
  function Rotated(w: Width, s: nat): nat {
    s / 2 + if s % 2 == 1 then Top(w) else 0
  }

  /** One byte taken in; the sum wraps round at its width. */
  function Step(w: Width, s: nat, b: byte): (t: nat)
    requires Sum(w, s)
    ensures Sum(w, t)
  {
    var x := Rotated(w, s) + b;
    if x < 2 * Top(w) then x else x - 2 * Top(w)
  }

  /** The only sum from which a byte leads to `t`. */
  function Unstep(w: Width, t: nat, b: byte): (s: nat)
    requires Sum(w, t)
    ensures Sum(w, s)
  {
    var r := if t >= b then t - b else t + 2 * Top(w) - b;
    if r >= Top(w) then 2 * (r - Top(w)) + 1 else 2 * r
  }

  /** Every step is a bijection of the sums. */
  lemma StepBijective(w: Width, s: nat, b: byte)
    requires Sum(w, s)
    ensures Unstep(w, Step(w, s, b), b) == s && Step(w, Unstep(w, s, b), b) == s
  {
  }

  lemma StepTellsBytes(w: Width, s: nat, a: byte, b: byte)
    requires Sum(w, s) && a != b
    ensures Step(w, s, a) != Step(w, s, b)
  {
    assert Step(w, s, a) == Rotated(w, s) + a || Step(w, s, a) == Rotated(w, s) + a - 2 * Top(w);
  }

  function Fold(w: Width, s: nat, bs: seq<byte>): (t: nat)
    requires Sum(w, s)
    ensures Sum(w, t)
  {
    if bs == [] then s else Step(w, Fold(w, s, bs[..|bs| - 1]), bs[|bs| - 1])
  }

  lemma {:induction false} FoldAppend(w: Width, s: nat, a: seq<byte>, b: seq<byte>)
    requires Sum(w, s)
    ensures Fold(w, s, a + b) == Fold(w, Fold(w, s, a), b)
  {
    hide Step;
    if b == [] {
      assert a + b == a;
    } else {
      FoldAppend(w, s, a, b[..|b| - 1]);
      assert (a + b)[..|a + b| - 1] == a + b[..|b| - 1];
    }
  }

  lemma {:induction false} FoldTells(w: Width, s: nat, t: nat, bs: seq<byte>)
    requires Sum(w, s) && Sum(w, t) && s != t
    ensures Fold(w, s, bs) != Fold(w, t, bs)
  {
    hide Step, Unstep;
    if bs != [] {
      var n, b := |bs| - 1, bs[|bs| - 1];
      FoldTells(w, s, t, bs[..n]);
      StepBijective(w, Fold(w, s, bs[..n]), b);
      StepBijective(w, Fold(w, t, bs[..n]), b);
    }
  }

  /** Changing one byte of any text changes its sum. */
  lemma OneByte(w: Width, s: nat, bs: seq<byte>, k: nat, b: byte)
    requires Sum(w, s) && k < |bs| && bs[k] != b
    ensures Fold(w, s, bs[k := b]) != Fold(w, s, bs)
  {
    hide Step;
    var head, tail := bs[..k], bs[k + 1..];
    var s0 := Fold(w, s, head);
    assert bs == head + ([bs[k]] + tail) && bs[k := b] == head + ([b] + tail);
    FoldAppend(w, s, head, [bs[k]] + tail);
    FoldAppend(w, s, head, [b] + tail);
    FoldAppend(w, s0, [bs[k]], tail);
    FoldAppend(w, s0, [b], tail);
    FoldOne(w, s0, b);
    FoldOne(w, s0, bs[k]);
    StepTellsBytes(w, s0, bs[k], b);
    FoldTells(w, Step(w, s0, bs[k]), Step(w, s0, b), tail);
  }

  lemma FoldOne(w: Width, s: nat, b: byte)
    requires Sum(w, s)
    ensures Fold(w, s, [b]) == Step(w, s, b)
  {
    assert [b][..0] == [];
  }

  // --- bytes that are passed over ---

  /** The bytes that count: all but those at the places in `skip`. */
  function Kept(bs: seq<byte>, skip: set<nat>): seq<byte> {
    if bs == [] then []
    else Kept(bs[..|bs| - 1], skip) + if |bs| - 1 in skip then [] else [bs[|bs| - 1]]
  }

  /** A byte that is skipped can be anything; one that is not is in the text once, at a place of its own. */
  lemma {:induction false} KeptChange(bs: seq<byte>, skip: set<nat>, k: nat, b: byte) returns (at: nat)
    requires k < |bs|
    ensures k in skip ==> Kept(bs[k := b], skip) == Kept(bs, skip)
    ensures k !in skip ==>
              at < |Kept(bs, skip)| && Kept(bs, skip)[at] == bs[k] && Kept(bs[k := b], skip) == Kept(bs, skip)[at := b]
  {
    var n := |bs| - 1;
    if k == n {
      at := |Kept(bs[..n], skip)|;
      assert bs[k := b][..n] == bs[..n];
    } else {
      at := KeptChange(bs[..n], skip, k, b);
      assert bs[k := b][..n] == bs[..n][k := b];
    }
  }

  /** A sum over a part that skips some places and a part that does not: it is spoilt by any change of one byte that
      is not skipped, and by no change of one that is. */
  lemma SkippingSum(w: Width, bs: seq<byte>, skip: set<nat>, rest: seq<byte>, k: nat, b: byte)
    requires k < |bs| && bs[k] != b
    ensures Fold(w, 0, Kept(bs[k := b], skip) + rest) == Fold(w, 0, Kept(bs, skip) + rest) <==> k in skip
  {
    var at := KeptChange(bs, skip, k, b);
    if k !in skip {
      var text := Kept(bs, skip) + rest;
      OneByte(w, 0, text, at, b);
      assert text[at := b] == Kept(bs, skip)[at := b] + rest;
    }
  }

  // --- as the source runs them ---

  method StartChecksum(w: Width, bytes: seq<byte>, skip: set<nat>) returns (sum: nat)
    ensures sum == Fold(w, 0, Kept(bytes, skip))
  {
    hide Step, Kept;
    sum := 0;
    var i := 0;
    KeptNone(skip);
    while i < |bytes|
      invariant i <= |bytes| && Sum(w, sum) && sum == Fold(w, 0, Kept(bytes[..i], skip))
    {
      assert bytes[..i + 1] == bytes[..i] + [bytes[i]];
      KeptOne(w, bytes[..i], skip, bytes[i]);
      if i !in skip {
        sum := Step(w, sum, bytes[i]);
      }
      i := i + 1;
    }
    assert bytes[..i] == bytes;
  }

  lemma KeptNone(skip: set<nat>)
    ensures Kept([], skip) == []
  {
  }

  lemma KeptOne(w: Width, bs: seq<byte>, skip: set<nat>, b: byte)
    ensures |bs| in skip ==> Kept(bs + [b], skip) == Kept(bs, skip)
    ensures |bs| !in skip ==> Fold(w, 0, Kept(bs + [b], skip)) == Step(w, Fold(w, 0, Kept(bs, skip)), b)
  {
    assert (bs + [b])[..|bs|] == bs;
    var kept := Kept(bs, skip);
    assert (kept + [b])[..|kept|] == kept;
  }

  method AddChecksum(w: Width, bytes: seq<byte>, start: nat) returns (sum: nat)
    requires Sum(w, start)
    ensures sum == Fold(w, start, bytes)
  {
    sum := start;
    var i := 0;
    while i < |bytes|
      invariant i <= |bytes| && Sum(w, sum) && sum == Fold(w, start, bytes[..i])
    {
      assert bytes[..i + 1][..i] == bytes[..i];
      sum := Step(w, sum, bytes[i]);
      i := i + 1;
    }
    assert bytes[..i] == bytes;
  }

  // --- the boot region ---

  /** Volume state and percentage in use change while a volume is mounted, so they are left out of its sum. */
  const VOLATILE: set<nat> := {0x6a, 0x6b, 0x70}

  const SUMMED := 11

  function Joined(parts: seq<seq<byte>>): seq<byte> {
    if parts == [] then [] else Joined(parts[..|parts| - 1]) + parts[|parts| - 1]
  }

  /** Eleven sectors and a twelfth that repeats their sum. */
  predicate BootRegion(region: seq<seq<byte>>, size: nat) {
    size >= 512 && size % 4 == 0 && |region| == SUMMED + 1 && forall i :: 0 <= i < |region| ==> |region[i]| == size
  }

  function BootSum(region: seq<seq<byte>>): (s: nat)
    requires |region| == SUMMED + 1
    ensures Sum(ThirtyTwo, s)
  {
    Fold(ThirtyTwo, 0, Kept(region[0], VOLATILE) + Joined(region[1..SUMMED]))
  }

  function Word(bs: seq<byte>, i: nat): nat
    requires 4 * i + 4 <= |bs|
  {
    var b0: nat, b1: nat, b2: nat, b3: nat := bs[4 * i], bs[4 * i + 1], bs[4 * i + 2], bs[4 * i + 3];
    b0 + 0x100 * b1 + 0x1_0000 * b2 + 0x100_0000 * b3
  }

  predicate BootAccepted(region: seq<seq<byte>>, size: nat)
    requires BootRegion(region, size)
  {
    forall i :: 0 <= i < size / 4 ==> Word(region[SUMMED], i) == BootSum(region)
  }

  method VerifyVbrChecksum(region: seq<seq<byte>>, size: nat) returns (ok: bool)
    requires BootRegion(region, size)
    ensures ok <==> BootAccepted(region, size)
  {
    hide Fold, Kept, BootSum;
    BootSumBegins(region);
    var sector := region[0];
    var sum := StartChecksum(ThirtyTwo, sector, VOLATILE);
    var i := 1;
    while i < SUMMED
      invariant 1 <= i <= SUMMED && Sum(ThirtyTwo, sum)
      invariant sum == Fold(ThirtyTwo, 0, Kept(region[0], VOLATILE) + Joined(region[1..i]))
    {
      sector := region[i];
      BootSumGoesOn(region, i);
      sum := AddChecksum(ThirtyTwo, sector, sum);
      i := i + 1;
    }
    BootSumEnds(region);
    sector := region[i];
    i := 0;
    while i < size / 4
      invariant 0 <= i <= size / 4
      invariant forall j :: 0 <= j < i ==> Word(sector, j) == sum
    {
      if Word(sector, i) != sum {
        return false;
      }
      i := i + 1;
    }
    ok := true;
  }

  lemma BootSumBegins(region: seq<seq<byte>>)
    requires |region| == SUMMED + 1
    ensures Kept(region[0], VOLATILE) + Joined(region[1..1]) == Kept(region[0], VOLATILE)
  {
  }

  lemma BootSumGoesOn(region: seq<seq<byte>>, i: nat)
    requires |region| == SUMMED + 1 && 1 <= i < SUMMED
    ensures var kept := Kept(region[0], VOLATILE);
            Fold(ThirtyTwo, 0, kept + Joined(region[1..i + 1]))
            == Fold(ThirtyTwo, Fold(ThirtyTwo, 0, kept + Joined(region[1..i])), region[i])
  {
    hide Fold;
    var kept := Kept(region[0], VOLATILE);
    assert region[1..i + 1][..i - 1] == region[1..i];
    assert kept + Joined(region[1..i + 1]) == kept + Joined(region[1..i]) + region[i];
    FoldAppend(ThirtyTwo, 0, kept + Joined(region[1..i]), region[i]);
  }

  lemma BootSumEnds(region: seq<seq<byte>>)
    requires |region| == SUMMED + 1
    ensures BootSum(region) == Fold(ThirtyTwo, 0, Kept(region[0], VOLATILE) + Joined(region[1..SUMMED]))
  {
  }

  /** One byte of one part changed. */
  function PutByte(parts: seq<seq<byte>>, i: nat, k: nat, b: byte): seq<seq<byte>>
    requires i < |parts| && k < |parts[i]|
  {
    var part: seq<byte> := parts[i][k := b];
    parts[i := part]
  }

  lemma {:induction false} JoinedChange(parts: seq<seq<byte>>, i: nat, k: nat, b: byte) returns (at: nat)
    requires i < |parts| && k < |parts[i]|
    ensures at < |Joined(parts)| && Joined(parts)[at] == parts[i][k]
    ensures Joined(PutByte(parts, i, k, b)) == Joined(parts)[at := b]
  {
    var n := |parts| - 1;
    var parts' := PutByte(parts, i, k, b);
    if i == n {
      at := |Joined(parts[..n])| + k;
      assert parts'[..n] == parts[..n];
    } else {
      at := JoinedChange(parts[..n], i, k, b);
      assert parts'[..n] == PutByte(parts[..n], i, k, b);
    }
  }

  /** A boot region that is accepted is rejected after any one of its bytes has changed, except for the three that
      are meant to change. */
  lemma BootSensitive(region: seq<seq<byte>>, size: nat, i: nat, k: nat, b: byte)
    requires BootRegion(region, size) && BootAccepted(region, size)
    requires i <= SUMMED && k < size && region[i][k] != b
    ensures BootAccepted(PutByte(region, i, k, b), size) <==> i == 0 && (k == 106 || k == 107 || k == 112)
  {
    hide Fold, Kept;
    var region' := PutByte(region, i, k, b);
    if i == SUMMED {
      assert region'[1..SUMMED] == region[1..SUMMED];
      WordChange(region[i], k, b);
      assert Word(region'[i], k / 4) != BootSum(region');
    } else {
      assert Word(region'[SUMMED], 0) == BootSum(region);
      if i == 0 {
        assert region'[1..SUMMED] == region[1..SUMMED];
        SkippingSum(ThirtyTwo, region[0], VOLATILE, Joined(region[1..SUMMED]), k, b);
      } else {
        var kept := Kept(region[0], VOLATILE);
        var at := JoinedChange(region[1..SUMMED], i - 1, k, b);
        assert region'[1..SUMMED] == PutByte(region[1..SUMMED], i - 1, k, b);
        var text := kept + Joined(region[1..SUMMED]);
        OneByte(ThirtyTwo, 0, text, |kept| + at, b);
        assert text[|kept| + at := b] == kept + Joined(region'[1..SUMMED]);
      }
    }
  }

  lemma WordChange(bs: seq<byte>, k: nat, b: byte)
    requires |bs| % 4 == 0 && k < |bs| && bs[k] != b
    ensures 4 * (k / 4) + 4 <= |bs| && Word(bs[k := b], k / 4) != Word(bs, k / 4)
  {
  }

  // --- the sums in numbers ---

  /** Byte after byte: the sum is turned right by one bit, the byte is added, and what does not fit is dropped. */
  lemma SumIs(s: nat, bs: seq<byte>, b: byte)
    ensures s < 0x1_0000 ==>
              && Fold(Sixteen, s, []) == s
              && var t := Fold(Sixteen, s, bs);
                 Fold(Sixteen, s, bs + [b]) == (t / 2 + 0x8000 * (t % 2) + b) % 0x1_0000
    ensures s < 0x1_0000_0000 ==>
              && Fold(ThirtyTwo, s, []) == s
              && var t := Fold(ThirtyTwo, s, bs);
                 Fold(ThirtyTwo, s, bs + [b]) == (t / 2 + 0x8000_0000 * (t % 2) + b) % 0x1_0000_0000
  {
    hide Step;
    assert (bs + [b])[..|bs|] == bs;
    if s < 0x1_0000 {
      ShortStep(Fold(Sixteen, s, bs), b);
    }
    if s < 0x1_0000_0000 {
      LongStep(Fold(ThirtyTwo, s, bs), b);
    }
  }

  lemma ShortStep(t: nat, b: byte)
    requires t < 0x1_0000
    ensures Step(Sixteen, t, b) == (t / 2 + 0x8000 * (t % 2) + b) % 0x1_0000
  {
  }

  lemma LongStep(t: nat, b: byte)
    requires t < 0x1_0000_0000
    ensures Step(ThirtyTwo, t, b) == (t / 2 + 0x8000_0000 * (t % 2) + b) % 0x1_0000_0000
  {
  }

  /** Two neighbours and one more place left out. */
  lemma KeptWithout(bs: seq<byte>, skip: set<nat>, i: nat, j: nat)
    requires i + 1 < j < |bs| && skip == {i, i + 1, j}
    ensures Kept(bs, skip) == bs[..i] + bs[i + 2..j] + bs[j + 1..]
  {
    hide Kept;
    KeptNone(skip);
    KeptTo(bs, skip, 0, i);
    KeptPast(bs, skip, i);
    KeptPast(bs, skip, i + 1);
    KeptTo(bs, skip, i + 2, j);
    KeptPast(bs, skip, j);
    KeptTo(bs, skip, j + 1, |bs|);
    assert bs[..0] == [] && [] + bs[0..i] == bs[..i] && bs[..|bs|] == bs;
  }

  lemma KeptPast(bs: seq<byte>, skip: set<nat>, i: nat)
    requires i < |bs| && i in skip
    ensures Kept(bs[..i + 1], skip) == Kept(bs[..i], skip)
  {
    assert bs[..i + 1][..i] == bs[..i];
  }

  lemma {:induction false} KeptTo(bs: seq<byte>, skip: set<nat>, i: nat, j: nat)
    requires i <= j <= |bs| && forall k :: i <= k < j ==> k !in skip
    ensures Kept(bs[..j], skip) == Kept(bs[..i], skip) + bs[i..j]
  {
    if i < j {
      KeptTo(bs, skip, i, j - 1);
      assert bs[..j][..j - 1] == bs[..j - 1];
      assert Kept(bs[..i], skip) + bs[i..j - 1] + [bs[j - 1]] == Kept(bs[..i], skip) + bs[i..j];
    }
  }

  lemma JoinedEleven(region: seq<seq<byte>>)
    requires |region| == 12
    ensures Joined(region[1..11])
            == region[1] + region[2] + region[3] + region[4] + region[5] + region[6] + region[7] + region[8] + region[9]
               + region[10]
  {
    hide Joined;
    JoinedNone();
    assert region[1..1] == [];
    JoinedMore(region, 1);
    JoinedMore(region, 2);
    JoinedMore(region, 3);
    JoinedMore(region, 4);
    JoinedMore(region, 5);
    JoinedMore(region, 6);
    JoinedMore(region, 7);
    JoinedMore(region, 8);
    JoinedMore(region, 9);
    JoinedMore(region, 10);
    assert [] + region[1] == region[1];
  }

  lemma JoinedNone()
    ensures Joined([]) == []
  {
  }

  lemma JoinedMore(region: seq<seq<byte>>, i: nat)
    requires 1 <= i < |region|
    ensures Joined(region[1..i + 1]) == Joined(region[1..i]) + region[i]
  {
    assert region[1..i + 1][..i - 1] == region[1..i];
  }

  /** The sum of a boot region is that of the bytes of its first eleven sectors in order, without the three; it is
      accepted when every four bytes of the twelfth sector are that sum, lowest byte first. */
  lemma BootInBytes(region: seq<seq<byte>>, size: nat)
    requires BootRegion(region, size)
    ensures var first, last, sum := region[0], region[11], BootSum(region);
            && sum == Fold(ThirtyTwo, 0, first[..106] + first[108..112] + first[113..]
                                         + (region[1] + region[2] + region[3] + region[4] + region[5] + region[6]
                                            + region[7] + region[8] + region[9] + region[10]))
            && (BootAccepted(region, size) <==>
                forall i :: 0 <= i < size / 4 ==> LittleEndian.Value(last[4 * i..4 * i + 4]) == sum)
  {
    hide Fold, Kept, Joined;
    KeptWithout(region[0], VOLATILE, 106, 112);
    JoinedEleven(region);
    BootSumEnds(region);
    var last, sum := region[11], BootSum(region);
    if BootAccepted(region, size) {
      forall i | 0 <= i < size / 4
        ensures LittleEndian.Value(last[4 * i..4 * i + 4]) == sum
      {
        assert Word(region[SUMMED], i) == sum;
        WordIs(last, i);
      }
    } else {
      var i :| 0 <= i < size / 4 && Word(region[SUMMED], i) != sum;
      WordIs(last, i);
      assert LittleEndian.Value(last[4 * i..4 * i + 4]) != sum;
    }
  }

  lemma WordIs(bs: seq<byte>, i: nat)
    requires 4 * i + 4 <= |bs|
    ensures Word(bs, i) == LittleEndian.Value(bs[4 * i..4 * i + 4])
  {
    var b := bs[4 * i..4 * i + 4];
    assert b == [bs[4 * i], bs[4 * i + 1], bs[4 * i + 2], bs[4 * i + 3]];
    FourDigits(b);
  }

  lemma FourDigits(b: seq<byte>)
    requires |b| == 4
    ensures var b0: nat, b1: nat, b2: nat, b3: nat := b[0], b[1], b[2], b[3];
            LittleEndian.Value(b) == b0 + 0x100 * b1 + 0x1_0000 * b2 + 0x100_0000 * b3
  {
    var b0: nat, b1: nat, b2: nat, b3: nat := b[0], b[1], b[2], b[3];
    assert b[1..][1..] == b[2..] && b[2..][1..] == b[3..] && b[3..][1..] == [];
    assert LittleEndian.Value(b[3..]) == b3;
    assert LittleEndian.Value(b[2..]) == b2 + 256 * b3;
    assert LittleEndian.Value(b[1..]) == b1 + 256 * (b2 + 256 * b3);
  }
}
