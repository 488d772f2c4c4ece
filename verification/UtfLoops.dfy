/** The conversions as the source runs them, over buffers. */
module UtfLoops {
  import opened Content
  import opened Options
  import opened Utf

  /** The null pointer a helper answers with when it cannot go on. */
  const NULL := -1

  /** Writes one character at `at` if `room` bytes are enough. */
  method WcharToUtf8(output: array<byte>, at: nat, wc: nat, room: nat) returns (next: int)
    requires Char(wc) && at + room <= output.Length
    modifies output
    ensures |Put8(wc)| > room ==> next == NULL && output[..] == old(output[..])
    ensures |Put8(wc)| <= room ==> next == at + |Put8(wc)| && output[..] == Splice(old(output[..]), at, Put8(wc))
  {
    hide Put8, Splice;
    if wc < 0x20_0000 {
      ShortPut8(wc);
    } else {
      LongPut8(wc);
    }
    if wc <= 0x7f {
      if room < 1 {
        return NULL;
      }
      Copy(output, at, [wc]);
      next := at + 1;
    } else if wc <= 0x7ff {
      if room < 2 {
        return NULL;
      }
      Copy(output, at, [0xc0 + wc / 0x40, 0x80 + wc % 0x40]);
      next := at + 2;
    } else if wc <= 0xffff {
      if room < 3 {
        return NULL;
      }
      Copy(output, at, [0xe0 + wc / 0x1000, 0x80 + wc / 0x40 % 0x40, 0x80 + wc % 0x40]);
      next := at + 3;
    } else if wc <= 0x1f_ffff {
      if room < 4 {
        return NULL;
      }
      Copy(output, at, [0xf0 + wc / 0x4_0000, 0x80 + wc / 0x1000 % 0x40, 0x80 + wc / 0x40 % 0x40, 0x80 + wc % 0x40]);
      next := at + 4;
    } else if wc <= 0x3ff_ffff {
      if room < 5 {
        return NULL;
      }
      Copy(output, at, [0xf8 + wc / 0x100_0000, 0x80 + wc / 0x4_0000 % 0x40,
                         0x80 + wc / 0x1000 % 0x40, 0x80 + wc / 0x40 % 0x40, 0x80 + wc % 0x40]);
      next := at + 5;
    } else {
      if room < 6 {
        return NULL;
      }
      Copy(output, at, [0xfc + wc / 0x4000_0000, 0x80 + wc / 0x100_0000 % 0x40, 0x80 + wc / 0x4_0000 % 0x40,
                         0x80 + wc / 0x1000 % 0x40, 0x80 + wc / 0x40 % 0x40, 0x80 + wc % 0x40]);
      next := at + 6;
    }
  }

  /** Reads one character at `at`. */
  method Utf16ToWchar(input: array<unit>, at: nat, insize: nat) returns (wc: nat, next: int)
    requires 0 < insize && at + insize <= input.Length
    ensures match Get16(input[at..at + insize])
            case None => next == NULL
            case Some(c) => wc == c && next == at + |Put16(c)|
  {
    if 0xd800 <= input[at] < 0xdc00 {
      if insize < 2 || !(0xdc00 <= input[at + 1] < 0xe000) {
        return 0, NULL;
      }
      var high: nat, low: nat := input[at] % 0x400, input[at + 1] % 0x400;
      wc := high * 0x400;
      wc := wc + low;
      wc := wc + 0x1_0000;
      next := at + 2;
    } else {
      wc, next := input[at], at + 1;
    }
  }

  function Six(b: byte): nat { b % 0x40 }

  function LowBits(b: byte, m: nat): nat
    requires m > 0
  {
    b % m
  }

  /** Reads one character at `at`. */
  method Utf8ToWchar(input: array<byte>, at: nat, insize: nat) returns (wc: nat, next: int)
    requires 0 < insize && at + insize <= input.Length
    ensures match Get8(input[at..at + insize])
            case None => next == NULL
            case Some((c, n)) => wc == c && next == at + n
  {
    hide Get8, Six, LowBits;
    ghost var b := input[at..at + insize];
    Get8None(b);
    Get8Short(b);
    Get8Long(b);
    var i0 := input[at];
    if i0 < 0x80 && insize >= 1 {
      return i0, at + 1;
    }
    if 0xc0 <= i0 < 0xe0 && insize >= 2 {
      return LowBits(i0, 0x20) * 0x40 + Six(input[at + 1]), at + 2;
    }
    if 0xe0 <= i0 < 0xf0 && insize >= 3 {
      return LowBits(i0, 0x10) * 0x1000 + Six(input[at + 1]) * 0x40 + Six(input[at + 2]), at + 3;
    }
    if 0xf0 <= i0 < 0xf8 && insize >= 4 {
      return LowBits(i0, 8) * 0x4_0000 + Six(input[at + 1]) * 0x1000 + Six(input[at + 2]) * 0x40 + Six(input[at + 3]),
             at + 4;
    }
    if 0xf8 <= i0 < 0xfc && insize >= 5 {
      return LowBits(i0, 4) * 0x100_0000 + Six(input[at + 1]) * 0x4_0000 + Six(input[at + 2]) * 0x1000
             + Six(input[at + 3]) * 0x40 + Six(input[at + 4]), at + 5;
    }
    if 0xfc <= i0 < 0xfe && insize >= 6 {
      return LowBits(i0, 2) * 0x4000_0000 + Six(input[at + 1]) * 0x100_0000 + Six(input[at + 2]) * 0x4_0000
             + Six(input[at + 3]) * 0x1000 + Six(input[at + 4]) * 0x40 + Six(input[at + 5]), at + 6;
    }
    return 0, NULL;
  }

  lemma SixesNext(b: seq<byte>, x: byte)
    ensures Sixes(b + [x]) == Sixes(b) * 0x40 + Six(x)
  {
    assert (b + [x])[..|b|] == b;
  }

  lemma SixesShort(a: byte, b: byte, c: byte)
    ensures Sixes([a]) == Six(a)
    ensures Sixes([a, b]) == Six(a) * 0x40 + Six(b)
    ensures Sixes([a, b, c]) == Six(a) * 0x1000 + Six(b) * 0x40 + Six(c)
  {
    hide Six;
    SixesNext([], a);
    SixesNext([a], b);
    SixesNext([a, b], c);
    assert [] + [a] == [a] && [a] + [b] == [a, b] && [a, b] + [c] == [a, b, c];
  }

  lemma SixesLong(a: byte, b: byte, c: byte, d: byte, e: byte)
    ensures Sixes([a, b, c, d]) == Six(a) * 0x4_0000 + Six(b) * 0x1000 + Six(c) * 0x40 + Six(d)
    ensures Sixes([a, b, c, d, e])
            == Six(a) * 0x100_0000 + Six(b) * 0x4_0000 + Six(c) * 0x1000 + Six(d) * 0x40 + Six(e)
  {
    hide Six, Sixes;
    SixesShort(a, b, c);
    SixesNext([a, b, c], d);
    SixesNext([a, b, c, d], e);
    assert [a, b, c] + [d] == [a, b, c, d] && [a, b, c, d] + [e] == [a, b, c, d, e];
  }

  predicate Gets(b: seq<byte>, wc: int, n: int)
    requires b != []
  {
    Get8(b).Some? && Get8(b).value.0 == wc && Get8(b).value.1 == n
  }

  lemma Get8None(b: seq<byte>)
    requires b != []
    ensures b[0] < 0x80 ==> Gets(b, b[0], 1)
    ensures 0x80 <= b[0] < 0xc0 || 0xfe <= b[0] ==> Get8(b) == None
    ensures 0xc0 <= b[0] && |b| < 2 ==> Get8(b) == None
    ensures 0xe0 <= b[0] && |b| < 3 ==> Get8(b) == None
    ensures 0xf0 <= b[0] && |b| < 4 ==> Get8(b) == None
    ensures 0xf8 <= b[0] && |b| < 5 ==> Get8(b) == None
    ensures 0xfc <= b[0] && |b| < 6 ==> Get8(b) == None
  {
    assert Sixes([]) == 0;
  }

  lemma Get8Short(b: seq<byte>)
    requires b != []
    ensures 0xc0 <= b[0] < 0xe0 && |b| >= 2 ==> Gets(b, LowBits(b[0], 0x20) * 0x40 + Six(b[1]), 2)
    ensures 0xe0 <= b[0] < 0xf0 && |b| >= 3 ==>
              Gets(b, LowBits(b[0], 0x10) * 0x1000 + Six(b[1]) * 0x40 + Six(b[2]), 3)
    ensures 0xf0 <= b[0] < 0xf8 && |b| >= 4 ==>
              Gets(b, LowBits(b[0], 8) * 0x4_0000 + Six(b[1]) * 0x1000 + Six(b[2]) * 0x40 + Six(b[3]), 4)
  {
    hide Six, Sixes;
    Powers();
    if |b| >= 2 && 0xc0 <= b[0] < 0xe0 {
      assert b[1..2] == [b[1]];
      SixesShort(b[1], 0, 0);
    } else if |b| >= 3 && 0xe0 <= b[0] < 0xf0 {
      assert b[1..3] == [b[1], b[2]];
      SixesShort(b[1], b[2], 0);
    } else if |b| >= 4 && 0xf0 <= b[0] < 0xf8 {
      assert b[1..4] == [b[1], b[2], b[3]];
      SixesShort(b[1], b[2], b[3]);
    }
  }

  lemma Get8Long(b: seq<byte>)
    requires b != []
    ensures 0xf8 <= b[0] < 0xfc && |b| >= 5 ==>
              Gets(b, LowBits(b[0], 4) * 0x100_0000 + Six(b[1]) * 0x4_0000 + Six(b[2]) * 0x1000
                               + Six(b[3]) * 0x40 + Six(b[4]), 5)
    ensures 0xfc <= b[0] < 0xfe && |b| >= 6 ==>
              Gets(b, LowBits(b[0], 2) * 0x4000_0000 + Six(b[1]) * 0x100_0000 + Six(b[2]) * 0x4_0000
                               + Six(b[3]) * 0x1000 + Six(b[4]) * 0x40 + Six(b[5]), 6)
  {
    hide Six, Sixes;
    Powers();
    assert Pow64(4) == 0x100_0000 && Pow64(5) == 0x40 * Pow64(4);
    if |b| >= 5 && 0xf8 <= b[0] < 0xfc {
      assert b[1..5] == [b[1], b[2], b[3], b[4]];
      SixesLong(b[1], b[2], b[3], b[4], 0);
    } else if |b| >= 6 && 0xfc <= b[0] < 0xfe {
      assert b[1..6] == [b[1], b[2], b[3], b[4], b[5]];
      SixesLong(b[1], b[2], b[3], b[4], b[5]);
    }
  }

  const EILSEQ := 84
  const ENAMETOOLONG := 36

  /** What a caller is told: an error number, or a zero-terminated text at the start of the buffer. */
  predicate Told<T(==)>(rc: int, output: seq<T>, c: Converted<T>, zero: T) {
    match c
    case Done(b) => rc == 0 && |b| < |output| && output[..|b|] == b && output[|b|] == zero
    case IllegalSequence => rc == -EILSEQ
    case NameTooLong => rc == -ENAMETOOLONG
  }

  lemma PrefixedTwice<T>(a: seq<T>, b: seq<T>, c: Converted<T>)
    ensures Prefixed(a, Prefixed(b, c)) == Prefixed(a + b, c)
  {
    if c.Done? {
      assert a + (b + c.output) == a + b + c.output;
    }
  }

  lemma PrefixedNone<T>(c: Converted<T>)
    ensures Prefixed([], c) == c
  {
  }

  /** A buffer in which a piece has been written behind what was already there. */
  lemma Appended<T>(was: seq<T>, now: seq<T>, at: nat, piece: seq<T>, end: nat)
    requires at + |piece| <= end <= |was| && now == was[..at] + piece + was[at + |piece|..]
    ensures |now| == |was| && now[..at + |piece|] == was[..at] + piece && now[end..] == was[end..]
  {
  }

  /** A conversion under way: `i` units have been read and the first `o` bytes written. */
  ghost predicate Halfway8(u: seq<unit>, room: nat, out: seq<byte>, i: nat, o: nat) {
    && i <= |u| && o <= room && room < |out|
    && ToUtf8(u, room) == Prefixed(out[..o], ToUtf8(u[i..], room - o))
  }

  lemma Start8(u: seq<unit>, room: nat, out: seq<byte>)
    requires room < |out|
    ensures Halfway8(u, room, out, 0, 0)
  {
    hide ToUtf8, Prefixed;
    PrefixedNone(ToUtf8(u, room));
    assert u[0..] == u && out[..0] == [];
  }

  /** What the next character does to that, if there is one. */
  lemma Onward8(u: seq<unit>, room: nat, out: seq<byte>, i: nat, o: nat)
    requires Halfway8(u, room, out, i, o)
    ensures i == |u| || u[i] == 0 ==> ToUtf8(u, room) == Done(out[..o])
    ensures i < |u| && u[i] != 0 ==>
              match Get16(u[i..])
              case None => ToUtf8(u, room) == IllegalSequence
              case Some(wc) =>
                && Char(wc) && 1 <= |Put16(wc)| <= |u| - i
                && (|Put8(wc)| > room - o ==> ToUtf8(u, room) == NameTooLong)
                && (|Put8(wc)| <= room - o ==>
                      ToUtf8(u, room) == Prefixed(out[..o] + Put8(wc),
                                                  ToUtf8(u[i + |Put16(wc)|..], room - o - |Put8(wc)|)))
  {
    hide Put8, Put16, Get16, ToUtf8, Prefixed;
    var rest := u[i..];
    Utf8Step(rest, room - o);
    PrefixedMeans(out[..o], ToUtf8(rest, room - o));
    if i < |u| && u[i] != 0 && Get16(rest).Some? {
      var wc := Get16(rest).value;
      PieceTaken(rest);
      assert rest[|Put16(wc)|..] == u[i + |Put16(wc)|..];
      if |Put8(wc)| <= room - o {
        PrefixedTwice(out[..o], Put8(wc), ToUtf8(u[i + |Put16(wc)|..], room - o - |Put8(wc)|));
      }
    }
  }

  method Utf16ToUtf8(output: array<byte>, input: array<unit>, outsize: nat, insize: nat) returns (rc: int)
    requires outsize < output.Length && insize <= input.Length && output as object != input
    modifies output
    ensures Told(rc, output[..outsize + 1], ToUtf8(input[..insize], outsize), 0)
    ensures output[outsize + 1..] == old(output[outsize + 1..])
  {
    hide Put8, Put16, Get16, ToUtf8, Prefixed;
    ghost var u := input[..insize];
    var i: int, o: int := 0, 0;
    Start8(u, outsize, output[..]);
    while i < insize && input[i] != 0
      invariant 0 <= i <= insize && 0 <= o <= outsize
      invariant Halfway8(u, outsize, output[..], i, o)
      invariant output[outsize + 1..] == old(output[outsize + 1..])
      decreases insize - i
    {
      ghost var was := output[..];
      Onward8(u, outsize, was, i, o);
      assert u[i..] == input[i..insize];
      var wc, next := Utf16ToWchar(input, i, insize - i);
      if next == NULL {
        return -EILSEQ;
      }
      i := next;
      next := WcharToUtf8(output, o, wc, outsize - o);
      if next == NULL {
        return -ENAMETOOLONG;
      }
      Appended(was, output[..], o, Put8(wc), outsize + 1);
      o := next;
    }
    Onward8(u, outsize, output[..], i, o);
    ghost var done := output[..o];
    output[o] := 0;
    assert output[..o] == done;
    rc := 0;
  }

  /** The same in the other direction. */
  ghost predicate Halfway16(b: seq<byte>, room: nat, out: seq<unit>, i: nat, o: nat) {
    && i <= |b| && o <= room && room < |out|
    && ToUtf16(b, room) == Prefixed(out[..o], ToUtf16(b[i..], room - o))
  }

  lemma Start16(b: seq<byte>, room: nat, out: seq<unit>)
    requires room < |out|
    ensures Halfway16(b, room, out, 0, 0)
  {
    hide ToUtf16, Prefixed;
    PrefixedNone(ToUtf16(b, room));
    assert b[0..] == b && out[..0] == [];
  }

  lemma Onward16(b: seq<byte>, room: nat, out: seq<unit>, i: nat, o: nat)
    requires Halfway16(b, room, out, i, o)
    ensures i == |b| || b[i] == 0 ==> ToUtf16(b, room) == Done(out[..o])
    ensures i < |b| && b[i] != 0 ==>
              match Get8(b[i..])
              case None => ToUtf16(b, room) == IllegalSequence
              case Some((wc, n)) =>
                && 1 <= n <= |b| - i
                && (|Put16(wc)| > room - o ==> ToUtf16(b, room) == NameTooLong)
                && (|Put16(wc)| <= room - o ==>
                      ToUtf16(b, room) == Prefixed(out[..o] + Put16(wc), ToUtf16(b[i + n..], room - o - |Put16(wc)|)))
  {
    hide Put16, Get8, ToUtf16, Prefixed;
    var rest := b[i..];
    Utf16Step(rest, room - o);
    PrefixedMeans(out[..o], ToUtf16(rest, room - o));
    if i < |b| && b[i] != 0 && Get8(rest).Some? {
      var (wc, n) := Get8(rest).value;
      Got8Bounds(rest);
      assert rest[n..] == b[i + n..];
      if |Put16(wc)| <= room - o {
        PrefixedTwice(out[..o], Put16(wc), ToUtf16(b[i + n..], room - o - |Put16(wc)|));
      }
    }
  }

  method Utf8ToUtf16(output: array<unit>, input: array<byte>, outsize: nat, insize: nat) returns (rc: int)
    requires outsize < output.Length && insize <= input.Length && output as object != input
    modifies output
    ensures Told(rc, output[..outsize + 1], ToUtf16(input[..insize], outsize), 0)
    ensures output[outsize + 1..] == old(output[outsize + 1..])
  {
    hide Put8, Put16, Get8, ToUtf16, Prefixed;
    ghost var b := input[..insize];
    var i: int, o: int := 0, 0;
    Start16(b, outsize, output[..]);
    while i < insize && input[i] != 0
      invariant 0 <= i <= insize && 0 <= o <= outsize
      invariant Halfway16(b, outsize, output[..], i, o)
      invariant output[outsize + 1..] == old(output[outsize + 1..])
      decreases insize - i
    {
      ghost var was := output[..];
      Onward16(b, outsize, was, i, o);
      assert b[i..] == input[i..insize];
      var wc, next := Utf8ToWchar(input, i, insize - i);
      if next == NULL {
        return -EILSEQ;
      }
      i := next;
      next := WcharToUtf16(output, o, wc, outsize - o);
      if next == NULL {
        return -ENAMETOOLONG;
      }
      Appended(was, output[..], o, Put16(wc), outsize + 1);
      o := next;
    }
    Onward16(b, outsize, output[..], i, o);
    ghost var done := output[..o];
    output[o] := 0;
    assert output[..o] == done;
    rc := 0;
  }

  lemma Got8Bounds(b: seq<byte>)
    requires b != [] && Get8(b).Some?
    ensures 1 <= Get8(b).value.1 <= |b|
  {
  }

  /** Writes one character at `at` if `room` units are enough. */
  method WcharToUtf16(output: array<unit>, at: nat, wc: nat, room: nat) returns (next: int)
    requires at + room <= output.Length
    modifies output
    ensures |Put16(wc)| > room ==> next == NULL && output[..] == old(output[..])
    ensures |Put16(wc)| <= room ==>
              next == at + |Put16(wc)|
              && output[..] == old(output[..])[..at] + Put16(wc) + old(output[..])[at + |Put16(wc)|..]
  {
    if wc <= 0xffff {
      if room == 0 {
        return NULL;
      }
      output[at] := wc;
      return at + 1;
    }
    if room < 2 {
      return NULL;
    }
    var w := wc - 0x1_0000;
    output[at] := 0xd800 + w / 0x400 % 0x400;
    output[at + 1] := 0xdc00 + w % 0x400;
    return at + 2;
  }
}
