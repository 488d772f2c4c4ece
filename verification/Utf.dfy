/** Names travel between UTF-16 on the disk and UTF-8 outside. A mask or a shift of the source is written here as
    the quotient or remainder it takes, and an OR of disjoint fields as their sum. */
module Utf {
  import opened Content
  import opened Options

  type unit = u: nat | u < 0x1_0000

  // --- one character ---

  function Pow64(n: nat): (p: nat)
    ensures p > 0
  {
    if n == 0 then 1 else 64 * Pow64(n - 1)
  }

  /** The low 6n bits of a character as n bytes of six bits each. */
  function Tails(wc: nat, n: nat): (b: seq<byte>)
    ensures |b| == n
  {
    if n == 0 then [] else Tails(wc / 64, n - 1) + [0x80 + wc % 64]
  }

  function Sixes(b: seq<byte>): nat {
    if b == [] then 0 else Sixes(b[..|b| - 1]) * 64 + b[|b| - 1] % 64
  }

  /** How many bytes follow the first one of a character's UTF-8 form. */
  function Extra(wc: nat): nat {
    if wc < 0x80 then 0
    else if wc < 0x800 then 1
    else if wc < 0x1_0000 then 2
    else if wc < 0x20_0000 then 3
    else if wc < 0x400_0000 then 4
    else 5
  }

  /** The range of first bytes that announce `n` more, and how much of the character they hold. */
  function LeadBase(n: nat): nat {
    if n == 0 then 0 else if n == 1 then 0xc0 else if n == 2 then 0xe0
    else if n == 3 then 0xf0 else if n == 4 then 0xf8 else 0xfc
  }

  function LeadRoom(n: nat): nat {
    if n == 0 then 0x80 else if n == 1 then 32 else if n == 2 then 16
    else if n == 3 then 8 else if n == 4 then 4 else 2
  }

  predicate Leads(lead: byte, n: nat) {
    n <= 5 && LeadBase(n) <= lead < LeadBase(n) + LeadRoom(n)
  }

  predicate Char(wc: nat) {
    wc <= 0x7fff_ffff
  }

  lemma ExtraMeans(wc: nat)
    requires Char(wc)
    ensures var n := Extra(wc); n <= 5 && wc / Pow64(n) < LeadRoom(n)
  {
    assert Pow64(1) == 64 && Pow64(2) == 64 * 64 && Pow64(3) == 64 * 64 * 64;
    assert Pow64(4) == 64 * Pow64(3) && Pow64(5) == 64 * Pow64(4);
  }

  /** The UTF-8 form of a character. */
  function Put8(wc: nat): (b: seq<byte>)
    requires Char(wc)
    ensures |b| == Extra(wc) + 1 <= 6
  {
    ExtraMeans(wc);
    var n := Extra(wc);
    [LeadBase(n) + wc / Pow64(n)] + Tails(wc, n)
  }

  /** The UTF-16 form of a character: one unit, or a surrogate pair. */
  function Put16(wc: nat): (u: seq<unit>)
    ensures |u| == if wc <= 0xffff then 1 else 2
  {
    if wc <= 0xffff then [wc] else [0xd800 + (wc - 0x1_0000) / 0x400 % 0x400, 0xdc00 + (wc - 0x1_0000) % 0x400]
  }

  predicate High(u: unit) { 0xd800 <= u < 0xdc00 }

  predicate Low(u: unit) { 0xdc00 <= u < 0xe000 }

  /** The characters UTF-16 can carry: anything up to 10FFFF that would not pass for the first half of a pair. */
  predicate Carried(wc: nat) {
    wc <= 0x10_ffff && !(0xd800 <= wc < 0xdc00)
  }

  /** The character a UTF-16 text starts with. */
  function Get16(u: seq<unit>): (r: Option<nat>)
    requires u != []
    ensures r.Some? ==> Carried(r.value) && |Put16(r.value)| <= |u|
  {
    if High(u[0]) then
      if |u| < 2 || !Low(u[1]) then None
      else
        var high: nat, low: nat := u[0] % 0x400, u[1] % 0x400;
        Some(high * 0x400 + low + 0x1_0000)
    else Some(u[0])
  }

  lemma Got16(wc: nat, rest: seq<unit>)
    requires Carried(wc)
    ensures Get16(Put16(wc) + rest) == Some(wc)
    ensures Put16(wc)[0] == 0 <==> wc == 0
  {
    if wc > 0xffff {
      var high, low := (wc - 0x1_0000) / 0x400, (wc - 0x1_0000) % 0x400;
      assert high * 0x400 + low + 0x1_0000 == wc && high < 0x400;
      HalfBack(0xd800, high);
      HalfBack(0xdc00, low);
    }
  }

  lemma HalfBack(base: nat, x: nat)
    requires (base == 0xd800 || base == 0xdc00) && x < 0x400
    ensures x % 0x400 == x && (base + x) % 0x400 == x
  {
  }

  lemma Came16(u: seq<unit>)
    requires u != [] && Get16(u).Some?
    ensures var wc := Get16(u).value; Put16(wc) == u[..|Put16(wc)|] && (wc == 0 <==> u[0] == 0)
  {
  }

  /** What is above the low 6n bits. */
  function Above(wc: nat, n: nat): nat {
    Block(wc, Pow64(n))
  }

  lemma {:induction false} TailsBack(wc: nat, n: nat)
    ensures wc == Above(wc, n) * Pow64(n) + Sixes(Tails(wc, n))
    ensures Sixes(Tails(wc, n)) < Pow64(n)
  {
    hide Tails, Sixes, Pow64, Above;
    TailsNone(wc);
    if n > 0 {
      TailsBack(wc / 64, n - 1);
      QuotientTwice(wc, n - 1);
      TailsLast(wc, n);
      Recombine(wc, Above(wc, n), Pow64(n - 1), Sixes(Tails(wc / 64, n - 1)));
    }
  }

  lemma TailsNone(wc: nat)
    ensures Pow64(0) == 1 && Sixes(Tails(wc, 0)) == 0 && Above(wc, 0) == wc
  {
  }

  lemma TailsLast(wc: nat, n: nat)
    requires n > 0
    ensures Sixes(Tails(wc, n)) == Sixes(Tails(wc / 64, n - 1)) * 64 + wc % 64
    ensures Pow64(n) == 64 * Pow64(n - 1)
  {
    assert Tails(wc, n)[..n - 1] == Tails(wc / 64, n - 1);
  }

  lemma Recombine(wc: nat, q: nat, p: nat, t: nat)
    requires wc / 64 == q * p + t
    ensures wc == q * (64 * p) + (t * 64 + wc % 64)
  {
    assert q * (64 * p) == 64 * (q * p);
  }

  lemma QuotientTwice(wc: nat, n: nat)
    ensures Above(wc, n + 1) == Above(wc / 64, n)
  {
    var p := Pow64(n);
    var q, r := wc / 64 / p, wc / 64 % p;
    assert wc / 64 == q * p + r;
    assert wc == q * (64 * p) + (64 * r + wc % 64);
    QuotientOf(q, 64 * r + wc % 64, 64 * p);
  }

  /** How many bytes a first byte announces after itself. */
  function Follows(lead: byte): (n: Option<nat>)
    ensures forall k: nat :: Leads(lead, k) <==> n == Some(k)
  {
    if Leads(lead, 0) then Some(0) else if Leads(lead, 1) then Some(1) else if Leads(lead, 2) then Some(2)
    else if Leads(lead, 3) then Some(3) else if Leads(lead, 4) then Some(4) else if Leads(lead, 5) then Some(5)
    else None
  }

  /** The character a UTF-8 text starts with and the bytes it takes. The later bytes are not checked. */
  function Get8(b: seq<byte>): (r: Option<(nat, nat)>)
    requires b != []
    ensures r.Some? ==> 1 <= r.value.1 <= |b| && r.value.1 <= 6
  {
    match Follows(b[0])
    case None => None
    case Some(n) =>
      if |b| <= n then None
      else Some(((b[0] - LeadBase(n)) * Pow64(n) + Sixes(b[1..n + 1]), n + 1))
  }

  lemma Got8(wc: nat, rest: seq<byte>)
    requires Char(wc)
    ensures Get8(Put8(wc) + rest) == Some((wc, |Put8(wc)|))
    ensures Put8(wc)[0] == 0 <==> wc == 0
  {
    hide Tails, Sixes, Pow64;
    var n := Extra(wc);
    var b := Put8(wc) + rest;
    ExtraMeans(wc);
    assert Leads(b[0], n);
    TailsBack(wc, n);
    assert b[1..n + 1] == Tails(wc, n);
    if n == 0 {
      PowNone();
    }
  }

  lemma PowNone()
    ensures Pow64(0) == 1
  {
  }

  // --- whole names ---

  datatype Converted<T> = Done(output: seq<T>) | IllegalSequence | NameTooLong

  function Prefixed<T>(head: seq<T>, c: Converted<T>): Converted<T> {
    if c.Done? then Done(head + c.output) else c
  }

  /** A name in UTF-8, if it is a name and there is room for it. */
  function ToUtf8(u: seq<unit>, room: nat): Converted<byte> {
    if u == [] || u[0] == 0 then Done([])
    else match Get16(u)
      case None => IllegalSequence
      case Some(wc) =>
        if |Put8(wc)| > room then NameTooLong
        else Prefixed(Put8(wc), ToUtf8(u[|Put16(wc)|..], room - |Put8(wc)|))
  }

  /** A name in UTF-16, if it is a name and there is room for it. */
  function ToUtf16(b: seq<byte>, room: nat): Converted<unit> {
    if b == [] || b[0] == 0 then Done([])
    else match Get8(b)
      case None => IllegalSequence
      case Some((wc, n)) =>
        if |Put16(wc)| > room then NameTooLong
        else Prefixed(Put16(wc), ToUtf16(b[n..], room - |Put16(wc)|))
  }

  /** What comes before the first zero. */
  function Name(u: seq<unit>): (n: seq<unit>)
    ensures n <= u && 0 !in n && (0 !in u ==> n == u)
  {
    if u == [] || u[0] == 0 then [] else [u[0]] + Name(u[1..])
  }

  lemma NameNext(u: seq<unit>)
    requires u != [] && u[0] != 0
    ensures Name(u) == [u[0]] + Name(u[1..])
  {
  }

  lemma NameAfter(u: seq<unit>, n: nat)
    requires 1 <= n <= 2 && n <= |u| && 0 !in u[..n]
    ensures Name(u) == u[..n] + Name(u[n..])
  {
    hide Name;
    assert u[0] in u[..n];
    NameNext(u);
    if n == 2 {
      assert u[1] in u[..n];
      NameNext(u[1..]);
      assert u[1..][1..] == u[2..];
    }
  }

  /** Every first half of a pair is followed by a second half. */
  predicate Paired(u: seq<unit>) {
    forall i :: 0 <= i < |u| && High(u[i]) ==> i + 1 < |u| && Low(u[i + 1])
  }

  /** With three bytes for every unit, a name is converted exactly when its surrogates are paired. */
  lemma {:induction false} Accepted(u: seq<unit>, room: nat)
    requires room >= 3 * |Name(u)|
    ensures ToUtf8(u, room) == IllegalSequence || (ToUtf8(u, room).Done? && |ToUtf8(u, room).output| <= 3 * |Name(u)|)
    ensures ToUtf8(u, room).Done? <==> Paired(Name(u))
    decreases |u|
  {
    hide Put8, Put16, Name, Paired, Get16, Prefixed, ToUtf8;
    Utf8Step(u, room);
    NameStarts(u);
    if u != [] && u[0] != 0 {
      if Get16(u) == None {
        PairBroken(u);
      } else {
        var wc := Get16(u).value;
        PieceTaken(u);
        var n := |Put16(wc)|;
        NameAfter(u, n);
        Accepted(u[n..], room - |Put8(wc)|);
        PairedAfter(Name(u), n);
        PrefixedMeans(Put8(wc), ToUtf8(u[n..], room - |Put8(wc)|));
        assert Name(u)[n..] == Name(u[n..]);
      }
    }
  }

  lemma Utf8Step(u: seq<unit>, room: nat)
    ensures u == [] || u[0] == 0 ==> ToUtf8(u, room) == Done([])
    ensures u != [] && u[0] != 0 ==>
              match Get16(u)
              case None => ToUtf8(u, room) == IllegalSequence
              case Some(wc) =>
                if |Put8(wc)| > room then ToUtf8(u, room) == NameTooLong
                else ToUtf8(u, room) == Prefixed(Put8(wc), ToUtf8(u[|Put16(wc)|..], room - |Put8(wc)|))
  {
  }

  lemma Utf16Step(b: seq<byte>, room: nat)
    ensures b == [] || b[0] == 0 ==> ToUtf16(b, room) == Done([])
    ensures b != [] && b[0] != 0 ==>
              match Get8(b)
              case None => ToUtf16(b, room) == IllegalSequence
              case Some((wc, n)) =>
                if |Put16(wc)| > room then ToUtf16(b, room) == NameTooLong
                else ToUtf16(b, room) == Prefixed(Put16(wc), ToUtf16(b[n..], room - |Put16(wc)|))
  {
  }

  lemma PrefixedMeans<T>(head: seq<T>, c: Converted<T>)
    ensures Prefixed(head, c).Done? <==> c.Done?
    ensures c.Done? ==> Prefixed(head, c) == Done(head + c.output)
    ensures !c.Done? ==> Prefixed(head, c) == c
  {
  }

  lemma NameStarts(u: seq<unit>)
    ensures (u == [] || u[0] == 0) ==> Name(u) == [] && Paired(Name(u))
    ensures u != [] && u[0] != 0 ==> Name(u) != [] && Name(u)[0] == u[0]
  {
  }

  lemma PairBroken(u: seq<unit>)
    requires u != [] && u[0] != 0 && Get16(u) == None
    ensures !Paired(Name(u))
  {
    assert High(u[0]) && Name(u)[0] == u[0];
  }

  lemma PieceTaken(u: seq<unit>)
    requires u != [] && u[0] != 0 && Get16(u).Some?
    ensures var wc := Get16(u).value; var n := |Put16(wc)|;
            n <= |u| && 0 !in u[..n] && Put16(wc) == u[..n] && |Put8(wc)| <= 3 * n && wc != 0
            && Char(wc) && (n == 1 ==> !High(u[0])) && (n == 2 ==> High(u[0]) && Low(u[1])) && 1 <= n <= 2
  {
    Came16(u);
  }

  lemma PairedAfter(u: seq<unit>, n: nat)
    requires 1 <= n <= 2 && n <= |u|
    requires n == 1 ==> !High(u[0])
    requires n == 2 ==> High(u[0]) && Low(u[1])
    ensures Paired(u) <==> Paired(u[n..])
  {
    if Paired(u[n..]) {
      forall i | 0 <= i < |u| && High(u[i])
        ensures i + 1 < |u| && Low(u[i + 1])
      {
        if i >= n {
          assert High(u[n..][i - n]);
        }
      }
    }
  }

  /** A name that leaves the disk comes back as it was. */
  lemma {:induction false} RoundTrip16(u: seq<unit>, room: nat, back: nat)
    requires ToUtf8(u, room).Done? && back >= |Name(u)|
    ensures var b := ToUtf8(u, room).output;
            && |b| <= room && 0 !in b
            && ToUtf16(b, back) == Done(Name(u))
    decreases |u|
  {
    hide Put8, Put16, Name, Get8, Get16, Prefixed, ToUtf8, ToUtf16;
    Utf8Step(u, room);
    NameStarts(u);
    if u == [] || u[0] == 0 {
      Utf16Step([], back);
    } else {
      var wc := Get16(u).value;
      PieceTaken(u);
      var n := |Put16(wc)|;
      NameAfter(u, n);
      PrefixedMeans(Put8(wc), ToUtf8(u[n..], room - |Put8(wc)|));
      RoundTrip16(u[n..], room - |Put8(wc)|, back - n);
      var rest := ToUtf8(u[n..], room - |Put8(wc)|).output;
      Got8(wc, rest);
      NoZero(wc);
      Utf16Step(Put8(wc) + rest, back);
      assert (Put8(wc) + rest)[|Put8(wc)|..] == rest;
      PrefixedMeans(Put16(wc), ToUtf16(rest, back - n));
    }
  }

  lemma NoZero(wc: nat)
    requires Char(wc) && wc != 0
    ensures 0 !in Put8(wc)
  {
    Got8(wc, []);
    TailsNoZero(wc, Extra(wc));
  }

  lemma {:induction false} TailsNoZero(wc: nat, n: nat)
    ensures 0 !in Tails(wc, n)
  {
    if n > 0 {
      TailsNoZero(wc / 64, n - 1);
    }
  }

  // --- which UTF-8 comes back ---

  predicate Tailing(b: seq<byte>, from: nat, to: nat) {
    to <= |b| && forall i :: from <= i < to ==> 0x80 <= b[i] < 0xc0
  }

  /** The length of the character a text starts with, zero if it does not start with one in its proper form: the
      table of section 4 of RFC 3629, and the second halves of pairs if `halves` are let through. */
  function Proper(b: seq<byte>, halves: bool): (n: nat)
    ensures n <= |b|
  {
    if b == [] then 0
    else if b[0] < 0x80 then 1
    else if 0xc2 <= b[0] < 0xe0 && Tailing(b, 1, 2) then 2
    else if 0xe0 <= b[0] < 0xf0 && Tailing(b, 1, 3) && (b[0] == 0xe0 ==> b[1] >= 0xa0)
         && (b[0] == 0xed ==> b[1] < 0xa0 || (halves && b[1] >= 0xb0)) then 3
    else if 0xf0 <= b[0] < 0xf5 && Tailing(b, 1, 4) && (b[0] == 0xf0 ==> b[1] >= 0x90)
         && (b[0] == 0xf4 ==> b[1] < 0x90) then 4
    else 0
  }

  predicate AllProper(b: seq<byte>, halves: bool) {
    b == [] || (Proper(b, halves) > 0 && AllProper(b[Proper(b, halves)..], halves))
  }

  /** Text that is well formed by RFC 3629. */
  predicate WellFormed(b: seq<byte>) {
    AllProper(b, false)
  }

  lemma LongPut8(wc: nat)
    requires 0x20_0000 <= wc && Char(wc)
    ensures wc < 0x400_0000 ==>
              Put8(wc) == [0xf8 + wc / 0x100_0000, 0x80 + wc / 0x4_0000 % 0x40, 0x80 + wc / 0x1000 % 0x40,
                           0x80 + wc / 0x40 % 0x40, 0x80 + wc % 0x40]
    ensures 0x400_0000 <= wc ==>
              Put8(wc) == [0xfc + wc / 0x4000_0000, 0x80 + wc / 0x100_0000 % 0x40, 0x80 + wc / 0x4_0000 % 0x40,
                           0x80 + wc / 0x1000 % 0x40, 0x80 + wc / 0x40 % 0x40, 0x80 + wc % 0x40]
  {
    hide Tails;
    Powers();
    assert Pow64(4) == 0x100_0000 && Pow64(5) == 0x40 * Pow64(4);
    TailsShort(wc / 0x1000);
    TailsShort(wc);
    TailsLong(wc);
  }

  lemma TailsLong(wc: nat)
    ensures Tails(wc, 4) == Tails(wc / 0x1000, 2) + [0x80 + wc / 0x40 % 0x40, 0x80 + wc % 0x40]
    ensures Tails(wc, 5) == Tails(wc / 0x1000, 3) + [0x80 + wc / 0x40 % 0x40, 0x80 + wc % 0x40]
  {
    assert Tails(wc, 4) == Tails(wc / 0x40, 3) + [0x80 + wc % 0x40];
    assert Tails(wc / 0x40, 3) == Tails(wc / 0x40 / 0x40, 2) + [0x80 + wc / 0x40 % 0x40];
    assert Tails(wc, 5) == Tails(wc / 0x40, 4) + [0x80 + wc % 0x40];
    assert Tails(wc / 0x40, 4) == Tails(wc / 0x40 / 0x40, 3) + [0x80 + wc / 0x40 % 0x40];
    assert wc / 0x40 / 0x40 == wc / 0x1000;
  }

  lemma ShortPut8(wc: nat)
    requires wc < 0x20_0000
    ensures wc < 0x80 ==> Put8(wc) == [wc]
    ensures 0x80 <= wc < 0x800 ==> Put8(wc) == [0xc0 + wc / 0x40, 0x80 + wc % 0x40]
    ensures 0x800 <= wc < 0x1_0000 ==>
              Put8(wc) == [0xe0 + wc / 0x1000, 0x80 + wc / 0x40 % 0x40, 0x80 + wc % 0x40]
    ensures 0x1_0000 <= wc ==>
              Put8(wc) == [0xf0 + wc / 0x4_0000, 0x80 + wc / 0x1000 % 0x40, 0x80 + wc / 0x40 % 0x40, 0x80 + wc % 0x40]
  {
    hide Tails;
    Powers();
    TailsShort(wc);
  }

  lemma Powers()
    ensures Pow64(0) == 1 && Pow64(1) == 0x40 && Pow64(2) == 0x1000 && Pow64(3) == 0x4_0000
  {
    assert Pow64(1) == 0x40 && Pow64(2) == 0x40 * Pow64(1) && Pow64(3) == 0x40 * Pow64(2);
  }

  lemma TailsShort(wc: nat)
    ensures Tails(wc, 0) == []
    ensures Tails(wc, 1) == [0x80 + wc % 0x40]
    ensures Tails(wc, 2) == [0x80 + wc / 0x40 % 0x40, 0x80 + wc % 0x40]
    ensures Tails(wc, 3) == [0x80 + wc / 0x1000 % 0x40, 0x80 + wc / 0x40 % 0x40, 0x80 + wc % 0x40]
  {
    Tails1(wc);
    Tails1(wc / 0x40);
    Tails1(wc / 0x40 / 0x40);
    assert wc / 0x40 / 0x40 == wc / 0x1000;
  }

  lemma Tails1(wc: nat)
    ensures Tails(wc, 0) == []
    ensures Tails(wc, 1) == [0x80 + wc % 0x40]
    ensures Tails(wc, 2) == Tails(wc / 0x40, 1) + [0x80 + wc % 0x40]
    ensures Tails(wc, 3) == Tails(wc / 0x40, 2) + [0x80 + wc % 0x40]
  {
    assert Tails(wc, 1) == Tails(wc / 0x40, 0) + [0x80 + wc % 0x40];
  }

  lemma PutProper(wc: nat, rest: seq<byte>)
    requires Carried(wc)
    ensures Proper(Put8(wc) + rest, true) == |Put8(wc)|
  {
    hide Put8, Tails, Pow64, Tailing;
    ShortPut8(wc);
    var b := Put8(wc) + rest;
    if wc < 0x80 {
      assert b[0] == wc;
    } else {
      LeadPut(wc, rest);
    }
  }

  /** The bytes of a character of more than one byte, as the table has them. */
  lemma LeadPut(wc: nat, rest: seq<byte>)
    requires Carried(wc) && wc >= 0x80
    ensures var b, n := Put8(wc) + rest, |Put8(wc)|;
            && 2 <= n <= 4 && Tailing(b, 1, n)
            && (n == 2 ==> 0xc2 <= b[0] < 0xe0)
            && (n == 3 ==> 0xe0 <= b[0] < 0xf0 && (b[0] == 0xe0 ==> b[1] >= 0xa0)
                           && (b[0] == 0xed ==> b[1] < 0xa0 || b[1] >= 0xb0))
            && (n == 4 ==> 0xf0 <= b[0] < 0xf5 && (b[0] == 0xf0 ==> b[1] >= 0x90) && (b[0] == 0xf4 ==> b[1] < 0x90))
  {
    hide Put8, Tails, Pow64;
    ShortPut8(wc);
    var p := Put8(wc);
    assert forall i :: 0 <= i < |p| ==> (p + rest)[i] == p[i];
  }

  /** A character from its four digits in base 64. */
  function FromDigits(a: nat, b: nat, c: nat, d: nat): nat {
    a * 0x4_0000 + b * 0x1000 + c * 0x40 + d
  }

  lemma DigitsBack(a: nat, b: nat, c: nat, d: nat)
    requires b < 0x40 && c < 0x40 && d < 0x40
    ensures var wc := FromDigits(a, b, c, d);
            wc % 0x40 == d && wc / 0x40 % 0x40 == c && wc / 0x1000 % 0x40 == b && wc / 0x4_0000 == a
            && wc / 0x40 == a * 0x1000 + b * 0x40 + c && wc / 0x1000 == a * 0x40 + b
  {
    var q1, q2 := a * 0x1000 + b * 0x40 + c, a * 0x40 + b;
    OneDigit(q1, d);
    OneDigit(q2, c);
    OneDigit(a, b);
    DividedAgain(FromDigits(a, b, c, d));
  }

  lemma OneDigit(q: nat, d: nat)
    requires d < 0x40
    ensures (q * 0x40 + d) / 0x40 == q && (q * 0x40 + d) % 0x40 == d
  {
  }

  lemma DividedAgain(n: nat)
    ensures n / 0x1000 == n / 0x40 / 0x40 && n / 0x4_0000 == n / 0x40 / 0x40 / 0x40
  {
  }

  function ProperChar(b: seq<byte>): nat
    requires Proper(b, true) > 0
  {
    var n := Proper(b, true);
    if n == 1 then b[0]
    else if n == 2 then FromDigits(0, 0, b[0] - 0xc0, b[1] - 0x80)
    else if n == 3 then FromDigits(0, b[0] - 0xe0, b[1] - 0x80, b[2] - 0x80)
    else FromDigits(b[0] - 0xf0, b[1] - 0x80, b[2] - 0x80, b[3] - 0x80)
  }

  lemma ProperPut(b: seq<byte>)
    requires Proper(b, true) > 0
    ensures Carried(ProperChar(b)) && Put8(ProperChar(b)) == b[..Proper(b, true)]
    ensures ProperChar(b) == 0 <==> b[0] == 0
  {
    hide Put8, FromDigits;
    var n := Proper(b, true);
    if n == 1 {
      ShortPut8(b[0]);
      assert b[..1] == [b[0]];
    } else if n == 2 {
      TwoPut(b[0] - 0xc0, b[1] - 0x80);
      assert b[..2] == [b[0], b[1]];
    } else if n == 3 {
      ThreePut(b[0] - 0xe0, b[1] - 0x80, b[2] - 0x80);
      assert b[..3] == [b[0], b[1], b[2]];
    } else {
      FourPut(b[0] - 0xf0, b[1] - 0x80, b[2] - 0x80, b[3] - 0x80);
      assert b[..4] == [b[0], b[1], b[2], b[3]];
    }
  }

  lemma TwoPut(c: nat, d: nat)
    requires 2 <= c < 0x20 && d < 0x40
    ensures var wc := FromDigits(0, 0, c, d); wc != 0 && Carried(wc) && Put8(wc) == [0xc0 + c, 0x80 + d]
  {
    hide Put8;
    DigitsBack(0, 0, c, d);
    ShortPut8(FromDigits(0, 0, c, d));
  }

  lemma ThreePut(b: nat, c: nat, d: nat)
    requires b < 0x10 && c < 0x40 && d < 0x40 && (b == 0 ==> c >= 0x20) && (b == 0xd ==> c < 0x20 || c >= 0x30)
    ensures var wc := FromDigits(0, b, c, d);
            wc != 0 && Carried(wc) && Put8(wc) == [0xe0 + b, 0x80 + c, 0x80 + d]
  {
    hide Put8;
    DigitsBack(0, b, c, d);
    ShortPut8(FromDigits(0, b, c, d));
  }

  lemma FourPut(a: nat, b: nat, c: nat, d: nat)
    requires a < 5 && b < 0x40 && c < 0x40 && d < 0x40 && (a == 0 ==> b >= 0x10) && (a == 4 ==> b < 0x10)
    ensures var wc := FromDigits(a, b, c, d);
            wc != 0 && Carried(wc) && Put8(wc) == [0xf0 + a, 0x80 + b, 0x80 + c, 0x80 + d]
  {
    hide Put8;
    DigitsBack(a, b, c, d);
    ShortPut8(FromDigits(a, b, c, d));
  }

  lemma {:induction false} StrictProper(b: seq<byte>)
    requires WellFormed(b)
    ensures AllProper(b, true)
    decreases |b|
  {
    if b != [] {
      StrictProper(b[Proper(b, false)..]);
    }
  }

  /** Whatever name leaves the disk is in its proper form. */
  lemma {:induction false} LeavesProper(u: seq<unit>, room: nat)
    requires ToUtf8(u, room).Done?
    ensures AllProper(ToUtf8(u, room).output, true)
    decreases |u|
  {
    hide Put8, Put16, Get16, Prefixed, ToUtf8, Proper;
    Utf8Step(u, room);
    if u != [] && u[0] != 0 {
      var wc := Get16(u).value;
      PieceTaken(u);
      CarriedGot(u);
      PrefixedMeans(Put8(wc), ToUtf8(u[|Put16(wc)|..], room - |Put8(wc)|));
      LeavesProper(u[|Put16(wc)|..], room - |Put8(wc)|);
      var rest := ToUtf8(u[|Put16(wc)|..], room - |Put8(wc)|).output;
      PutProper(wc, rest);
      assert (Put8(wc) + rest)[|Put8(wc)|..] == rest;
    }
  }

  lemma CarriedGot(u: seq<unit>)
    requires u != [] && Get16(u).Some?
    ensures Carried(Get16(u).value)
  {
  }

  lemma {:induction false} ProperReturns(b: seq<byte>, room: nat, back: nat)
    requires AllProper(b, true) && 0 !in b && room >= |b| && back >= |b|
    ensures ToUtf16(b, room).Done? && 0 !in ToUtf16(b, room).output
    ensures ToUtf8(ToUtf16(b, room).output, back) == Done(b)
    decreases |b|
  {
    hide Put8, Put16, Get8, Get16, Prefixed, ToUtf8, ToUtf16, Proper, ProperChar;
    Utf16Step(b, room);
    if b == [] {
      Utf8Step([], back);
    } else {
      var wc, n := ProperChar(b), Proper(b, true);
      ProperPut(b);
      var rest := b[n..];
      assert b == Put8(wc) + rest;
      Got8(wc, rest);
      assert b[0] in b;
      PutSmaller(wc);
      ProperReturns(rest, room - |Put16(wc)|, back - n);
      PrefixedMeans(Put16(wc), ToUtf16(rest, room - |Put16(wc)|));
      var u := ToUtf16(rest, room - |Put16(wc)|).output;
      Got16(wc, u);
      Utf8Step(Put16(wc) + u, back);
      assert (Put16(wc) + u)[|Put16(wc)|..] == u;
      PrefixedMeans(Put8(wc), ToUtf8(u, back - n));
    }
  }

  lemma PutSmaller(wc: nat)
    requires Carried(wc)
    ensures |Put16(wc)| <= |Put8(wc)| && (wc != 0 ==> 0 !in Put16(wc))
  {
  }

  /** A name given from outside comes back as it was exactly when each of its characters is in its proper form. */
  lemma RoundTrip8(b: seq<byte>, room: nat, back: nat)
    requires 0 !in b && room >= |b| && back >= |b|
    ensures (ToUtf16(b, room).Done? && ToUtf8(ToUtf16(b, room).output, back) == Done(b)) <==> AllProper(b, true)
  {
    hide ToUtf8, ToUtf16, AllProper;
    if AllProper(b, true) {
      ProperReturns(b, room, back);
    } else if ToUtf16(b, room).Done? && ToUtf8(ToUtf16(b, room).output, back) == Done(b) {
      LeavesProper(ToUtf16(b, room).output, back);
    }
  }

  /** So every well-formed name comes back. */
  lemma RoundTripWellFormed(b: seq<byte>, room: nat, back: nat)
    requires 0 !in b && room >= |b| && back >= |b| && WellFormed(b)
    ensures ToUtf16(b, room).Done? && ToUtf8(ToUtf16(b, room).output, back) == Done(b)
  {
    StrictProper(b);
    RoundTrip8(b, room, back);
  }

  /** A name from outside converts to an empty one if and only if it is empty itself or starts with what decodes to
      zero. */
  lemma EmptyName(b: seq<byte>, room: nat)
    requires ToUtf16(b, room).Done?
    ensures Name(ToUtf16(b, room).output) == [] <==> b == [] || (Get8(b).Some? && Get8(b).value.0 == 0)
  {
    hide Put16, Get8, ToUtf16, Prefixed;
    Utf16Step(b, room);
    if b != [] && b[0] == 0 {
      ZeroGot(b);
    } else if b != [] {
      var (wc, n) := Get8(b).value;
      PrefixedMeans(Put16(wc), ToUtf16(b[n..], room - |Put16(wc)|));
      FirstUnit(wc);
    }
  }

  lemma ZeroGot(b: seq<byte>)
    requires b != [] && b[0] == 0
    ensures Get8(b) == Some((0, 1))
  {
  }

  lemma FirstUnit(wc: nat)
    ensures Put16(wc) != [] && (Put16(wc)[0] == 0 <==> wc == 0)
  {
  }

  lemma OverlongGot()
    ensures Get8([0xc0, 0x80]) == Some((0, 2))
  {
    var b := [0xc0, 0x80];
    Powers();
    Got8Pair(b);
  }

  lemma Got8Pair(b: seq<byte>)
    requires |b| == 2 && 0xc0 <= b[0] < 0xe0
    ensures var lead: nat, tail: nat := b[0], b[1]; Get8(b) == Some(((lead - 0xc0) * 0x40 + tail % 0x40, 2))
  {
    Powers();
    assert b[1..2] == [b[1]];
    assert Sixes([b[1]]) == b[1] % 0x40;
  }

  /** So does the overlong form of zero, which has no zero byte in it. */
  lemma OverlongZero(room: nat)
    requires room > 0
    ensures ToUtf16([0xc0, 0x80], room) == Done([0]) && Name([0]) == []
  {
    hide ToUtf16, Prefixed;
    var b := [0xc0, 0x80];
    Utf16Step(b, room);
    Utf16Step([], room - 1);
    OverlongGot();
    assert b[2..] == [];
    PrefixedMeans([0], ToUtf16([], room - 1));
  }

  // --- the forms in numbers ---

  /** Surrogate pairs as section 2 of RFC 2781 has them: ten bits of what is above FFFF in each half, the high ones
      first. A first half without a second one is no character; anything else is the character of its number. */
  lemma UnitsAre(wc: nat, high: nat, low: nat, rest: seq<unit>)
    requires high < 0x1_0000 && low < 0x1_0000
    ensures wc < 0x1_0000 ==> Put16(wc) == [wc]
    ensures 0x1_0000 <= wc <= 0x10_ffff ==>
              |Put16(wc)| == 2
              && var a: nat, b: nat := Put16(wc)[0], Put16(wc)[1];
                 && 0xd800 <= a < 0xdc00 && 0xdc00 <= b < 0xe000
                 && wc == 0x1_0000 + 0x400 * (a - 0xd800) + (b - 0xdc00)
    ensures !(0xd800 <= high < 0xdc00) ==> Get16([high] + rest) == Some(high)
    ensures 0xd800 <= high < 0xdc00 && 0xdc00 <= low < 0xe000 ==>
              Get16([high, low] + rest) == Some(0x1_0000 + 0x400 * (high - 0xd800) + (low - 0xdc00))
    ensures 0xd800 <= high < 0xdc00 && !(0xdc00 <= low < 0xe000) ==> Get16([high, low] + rest) == None
    ensures 0xd800 <= high < 0xdc00 ==> Get16([high]) == None
  {
    if 0xd800 <= high < 0xdc00 && 0xdc00 <= low < 0xe000 {
      HalfBack(0xd800, high - 0xd800);
      HalfBack(0xdc00, low - 0xdc00);
    }
  }
}
