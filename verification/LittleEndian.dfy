/** Numbers as bytes, lowest byte first. */
module LittleEndian {
  import opened Content

  function Power(k: nat): nat {
    if k == 0 then 1 else 256 * Power(k - 1)
  }

  /** The `k` low bytes of a number, lowest first. */
  function Little(n: nat, k: nat): (b: seq<byte>)
    ensures |b| == k
  {
    if k == 0 then [] else [n % 256] + Little(n / 256, k - 1)
  }

  function Value(b: seq<byte>): nat {
    if b == [] then 0 else b[0] + 256 * Value(b[1..])
  }

  lemma {:induction false} ValueOfLittle(n: nat, k: nat)
    requires n < Power(k)
    ensures Value(Little(n, k)) == n
  {
    if k > 0 {
      ValueOfLittle(n / 256, k - 1);
    }
  }

  lemma Widths()
    ensures Power(4) == 0x1_0000_0000 && Power(8) == 0x1_0000_0000_0000_0000
  {
    assert Power(1) == 256 && Power(2) == 0x1_0000 && Power(3) == 0x100_0000;
    assert Power(5) == 256 * Power(4) && Power(6) == 256 * Power(5) && Power(7) == 256 * Power(6);
  }

  /** Byte by byte: the i-th stands for a power of 256. */
  lemma {:induction false} LittleByte(n: nat, k: nat, i: nat)
    requires i < k
    ensures Power(i) > 0 && Little(n, k)[i] == n / Power(i) % 256
  {
    if i > 0 {
      LittleByte(n / 256, k - 1, i - 1);
      DivideTwice(n, Power(i - 1));
    }
  }

  lemma DivideTwice(n: nat, m: nat)
    requires m > 0
    ensures n / 256 / m == n / (256 * m)
  {
    var q, r := n / 256 / m, n / 256 % m;
    assert n / 256 == q * m + r;
    assert n == 256 * (q * m + r) + n % 256;
    assert n == (256 * m) * q + (256 * r + n % 256);
    assert 256 * r + n % 256 < 256 * m;
    Quotient(n, 256 * m, q, 256 * r + n % 256);
  }

  lemma Quotient(n: nat, m: nat, q: nat, r: nat)
    requires m > 0 && r < m && n == m * q + r
    ensures n / m == q
  {
    QuotientOf(q, r, m);
  }

  lemma Narrow(n: nat)
    ensures Little(n, 2) == [n % 256, n / 256 % 256]
  {
    assert Little(n / 256, 1) == [n / 256 % 256] + Little(n / 256 / 256, 0);
  }

  /** And back. */
  lemma {:induction false} LittleOfValue(b: seq<byte>)
    ensures Little(Value(b), |b|) == b
  {
    if b != [] {
      LittleOfValue(b[1..]);
      assert Value(b) % 256 == b[0] && Value(b) / 256 == Value(b[1..]);
    }
  }
}
