/** Fixed-width byte strings: the integer layouts that the two chains and the relayer hash. */
module Bytes {
  import opened Prelude

  type byte = x: nat | x < 256

  function Pow256(n: nat): (p: nat)
    ensures p > 0
  {
    if n == 0 then 1 else 256 * Pow256(n - 1)
  }

  const U32_LIMIT: nat := 0x1_0000_0000
  const U128_LIMIT: nat := 0x1_0000_0000_0000_0000_0000_0000_0000_0000

  const ADDRESS_LIMIT: nat := 0x1_0000_0000_0000_0000_0000_0000_0000_0000_0000_0000
  const U256_LIMIT: nat := 0x1_0000_0000_0000_0000_0000_0000_0000_0000_0000_0000_0000_0000_0000_0000_0000_0000

  type U128 = x: nat | x < U128_LIMIT
  type U256 = x: nat | x < U256_LIMIT
  /** A 32-byte word, read as the big-endian number it spells. */
  type Bytes32 = U256
  /** A 20-byte Ethereum address. */
  type Address = x: nat | x < ADDRESS_LIMIT

  /** The limits are the powers of 256 that the byte layouts need. */
  lemma Widths()
    ensures Pow256(16) == U128_LIMIT && Pow256(20) == ADDRESS_LIMIT && Pow256(32) == U256_LIMIT
  {
    assert Pow256(4) == U32_LIMIT;
    Pow256Sum(4, 4);
    Pow256Sum(8, 8);
    Pow256Sum(16, 4);
    Pow256Sum(16, 16);
  }

  lemma {:induction false} Pow256Sum(m: nat, n: nat)
    ensures Pow256(m + n) == Pow256(m) * Pow256(n)
  {
    if n > 0 {
      Pow256Sum(m, n - 1);
      assert Pow256(m + n) == 256 * Pow256(m + (n - 1));
    }
  }

  function BigEndian(x: nat, n: nat): (b: seq<byte>)
    ensures |b| == n
  {
    if n == 0 then [] else BigEndian(x / 256, n - 1) + [x % 256]
  }

  function FromBigEndian(b: seq<byte>): nat {
    if b == [] then 0 else 256 * FromBigEndian(b[..|b| - 1]) + b[|b| - 1]
  }

  function LittleEndian(x: nat, n: nat): (b: seq<byte>)
    ensures |b| == n
  {
    if n == 0 then [] else [x % 256] + LittleEndian(x / 256, n - 1)
  }

  function FromLittleEndian(b: seq<byte>): nat {
    if b == [] then 0 else b[0] + 256 * FromLittleEndian(b[1..])
  }

  /** Byte `k` of a big-endian spelling is the digit of weight 256^(n - 1 - k). */
  lemma {:induction false} BigEndianDigit(x: nat, n: nat, k: nat)
    requires k < n
    ensures BigEndian(x, n)[k] == x / Pow256(n - 1 - k) % 256
  {
    if k < n - 1 {
      BigEndianDigit(x / 256, n - 1, k);
      DivideTwice(x, Pow256(n - 2 - k));
    }
  }

  /** Byte `k` of a little-endian spelling is the digit of weight 256^k. */
  lemma {:induction false} LittleEndianDigit(x: nat, n: nat, k: nat)
    requires k < n
    ensures LittleEndian(x, n)[k] == x / Pow256(k) % 256
  {
    if k > 0 {
      LittleEndianDigit(x / 256, n - 1, k - 1);
      DivideTwice(x, Pow256(k - 1));
    }
  }

  lemma DivideTwice(x: nat, m: nat)
    requires m > 0
    ensures x / 256 / m == x / (256 * m)
  {
    var (q, r) := (x / 256, x % 256);
    var (p, t) := (q / m, q % m);
    assert q == m * p + t;
    assert x == 256 * (m * p + t) + r;
    Regroup(m, p, t);
    QuotientUnique(x, 256 * m, p, 256 * t + r);
  }

  lemma {:induction false} BigEndianRoundTrip(x: nat, n: nat)
    requires x < Pow256(n)
    ensures FromBigEndian(BigEndian(x, n)) == x
  {
    if n > 0 {
      BigEndianRoundTrip(x / 256, n - 1);
      assert BigEndian(x, n)[..n - 1] == BigEndian(x / 256, n - 1);
    }
  }

  lemma {:induction false} LittleEndianRoundTrip(x: nat, n: nat)
    requires x < Pow256(n)
    ensures FromLittleEndian(LittleEndian(x, n)) == x
  {
    if n > 0 {
      LittleEndianRoundTrip(x / 256, n - 1);
    }
  }

  lemma {:induction false} FromBigEndianBounded(b: seq<byte>)
    ensures FromBigEndian(b) < Pow256(|b|)
  {
    if b != [] {
      FromBigEndianBounded(b[..|b| - 1]);
    }
  }

  /** Writing back what was read reproduces the bytes. */
  lemma {:induction false} FromBigEndianRoundTrip(b: seq<byte>)
    ensures BigEndian(FromBigEndian(b), |b|) == b
  {
    if b != [] {
      var front := b[..|b| - 1];
      FromBigEndianRoundTrip(front);
      assert (256 * FromBigEndian(front) + b[|b| - 1]) / 256 == FromBigEndian(front);
      assert b == front + [b[|b| - 1]];
    }
  }

  lemma {:induction false} FromLittleEndianBounded(b: seq<byte>)
    ensures FromLittleEndian(b) < Pow256(|b|)
  {
    if b != [] {
      FromLittleEndianBounded(b[1..]);
    }
  }

  /** The low 20 bytes of a word, as `address(uint160(uint256(word)))` keeps them. */
  function ToAddress(word: Bytes32): Address {
    word % ADDRESS_LIMIT
  }

  function FromAddress(a: Address): Bytes32 {
    a
  }
}
