/** Bytes, bits and the small arithmetic shared by every component. */
module Bytes {

  type byte = x: int | 0 <= x < 256
  type bit = x: int | 0 <= x < 2

  const SECTOR: nat := 256              // DISK_BYTES_PER_SECTOR

  datatype Option<+T> = None | Some(value: T)

  function Pow2(n: nat): (p: nat)
    ensures p >= 1
  {
    if n == 0 then 1 else 2 * Pow2(n - 1)
  }

  /** The low n bits of b, most significant first. */
  function BitsOf(b: nat, n: nat): (s: seq<bit>)
    ensures |s| == n
  {
    if n == 0 then [] else BitsOf(b / 2, n - 1) + [b % 2]
  }

  /** The number a string of bits stands for, most significant first. */
  function Value(s: seq<bit>): (v: nat)
    ensures v < Pow2(|s|)
  {
    if s == [] then 0 else 2 * Value(s[..|s| - 1]) + s[|s| - 1]
  }

  lemma {:induction false} ValueOfBits(b: nat, n: nat)
    requires b < Pow2(n)
    ensures Value(BitsOf(b, n)) == b
  {
    if n > 0 {
      ValueOfBits(b / 2, n - 1);
      assert BitsOf(b, n)[..n - 1] == BitsOf(b / 2, n - 1);
    }
  }

  /** What masking with 1 << k selects. */
  function TestBit(b: nat, k: nat): bit {
    if k == 0 then b % 2 else TestBit(b / 2, k - 1)
  }

  lemma {:induction false} BitAt(b: nat, n: nat, k: nat)
    requires k < n
    ensures BitsOf(b, n)[k] == TestBit(b, n - 1 - k)
  {
    if k < n - 1 {
      BitAt(b / 2, n - 1, k);
    }
  }

  /** Exclusive or of the low n bits. */
  function Xor(a: nat, b: nat, n: nat): (r: nat)
    ensures r < Pow2(n)
  {
    if n == 0 then 0 else 2 * Xor(a / 2, b / 2, n - 1) + (a + b) % 2
  }

  function Zeros(n: nat): (s: seq<bit>)
    ensures |s| == n && forall i :: 0 <= i < n ==> s[i] == 0
  {
    seq(n, _ => 0)
  }

  lemma SubSlice<T>(d: seq<T>, a: nat, b: nat, i: nat, j: nat)
    requires a <= b <= |d| && i <= j <= b - a
    ensures d[a..b][i..j] == d[a + i..a + j]
  {
    var x, y := d[a..b], d[a + i..a + j];
    forall k | 0 <= k < j - i ensures x[i..j][k] == y[k] {
      assert x[i + k] == d[a + (i + k)];
    }
  }

  function Sum(s: seq<byte>): nat {
    if s == [] then 0 else Sum(s[..|s| - 1]) + s[|s| - 1]
  }

  lemma SumSnoc(s: seq<byte>, k: nat)
    requires k < |s|
    ensures Sum(s[..k + 1]) == Sum(s[..k]) + s[k]
  {
    assert s[..k + 1][..k] == s[..k];
  }
}
