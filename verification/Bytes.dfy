/** Bytes, fixed-width integers and their little-endian encodings. */
module Bytes {
  newtype byte = x: int | 0 <= x < 256

  const TWO_32: nat := 0x1_0000_0000
  const TWO_64: nat := 0x1_0000_0000_0000_0000

  type u32 = x: int | 0 <= x < TWO_32
  type u64 = x: int | 0 <= x < TWO_64
  type i32 = x: int | -0x8000_0000 <= x < 0x8000_0000
  type i64 = x: int | -0x8000_0000_0000_0000 <= x < 0x8000_0000_0000_0000

  type Hash20 = s: seq<byte> | |s| == 20 witness seq(20, _ => 0 as byte)
  type Hash32 = s: seq<byte> | |s| == 32 witness seq(32, _ => 0 as byte)

  datatype Option<+T> = None | Some(value: T) {
    predicate IsFailure() { None? }
    function PropagateFailure<U>(): Option<U> requires None? { None }
    function Extract(): T requires Some? { value }
  }

  function Pow(b: nat, e: nat): (p: nat)
    ensures b > 0 ==> p > 0
  {
    if e == 0 then 1 else b * Pow(b, e - 1)
  }

  /** The `k` low-order bytes of `n`, least significant first (`to_le_bytes` of a cast). */
  function LE(n: nat, k: nat): (s: seq<byte>)
    ensures |s| == k
    decreases k, n
  {
    if k == 0 then [] else [(n % 256) as byte] + LE(n / 256, k - 1)
  }

  function FromLE(s: seq<byte>): nat {
    if s == [] then 0 else s[0] as nat + 256 * FromLE(s[1..])
  }

  lemma {:induction false} LERoundTrip(n: nat, k: nat)
    ensures n < Pow(256, k) ==> FromLE(LE(n, k)) == n
    decreases k
  {
    if k > 0 {
      LERoundTrip(n / 256, k - 1);
      assert LE(n, k)[1..] == LE(n / 256, k - 1);
    }
  }

  lemma {:induction false} FromLERoundTrip(s: seq<byte>)
    ensures FromLE(s) < Pow(256, |s|)
    ensures LE(FromLE(s), |s|) == s
  {
    if s != [] {
      FromLERoundTrip(s[1..]);
      LowByte(s[0], FromLE(s[1..]), |s| - 1);
      assert [s[0]] + s[1..] == s;
    }
  }

  lemma LowByte(low: byte, high: nat, k: nat)
    ensures LE(low as nat + 256 * high, k + 1) == [low] + LE(high, k)
    ensures high < Pow(256, k) ==> low as nat + 256 * high < Pow(256, k + 1)
  {
    var n := low as nat + 256 * high;
    assert n % 256 == low as nat && n / 256 == high;
  }

  /** The widths the wire formats use. */
  lemma WidthValues()
    ensures Pow(256, 1) == 256
    ensures Pow(256, 2) == 0x1_0000
    ensures Pow(256, 4) == TWO_32
    ensures Pow(256, 8) == TWO_64
  {
    assert Pow(256, 4) == 256 * Pow(256, 3) == 256 * (256 * Pow(256, 2));
    assert Pow(256, 8) == 256 * Pow(256, 7) == 256 * (256 * (256 * (256 * Pow(256, 4)))) by {
      assert Pow(256, 7) == 256 * Pow(256, 6);
      assert Pow(256, 6) == 256 * Pow(256, 5);
      assert Pow(256, 5) == 256 * Pow(256, 4);
    }
  }

  /** Two's complement: an `n`-byte signed integer read as unsigned, and back. */
  function Unsigned(x: int, modulus: int): (u: nat)
    requires 0 < modulus && -modulus <= x < modulus
    ensures u < modulus
  {
    if x < 0 then x + modulus else x
  }

  function Signed(u: nat, modulus: int): (x: int) {
    if 2 * u < modulus then u else u - modulus
  }

  /** The low byte comes first. */
  lemma LittleEndian(n: nat)
    ensures LE(n, 2) == [(n % 256) as byte, (n / 0x100 % 256) as byte]
    ensures LE(n, 4) == [(n % 256) as byte, (n / 0x100 % 256) as byte, (n / 0x1_0000 % 256) as byte,
                         (n / 0x100_0000 % 256) as byte]
    ensures LE(n, 8) == LE(n, 4) + LE(n / 0x1_0000_0000, 4)
  {
    var a, b := n / 0x100, n / 0x1_0000;
    assert LE(n, 2) == [(n % 256) as byte] + LE(a, 1) && LE(a, 1) == [(a % 256) as byte] + LE(b, 0);
    FourFront(n, 0);
    FourFront(n, 4);
  }

  lemma FourFront(n: nat, k: nat)
    ensures LE(n, 4 + k) == [(n % 256) as byte, (n / 0x100 % 256) as byte, (n / 0x1_0000 % 256) as byte,
                             (n / 0x100_0000 % 256) as byte] + LE(n / 0x1_0000_0000, k)
  {
    var a, b, c := n / 0x100, n / 0x1_0000, n / 0x100_0000;
    assert a / 256 == b && b / 256 == c && c / 256 == n / 0x1_0000_0000;
    assert LE(n, 4 + k) == [(n % 256) as byte] + LE(a, 3 + k);
    assert LE(a, 3 + k) == [(a % 256) as byte] + LE(b, 2 + k);
    assert LE(b, 2 + k) == [(b % 256) as byte] + LE(c, 1 + k);
    assert LE(c, 1 + k) == [(c % 256) as byte] + LE(n / 0x1_0000_0000, k);
  }

  /** Two's complement is arithmetic modulo 2^32 and 2^64. */
  lemma TwosComplement(x: i32, y: i64, u: u32, v: u64)
    ensures Unsigned(x, TWO_32) == x % 0x1_0000_0000 && Unsigned(y, TWO_64) == y % 0x1_0000_0000_0000_0000
    ensures -0x8000_0000 <= Signed(u, TWO_32) < 0x8000_0000 && Signed(u, TWO_32) % 0x1_0000_0000 == u
    ensures -0x8000_0000_0000_0000 <= Signed(v, TWO_64) < 0x8000_0000_0000_0000
    ensures Signed(v, TWO_64) % 0x1_0000_0000_0000_0000 == v
  {
  }

  /** The bytes of an ASCII string. */
  function Ascii(s: string): (b: seq<byte>)
    ensures |b| == |s|
  {
    seq(|s|, i requires 0 <= i < |s| => (s[i] as int % 256) as byte)
  }

  function Reverse<T>(s: seq<T>): (r: seq<T>)
    ensures |r| == |s| && forall i :: 0 <= i < |s| ==> r[i] == s[|s| - 1 - i]
  {
    seq(|s|, i requires 0 <= i < |s| => s[|s| - 1 - i])
  }
}
