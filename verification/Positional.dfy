/** Positional notation, most significant digit first. */
module Positional {
  import opened Bytes

  type Base = b: int | 2 <= b <= 256 witness 2

  function Val(b: Base, ds: seq<byte>): nat {
    if ds == [] then 0 else Val(b, ds[..|ds| - 1]) * b + ds[|ds| - 1] as nat
  }

  ghost predicate AreDigits(b: Base, ds: seq<byte>) {
    forall i :: 0 <= i < |ds| ==> ds[i] as int < b
  }

  /** No leading zero digit. */
  predicate Minimal(ds: seq<byte>) {
    ds == [] || ds[0] != 0
  }

  /** The digits of `n`, with no leading zero: none at all for zero. */
  function Digits(b: Base, n: nat): (ds: seq<byte>)
    ensures AreDigits(b, ds) && Minimal(ds)
    ensures n > 0 ==> ds != []
  {
    if n == 0 then []
    else if n < b then [n as byte]
    else
      DivLess(n, b);
      Digits(b, n / b) + [(n % b) as byte]
  }

  function Zeros(n: nat): (s: seq<byte>)
    ensures |s| == n
  {
    seq(n, _ => 0)
  }

  function LeadingZeros(ds: seq<byte>): (z: nat)
    ensures z <= |ds|
    ensures ds[..z] == Zeros(z)
    ensures Minimal(ds[z..])
  {
    if ds == [] || ds[0] != 0 then 0
    else
      var z := 1 + LeadingZeros(ds[1..]);
      assert ds[..z] == [0] + ds[1..][..z - 1] && ds[z..] == ds[1..][z - 1..];
      z
  }

  lemma ValSnoc(b: Base, ds: seq<byte>, d: byte)
    ensures Val(b, ds + [d]) == Val(b, ds) * b + d as nat
  {
    assert (ds + [d])[..|ds|] == ds;
  }

  lemma {:induction false} DigitsVal(b: Base, n: nat)
    ensures Val(b, Digits(b, n)) == n
  {
    if n >= b {
      DivLess(n, b);
      DigitsVal(b, n / b);
      ValSnoc(b, Digits(b, n / b), (n % b) as byte);
      DivModIdentity(n, b);
    } else if n > 0 {
      assert Digits(b, n)[..0] == [];
    }
  }

  lemma {:induction false} ValDigits(b: Base, ds: seq<byte>)
    requires AreDigits(b, ds) && Minimal(ds)
    ensures Digits(b, Val(b, ds)) == ds
  {
    if ds != [] {
      var hi, d := ds[..|ds| - 1], ds[|ds| - 1] as nat;
      ValDigits(b, hi);
      var v := Val(b, hi);
      DivMod(v, b, d);
      assert ds == hi + [d as byte];
      if hi == [] {
        assert v == 0 && d > 0;
      } else {
        assert v > 0;
        MulAtLeast(v, b);
      }
    }
  }

  lemma DivLess(n: nat, b: int)
    requires 2 <= b <= n
    ensures 0 < n / b < n
  {
  }

  lemma DivModIdentity(n: nat, b: int)
    requires b > 0
    ensures n / b * b + n % b == n
  {
  }

  lemma DivMod(q: nat, b: int, r: nat)
    requires 0 <= r < b
    ensures (q * b + r) / b == q && (q * b + r) % b == r
  {
    var n := q * b + r;
    var k := n / b - q;
    assert k * b == n / b * b - q * b == r - n % b;
    if k >= 1 { MulAtLeast(k, b); }
  }

  lemma MulAtLeast(k: nat, b: nat)
    requires k >= 1
    ensures k * b >= b
  {
    assert k * b == (k - 1) * b + b;
  }

  lemma MulAssoc(x: int, y: int, z: int)
    ensures x * (y * z) == (x * y) * z
  {
  }

  lemma {:induction false} PowAdd(b: nat, m: nat, n: nat)
    ensures Pow(b, m + n) == Pow(b, m) * Pow(b, n)
  {
    if m > 0 {
      PowAdd(b, m - 1, n);
      MulAssoc(b, Pow(b, m - 1), Pow(b, n));
    }
  }

  lemma ValOne(b: Base, d: byte)
    ensures Val(b, [d]) == d as nat
  {
    assert [d][..0] == [];
  }

  lemma {:induction false} ValConcat(b: Base, xs: seq<byte>, ys: seq<byte>)
    ensures Val(b, xs + ys) == Val(b, xs) * Pow(b, |ys|) + Val(b, ys)
  {
    if ys == [] {
      assert xs + ys == xs;
    } else {
      var yi, d := ys[..|ys| - 1], ys[|ys| - 1] as nat;
      assert (xs + ys)[..|xs + ys| - 1] == xs + yi;
      ValConcat(b, xs, yi);
      HornerStep(Val(b, xs), Pow(b, |yi|), Val(b, yi), b, d);
    }
  }

  /** A digit in front counts for its power of the base. */
  lemma ValLead(b: Base, d: byte, ds: seq<byte>)
    ensures Val(b, [d] + ds) == d as nat * Pow(b, |ds|) + Val(b, ds)
  {
    ValConcat(b, [d], ds);
    ValOne(b, d);
  }

  lemma HornerStep(v: nat, p: nat, w: nat, b: nat, d: nat)
    ensures (v * p + w) * b + d == v * (b * p) + (w * b + d)
  {
    assert (v * p) * b == v * (b * p);
    assert (v * p + w) * b == (v * p) * b + w * b;
  }

  lemma {:induction false} ValBound(b: Base, ds: seq<byte>)
    requires AreDigits(b, ds)
    ensures Val(b, ds) < Pow(b, |ds|)
  {
    if ds != [] {
      var hi := ds[..|ds| - 1];
      ValBound(b, hi);
      assert (Val(b, hi) + 1) * b == Val(b, hi) * b + b;
      MulMono(Val(b, hi) + 1, Pow(b, |hi|), b);
    }
  }

  /** Products grow with their factors. */
  lemma ProductMono(x: nat, y: nat, p: nat, q: nat)
    requires x <= y && p <= q
    ensures x * p <= y * q
    ensures x < y && q > 0 ==> x * p < y * q
  {
    MulMono(p, q, x);
    MulMono(x, y, q);
    if x < y { MulMono(x + 1, y, q); }
  }

  lemma MulMono(x: nat, y: nat, k: nat)
    requires x <= y
    ensures x * k <= y * k
  {
    assert (y - x) * k >= 0;
    assert (y - x) * k == y * k - x * k;
  }

  lemma {:induction false} ValZeros(b: Base, n: nat)
    ensures Val(b, Zeros(n)) == 0
  {
    if n > 0 {
      assert Zeros(n)[..n - 1] == Zeros(n - 1);
      ValZeros(b, n - 1);
    }
  }

  /** Leading zero digits do not count. */
  lemma ValStrip(b: Base, z: nat, ds: seq<byte>)
    ensures Val(b, Zeros(z) + ds) == Val(b, ds)
  {
    ValConcat(b, Zeros(z), ds);
    ValZeros(b, z);
  }

  /** A string of digits is its leading zeros and the digits of its value. */
  lemma Decompose(b: Base, ds: seq<byte>)
    requires AreDigits(b, ds)
    ensures ds == Zeros(LeadingZeros(ds)) + Digits(b, Val(b, ds))
  {
    var z := LeadingZeros(ds);
    assert ds == Zeros(z) + ds[z..];
    ValStrip(b, z, ds[z..]);
    ValDigits(b, ds[z..]);
  }

  lemma LeadingZerosOf(z: nat, ds: seq<byte>)
    requires Minimal(ds)
    ensures LeadingZeros(Zeros(z) + ds) == z
  {
    var s := Zeros(z) + ds;
    var k := LeadingZeros(s);
    assert forall i :: 0 <= i < k ==> s[i] == s[..k][i] == 0;
    assert k < |s| ==> s[k] == s[k..][0] != 0;
    assert forall i :: 0 <= i < z ==> s[i] == 0;
    assert z < |s| ==> s[z] == ds[0];
  }
}
