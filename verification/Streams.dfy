/** Byte streams: what the standard library's `Read` and `Write` do to a slice and to a
    growing vector, and the parser functions the readers are proved against. */
module Streams {
  import opened Bytes

  /** A parser takes the bytes still to be read and gives a value and the bytes left over. */
  datatype Parsed<+T> = Fail | Done(value: T, rest: seq<byte>) {
    predicate IsFailure() { Fail? }
    function PropagateFailure<U>(): Parsed<U> requires Fail? { Fail }
    function Extract(): (T, seq<byte>) requires Done? { (value, rest) }
  }

  lemma Assoc(a: seq<byte>, b: seq<byte>, c: seq<byte>)
    ensures (a + b) + c == a + (b + c)
  {
  }

  function Take(s: seq<byte>, n: nat): Parsed<seq<byte>> {
    if |s| < n then Fail else Done(s[..n], s[n..])
  }

  lemma TakeExact(s: seq<byte>, n: nat)
    ensures var p := Take(s, n); p.Done? ==> |p.value| == n && s == p.value + p.rest
  {
  }

  /** An unsigned little-endian integer of `k` bytes. */
  function ParseUint(s: seq<byte>, k: nat): Parsed<nat> {
    var (b, rest) :- Take(s, k);
    Done(FromLE(b), rest)
  }

  function ParseU32(s: seq<byte>): (p: Parsed<u32>) {
    WidthValues();
    if |s| < 4 then Fail else
    FromLERoundTrip(s[..4]);
    Done(FromLE(s[..4]), s[4..])
  }

  function ParseU64(s: seq<byte>): (p: Parsed<u64>) {
    WidthValues();
    if |s| < 8 then Fail else
    FromLERoundTrip(s[..8]);
    Done(FromLE(s[..8]), s[8..])
  }

  function ParseI32(s: seq<byte>): Parsed<i32> {
    var (u, rest) :- ParseU32(s);
    Done(Signed(u, TWO_32), rest)
  }

  function ParseI64(s: seq<byte>): Parsed<i64> {
    var (u, rest) :- ParseU64(s);
    Done(Signed(u, TWO_64), rest)
  }

  function ParseHash(s: seq<byte>): Parsed<Hash32> {
    if |s| < 32 then Fail else Done(s[..32], s[32..])
  }

  function EncU32(x: u32): (s: seq<byte>) ensures |s| == 4 { LE(x, 4) }
  function EncU64(x: u64): (s: seq<byte>) ensures |s| == 8 { LE(x, 8) }
  function EncI32(x: i32): (s: seq<byte>) ensures |s| == 4 { LE(Unsigned(x, TWO_32), 4) }
  function EncI64(x: i64): (s: seq<byte>) ensures |s| == 8 { LE(Unsigned(x, TWO_64), 8) }

  lemma U32Read(a: u32, r: seq<byte>)
    ensures ParseU32(EncU32(a) + r) == Done(a, r)
  {
    WidthValues();
    LERoundTrip(a, 4);
    assert (EncU32(a) + r)[..4] == EncU32(a) && (EncU32(a) + r)[4..] == r;
  }

  lemma U64Read(a: u64, r: seq<byte>)
    ensures ParseU64(EncU64(a) + r) == Done(a, r)
  {
    WidthValues();
    LERoundTrip(a, 8);
    assert (EncU64(a) + r)[..8] == EncU64(a) && (EncU64(a) + r)[8..] == r;
  }

  lemma I32Read(a: i32, r: seq<byte>)
    ensures ParseI32(EncI32(a) + r) == Done(a, r)
  {
    WidthValues();
    LERoundTrip(Unsigned(a, TWO_32), 4);
    assert (EncI32(a) + r)[..4] == EncI32(a) && (EncI32(a) + r)[4..] == r;
  }

  lemma I64Read(a: i64, r: seq<byte>)
    ensures ParseI64(EncI64(a) + r) == Done(a, r)
  {
    WidthValues();
    LERoundTrip(Unsigned(a, TWO_64), 8);
    assert (EncI64(a) + r)[..8] == EncI64(a) && (EncI64(a) + r)[8..] == r;
  }

  /** What a fixed-width parser consumed is the encoding of what it returned. */
  lemma IntExact(s: seq<byte>)
    ensures var p := ParseU32(s); p.Done? ==> s == EncU32(p.value) + p.rest
    ensures var p := ParseU64(s); p.Done? ==> s == EncU64(p.value) + p.rest
    ensures var p := ParseI32(s); p.Done? ==> s == EncI32(p.value) + p.rest
    ensures var p := ParseI64(s); p.Done? ==> s == EncI64(p.value) + p.rest
    ensures var p := ParseHash(s); p.Done? ==> s == p.value + p.rest
  {
    if |s| >= 4 { FromLERoundTrip(s[..4]); assert s == s[..4] + s[4..]; WidthValues(); }
    if |s| >= 8 { FromLERoundTrip(s[..8]); assert s == s[..8] + s[8..]; }
  }

  /** `count` values read one after the other. */
  function ParseMany<T>(p: seq<byte> -> Parsed<T>, count: nat, s: seq<byte>): (r: Parsed<seq<T>>)
    ensures r.Done? ==> |r.value| == count
    decreases count
  {
    if count == 0 then Done([], s)
    else
      var (x, s1) :- p(s);
      var (xs, s2) :- ParseMany(p, count - 1, s1);
      Done([x] + xs, s2)
  }

  function EncMany<T>(e: T -> seq<byte>, xs: seq<T>): seq<byte> {
    if xs == [] then [] else e(xs[0]) + EncMany(e, xs[1..])
  }

  lemma {:induction false} ManyRoundTrip<T>(p: seq<byte> -> Parsed<T>, e: T -> seq<byte>, xs: seq<T>, r: seq<byte>)
    requires forall x, t :: x in xs ==> p(e(x) + t) == Done(x, t)
    ensures ParseMany(p, |xs|, EncMany(e, xs) + r) == Done(xs, r)
  {
    if xs == [] {
      assert EncMany(e, xs) + r == r;
    } else {
      var tail := EncMany(e, xs[1..]) + r;
      assert EncMany(e, xs) + r == e(xs[0]) + tail;
      assert p(e(xs[0]) + tail) == Done(xs[0], tail);
      ManyRoundTrip(p, e, xs[1..], r);
      assert [xs[0]] + xs[1..] == xs;
    }
  }

  /** `e` writes the shortest form `p` reads: a parse never consumes fewer bytes than `e`
      writes for the parsed value, and consumes as many only when it read just those bytes. */
  ghost predicate Minimal<T>(s: seq<byte>, r: Parsed<T>, enc: seq<byte>) {
    r.Done? ==>
      && |enc| + |r.rest| <= |s|
      && (|enc| + |r.rest| == |s| <==> s == enc + r.rest)
  }

  lemma MinimalStep<T, U>(s: seq<byte>, r1: Parsed<T>, e1: seq<byte>, r2: Parsed<U>, e2: seq<byte>)
    requires r1.Done? && Minimal(s, r1, e1) && Minimal(r1.rest, r2, e2)
    ensures Minimal(s, r2, e1 + e2)
  {
    if r2.Done? {
      assert (e1 + e2) + r2.rest == e1 + (e2 + r2.rest);
    }
  }

  lemma {:induction false} ManyMinimal<T>(p: seq<byte> -> Parsed<T>, e: T -> seq<byte>, count: nat, s: seq<byte>)
    requires forall t :: p(t).Done? ==> Minimal(t, p(t), e(p(t).value))
    ensures var r := ParseMany(p, count, s); r.Done? ==> Minimal(s, r, EncMany(e, r.value))
    decreases count
  {
    if count == 0 {
      assert ParseMany(p, 0, s).value == [];
      assert s == [] + s;
    } else if ParseMany(p, count, s).Done? {
      var r1 := p(s);
      var r2 := ParseMany(p, count - 1, r1.rest);
      var r := ParseMany(p, count, s);
      ManyMinimal(p, e, count - 1, r1.rest);
      MinimalStep(s, r1, e(r1.value), r2, EncMany(e, r2.value));
      assert r.value[0] == r1.value && r.value[1..] == r2.value;
    }
  }

  lemma {:induction false} ManyAll<T>(p: seq<byte> -> Parsed<T>, q: T -> bool, count: nat, s: seq<byte>)
    requires forall t :: p(t).Done? ==> q(p(t).value)
    ensures var r := ParseMany(p, count, s); r.Done? ==> forall x :: x in r.value ==> q(x)
    decreases count
  {
    if count > 0 && p(s).Done? {
      ManyAll(p, q, count - 1, p(s).rest);
    }
  }

  lemma ManyFrom<T>(e: T -> seq<byte>, xs: seq<T>, k: nat)
    requires k < |xs|
    ensures EncMany(e, xs[k..]) == e(xs[k]) + EncMany(e, xs[k + 1..])
  {
    assert xs[k..][1..] == xs[k + 1..];
  }

  lemma {:induction false} EncManySnoc<T>(e: T -> seq<byte>, xs: seq<T>, x: T)
    ensures EncMany(e, xs + [x]) == EncMany(e, xs) + e(x)
  {
    if xs == [] {
      assert EncMany(e, [x]) == e(x) + EncMany(e, []) == e(x);
    } else {
      assert (xs + [x])[1..] == xs[1..] + [x];
      EncManySnoc(e, xs[1..], x);
      Assoc(e(xs[0]), EncMany(e, xs[1..]), e(x));
    }
  }

  lemma {:induction false} EncManyConcat<T>(e: T -> seq<byte>, xs: seq<T>, ys: seq<T>)
    ensures EncMany(e, xs + ys) == EncMany(e, xs) + EncMany(e, ys)
  {
    if xs == [] {
      assert xs + ys == ys;
      assert [] + EncMany(e, ys) == EncMany(e, ys);
    } else {
      assert (xs + ys)[1..] == xs[1..] + ys;
      EncManyConcat(e, xs[1..], ys);
      Assoc(e(xs[0]), EncMany(e, xs[1..]), EncMany(e, ys));
    }
  }

  lemma ManyWritten<T>(was: seq<byte>, e: T -> seq<byte>, xs: seq<T>, k: nat)
    requires k < |xs|
    ensures was + EncMany(e, xs[..k]) + e(xs[k]) == was + EncMany(e, xs[..k + 1])
  {
    assert xs[..k + 1] == xs[..k] + [xs[k]];
    EncManySnoc(e, xs[..k], xs[k]);
    Assoc(was, EncMany(e, xs[..k]), e(xs[k]));
  }

  lemma AllWritten<T>(was: seq<byte>, count: seq<byte>, e: T -> seq<byte>, xs: seq<T>)
    ensures was + count + EncMany(e, xs[..|xs|]) == was + (count + EncMany(e, xs))
  {
    assert xs[..|xs|] == xs;
    Assoc(was, count, EncMany(e, xs));
  }

  /** One value more is the values so far and the next one. */
  lemma {:induction false} ManyNext<T>(p: seq<byte> -> Parsed<T>, count: nat, s: seq<byte>)
    ensures ParseMany(p, count + 1, s) ==
            match ParseMany(p, count, s)
            case Fail => Fail
            case Done(xs, t) =>
              match p(t)
              case Fail => Fail
              case Done(x, u) => Done(xs + [x], u)
    decreases count
  {
    if p(s).Done? {
      var x, t := p(s).value, p(s).rest;
      if count == 0 {
        assert ParseMany(p, 0, t) == Done([], t);
        assert [x] + [] == [] + [x];
      } else {
        ManyNext(p, count - 1, t);
        var r := ParseMany(p, count - 1, t);
        if r.Done? && p(r.rest).Done? {
          assert [x] + (r.value + [p(r.rest).value]) == ([x] + r.value) + [p(r.rest).value];
        }
      }
    }
  }

  lemma {:induction false} ManyFails<T>(p: seq<byte> -> Parsed<T>, few: nat, count: nat, s: seq<byte>)
    requires few <= count && ParseMany(p, few, s).Fail?
    ensures ParseMany(p, count, s).Fail?
    decreases count
  {
    if few < count {
      ManyFails(p, few, count - 1, s);
      ManyNext(p, count - 1, s);
    }
  }

  /** What a reader method returned, and the bytes it left, against a parser's verdict. */
  ghost predicate Agrees<T>(p: Parsed<T>, r: Option<T>, rest: seq<byte>) {
    match p
    case Fail => r.None?
    case Done(v, t) => r == Some(v) && rest == t
  }

  /** `std::io::Read` over a slice. */
  class Reader {
    var rest: seq<byte>

    constructor (bytes: seq<byte>)
      ensures rest == bytes
    {
      rest := bytes;
    }

    method ReadExact(n: nat) returns (r: Option<seq<byte>>)
      modifies this
      ensures Agrees(Take(old(rest), n), r, rest)
    {
      if |rest| < n { return None; }
      r := Some(rest[..n]);
      rest := rest[n..];
    }

    method ReadU32() returns (r: Option<u32>)
      modifies this
      ensures Agrees(ParseU32(old(rest)), r, rest)
    {
      var b :- ReadExact(4);
      WidthValues();
      FromLERoundTrip(b);
      r := Some(FromLE(b));
    }

    method ReadU64() returns (r: Option<u64>)
      modifies this
      ensures Agrees(ParseU64(old(rest)), r, rest)
    {
      var b :- ReadExact(8);
      WidthValues();
      FromLERoundTrip(b);
      r := Some(FromLE(b));
    }

    method ReadI32() returns (r: Option<i32>)
      modifies this
      ensures Agrees(ParseI32(old(rest)), r, rest)
    {
      var u :- ReadU32();
      r := Some(Signed(u, TWO_32));
    }

    method ReadI64() returns (r: Option<i64>)
      modifies this
      ensures Agrees(ParseI64(old(rest)), r, rest)
    {
      var u :- ReadU64();
      r := Some(Signed(u, TWO_64));
    }

    method ReadHash() returns (r: Option<Hash32>)
      modifies this
      ensures Agrees(ParseHash(old(rest)), r, rest)
    {
      var b :- ReadExact(32);
      r := Some(b);
    }
  }

  /** `std::io::Write` over a vector. */
  class Writer {
    var bytes: seq<byte>

    constructor ()
      ensures bytes == []
    {
      bytes := [];
    }

    method Write(b: seq<byte>)
      modifies this
      ensures bytes == old(bytes) + b
    {
      bytes := bytes + b;
    }
  }
}
