/** Block headers: their 80 bytes, their hash and the proof-of-work test. */
module Headers {
  import opened Bytes
  import opened Streams
  import Positional
  import Varint

  datatype BlockHeader = BlockHeader(
    version: i32, prevBlock: Hash32, merkleRoot: Hash32, timestamp: u32, bits: u32, nonce: u32)

  const RECORD: nat := 80

  function AsBytes(h: BlockHeader): (s: seq<byte>)
    ensures |s| == RECORD
  {
    EncI32(h.version) + h.prevBlock + h.merkleRoot + EncU32(h.timestamp) + EncU32(h.bits) + EncU32(h.nonce)
  }

  function U32At(b: seq<byte>): u32
    requires |b| == 4
  {
    WidthValues();
    FromLERoundTrip(b);
    FromLE(b)
  }

  /** The header eighty bytes stand for. */
  function HeaderAt(b: seq<byte>): BlockHeader
    requires |b| == RECORD
  {
    BlockHeader(Signed(U32At(b[..4]), TWO_32), b[4..36], b[36..68], U32At(b[68..72]), U32At(b[72..76]), U32At(b[76..]))
  }

  /** The form on disk, which has no transaction count. */
  function ParseRecord(s: seq<byte>): Parsed<BlockHeader> {
    if |s| < RECORD then Fail else Done(HeaderAt(s[..RECORD]), s[RECORD..])
  }

  /** The form on the wire: a transaction count follows and is discarded. */
  function ParseWire(s: seq<byte>): Parsed<BlockHeader> {
    var (h, s1) :- ParseRecord(s);
    var (_, s2) :- Varint.ParseVarint(s1);
    Done(h, s2)
  }

  lemma HeaderOfBytes(h: BlockHeader)
    ensures HeaderAt(AsBytes(h)) == h
  {
    var b := AsBytes(h);
    assert b[..4] == EncI32(h.version) && b[4..36] == h.prevBlock && b[36..68] == h.merkleRoot;
    assert b[68..72] == EncU32(h.timestamp) && b[72..76] == EncU32(h.bits) && b[76..] == EncU32(h.nonce);
    WidthValues();
    LERoundTrip(Unsigned(h.version, TWO_32), 4);
    LERoundTrip(h.timestamp, 4);
    LERoundTrip(h.bits, 4);
    LERoundTrip(h.nonce, 4);
  }

  lemma BytesOfU32(b: seq<byte>)
    requires |b| == 4
    ensures EncU32(U32At(b)) == b && EncI32(Signed(U32At(b), TWO_32)) == b
  {
    FromLERoundTrip(b);
  }

  lemma BytesOfHeader(b: seq<byte>)
    requires |b| == RECORD
    ensures AsBytes(HeaderAt(b)) == b
  {
    BytesOfU32(b[..4]);
    BytesOfU32(b[68..72]);
    BytesOfU32(b[72..76]);
    BytesOfU32(b[76..]);
    assert b == b[..4] + b[4..36] + b[36..68] + b[68..72] + b[72..76] + b[76..];
  }

  /** Eighty bytes and a header determine each other. */
  lemma RecordRoundTrip(h: BlockHeader, r: seq<byte>)
    ensures ParseRecord(AsBytes(h) + r) == Done(h, r)
  {
    HeaderOfBytes(h);
    assert (AsBytes(h) + r)[..RECORD] == AsBytes(h) && (AsBytes(h) + r)[RECORD..] == r;
  }

  lemma RecordExact(s: seq<byte>)
    ensures var p := ParseRecord(s); p.Done? ==> s == AsBytes(p.value) + p.rest
  {
    if |s| >= RECORD {
      BytesOfHeader(s[..RECORD]);
      assert s == s[..RECORD] + s[RECORD..];
    }
  }

  /** Where each field stands. */
  lemma RecordOffsets(h: BlockHeader)
    ensures var b := AsBytes(h);
      && |b| == 80
      && b[0..4] == LE(h.version % 0x1_0000_0000, 4) && b[4..36] == h.prevBlock && b[36..68] == h.merkleRoot
      && b[68..72] == LE(h.timestamp, 4) && b[72..76] == LE(h.bits, 4) && b[76..80] == LE(h.nonce, 4)
  {
    TwosComplement(h.version, 0, 0, 0);
  }

  function Hash(sha256: seq<byte> -> Hash32, h: BlockHeader): Hash32 {
    sha256(sha256(AsBytes(h)))
  }

  // ---------------------------------------------------------------- proof of work

  /** `Iterator::le`: lexicographic, an exhausted left side being the smaller. */
  predicate LexLe(xs: seq<byte>, ys: seq<byte>) {
    xs == [] || (ys != [] && (xs[0] < ys[0] || (xs[0] == ys[0] && LexLe(xs[1..], ys[1..]))))
  }

  /** What the compact form stands for: mantissa times 256 to the exponent less three, or
      zero for the exponents that have no place in 32 bytes. */
  function TargetValue(bits: u32): nat {
    var exponent, mantissa := bits / 0x100_0000, bits % 0x100_0000;
    if 3 <= exponent <= 32 then mantissa * Pow(256, exponent - 3) else 0
  }

  function TargetBytes(bits: u32): (target: seq<byte>)
    ensures |target| == 32
  {
    var exponent, mantissa := bits / 0x100_0000, bits % 0x100_0000;
    if 3 <= exponent <= 32 then Positional.Zeros(exponent - 3) + LE(mantissa, 3) + Positional.Zeros(32 - exponent)
    else Positional.Zeros(32)
  }

  predicate CheckProofOfWork(sha256: seq<byte> -> Hash32, h: BlockHeader) {
    LexLe(Reverse(Hash(sha256, h)), Reverse(TargetBytes(h.bits)))
  }

  lemma {:induction false} FromLEConcat(a: seq<byte>, b: seq<byte>)
    ensures FromLE(a + b) == FromLE(a) + Pow(256, |a|) * FromLE(b)
  {
    if a == [] {
      assert a + b == b;
    } else {
      assert (a + b)[1..] == a[1..] + b;
      FromLEConcat(a[1..], b);
      assert Pow(256, |a|) * FromLE(b) == 256 * (Pow(256, |a| - 1) * FromLE(b));
    }
  }

  lemma {:induction false} FromLEZeros(n: nat)
    ensures FromLE(Positional.Zeros(n)) == 0
  {
    if n > 0 {
      assert Positional.Zeros(n)[1..] == Positional.Zeros(n - 1);
      FromLEZeros(n - 1);
    }
  }

  lemma Shifted(i: nat, m: seq<byte>, j: nat)
    ensures FromLE(Positional.Zeros(i) + m + Positional.Zeros(j)) == FromLE(m) * Pow(256, i)
  {
    FromLEConcat(Positional.Zeros(i) + m, Positional.Zeros(j));
    FromLEConcat(Positional.Zeros(i), m);
    FromLEZeros(i);
    FromLEZeros(j);
  }

  lemma TargetNumeric(bits: u32)
    ensures FromLE(TargetBytes(bits)) == TargetValue(bits)
  {
    var exponent, mantissa := bits / 0x100_0000, bits % 0x100_0000;
    FromLEZeros(32);
    if 3 <= exponent <= 32 {
      Shifted(exponent - 3, LE(mantissa, 3), 32 - exponent);
      Mantissa(mantissa);
    }
  }

  lemma Mantissa(m: nat)
    requires m < 0x100_0000
    ensures FromLE(LE(m, 3)) == m
  {
    assert Pow(256, 3) == 0x100_0000;
    LERoundTrip(m, 3);
  }

  lemma {:induction false} LexNumeric(xs: seq<byte>, ys: seq<byte>)
    requires |xs| == |ys|
    ensures LexLe(xs, ys) <==> Positional.Val(256, xs) <= Positional.Val(256, ys)
  {
    if xs != [] {
      LexNumeric(xs[1..], ys[1..]);
      FirstDigit(xs);
      FirstDigit(ys);
      LexArithmetic(xs[0] as nat, ys[0] as nat, Pow(256, |xs| - 1), Positional.Val(256, xs[1..]),
        Positional.Val(256, ys[1..]));
    }
  }

  lemma LexArithmetic(x: nat, y: nat, p: nat, u: nat, v: nat)
    requires u < p && v < p
    ensures x < y || (x == y && u <= v) <==> x * p + u <= y * p + v
  {
    if x < y { Positional.MulMono(x + 1, y, p); }
    if y < x { Positional.MulMono(y + 1, x, p); }
  }

  lemma FirstDigit(xs: seq<byte>)
    requires xs != []
    ensures Positional.Val(256, xs) == xs[0] as nat * Pow(256, |xs| - 1) + Positional.Val(256, xs[1..])
    ensures Positional.Val(256, xs[1..]) < Pow(256, |xs| - 1)
  {
    assert xs == [xs[0]] + xs[1..];
    Positional.ValConcat(256, [xs[0]], xs[1..]);
    Positional.ValOne(256, xs[0]);
    Positional.ValBound(256, xs[1..]);
  }

  lemma {:induction false} ReverseValue(s: seq<byte>)
    ensures Positional.Val(256, Reverse(s)) == FromLE(s)
  {
    if s != [] {
      ReverseValue(s[1..]);
      assert Reverse(s) == Reverse(s[1..]) + [s[0]];
      Positional.ValSnoc(256, Reverse(s[1..]), s[0]);
    }
  }

  /** The byte comparison is the numeric one: the double hash, read little-endian, against the
      target the compact form stands for, its low three bytes shifted as the high one says. */
  lemma ProofOfWorkNumeric(sha256: seq<byte> -> Hash32, h: BlockHeader)
    ensures CheckProofOfWork(sha256, h) <==> FromLE(Hash(sha256, h)) <= TargetValue(h.bits)
    ensures Hash(sha256, h) == sha256(sha256(AsBytes(h)))
    ensures TargetValue(h.bits) == var exponent := h.bits / 0x100_0000;
      if 3 <= exponent <= 32 then h.bits % 0x100_0000 * Pow(256, exponent - 3) else 0
  {
    var hash, target := Hash(sha256, h), TargetBytes(h.bits);
    LexNumeric(Reverse(hash), Reverse(target));
    ReverseValue(hash);
    ReverseValue(target);
    TargetNumeric(h.bits);
  }

  // ---------------------------------------------------------------- filling the arrays

  /** `a[at..at + src.len()].copy_from_slice(src)`, the part before `at` being done. */
  method CopyAt(a: array<byte>, at: nat, src: seq<byte>)
    requires at + |src| <= a.Length
    modifies a
    ensures a[..at + |src|] == old(a[..at]) + src
  {
    forall k | 0 <= k < |src| {
      a[at + k] := src[k];
    }
  }

  method WriteRecord(h: BlockHeader) returns (bytes: seq<byte>)
    ensures bytes == AsBytes(h)
  {
    var raw := new byte[80](_ => 0);
    CopyAt(raw, 0, EncI32(h.version));
    assert raw[..4] == EncI32(h.version);
    CopyAt(raw, 4, h.prevBlock);
    CopyAt(raw, 36, h.merkleRoot);
    CopyAt(raw, 68, EncU32(h.timestamp));
    CopyAt(raw, 72, EncU32(h.bits));
    CopyAt(raw, 76, EncU32(h.nonce));
    bytes := raw[..];
    assert bytes == raw[..80];
  }

  lemma ThreeBytes(m: nat)
    requires m < 0x100_0000
    ensures LE(m, 3) == [(m % 0x100) as byte, (m / 0x100 % 0x100) as byte, (m / 0x1_0000) as byte]
  {
    assert LE(m, 3) == [(m % 256) as byte] + LE(m / 256, 2);
    assert LE(m / 256, 2) == [(m / 256 % 256) as byte] + LE(m / 256 / 256, 1);
    assert LE(m / 256 / 256, 1) == [(m / 256 / 256 % 256) as byte] + LE(m / 256 / 256 / 256, 0);
  }

  method GetTargetBytes(h: BlockHeader) returns (bytes: seq<byte>)
    ensures bytes == TargetBytes(h.bits)
  {
    var target := new byte[32](_ => 0);
    var exponent := h.bits / 0x100_0000;
    var mantissa := h.bits % 0x100_0000;
    if 3 <= exponent <= 32 {
      target[exponent - 1] := (mantissa / 0x1_0000) as byte;
      target[exponent - 2] := (mantissa / 0x100 % 0x100) as byte;
      target[exponent - 3] := (mantissa % 0x100) as byte;
    }
    bytes := target[..];
    ThreeBytes(mantissa);
    assert bytes == TargetBytes(h.bits);
  }

  method ReadRecord(reader: Reader) returns (r: Option<BlockHeader>)
    modifies reader
    ensures Agrees(ParseRecord(old(reader.rest)), r, reader.rest)
  {
    var version :- reader.ReadI32();
    var prev :- reader.ReadHash();
    var root :- reader.ReadHash();
    var time :- reader.ReadU32();
    var bits :- reader.ReadU32();
    var nonce :- reader.ReadU32();
    Slices(old(reader.rest));
    r := Some(BlockHeader(version, prev, root, time, bits, nonce));
  }

  /** Fields taken off the front one by one are those at their offsets. */
  lemma Slices(s: seq<byte>)
    requires |s| >= RECORD
    ensures var b := s[..RECORD];
      && s[..4] == b[..4] && s[4..][..32] == b[4..36] && s[4..][32..][..32] == b[36..68]
      && s[4..][32..][32..][..4] == b[68..72] && s[4..][32..][32..][4..][..4] == b[72..76]
      && s[4..][32..][32..][4..][4..][..4] == b[76..] && s[4..][32..][32..][4..][4..][4..] == s[RECORD..]
  {
    assert s[4..][32..] == s[36..] && s[36..][32..] == s[68..] && s[68..][4..] == s[72..] && s[72..][4..] == s[76..];
  }

  method ReadWire(reader: Reader) returns (r: Option<BlockHeader>)
    modifies reader
    ensures Agrees(ParseWire(old(reader.rest)), r, reader.rest)
  {
    var h :- ReadRecord(reader);
    var _ :- Varint.ReadVarint(reader);
    r := Some(h);
  }
}
