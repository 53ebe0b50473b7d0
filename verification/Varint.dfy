/** Bitcoin's variable-length integers. */
module Varint {
  import opened Bytes
  import opened Streams

  /** One byte below 0xFD, else a marker byte and 2, 4 or 8 little-endian bytes. */
  function EncVarint(v: nat): (s: seq<byte>)
    ensures |s| == if v < 0xFD then 1 else if v <= 0xFFFF then 3 else if v <= 0xFFFF_FFFF then 5 else 9
  {
    if v < 0xFD then [v as byte]
    else if v <= 0xFFFF then [0xFD] + LE(v, 2)
    else if v <= 0xFFFF_FFFF then [0xFE] + LE(v, 4)
    else [0xFF] + LE(v, 8)
  }

  function ParseVarint(s: seq<byte>): (p: Parsed<nat>) {
    if s == [] then Fail
    else if s[0] < 0xFD then Done(s[0] as nat, s[1..])
    else ParseUint(s[1..], if s[0] == 0xFD then 2 else if s[0] == 0xFE then 4 else 8)
  }

  /** Each form by its marker byte, the number's low byte first. */
  lemma FormsByMarker(v: nat, a: byte, b: byte, r: seq<byte>)
    ensures v <= 252 ==> EncVarint(v) == [v as byte]
    ensures 253 <= v < 0x1_0000 ==> EncVarint(v) == [0xFD, (v % 256) as byte, (v / 256) as byte]
    ensures 0x1_0000 <= v < 0x1_0000_0000 ==> EncVarint(v) == [0xFE] + LE(v, 4)
    ensures 0x1_0000_0000 <= v < TWO_64 ==> EncVarint(v) == [0xFF] + LE(v, 8)
    ensures ParseVarint([0xFD, a, b] + r) == Done(a as nat + 256 * b as nat, r)
  {
    LittleEndian(v);
    var s := [0xFD, a, b] + r;
    assert s[1..][..2] == [a, b] && s[1..][2..] == r;
    assert FromLE([a, b]) == a as nat + 256 * FromLE([b]) && FromLE([b]) == b as nat + 256 * FromLE([]);
  }

  lemma VarintRoundTrip(v: nat, r: seq<byte>)
    requires v < TWO_64
    ensures ParseVarint(EncVarint(v) + r) == Done(v, r)
  {
    WidthValues();
    var s := EncVarint(v) + r;
    if v >= 0xFD {
      var k := |EncVarint(v)| - 1;
      LERoundTrip(v, k);
      assert s[1..][..k] == LE(v, k) && s[1..][k..] == r;
    } else {
      assert s[1..] == r;
    }
  }

  /** The first byte of an encoded count is zero only for the count zero. */
  lemma VarintHead(v: nat)
    ensures EncVarint(v)[0] == 0 <==> v == 0
  {
  }

  /** Every value read fits in 64 bits, and of all the forms a value can be read from
      `EncVarint` writes the shortest one. */
  lemma VarintMinimal(s: seq<byte>)
    ensures var p := ParseVarint(s); p.Done? ==> p.value < TWO_64 && Minimal(s, p, EncVarint(p.value))
  {
    var p := ParseVarint(s);
    if p.Done? {
      WidthValues();
      var v := p.value;
      if s[0] >= 0xFD {
        var k := if s[0] == 0xFD then 2 else if s[0] == 0xFE then 4 else 8;
        FromLERoundTrip(s[1..][..k]);
        assert s == [s[0]] + s[1..][..k] + p.rest;
      } else {
        assert s == [s[0]] + p.rest;
      }
    }
  }

  method ReadVarint(reader: Reader) returns (r: Option<nat>)
    modifies reader
    ensures Agrees(ParseVarint(old(reader.rest)), r, reader.rest)
  {
    var b :- reader.ReadExact(1);
    if b[0] <= 0xFC {
      return Some(b[0] as nat);
    } else if b[0] == 0xFD {
      var buf :- reader.ReadExact(2);
      return Some(FromLE(buf));
    } else if b[0] == 0xFE {
      var buf :- reader.ReadExact(4);
      return Some(FromLE(buf));
    } else {
      var buf :- reader.ReadExact(8);
      return Some(FromLE(buf));
    }
  }

  method WriteVarint(writer: Writer, value: nat)
    requires value < TWO_64
    modifies writer
    ensures writer.bytes == old(writer.bytes) + EncVarint(value)
  {
    ghost var was := writer.bytes;
    if value < 0xFD {
      writer.Write([value as byte]);
    } else if value <= 0xFFFF {
      writer.Write([0xFD]);
      writer.Write(LE(value, 2));
      Assoc(was, [0xFD], LE(value, 2));
    } else if value <= 0xFFFF_FFFF {
      writer.Write([0xFE]);
      writer.Write(LE(value, 4));
      Assoc(was, [0xFE], LE(value, 4));
    } else {
      writer.Write([0xFF]);
      writer.Write(LE(value, 8));
      Assoc(was, [0xFF], LE(value, 8));
    }
  }
}
