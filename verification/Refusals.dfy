/** Packets the node refuses, and what becomes of a connection that has sent one. */
module Refusals {
  import opened Bytes
  import opened Headers
  import opened Messages
  import opened Packets
  import opened Text
  import opened Transaction
  import opened Streams
  import opened Varint
  import opened Deframer

  /** The bytes there are do not start as the network's packets do. */
  predicate WrongMagic(net: Network, p: seq<byte>) {
    var k := if |p| < 4 then |p| else 4;
    p[..k] != net.magic[..k]
  }

  /** The bytes of the name field there are. */
  function NameField(p: seq<byte>): seq<byte> {
    if |p| <= 4 then [] else if |p| < 16 then p[4..] else p[4..16]
  }

  /** The name has arrived: its field is full, or a zero byte has ended it. */
  predicate HasName(p: seq<byte>) { |p| >= 16 || 0 in NameField(p) }

  /** The whole packet at the front has arrived. */
  predicate Complete(p: seq<byte>) { |p| >= 24 && |p| >= 24 + PayloadLen(p) }

  predicate WrongPayload(net: Network, p: seq<byte>)
    requires Complete(p)
  {
    var payload := p[24..24 + PayloadLen(p)];
    p[20..24] != Checksum(net, payload) || Decipher(NameOf(p[4..16]), payload).None?
  }

  /** The name is not text or, if it is still arriving, cannot become text of twelve bytes. */
  predicate WrongName(p: seq<byte>) {
    if HasName(p) then !Utf8(NameOf(NameField(p))) else !Begins(NameField(p), 12)
  }

  /** The fewest bytes a payload that can be read under a name has. */
  function MinLen(name: seq<byte>): nat {
    if name == PING || name == PONG then 8
    else if name == VERSION then 86
    else if name == TX then 51
    else if name == INV || name == HEADERS then 1
    else 0
  }

  /** The length has arrived and is too small for the name. */
  predicate TooShort(p: seq<byte>) {
    |p| >= 20 && FromLE(p[16..20]) < MinLen(NameOf(p[4..16]))
  }

  /** What makes the node refuse the packet at the front. */
  predicate Broken(net: Network, p: seq<byte>) {
    || WrongMagic(net, p)
    || WrongName(p)
    || TooShort(p)
    || (Complete(p) && WrongPayload(net, p))
  }

  // ---------------------------------------------------------------- shortest payloads

  lemma ShortestTx(s: seq<byte>)
    requires ParseTx(s).Done?
    ensures |s| >= 51
  {
    ParseTxExact(s);
    TxLen(ParseTx(s).value);
  }

  lemma TxLen(tx: TxMessage)
    requires tx.txIn != []
    ensures |EncLegacy(tx)| >= 51 && |EncMarked(tx)| >= 51
    ensures |tx.txIn| == 1 && tx.txIn[0].scriptSig == [] && tx.txOut == [] ==> |EncLegacy(tx)| == 51
  {
    InputsLen(tx.txIn);
    assert EncMany(EncTxOut, []) == [];
  }

  lemma InputsLen(ins: seq<TxIn>)
    requires ins != []
    ensures |EncInputs(ins)| >= 42 && (|ins| == 1 && ins[0].scriptSig == [] ==> |EncInputs(ins)| == 42)
  {
    assert EncMany(EncTxIn, ins) == EncTxIn(ins[0]) + EncMany(EncTxIn, ins[1..]);
    assert |EncTxIn(ins[0])| == 40 + |EncBytes(ins[0].scriptSig)|;
    if |ins| == 1 { assert ins[1..] == []; }
  }

  lemma ShortestVersion(s: seq<byte>)
    requires ParseVersion(s).Done?
    ensures |s| >= 86
  {
  }

  /** A payload shorter than that is unreadable. */
  lemma ShortestPayload(name: seq<byte>, payload: seq<byte>)
    requires Decipher(name, payload).Some?
    ensures |payload| >= MinLen(name)
  {
    if name == VERSION {
      ShortestVersion(payload);
    } else if name == TX {
      ShortestTx(payload);
    }
  }

  /** A payload of any length from there on that can be read. */
  lemma Sample(name: seq<byte>, len: nat) returns (payload: seq<byte>)
    requires len >= MinLen(name)
    ensures |payload| == len && Decipher(name, payload).Some?
  {
    var tail := seq(len - MinLen(name), _ => 0 as byte);
    if name == VERSION {
      payload := SampleVersion(tail);
    } else if name == TX {
      payload := SampleTx(tail);
    } else {
      payload := seq(len, _ => 0);
      if name == INV || name == HEADERS { assert ParseVarint(payload).value == 0; }
    }
  }

  lemma SampleVersion(tail: seq<byte>) returns (payload: seq<byte>)
    ensures |payload| == 86 + |tail| && ParseVersion(payload).Done?
  {
    var zeros := seq(26, _ => 0 as byte);
    var v := VersionMessage(0, 0, 0, zeros, zeros, 0, [], 0, 0);
    payload := EncVersion(v) + tail;
    VersionRoundTrip(v, tail);
  }

  lemma SampleTx(tail: seq<byte>) returns (payload: seq<byte>)
    ensures |payload| == 51 + |tail| && ParseTx(payload).Done?
  {
    var input := TxIn(Outpoint(seq(32, _ => 0 as byte), 0), [], 0);
    var tx := TxMessage(0, 0, [input], [], None, 0);
    payload := EncLegacy(tx) + tail;
    LegacyRoundTrip(tx, tail);
    TxLen(tx);
  }

  // ---------------------------------------------------------------- what has arrived stays

  lemma {:induction false} NameEnds(x: seq<byte>, y: seq<byte>)
    requires 0 in x
    ensures NameOf(x + y) == NameOf(x)
  {
    if x[0] != 0 {
      assert (x + y)[1..] == x[1..] + y;
      NameEnds(x[1..], y);
    }
  }

  lemma {:induction false} NameGoesOn(x: seq<byte>, y: seq<byte>)
    requires 0 !in x
    ensures NameOf(x + y) == x + NameOf(y)
  {
    if x == [] {
      assert x + y == y;
    } else {
      assert (x + y)[1..] == x[1..] + y;
      NameGoesOn(x[1..], y);
    }
  }

  lemma {:induction false} NameLen(x: seq<byte>)
    ensures |NameOf(x)| <= |x| && 0 !in NameOf(x)
  {
    if x != [] && x[0] != 0 { NameLen(x[1..]); }
  }

  lemma FieldGrows(p: seq<byte>, q: seq<byte>)
    requires |p| < 16 <= |p + q|
    ensures |NameField(p)| <= 12 && (p + q)[4..16] == NameField(p) + (p + q)[4..16][|NameField(p)|..]
  {
  }

  /** A wrong name stays wrong. */
  lemma WrongNameStays(p: seq<byte>, q: seq<byte>)
    requires WrongName(p) && |p + q| >= 16
    ensures !Utf8(NameOf((p + q)[4..16]))
  {
    if |p| >= 16 {
      assert (p + q)[4..16] == p[4..16];
    } else {
      var x, y := NameField(p), (p + q)[4..16][|NameField(p)|..];
      FieldGrows(p, q);
      if 0 in x {
        NameEnds(x, y);
      } else {
        NameGoesOn(x, y);
        NameLen(y);
        if Utf8(x + NameOf(y)) { BeginsText(x, NameOf(y), 12); }
      }
    }
  }

  lemma MagicStays(net: Network, p: seq<byte>, q: seq<byte>)
    requires WrongMagic(net, p)
    ensures WrongMagic(net, p + q)
  {
    var k := if |p| < 4 then |p| else 4;
    var j := if |p + q| < 4 then |p + q| else 4;
    assert (p + q)[..k] == p[..k];
    assert (p + q)[..j][..k] == p[..k] && net.magic[..j][..k] == net.magic[..k];
  }

  lemma TooShortStays(net: Network, p: seq<byte>, q: seq<byte>)
    requires TooShort(p)
    ensures FromPacket(net, p + q).None?
  {
    var s := p + q;
    assert s[4..16] == p[4..16] && s[16..20] == p[16..20];
    if FromPacket(net, s).Some? {
      ShortestPayload(NameOf(s[4..16]), s[24..24 + PayloadLen(s)]);
    }
  }

  lemma BrokenRefused(net: Network, p: seq<byte>, q: seq<byte>)
    requires Broken(net, p)
    ensures FromPacket(net, p + q).None?
  {
    if |p + q| >= 24 {
      if WrongMagic(net, p) {
        MagicStays(net, p, q);
      } else if WrongName(p) {
        WrongNameStays(p, q);
      } else if TooShort(p) {
        TooShortStays(net, p, q);
      } else {
        FromPacketExtends(net, p, q);
      }
    }
  }

  /** A packet that is broken is never taken off: from then on, whatever is received, nothing
      is delivered. */
  lemma RefusedBlocks(net: Network, p: seq<byte>, q: seq<byte>)
    requires Broken(net, p)
    ensures Drain(net, p + q) == ([], p + q)
  {
    BrokenRefused(net, p, q);
  }

  /** Nothing is ever delivered again exactly if the packet at the front is broken, when that
      packet is complete, or when nothing of its checksum has come yet. */
  lemma BlockedExact(net: Network, p: seq<byte>)
    requires Complete(p) || |p| <= 20
    ensures (forall q :: Drain(net, p + q).0 == []) <==> Broken(net, p)
  {
    if Broken(net, p) {
      forall q ensures Drain(net, p + q).0 == [] {
        RefusedBlocks(net, p, q);
      }
    } else {
      var q := Completion(net, p);
      assert Drain(net, p + q).0 != [];
    }
  }

  // ---------------------------------------------------------------- completing a packet

  /** Bytes that make what has arrived a packet the node takes. */
  lemma Completion(net: Network, p: seq<byte>) returns (q: seq<byte>)
    requires Complete(p) || |p| <= 20
    requires !Broken(net, p)
    ensures FromPacket(net, p + q).Some?
  {
    if Complete(p) {
      q := [];
      assert p + q == p;
    } else {
      var field := FieldCompletion(p);
      var len := LengthCompletion(p, NameOf(field));
      var payload := Sample(NameOf(field), len);
      var whole := Frame(net, field, payload);
      FrameRead(net, field, payload, []);
      FrameStarts(net, field, payload, p);
      q := whole[|p|..];
    }
  }

  /** A whole name field that starts with what has arrived of it. */
  lemma FieldCompletion(p: seq<byte>) returns (field: seq<byte>)
    requires |p| <= 20 && !WrongName(p)
    ensures |field| == 12 && NameField(p) == field[..|NameField(p)|] && Utf8(NameOf(field))
    ensures |p| >= 16 ==> field == p[4..16]
  {
    var x := NameField(p);
    if |p| >= 16 {
      field := x;
    } else if 0 in x {
      field := x + seq(12 - |x|, _ => 0);
      NameEnds(x, seq(12 - |x|, _ => 0));
    } else {
      var y := Finish(x, 12);
      var pad := seq(12 - |x + y|, _ => 0);
      field := (x + y) + pad;
      NameOfPadded(x + y, 12 - |x + y|);
    }
  }

  /** The bytes of the length field there are. */
  function LengthField(p: seq<byte>): seq<byte> {
    if |p| <= 16 then [] else p[16..]
  }

  /** A length that starts with what has arrived of it and is enough for the name. */
  lemma LengthCompletion(p: seq<byte>, name: seq<byte>) returns (len: nat)
    requires |p| <= 20 && !TooShort(p) && (|p| >= 16 ==> name == NameOf(p[4..16]))
    ensures MinLen(name) <= len < TWO_32 && LengthField(p) == LE(len, 4)[..|LengthField(p)|]
  {
    if |p| <= 16 {
      len := MinLen(name);
    } else if |p| == 20 {
      len := FromLE(p[16..20]);
      LengthBytes(p[16..20]);
    } else {
      var low := LengthField(p) + seq(19 - |p|, _ => 0 as byte);
      len := FromLE(low + [1]);
      LengthBytes(low + [1]);
      HighByte(low);
      assert (low + [1])[..|LengthField(p)|] == LengthField(p);
    }
  }

  lemma LengthBytes(b: seq<byte>)
    requires |b| == 4
    ensures FromLE(b) < TWO_32 && LE(FromLE(b), 4) == b
  {
    WidthValues();
    FromLERoundTrip(b);
  }

  lemma HighByte(low: seq<byte>)
    requires |low| == 3
    ensures FromLE(low + [1]) >= 0x100_0000
  {
    FromLEConcat(low, [1]);
    assert Pow(256, 3) == 0x100_0000;
    assert FromLE([1]) == 1;
  }

  lemma FrameStarts(net: Network, field: seq<byte>, payload: seq<byte>, p: seq<byte>)
    requires |p| <= 20 && !WrongMagic(net, p) && |field| == 12 && NameField(p) == field[..|NameField(p)|]
    requires LengthField(p) == LE(|payload|, 4)[..|LengthField(p)|]
    ensures var whole := Frame(net, field, payload);
      |whole| >= |p| && p + whole[|p|..] == whole && whole + [] == whole
  {
    var whole := Frame(net, field, payload);
    assert whole[..4] == net.magic && whole[4..16] == field && whole[16..20] == LE(|payload|, 4);
    PartsMeet(whole, p);
  }

  lemma PartsMeet(whole: seq<byte>, p: seq<byte>)
    requires |p| <= 20 <= |whole|
    requires |p| <= 4 ==> p == whole[..4][..|p|]
    requires |p| > 4 ==> p[..4] == whole[..4] && NameField(p) == whole[4..16][..|NameField(p)|]
    requires LengthField(p) == whole[16..20][..|LengthField(p)|]
    ensures p == whole[..|p|] && p + whole[|p|..] == whole
  {
    forall i | 0 <= i < |p| ensures p[i] == whole[i] {
      if 4 <= i < 16 { assert NameField(p)[i - 4] == p[i]; }
      if i >= 16 { assert LengthField(p)[i - 16] == p[i]; }
    }
  }

  // ---------------------------------------------------------------- inputs

  /** One wrong byte at the start of a stream, for one: nothing in it is ever delivered. */
  lemma WrongByteBlocks(net: Network, b: byte, q: seq<byte>)
    requires b != net.magic[0]
    ensures Drain(net, [b] + q) == ([], [b] + q)
  {
    assert [b][..1] == [b] && net.magic[..1] == [net.magic[0]];
    RefusedBlocks(net, [b], q);
  }

  /** Or one `verack` whose checksum was damaged: no message encoded after it is delivered. */
  lemma DamagedVerackBlocks(net: Network, checksum: seq<byte>, ms: seq<Message>)
    requires |checksum| == 4 && checksum != Checksum(net, [])
    ensures Drain(net, net.magic + Pad(VERACK) + LE(0, 4) + checksum + EncodeAll(net, ms)).0 == []
  {
    var p := net.magic + Pad(VERACK) + LE(0, 4) + checksum;
    DamagedFields(net.magic, Pad(VERACK), checksum);
    RefusedBlocks(net, p, EncodeAll(net, ms));
  }

  lemma DamagedFields(magic: seq<byte>, field: seq<byte>, checksum: seq<byte>)
    requires |magic| == 4 && |field| == 12 && |checksum| == 4
    ensures var p := magic + field + LE(0, 4) + checksum;
      |p| == 24 && PayloadLen(p) == 0 && p[24..24] == [] && p[20..24] == checksum
  {
    assert (magic + field + LE(0, 4) + checksum)[16..20] == LE(0, 4);
    WidthValues();
    LERoundTrip(0, 4);
  }

  /** Or the header of a `ping` that claims three bytes of payload. */
  lemma ShortPingBlocks(net: Network, q: seq<byte>)
    ensures var p := net.magic + Pad(PING) + LE(3, 4); Drain(net, p + q) == ([], p + q)
  {
    var p := net.magic + Pad(PING) + LE(3, 4);
    assert p[4..16] == Pad(PING) && p[16..20] == LE(3, 4);
    assert Pad(PING) == PING + seq(8, _ => 0);
    NameOfPadded(PING, 8);
    WidthValues();
    LERoundTrip(3, 4);
    RefusedBlocks(net, p, q);
  }
}
