/** Packets: their frame, and the messages that travel in them. */
module Packets {
  import opened Bytes
  import opened Streams
  import opened Text
  import opened Varint
  import Positional
  import opened Headers
  import opened Messages
  import opened Transaction
  import TransactionIo

  type Magic = s: seq<byte> | |s| == 4 witness seq(4, _ => 0 as byte)

  /** What differs between networks, and the hash function. */
  datatype Network = Network(magic: Magic, genesisHash: Hash32, sha256: seq<byte> -> Hash32)

  datatype Message =
    | Version(version: VersionMessage)
    | Verack
    | Ping(pingNonce: u64)
    | Pong(pongNonce: u64)
    | Inv(inv: seq<InventoryVector>)
    | Tx(tx: TxMessage)
    | GetHeaders(locator: GetHeadersMessage)
    | Header(headers: seq<BlockHeader>)
    | GetData(wanted: seq<InventoryVector>)
    | Unknown(name: seq<byte>)

  // ASCII names of the commands
  const VERSION: seq<byte> := [0x76, 0x65, 0x72, 0x73, 0x69, 0x6f, 0x6e]
  const VERACK: seq<byte> := [0x76, 0x65, 0x72, 0x61, 0x63, 0x6b]
  const PING: seq<byte> := [0x70, 0x69, 0x6e, 0x67]
  const PONG: seq<byte> := [0x70, 0x6f, 0x6e, 0x67]
  const INV: seq<byte> := [0x69, 0x6e, 0x76]
  const TX: seq<byte> := [0x74, 0x78]
  const HEADERS: seq<byte> := [0x68, 0x65, 0x61, 0x64, 0x65, 0x72, 0x73]
  const GETHEADERS: seq<byte> := [0x67, 0x65, 0x74, 0x68, 0x65, 0x61, 0x64, 0x65, 0x72, 0x73]
  const GETDATA: seq<byte> := [0x67, 0x65, 0x74, 0x64, 0x61, 0x74, 0x61]
  const UNKNOWN: seq<byte> := [0x75, 0x6e, 0x6b, 0x6e, 0x6f, 0x77, 0x6e]

  // ---------------------------------------------------------------- packets

  function Checksum(net: Network, payload: seq<byte>): (c: seq<byte>)
    ensures |c| == 4
  {
    net.sha256(net.sha256(payload))[..4]
  }

  function Pad(name: seq<byte>): (s: seq<byte>)
    ensures |s| == 12
  {
    if |name| >= 12 then name[..12] else name + seq(12 - |name|, _ => 0)
  }

  function Frame(net: Network, field: seq<byte>, payload: seq<byte>): seq<byte> {
    net.magic + field + LE(|payload|, 4) + Checksum(net, payload) + payload
  }

  function Forge(net: Network, name: seq<byte>, payload: seq<byte>): seq<byte> {
    Frame(net, Pad(name), payload)
  }

  /** The name in a command field: up to the first zero byte. */
  function NameOf(field: seq<byte>): seq<byte> {
    if field == [] || field[0] == 0 then [] else [field[0]] + NameOf(field[1..])
  }

  function Decipher(name: seq<byte>, payload: seq<byte>): Option<Message> {
    if name == PING || name == PONG then
      match ParseU64(payload)
      case Fail => None
      case Done(n, _) => Some(if name == PING then Ping(n) else Pong(n))
    else if name == VERSION then
      match ParseVersion(payload) { case Fail => None case Done(v, _) => Some(Version(v)) }
    else if name == INV then
      match ParseInv(payload) { case Fail => None case Done(v, _) => Some(Inv(v)) }
    else if name == TX then
      match ParseTx(payload) { case Fail => None case Done(t, _) => Some(Tx(t)) }
    else if name == HEADERS then
      match ParseHeaders(payload) { case Fail => None case Done(hs, _) => Some(Header(hs)) }
    else if name == VERACK then Some(Verack)
    else Some(Unknown(name))
  }

  /** The length a packet claims for its payload. */
  function PayloadLen(p: seq<byte>): nat
    requires |p| >= 24
  {
    FromLE(p[16..20])
  }

  function FromPacket(net: Network, p: seq<byte>): (r: Option<(Message, nat)>)
    ensures r.Some? ==> 24 <= r.value.1 <= |p|
  {
    if |p| < 24 || p[..4] != net.magic || !Utf8(NameOf(p[4..16])) || |p| < 24 + PayloadLen(p) then None
    else
      var payload := p[24..24 + PayloadLen(p)];
      if p[20..24] != Checksum(net, payload) then None
      else
        match Decipher(NameOf(p[4..16]), payload)
        case None => None
        case Some(m) => Some((m, 24 + PayloadLen(p)))
  }

  function Command(m: Message): seq<byte> {
    match m
    case Version(_) => VERSION
    case Verack => VERACK
    case Ping(_) => PING
    case Pong(_) => PONG
    case GetHeaders(_) => GETHEADERS
    case GetData(_) => GETDATA
    case Inv(_) => INV
    case Header(_) => HEADERS
    case Tx(_) => TX
    case Unknown(_) => UNKNOWN
  }

  /** Inventories, transactions and headers are never sent: their payload is empty. */
  function Payload(m: Message): seq<byte> {
    match m
    case Version(v) => EncVersion(v)
    case Ping(n) => EncU64(n)
    case Pong(n) => EncU64(n)
    case GetHeaders(g) => EncGetHeaders(g)
    case GetData(w) => EncInventory(w)
    case _ => []
  }

  function Encode(net: Network, m: Message): seq<byte> { Forge(net, Command(m), Payload(m)) }

  // ---------------------------------------------------------------- one packet

  lemma {:induction false} NameOfPadded(name: seq<byte>, zeros: nat)
    requires forall i :: 0 <= i < |name| ==> name[i] != 0
    ensures NameOf(name + seq(zeros, _ => 0)) == name
  {
    if name != [] {
      assert (name + seq(zeros, _ => 0))[1..] == name[1..] + seq(zeros, _ => 0);
      NameOfPadded(name[1..], zeros);
    }
  }

  lemma FrameFields(net: Network, field: seq<byte>, payload: seq<byte>, r: seq<byte>)
    requires |payload| < TWO_32 && |field| == 12
    ensures var p := Frame(net, field, payload) + r;
      && |p| >= 24 + |payload| && p[..4] == net.magic && p[4..16] == field
      && PayloadLen(p) == |payload| && p[20..24] == Checksum(net, payload)
      && p[24..24 + |payload|] == payload && p[24 + |payload|..] == r
  {
    var p := Frame(net, field, payload) + r;
    assert p[16..20] == LE(|payload|, 4);
    WidthValues();
    LERoundTrip(|payload|, 4);
  }

  /** A framed payload, whatever follows it, is taken off whole, with the meaning of the name
      and the payload. */
  lemma FrameRead(net: Network, field: seq<byte>, payload: seq<byte>, r: seq<byte>)
    requires |payload| < TWO_32 && |field| == 12 && Utf8(NameOf(field))
    ensures FromPacket(net, Frame(net, field, payload) + r) ==
            match Decipher(NameOf(field), payload)
            case None => None
            case Some(m) => Some((m, 24 + |payload|))
  {
    FrameFields(net, field, payload, r);
  }

  /** The same of a forged packet, under the name it was given. */
  lemma ForgeRead(net: Network, name: seq<byte>, payload: seq<byte>, r: seq<byte>)
    requires |payload| < TWO_32 && |name| <= 12
    requires forall i :: 0 <= i < |name| ==> 0 < name[i] < 0x80
    ensures FromPacket(net, Forge(net, name, payload) + r) ==
            match Decipher(name, payload)
            case None => None
            case Some(m) => Some((m, 24 + |payload|))
  {
    AsciiIsUtf8(name);
    NameOfPadded(name, 12 - |name|);
    assert Pad(name) == name + seq(12 - |name|, _ => 0);
    FrameRead(net, Pad(name), payload, r);
  }

  /** The messages that survive the wire. An unknown one is sent under the name "unknown". */
  predicate Sendable(m: Message) {
    match m
    case Version(v) => |v.userAgent| <= 255
    case Verack => true
    case Ping(_) => true
    case Pong(_) => true
    case Unknown(name) => name == UNKNOWN
    case _ => false
  }

  /** An encoded message in front of any bytes is read back, and consumed to its last byte,
      exactly if it is sendable. */
  lemma EncodeRead(net: Network, m: Message, r: seq<byte>)
    requires |Payload(m)| < TWO_32
    ensures FromPacket(net, Encode(net, m) + r) == Some((m, |Encode(net, m)|)) <==> Sendable(m)
  {
    CommandFits(m);
    ForgeRead(net, Command(m), Payload(m), r);
    PayloadRead(m);
    ForgeLen(net, Command(m), Payload(m));
  }

  lemma ForgeLen(net: Network, name: seq<byte>, payload: seq<byte>)
    ensures |Forge(net, name, payload)| == 24 + |payload|
  {
  }

  lemma CommandFits(m: Message)
    ensures |Command(m)| <= 12 && forall i :: 0 <= i < |Command(m)| ==> 0 < Command(m)[i] < 0x80
  {
  }

  lemma SendableSmall(m: Message)
    requires Sendable(m)
    ensures |Payload(m)| < TWO_32
  {
  }

  lemma PayloadRead(m: Message)
    ensures Decipher(Command(m), Payload(m)) == Some(m) <==> Sendable(m)
  {
    match m
    case Version(v) =>
      VersionRoundTrip(v, []);
      assert EncVersion(v) + [] == EncVersion(v);
    case Ping(n) =>
      U64Read(n, []);
      assert EncU64(n) + [] == EncU64(n);
    case Pong(n) =>
      U64Read(n, []);
      assert EncU64(n) + [] == EncU64(n);
    case _ =>
  }

  /** A packet's parts, in order. */
  lemma FrameInOrder(net: Network, name: seq<byte>, payload: seq<byte>)
    requires |name| <= 12
    ensures Forge(net, name, payload) == net.magic + (name + Positional.Zeros(12 - |name|)) + LE(|payload|, 4)
      + net.sha256(net.sha256(payload))[..4] + payload
  {
    PadInOrder(name);
  }

  lemma PadInOrder(name: seq<byte>)
    requires |name| <= 12
    ensures Pad(name) == name + Positional.Zeros(12 - |name|)
  {
  }

  /** The name each message is sent under. */
  lemma CommandNames(m: Message)
    ensures m.Version? ==> Command(m) == Ascii("version")
    ensures m.Verack? ==> Command(m) == Ascii("verack")
    ensures m.Ping? ==> Command(m) == Ascii("ping")
    ensures m.Pong? ==> Command(m) == Ascii("pong")
    ensures m.GetHeaders? ==> Command(m) == Ascii("getheaders")
    ensures m.GetData? ==> Command(m) == Ascii("getdata")
    ensures m.Inv? ==> Command(m) == INV == Ascii("inv")
    ensures m.Header? ==> Command(m) == HEADERS == Ascii("headers")
    ensures m.Tx? ==> Command(m) == TX == Ascii("tx")
    ensures m.Unknown? ==> Command(m) == Ascii("unknown")
  {
    NamesRead();
    NamesSent();
  }

  /** The names the node reads. */
  lemma NamesRead()
    ensures PING == Ascii("ping") && PONG == Ascii("pong") && VERSION == Ascii("version") && INV == Ascii("inv")
    ensures TX == Ascii("tx") && HEADERS == Ascii("headers") && VERACK == Ascii("verack")
  {
  }

  lemma NamesSent()
    ensures GETHEADERS == Ascii("getheaders") && GETDATA == Ascii("getdata") && UNKNOWN == Ascii("unknown")
  {
  }

  /** The packet that asks for headers, byte for byte: the name, two zeros, the length 69 and
      the checksum, then protocol version 70015, one locator and no stop hash. */
  lemma RequestBytes(net: Network, locator: Hash32)
    ensures var payload := [0x7f, 0x11, 0x01, 0x00] + [0x01] + locator + Positional.Zeros(32);
      Encode(net, GetHeaders(NewGetHeaders(locator))) ==
      net.magic + (Ascii("getheaders") + Positional.Zeros(2)) + [69, 0, 0, 0]
      + net.sha256(net.sha256(payload))[..4] + payload
  {
    RequestInOrder(locator);
    CommandNames(GetHeaders(NewGetHeaders(locator)));
    var payload := [0x7f, 0x11, 0x01, 0x00] + [0x01] + locator + Positional.Zeros(32);
    FrameInOrder(net, Ascii("getheaders"), payload);
    LittleEndian(69);
  }

  /** What each is sent with. */
  lemma PayloadsInOrder(m: Message)
    ensures match m
      case Version(v) => Payload(m) == EncVersion(v)
      case Ping(n) => Payload(m) == LE(n, 8)
      case Pong(n) => Payload(m) == LE(n, 8)
      case GetHeaders(g) => Payload(m) == EncGetHeaders(g)
      case GetData(wanted) => Payload(m) == EncVarint(|wanted|) + EncMany(EncVector, wanted)
      case _ => Payload(m) == []
  {
  }

  // ---------------------------------------------------------------- what peers send

  /** A name that is none of the seven is delivered as unknown, whatever the payload. */
  lemma OtherNames(name: seq<byte>, payload: seq<byte>)
    requires name !in {Ascii("ping"), Ascii("pong"), Ascii("version"), Ascii("inv"), Ascii("tx"), Ascii("headers")}
    requires name != Ascii("verack")
    ensures Decipher(name, payload) == Some(Unknown(name))
  {
    NamesRead();
  }

  lemma Named(payload: seq<byte>)
    ensures var p := ParseHeaders(payload); p.Done? ==>
      Decipher(HEADERS, payload) == Some(Header(p.value))
    ensures var p := ParseInv(payload); p.Done? ==> Decipher(INV, payload) == Some(Inv(p.value))
    ensures var p := ParseTx(payload); p.Done? ==> Decipher(TX, payload) == Some(Tx(p.value))
  {
  }

  /** The payload of a `headers` message. */
  function HeadersPayload(hs: seq<BlockHeader>, counts: seq<u64>): seq<byte>
    requires |hs| == |counts|
  {
    EncVarint(|hs|) + HeaderList(hs, counts)
  }

  lemma HeadersMean(hs: seq<BlockHeader>, counts: seq<u64>)
    requires |hs| == |counts| && |HeadersPayload(hs, counts)| < TWO_32
    ensures Decipher(HEADERS, HeadersPayload(hs, counts)) == Some(Header(hs))
  {
    HeaderListLen(hs, counts);
    HeadersRead(hs, counts, []);
    assert HeadersPayload(hs, counts) + [] == HeadersPayload(hs, counts);
    Named(HeadersPayload(hs, counts));
  }

  /** A packet named "headers" delivers the headers in its payload, whatever the counts. */
  lemma HeadersDelivered(net: Network, hs: seq<BlockHeader>, counts: seq<u64>, r: seq<byte>)
    requires |hs| == |counts| && |HeadersPayload(hs, counts)| < TWO_32
    ensures FromPacket(net, Forge(net, HEADERS, HeadersPayload(hs, counts)) + r) ==
      Some((Header(hs), 24 + |HeadersPayload(hs, counts)|))
  {
    HeadersMean(hs, counts);
    ForgeMeans(net, HEADERS, HeadersPayload(hs, counts), Header(hs), r);
  }

  lemma InvMeans(vs: seq<InventoryVector>)
    requires |vs| <= 50_000 && forall v :: v in vs ==> FromU32(ToU32(v.invType)) == v.invType
    ensures Decipher(INV, EncInventory(vs)) == Some(Inv(vs)) && |EncInventory(vs)| < TWO_32
  {
    InventoryRead(vs, []);
    InventoryLen(vs);
    assert EncInventory(vs) + [] == EncInventory(vs);
    Named(EncInventory(vs));
  }

  /** One named "inv" delivers its entries, up to 50,000. */
  lemma InvDelivered(net: Network, vs: seq<InventoryVector>, r: seq<byte>)
    requires |vs| <= 50_000 && forall v :: v in vs ==> FromU32(ToU32(v.invType)) == v.invType
    ensures FromPacket(net, Forge(net, INV, EncInventory(vs)) + r) == Some((Inv(vs), 24 + |EncInventory(vs)|))
  {
    InvMeans(vs);
    ForgeMeans(net, INV, EncInventory(vs), Inv(vs), r);
  }

  /** One named "tx" delivers its transaction, in either form. */
  lemma TxDelivered(net: Network, tx: TxMessage, marked: bool, r: seq<byte>)
    requires Sized(tx) && tx.txIn != [] && (marked ==> WellMarked(tx)) && |TxPayload(tx, marked)| < TWO_32
    ensures FromPacket(net, Forge(net, TX, TxPayload(tx, marked)) + r) ==
      Some((Tx(if marked then tx else tx.(flag := 0, txWitness := None)), 24 + |TxPayload(tx, marked)|))
  {
    TxMeans(tx, marked);
    ForgeMeans(net, TX, TxPayload(tx, marked), Tx(if marked then tx else Stripped(tx)), r);
  }

  /** The payload of a `tx` message in BIP 144 form or in the legacy one. */
  function TxPayload(tx: TxMessage, marked: bool): seq<byte> {
    if marked then EncMarked(tx) else EncLegacy(tx)
  }

  lemma TxMeans(tx: TxMessage, marked: bool)
    requires Sized(tx) && tx.txIn != [] && (marked ==> WellMarked(tx))
    ensures Decipher(TX, TxPayload(tx, marked)) == Some(Tx(if marked then tx else Stripped(tx)))
  {
    var payload := TxPayload(tx, marked);
    assert payload + [] == payload;
    if marked { MarkedRoundTrip(tx, []); } else { LegacyRoundTrip(tx, []); }
    Named(payload);
  }

  lemma ForgeMeans(net: Network, name: seq<byte>, payload: seq<byte>, m: Message, r: seq<byte>)
    requires |payload| < TWO_32 && |name| <= 12 && Decipher(name, payload) == Some(m)
    requires forall i :: 0 <= i < |name| ==> 0 < name[i] < 0x80
    ensures FromPacket(net, Forge(net, name, payload) + r) == Some((m, 24 + |payload|))
  {
    ForgeRead(net, name, payload, r);
  }

  // ---------------------------------------------------------------- readers and writers

  method CommandBytes(name: seq<byte>) returns (field: seq<byte>)
    ensures field == Pad(name)
  {
    var cmd := new byte[12](_ => 0);
    var n := if |name| < 12 then |name| else 12;
    for k := 0 to n
      invariant forall i :: 0 <= i < k ==> cmd[i] == name[i]
      invariant forall i :: k <= i < 12 ==> cmd[i] == 0
    {
      cmd[k] := name[k];
    }
    field := cmd[..];
  }

  method ForgePacket(net: Network, name: seq<byte>, payload: seq<byte>) returns (packet: seq<byte>)
    ensures packet == Forge(net, name, payload)
  {
    packet := net.magic;
    var cmd := CommandBytes(name);
    packet := packet + cmd;
    packet := packet + LE(|payload|, 4);
    packet := packet + Checksum(net, payload);
    packet := packet + payload;
  }

  method ReadMessage(name: seq<byte>, payload: seq<byte>) returns (r: Option<Message>)
    ensures r == Decipher(name, payload)
  {
    var reader := new Reader(payload);
    if name == PING {
      var n :- reader.ReadU64();
      return Some(Ping(n));
    } else if name == PONG {
      var n :- reader.ReadU64();
      return Some(Pong(n));
    } else if name == VERSION {
      var v :- ReadVersion(reader);
      return Some(Version(v));
    } else if name == INV {
      var inv :- ReadInv(reader);
      return Some(Inv(inv));
    } else if name == TX {
      var tx :- TransactionIo.ReadTx(reader);
      return Some(Tx(tx));
    } else if name == HEADERS {
      var headers :- ReadHeaders(reader);
      return Some(Header(headers));
    } else if name == VERACK {
      return Some(Verack);
    }
    return Some(Unknown(name));
  }

  method EncodePayload(m: Message, writer: Writer)
    requires m.GetData? ==> |m.wanted| < TWO_64
    modifies writer
    ensures writer.bytes == old(writer.bytes) + Payload(m)
  {
    ghost var was := writer.bytes;
    assert was + [] == was;
    match m {
      case Version(v) => WriteVersion(v, writer);
      case Ping(n) => writer.Write(EncU64(n));
      case Pong(n) => writer.Write(EncU64(n));
      case GetHeaders(g) => WriteGetHeaders(g, writer);
      case GetData(w) => WriteInventory(w, writer);
      case _ =>
    }
  }

  method EncodeMessage(net: Network, m: Message) returns (packet: seq<byte>)
    requires m.GetData? ==> |m.wanted| < TWO_64
    ensures packet == Encode(net, m)
  {
    var payload := new Writer();
    EncodePayload(m, payload);
    assert [] + Payload(m) == Payload(m);
    packet := ForgePacket(net, Command(m), payload.bytes);
  }

  method ReadPacket(net: Network, p: seq<byte>) returns (r: Option<(Message, nat)>)
    ensures r == FromPacket(net, p)
  {
    if |p| < 24 || p[..4] != net.magic { return None; }
    var name := NameOf(p[4..16]);
    if !Utf8(name) { return None; }
    var payloadLen := FromLE(p[16..20]);
    if |p| < 24 + payloadLen { return None; }
    var payload := p[24..24 + payloadLen];
    if p[20..24] != Checksum(net, payload) { return None; }
    var message :- ReadMessage(name, payload);
    r := Some((message, 24 + payloadLen));
  }
}
