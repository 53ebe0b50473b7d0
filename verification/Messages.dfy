/** Message payloads other than transactions: version, inventories, header lists. */
module Messages {
  import opened Bytes
  import opened Streams
  import opened Text
  import opened Varint
  import Positional
  import opened Headers

  type Address = s: seq<byte> | |s| == 26 witness seq(26, _ => 0 as byte)

  datatype VersionMessage = VersionMessage(
    version: i32, services: u64, timestamp: i64, addrRecv: Address, addrFrom: Address,
    nonce: u64, userAgent: Str, startHeight: i32, relay: byte)

  datatype ObjectType =
    | Error | MsgTx | MsgBlock | MsgFilteredBlock | MsgCompactBlock
    | MsgWitnessTx | MsgWitnessBlock | MsgFilteredWitnessBlock | UnknownType(code: u32)

  datatype InventoryVector = InventoryVector(invType: ObjectType, hash: Hash32)

  datatype GetHeadersMessage = GetHeadersMessage(version: u32, hashCount: u64, locators: seq<Hash32>, stopHash: Hash32)

  const MAX_INVENTORY: nat := 50_000

  // ---------------------------------------------------------------- version

  function EncVersionHead(v: VersionMessage): seq<byte> {
    EncI32(v.version) + (EncU64(v.services) + (EncI64(v.timestamp) + (v.addrRecv + (v.addrFrom + EncU64(v.nonce)))))
  }

  /** The user agent's length is cut to one byte. */
  function EncVersionTail(v: VersionMessage): seq<byte> {
    [(|v.userAgent| % 256) as byte] + (v.userAgent + (EncI32(v.startHeight) + [v.relay]))
  }

  function EncVersion(v: VersionMessage): seq<byte> { EncVersionHead(v) + EncVersionTail(v) }

  function ParseAddress(s: seq<byte>): Parsed<Address> {
    if |s| < 26 then Fail else Done(s[..26], s[26..])
  }

  function ParseByte(s: seq<byte>): Parsed<byte> {
    if s == [] then Fail else Done(s[0], s[1..])
  }

  function ParseVersion(s: seq<byte>): Parsed<VersionMessage> {
    var (version, s1) :- ParseI32(s);
    var (services, s2) :- ParseU64(s1);
    var (timestamp, s3) :- ParseI64(s2);
    var (recv, s4) :- ParseAddress(s3);
    var (from, s5) :- ParseAddress(s4);
    var (nonce, s6) :- ParseU64(s5);
    ParseVersionTail(version, services, timestamp, recv, from, nonce, s6)
  }

  function ParseVersionTail(version: i32, services: u64, timestamp: i64, recv: Address, from: Address, nonce: u64,
      s: seq<byte>)
    : (p: Parsed<VersionMessage>)
    ensures p.Done? ==> s != [] && s[0] as nat < |s| && p.value.userAgent == Lossy(s[1..][..s[0] as nat])
  {
    var (n, s1) :- ParseByte(s);
    var (agent, s2) :- Take(s1, n as nat);
    var (height, s3) :- ParseI32(s2);
    var (relay, s4) :- ParseByte(s3);
    LossyIsUtf8(agent);
    Done(VersionMessage(version, services, timestamp, recv, from, nonce, Lossy(agent), height, relay), s4)
  }

  lemma AddressRoundTrip(a: Address, r: seq<byte>)
    ensures ParseAddress(a + r) == Done(a, r)
  {
    assert (a + r)[..26] == a && (a + r)[26..] == r;
  }

  /** The tail in front of other bytes, as the reader meets it. */
  function TailBytes(v: VersionMessage, r: seq<byte>): seq<byte> {
    [(|v.userAgent| % 256) as byte] + (v.userAgent + (EncI32(v.startHeight) + ([v.relay] + r)))
  }

  lemma TailIsBytes(v: VersionMessage, r: seq<byte>)
    ensures EncVersionTail(v) + r == TailBytes(v, r)
  {
    TailLayout([(|v.userAgent| % 256) as byte], v.userAgent, EncI32(v.startHeight), [v.relay], r);
  }

  lemma TailBytesRead(v: VersionMessage, r: seq<byte>)
    requires |v.userAgent| <= 255
    ensures ParseVersionTail(v.version, v.services, v.timestamp, v.addrRecv, v.addrFrom, v.nonce, TailBytes(v, r)) ==
      Done(v, r)
  {
    var t3 := [v.relay] + r;
    var t2 := EncI32(v.startHeight) + t3;
    var t1 := v.userAgent + t2;
    ByteFront((|v.userAgent| % 256) as byte, t1);
    TakeFront(v.userAgent, t2);
    I32Read(v.startHeight, t3);
    ByteFront(v.relay, r);
    LossyKeeps(v.userAgent);
    VersionTailSteps(v, TailBytes(v, r), t1, t2, t3, r);
  }

  lemma VersionTailRead(v: VersionMessage, r: seq<byte>)
    requires |v.userAgent| <= 255
    ensures ParseVersionTail(v.version, v.services, v.timestamp, v.addrRecv, v.addrFrom, v.nonce,
      EncVersionTail(v) + r) == Done(v, r)
  {
    TailIsBytes(v, r);
    TailBytesRead(v, r);
  }

  lemma VersionTailSteps(v: VersionMessage, s: seq<byte>, s1: seq<byte>, s2: seq<byte>, s3: seq<byte>, r: seq<byte>)
    requires |v.userAgent| <= 255 && ParseByte(s) == Done(|v.userAgent| as byte, s1)
    requires Take(s1, |v.userAgent|) == Done(v.userAgent, s2) && Lossy(v.userAgent) == v.userAgent
    requires ParseI32(s2) == Done(v.startHeight, s3)
    requires ParseByte(s3) == Done(v.relay, r)
    ensures ParseVersionTail(v.version, v.services, v.timestamp, v.addrRecv, v.addrFrom, v.nonce, s) == Done(v, r)
  {
  }

  lemma TakeFront(a: seq<byte>, r: seq<byte>)
    ensures Take(a + r, |a|) == Done(a, r)
  {
    assert (a + r)[..|a|] == a && (a + r)[|a|..] == r;
  }

  lemma ByteFront(b: byte, r: seq<byte>)
    ensures ParseByte([b] + r) == Done(b, r)
  {
  }

  lemma TailLayout(a: seq<byte>, b: seq<byte>, c: seq<byte>, d: seq<byte>, r: seq<byte>)
    ensures (a + (b + (c + d))) + r == a + (b + (c + (d + r)))
  {
    Assoc(a, b + (c + d), r);
    Assoc(b, c + d, r);
    Assoc(c, d, r);
  }

  lemma VersionHeadRead(v: VersionMessage, tail: seq<byte>)
    ensures ParseVersion(EncVersionHead(v) + tail) ==
            ParseVersionTail(v.version, v.services, v.timestamp, v.addrRecv, v.addrFrom, v.nonce, tail)
  {
    var t5 := EncU64(v.nonce) + tail;
    var t4 := v.addrFrom + t5;
    var t3 := v.addrRecv + t4;
    var t2 := EncI64(v.timestamp) + t3;
    var t1 := EncU64(v.services) + t2;
    VersionHeadLayout(EncI32(v.version), EncU64(v.services), EncI64(v.timestamp), v.addrRecv, v.addrFrom,
      EncU64(v.nonce), tail);
    I32Read(v.version, t1);
    U64Read(v.services, t2);
    I64Read(v.timestamp, t3);
    AddressRoundTrip(v.addrRecv, t4);
    AddressRoundTrip(v.addrFrom, t5);
    U64Read(v.nonce, tail);
  }

  lemma VersionHeadLayout(a: seq<byte>, b: seq<byte>, c: seq<byte>, d: seq<byte>, e: seq<byte>, f: seq<byte>,
      r: seq<byte>)
    ensures (a + (b + (c + (d + (e + f))))) + r == a + (b + (c + (d + (e + (f + r)))))
  {
    Assoc(a, b + (c + (d + (e + f))), r);
    Assoc(b, c + (d + (e + f)), r);
    Assoc(c, d + (e + f), r);
    Assoc(d, e + f, r);
    Assoc(e, f, r);
  }

  /** A version message comes back from its encoding, whatever follows, exactly when its user
      agent has at most 255 bytes; and then what follows is left. */
  lemma VersionRoundTrip(v: VersionMessage, r: seq<byte>)
    ensures var p := ParseVersion(EncVersion(v) + r);
      && (p.Done? && p.value == v <==> |v.userAgent| <= 255)
      && (|v.userAgent| <= 255 ==> p == Done(v, r))
  {
    Assoc(EncVersionHead(v), EncVersionTail(v), r);
    VersionHeadRead(v, EncVersionTail(v) + r);
    if |v.userAgent| <= 255 { VersionTailRead(v, r); } else { LongAgentLost(v, r); }
  }

  /** A longer one is cut, and a cut one cannot be repaired into itself. */
  lemma LongAgentLost(v: VersionMessage, r: seq<byte>)
    requires |v.userAgent| > 255
    ensures var p := ParseVersionTail(v.version, v.services, v.timestamp, v.addrRecv, v.addrFrom, v.nonce,
      EncVersionTail(v) + r);
      p.Done? ==> p.value.userAgent != v.userAgent
  {
    var k := |v.userAgent| % 256;
    TailIsBytes(v, r);
    assert TailBytes(v, r)[0] as nat == k;
    assert TailBytes(v, r)[1..][..k] == v.userAgent[..k];
    LossyOfCut(v.userAgent, k);
  }

  /** The fields of a version message, in order. */
  lemma VersionInOrder(v: VersionMessage)
    ensures EncVersion(v) == LE(v.version % 0x1_0000_0000, 4) + LE(v.services, 8)
      + LE(v.timestamp % 0x1_0000_0000_0000_0000, 8) + v.addrRecv + v.addrFrom + LE(v.nonce, 8)
      + [(|v.userAgent| % 256) as byte] + v.userAgent + LE(v.startHeight % 0x1_0000_0000, 4) + [v.relay]
  {
    TwosComplement(v.version, v.timestamp, 0, 0);
    TwosComplement(v.startHeight, 0, 0, 0);
    var head, length, height := EncVersionHead(v), [(|v.userAgent| % 256) as byte], EncI32(v.startHeight);
    HeadFlat(EncI32(v.version), EncU64(v.services), EncI64(v.timestamp), v.addrRecv, v.addrFrom, EncU64(v.nonce));
    TailFlat(head, length, v.userAgent, height, [v.relay]);
  }

  lemma HeadFlat(a: seq<byte>, b: seq<byte>, c: seq<byte>, d: seq<byte>, e: seq<byte>, f: seq<byte>)
    ensures a + (b + (c + (d + (e + f)))) == a + b + c + d + e + f
  {
    Assoc(a, b, c + (d + (e + f)));
    Assoc(a + b, c, d + (e + f));
    Assoc(a + b + c, d, e + f);
    Assoc(a + b + c + d, e, f);
  }

  lemma TailFlat(h: seq<byte>, a: seq<byte>, b: seq<byte>, c: seq<byte>, d: seq<byte>)
    ensures h + (a + (b + (c + d))) == h + a + b + c + d
  {
    Assoc(h, a, b + (c + d));
    Assoc(h + a, b, c + d);
    Assoc(h + a + b, c, d);
  }

  // ---------------------------------------------------------------- inventories

  function FromU32(n: u32): ObjectType {
    if n == 0 then Error
    else if n == 1 then MsgTx
    else if n == 2 then MsgBlock
    else if n == 3 then MsgFilteredBlock
    else if n == 4 then MsgCompactBlock
    else if n == 0x4000_0001 then MsgWitnessTx
    else if n == 0x4000_0002 then MsgWitnessBlock
    else if n == 0x4000_0003 then MsgFilteredWitnessBlock
    else UnknownType(n)
  }

  function ToU32(t: ObjectType): u32 {
    match t
    case Error => 0
    case MsgTx => 1
    case MsgBlock => 2
    case MsgFilteredBlock => 3
    case MsgCompactBlock => 4
    case MsgWitnessTx => 0x4000_0001
    case MsgWitnessBlock => 0x4000_0002
    case MsgFilteredWitnessBlock => 0x4000_0003
    case UnknownType(n) => n
  }

  function EncVector(v: InventoryVector): seq<byte> { EncU32(ToU32(v.invType)) + v.hash }

  function EncInventory(vs: seq<InventoryVector>): seq<byte> { EncVarint(|vs|) + EncMany(EncVector, vs) }

  function ParseVector(s: seq<byte>): Parsed<InventoryVector> {
    var (t, s1) :- ParseU32(s);
    var (hash, s2) :- ParseHash(s1);
    Done(InventoryVector(FromU32(t), hash), s2)
  }

  function ParseInv(s: seq<byte>): Parsed<seq<InventoryVector>> {
    var (n, s1) :- ParseVarint(s);
    if n > MAX_INVENTORY then Fail else ParseMany(ParseVector, n, s1)
  }

  lemma VectorExact(s: seq<byte>)
    ensures var p := ParseVector(s); p.Done? ==> Minimal(s, p, EncVector(p.value))
  {
    if ParseVector(s).Done? {
      var t := ParseU32(s);
      var h := ParseHash(t.rest);
      IntExact(s);
      IntExact(t.rest);
      TypeExact(t.value);
      Assoc(EncU32(t.value), h.value, h.rest);
    }
  }

  lemma TypeExact(n: u32)
    ensures ToU32(FromU32(n)) == n
  {
  }

  /** What `getdata` writes for an inventory that was read is the shortest form of the bytes
      it was read from, so the reply to an `inv` in shortest form asks for it byte for byte. */
  lemma InventoryForwarded(s: seq<byte>)
    ensures var p := ParseInv(s); p.Done? ==> |p.value| <= MAX_INVENTORY && Minimal(s, p, EncInventory(p.value))
  {
    if ParseInv(s).Done? {
      var n := ParseVarint(s);
      VarintMinimal(s);
      forall t ensures ParseVector(t).Done? ==> Minimal(t, ParseVector(t), EncVector(ParseVector(t).value)) {
        VectorExact(t);
      }
      ManyMinimal(ParseVector, EncVector, n.value, n.rest);
      MinimalStep(s, n, EncVarint(n.value), ParseInv(s), EncMany(EncVector, ParseInv(s).value));
    }
  }

  lemma VectorRead(v: InventoryVector, r: seq<byte>)
    requires FromU32(ToU32(v.invType)) == v.invType
    ensures ParseVector(EncVector(v) + r) == Done(v, r)
  {
    Assoc(EncU32(ToU32(v.invType)), v.hash, r);
    U32Read(ToU32(v.invType), v.hash + r);
    assert (v.hash + r)[..32] == v.hash && (v.hash + r)[32..] == r;
  }

  /** An inventory of at most 50,000 entries is read back entry for entry. */
  lemma InventoryRead(vs: seq<InventoryVector>, r: seq<byte>)
    requires |vs| <= 50_000 && forall v :: v in vs ==> FromU32(ToU32(v.invType)) == v.invType
    ensures ParseInv(EncInventory(vs) + r) == Done(vs, r)
  {
    Assoc(EncVarint(|vs|), EncMany(EncVector, vs), r);
    VarintRoundTrip(|vs|, EncMany(EncVector, vs) + r);
    forall v, t | v in vs ensures ParseVector(EncVector(v) + t) == Done(v, t) {
      VectorRead(v, t);
    }
    ManyRoundTrip(ParseVector, EncVector, vs, r);
  }

  lemma {:induction false} VectorsLen(vs: seq<InventoryVector>)
    ensures |EncMany(EncVector, vs)| == 36 * |vs|
  {
    if vs != [] { VectorsLen(vs[1..]); }
  }

  lemma InventoryLen(vs: seq<InventoryVector>)
    requires |vs| <= MAX_INVENTORY
    ensures |EncInventory(vs)| < TWO_32
  {
    VectorsLen(vs);
  }

  /** One of more is refused. */
  lemma InventoryTooLong(n: nat, r: seq<byte>)
    requires 50_000 < n < TWO_64
    ensures ParseInv(EncVarint(n) + r).Fail?
  {
    VarintRoundTrip(n, r);
  }

  /** The numbers of the kinds of entry. */
  lemma KindsByNumber(n: u32)
    ensures FromU32(0) == Error && FromU32(1) == MsgTx && FromU32(2) == MsgBlock && FromU32(3) == MsgFilteredBlock
    ensures FromU32(4) == MsgCompactBlock && FromU32(0x4000_0001) == MsgWitnessTx
    ensures FromU32(0x4000_0002) == MsgWitnessBlock && FromU32(0x4000_0003) == MsgFilteredWitnessBlock
    ensures FromU32(n) == UnknownType(n) || n <= 4 || 0x4000_0001 <= n <= 0x4000_0003
    ensures ToU32(FromU32(n)) == n
  {
  }

  // ---------------------------------------------------------------- headers and locators

  function ParseHeaders(s: seq<byte>): Parsed<seq<BlockHeader>> {
    var (n, s1) :- ParseVarint(s);
    ParseMany(ParseWire, n, s1)
  }

  /** A header list as peers send it: each header with a count of transactions after it. */
  function HeaderList(hs: seq<BlockHeader>, counts: seq<u64>): seq<byte>
    requires |hs| == |counts|
  {
    if hs == [] then [] else AsBytes(hs[0]) + (EncVarint(counts[0]) + HeaderList(hs[1..], counts[1..]))
  }

  lemma WireRead(h: BlockHeader, count: u64, r: seq<byte>)
    ensures ParseWire(AsBytes(h) + (EncVarint(count) + r)) == Done(h, r)
  {
    RecordRoundTrip(h, EncVarint(count) + r);
    VarintRoundTrip(count, r);
  }

  lemma {:induction false} HeaderListRead(hs: seq<BlockHeader>, counts: seq<u64>, r: seq<byte>)
    requires |hs| == |counts|
    ensures ParseMany(ParseWire, |hs|, HeaderList(hs, counts) + r) == Done(hs, r)
  {
    if hs == [] {
      assert HeaderList(hs, counts) + r == r;
    } else {
      var rest := HeaderList(hs[1..], counts[1..]);
      Assoc(AsBytes(hs[0]), EncVarint(counts[0]) + rest, r);
      Assoc(EncVarint(counts[0]), rest, r);
      WireRead(hs[0], counts[0], rest + r);
      HeaderListRead(hs[1..], counts[1..], r);
      assert [hs[0]] + hs[1..] == hs;
    }
  }

  lemma {:induction false} HeaderListLen(hs: seq<BlockHeader>, counts: seq<u64>)
    requires |hs| == |counts|
    ensures |HeaderList(hs, counts)| >= |hs|
  {
    if hs != [] { HeaderListLen(hs[1..], counts[1..]); }
  }

  /** A header list is read back header for header, whatever the counts and what follows. */
  lemma HeadersRead(hs: seq<BlockHeader>, counts: seq<u64>, r: seq<byte>)
    requires |hs| == |counts| < TWO_64
    ensures ParseHeaders(EncVarint(|hs|) + HeaderList(hs, counts) + r) == Done(hs, r)
  {
    Assoc(EncVarint(|hs|), HeaderList(hs, counts), r);
    VarintRoundTrip(|hs|, HeaderList(hs, counts) + r);
    HeaderListRead(hs, counts, r);
  }

  const PROTOCOL_VERSION: u32 := 70015

  /** `GetHeadersMessage::new`: one locator and no stop hash. */
  function NewGetHeaders(locator: Hash32): GetHeadersMessage {
    GetHeadersMessage(PROTOCOL_VERSION, 1, [locator], seq(32, _ => 0))
  }

  function LocatorBytes(h: Hash32): seq<byte> { h }

  function EncGetHeaders(g: GetHeadersMessage): seq<byte> {
    EncU32(g.version) + EncVarint(g.hashCount) + EncMany(LocatorBytes, g.locators) + g.stopHash
  }

  /** What is sent to ask for headers: protocol version 70015, one locator, 32 zero bytes. */
  lemma RequestInOrder(locator: Hash32)
    ensures EncGetHeaders(NewGetHeaders(locator)) ==
      [0x7f, 0x11, 0x01, 0x00] + [0x01] + locator + Positional.Zeros(32)
  {
    RequestParts();
    OneLocator(locator);
  }

  lemma RequestParts()
    ensures EncU32(PROTOCOL_VERSION) == [0x7f, 0x11, 0x01, 0x00] && EncVarint(1) == [0x01]
    ensures seq(32, _ => 0 as byte) == Positional.Zeros(32)
  {
    LittleEndian(70015);
  }

  lemma OneLocator(locator: Hash32)
    ensures EncMany(LocatorBytes, [locator]) == locator
  {
    assert EncMany(LocatorBytes, []) == [];
  }

  /** An entry is its kind and its hash. */
  lemma EntryInOrder(v: InventoryVector)
    ensures EncVector(v) == LE(ToU32(v.invType), 4) + v.hash
  {
  }

  // ---------------------------------------------------------------- readers and writers

  method ReadVersion(reader: Reader) returns (r: Option<VersionMessage>)
    modifies reader
    ensures Agrees(ParseVersion(old(reader.rest)), r, reader.rest)
  {
    var version :- reader.ReadI32();
    var services :- reader.ReadU64();
    var timestamp :- reader.ReadI64();
    var recv :- reader.ReadExact(26);
    var from :- reader.ReadExact(26);
    var nonce :- reader.ReadU64();
    r := ReadVersionTail(reader, version, services, timestamp, recv, from, nonce);
  }

  method ReadVersionTail(reader: Reader, version: i32, services: u64, timestamp: i64, recv: Address, from: Address,
      nonce: u64)
    returns (r: Option<VersionMessage>)
    modifies reader
    ensures Agrees(ParseVersionTail(version, services, timestamp, recv, from, nonce, old(reader.rest)), r, reader.rest)
  {
    var n :- reader.ReadExact(1);
    var agent :- reader.ReadExact(n[0] as nat);
    var height :- reader.ReadI32();
    var relay :- reader.ReadExact(1);
    LossyIsUtf8(agent);
    r := Some(VersionMessage(version, services, timestamp, recv, from, nonce, Lossy(agent), height, relay[0]));
  }

  method WriteVersion(v: VersionMessage, writer: Writer)
    modifies writer
    ensures writer.bytes == old(writer.bytes) + EncVersion(v)
  {
    ghost var was := writer.bytes;
    writer.Write(EncI32(v.version));
    writer.Write(EncU64(v.services));
    writer.Write(EncI64(v.timestamp));
    writer.Write(v.addrRecv);
    writer.Write(v.addrFrom);
    writer.Write(EncU64(v.nonce));
    Regroup6(was, EncI32(v.version), EncU64(v.services), EncI64(v.timestamp), v.addrRecv, v.addrFrom, EncU64(v.nonce));
    ghost var head := writer.bytes;
    writer.Write([(|v.userAgent| % 256) as byte]);
    writer.Write(v.userAgent);
    writer.Write(EncI32(v.startHeight));
    writer.Write([v.relay]);
    Regroup4(head, [(|v.userAgent| % 256) as byte], v.userAgent, EncI32(v.startHeight), [v.relay]);
    Assoc(was, EncVersionHead(v), EncVersionTail(v));
  }

  lemma Regroup4(w: seq<byte>, a: seq<byte>, b: seq<byte>, c: seq<byte>, d: seq<byte>)
    ensures w + a + b + c + d == w + (a + (b + (c + d)))
  {
    Assoc(w + a + b, c, d);
    Assoc(w + a, b, c + d);
    Assoc(w, a, b + (c + d));
  }

  lemma Regroup6(w: seq<byte>, a: seq<byte>, b: seq<byte>, c: seq<byte>, d: seq<byte>, e: seq<byte>, f: seq<byte>)
    ensures w + a + b + c + d + e + f == w + (a + (b + (c + (d + (e + f)))))
  {
    Regroup4(w + a + b, c, d, e, f);
    Assoc(w + a, b, c + (d + (e + f)));
    Assoc(w, a, b + (c + (d + (e + f))));
  }

  method ReadVector(reader: Reader) returns (r: Option<InventoryVector>)
    modifies reader
    ensures Agrees(ParseVector(old(reader.rest)), r, reader.rest)
  {
    var t :- reader.ReadU32();
    var hash :- reader.ReadHash();
    r := Some(InventoryVector(FromU32(t), hash));
  }

  method ReadInv(reader: Reader) returns (r: Option<seq<InventoryVector>>)
    modifies reader
    ensures Agrees(ParseInv(old(reader.rest)), r, reader.rest)
  {
    var count :- ReadVarint(reader);
    if count > MAX_INVENTORY { return None; }
    r := ReadVectors(reader, count);
  }

  method ReadVectors(reader: Reader, count: nat) returns (r: Option<seq<InventoryVector>>)
    modifies reader
    ensures Agrees(ParseMany(ParseVector, count, old(reader.rest)), r, reader.rest)
  {
    ghost var start := reader.rest;
    var inventory: seq<InventoryVector> := [];
    for i := 0 to count
      invariant ParseMany(ParseVector, i, start) == Done(inventory, reader.rest)
    {
      var more := OneMoreVector(reader, inventory, i, start);
      if more.None? {
        ManyFails(ParseVector, i + 1, count, start);
        return None;
      }
      inventory := more.value;
    }
    r := Some(inventory);
  }

  method OneMoreVector(reader: Reader, inventory: seq<InventoryVector>, ghost i: nat, ghost start: seq<byte>)
    returns (r: Option<seq<InventoryVector>>)
    requires ParseMany(ParseVector, i, start) == Done(inventory, reader.rest)
    modifies reader
    ensures Agrees(ParseMany(ParseVector, i + 1, start), r, reader.rest)
  {
    ManyNext(ParseVector, i, start);
    var v :- ReadVector(reader);
    r := Some(inventory + [v]);
  }

  method ReadHeaders(reader: Reader) returns (r: Option<seq<BlockHeader>>)
    modifies reader
    ensures Agrees(ParseHeaders(old(reader.rest)), r, reader.rest)
  {
    var count :- ReadVarint(reader);
    r := ReadHeaderList(reader, count);
  }

  method ReadHeaderList(reader: Reader, count: nat) returns (r: Option<seq<BlockHeader>>)
    modifies reader
    ensures Agrees(ParseMany(ParseWire, count, old(reader.rest)), r, reader.rest)
  {
    ghost var start := reader.rest;
    var headers: seq<BlockHeader> := [];
    for i := 0 to count
      invariant ParseMany(ParseWire, i, start) == Done(headers, reader.rest)
    {
      var more := OneMoreHeader(reader, headers, i, start);
      if more.None? {
        ManyFails(ParseWire, i + 1, count, start);
        return None;
      }
      headers := more.value;
    }
    r := Some(headers);
  }

  method OneMoreHeader(reader: Reader, headers: seq<BlockHeader>, ghost i: nat, ghost start: seq<byte>)
    returns (r: Option<seq<BlockHeader>>)
    requires ParseMany(ParseWire, i, start) == Done(headers, reader.rest)
    modifies reader
    ensures Agrees(ParseMany(ParseWire, i + 1, start), r, reader.rest)
  {
    ManyNext(ParseWire, i, start);
    var h :- ReadWire(reader);
    r := Some(headers + [h]);
  }

  method WriteInventory(inventory: seq<InventoryVector>, writer: Writer)
    requires |inventory| < TWO_64
    modifies writer
    ensures writer.bytes == old(writer.bytes) + EncInventory(inventory)
  {
    ghost var was := writer.bytes;
    WriteVarint(writer, |inventory|);
    ghost var start := writer.bytes;
    for k := 0 to |inventory|
      invariant writer.bytes == start + EncMany(EncVector, inventory[..k])
    {
      ghost var sofar := writer.bytes;
      writer.Write(EncU32(ToU32(inventory[k].invType)));
      writer.Write(inventory[k].hash);
      Assoc(sofar, EncU32(ToU32(inventory[k].invType)), inventory[k].hash);
      ManyWritten(start, EncVector, inventory, k);
    }
    AllWritten(was, EncVarint(|inventory|), EncVector, inventory);
  }

  method WriteGetHeaders(g: GetHeadersMessage, writer: Writer)
    modifies writer
    ensures writer.bytes == old(writer.bytes) + EncGetHeaders(g)
  {
    ghost var was := writer.bytes;
    writer.Write(EncU32(g.version));
    WriteVarint(writer, g.hashCount);
    ghost var start := writer.bytes;
    for k := 0 to |g.locators|
      invariant writer.bytes == start + EncMany(LocatorBytes, g.locators[..k])
    {
      writer.Write(g.locators[k]);
      ManyWritten(start, LocatorBytes, g.locators, k);
    }
    AllWritten(was + EncU32(g.version), EncVarint(g.hashCount), LocatorBytes, g.locators);
    writer.Write(g.stopHash);
    GetHeadersLayout(was, EncU32(g.version), EncVarint(g.hashCount), EncMany(LocatorBytes, g.locators), g.stopHash);
  }

  lemma GetHeadersLayout(w: seq<byte>, a: seq<byte>, b: seq<byte>, c: seq<byte>, d: seq<byte>)
    ensures (w + a) + (b + c) + d == w + (a + b + c + d)
  {
  }
}
