/** The receive loop: taking packets off the bytes that have arrived, and what each message
    makes the node do. */
module Deframer {
  import opened Bytes
  import opened Streams
  import opened Headers
  import opened Messages
  import opened Packets
  import opened Text

  /** The loop over the pending bytes: all the messages that can be taken off, and what is
      left pending. */
  function Drain(net: Network, pending: seq<byte>): (seq<Message>, seq<byte>)
    decreases |pending|
  {
    match FromPacket(net, pending)
    case None => ([], pending)
    case Some((m, n)) =>
      var (ms, rest) := Drain(net, pending[n..]);
      ([m] + ms, rest)
  }

  /** What is received in pieces, drained after each piece. */
  function DrainChunks(net: Network, pending: seq<byte>, chunks: seq<seq<byte>>): (seq<Message>, seq<byte>)
    decreases |chunks|
  {
    if chunks == [] then ([], pending)
    else
      var (ms, rest) := Drain(net, pending + chunks[0]);
      var (more, last) := DrainChunks(net, rest, chunks[1..]);
      (ms + more, last)
  }

  /** Enough has arrived to accept or refuse the packet at the front. */
  predicate Decided(net: Network, p: seq<byte>) {
    |p| >= 24 && (p[..4] != net.magic || !Utf8(NameOf(p[4..16])) || |p| >= 24 + PayloadLen(p))
  }

  /** Once decided, bytes that arrive later change nothing; undecided, nothing is taken off. */
  lemma FromPacketExtends(net: Network, p: seq<byte>, q: seq<byte>)
    ensures Decided(net, p) ==> Decided(net, p + q) && FromPacket(net, p + q) == FromPacket(net, p)
    ensures !Decided(net, p) ==> FromPacket(net, p).None?
  {
    if |p| >= 24 {
      assert (p + q)[..4] == p[..4] && (p + q)[4..16] == p[4..16] && (p + q)[16..20] == p[16..20];
      if |p| >= 24 + PayloadLen(p) {
        assert (p + q)[20..24] == p[20..24];
        assert (p + q)[24..24 + PayloadLen(p)] == p[24..24 + PayloadLen(p)];
      }
    }
  }

  lemma {:induction false} DrainExtends(net: Network, p: seq<byte>, q: seq<byte>)
    ensures var (ms, rest) := Drain(net, p);
      Drain(net, p + q) == (ms + Drain(net, rest + q).0, Drain(net, rest + q).1)
    decreases |p|
  {
    FromPacketExtends(net, p, q);
    match FromPacket(net, p)
    case None =>
      assert [] + Drain(net, p + q).0 == Drain(net, p + q).0;
    case Some((m, n)) =>
      DrainExtends(net, p[n..], q);
      DrainOne(net, p, q);
      var (ms, rest) := Drain(net, p[n..]);
      ConsConcat(m, ms, Drain(net, rest + q).0);
  }

  lemma ConsConcat(m: Message, ms: seq<Message>, more: seq<Message>)
    ensures ([m] + ms) + more == [m] + (ms + more)
  {
  }

  lemma DrainOne(net: Network, p: seq<byte>, q: seq<byte>)
    requires FromPacket(net, p).Some? && FromPacket(net, p + q) == FromPacket(net, p)
    ensures var (m, n) := FromPacket(net, p).value;
      && Drain(net, p) == ([m] + Drain(net, p[n..]).0, Drain(net, p[n..]).1)
      && Drain(net, p + q) == ([m] + Drain(net, p[n..] + q).0, Drain(net, p[n..] + q).1)
  {
    var n := FromPacket(net, p).value.1;
    assert (p + q)[n..] == p[n..] + q;
    DrainStep(net, p);
    DrainStep(net, p + q);
  }

  lemma DrainStep(net: Network, p: seq<byte>)
    requires FromPacket(net, p).Some?
    ensures var (m, n) := FromPacket(net, p).value;
      Drain(net, p) == ([m] + Drain(net, p[n..]).0, Drain(net, p[n..]).1)
  {
  }

  lemma DrainStops(net: Network, p: seq<byte>)
    ensures FromPacket(net, Drain(net, p).1).None?
    decreases |p|
  {
    if FromPacket(net, p).Some? { DrainStops(net, p[FromPacket(net, p).value.1..]); }
  }

  function Join(chunks: seq<seq<byte>>): seq<byte> {
    if chunks == [] then [] else chunks[0] + Join(chunks[1..])
  }

  /** However the stream is cut into reads, the same messages come out and the same bytes are
      left pending as if it had arrived at once. */
  lemma {:induction false} ChunkIndependent(net: Network, pending: seq<byte>, chunks: seq<seq<byte>>)
    requires FromPacket(net, pending).None?
    ensures DrainChunks(net, pending, chunks) == Drain(net, pending + Join(chunks))
    decreases |chunks|
  {
    if chunks == [] {
      assert pending + Join(chunks) == pending;
    } else {
      var rest := Drain(net, pending + chunks[0]).1;
      DrainStops(net, pending + chunks[0]);
      ChunkIndependent(net, rest, chunks[1..]);
      DrainExtends(net, pending + chunks[0], Join(chunks[1..]));
      Assoc(pending, chunks[0], Join(chunks[1..]));
    }
  }

  /** The bytes of each message taken off. */
  function Taken(net: Network, p: seq<byte>): seq<seq<byte>>
    decreases |p|
  {
    match FromPacket(net, p)
    case None => []
    case Some((_, n)) => [p[..n]] + Taken(net, p[n..])
  }

  lemma {:induction false} TakenJoined(net: Network, p: seq<byte>)
    ensures p == Join(Taken(net, p)) + Drain(net, p).1
    decreases |p|
  {
    match FromPacket(net, p)
    case None =>
    case Some((_, n)) =>
      TakenJoined(net, p[n..]);
      JoinCons(p, n, Taken(net, p[n..]), Drain(net, p[n..]).1);
  }

  lemma JoinCons(p: seq<byte>, n: nat, more: seq<seq<byte>>, rest: seq<byte>)
    requires n <= |p| && p[n..] == Join(more) + rest
    ensures p == Join([p[..n]] + more) + rest
  {
    assert ([p[..n]] + more)[1..] == more;
    Assoc(p[..n], Join(more), rest);
  }

  lemma {:induction false} TakenMeans(net: Network, p: seq<byte>, i: nat)
    requires i < |Taken(net, p)|
    ensures |Taken(net, p)| == |Drain(net, p).0|
    ensures var packet := Taken(net, p)[i]; FromPacket(net, packet) == Some((Drain(net, p).0[i], |packet|))
    decreases |p|
  {
    var (m, n) := FromPacket(net, p).value;
    if i > 0 {
      TakenMeans(net, p[n..], i - 1);
    } else {
      FirstPacket(net, p, n);
      TakenCount(net, p);
    }
  }

  lemma {:induction false} TakenCount(net: Network, p: seq<byte>)
    ensures |Taken(net, p)| == |Drain(net, p).0|
    decreases |p|
  {
    if FromPacket(net, p).Some? { TakenCount(net, p[FromPacket(net, p).value.1..]); }
  }

  /** Nothing is lost or made up: the bytes received are the packets of the messages taken
      off, end to end, then the bytes left; each of these packets alone reads as its message,
      and no further message can be taken off. */
  lemma DrainConserves(net: Network, p: seq<byte>)
    ensures var (ms, rest) := Drain(net, p);
      && |Taken(net, p)| == |ms|
      && p == Join(Taken(net, p)) + rest
      && (forall i :: 0 <= i < |ms| ==> FromPacket(net, Taken(net, p)[i]) == Some((ms[i], |Taken(net, p)[i]|)))
      && FromPacket(net, rest).None?
  {
    TakenJoined(net, p);
    TakenCount(net, p);
    DrainStops(net, p);
    forall i | 0 <= i < |Taken(net, p)|
      ensures FromPacket(net, Taken(net, p)[i]) == Some((Drain(net, p).0[i], |Taken(net, p)[i]|))
    {
      TakenMeans(net, p, i);
    }
  }

  lemma FirstPacket(net: Network, p: seq<byte>, n: nat)
    requires FromPacket(net, p).Some? && n == FromPacket(net, p).value.1
    ensures FromPacket(net, p[..n]) == FromPacket(net, p)
  {
    SliceOfFront(p, n, 0, 4);
    SliceOfFront(p, n, 4, 16);
    SliceOfFront(p, n, 16, 20);
    SliceOfFront(p, n, 20, 24);
    SliceOfFront(p, n, 24, n);
  }

  lemma SliceOfFront(p: seq<byte>, n: nat, i: nat, j: nat)
    requires i <= j <= n <= |p|
    ensures p[..n][i..j] == p[i..j] && p[..n][..j] == p[..j]
  {
  }

  function EncodeAll(net: Network, ms: seq<Message>): seq<byte> {
    if ms == [] then [] else Encode(net, ms[0]) + EncodeAll(net, ms[1..])
  }

  /** Any stream of encoded sendable messages yields just those messages, in order. */
  lemma {:induction false} EncodedStream(net: Network, ms: seq<Message>, tail: seq<byte>)
    requires forall m :: m in ms ==> Sendable(m)
    ensures Drain(net, EncodeAll(net, ms) + tail) == (ms + Drain(net, tail).0, Drain(net, tail).1)
    decreases |ms|
  {
    if ms == [] {
      assert EncodeAll(net, ms) + tail == tail;
      assert ms + Drain(net, tail).0 == Drain(net, tail).0;
    } else {
      EncodedStream(net, ms[1..], tail);
      SendableSmall(ms[0]);
      EncodeRead(net, ms[0], EncodeAll(net, ms[1..]) + tail);
      DrainFirst(net, ms[0], Encode(net, ms[0]), EncodeAll(net, ms[1..]), tail);
      FrontAgain(ms, Drain(net, tail).0);
    }
  }

  lemma DrainFirst(net: Network, m: Message, first: seq<byte>, rest: seq<byte>, tail: seq<byte>)
    requires FromPacket(net, first + (rest + tail)) == Some((m, |first|))
    ensures Drain(net, (first + rest) + tail) == ([m] + Drain(net, rest + tail).0, Drain(net, rest + tail).1)
  {
    Assoc(first, rest, tail);
    assert (first + (rest + tail))[|first|..] == rest + tail;
  }

  lemma FrontAgain(ms: seq<Message>, more: seq<Message>)
    requires ms != []
    ensures [ms[0]] + (ms[1..] + more) == ms + more
  {
  }

  // ---------------------------------------------------------------- actions

  datatype Action =
    | Reply(message: Message)
    | SaveHeaders(batch: seq<BlockHeader>)
    | UpdateTargetHeight(height: u32)
    | TryBecomeSyncNode

  function Process(m: Message): seq<Action> {
    match m
    case Ping(n) => [Reply(Pong(n))]
    case Version(v) => [Reply(Verack), UpdateTargetHeight(Unsigned(v.startHeight, TWO_32))]
    case GetHeaders(_) => [Reply(Verack)]
    case Inv(inv) => if inv == [] then [] else [Reply(GetData(inv))]
    case Header(hs) => if hs == [] then [] else [SaveHeaders(hs)]
    case Verack => [TryBecomeSyncNode]
    case _ => []
  }

  /** The actions of each message, in order. */
  lemma ActionsInOrder(n: u64, v: VersionMessage, g: GetHeadersMessage, vs: seq<InventoryVector>, hs: seq<BlockHeader>)
    ensures Process(Ping(n)) == [Reply(Pong(n))] && Process(Verack) == [TryBecomeSyncNode]
    ensures Process(Version(v)) == [Reply(Verack), UpdateTargetHeight(v.startHeight % 0x1_0000_0000)]
    ensures Process(GetHeaders(g)) == [Reply(Verack)]
    ensures vs != [] ==> Process(Inv(vs)) == [Reply(GetData(vs))]
    ensures hs != [] ==> Process(Header(hs)) == [SaveHeaders(hs)]
    ensures Process(Inv([])) == Process(Header([])) == []
  {
  }

  /** Pongs, transactions, requests for data and unknown messages make it do nothing. */
  lemma NoActions(m: Message)
    requires m.Pong? || m.Tx? || m.GetData? || m.Unknown?
    ensures Process(m) == []
  {
  }

  /** What each action is taken for. */
  lemma ProcessExact(m: Message, a: Action)
    ensures a in Process(m) <==>
      match a
      case Reply(Pong(n)) => m == Ping(n)
      case Reply(Verack) => m.Version? || m.GetHeaders?
      case Reply(GetData(wanted)) => wanted != [] && m == Inv(wanted)
      case Reply(_) => false
      case SaveHeaders(batch) => batch != [] && m == Header(batch)
      case UpdateTargetHeight(h) => m.Version? && h == Unsigned(m.version.startHeight, TWO_32)
      case TryBecomeSyncNode => m == Verack
  {
  }

  /** Every reply but a `getdata` is one that the same code at the other end reads back. */
  lemma RepliesReadable(m: Message, reply: Message)
    requires Reply(reply) in Process(m)
    ensures Sendable(reply) || (reply.GetData? && m == Inv(reply.wanted))
  {
    ProcessExact(m, Reply(reply));
  }

  /** The height a version message reports is the one it states exactly if that is not
      negative; a negative one is taken for 2^32 more. */
  lemma HeightReported(v: VersionMessage, h: u32)
    requires UpdateTargetHeight(h) in Process(Version(v))
    ensures h == v.startHeight <==> v.startHeight >= 0
    ensures v.startHeight < 0 ==> h == v.startHeight + TWO_32 && h >= 0x8000_0000
  {
    ProcessExact(Version(v), UpdateTargetHeight(h));
  }

  lemma HeightMinusOne(v: VersionMessage)
    requires v.startHeight == -1
    ensures UpdateTargetHeight(0xFFFF_FFFF) in Process(Version(v))
  {
    ProcessExact(Version(v), UpdateTargetHeight(0xFFFF_FFFF));
  }

  function ProcessAll(ms: seq<Message>): seq<Action> {
    if ms == [] then [] else Process(ms[0]) + ProcessAll(ms[1..])
  }

  lemma {:induction false} ProcessConcat(a: seq<Message>, b: seq<Message>)
    ensures ProcessAll(a + b) == ProcessAll(a) + ProcessAll(b)
  {
    if a == [] {
      assert a + b == b;
    } else {
      assert (a + b)[1..] == a[1..] + b;
      ProcessConcat(a[1..], b);
    }
  }

  lemma {:induction false} RepliesAskNothing(ms: seq<Message>, a: Action)
    requires a in ProcessAll(ms)
    ensures a.Reply? ==> !a.message.GetHeaders?
  {
    if a !in Process(ms[0]) { RepliesAskNothing(ms[1..], a); }
  }

  method ProcessMessage(m: Message) returns (actions: seq<Action>)
    ensures actions == Process(m)
  {
    actions := [];
    match m {
      case Ping(nonce) =>
        actions := actions + [Reply(Pong(nonce))];
      case Version(v) =>
        actions := actions + [Reply(Verack)];
        actions := actions + [UpdateTargetHeight(Unsigned(v.startHeight, TWO_32))];
      case GetHeaders(_) =>
        actions := actions + [Reply(Verack)];
      case Inv(inventory) =>
        if inventory != [] { actions := actions + [Reply(GetData(inventory))]; }
      case Header(headers) =>
        if headers != [] { actions := actions + [SaveHeaders(headers)]; }
      case Verack =>
        actions := actions + [TryBecomeSyncNode];
      case _ =>
    }
  }
}
