/** Header synchronization as a state machine. Any number of connections run side by side;
    they share one flag, which says that somebody holds the sync role, and one chain state.
    A step is what one connection does between two points where another may act. */
module SyncNode {
  import opened Bytes
  import opened Streams
  import opened Headers
  import opened Messages
  import opened ChainStore
  import opened Packets
  import opened Deframer

  /** The network, and the hash and target test of its headers (`RulesOf(net.sha256)`). */
  datatype World = World(net: Network, rules: Rules)

  type PeerId = nat

  /** Where a connection's task stands. */
  datatype Place =
    | Reading
    | Draining
    | Acting
    | Won                                          // flag swapped, own mark not yet set
    | Asking                                       // about to read the locator
    | Sending(locator: Hash32, height: nat)
    | Closing                                      // loop left, guard not yet dropped

  /** A connection. `received`, `delivered`, `acted` and `sent` record its past,
      `sent` all that was sent after the version message that opens the connection. */
  datatype Peer = Peer(
    received: seq<byte>, pending: seq<byte>, delivered: seq<Message>,
    acted: seq<Action>, todo: seq<Action>, sent: seq<Message>, isSyncNode: bool, place: Place)

  /** A `getheaders` sent: by whom, in which tenure of the role, and the length of the log
      when its locator was read. */
  datatype Request = Request(peer: PeerId, tenure: nat, locator: Hash32, height: nat)

  /** `log` is what was loaded and saved since, in order; `owners` (one entry for each time the
      role was taken) and `requests` record the past; `base` is the length of the log at the
      very start. */
  datatype Node = Node(
    chain: Chain, hasSyncNode: bool, peers: map<PeerId, Peer>,
    log: seq<BlockHeader>, owners: seq<PeerId>, requests: seq<Request>, base: nat)

  datatype Step =
    | Connect(id: PeerId)
    | Receive(id: PeerId, chunk: seq<byte>)        // no bytes: the other side has closed
    | Run(id: PeerId)
    | Lose(id: PeerId)                             // a read, a write or opening the file fails
    | Restart

  const BUFFER: nat := 1024
  const FULL_BATCH: nat := 2000

  function NewPeer(): Peer { Peer([], [], [], [], [], [], false, Reading) }

  /** A process that has just loaded its file, whatever that holds. */
  function Boot(w: World, file: seq<byte>): Node {
    Node(Loaded(w.rules, file), false, map[], Records(file), [], [], |Records(file)|)
  }

  /** `get_locator_hash` */
  function Locator(net: Network, best: Hash32): Hash32 {
    if best == ZeroHash() then net.genesisHash else best
  }

  function Received(p: Peer, chunk: seq<byte>): Peer {
    p.(received := p.received + chunk, pending := p.pending + chunk, place := Draining)
  }

  function Put(s: Node, id: PeerId, p: Peer): Node { s.(peers := s.peers[id := p]) }

  ghost function Do(w: World, s: Node, step: Step): Node {
    match step
    case Connect(id) => if id in s.peers then s else Put(s, id, NewPeer())
    case Receive(id, chunk) =>
      if id !in s.peers || s.peers[id].place != Reading || |chunk| > BUFFER then s
      else
        var p := s.peers[id];
        if chunk == [] then Put(s, id, p.(place := Closing))
        else Put(s, id, Received(p, chunk))
    case Run(id) => if id in s.peers then RunPeer(w, s, id, s.peers[id]) else s
    case Lose(id) =>
      if id in s.peers && CanFail(s.peers[id]) then Put(s, id, s.peers[id].(place := Closing)) else s
    case Restart =>
      s.(chain := Loaded(w.rules, s.chain.file), hasSyncNode := false, peers := map[], log := Records(s.chain.file))
  }

  predicate CanFail(p: Peer) {
    || p.place == Reading || p.place.Sending?
    || (p.place == Acting && p.todo != [] && (p.todo[0].Reply? || p.todo[0].SaveHeaders?))
  }

  ghost function RunPeer(w: World, s: Node, id: PeerId, p: Peer): Node {
    match p.place
    case Reading => s
    case Draining => Put(s, id, Deliver(w.net, p))
    case Acting => if p.todo == [] then Put(s, id, p.(place := Draining)) else Act(w, s, id, p)
    case Won => Put(s, id, Marked(p))
    case Asking => Put(s, id, p.(place := Sending(Locator(w.net, s.chain.bestHash), |s.log|)))
    case Sending(locator, height) =>
      Put(s, id, Asked(p, locator)).(requests := s.requests + [Request(id, |s.owners|, locator, height)])
    case Closing =>
      s.(hasSyncNode := if p.isSyncNode then false else s.hasSyncNode, peers := s.peers - {id})
  }

  function Marked(p: Peer): Peer { p.(isSyncNode := true, place := Asking) }

  function Asked(p: Peer, locator: Hash32): Peer {
    p.(sent := p.sent + [GetHeaders(NewGetHeaders(locator))], place := Acting)
  }

  /** One turn of the deframing loop. */
  function Deliver(net: Network, p: Peer): Peer {
    match FromPacket(net, p.pending)
    case None => p.(place := Reading)
    case Some((m, n)) => p.(pending := p.pending[n..], delivered := p.delivered + [m], todo := Process(m),
      place := Acting)
  }

  function Begun(p: Peer): Peer
    requires p.todo != []
  {
    p.(acted := p.acted + [p.todo[0]], todo := p.todo[1..])
  }

  function Replied(p: Peer): Peer
    requires p.todo != [] && p.todo[0].Reply?
  {
    Begun(p).(sent := p.sent + [p.todo[0].message])
  }

  /** The next action of the queue. Saving and testing the outcome of the swap are whole steps. */
  ghost function Act(w: World, s: Node, id: PeerId, p: Peer): Node
    requires p.todo != []
  {
    var q := Begun(p);
    match p.todo[0]
    case Reply(_) => Put(s, id, Replied(p))
    case UpdateTargetHeight(h) =>
      Put(s, id, q).(chain := Apply(w.rules, s.chain, NewTarget(h)))
    case SaveHeaders(batch) => SaveBatch(w, s, id, q, batch)
    case TryBecomeSyncNode => TryRole(s, id, q)
  }

  ghost function SaveBatch(w: World, s: Node, id: PeerId, q: Peer, batch: seq<BlockHeader>): Node {
    var (c, r) := Save(w.rules, s.chain, batch);
    Put(s, id, q.(place := AfterSave(q.isSyncNode, r, |batch|))).(chain := c, log := SaveLog(w.rules, s.log, batch).0)
  }

  /** The swap of the flag. */
  function TryRole(s: Node, id: PeerId, q: Peer): Node {
    if s.hasSyncNode then Put(s, id, q)
    else Put(s, id, q.(place := Won)).(hasSyncNode := true, owners := s.owners + [id])
  }

  /** A rejected batch ends the connection; the role holder asks on after a full batch that
      brought something new. */
  function AfterSave(isSyncNode: bool, r: SaveResult, size: nat): Place {
    match r
    case Rejected => Closing
    case Added(n) => if isSyncNode && n > 0 && size == FULL_BATCH then Asking else Acting
  }

  ghost function RunAll(w: World, s: Node, steps: seq<Step>): Node
    decreases |steps|
  {
    if steps == [] then s else RunAll(w, Do(w, s, steps[0]), steps[1..])
  }

  // ---------------------------------------------------------------- what every step keeps

  predicate Owns(p: Peer) { p.isSyncNode || p.place.Won? }

  /** About to send a `getheaders`. */
  predicate Wants(p: Peer) { p.place.Won? || p.place.Asking? || p.place.Sending? }

  predicate Quiet(place: Place) { !place.Won? && !place.Asking? && !place.Sending? }

  /** A request at this height in this tenure would come after all those made. */
  ghost predicate Later(requests: seq<Request>, tenure: nat, height: nat) {
    forall i :: 0 <= i < |requests| ==>
      && requests[i].height <= height && requests[i].tenure <= tenure
      && (requests[i].tenure == tenure ==> requests[i].height < height)
  }

  ghost predicate LoggedLocator(w: World, log: seq<BlockHeader>, locator: Hash32, height: nat) {
    height <= |log| && locator == Locator(w.net, BestOf(w.rules, log[..height]))
  }

  /** A connection's own books: its messages are those its bytes carry, its actions those of
      its messages, each in order and once, what it has sent the replies of its actions, and
      it asks for headers only in the role. */
  ghost predicate Books(net: Network, p: Peer) {
    && Drain(net, p.received) == (p.delivered + Drain(net, p.pending).0, Drain(net, p.pending).1)
    && p.acted + p.todo == ProcessAll(p.delivered)
    && (p.place.Reading? || p.place.Draining? ==> p.todo == [])
    && (p.place.Reading? ==> FromPacket(net, p.pending).None?)
    && (forall m :: m in p.sent && m.GetHeaders? ==> p.isSyncNode)
    && Answers(p.sent) == RepliesIn(p.acted)
  }

  /** What was sent apart from requests for headers. */
  function Answers(sent: seq<Message>): seq<Message> {
    if sent == [] then []
    else Answers(sent[..|sent| - 1]) + if sent[|sent| - 1].GetHeaders? then [] else [sent[|sent| - 1]]
  }

  /** What the actions say to send. */
  function RepliesIn(actions: seq<Action>): seq<Message> {
    if actions == [] then []
    else
      var last := actions[|actions| - 1];
      RepliesIn(actions[..|actions| - 1]) + if last.Reply? then [last.message] else []
  }

  /** What holding the role says of the flag and of who took it last. */
  predicate Holder(s: Node, id: PeerId, p: Peer) {
    && (Owns(p) ==> s.hasSyncNode && s.owners != [] && s.owners[|s.owners| - 1] == id)
    && (p.place.Won? ==> !p.isSyncNode)
    && (p.place.Asking? || p.place.Sending? ==> p.isSyncNode)
  }

  ghost predicate Held(s: Node) {
    exists id :: id in s.peers && Owns(s.peers[id])
  }

  /** The role and the books are in order. Nothing is said of the chain or its file. */
  ghost predicate RoleSafe(w: World, s: Node) {
    && (s.hasSyncNode ==> Held(s))
    && PeersOk(w, s)
  }

  ghost predicate PeersOk(w: World, s: Node) {
    forall id :: id in s.peers ==> Books(w.net, s.peers[id]) && Holder(s, id, s.peers[id])
  }

  /** What being about to send says of the requests made before. */
  ghost predicate Due(s: Node, p: Peer) {
    && (Wants(p) ==> |s.requests| + 1 + s.base <= |s.owners| + |s.log|)
    && match p.place
       case Won => forall i :: 0 <= i < |s.requests| ==> s.requests[i].tenure < |s.owners|
       case Asking => Later(s.requests, |s.owners|, |s.log|)
       case Sending(_, height) => height <= |s.log| && Later(s.requests, |s.owners|, height)
       case _ => true
  }

  predicate RequestOk(height: nat, owners: seq<PeerId>, r: Request) {
    1 <= r.tenure <= |owners| && r.peer == owners[r.tenure - 1] && r.height <= height
  }

  ghost predicate RequestsOk(s: Node) {
    && (forall i :: 0 <= i < |s.requests| ==> RequestOk(|s.log|, s.owners, s.requests[i]))
    && (forall i :: 0 <= i < |s.requests| ==> Later(s.requests[..i], s.requests[i].tenure, s.requests[i].height))
    && |s.requests| + s.base <= |s.owners| + |s.log|
  }

  /** The file holds as many whole records as there are headers in the log, whichever. */
  predicate Framed(c: Chain, log: seq<BlockHeader>) { |c.file| / RECORD == |log| }

  /** The requests are in order, memory mirrors the log and the file is as long. */
  ghost predicate InProgress(w: World, s: Node) {
    && Mirrored(w.rules, s.chain, s.log) && Framed(s.chain, s.log)
    && RequestsOk(s)
    && DuesOk(s)
  }

  ghost predicate DuesOk(s: Node) {
    forall id :: id in s.peers ==> Due(s, s.peers[id])
  }

  ghost predicate Safe(w: World, s: Node) {
    && RoleSafe(w, s)
    && InProgress(w, s)
  }

  /** Every locator sent or about to be sent names the last header of the log at its height. */
  ghost predicate LocatorsOk(w: World, s: Node) {
    && (forall r :: r in s.requests ==> LoggedLocator(w, s.log, r.locator, r.height))
    && (forall id :: id in s.peers ==> Located(w, s.log, s.peers[id].place))
  }

  ghost predicate Located(w: World, log: seq<BlockHeader>, place: Place) {
    place.Sending? ==> LoggedLocator(w, log, place.locator, place.height)
  }

  // ---------------------------------------------------------------- books

  lemma NewBooks(net: Network)
    ensures Books(net, NewPeer())
  {
    assert FromPacket(net, []).None?;
    var none: seq<Message> := [];
    assert Drain(net, []) == (none, []);
    assert none + none == none;
  }

  lemma ReceiveBooks(net: Network, p: Peer, chunk: seq<byte>)
    requires Books(net, p) && p.place.Reading?
    ensures Books(net, Received(p, chunk))
  {
    DrainExtends(net, p.received, chunk);
    assert p.delivered + [] == p.delivered;
  }

  lemma DeliverBooks(net: Network, p: Peer)
    requires Books(net, p) && p.place.Draining?
    ensures Books(net, Deliver(net, p)) && Quiet(Deliver(net, p).place) && Deliver(net, p).isSyncNode == p.isSyncNode
  {
    match FromPacket(net, p.pending)
    case None =>
    case Some((m, n)) =>
      DeliveredOver(p.delivered, m, Drain(net, p.pending[n..]).0);
      ProcessSnoc(p.delivered, m);
      NothingOver(p.acted);
  }

  lemma DeliveredOver(delivered: seq<Message>, m: Message, more: seq<Message>)
    ensures delivered + ([m] + more) == (delivered + [m]) + more
  {
  }

  lemma NothingOver(acted: seq<Action>)
    ensures acted + [] == acted
  {
  }

  lemma ProcessSnoc(ms: seq<Message>, m: Message)
    ensures ProcessAll(ms + [m]) == ProcessAll(ms) + Process(m)
  {
    ProcessConcat(ms, [m]);
    assert Process(m) + [] == Process(m);
  }

  lemma ActBooks(net: Network, p: Peer, place: Place)
    requires Books(net, p) && p.place.Acting? && p.todo != [] && !p.todo[0].Reply?
    requires !place.Reading? && !place.Draining?
    ensures Books(net, Begun(p).(place := place))
  {
    MovedOver(p.acted, p.todo);
    RepliesSnoc(p.acted, p.todo[0]);
  }

  lemma RepliesSnoc(actions: seq<Action>, a: Action)
    ensures RepliesIn(actions + [a]) == RepliesIn(actions) + if a.Reply? then [a.message] else []
  {
    assert (actions + [a])[..|actions|] == actions;
  }

  lemma AnswersSnoc(sent: seq<Message>, m: Message)
    ensures Answers(sent + [m]) == Answers(sent) + if m.GetHeaders? then [] else [m]
  {
    assert (sent + [m])[..|sent|] == sent;
  }

  lemma MovedOver(acted: seq<Action>, todo: seq<Action>)
    requires todo != []
    ensures (acted + [todo[0]]) + todo[1..] == acted + todo
  {
  }

  lemma ReplyBooks(net: Network, p: Peer)
    requires Books(net, p) && p.place.Acting? && p.todo != [] && p.todo[0].Reply?
    ensures Books(net, Replied(p))
  {
    MovedOver(p.acted, p.todo);
    RepliesSnoc(p.acted, p.todo[0]);
    AnswersSnoc(p.sent, p.todo[0].message);
    assert (p.acted + p.todo)[|p.acted|] == p.todo[0];
    RepliesAskNothing(p.delivered, p.todo[0]);
  }

  /** To a place where no bytes are looked for, or to one where they are once nothing is left
      to do. */
  lemma PlaceBooks(net: Network, p: Peer, place: Place)
    requires Books(net, p) && !place.Reading? && (place.Draining? ==> p.todo == [])
    ensures Books(net, p.(place := place)) && Books(net, p.(isSyncNode := true, place := place))
  {
  }

  // ---------------------------------------------------------------- the role, for any chain

  /** Only the last to take the role can hold it. */
  lemma SoleOwner(w: World, s: Node, id: PeerId)
    requires RoleSafe(w, s) && id in s.peers && Owns(s.peers[id])
    ensures s.hasSyncNode && forall j :: j in s.peers && j != id ==> !Owns(s.peers[j])
  {
    assert Holder(s, id, s.peers[id]);
    forall j | j in s.peers && j != id ensures !Owns(s.peers[j]) {
      assert Holder(s, j, s.peers[j]);
    }
  }

  lemma NoOwner(w: World, s: Node)
    requires RoleSafe(w, s) && !s.hasSyncNode
    ensures forall j :: j in s.peers ==> !Owns(s.peers[j])
  {
    forall j | j in s.peers ensures !Owns(s.peers[j]) {
      assert Holder(s, j, s.peers[j]);
    }
  }

  /** When one connection's task moves on, the others keep theirs if the flag and the takers
      of the role are as they were, or if no other holds it. */
  lemma PutKeeps(w: World, s: Node, s': Node, id: PeerId, p: Peer)
    requires RoleSafe(w, s) && s'.peers == s.peers[id := p]
    requires (s'.hasSyncNode == s.hasSyncNode && s'.owners == s.owners) || forall j :: j in s.peers && j != id ==>
      !Owns(s.peers[j])
    requires Books(w.net, p) && Holder(s', id, p)
    requires s'.hasSyncNode ==> Owns(p) || (s.hasSyncNode && (id in s.peers ==> !Owns(s.peers[id])))
    ensures RoleSafe(w, s')
  {
    forall j | j in s'.peers ensures Books(w.net, s'.peers[j]) && Holder(s', j, s'.peers[j]) {
      if j != id { assert Holder(s, j, s.peers[j]); }
    }
    if s'.hasSyncNode { HeldStill(s, s', id, p); }
  }

  lemma HeldStill(s: Node, s': Node, id: PeerId, p: Peer)
    requires s'.peers == s.peers[id := p]
    requires Owns(p) || (Held(s) && (id in s.peers ==> !Owns(s.peers[id])))
    ensures Held(s')
  {
    if Owns(p) {
      assert Owns(s'.peers[id]);
    } else {
      var j :| j in s.peers && Owns(s.peers[j]);
      assert Owns(s'.peers[j]);
    }
  }

  /** A move of one connection, with whatever it does to the chain, that leaves the flag and
      its own claim to the role alone. */
  lemma MoveKeeps(w: World, s: Node, s': Node, id: PeerId, p: Peer)
    requires RoleSafe(w, s) && id in s.peers && s'.peers == s.peers[id := p]
    requires s'.hasSyncNode == s.hasSyncNode && s'.owners == s.owners
    requires Books(w.net, p) && Owns(p) == Owns(s.peers[id])
    requires !p.place.Won? && (p.place.Asking? || p.place.Sending? ==> p.isSyncNode)
    ensures RoleSafe(w, s')
  {
    assert Holder(s, id, s.peers[id]);
    PutKeeps(w, s, s', id, p);
  }

  lemma DeliverKeeps(w: World, s: Node, id: PeerId)
    requires RoleSafe(w, s) && id in s.peers && s.peers[id].place.Draining?
    ensures RoleSafe(w, Put(s, id, Deliver(w.net, s.peers[id])))
  {
    DeliverBooks(w.net, s.peers[id]);
    MoveKeeps(w, s, Put(s, id, Deliver(w.net, s.peers[id])), id, Deliver(w.net, s.peers[id]));
  }

  lemma PlaceKeeps(w: World, s: Node, id: PeerId, place: Place)
    requires RoleSafe(w, s) && id in s.peers && !s.peers[id].place.Won? && !place.Won? && !place.Reading?
    requires place.Asking? || place.Sending? ==> s.peers[id].isSyncNode
    requires place.Draining? ==> s.peers[id].todo == []
    ensures RoleSafe(w, Put(s, id, s.peers[id].(place := place)))
  {
    var q := s.peers[id].(place := place);
    PlaceBooks(w.net, s.peers[id], place);
    MoveKeeps(w, s, Put(s, id, q), id, q);
  }

  lemma ConnectKeeps(w: World, s: Node, id: PeerId)
    requires RoleSafe(w, s) && id !in s.peers
    ensures RoleSafe(w, Put(s, id, NewPeer()))
  {
    NewBooks(w.net);
    PutKeeps(w, s, Put(s, id, NewPeer()), id, NewPeer());
  }

  lemma ReceiveKeeps(w: World, s: Node, id: PeerId, chunk: seq<byte>)
    requires RoleSafe(w, s) && id in s.peers && s.peers[id].place.Reading?
    ensures RoleSafe(w, Put(s, id, Received(s.peers[id], chunk)))
  {
    ReceiveBooks(w.net, s.peers[id], chunk);
    MoveKeeps(w, s, Put(s, id, Received(s.peers[id], chunk)), id, Received(s.peers[id], chunk));
  }

  lemma ReplyKeeps(w: World, s: Node, id: PeerId)
    requires RoleSafe(w, s) && id in s.peers && s.peers[id].place.Acting?
    requires s.peers[id].todo != [] && s.peers[id].todo[0].Reply?
    ensures RoleSafe(w, Put(s, id, Replied(s.peers[id])))
  {
    ReplyBooks(w.net, s.peers[id]);
    MoveKeeps(w, s, Put(s, id, Replied(s.peers[id])), id, Replied(s.peers[id]));
  }

  /** Saving, moving the target and a swap that finds the flag up. */
  lemma BegunKeeps(w: World, s: Node, s': Node, id: PeerId, place: Place)
    requires RoleSafe(w, s) && id in s.peers && s.peers[id].place.Acting? && s.peers[id].todo != []
    requires s'.peers == s.peers[id := Begun(s.peers[id]).(place := place)] && !s.peers[id].todo[0].Reply?
    requires s'.hasSyncNode == s.hasSyncNode && s'.owners == s.owners
    requires place.Acting? || place.Closing? || (place.Asking? && s.peers[id].isSyncNode)
    ensures RoleSafe(w, s')
  {
    ActBooks(w.net, s.peers[id], place);
    MoveKeeps(w, s, s', id, Begun(s.peers[id]).(place := place));
  }

  lemma TargetKeeps(w: World, s: Node, id: PeerId)
    requires RoleSafe(w, s) && id in s.peers && s.peers[id].place.Acting?
    requires s.peers[id].todo != [] && s.peers[id].todo[0].UpdateTargetHeight?
    ensures RoleSafe(w, Act(w, s, id, s.peers[id]))
  {
    BegunKeeps(w, s, Act(w, s, id, s.peers[id]), id, Acting);
  }

  lemma SaveKeeps(w: World, s: Node, id: PeerId, batch: seq<BlockHeader>)
    requires RoleSafe(w, s) && id in s.peers && s.peers[id].place.Acting?
    requires s.peers[id].todo != [] && s.peers[id].todo[0].SaveHeaders?
    ensures RoleSafe(w, SaveBatch(w, s, id, Begun(s.peers[id]), batch))
  {
    var s' := SaveBatch(w, s, id, Begun(s.peers[id]), batch);
    BegunKeeps(w, s, s', id, s'.peers[id].place);
  }

  lemma StandbyKeeps(w: World, s: Node, id: PeerId)
    requires RoleSafe(w, s) && id in s.peers && s.peers[id].place.Acting? && s.hasSyncNode
    requires s.peers[id].todo != [] && s.peers[id].todo[0].TryBecomeSyncNode?
    ensures RoleSafe(w, TryRole(s, id, Begun(s.peers[id])))
  {
    BegunKeeps(w, s, TryRole(s, id, Begun(s.peers[id])), id, Acting);
  }

  /** The swap finds the flag down: nobody else is at it. */
  lemma SwapKeeps(w: World, s: Node, id: PeerId)
    requires RoleSafe(w, s) && id in s.peers && s.peers[id].place.Acting? && !s.hasSyncNode
    requires s.peers[id].todo != [] && s.peers[id].todo[0].TryBecomeSyncNode?
    ensures RoleSafe(w, TryRole(s, id, Begun(s.peers[id])))
  {
    NoOwner(w, s);
    ActBooks(w.net, s.peers[id], Won);
    PutKeeps(w, s, TryRole(s, id, Begun(s.peers[id])), id, Begun(s.peers[id]).(place := Won));
  }

  lemma TryKeeps(w: World, s: Node, id: PeerId)
    requires RoleSafe(w, s) && id in s.peers && s.peers[id].place.Acting?
    requires s.peers[id].todo != [] && s.peers[id].todo[0].TryBecomeSyncNode?
    ensures RoleSafe(w, Act(w, s, id, s.peers[id]))
  {
    if s.hasSyncNode { StandbyKeeps(w, s, id); } else { SwapKeeps(w, s, id); }
    ActTries(w, s, id, s.peers[id]);
  }

  lemma ActTries(w: World, s: Node, id: PeerId, p: Peer)
    requires p.todo != [] && p.todo[0].TryBecomeSyncNode?
    ensures Act(w, s, id, p) == TryRole(s, id, Begun(p))
  {
  }

  lemma ActSaves(w: World, s: Node, id: PeerId, p: Peer)
    requires p.todo != [] && p.todo[0].SaveHeaders?
    ensures Act(w, s, id, p) == SaveBatch(w, s, id, Begun(p), p.todo[0].batch)
  {
  }

  lemma ActReplies(w: World, s: Node, id: PeerId, p: Peer)
    requires p.todo != [] && p.todo[0].Reply?
    ensures Act(w, s, id, p) == Put(s, id, Replied(p))
  {
  }

  lemma ActKeeps(w: World, s: Node, id: PeerId)
    requires RoleSafe(w, s) && id in s.peers && s.peers[id].place.Acting? && s.peers[id].todo != []
    ensures RoleSafe(w, Act(w, s, id, s.peers[id]))
  {
    match s.peers[id].todo[0]
    case Reply(_) =>
      ReplyKeeps(w, s, id);
      ActReplies(w, s, id, s.peers[id]);
    case UpdateTargetHeight(_) => TargetKeeps(w, s, id);
    case SaveHeaders(batch) =>
      SaveKeeps(w, s, id, batch);
      ActSaves(w, s, id, s.peers[id]);
    case TryBecomeSyncNode => TryKeeps(w, s, id);
  }

  lemma MarkKeeps(w: World, s: Node, id: PeerId)
    requires RoleSafe(w, s) && id in s.peers && s.peers[id].place.Won?
    ensures RoleSafe(w, Put(s, id, Marked(s.peers[id])))
  {
    PlaceBooks(w.net, s.peers[id], Asking);
    MoveKeeps(w, s, Put(s, id, Marked(s.peers[id])), id, Marked(s.peers[id]));
  }

  lemma SendKeeps(w: World, s: Node, id: PeerId)
    requires RoleSafe(w, s) && id in s.peers && s.peers[id].place.Sending?
    ensures RoleSafe(w, RunPeer(w, s, id, s.peers[id]))
  {
    var p := s.peers[id];
    var s' := Put(s, id, Asked(p, p.place.locator)).(requests := s.requests + [RequestOf(s, id, p)]);
    assert Holder(s, id, p);
    AskedBooks(w.net, p);
    MoveKeeps(w, s, s', id, Asked(p, p.place.locator));
    SendSends(w, s, id, p);
  }

  function RequestOf(s: Node, id: PeerId, p: Peer): Request
    requires p.place.Sending?
  {
    Request(id, |s.owners|, p.place.locator, p.place.height)
  }

  lemma SendSends(w: World, s: Node, id: PeerId, p: Peer)
    requires p.place.Sending?
    ensures RunPeer(w, s, id, p) ==
      Put(s, id, Asked(p, p.place.locator)).(requests := s.requests + [RequestOf(s, id, p)])
  {
  }

  lemma AskedBooks(net: Network, p: Peer)
    requires Books(net, p) && p.place.Sending? && p.isSyncNode
    ensures Books(net, Asked(p, p.place.locator))
  {
    AnswersSnoc(p.sent, GetHeaders(NewGetHeaders(p.place.locator)));
  }

  lemma DropKeeps(w: World, s: Node, id: PeerId)
    requires RoleSafe(w, s) && id in s.peers && s.peers[id].place.Closing?
    ensures RoleSafe(w, RunPeer(w, s, id, s.peers[id]))
  {
    var p, s' := s.peers[id], RunPeer(w, s, id, s.peers[id]);
    if p.isSyncNode { SoleOwner(w, s, id); }
    forall j | j in s'.peers ensures Books(w.net, s'.peers[j]) && Holder(s', j, s'.peers[j]) {
      assert Holder(s, j, s.peers[j]);
    }
    if s'.hasSyncNode {
      var j :| j in s.peers && Owns(s.peers[j]);
      assert Owns(s'.peers[j]);
    }
  }

  lemma RunPeerKeeps(w: World, s: Node, id: PeerId)
    requires RoleSafe(w, s) && id in s.peers
    ensures RoleSafe(w, RunPeer(w, s, id, s.peers[id]))
  {
    var p := s.peers[id];
    assert Holder(s, id, p);
    match p.place
    case Reading =>
    case Draining => DeliverKeeps(w, s, id);
    case Acting => if p.todo == [] { PlaceKeeps(w, s, id, Draining); } else { ActKeeps(w, s, id); }
    case Won => MarkKeeps(w, s, id);
    case Asking => PlaceKeeps(w, s, id, Sending(Locator(w.net, s.chain.bestHash), |s.log|));
    case Sending(_, _) => SendKeeps(w, s, id);
    case Closing => DropKeeps(w, s, id);
  }

  /** Every step keeps the role and the books in order, from any chain and any file. */
  lemma StepKeepsRole(w: World, s: Node, step: Step)
    requires RoleSafe(w, s)
    ensures RoleSafe(w, Do(w, s, step))
  {
    match step
    case Connect(id) => if id !in s.peers { ConnectKeeps(w, s, id); }
    case Receive(id, chunk) =>
      if id in s.peers && s.peers[id].place.Reading? {
        if chunk == [] { PlaceKeeps(w, s, id, Closing); } else { ReceiveKeeps(w, s, id, chunk); }
      }
    case Run(id) => if id in s.peers { RunPeerKeeps(w, s, id); }
    case Lose(id) => if id in s.peers && CanFail(s.peers[id]) { PlaceKeeps(w, s, id, Closing); }
    case Restart =>
  }

  // ---------------------------------------------------------------- the requests, for any file

  /** The shared history is as before, but for a longer log. */
  predicate Frame(s: Node, s': Node) {
    && |s.log| <= |s'.log| && s'.base == s.base
    && s'.owners == s.owners && s'.requests == s.requests
  }

  lemma DueFrame(s: Node, s': Node, p: Peer)
    requires Due(s, p) && (Wants(p) ==> Frame(s, s'))
    ensures Due(s', p)
  {
  }

  lemma RequestsFrame(s: Node, s': Node)
    requires RequestsOk(s) && |s.log| <= |s'.log| && s'.base == s.base && s'.requests == s.requests
    requires s.owners <= s'.owners
    ensures RequestsOk(s')
  {
    forall i | 0 <= i < |s.requests| ensures RequestOk(|s'.log|, s'.owners, s.requests[i]) {
      assert RequestOk(|s.log|, s.owners, s.requests[i]);
    }
  }

  lemma DuesPut(s: Node, s': Node, id: PeerId, p: Peer)
    requires DuesOk(s) && s'.peers == s.peers[id := p] && Due(s', p)
    requires Frame(s, s') || forall j :: j in s.peers && j != id ==> !Wants(s.peers[j])
    ensures DuesOk(s')
  {
    forall j | j in s'.peers ensures Due(s', s'.peers[j]) {
      if j != id { DueFrame(s, s', s.peers[j]); }
    }
  }

  lemma NothingDue(s: Node, p: Peer)
    requires Quiet(p.place)
    ensures Due(s, p)
  {
  }

  /** A move to a place where nothing is about to be sent. */
  lemma QuietProgress(w: World, s: Node, s': Node, id: PeerId, p: Peer)
    requires InProgress(w, s) && s'.peers == s.peers[id := p] && Frame(s, s') && Quiet(p.place)
    requires Mirrored(w.rules, s'.chain, s'.log) && Framed(s'.chain, s'.log)
    ensures InProgress(w, s')
  {
    NothingDue(s', p);
    RequestsFrame(s, s');
    DuesPut(s, s', id, p);
  }

  lemma PutProgress(w: World, s: Node, id: PeerId, p: Peer)
    requires InProgress(w, s) && Quiet(p.place)
    ensures InProgress(w, Put(s, id, p))
  {
    QuietProgress(w, s, Put(s, id, p), id, p);
  }

  lemma OthersQuiet(w: World, s: Node, id: PeerId)
    requires RoleSafe(w, s)
    requires forall j :: j in s.peers && j != id ==> !Owns(s.peers[j])
    ensures forall j :: j in s.peers && j != id ==> !Wants(s.peers[j])
  {
    forall j | j in s.peers && j != id ensures !Wants(s.peers[j]) {
      assert Holder(s, j, s.peers[j]);
    }
  }

  lemma SwapProgress(w: World, s: Node, id: PeerId, q: Peer)
    requires RoleSafe(w, s) && InProgress(w, s) && !s.hasSyncNode
    ensures InProgress(w, TryRole(s, id, q))
  {
    var s' := TryRole(s, id, q);
    NoOwner(w, s);
    OthersQuiet(w, s, id);
    RequestsFrame(s, s');
    forall i | 0 <= i < |s.requests| ensures s.requests[i].tenure < |s'.owners| {
      assert RequestOk(|s.log|, s.owners, s.requests[i]);
    }
    DuesPut(s, s', id, q.(place := Won));
  }

  lemma MarkProgress(w: World, s: Node, id: PeerId)
    requires InProgress(w, s) && id in s.peers && s.peers[id].place.Won?
    ensures InProgress(w, Put(s, id, Marked(s.peers[id])))
  {
    var s' := Put(s, id, Marked(s.peers[id]));
    assert Due(s, s.peers[id]);
    RequestsFrame(s, s');
    forall i | 0 <= i < |s.requests| ensures s.requests[i].height <= |s.log| {
      assert RequestOk(|s.log|, s.owners, s.requests[i]);
    }
    DuesPut(s, s', id, Marked(s.peers[id]));
  }

  lemma LocatorProgress(w: World, s: Node, id: PeerId)
    requires InProgress(w, s) && id in s.peers && s.peers[id].place.Asking?
    ensures InProgress(w, RunPeer(w, s, id, s.peers[id]))
  {
    var s' := RunPeer(w, s, id, s.peers[id]);
    assert Due(s, s.peers[id]);
    RequestsFrame(s, s');
    DuesPut(s, s', id, s'.peers[id]);
  }

  lemma SendProgress(w: World, s: Node, id: PeerId)
    requires RoleSafe(w, s) && InProgress(w, s) && id in s.peers && s.peers[id].place.Sending?
    ensures InProgress(w, RunPeer(w, s, id, s.peers[id]))
  {
    var p := s.peers[id];
    var s' := Put(s, id, Asked(p, p.place.locator)).(requests := s.requests + [RequestOf(s, id, p)]);
    assert Holder(s, id, p);
    SoleOwner(w, s, id);
    OthersQuiet(w, s, id);
    SendingDue(s, id, p);
    RequestAdded(s, s', RequestOf(s, id, p));
    NothingDue(s', Asked(p, p.place.locator));
    DuesPut(s, s', id, Asked(p, p.place.locator));
    SendSends(w, s, id, p);
  }

  lemma SendingDue(s: Node, id: PeerId, p: Peer)
    requires DuesOk(s) && id in s.peers && s.peers[id] == p && p.place.Sending? && Holder(s, id, p)
    ensures var r := RequestOf(s, id, p);
      RequestOk(|s.log|, s.owners, r) && Later(s.requests, r.tenure, r.height)
    ensures |s.requests| + 1 + s.base <= |s.owners| + |s.log|
  {
    assert Due(s, p);
  }

  lemma RequestAdded(s: Node, s': Node, r: Request)
    requires RequestsOk(s) && RequestOk(|s.log|, s.owners, r) && Later(s.requests, r.tenure, r.height)
    requires |s.requests| + 1 + s.base <= |s.owners| + |s.log|
    requires s'.requests == s.requests + [r] && s'.log == s.log && s'.owners == s.owners && s'.base == s.base
    ensures RequestsOk(s')
  {
    forall i | 0 <= i < |s'.requests|
      ensures Later(s'.requests[..i], s'.requests[i].tenure, s'.requests[i].height)
    {
      assert s'.requests[..i] == s.requests[..i];
      assert i == |s.requests| ==> s.requests[..i] == s.requests;
    }
  }

  lemma DropProgress(w: World, s: Node, id: PeerId)
    requires InProgress(w, s) && id in s.peers && s.peers[id].place.Closing?
    ensures InProgress(w, RunPeer(w, s, id, s.peers[id]))
  {
    var s' := RunPeer(w, s, id, s.peers[id]);
    RequestsFrame(s, s');
    forall j | j in s'.peers ensures Due(s', s'.peers[j]) {
      DueFrame(s, s', s.peers[j]);
    }
  }

  lemma FramedStill(c: Chain, log: seq<BlockHeader>, c': Chain, log': seq<BlockHeader>)
    requires Framed(c, log) && log <= log' && c'.file == c.file + EncMany(AsBytes, log'[|log|..])
    ensures Framed(c', log')
  {
    RecordsOfLog(log'[|log|..], []);
    AddRecords(|c.file|, |log'| - |log|);
  }

  lemma AddRecords(n: nat, k: nat)
    ensures (n + RECORD * k) / RECORD == n / RECORD + k
  {
  }

  /** The role holder may ask again once the log is longer. */
  lemma SaveProgress(w: World, s: Node, id: PeerId, batch: seq<BlockHeader>)
    requires InProgress(w, s) && id in s.peers && s.peers[id].place.Acting? && s.peers[id].todo != []
    ensures InProgress(w, SaveBatch(w, s, id, Begun(s.peers[id]), batch))
  {
    var s' := SaveBatch(w, s, id, Begun(s.peers[id]), batch);
    SaveMirrors(w.rules, s.chain, s.log, batch);
    FramedStill(s.chain, s.log, s'.chain, s'.log);
    if s'.peers[id].place.Asking? {
      RequestsFrame(s, s');
      LaterThanAll(s, |s'.log|);
      DuesPut(s, s', id, s'.peers[id]);
    } else {
      QuietProgress(w, s, s', id, s'.peers[id]);
    }
  }

  lemma LaterThanAll(s: Node, height: nat)
    requires RequestsOk(s) && height > |s.log|
    ensures Later(s.requests, |s.owners|, height)
  {
    forall i | 0 <= i < |s.requests| ensures s.requests[i].height < height && s.requests[i].tenure <= |s.owners| {
      assert RequestOk(|s.log|, s.owners, s.requests[i]);
    }
  }

  lemma UpdateProgress(w: World, s: Node, id: PeerId)
    requires InProgress(w, s) && id in s.peers && s.peers[id].place.Acting?
    requires s.peers[id].todo != [] && s.peers[id].todo[0].UpdateTargetHeight?
    ensures InProgress(w, Act(w, s, id, s.peers[id]))
  {
    QuietProgress(w, s, Act(w, s, id, s.peers[id]), id, Begun(s.peers[id]));
  }

  lemma TryProgress(w: World, s: Node, id: PeerId)
    requires RoleSafe(w, s) && InProgress(w, s) && id in s.peers && s.peers[id].place.Acting?
    requires s.peers[id].todo != [] && s.peers[id].todo[0].TryBecomeSyncNode?
    ensures InProgress(w, Act(w, s, id, s.peers[id]))
  {
    if s.hasSyncNode {
      PutProgress(w, s, id, Begun(s.peers[id]));
    } else {
      SwapProgress(w, s, id, Begun(s.peers[id]));
    }
    ActTries(w, s, id, s.peers[id]);
  }

  lemma ActProgress(w: World, s: Node, id: PeerId)
    requires RoleSafe(w, s) && InProgress(w, s)
    requires id in s.peers && s.peers[id].place.Acting? && s.peers[id].todo != []
    ensures InProgress(w, Act(w, s, id, s.peers[id]))
  {
    match s.peers[id].todo[0]
    case Reply(_) =>
      PutProgress(w, s, id, Replied(s.peers[id]));
      ActReplies(w, s, id, s.peers[id]);
    case UpdateTargetHeight(_) => UpdateProgress(w, s, id);
    case SaveHeaders(batch) =>
      SaveProgress(w, s, id, batch);
      ActSaves(w, s, id, s.peers[id]);
    case TryBecomeSyncNode => TryProgress(w, s, id);
  }

  lemma RunPeerProgress(w: World, s: Node, id: PeerId)
    requires RoleSafe(w, s) && InProgress(w, s) && id in s.peers
    ensures InProgress(w, RunPeer(w, s, id, s.peers[id]))
  {
    var p := s.peers[id];
    match p.place
    case Reading =>
    case Draining => PutProgress(w, s, id, Deliver(w.net, p));
    case Acting => if p.todo == [] { PutProgress(w, s, id, p.(place := Draining)); } else { ActProgress(w, s, id); }
    case Won => MarkProgress(w, s, id);
    case Asking => LocatorProgress(w, s, id);
    case Sending(_, _) => SendProgress(w, s, id);
    case Closing => DropProgress(w, s, id);
  }

  /** Every step, restarts included, keeps the requests in order, whatever file the node
      started from: a torn file loads as another log, but as one of the same length. */
  lemma StepKeepsProgress(w: World, s: Node, step: Step)
    requires RoleSafe(w, s) && InProgress(w, s)
    ensures InProgress(w, Do(w, s, step))
  {
    match step
    case Connect(id) => if id !in s.peers { PutProgress(w, s, id, NewPeer()); }
    case Receive(id, chunk) => ReceiveProgress(w, s, id, chunk);
    case Run(id) => if id in s.peers { RunPeerProgress(w, s, id); }
    case Lose(id) => if id in s.peers { PutProgress(w, s, id, s.peers[id].(place := Closing)); }
    case Restart => RequestsFrame(s, Do(w, s, step));
  }

  lemma ReceiveProgress(w: World, s: Node, id: PeerId, chunk: seq<byte>)
    requires InProgress(w, s)
    ensures InProgress(w, Do(w, s, Receive(id, chunk)))
  {
    if id in s.peers {
      PutProgress(w, s, id, s.peers[id].(place := Closing));
      PutProgress(w, s, id, Received(s.peers[id], chunk));
    }
  }

  /** Every step keeps the node in order. */
  lemma StepKeeps(w: World, s: Node, step: Step)
    requires Safe(w, s)
    ensures Safe(w, Do(w, s, step))
  {
    StepKeepsRole(w, s, step);
    StepKeepsProgress(w, s, step);
  }

  // ---------------------------------------------------------------- the file and the locators

  /** Memory still mirrors the log, and the file has gained what the log has. */
  ghost predicate Appended(w: World, s: Node, s': Node) {
    && Mirrored(w.rules, s'.chain, s'.log) && s.log <= s'.log
    && s'.chain.file == s.chain.file + EncMany(AsBytes, s'.log[|s.log|..])
  }

  lemma AppendedNothing(w: World, s: Node, s': Node)
    requires Mirrored(w.rules, s'.chain, s'.log) && s'.log == s.log && s'.chain.file == s.chain.file
    ensures Appended(w, s, s')
  {
    assert s.log[|s.log|..] == [];
    assert s.chain.file + [] == s.chain.file;
  }

  lemma ActAppends(w: World, s: Node, id: PeerId, p: Peer)
    requires Mirrored(w.rules, s.chain, s.log) && p.todo != []
    ensures Appended(w, s, Act(w, s, id, p))
  {
    if p.todo[0].SaveHeaders? {
      SaveMirrors(w.rules, s.chain, s.log, p.todo[0].batch);
    } else {
      AppendedNothing(w, s, Act(w, s, id, p));
    }
  }

  lemma RestAppends(w: World, s: Node, id: PeerId, p: Peer)
    requires Mirrored(w.rules, s.chain, s.log) && !(p.place.Acting? && p.todo != [])
    ensures Appended(w, s, RunPeer(w, s, id, p))
  {
    AppendedNothing(w, s, RunPeer(w, s, id, p));
  }

  lemma RunAppends(w: World, s: Node, id: PeerId, p: Peer)
    requires Mirrored(w.rules, s.chain, s.log)
    ensures Appended(w, s, RunPeer(w, s, id, p))
  {
    if p.place.Acting? && p.todo != [] { ActAppends(w, s, id, p); } else { RestAppends(w, s, id, p); }
  }

  lemma StepAppends(w: World, s: Node, step: Step)
    requires Mirrored(w.rules, s.chain, s.log) && !step.Restart?
    ensures Appended(w, s, Do(w, s, step))
  {
    if step.Run? && step.id in s.peers {
      RunAppends(w, s, step.id, s.peers[step.id]);
    } else {
      AppendedNothing(w, s, Do(w, s, step));
    }
  }

  lemma RestartReplays(w: World, s: Node)
    requires Mirrored(w.rules, s.chain, s.log) && Recorded(s.chain, s.log)
    ensures var s' := Do(w, s, Step.Restart);
      s'.log == s.log && s'.chain == s.chain.(targetHeight := 0) && Mirrored(w.rules, s'.chain, s'.log)
  {
    ReplayMirrors(w.rules, s.chain, s.log);
  }

  /** A file that is just the records of the log stays so, through restarts too. */
  lemma StepRecords(w: World, s: Node, step: Step)
    requires Mirrored(w.rules, s.chain, s.log) && Recorded(s.chain, s.log)
    ensures var s' := Do(w, s, step);
      Mirrored(w.rules, s'.chain, s'.log) && Recorded(s'.chain, s'.log) && s.log <= s'.log
  {
    if step.Restart? {
      RestartReplays(w, s);
    } else {
      var s' := Do(w, s, step);
      StepAppends(w, s, step);
      assert s'.log == s.log + s'.log[|s.log|..];
      EncManyConcat(AsBytes, s.log, s'.log[|s.log|..]);
    }
  }

  lemma LoggedLocatorStays(w: World, log: seq<BlockHeader>, log': seq<BlockHeader>, locator: Hash32, height: nat)
    requires LoggedLocator(w, log, locator, height) && log <= log'
    ensures LoggedLocator(w, log', locator, height)
  {
    assert log'[..height] == log[..height];
  }

  /** Locators stay right as long as the log only grows. */
  lemma LocatorsStay(w: World, s: Node, s': Node)
    requires LocatorsOk(w, s) && s.log <= s'.log
    requires forall r :: r in s'.requests ==> r in s.requests || LoggedLocator(w, s.log, r.locator, r.height)
    requires forall j :: j in s'.peers && s'.peers[j].place.Sending? ==>
      (j in s.peers && s.peers[j].place == s'.peers[j].place) || Located(w, s.log, s'.peers[j].place)
    ensures LocatorsOk(w, s')
  {
    forall r | r in s'.requests ensures LoggedLocator(w, s'.log, r.locator, r.height) {
      LoggedLocatorStays(w, s.log, s'.log, r.locator, r.height);
    }
    forall j | j in s'.peers && s'.peers[j].place.Sending? ensures Located(w, s'.log, s'.peers[j].place) {
      assert j in s.peers ==> Located(w, s.log, s.peers[j].place);
      LoggedLocatorStays(w, s.log, s'.log, s'.peers[j].place.locator, s'.peers[j].place.height);
    }
  }

  lemma ActLocators(w: World, s: Node, id: PeerId, p: Peer)
    requires p.todo != [] && !p.place.Sending?
    ensures var s' := Act(w, s, id, p);
      && s'.requests == s.requests
      && id in s'.peers && !s'.peers[id].place.Sending?
      && forall j :: j in s'.peers && j != id ==> j in s.peers && s'.peers[j] == s.peers[j]
  {
  }

  lemma ActKeepsLocators(w: World, s: Node, id: PeerId, p: Peer)
    requires Mirrored(w.rules, s.chain, s.log) && LocatorsOk(w, s) && p.todo != [] && !p.place.Sending?
    ensures LocatorsOk(w, Act(w, s, id, p))
  {
    ActAppends(w, s, id, p);
    ActLocators(w, s, id, p);
    LocatorsStay(w, s, Act(w, s, id, p));
  }

  lemma RunLocators(w: World, s: Node, id: PeerId)
    requires Mirrored(w.rules, s.chain, s.log) && LocatorsOk(w, s) && id in s.peers
    ensures LocatorsOk(w, RunPeer(w, s, id, s.peers[id]))
  {
    var p := s.peers[id];
    assert Located(w, s.log, p.place);
    if p.place.Acting? && p.todo != [] {
      ActKeepsLocators(w, s, id, p);
    } else {
      if p.place.Asking? { assert s.log[..|s.log|] == s.log; }
      LocatorsStay(w, s, RunPeer(w, s, id, p));
    }
  }

  lemma StepKeepsLocators(w: World, s: Node, step: Step)
    requires Mirrored(w.rules, s.chain, s.log) && LocatorsOk(w, s)
    requires step.Restart? ==> Recorded(s.chain, s.log)
    ensures LocatorsOk(w, Do(w, s, step))
  {
    if step.Run? && step.id in s.peers {
      RunLocators(w, s, step.id);
    } else {
      if step.Restart? { RestartReplays(w, s); }
      LocatorsStay(w, s, Do(w, s, step));
    }
  }

  lemma ActLogged(w: World, s: Node, id: PeerId, p: Peer)
    requires Logged(w.rules, s.chain, s.log) && p.todo != []
    ensures var s' := Act(w, s, id, p); Logged(w.rules, s'.chain, s'.log)
  {
    if p.todo[0].SaveHeaders? { SaveRefinesLog(w.rules, s.chain, s.log, p.todo[0].batch); }
  }

  lemma RunLogged(w: World, s: Node, id: PeerId, p: Peer)
    requires Logged(w.rules, s.chain, s.log)
    ensures var s' := RunPeer(w, s, id, p); Logged(w.rules, s'.chain, s'.log)
  {
    if p.place.Acting? && p.todo != [] { ActLogged(w, s, id, p); }
  }

  /** A log stays one: distinct headers, each on target. */
  lemma StepLogged(w: World, s: Node, step: Step)
    requires Logged(w.rules, s.chain, s.log)
    ensures var s' := Do(w, s, step); Logged(w.rules, s'.chain, s'.log)
  {
    match step
    case Connect(id) =>
    case Receive(id, chunk) =>
    case Run(id) => if id in s.peers { RunLogged(w, s, id, s.peers[id]); }
    case Lose(id) =>
    case Restart => RestartReplays(w, s);
  }

  // ---------------------------------------------------------------- runs

  lemma {:induction false} RunKeepsRole(w: World, s: Node, steps: seq<Step>)
    requires RoleSafe(w, s)
    ensures RoleSafe(w, RunAll(w, s, steps))
    decreases |steps|
  {
    if steps != [] {
      StepKeepsRole(w, s, steps[0]);
      RunKeepsRole(w, Do(w, s, steps[0]), steps[1..]);
    }
  }

  lemma {:induction false} RunKeeps(w: World, s: Node, steps: seq<Step>)
    requires Safe(w, s)
    ensures Safe(w, RunAll(w, s, steps))
    decreases |steps|
  {
    if steps != [] {
      StepKeeps(w, s, steps[0]);
      RunKeeps(w, Do(w, s, steps[0]), steps[1..]);
    }
  }

  /** The steps of one process. */
  predicate OneProcess(steps: seq<Step>) {
    forall i :: 0 <= i < |steps| ==> !steps[i].Restart?
  }

  lemma {:induction false} ProcessLocators(w: World, s: Node, steps: seq<Step>)
    requires Mirrored(w.rules, s.chain, s.log) && LocatorsOk(w, s) && OneProcess(steps)
    ensures LocatorsOk(w, RunAll(w, s, steps))
    decreases |steps|
  {
    if steps != [] {
      StepAppends(w, s, steps[0]);
      StepKeepsLocators(w, s, steps[0]);
      ProcessLocators(w, Do(w, s, steps[0]), steps[1..]);
    }
  }

  lemma {:induction false} RunRecords(w: World, s: Node, steps: seq<Step>)
    requires Mirrored(w.rules, s.chain, s.log) && Recorded(s.chain, s.log) && LocatorsOk(w, s)
    ensures var t := RunAll(w, s, steps);
      && Mirrored(w.rules, t.chain, t.log) && Recorded(t.chain, t.log) && LocatorsOk(w, t)
      && s.log <= t.log
    decreases |steps|
  {
    if steps != [] {
      StepRecords(w, s, steps[0]);
      StepKeepsLocators(w, s, steps[0]);
      RunRecords(w, Do(w, s, steps[0]), steps[1..]);
    }
  }

  lemma {:induction false} RunStaysLogged(w: World, s: Node, steps: seq<Step>)
    requires Logged(w.rules, s.chain, s.log)
    ensures var t := RunAll(w, s, steps); Logged(w.rules, t.chain, t.log)
    decreases |steps|
  {
    if steps != [] {
      StepLogged(w, s, steps[0]);
      RunStaysLogged(w, Do(w, s, steps[0]), steps[1..]);
    }
  }
}
