/** A connection's own code: the receive loop, its actions and the guard of the sync role.
    Run straight through, it takes steps of the machine in `SyncNode`; between two calls of
    its methods other connections may move. */
module Session {
  import opened Bytes
  import opened Headers
  import opened Messages
  import opened ChainStore
  import opened HeaderStore
  import opened Packets
  import opened Deframer
  import opened SyncNode
  import opened SyncRuns

  /** `AtomicBool` */
  class Flag {
    var up: bool

    constructor ()
      ensures !up
    {
      up := false;
    }

    method Swap(value: bool) returns (was: bool)
      modifies this
      ensures was == old(up) && up == value
    {
      was := up;
      up := value;
    }

    method Store(value: bool)
      modifies this
      ensures up == value
    {
      up := value;
    }
  }

  class Connection {
    const w: World
    const id: PeerId
    const hasSyncNode: Flag
    const chain: ChainState
    var pending: seq<byte>
    var isSyncNode: bool
    /** The bytes written to the socket after the opening version message. */
    var sent: seq<byte>
    /** The machine's state. */
    ghost var node: Node

    constructor (w: World, id: PeerId, hasSyncNode: Flag, chain: ChainState, ghost node: Node)
      requires chain.rules == w.rules && node.chain == chain.State() && node.hasSyncNode == hasSyncNode.up
      requires Mirrored(w.rules, node.chain, node.log) && id !in node.peers
      ensures this.w == w && this.id == id && this.hasSyncNode == hasSyncNode && this.chain == chain
      ensures Follows() && this.node == Do(w, node, Connect(id))
    {
      this.w, this.id, this.hasSyncNode, this.chain := w, id, hasSyncNode, chain;
      pending, isSyncNode, sent := [], false, [];
      this.node := Do(w, node, Connect(id));
    }

    /** The connection's fields and the shared ones are those of the machine, whose log memory
        mirrors. */
    ghost predicate Follows()
      reads this, hasSyncNode, chain
    {
      && chain.rules == w.rules
      && node.chain == chain.State() && node.hasSyncNode == hasSyncNode.up
      && Mirrored(w.rules, node.chain, node.log)
      && id in node.peers
      && pending == Me().pending && isSyncNode == Me().isSyncNode && sent == EncodeAll(w.net, Me().sent)
    }

    ghost function Me(): Peer
      reads this
    {
      if id in node.peers then node.peers[id] else NewPeer()
    }

    /** The machine makes this connection's next step. */
    ghost method Advance()
      modifies this`node
      ensures node == Do(w, old(node), Run(id))
      ensures Alone(w, old(node), node, id)
    {
      AloneOne(w, node, id);
      node := Do(w, node, Run(id));
    }

    method Send(m: Message, ghost before: seq<Message>)
      requires sent == EncodeAll(w.net, before)
      requires m.GetData? ==> |m.wanted| < TWO_64
      modifies this`sent
      ensures sent == EncodeAll(w.net, before + [m])
    {
      var packet := EncodeMessage(w.net, m);
      EncodeSnoc(w.net, before, m);
      sent := sent + packet;
    }

    method GetLocatorHash() returns (hash: Hash32)
      ensures hash == Locator(w.net, chain.bestBlockHash)
    {
      hash := if chain.bestBlockHash == ZeroHash() then w.net.genesisHash else chain.bestBlockHash;
    }

    method RequestHeaders()
      requires Follows() && Me().place.Asking?
      modifies this`sent, this`node
      ensures Follows() && Me().place.Acting? && Me().todo == old(Me().todo)
      ensures node.log == old(node).log && Me().acted == old(Me().acted)
      ensures Alone(w, old(node), node, id)
    {
      var locator := ReadLocator();
      ghost var sending := node;
      SendRequest(locator);
      AloneTrans(w, old(node), sending, node, id);
    }

    method ReadLocator() returns (locator: Hash32)
      requires Follows() && Me().place.Asking?
      modifies this`node
      ensures Follows() && Me().todo == old(Me().todo)
      ensures node.log == old(node).log && Me().acted == old(Me().acted)
      ensures Me().place.Sending? && Me().place.locator == locator
      ensures Alone(w, old(node), node, id)
    {
      locator := GetLocatorHash();
      ReadNext(w, node, id);
      Advance();
    }

    method SendRequest(locator: Hash32)
      requires Follows() && Me().place.Sending? && Me().place.locator == locator
      modifies this`sent, this`node
      ensures Follows() && Me().place.Acting? && Me().todo == old(Me().todo)
      ensures node.log == old(node).log && Me().acted == old(Me().acted)
      ensures Alone(w, old(node), node, id)
    {
      Send(GetHeaders(NewGetHeaders(locator)), Me().sent);
      AskedNext(w, node, id);
      Advance();
    }

    method Reply(m: Message)
      requires Follows() && Me().place.Acting? && Me().todo != [] && Me().todo[0] == Action.Reply(m)
      requires m.GetData? ==> |m.wanted| < TWO_64
      modifies this`sent, this`node
      ensures Follows() && Me() == Begun(old(Me())).(sent := old(Me()).sent + [m]) && node.log == old(node).log
      ensures Alone(w, old(node), node, id)
    {
      Send(m, Me().sent);
      Advance();
    }

    method UpdateTarget(height: u32)
      requires Follows() && Me().place.Acting? && Me().todo != [] && Me().todo[0] == UpdateTargetHeight(height)
      modifies chain`targetHeight, this`node
      ensures Follows() && Me() == Begun(old(Me())) && node.log == old(node).log
      ensures Alone(w, old(node), node, id)
    {
      if height > chain.targetHeight {
        chain.targetHeight := height;
      }
      Advance();
    }

    method SaveBatch(headers: seq<BlockHeader>) returns (ok: bool)
      requires Follows() && Me().place.Acting? && Me().todo != [] && Me().todo[0] == SaveHeaders(headers)
      modifies this`sent, this`node, chain
      ensures Follows() && Alone(w, old(node), node, id)
      ensures (node.log, ok) == SaveLog(w.rules, old(node).log, headers)
      ensures Me().acted == old(Me().acted) + [SaveHeaders(headers)]
      ensures if ok then Me().place.Acting? && Me().todo == old(Me().todo)[1..] else Me().place.Closing?
    {
      SaveMirrors(w.rules, node.chain, node.log, headers);
      var r := chain.SaveNewHeaders(headers);
      Advance();
      if r.Rejected? { return false; }
      if isSyncNode && r.count > 0 && |headers| == FULL_BATCH {
        ghost var asking := node;
        RequestHeaders();
        AloneTrans(w, old(node), asking, node, id);
      }
      return true;
    }

    method TryBecome()
      requires Follows() && Me().place.Acting? && Me().todo != [] && Me().todo[0] == TryBecomeSyncNode
      modifies this`sent, this`node, this`isSyncNode, hasSyncNode
      ensures Follows() && Me().place.Acting? && Me().todo == old(Me().todo)[1..]
      ensures node.log == old(node).log && Me().acted == old(Me().acted) + [TryBecomeSyncNode]
      ensures Alone(w, old(node), node, id)
    {
      var was := hasSyncNode.Swap(true);
      Advance();
      if !was {
        ghost var won := node;
        isSyncNode := true;
        Advance();
        AloneTrans(w, old(node), won, node, id);
        ghost var asking := node;
        RequestHeaders();
        AloneTrans(w, old(node), asking, node, id);
      }
    }

    method Perform(action: Action) returns (ok: bool)
      requires Follows() && Me().place.Acting? && Me().todo != [] && Me().todo[0] == action && Writable(action)
      modifies this`sent, this`node, this`isSyncNode, hasSyncNode, chain
      ensures Follows() && Alone(w, old(node), node, id)
      ensures ok <==> !Rejects(w.rules, old(node).log, action)
      ensures node.log == LogActed(w.rules, old(node).log, [action]) && Me().acted == old(Me().acted) + [action]
      ensures if ok then Me().place.Acting? && Me().todo == old(Me().todo)[1..] else Me().place.Closing?
    {
      LogActedOne(w.rules, node.log, action);
      ok := true;
      match action {
        case Reply(m) => Reply(m);
        case UpdateTargetHeight(height) => UpdateTarget(height);
        case SaveHeaders(headers) => ok := SaveBatch(headers);
        case TryBecomeSyncNode => TryBecome();
      }
    }

    /** The actions are taken in order up to the first rejected batch, if there is one. */
    method HandlePeerActions(actions: seq<Action>) returns (ok: bool, ghost taken: nat)
      requires Follows() && Me().place.Acting? && Me().todo == actions && forall a :: a in actions ==> Writable(a)
      modifies this`sent, this`node, this`isSyncNode, hasSyncNode, chain
      ensures Follows() && Alone(w, old(node), node, id)
      ensures if ok then Me().place.Acting? && Me().todo == [] else Me().place.Closing?
      ensures taken <= |actions| && Me().acted == old(Me().acted) + actions[..taken]
      ensures node.log == LogActed(w.rules, old(node).log, actions[..taken])
      ensures ok <==> AllAccepted(w.rules, old(node).log, actions)
      ensures ok ==> taken == |actions|
      ensures !ok ==> 0 < taken && AllAccepted(w.rules, old(node).log, actions[..taken - 1])
      ensures !ok ==> Rejects(w.rules, LogActed(w.rules, old(node).log, actions[..taken - 1]), actions[taken - 1])
    {
      AloneSelf(w, node, id);
      for k := 0 to |actions|
        invariant Follows() && Me().place.Acting? && Me().todo == actions[k..]
        invariant Alone(w, old(node), node, id)
        invariant Me().acted == old(Me().acted) + actions[..k]
        invariant node.log == LogActed(w.rules, old(node).log, actions[..k])
        invariant AllAccepted(w.rules, old(node).log, actions[..k])
      {
        ghost var before := node;
        OneTaken(w.rules, old(node).log, actions, k);
        ok := Perform(actions[k]);
        AloneTrans(w, old(node), before, node, id);
        TakenSnoc(old(Me().acted), actions, k);
        if !ok {
          taken := k + 1;
          return;
        }
      }
      ok, taken := true, |actions|;
      assert actions[..taken] == actions;
    }

    /** One turn of the inner loop, after a packet has been recognised. */
    method Dispatch(message: Message, consumed: nat) returns (ok: bool)
      requires Follows() && Me().place.Draining? && FromPacket(w.net, pending) == Some((message, consumed))
      modifies this, hasSyncNode, chain
      ensures Follows() && Alone(w, old(node), node, id)
      ensures if ok then Me().place.Draining? && |pending| < |old(pending)| else Me().place.Closing?
      ensures pending == old(pending)[consumed..] && ok == AllAccepted(w.rules, old(node).log, Process(message))
      ensures ok ==> node.log == LogActed(w.rules, old(node).log, Process(message))
    {
      RepliesWritable(w.net, pending);
      TakeOff(message, consumed);
      ghost var acting := node;
      ok := HandleMessage(message);
      AloneTrans(w, old(node), acting, node, id);
    }

    method HandleMessage(message: Message) returns (ok: bool)
      requires Follows() && Me().place.Acting? && Me().todo == Process(message)
      requires forall a :: a in Process(message) ==> Writable(a)
      modifies this`sent, this`node, this`isSyncNode, hasSyncNode, chain
      ensures Follows() && Alone(w, old(node), node, id)
      ensures if ok then Me().place.Draining? else Me().place.Closing?
      ensures ok <==> AllAccepted(w.rules, old(node).log, Process(message))
      ensures ok ==> node.log == LogActed(w.rules, old(node).log, Process(message))
    {
      var actions := ProcessMessage(message);
      ghost var taken;
      ok, taken := HandlePeerActions(actions);
      assert actions[..|actions|] == actions;
      if ok {
        ghost var idle := node;
        Finish();
        AloneTrans(w, old(node), idle, node, id);
      }
    }

    method TakeOff(message: Message, consumed: nat)
      requires Follows() && Me().place.Draining? && FromPacket(w.net, pending) == Some((message, consumed))
      modifies this`pending, this`node
      ensures Follows() && Me().place.Acting? && Me().todo == Process(message)
      ensures |pending| < |old(pending)| && Alone(w, old(node), node, id)
      ensures pending == old(pending)[consumed..] && node.log == old(node).log
    {
      pending := pending[consumed..];
      Advance();
    }

    ghost method Finish()
      requires Follows() && Me().place.Acting? && Me().todo == []
      modifies this`node
      ensures Follows() && Me().place.Draining? && Alone(w, old(node), node, id) && node.log == old(node).log
    {
      Advance();
    }

    /** The loop over the whole packets ends early exactly at a rejected batch. */
    method DrainPending() returns (open: bool)
      requires Follows() && Me().place.Draining?
      modifies this, hasSyncNode, chain
      ensures Follows() && Alone(w, old(node), node, id)
      ensures if open then Me().place.Draining? && FromPacket(w.net, pending).None? else Me().place.Closing?
      ensures open <==> AllAccepted(w.rules, old(node).log, ProcessAll(Drain(w.net, old(pending)).0))
    {
      AloneSelf(w, node, id);
      ghost var done: seq<Message> := [];
      var next := ReadPacket(w.net, pending);
      while next.Some?
        invariant Follows() && Me().place.Draining? && next == FromPacket(w.net, pending)
        invariant Alone(w, old(node), node, id)
        invariant Drain(w.net, old(pending)).0 == done + Drain(w.net, pending).0
        invariant AllAccepted(w.rules, old(node).log, ProcessAll(done))
        invariant node.log == LogActed(w.rules, old(node).log, ProcessAll(done))
        decreases |pending|
      {
        ghost var before := node;
        MessageTaken(w, old(node).log, done, pending);
        var ok := Dispatch(next.value.0, next.value.1);
        AloneTrans(w, old(node), before, node, id);
        if !ok { return false; }
        done := done + [next.value.0];
        next := ReadPacket(w.net, pending);
      }
      assert done + [] == done;
      return true;
    }

    /** What follows a read: an empty one ends the connection, any other is taken in and its
        whole packets are handled. */
    method OnRead(chunk: seq<byte>) returns (open: bool)
      requires Follows() && Me().place.Reading? && |chunk| <= BUFFER
      modifies this, hasSyncNode, chain
      ensures Follows()
      ensures Alone(w, Do(w, old(node), Receive(id, chunk)), node, id)
      ensures if open then Me().place.Reading? && FromPacket(w.net, pending).None? else Me().place.Closing?
      ensures open ==> chunk != []
      ensures chunk != [] ==>
        (open <==> AllAccepted(w.rules, old(node).log, ProcessAll(Drain(w.net, old(pending) + chunk).0)))
    {
      TakeIn(chunk);
      AloneSelf(w, node, id);
      if chunk == [] { return false; }
      ghost var received := node;
      open := DrainPending();
      if open {
        ghost var drained := node;
        Wait();
        AloneTrans(w, received, drained, node, id);
      }
    }

    method TakeIn(chunk: seq<byte>)
      requires Follows() && Me().place.Reading? && |chunk| <= BUFFER
      modifies this`pending, this`node
      ensures Follows() && node == Do(w, old(node), Receive(id, chunk)) && node.log == old(node).log
      ensures chunk != [] ==> pending == old(pending) + chunk
      ensures if chunk == [] then Me().place.Closing? else Me().place.Draining?
    {
      node := Do(w, node, Receive(id, chunk));
      if chunk != [] { pending := pending + chunk; }
    }

    ghost method Wait()
      requires Follows() && Me().place.Draining? && FromPacket(w.net, pending).None?
      modifies this`node
      ensures Follows() && Me().place.Reading? && Alone(w, old(node), node, id)
    {
      Advance();
    }

    /** `SyncNodeGuard::drop` */
    method Drop()
      requires Follows() && Me().place.Closing?
      modifies hasSyncNode, this`node
      ensures node == Do(w, old(node), Run(id)) && id !in node.peers
      ensures node.hasSyncNode == hasSyncNode.up && node.chain == chain.State()
    {
      if isSyncNode {
        hasSyncNode.Store(false);
      }
      DroppedNext(w, node, id);
      Advance();
    }
  }

  /** The action saves a batch that this log rejects. */
  ghost predicate Rejects(rules: Rules, log: seq<BlockHeader>, a: Action) {
    a.SaveHeaders? && !SaveLog(rules, log, a.batch).1
  }

  /** The log after these actions. */
  ghost function LogActed(rules: Rules, log: seq<BlockHeader>, actions: seq<Action>): seq<BlockHeader> {
    if actions == [] then log
    else
      var a := actions[|actions| - 1];
      var before := LogActed(rules, log, actions[..|actions| - 1]);
      if a.SaveHeaders? then SaveLog(rules, before, a.batch).0 else before
  }

  /** None of the actions is rejected when its turn comes. */
  ghost predicate AllAccepted(rules: Rules, log: seq<BlockHeader>, actions: seq<Action>) {
    forall i :: 0 <= i < |actions| ==> !Rejects(rules, LogActed(rules, log, actions[..i]), actions[i])
  }

  lemma LogActedOne(rules: Rules, log: seq<BlockHeader>, a: Action)
    ensures LogActed(rules, log, [a]) == if a.SaveHeaders? then SaveLog(rules, log, a.batch).0 else log
  {
    assert [a][..0] == [];
  }

  lemma TakenSnoc(acted: seq<Action>, actions: seq<Action>, k: nat)
    requires k < |actions|
    ensures (acted + actions[..k]) + [actions[k]] == acted + actions[..k + 1]
  {
  }

  lemma AcceptedOne(rules: Rules, log: seq<BlockHeader>, a: Action)
    ensures AllAccepted(rules, log, [a]) <==> !Rejects(rules, log, a)
  {
    assert [a][..0] == [];
    assert AllAccepted(rules, log, [a]) ==> !Rejects(rules, LogActed(rules, log, [a][..0]), [a][0]);
  }

  lemma OneTaken(rules: Rules, log: seq<BlockHeader>, actions: seq<Action>, k: nat)
    requires k < |actions| && AllAccepted(rules, log, actions[..k])
    ensures var before := LogActed(rules, log, actions[..k]);
      && LogActed(rules, log, actions[..k + 1]) == LogActed(rules, before, [actions[k]])
      && (!Rejects(rules, before, actions[k]) ==> AllAccepted(rules, log, actions[..k + 1]))
      && (Rejects(rules, before, actions[k]) ==> !AllAccepted(rules, log, actions))
  {
    var taken := actions[..k];
    assert actions[..k + 1] == taken + [actions[k]];
    ActedConcat(rules, log, taken, [actions[k]]);
    AcceptedConcat(rules, log, taken, [actions[k]]);
    AcceptedOne(rules, LogActed(rules, log, taken), actions[k]);
    assert actions == taken + actions[k..] && actions[k..] == [actions[k]] + actions[k + 1..];
    AcceptedConcat(rules, log, taken, actions[k..]);
    AcceptedConcat(rules, LogActed(rules, log, taken), [actions[k]], actions[k + 1..]);
  }

  lemma {:induction false} ActedConcat(rules: Rules, log: seq<BlockHeader>, a: seq<Action>, b: seq<Action>)
    ensures LogActed(rules, log, a + b) == LogActed(rules, LogActed(rules, log, a), b)
  {
    if b == [] {
      assert a + b == a;
    } else {
      assert (a + b)[..|a + b| - 1] == a + b[..|b| - 1];
      ActedConcat(rules, log, a, b[..|b| - 1]);
    }
  }

  lemma AcceptedConcat(rules: Rules, log: seq<BlockHeader>, a: seq<Action>, b: seq<Action>)
    ensures AllAccepted(rules, log, a + b) <==>
      AllAccepted(rules, log, a) && AllAccepted(rules, LogActed(rules, log, a), b)
  {
    forall i | 0 <= i < |a| ensures (a + b)[..i] == a[..i] && (a + b)[i] == a[i] {
    }
    forall j | 0 <= j < |b|
      ensures LogActed(rules, log, (a + b)[..|a| + j]) == LogActed(rules, LogActed(rules, log, a), b[..j])
      ensures (a + b)[|a| + j] == b[j]
    {
      assert (a + b)[..|a| + j] == a + b[..j];
      ActedConcat(rules, log, a, b[..j]);
    }
    if AllAccepted(rules, log, a + b) {
      AcceptedParts(rules, log, a, b);
    }
  }

  lemma AcceptedParts(rules: Rules, log: seq<BlockHeader>, a: seq<Action>, b: seq<Action>)
    requires AllAccepted(rules, log, a + b)
    ensures AllAccepted(rules, log, a) && AllAccepted(rules, LogActed(rules, log, a), b)
  {
    forall i | 0 <= i < |a| ensures !Rejects(rules, LogActed(rules, log, a[..i]), a[i]) {
      assert (a + b)[..i] == a[..i] && (a + b)[i] == a[i];
    }
    forall j | 0 <= j < |b| ensures !Rejects(rules, LogActed(rules, LogActed(rules, log, a), b[..j]), b[j]) {
      assert (a + b)[..|a| + j] == a + b[..j] && (a + b)[|a| + j] == b[j];
      ActedConcat(rules, log, a, b[..j]);
    }
  }

  /** What taking one more message off means for all that are there. */
  lemma MessageTaken(w: World, log: seq<BlockHeader>, done: seq<Message>, pending: seq<byte>)
    requires FromPacket(w.net, pending).Some? && AllAccepted(w.rules, log, ProcessAll(done))
    ensures var (m, n) := FromPacket(w.net, pending).value; var before := LogActed(w.rules, log, ProcessAll(done));
      && done + Drain(w.net, pending).0 == (done + [m]) + Drain(w.net, pending[n..]).0
      && LogActed(w.rules, log, ProcessAll(done + [m])) == LogActed(w.rules, before, Process(m))
      && (AllAccepted(w.rules, log, ProcessAll(done + [m])) <==> AllAccepted(w.rules, before, Process(m)))
      && (AllAccepted(w.rules, log, ProcessAll(done + Drain(w.net, pending).0)) ==>
            AllAccepted(w.rules, before, Process(m)))
  {
    var (m, n) := FromPacket(w.net, pending).value;
    var more := Drain(w.net, pending[n..]).0;
    DeliveredOver(done, m, more);
    ProcessSnoc(done, m);
    ActedConcat(w.rules, log, ProcessAll(done), Process(m));
    AcceptedConcat(w.rules, log, ProcessAll(done), Process(m));
    ProcessConcat(done + [m], more);
    AcceptedConcat(w.rules, log, ProcessAll(done + [m]), ProcessAll(more));
  }

  /** An action whose reply, if it is an inventory, has a count of 64 bits. */
  predicate Writable(a: Action) {
    a.Reply? && a.message.GetData? ==> |a.message.wanted| < TWO_64
  }

  lemma RepliesWritable(net: Network, p: seq<byte>)
    requires FromPacket(net, p).Some?
    ensures forall a :: a in Process(FromPacket(net, p).value.0) ==> Writable(a)
  {
    InventoryBounded(NameOf(p[4..16]), p[24..24 + PayloadLen(p)]);
    ProcessWritable(FromPacket(net, p).value.0);
  }

  lemma ProcessWritable(m: Message)
    requires m.Inv? ==> |m.inv| < TWO_64
    ensures forall a :: a in Process(m) ==> Writable(a)
  {
  }

  lemma InventoryBounded(name: seq<byte>, payload: seq<byte>)
    ensures var r := Decipher(name, payload); r.Some? && r.value.Inv? ==> |r.value.inv| < TWO_64
  {
    InventoryForwarded(payload);
  }

  lemma {:induction false} EncodeSnoc(net: Network, ms: seq<Message>, m: Message)
    ensures EncodeAll(net, ms + [m]) == EncodeAll(net, ms) + Encode(net, m)
  {
    if ms == [] {
      assert EncodeAll(net, [m]) == Encode(net, m) + EncodeAll(net, []) == Encode(net, m);
    } else {
      assert (ms + [m])[1..] == ms[1..] + [m];
      EncodeSnoc(net, ms[1..], m);
    }
  }

  lemma DroppedNext(w: World, s: Node, id: PeerId)
    requires id in s.peers && s.peers[id].place.Closing?
    ensures var (p, t) := (s.peers[id], Do(w, s, Run(id)));
      id !in t.peers && t.chain == s.chain && t.hasSyncNode == (s.hasSyncNode && !p.isSyncNode)
  {
  }

  lemma ReadNext(w: World, s: Node, id: PeerId)
    requires id in s.peers && s.peers[id].place.Asking?
    ensures var (p, t) := (s.peers[id], Do(w, s, Run(id)));
      && t.peers == s.peers[id := p.(place := Sending(Locator(w.net, s.chain.bestHash), |s.log|))]
      && t.chain == s.chain && t.log == s.log && t.hasSyncNode == s.hasSyncNode
  {
  }

  lemma AskedNext(w: World, s: Node, id: PeerId)
    requires id in s.peers && s.peers[id].place.Sending?
    ensures var (p, t) := (s.peers[id], Do(w, s, Run(id)));
      && t.peers == s.peers[id := Asked(p, p.place.locator)] && t.chain == s.chain && t.log == s.log
      && t.hasSyncNode == s.hasSyncNode
  {
  }

  /** A read handled from a state in order leaves one in order; the connection's messages are
      those of all it has received, and its actions theirs. */
  lemma ReadHandled(w: World, s: Node, t: Node, id: PeerId, chunk: seq<byte>)
    requires RoleSafe(w, s) && Alone(w, Do(w, s, Receive(id, chunk)), t, id)
    requires id in t.peers && t.peers[id].place.Reading?
    ensures RoleSafe(w, t)
    ensures var p := t.peers[id];
      Drain(w.net, p.received) == (p.delivered, p.pending) && p.acted == ProcessAll(p.delivered)
  {
    StepKeepsRole(w, s, Receive(id, chunk));
    AloneKeepsRole(w, Do(w, s, Receive(id, chunk)), t, id);
    BooksRead(w.net, t.peers[id]);
  }
}
