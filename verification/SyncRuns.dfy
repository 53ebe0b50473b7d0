/** What holds over every run of the node, however the connections interleave. */
module SyncRuns {
  import opened Bytes
  import opened Streams
  import opened Headers
  import opened Messages
  import opened ChainStore
  import opened Packets
  import opened Deframer
  import opened SyncNode

  lemma ReachedRole(w: World, file: seq<byte>, steps: seq<Step>)
    ensures RoleSafe(w, RunAll(w, Boot(w, file), steps))
  {
    RunKeepsRole(w, Boot(w, file), steps);
  }

  // ---------------------------------------------------------------- the sync role

  /** At most one connection holds the role; the flag is up exactly while one does; with all
      connections dropped it is down. */
  lemma RoleExclusive(w: World, file: seq<byte>, steps: seq<Step>)
    ensures var s := RunAll(w, Boot(w, file), steps);
      && (forall i, j :: i in s.peers && j in s.peers && Owns(s.peers[i]) && Owns(s.peers[j]) ==> i == j)
      && (s.hasSyncNode <==> exists i :: i in s.peers && Owns(s.peers[i]))
      && (s.peers == map[] ==> !s.hasSyncNode)
  {
    var s := RunAll(w, Boot(w, file), steps);
    ReachedRole(w, file, steps);
    forall i | i in s.peers && Owns(s.peers[i])
      ensures s.hasSyncNode && forall j :: j in s.peers && Owns(s.peers[j]) ==> i == j
    {
      SoleOwner(w, s, i);
    }
  }

  /** Only the holder of the role ever asks for headers: a step that adds a request is a step
      of the one connection that owns it, and the request is for the locator it read. */
  lemma OnlyOwnerAsks(w: World, file: seq<byte>, steps: seq<Step>, step: Step)
    ensures var s := RunAll(w, Boot(w, file), steps);
      Do(w, s, step).requests != s.requests ==> HolderAsks(s, Do(w, s, step), step)
  {
    var s := RunAll(w, Boot(w, file), steps);
    ReachedRole(w, file, steps);
    HolderStep(w, s, step);
  }

  /** The step is one of the connection that took the role last and still holds it, and adds
      the request it was about to send. */
  predicate HolderAsks(s: Node, s': Node, step: Step) {
    && step.Run? && step.id in s.peers
    && var p := s.peers[step.id];
    && s.hasSyncNode && p.isSyncNode && s.owners != [] && s.owners[|s.owners| - 1] == step.id
    && p.place.Sending?
    && s'.requests == s.requests + [Request(step.id, |s.owners|, p.place.locator, p.place.height)]
    && step.id in s'.peers && s'.peers[step.id].sent == p.sent + [GetHeaders(NewGetHeaders(p.place.locator))]
  }

  lemma HolderStep(w: World, s: Node, step: Step)
    requires RoleSafe(w, s)
    ensures Do(w, s, step).requests != s.requests ==> HolderAsks(s, Do(w, s, step), step)
  {
    RequestStep(w, s, step);
    if step.Run? && step.id in s.peers && s.peers[step.id].place.Sending? {
      assert Holder(s, step.id, s.peers[step.id]);
      RequestSent(w, s, step);
    }
  }

  lemma RequestStep(w: World, s: Node, step: Step)
    ensures var s' := Do(w, s, step);
      s'.requests != s.requests ==>
        && step.Run? && step.id in s.peers && s.peers[step.id].place.Sending?
        && s'.requests == s.requests + [Request(step.id, |s.owners|, s.peers[step.id].place.locator,
          s.peers[step.id].place.height)]
  {
  }

  lemma RequestSent(w: World, s: Node, step: Step)
    requires step.Run? && step.id in s.peers && s.peers[step.id].place.Sending?
    ensures var (p, s') := (s.peers[step.id], Do(w, s, step));
      step.id in s'.peers && s'.peers[step.id].sent == p.sent + [GetHeaders(NewGetHeaders(p.place.locator))]
  {
  }

  /** No connection without the role has sent a `getheaders`. */
  lemma StandbySilent(w: World, file: seq<byte>, steps: seq<Step>, id: PeerId, m: Message)
    requires id in RunAll(w, Boot(w, file), steps).peers
    ensures var p := RunAll(w, Boot(w, file), steps).peers[id];
      m in p.sent && m.GetHeaders? ==> p.isSyncNode
  {
    var s := RunAll(w, Boot(w, file), steps);
    ReachedRole(w, file, steps);
    assert Books(w.net, s.peers[id]);
  }

  // ---------------------------------------------------------------- progress

  /** The genesis hash, or the hash of a logged header. */
  ghost predicate KnownLocator(w: World, log: seq<BlockHeader>, locator: Hash32) {
    locator == w.net.genesisHash || Known(w.rules, log, locator)
  }

  /** Requests never go back in height, and within a tenure of the role, which is one
      connection's, each is made at a strictly greater height than the last. There are at most
      as many as the role was taken and headers were added to the `start` there were at first. */
  ghost predicate RequestsOrdered(s: Node, start: nat) {
    && (forall i, j :: 0 <= i < j < |s.requests| ==> InOrder(s.requests[i], s.requests[j]))
    && |s.requests| + start <= |s.owners| + |s.log|
  }

  predicate InOrder(a: Request, b: Request) {
    && a.height <= b.height && a.tenure <= b.tenure
    && (a.tenure == b.tenure ==> a.peer == b.peer && a.height < b.height)
  }

  /** Each request names the newest header there was, the genesis block or a logged one. */
  ghost predicate RequestsLocated(w: World, s: Node) {
    forall r :: r in s.requests ==> LoggedLocator(w, s.log, r.locator, r.height) && KnownLocator(w, s.log, r.locator)
  }

  /** The requests of all processes together are in order, whatever file the first one
      started from. */
  lemma RequestsProgress(w: World, file: seq<byte>, steps: seq<Step>)
    ensures RequestsOrdered(RunAll(w, Boot(w, file), steps), |Records(file)|)
  {
    var s := RunAll(w, Boot(w, file), steps);
    RunKeeps(w, Boot(w, file), steps);
    BaseStays(w, Boot(w, file), steps);
    forall i, j | 0 <= i < j < |s.requests| ensures InOrder(s.requests[i], s.requests[j]) {
      RequestOrder(s, i, j);
    }
  }

  lemma LocatorsRead(w: World, s: Node)
    requires LocatorsOk(w, s)
    ensures RequestsLocated(w, s)
  {
    forall r | r in s.requests ensures KnownLocator(w, s.log, r.locator) {
      LocatorKnown(w, s.log, r.locator, r.height);
    }
  }

  /** Those of one process name the newest header of their moment, whatever its file. */
  lemma ProcessRequestsLocated(w: World, file: seq<byte>, steps: seq<Step>)
    requires OneProcess(steps)
    ensures RequestsLocated(w, RunAll(w, Boot(w, file), steps))
  {
    ProcessLocators(w, Boot(w, file), steps);
    LocatorsRead(w, RunAll(w, Boot(w, file), steps));
  }

  /** A file of whole records, which may repeat headers or miss their targets. */
  predicate WholeFile(file: seq<byte>) { |file| % RECORD == 0 }

  lemma ReachedRecords(w: World, file: seq<byte>, steps: seq<Step>)
    requires WholeFile(file)
    ensures var s := RunAll(w, Boot(w, file), steps);
      && Mirrored(w.rules, s.chain, s.log) && Recorded(s.chain, s.log) && LocatorsOk(w, s)
      && Records(file) <= s.log
  {
    RecordsWhole(file);
    RunRecords(w, Boot(w, file), steps);
  }

  /** Those of all processes together do, when the first one found whole records. */
  lemma RequestsAcrossRestarts(w: World, file: seq<byte>, steps: seq<Step>)
    requires WholeFile(file)
    ensures RequestsLocated(w, RunAll(w, Boot(w, file), steps))
  {
    ReachedRecords(w, file, steps);
    LocatorsRead(w, RunAll(w, Boot(w, file), steps));
  }

  lemma RequestOrder(s: Node, i: nat, j: nat)
    requires RequestsOk(s) && i < j < |s.requests|
    ensures InOrder(s.requests[i], s.requests[j])
  {
    assert Later(s.requests[..j], s.requests[j].tenure, s.requests[j].height);
    assert s.requests[..j][i] == s.requests[i];
    assert RequestOk(|s.log|, s.owners, s.requests[i]) && RequestOk(|s.log|, s.owners, s.requests[j]);
  }

  lemma LocatorKnown(w: World, log: seq<BlockHeader>, locator: Hash32, height: nat)
    requires LoggedLocator(w, log, locator, height)
    ensures KnownLocator(w, log, locator)
  {
    if locator != w.net.genesisHash {
      assert log[..height][height - 1] == log[height - 1] && log[height - 1] in log;
    }
  }

  /** What a request sent now would name: the last header there is, or without one the
      genesis block. */
  lemma LocatorNewest(w: World, s: Node)
    requires Mirrored(w.rules, s.chain, s.log)
    ensures var locator := Locator(w.net, s.chain.bestHash);
      && LoggedLocator(w, s.log, locator, |s.log|) && KnownLocator(w, s.log, locator)
      && (s.log == [] ==> locator == w.net.genesisHash)
      && (s.log != [] && w.rules.hash(s.log[|s.log| - 1]) != ZeroHash() ==> locator == w.rules.hash(s.log[|s.log| - 1]))
  {
    assert s.log[..|s.log|] == s.log;
    LocatorKnown(w, s.log, Locator(w.net, s.chain.bestHash), |s.log|);
  }

  lemma {:induction false} BaseStays(w: World, s: Node, steps: seq<Step>)
    ensures RunAll(w, s, steps).base == s.base
    decreases |steps|
  {
    if steps != [] {
      BaseStep(w, s, steps[0]);
      BaseStays(w, Do(w, s, steps[0]), steps[1..]);
    }
  }

  lemma BaseStep(w: World, s: Node, step: Step)
    ensures Do(w, s, step).base == s.base
  {
  }

  // ---------------------------------------------------------------- messages and actions

  /** Whatever the others do meanwhile, a connection that waits for bytes has delivered just
      the messages of the bytes it received, however these were cut, and has taken each of
      their actions once, in order; at any other moment it is part way there. What it has
      sent, apart from requests for headers, is the replies of those actions, in order. */
  lemma EveryMessageOnce(w: World, file: seq<byte>, steps: seq<Step>, id: PeerId)
    requires id in RunAll(w, Boot(w, file), steps).peers
    ensures var p := RunAll(w, Boot(w, file), steps).peers[id];
      && p.delivered <= Drain(w.net, p.received).0
      && p.acted <= ProcessAll(p.delivered)
      && (p.place.Reading? ==>
            && Drain(w.net, p.received) == (p.delivered, p.pending)
            && p.acted == ProcessAll(Drain(w.net, p.received).0))
      && Answers(p.sent) == RepliesIn(p.acted)
  {
    var s := RunAll(w, Boot(w, file), steps);
    ReachedRole(w, file, steps);
    assert Books(w.net, s.peers[id]);
    BooksRead(w.net, s.peers[id]);
  }

  lemma BooksRead(net: Network, p: Peer)
    requires Books(net, p)
    ensures p.delivered <= Drain(net, p.received).0 && p.acted <= ProcessAll(p.delivered)
    ensures p.place.Reading? ==> Drain(net, p.received) == (p.delivered, p.pending)
    ensures p.place.Reading? ==> p.acted == ProcessAll(p.delivered)
  {
    assert p.delivered + [] == p.delivered;
    assert p.acted + [] == p.acted;
  }

  // ---------------------------------------------------------------- the chain

  /** At every moment of every run from a file of whole records, restarts included, the file
      replays to what memory holds, and nothing that was ever saved is lost. */
  lemma ChainDurable(w: World, file: seq<byte>, steps: seq<Step>)
    requires WholeFile(file)
    ensures var s := RunAll(w, Boot(w, file), steps);
      && Loaded(w.rules, s.chain.file) == s.chain.(targetHeight := 0)
      && Records(s.chain.file) == s.log && Records(file) <= s.log
  {
    var s := RunAll(w, Boot(w, file), steps);
    ReachedRecords(w, file, steps);
    ReplayMirrors(w.rules, s.chain, s.log);
  }

  /** The file is that of a log: whole records, distinct, each on target. */
  ghost predicate LogFile(w: World, file: seq<byte>) {
    Logged(w.rules, Loaded(w.rules, file), Records(file))
  }

  /** From a log, it stays one: no header twice, each on target, all of them in memory. */
  lemma LogDurable(w: World, file: seq<byte>, steps: seq<Step>)
    requires LogFile(w, file)
    ensures var s := RunAll(w, Boot(w, file), steps);
      && LogFile(w, s.chain.file) && Records(s.chain.file) == s.log
      && Distinct(w.rules, s.log) && (forall h :: h in s.log ==> w.rules.meetsTarget(h))
      && |s.chain.cache| == |s.log|
  {
    var s := RunAll(w, Boot(w, file), steps);
    RunStaysLogged(w, Boot(w, file), steps);
    ReplayRebuilds(w.rules, s.chain, s.log);
    CacheSize(w.rules, s.log);
  }

  lemma AppendedTrans(w: World, s: Node, t: Node, u: Node)
    requires Appended(w, s, t) && Appended(w, t, u)
    ensures Appended(w, s, u)
  {
    var a, b := t.log[|s.log|..], u.log[|t.log|..];
    assert u.log[|s.log|..] == a + b;
    EncManyConcat(AsBytes, a, b);
    Assoc(s.chain.file, EncMany(AsBytes, a), EncMany(AsBytes, b));
  }

  lemma {:induction false} ProcessAppends(w: World, s: Node, steps: seq<Step>)
    requires Mirrored(w.rules, s.chain, s.log) && OneProcess(steps)
    ensures Appended(w, s, RunAll(w, s, steps))
    decreases |steps|
  {
    if steps == [] {
      AppendedNothing(w, s, s);
    } else {
      StepAppends(w, s, steps[0]);
      ProcessAppends(w, Do(w, s, steps[0]), steps[1..]);
      AppendedTrans(w, s, Do(w, s, steps[0]), RunAll(w, s, steps));
    }
  }

  /** Whatever file a process starts from, what it found there stays, and all it saves is
      behind it, record by record; memory mirrors what was loaded and saved. */
  lemma ProcessKeepsFile(w: World, file: seq<byte>, steps: seq<Step>)
    requires OneProcess(steps)
    ensures var s := RunAll(w, Boot(w, file), steps);
      && Mirrored(w.rules, s.chain, s.log) && Records(file) <= s.log
      && s.chain.file == file + EncMany(AsBytes, s.log[|Records(file)|..])
  {
    ProcessAppends(w, Boot(w, file), steps);
  }

  // ---------------------------------------------------------------- the target height

  /** No height a live connection has reported is above the target. */
  ghost predicate Covered(s: Node) {
    forall id :: id in s.peers ==> Reported(s.peers[id], s.chain.targetHeight)
  }

  predicate Reported(p: Peer, target: nat) {
    forall i :: 0 <= i < |p.acted| && p.acted[i].UpdateTargetHeight? ==> p.acted[i].height <= target
  }

  /** The target height of a process never falls and moves only up to a height just reported. */
  lemma TargetMoves(w: World, s: Node, step: Step)
    requires !step.Restart?
    ensures var target := Do(w, s, step).chain.targetHeight;
      target != s.chain.targetHeight ==>
        && target > s.chain.targetHeight && step.Run? && step.id in s.peers
        && s.peers[step.id].todo != [] && s.peers[step.id].todo[0] == UpdateTargetHeight(target)
  {
    if step.Run? && step.id in s.peers { RunTarget(w, s, step.id, s.peers[step.id]); }
  }

  lemma RunTarget(w: World, s: Node, id: PeerId, p: Peer)
    ensures var target := RunPeer(w, s, id, p).chain.targetHeight;
      target != s.chain.targetHeight ==>
        target > s.chain.targetHeight && p.todo != [] && p.todo[0] == UpdateTargetHeight(target)
  {
    if p.place.Acting? && p.todo != [] { ActTarget(w, s, id, p); }
  }

  lemma ActTarget(w: World, s: Node, id: PeerId, p: Peer)
    requires p.todo != []
    ensures var t := Act(w, s, id, p);
      && (t.chain.targetHeight != s.chain.targetHeight ==>
            t.chain.targetHeight > s.chain.targetHeight && p.todo[0] == UpdateTargetHeight(t.chain.targetHeight))
      && id in t.peers && t.peers[id].acted == p.acted + [p.todo[0]]
      && (p.todo[0].UpdateTargetHeight? ==> p.todo[0].height <= t.chain.targetHeight)
  {
    if p.todo[0].SaveHeaders? { SaveTarget(w.rules, s.chain, p.todo[0].batch); }
  }

  lemma ActCovers(w: World, s: Node, id: PeerId, p: Peer)
    requires p.todo != [] && Reported(p, s.chain.targetHeight)
    ensures var t := Act(w, s, id, p); id in t.peers && Reported(t.peers[id], t.chain.targetHeight)
  {
    ActTarget(w, s, id, p);
  }

  lemma RunCovers(w: World, s: Node, id: PeerId, p: Peer)
    requires Reported(p, s.chain.targetHeight)
    requires id in s.peers && s.peers[id] == p
    ensures var t := RunPeer(w, s, id, p); id in t.peers ==> Reported(t.peers[id], t.chain.targetHeight)
  {
    if p.place.Acting? && p.todo != [] { ActCovers(w, s, id, p); }
  }

  lemma RunKeepsCovered(w: World, s: Node, id: PeerId)
    requires Covered(s) && id in s.peers
    ensures Covered(Do(w, s, Run(id)))
  {
    var t := RunPeer(w, s, id, s.peers[id]);
    RunCovers(w, s, id, s.peers[id]);
    RunOthers(w, s, id, s.peers[id]);
    RunTarget(w, s, id, s.peers[id]);
    forall j | j in t.peers ensures Reported(t.peers[j], t.chain.targetHeight) {
      assert j != id ==> j in t.peers - {id} && (t.peers - {id})[j] == (s.peers - {id})[j];
    }
  }

  lemma PutCovered(s: Node, id: PeerId, p: Peer)
    requires Covered(s) && Reported(p, s.chain.targetHeight)
    ensures Covered(Put(s, id, p))
  {
  }

  lemma ReceiveCovered(w: World, s: Node, id: PeerId, chunk: seq<byte>)
    requires Covered(s)
    ensures Covered(Do(w, s, Receive(id, chunk)))
  {
    if id in s.peers {
      PutCovered(s, id, s.peers[id].(place := Closing));
      PutCovered(s, id, Received(s.peers[id], chunk));
    }
  }

  lemma StepCovered(w: World, s: Node, step: Step)
    requires Covered(s)
    ensures Covered(Do(w, s, step))
  {
    match step
    case Connect(id) => PutCovered(s, id, NewPeer());
    case Receive(id, chunk) => ReceiveCovered(w, s, id, chunk);
    case Run(id) => if id in s.peers { RunKeepsCovered(w, s, id); }
    case Lose(id) => if id in s.peers { PutCovered(s, id, s.peers[id].(place := Closing)); }
    case Restart =>
  }

  lemma {:induction false} RunCovered(w: World, s: Node, steps: seq<Step>)
    requires Covered(s)
    ensures Covered(RunAll(w, s, steps))
    decreases |steps|
  {
    if steps != [] {
      StepCovered(w, s, steps[0]);
      RunCovered(w, Do(w, s, steps[0]), steps[1..]);
    }
  }

  /** Over every run the target is at least every height a live connection has reported; with
      `TargetMoves`, it is the greatest reported since the process started. */
  lemma TargetCovers(w: World, file: seq<byte>, steps: seq<Step>, id: PeerId, height: u32)
    requires id in RunAll(w, Boot(w, file), steps).peers
    ensures var s := RunAll(w, Boot(w, file), steps);
      UpdateTargetHeight(height) in s.peers[id].acted ==> height <= s.chain.targetHeight
  {
    RunCovered(w, Boot(w, file), steps);
  }

  lemma {:induction false} TargetGrows(w: World, s: Node, steps: seq<Step>)
    requires OneProcess(steps)
    ensures s.chain.targetHeight <= RunAll(w, s, steps).chain.targetHeight
    decreases |steps|
  {
    if steps != [] {
      TargetMoves(w, s, steps[0]);
      TargetGrows(w, Do(w, s, steps[0]), steps[1..]);
    }
  }

  /** A version message with a negative start height, once acted on, puts the target at 2^31
      or above for as long as the process runs. */
  lemma NegativeHeightStays(w: World, s: Node, id: PeerId, v: VersionMessage, steps: seq<Step>)
    requires v.startHeight < 0 && OneProcess(steps)
    requires id in s.peers && s.peers[id].place.Acting? && s.peers[id].todo != []
      && s.peers[id].todo[0] == Process(Version(v))[1]
    ensures 0x8000_0000 <= v.startHeight + TWO_32 <= RunAll(w, Do(w, s, Run(id)), steps).chain.targetHeight
  {
    ActTarget(w, s, id, s.peers[id]);
    TargetGrows(w, Do(w, s, Run(id)), steps);
  }

  /** From there no start height of zero or more moves it. */
  lemma RealHeightsIgnored(w: World, s: Node, v: VersionMessage, step: Step)
    requires s.chain.targetHeight >= 0x8000_0000 && v.startHeight >= 0
    requires step.Run? && step.id in s.peers && s.peers[step.id].todo != []
      && s.peers[step.id].todo[0] == Process(Version(v))[1]
    ensures Do(w, s, step).chain.targetHeight == s.chain.targetHeight
  {
    TargetMoves(w, s, step);
  }

  // ---------------------------------------------------------------- one task running on

  function Runs(id: PeerId, n: nat): seq<Step> { seq(n, _ => Run(id)) }

  /** `t` is reached from `s` when one connection's task runs on by itself. */
  ghost predicate Alone(w: World, s: Node, t: Node, id: PeerId) {
    exists n: nat :: t == RunAll(w, s, Runs(id, n))
  }

  lemma {:induction false} RunConcat(w: World, s: Node, a: seq<Step>, b: seq<Step>)
    ensures RunAll(w, s, a + b) == RunAll(w, RunAll(w, s, a), b)
    decreases |a|
  {
    if a == [] {
      assert a + b == b;
    } else {
      assert (a + b)[1..] == a[1..] + b;
      RunConcat(w, Do(w, s, a[0]), a[1..], b);
    }
  }

  lemma AloneSelf(w: World, s: Node, id: PeerId)
    ensures Alone(w, s, s, id)
  {
    assert RunAll(w, s, Runs(id, 0)) == s;
  }

  lemma AloneOne(w: World, s: Node, id: PeerId)
    ensures Alone(w, s, Do(w, s, Run(id)), id)
  {
    assert Runs(id, 1)[1..] == [];
    assert RunAll(w, s, Runs(id, 1)) == Do(w, s, Run(id));
  }

  lemma AloneTrans(w: World, s: Node, t: Node, u: Node, id: PeerId)
    requires Alone(w, s, t, id) && Alone(w, t, u, id)
    ensures Alone(w, s, u, id)
  {
    var m: nat :| t == RunAll(w, s, Runs(id, m));
    var n: nat :| u == RunAll(w, t, Runs(id, n));
    RunConcat(w, s, Runs(id, m), Runs(id, n));
    assert Runs(id, m) + Runs(id, n) == Runs(id, m + n);
  }

  lemma AloneKeepsRole(w: World, s: Node, t: Node, id: PeerId)
    requires RoleSafe(w, s) && Alone(w, s, t, id)
    ensures RoleSafe(w, t)
  {
    var n: nat :| t == RunAll(w, s, Runs(id, n));
    RunKeepsRole(w, s, Runs(id, n));
  }

  /** Waiting for bytes, or gone. */
  predicate Settled(s: Node, id: PeerId) {
    id in s.peers ==> s.peers[id].place.Reading?
  }

  function Rank(place: Place): nat {
    match place
    case Reading => 0
    case Closing => 1
    case Draining => 2
    case Acting => 3
    case Sending(_, _) => 4
    case Asking => 5
    case Won => 6
  }

  /** Nearer to the next wait. */
  predicate Nearer(q: Peer, p: Peer) {
    || |q.pending| < |p.pending|
    || (|q.pending| == |p.pending| && |q.todo| < |p.todo|)
    || (|q.pending| == |p.pending| && |q.todo| == |p.todo| && Rank(q.place) < Rank(p.place))
  }

  lemma ActDescends(w: World, s: Node, id: PeerId, p: Peer)
    requires p.todo != []
    ensures id in Act(w, s, id, p).peers && Nearer(Act(w, s, id, p).peers[id], p)
  {
  }

  lemma RunDescends(w: World, s: Node, id: PeerId)
    requires id in s.peers && !s.peers[id].place.Reading?
    ensures var s' := Do(w, s, Run(id)); id in s'.peers ==> Nearer(s'.peers[id], s.peers[id])
  {
    if s.peers[id].place.Acting? && s.peers[id].todo != [] { ActDescends(w, s, id, s.peers[id]); }
  }

  predicate OthersStill(s: Node, t: Node, id: PeerId) {
    s.peers - {id} == t.peers - {id}
  }

  lemma RunOthers(w: World, s: Node, id: PeerId, p: Peer)
    ensures OthersStill(s, RunPeer(w, s, id, p), id)
  {
    if p.place.Acting? && p.todo != [] { ActOthers(w, s, id, p); }
  }

  lemma ActOthers(w: World, s: Node, id: PeerId, p: Peer)
    requires p.todo != []
    ensures OthersStill(s, Act(w, s, id, p), id)
  {
  }

  /** No task runs for ever or gets stuck: left alone, it comes to wait for bytes or ends. */
  lemma {:induction false} TaskSettles(w: World, s: Node, id: PeerId) returns (t: Node)
    ensures Alone(w, s, t, id) && Settled(t, id) && OthersStill(s, t, id)
    decreases if id in s.peers then 1 else 0,
      if id in s.peers then |s.peers[id].pending| else 0,
      if id in s.peers then |s.peers[id].todo| else 0,
      if id in s.peers then Rank(s.peers[id].place) else 0
  {
    AloneSelf(w, s, id);
    if Settled(s, id) { return s; }
    RunDescends(w, s, id);
    AloneOne(w, s, id);
    RunOthers(w, s, id, s.peers[id]);
    t := TaskSettles(w, Do(w, s, Run(id)), id);
    AloneTrans(w, s, Do(w, s, Run(id)), t, id);
  }

  lemma HolderCloses(w: World, s: Node, id: PeerId)
    requires id in s.peers && Owns(s.peers[id]) && s.peers[id].place.Closing?
    ensures !Do(w, s, Run(id)).hasSyncNode
  {
  }

  lemma HolderLost(w: World, s: Node, id: PeerId)
    requires RoleSafe(w, s) && id in s.peers && Owns(s.peers[id]) && s.peers[id].place.Reading?
    ensures !RunAll(w, s, [Lose(id), Run(id)]).hasSyncNode
  {
    var t := Do(w, s, Lose(id));
    LostCloses(w, s, id);
    HolderCloses(w, t, id);
    TwoSteps(w, s, Lose(id), Run(id));
  }

  lemma LostCloses(w: World, s: Node, id: PeerId)
    requires id in s.peers && s.peers[id].place.Reading?
    ensures var t := Do(w, s, Lose(id)); id in t.peers && t.peers[id] == s.peers[id].(place := Closing)
  {
  }

  lemma TwoSteps(w: World, s: Node, a: Step, b: Step)
    ensures RunAll(w, s, [a, b]) == Do(w, Do(w, s, a), b)
  {
    assert [a, b][1..] == [b];
    assert [b][1..] == [];
    assert RunAll(w, Do(w, s, a), [b]) == Do(w, Do(w, s, a), b);
  }

  /** The role is never stuck: from anywhere, the holder's own steps and the loss of its
      connection bring the flag down. */
  lemma RoleReleasable(w: World, s: Node, id: PeerId) returns (steps: seq<Step>)
    requires RoleSafe(w, s) && id in s.peers && Owns(s.peers[id])
    ensures forall step :: step in steps ==> step == Run(id) || step == Lose(id)
    ensures !RunAll(w, s, steps).hasSyncNode
  {
    var t := TaskSettles(w, s, id);
    AloneKeepsRole(w, s, t, id);
    var n: nat :| t == RunAll(w, s, Runs(id, n));
    steps := Runs(id, n);
    if t.hasSyncNode {
      StillHolder(w, s, t, id);
      ThenLost(w, s, steps, id);
      steps := steps + [Lose(id), Run(id)];
    }
  }

  lemma ThenLost(w: World, s: Node, steps: seq<Step>, id: PeerId)
    requires var t := RunAll(w, s, steps);
      RoleSafe(w, t) && id in t.peers && Owns(t.peers[id]) && t.peers[id].place.Reading?
    ensures !RunAll(w, s, steps + [Lose(id), Run(id)]).hasSyncNode
  {
    HolderLost(w, RunAll(w, s, steps), id);
    RunConcat(w, s, steps, [Lose(id), Run(id)]);
  }

  lemma StillHolder(w: World, s: Node, t: Node, id: PeerId)
    requires RoleSafe(w, s) && RoleSafe(w, t) && id in s.peers && Owns(s.peers[id])
    requires t.hasSyncNode && OthersStill(s, t, id)
    ensures id in t.peers && Owns(t.peers[id])
  {
    var j :| j in t.peers && Owns(t.peers[j]);
    SoleOwner(w, s, id);
    assert j != id ==> j in t.peers - {id};
  }

  /** A `verack` taken up while the flag is down makes its connection the holder, and left
      alone that connection asks for headers from the newest there is. */
  lemma RoleTaken(w: World, s: Node, id: PeerId) returns (t: Node)
    requires !s.hasSyncNode && id in s.peers && s.peers[id].place.Acting?
    requires s.peers[id].todo != [] && s.peers[id].todo[0].TryBecomeSyncNode?
    ensures Alone(w, s, t, id)
    ensures t.hasSyncNode && id in t.peers && t.peers[id].isSyncNode && t.peers[id].place.Acting?
    ensures t.requests == s.requests + [Request(id, |s.owners| + 1, Locator(w.net, s.chain.bestHash), |s.log|)]
    ensures t.peers[id].sent == s.peers[id].sent + [GetHeaders(NewGetHeaders(Locator(w.net, s.chain.bestHash)))]
  {
    var s1 := Swapped(w, s, id);
    t := Asks(w, s1, id);
    AloneTrans(w, s, s1, t, id);
  }

  lemma Swapped(w: World, s: Node, id: PeerId) returns (t: Node)
    requires !s.hasSyncNode && id in s.peers && s.peers[id].place.Acting?
    requires s.peers[id].todo != [] && s.peers[id].todo[0].TryBecomeSyncNode?
    ensures Alone(w, s, t, id)
    ensures t.hasSyncNode && id in t.peers && t.peers[id].isSyncNode && t.peers[id].place.Asking?
    ensures t.requests == s.requests && t.log == s.log && t.chain == s.chain && t.owners == s.owners + [id]
    ensures t.peers[id].sent == s.peers[id].sent
  {
    AloneOne(w, s, id);
    var won := Do(w, s, Run(id));
    AloneOne(w, won, id);
    t := Do(w, won, Run(id));
    AloneTrans(w, s, won, t, id);
  }

  lemma Asks(w: World, s: Node, id: PeerId) returns (t: Node)
    requires id in s.peers && s.peers[id].place.Asking?
    ensures Alone(w, s, t, id)
    ensures t.hasSyncNode == s.hasSyncNode && id in t.peers && t.peers[id].isSyncNode == s.peers[id].isSyncNode
      && t.peers[id].place.Acting?
    ensures t.requests == s.requests + [Request(id, |s.owners|, Locator(w.net, s.chain.bestHash), |s.log|)]
      && t.log == s.log
    ensures t.peers[id].sent == s.peers[id].sent + [GetHeaders(NewGetHeaders(Locator(w.net, s.chain.bestHash)))]
  {
    AloneOne(w, s, id);
    var sending := Do(w, s, Run(id));
    AloneOne(w, sending, id);
    t := Do(w, sending, Run(id));
    AloneTrans(w, s, sending, t, id);
  }

  /** What follows a batch: left alone, the connection ends exactly if a header of it was
      rejected, and sends a `getheaders` exactly if the
      batch was accepted, was full and made the log longer. So a full batch that another
      connection has saved first ends its asking, while it keeps the role; and a connection
      without the role never asks. */
  lemma AsksOn(w: World, s: Node, id: PeerId) returns (t: Node)
    requires id in s.peers && s.peers[id].place.Acting? && Mirrored(w.rules, s.chain, s.log)
    requires s.peers[id].todo != [] && s.peers[id].todo[0].SaveHeaders?
    ensures Alone(w, s, t, id) && id in t.peers && t.peers[id].isSyncNode == s.peers[id].isSyncNode
    ensures t.peers[id].place == if SaveLog(w.rules, s.log, s.peers[id].todo[0].batch).1 then Acting else Closing
    ensures var batch := s.peers[id].todo[0].batch; var (log, ok) := SaveLog(w.rules, s.log, batch);
      && t.log == log
      && t.requests ==
         if s.peers[id].isSyncNode && ok && |batch| == 2000 && |log| > |s.log|
         then s.requests + [Request(id, |s.owners|, Locator(w.net, BestOf(w.rules, log)), |log|)]
         else s.requests
  {
    var batch := s.peers[id].todo[0].batch;
    SaveMirrors(w.rules, s.chain, s.log, batch);
    AloneOne(w, s, id);
    var saved := Do(w, s, Run(id));
    SavedPlace(w, s, id);
    if saved.peers[id].place.Asking? {
      t := Asks(w, saved, id);
      AloneTrans(w, s, saved, t, id);
    } else {
      t := saved;
    }
  }

  lemma SavedPlace(w: World, s: Node, id: PeerId)
    requires id in s.peers && s.peers[id].place.Acting?
    requires s.peers[id].todo != [] && s.peers[id].todo[0].SaveHeaders?
    ensures var t := Do(w, s, Run(id)); var batch := s.peers[id].todo[0].batch; var (c, r) := Save(w.rules, s.chain,
      batch);
      && id in t.peers && t.peers[id].isSyncNode == s.peers[id].isSyncNode
        && t.peers[id].place == AfterSave(s.peers[id].isSyncNode, r, |batch|)
      && t.chain == c && t.log == SaveLog(w.rules, s.log, batch).0 && t.requests == s.requests && t.owners == s.owners
  {
  }

  /** A full batch that another connection has just saved leaves the holder without a request
      and still in the role. */
  lemma SecondSaverStalls(w: World, s: Node, id: PeerId, other: PeerId) returns (t: Node)
    requires RoleSafe(w, s) && Mirrored(w.rules, s.chain, s.log)
    requires id in s.peers && other in s.peers && id != other && s.peers[id].isSyncNode
    requires s.peers[id].place.Acting? && s.peers[other].place.Acting?
    requires s.peers[id].todo != [] && s.peers[other].todo != [] && s.peers[id].todo[0] == s.peers[other].todo[0]
    requires s.peers[id].todo[0].SaveHeaders? && Save(w.rules, s.chain, s.peers[id].todo[0].batch).1.Added?
    ensures Alone(w, Do(w, s, Run(other)), t, id)
    ensures t.requests == s.requests && t.hasSyncNode && id in t.peers && t.peers[id].isSyncNode
  {
    SoleOwner(w, s, id);
    var u := Do(w, s, Run(other));
    OtherSaved(w, s, id, other);
    AloneOne(w, u, id);
    t := Do(w, u, Run(id));
    SavedNothing(w, u, id);
  }

  lemma OtherSaved(w: World, s: Node, id: PeerId, other: PeerId)
    requires id in s.peers && other in s.peers && id != other && s.peers[other].place.Acting?
    requires s.peers[other].todo != [] && s.peers[other].todo[0].SaveHeaders?
    requires Mirrored(w.rules, s.chain, s.log) && Save(w.rules, s.chain, s.peers[other].todo[0].batch).1.Added?
    ensures var t := Do(w, s, Run(other)); t.requests == s.requests && t.hasSyncNode == s.hasSyncNode
    ensures var t := Do(w, s, Run(other)); id in t.peers && t.peers[id] == s.peers[id]
    ensures var t := Do(w, s, Run(other)); Save(w.rules, t.chain, s.peers[other].todo[0].batch) == (t.chain, Added(0))
  {
    var t := Do(w, s, Run(other));
    SavedPlace(w, s, other);
    SaveMirrors(w.rules, s.chain, s.log, s.peers[other].todo[0].batch);
    SaveAgain(w.rules, s.chain, s.peers[other].todo[0].batch);
    ActOthers(w, s, other, s.peers[other]);
    assert id in t.peers - {other} && (t.peers - {other})[id] == (s.peers - {other})[id];
    SaveKeepsFlag(w, s, other);
  }

  lemma SavedNothing(w: World, s: Node, id: PeerId)
    requires id in s.peers && s.peers[id].place.Acting? && s.peers[id].todo != [] && s.peers[id].todo[0].SaveHeaders?
    requires Save(w.rules, s.chain, s.peers[id].todo[0].batch) == (s.chain, Added(0))
    ensures var t := Do(w, s, Run(id)); t.requests == s.requests && t.hasSyncNode == s.hasSyncNode
    ensures var t := Do(w, s, Run(id)); id in t.peers && t.peers[id].isSyncNode == s.peers[id].isSyncNode
  {
    SavedPlace(w, s, id);
    SaveKeepsFlag(w, s, id);
  }

  lemma SaveKeepsFlag(w: World, s: Node, id: PeerId)
    requires id in s.peers && s.peers[id].place.Acting? && s.peers[id].todo != [] && s.peers[id].todo[0].SaveHeaders?
    ensures Do(w, s, Run(id)).hasSyncNode == s.hasSyncNode
  {
  }

  // ---------------------------------------------------------------- a holder that has stopped asking

  /** The next step of the connection saves a full batch with something new. */
  predicate Refills(w: World, s: Node, id: PeerId) {
    && id in s.peers && s.peers[id].place.Acting?
    && s.peers[id].todo != [] && s.peers[id].todo[0].SaveHeaders?
    && var batch := s.peers[id].todo[0].batch; var r := Save(w.rules, s.chain, batch).1;
       r.Added? && r.count > 0 && |batch| == FULL_BATCH
  }

  /** Through a run the connection stays, and never makes such a step. */
  ghost predicate Dormant(w: World, s: Node, id: PeerId, steps: seq<Step>)
    decreases |steps|
  {
    && id in s.peers
    && (steps != [] ==> !(steps[0] == Run(id) && Refills(w, s, id)) && Dormant(w, Do(w, s, steps[0]), id, steps[1..]))
  }

  /** Holding the role without being about to ask. */
  predicate Idle(s: Node, id: PeerId) {
    id in s.peers && s.peers[id].isSyncNode && !Wants(s.peers[id])
  }

  lemma ActStaysIdle(w: World, s: Node, id: PeerId, p: Peer)
    requires s.hasSyncNode && p.isSyncNode && p.place.Acting? && p.todo != []
    requires p.todo[0].SaveHeaders? ==>
      var r := Save(w.rules, s.chain, p.todo[0].batch).1; !(r.Added? && r.count > 0 && |p.todo[0].batch| == FULL_BATCH)
    ensures Idle(Act(w, s, id, p), id)
  {
  }

  lemma RestStaysIdle(w: World, s: Node, id: PeerId, p: Peer)
    requires p.isSyncNode && !Wants(p) && !(p.place.Acting? && p.todo != [])
    requires p.place.Reading? ==> id in s.peers && s.peers[id] == p
    ensures id in RunPeer(w, s, id, p).peers ==> Idle(RunPeer(w, s, id, p), id)
  {
  }

  lemma ActingIsAct(w: World, s: Node, id: PeerId)
    requires id in s.peers && s.peers[id].place.Acting? && s.peers[id].todo != []
    ensures Do(w, s, Run(id)) == Act(w, s, id, s.peers[id])
  {
  }

  lemma RunStaysIdle(w: World, s: Node, id: PeerId)
    requires RoleSafe(w, s) && Idle(s, id) && !Refills(w, s, id)
    ensures id in Do(w, s, Run(id)).peers ==> Idle(Do(w, s, Run(id)), id)
  {
    if s.peers[id].place.Acting? && s.peers[id].todo != [] {
      SoleOwner(w, s, id);
      ActStaysIdle(w, s, id, s.peers[id]);
      ActingIsAct(w, s, id);
    } else {
      RestStaysIdle(w, s, id, s.peers[id]);
    }
  }

  lemma OthersLeaveIdle(w: World, s: Node, id: PeerId, step: Step)
    requires Idle(s, id) && step != Run(id) && !step.Restart?
    ensures Idle(Do(w, s, step), id)
  {
    if step.Run? && step.id in s.peers {
      RunOthers(w, s, step.id, s.peers[step.id]);
      var t := Do(w, s, step);
      assert id in t.peers - {step.id} && (t.peers - {step.id})[id] == (s.peers - {step.id})[id];
    }
  }

  lemma IdleSendsNothing(w: World, s: Node, id: PeerId, step: Step)
    requires RoleSafe(w, s) && Idle(s, id)
    ensures Do(w, s, step).requests == s.requests
  {
    HolderStep(w, s, step);
    SoleOwner(w, s, id);
  }

  /** Once the holder is not about to ask, nobody asks for headers any more, whatever all the
      connections receive and do, until the holder itself saves a full batch with something
      new or its connection ends. */
  lemma {:induction false} DormantRoleSilent(w: World, s: Node, id: PeerId, steps: seq<Step>)
    requires RoleSafe(w, s) && Idle(s, id) && Dormant(w, s, id, steps)
    ensures RunAll(w, s, steps).requests == s.requests && Idle(RunAll(w, s, steps), id)
    decreases |steps|
  {
    if steps != [] {
      IdleSendsNothing(w, s, id, steps[0]);
      DormantStep(w, s, id, steps[0]);
      StepKeepsRole(w, s, steps[0]);
      DormantRoleSilent(w, Do(w, s, steps[0]), id, steps[1..]);
    }
  }

  lemma DormantStep(w: World, s: Node, id: PeerId, step: Step)
    requires RoleSafe(w, s) && Idle(s, id) && !(step == Run(id) && Refills(w, s, id)) && id in Do(w, s, step).peers
    ensures Idle(Do(w, s, step), id)
  {
    if step == Run(id) {
      RunStaysIdle(w, s, id);
    } else if !step.Restart? {
      OthersLeaveIdle(w, s, id, step);
    }
  }
}
