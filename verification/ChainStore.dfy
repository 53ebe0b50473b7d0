/** The header chain in memory and the append-only file it is rebuilt from. */
module ChainStore {
  import opened Bytes
  import opened Streams
  import opened Headers

  /** The shared chain state and `headers.dat`; a missing file is an empty one. The height is
      the 32-bit counter of the original, which wraps. */
  datatype Chain = Chain(
    bestHash: Hash32, height: u32, targetHeight: u32, cache: map<Hash32, BlockHeader>, file: seq<byte>)

  /** A header's hash and whether it meets its target, for any hash function. */
  datatype Rules = Rules(hash: BlockHeader -> Hash32, meetsTarget: BlockHeader -> bool)

  function RulesOf(sha256: seq<byte> -> Hash32): Rules {
    Rules(h => Hash(sha256, h), h => CheckProofOfWork(sha256, h))
  }

  datatype SaveResult = Added(count: nat) | Rejected

  function ZeroHash(): Hash32 { seq(32, _ => 0) }

  /** The state of a process that has just started beside a given file. */
  function Start(file: seq<byte>): Chain {
    Chain(ZeroHash(), 0, 0, map[], file)
  }

  function Wrap(n: nat): u32 { n % TWO_32 }

  // ---------------------------------------------------------------- loading

  /** The whole records at the front of a file. */
  function Records(s: seq<byte>): (hs: seq<BlockHeader>)
    ensures |hs| == |s| / RECORD
  {
    if |s| < RECORD then []
    else [ParseRecord(s).value] + Records(ParseRecord(s).rest)
  }

  function CacheOf(rules: Rules, hs: seq<BlockHeader>): map<Hash32, BlockHeader> {
    if hs == [] then map[]
    else
      var h := hs[|hs| - 1];
      CacheOf(rules, hs[..|hs| - 1])[rules.hash(h) := h]
  }

  function BestOf(rules: Rules, hs: seq<BlockHeader>): Hash32 {
    if hs == [] then ZeroHash() else rules.hash(hs[|hs| - 1])
  }

  /** Loading puts the file's records over whatever is cached and starts the height anew. */
  function Load(rules: Rules, c: Chain): Chain {
    var hs := Records(c.file);
    c.(bestHash := if hs == [] then c.bestHash
      else BestOf(rules, hs), height := Wrap(|hs|), cache := c.cache + CacheOf(rules, hs))
  }

  /** What a fresh process makes of a file. */
  function Loaded(rules: Rules, file: seq<byte>): (c: Chain)
    ensures c == Chain(BestOf(rules, Records(file)), Wrap(|Records(file)|), 0, CacheOf(rules, Records(file)), file)
  {
    var none: map<Hash32, BlockHeader> := map[];
    assert none + CacheOf(rules, Records(file)) == CacheOf(rules, Records(file));
    Load(rules, Start(file))
  }

  // ---------------------------------------------------------------- saving

  /** Proof of work, and the link to the parent if the parent is known. */
  predicate Verify(rules: Rules, h: BlockHeader, prev: Option<BlockHeader>) {
    && rules.meetsTarget(h)
    && (prev.Some? ==> h.prevBlock == rules.hash(prev.value))
  }

  function Lookup(cache: map<Hash32, BlockHeader>, k: Hash32): Option<BlockHeader> {
    if k in cache then Some(cache[k]) else None
  }

  function Append(rules: Rules, c: Chain, h: BlockHeader): Chain {
    var hash := rules.hash(h);
    Chain(hash, Wrap(c.height + 1), c.targetHeight, c.cache[hash := h], c.file + AsBytes(h))
  }

  /** Known headers are skipped, the first bad one ends the batch, and the good ones before
      it stay, in memory and in the file. */
  function Save(rules: Rules, c: Chain, hs: seq<BlockHeader>): (Chain, SaveResult)
    decreases |hs|
  {
    if hs == [] then (c, Added(0))
    else if rules.hash(hs[0]) in c.cache then Save(rules, c, hs[1..])
    else if !Verify(rules, hs[0], Lookup(c.cache, hs[0].prevBlock)) then (c, Rejected)
    else
      var (c', r) := Save(rules, Append(rules, c, hs[0]), hs[1..]);
      (c', if r.Added? then Added(r.count + 1) else r)
  }

  // ---------------------------------------------------------------- the log behind a chain

  /** Memory holds just the headers of `log`, with the last as the best. */
  ghost predicate Mirrored(rules: Rules, c: Chain, log: seq<BlockHeader>) {
    && c.cache == CacheOf(rules, log)
    && c.height == Wrap(|log|)
    && c.bestHash == BestOf(rules, log)
  }

  /** The file is the records of `log` and nothing else. */
  ghost predicate Recorded(c: Chain, log: seq<BlockHeader>) {
    c.file == EncMany(AsBytes, log)
  }

  /** `log` is what the file records and what memory holds: distinct hashes, every target met. */
  ghost predicate Logged(rules: Rules, c: Chain, log: seq<BlockHeader>) {
    && Recorded(c, log)
    && Distinct(rules, log)
    && (forall h :: h in log ==> rules.meetsTarget(h))
    && Mirrored(rules, c, log)
  }

  ghost predicate Distinct(rules: Rules, log: seq<BlockHeader>) {
    forall i, j :: 0 <= i < j < |log| ==> rules.hash(log[i]) != rules.hash(log[j])
  }

  ghost predicate Known(rules: Rules, log: seq<BlockHeader>, hash: Hash32) {
    exists h :: h in log && rules.hash(h) == hash
  }

  /** Saving as the log sees it: append what is new and meets its target, up to the first
      header that does not. Parents play no part. */
  ghost function SaveLog(rules: Rules, log: seq<BlockHeader>, hs: seq<BlockHeader>): (seq<BlockHeader>, bool)
    decreases |hs|
  {
    if hs == [] then (log, true)
    else if Known(rules, log, rules.hash(hs[0])) then SaveLog(rules, log, hs[1..])
    else if !rules.meetsTarget(hs[0]) then (log, false)
    else SaveLog(rules, log + [hs[0]], hs[1..])
  }

  lemma {:induction false} CacheKeys(rules: Rules, log: seq<BlockHeader>, k: Hash32)
    ensures k in CacheOf(rules, log) <==> Known(rules, log, k)
    ensures k in CacheOf(rules, log) ==> rules.hash(CacheOf(rules, log)[k]) == k && CacheOf(rules, log)[k] in log
  {
    if log != [] {
      var h, front := log[|log| - 1], log[..|log| - 1];
      CacheKeys(rules, front, k);
      assert log == front + [h];
      assert h in log;
    }
  }

  lemma {:induction false} CacheSize(rules: Rules, log: seq<BlockHeader>)
    requires Distinct(rules, log)
    ensures |CacheOf(rules, log)| == |log|
  {
    if log != [] {
      var h, front := log[|log| - 1], log[..|log| - 1];
      CacheSize(rules, front);
      CacheKeys(rules, front, rules.hash(h));
    }
  }

  lemma AppendMirrors(rules: Rules, c: Chain, log: seq<BlockHeader>, h: BlockHeader)
    requires Mirrored(rules, c, log)
    ensures Mirrored(rules, Append(rules, c, h), log + [h])
  {
    var longer := log + [h];
    WrapStep(|log|);
    assert longer[..|log|] == log;
  }

  lemma AppendKeepsLog(rules: Rules, c: Chain, log: seq<BlockHeader>, h: BlockHeader)
    requires Logged(rules, c, log) && rules.meetsTarget(h) && rules.hash(h) !in c.cache
    ensures Logged(rules, Append(rules, c, h), log + [h])
  {
    CacheKeys(rules, log, rules.hash(h));
    EncManySnoc(AsBytes, log, h);
    AppendMirrors(rules, c, log, h);
    DistinctSnoc(rules, log, h);
  }

  lemma DistinctSnoc(rules: Rules, log: seq<BlockHeader>, h: BlockHeader)
    requires Distinct(rules, log) && !Known(rules, log, rules.hash(h))
    ensures Distinct(rules, log + [h])
  {
    var longer := log + [h];
    forall i, j | 0 <= i < j < |longer| ensures rules.hash(longer[i]) != rules.hash(longer[j]) {
      assert longer[i] in log;
    }
  }

  lemma WrapStep(n: nat)
    ensures Wrap(Wrap(n) + 1) == Wrap(n + 1)
  {
  }

  /** Memory and file move together, as the log does; in particular the test of the parent's
      hash never decides, since a header is cached under its own hash. */
  lemma {:induction false} SaveRefinesLog(rules: Rules, c: Chain, log: seq<BlockHeader>, hs: seq<BlockHeader>)
    requires Logged(rules, c, log)
    ensures var (c', r) := Save(rules, c, hs);
      var (log', ok) := SaveLog(rules, log, hs);
      && Logged(rules, c', log') && c'.targetHeight == c.targetHeight
      && log <= log'
      && r.Added? == ok && (ok ==> r.count == |log'| - |log|)
    decreases |hs|
  {
    if hs != [] {
      var h := hs[0];
      CacheKeys(rules, log, rules.hash(h));
      CacheKeys(rules, log, h.prevBlock);
      if rules.hash(h) in c.cache {
        SaveRefinesLog(rules, c, log, hs[1..]);
      } else if rules.meetsTarget(h) {
        AppendKeepsLog(rules, c, log, h);
        SaveRefinesLog(rules, Append(rules, c, h), log + [h], hs[1..]);
      }
    }
  }

  lemma FileGains(file: seq<byte>, log: seq<BlockHeader>, h: BlockHeader, longer: seq<BlockHeader>)
    requires log + [h] <= longer
    ensures log <= longer && |longer| > |log|
    ensures (file + AsBytes(h)) + EncMany(AsBytes, longer[|log + [h]|..]) == file + EncMany(AsBytes, longer[|log|..])
  {
    assert longer[|log|] == (log + [h])[|log|];
    assert longer[|log|..][1..] == longer[|log| + 1..];
    Assoc(file, AsBytes(h), EncMany(AsBytes, longer[|log| + 1..]));
  }

  /** The same of any file, torn or not its own log: memory goes on mirroring the log that was
      loaded and what was saved after it, and the file gains the records of the latter. */
  lemma {:induction false} SaveMirrors(rules: Rules, c: Chain, log: seq<BlockHeader>, hs: seq<BlockHeader>)
    requires Mirrored(rules, c, log)
    ensures var (c', r) := Save(rules, c, hs);
      var (log', ok) := SaveLog(rules, log, hs);
      && Mirrored(rules, c', log') && log <= log'
      && c'.file == c.file + EncMany(AsBytes, log'[|log|..])
      && r.Added? == ok && (ok ==> r.count == |log'| - |log|)
    decreases |hs|
  {
    assert EncMany(AsBytes, log[|log|..]) == [] && c.file + [] == c.file;
    if hs != [] {
      var h := hs[0];
      CacheKeys(rules, log, rules.hash(h));
      CacheKeys(rules, log, h.prevBlock);
      if rules.hash(h) in c.cache {
        SaveMirrors(rules, c, log, hs[1..]);
      } else if rules.meetsTarget(h) {
        AppendMirrors(rules, c, log, h);
        SaveMirrors(rules, Append(rules, c, h), log + [h], hs[1..]);
        FileGains(c.file, log, h, SaveLog(rules, log + [h], hs[1..]).0);
      }
    }
  }

  lemma {:induction false} SaveLogGrows(rules: Rules, log: seq<BlockHeader>, hs: seq<BlockHeader>)
    ensures log <= SaveLog(rules, log, hs).0
    decreases |hs|
  {
    if hs != [] {
      SaveLogGrows(rules, log, hs[1..]);
      SaveLogGrows(rules, log + [hs[0]], hs[1..]);
    }
  }

  lemma {:induction false} SaveTarget(rules: Rules, c: Chain, hs: seq<BlockHeader>)
    ensures Save(rules, c, hs).0.targetHeight == c.targetHeight
    decreases |hs|
  {
    if hs != [] {
      SaveTarget(rules, c, hs[1..]);
      SaveTarget(rules, Append(rules, c, hs[0]), hs[1..]);
    }
  }

  /** The first header of a batch that is not known yet. */
  ghost function FirstNew(rules: Rules, log: seq<BlockHeader>, hs: seq<BlockHeader>): Option<BlockHeader> {
    if hs == [] then None
    else if Known(rules, log, rules.hash(hs[0])) then FirstNew(rules, log, hs[1..])
    else Some(hs[0])
  }

  /** A rejected batch leaves the state as it was exactly if the first new header is the one
      that misses its target; otherwise that one, at least, stays in memory and in the file. */
  lemma {:induction false} RejectedBatch(rules: Rules, c: Chain, log: seq<BlockHeader>, hs: seq<BlockHeader>)
    requires Mirrored(rules, c, log) && Save(rules, c, hs).1.Rejected?
    ensures var first := FirstNew(rules, log, hs);
      && first.Some?
      && (Save(rules, c, hs).0 == c <==> !rules.meetsTarget(first.value))
      && (rules.meetsTarget(first.value) ==> c.file + AsBytes(first.value) <= Save(rules, c, hs).0.file)
    decreases |hs|
  {
    var h := hs[0];
    CacheKeys(rules, log, rules.hash(h));
    CacheKeys(rules, log, h.prevBlock);
    if rules.hash(h) in c.cache {
      RejectedBatch(rules, c, log, hs[1..]);
    } else if rules.meetsTarget(h) {
      AppendMirrors(rules, c, log, h);
      SaveMirrors(rules, Append(rules, c, h), log + [h], hs[1..]);
    }
  }

  /** A good header followed by a bad one, for one: the batch is rejected and the good header
      stays. */
  lemma HalfSaved(rules: Rules, c: Chain, log: seq<BlockHeader>, good: BlockHeader, bad: BlockHeader)
    requires Mirrored(rules, c, log) && rules.meetsTarget(good) && !rules.meetsTarget(bad)
    requires !Known(rules, log, rules.hash(good)) && !Known(rules, log + [good], rules.hash(bad))
    ensures Save(rules, c, [good, bad]) == (Append(rules, c, good), Rejected)
  {
    var c' := Append(rules, c, good);
    CacheKeys(rules, log, rules.hash(good));
    CacheKeys(rules, log, good.prevBlock);
    AppendMirrors(rules, c, log, good);
    CacheKeys(rules, log + [good], rules.hash(bad));
    CacheKeys(rules, log + [good], bad.prevBlock);
    assert [good, bad][1..] == [bad];
    assert Save(rules, c', [bad]) == (c', Rejected);
  }

  // ---------------------------------------------------------------- parents

  /** Every header's parent is the root or was logged before it. */
  ghost predicate Linked(rules: Rules, root: Hash32, log: seq<BlockHeader>) {
    forall i :: 0 <= i < |log| ==> log[i].prevBlock == root || Known(rules, log[..i], log[i].prevBlock)
  }

  lemma LinkedSnoc(rules: Rules, root: Hash32, log: seq<BlockHeader>, h: BlockHeader)
    requires Linked(rules, root, log)
    ensures Linked(rules, root, log + [h]) <==> h.prevBlock == root || Known(rules, log, h.prevBlock)
  {
    var longer := log + [h];
    forall i | 0 <= i < |log| ensures longer[i] == log[i] && longer[..i] == log[..i] {
    }
    assert longer[|log|] == h && longer[..|log|] == log;
  }

  /** What saving one header does, whoever its parent is: it is refused exactly if it is new
      and misses its target, and added exactly if it is new and meets it. So a linked log
      stays linked unless the header is new, meets its target and has an unknown parent. */
  lemma SaveOne(rules: Rules, c: Chain, log: seq<BlockHeader>, root: Hash32, h: BlockHeader)
    requires Logged(rules, c, log) && Linked(rules, root, log)
    ensures var (c', r) := Save(rules, c, [h]); var unseen := !Known(rules, log, rules.hash(h));
      && (r == Rejected <==> unseen && !rules.meetsTarget(h))
      && (r == Added(1) <==> unseen && rules.meetsTarget(h))
      && Logged(rules, c', if r == Added(1) then log + [h] else log)
      && (Linked(rules, root, SaveLog(rules, log, [h]).0) <==>
            r == Added(1) ==> h.prevBlock == root || Known(rules, log, h.prevBlock))
  {
    SaveRefinesLog(rules, c, log, [h]);
    LinkedSnoc(rules, root, log, h);
    assert [h][1..] == [];
  }

  // ---------------------------------------------------------------- replay

  lemma {:induction false} RecordsOfLog(log: seq<BlockHeader>, tail: seq<byte>)
    requires |tail| < RECORD
    ensures Records(EncMany(AsBytes, log) + tail) == log
    ensures |EncMany(AsBytes, log)| == RECORD * |log|
  {
    if log == [] {
      assert EncMany(AsBytes, log) + tail == tail;
    } else {
      var rest := EncMany(AsBytes, log[1..]);
      RecordsOfLog(log[1..], tail);
      Assoc(AsBytes(log[0]), rest, tail);
      RecordRoundTrip(log[0], rest + tail);
      RecordsStep(log[0], rest + tail);
    }
  }

  lemma RecordsStep(h: BlockHeader, s: seq<byte>)
    ensures Records(AsBytes(h) + s) == [h] + Records(s)
  {
    RecordRoundTrip(h, s);
  }

  /** A restart rebuilds cache, height and best hash from a file that records what memory
      mirrors, with repeated or off-target headers or without. */
  lemma ReplayMirrors(rules: Rules, c: Chain, log: seq<BlockHeader>)
    requires Mirrored(rules, c, log) && Recorded(c, log)
    ensures Records(c.file) == log
    ensures Loaded(rules, c.file) == c.(targetHeight := 0)
  {
    RecordsOfLog(log, []);
    assert c.file + [] == c.file;
  }

  /** A file of whole records is that of the log it loads as. */
  lemma {:induction false} RecordsWhole(file: seq<byte>)
    requires |file| % RECORD == 0
    ensures EncMany(AsBytes, Records(file)) == file
  {
    if |file| >= RECORD {
      RecordExact(file);
      RecordsWhole(ParseRecord(file).rest);
      assert Records(file)[1..] == Records(ParseRecord(file).rest);
    }
  }

  /** The same of a log: and what is rebuilt is a log again. */
  lemma ReplayRebuilds(rules: Rules, c: Chain, log: seq<BlockHeader>)
    requires Logged(rules, c, log)
    ensures Records(c.file) == log
    ensures Loaded(rules, c.file) == c.(targetHeight := 0)
    ensures Logged(rules, Loaded(rules, c.file), log)
  {
    ReplayMirrors(rules, c, log);
  }

  lemma {:induction false} RecordsOfPrefix(log: seq<BlockHeader>, k: nat)
    requires k <= |EncMany(AsBytes, log)|
    ensures k / RECORD <= |log| && Records(EncMany(AsBytes, log)[..k]) == log[..k / RECORD]
  {
    if k >= RECORD {
      var first, t := AsBytes(log[0]), EncMany(AsBytes, log[1..]);
      RecordsOfPrefix(log[1..], k - RECORD);
      PrefixOfConcat(first, t, k);
      RecordsStep(log[0], t[..k - RECORD]);
      PrefixOfCons(log, k / RECORD);
    }
  }

  lemma PrefixOfConcat(a: seq<byte>, t: seq<byte>, k: nat)
    requires |a| <= k <= |a + t|
    ensures (a + t)[..k] == a + t[..k - |a|]
  {
  }

  lemma PrefixOfCons(log: seq<BlockHeader>, n: nat)
    requires 1 <= n <= |log|
    ensures log[..n] == [log[0]] + log[1..][..n - 1]
  {
  }

  /** Any byte prefix of a valid log loads as its whole records. */
  lemma TornTailLoads(rules: Rules, c: Chain, log: seq<BlockHeader>, k: nat)
    requires Logged(rules, c, log) && k <= |c.file|
    ensures k / RECORD <= |log|
    ensures var front := log[..k / RECORD];
      Loaded(rules, c.file[..k]).(file := EncMany(AsBytes, front)) == Loaded(rules, EncMany(AsBytes, front))
      && Logged(rules, Loaded(rules, EncMany(AsBytes, front)), front)
  {
    RecordsOfPrefix(log, k);
    PrefixLogged(rules, c, log, k / RECORD);
  }

  lemma PrefixLogged(rules: Rules, c: Chain, log: seq<BlockHeader>, n: nat)
    requires Logged(rules, c, log) && n <= |log|
    ensures Records(EncMany(AsBytes, log[..n])) == log[..n]
    ensures Logged(rules, Loaded(rules, EncMany(AsBytes, log[..n])), log[..n])
  {
    var front := log[..n];
    RecordsOfLog(front, []);
    assert EncMany(AsBytes, front) + [] == EncMany(AsBytes, front);
    forall h | h in front ensures rules.meetsTarget(h) {
      assert h in log;
    }
    assert Distinct(rules, front);
  }

  /** After loading a file with a torn tail, the next header goes after the torn bytes, not
      over them: the file replays to what memory holds exactly when those bytes and the new
      record happen to start with that record. */
  lemma TornTailAppend(rules: Rules, log: seq<BlockHeader>, tail: seq<byte>, h: BlockHeader)
    requires 0 < |tail| < RECORD
    requires rules.hash(h) !in Loaded(rules, EncMany(AsBytes, log) + tail).cache
    ensures var c := Append(rules, Loaded(rules, EncMany(AsBytes, log) + tail), h);
      Records(c.file) == log + [h] <==> (tail + AsBytes(h))[..RECORD] == AsBytes(h)
  {
    var f, t := EncMany(AsBytes, log), tail + AsBytes(h);
    RecordsOfLog(log, tail);
    Assoc(f, tail, AsBytes(h));
    RecordExact(t);
    var g, rest := ParseRecord(t).value, ParseRecord(t).rest;
    assert t[..RECORD] == AsBytes(g);
    EncManySnoc(AsBytes, log, g);
    RecordsOfLog(log + [g], rest);
    Assoc(f, AsBytes(g), rest);
    assert Records(f + t) == log + [g];
    assert (log + [g])[|log|] == g && (log + [h])[|log|] == h;
    RecordRoundTrip(g, []);
    RecordRoundTrip(h, []);
  }

  /** A single torn byte is enough, unless it happens to be the record's first. */
  lemma TornByteMisframes(rules: Rules, log: seq<BlockHeader>, b: byte, h: BlockHeader)
    requires b != AsBytes(h)[0] && rules.hash(h) !in Loaded(rules, EncMany(AsBytes, log) + [b]).cache
    ensures Records(Append(rules, Loaded(rules, EncMany(AsBytes, log) + [b]), h).file) != log + [h]
  {
    TornTailAppend(rules, log, [b], h);
    assert ([b] + AsBytes(h))[..RECORD][0] == b;
  }

  // ---------------------------------------------------------------- batches

  function Combine(r: SaveResult, more: nat): SaveResult {
    if r.Added? then Added(r.count + more) else r
  }

  /** Saving two batches in one is saving them one after the other. */
  lemma {:induction false} SaveSplits(rules: Rules, c: Chain, a: seq<BlockHeader>, b: seq<BlockHeader>)
    ensures var (c1, r1) := Save(rules, c, a);
      Save(rules, c, a + b) ==
      match r1
      case Rejected => (c1, Rejected)
      case Added(n) => var (c2, r2) := Save(rules, c1, b); (c2, Combine(r2, n))
    decreases |a|
  {
    if a == [] {
      assert a + b == b;
    } else {
      assert (a + b)[1..] == a[1..] + b;
      if rules.hash(a[0]) in c.cache {
        SaveSplits(rules, c, a[1..], b);
      } else if Verify(rules, a[0], Lookup(c.cache, a[0].prevBlock)) {
        SaveSplits(rules, Append(rules, c, a[0]), a[1..], b);
      }
    }
  }

  lemma {:induction false} SaveCaches(rules: Rules, c: Chain, hs: seq<BlockHeader>)
    ensures var (c', r) := Save(rules, c, hs);
      && c.cache.Keys <= c'.cache.Keys
      && (r.Added? ==> forall h :: h in hs ==> rules.hash(h) in c'.cache)
    decreases |hs|
  {
    if hs != [] {
      if rules.hash(hs[0]) in c.cache {
        SaveCaches(rules, c, hs[1..]);
      } else if Verify(rules, hs[0], Lookup(c.cache, hs[0].prevBlock)) {
        SaveCaches(rules, Append(rules, c, hs[0]), hs[1..]);
      }
    }
  }

  lemma {:induction false} SaveKnown(rules: Rules, c: Chain, hs: seq<BlockHeader>)
    requires forall h :: h in hs ==> rules.hash(h) in c.cache
    ensures Save(rules, c, hs) == (c, Added(0))
  {
    if hs != [] { SaveKnown(rules, c, hs[1..]); }
  }

  /** Saving an accepted batch again adds nothing and changes nothing. */
  lemma SaveAgain(rules: Rules, c: Chain, hs: seq<BlockHeader>)
    requires Save(rules, c, hs).1.Added?
    ensures var c' := Save(rules, c, hs).0;
      Save(rules, c', hs) == (c', Added(0))
  {
    SaveCaches(rules, c, hs);
    SaveKnown(rules, Save(rules, c, hs).0, hs);
  }

  // ---------------------------------------------------------------- whole runs

  datatype Event = Batch(headers: seq<BlockHeader>) | Restart | NewTarget(height: u32)

  function Apply(rules: Rules, c: Chain, e: Event): Chain {
    match e
    case Batch(hs) => Save(rules, c, hs).0
    case Restart => Loaded(rules, c.file)
    case NewTarget(t) => if t > c.targetHeight then c.(targetHeight := t) else c
  }

  function ApplyAll(rules: Rules, c: Chain, es: seq<Event>): Chain
    decreases |es|
  {
    if es == [] then c else ApplyAll(rules, Apply(rules, c, es[0]), es[1..])
  }

  ghost function LogAfter(rules: Rules, log: seq<BlockHeader>, es: seq<Event>): seq<BlockHeader>
    decreases |es|
  {
    if es == [] then log
    else LogAfter(rules, if es[0].Batch? then SaveLog(rules, log, es[0].headers).0 else log, es[1..])
  }

  lemma {:induction false} RunKeepsLog(rules: Rules, c: Chain, log: seq<BlockHeader>, es: seq<Event>)
    requires Logged(rules, c, log)
    ensures Logged(rules, ApplyAll(rules, c, es), LogAfter(rules, log, es))
    ensures log <= LogAfter(rules, log, es)
    decreases |es|
  {
    if es != [] {
      match es[0] {
        case Batch(hs) => SaveRefinesLog(rules, c, log, hs);
        case Restart => ReplayRebuilds(rules, c, log);
        case NewTarget(_) =>
      }
      RunKeepsLog(rules, Apply(rules, c, es[0]), if es[0].Batch? then SaveLog(rules, log, es[0].headers).0
        else log, es[1..]);
    }
  }

  /** After any run from an empty file, of batches accepted, rejected or rejected part way and
      of restarts, the file is a sequence of records with distinct hashes, each of which meets
      its target; the cache holds exactly these under their hashes; height and best hash are
      those of the log; and loading the file gives the same state again. */
  lemma AnyRun(rules: Rules, es: seq<Event>)
    ensures var c, log := ApplyAll(rules, Start([]), es), LogAfter(rules, [], es);
      && c.file == EncMany(AsBytes, log) && |c.file| == RECORD * |log|
      && Distinct(rules, log)
      && (forall h :: h in log ==> rules.meetsTarget(h))
      && (forall k :: k in c.cache <==> Known(rules, log, k))
      && (forall k :: k in c.cache ==> rules.hash(c.cache[k]) == k)
      && |c.cache| == |log| && c.height == |log| % 0x1_0000_0000
      && c.bestHash == (if log == [] then ZeroHash() else rules.hash(log[|log| - 1]))
      && Loaded(rules, c.file) == c.(targetHeight := 0)
  {
    var c, log := ApplyAll(rules, Start([]), es), LogAfter(rules, [], es);
    assert Logged(rules, Start([]), []);
    RunKeepsLog(rules, Start([]), [], es);
    RecordsOfLog(log, []);
    CacheSize(rules, log);
    ReplayRebuilds(rules, c, log);
    forall k ensures (k in c.cache <==> Known(rules, log, k)) && (k in c.cache ==> rules.hash(c.cache[k]) == k) {
      CacheKeys(rules, log, k);
    }
  }

  /** With the node's own rules: the file only ever holds headers whose hash, as a number, is
      at most the target they state, and the cache holds just these. */
  lemma AnyRunOnTarget(sha256: seq<byte> -> Hash32, es: seq<Event>)
    ensures var rules := RulesOf(sha256);
      var c, log := ApplyAll(rules, Start([]), es), LogAfter(rules, [], es);
      && c.file == EncMany(AsBytes, log)
      && (forall h :: h in log ==> FromLE(Hash(sha256, h)) <= TargetValue(h.bits))
      && (forall k :: k in c.cache <==> exists h :: h in log && Hash(sha256, h) == k)
  {
    var rules := RulesOf(sha256);
    var c, log := ApplyAll(rules, Start([]), es), LogAfter(rules, [], es);
    AnyRun(rules, es);
    forall h | h in log ensures FromLE(Hash(sha256, h)) <= TargetValue(h.bits) {
      assert rules.meetsTarget(h);
      ProofOfWorkNumeric(sha256, h);
    }
    forall k ensures k in c.cache <==> exists h :: h in log && Hash(sha256, h) == k {
      assert k in c.cache <==> Known(rules, log, k);
      RulesHash(sha256, log, k);
    }
  }

  lemma RulesHash(sha256: seq<byte> -> Hash32, log: seq<BlockHeader>, k: Hash32)
    ensures Known(RulesOf(sha256), log, k) <==> exists h :: h in log && Hash(sha256, h) == k
  {
    forall h ensures RulesOf(sha256).hash(h) == Hash(sha256, h) {
    }
  }
}
