/** The mutable chain state beside its file, proved against `ChainStore`. */
module HeaderStore {
  import opened Bytes
  import opened Streams
  import opened Headers
  import opened ChainStore

  datatype Verdict = Skipped | Refused | Stored

  class ChainState {
    /** Header hash and proof-of-work test: `RulesOf` of the hash function in use. */
    const rules: Rules
    var bestBlockHash: Hash32
    var bestBlockHeight: u32
    var targetHeight: u32
    var headerCache: map<Hash32, BlockHeader>
    /** `headers.dat` */
    var file: seq<byte>

    constructor (rules: Rules, file: seq<byte>)
      ensures this.rules == rules && State() == Start(file)
    {
      this.rules := rules;
      bestBlockHash, bestBlockHeight, targetHeight, headerCache := ZeroHash(), 0, 0, map[];
      this.file := file;
    }

    function State(): Chain
      reads this
    {
      Chain(bestBlockHash, bestBlockHeight, targetHeight, headerCache, file)
    }

    method LoadHeaders() returns (count: u32)
      modifies this`bestBlockHash, this`bestBlockHeight, this`headerCache
      ensures State() == Load(rules, old(State()))
      ensures count == Wrap(|Records(file)|)
    {
      var reader := new Reader(file);
      var loaded := 0;  // wrapped below: adding and wrapping one at a time comes to the same
      ghost var done: seq<BlockHeader> := [];
      RememberNone(rules, State());
      while true
        invariant Records(file) == done + Records(reader.rest) && loaded == |done|
        invariant State() == Remembered(rules, old(State()), done)
        decreases |reader.rest|
      {
        ghost var before := Records(reader.rest);
        var r := NextRecord(reader);
        if r.None? { break; }
        Shift(Records(file), done, before, r.value, Records(reader.rest));
        RememberOne(rules, old(State()), done, r.value);
        Remember(r.value);
        loaded := loaded + 1;
        done := done + [r.value];
      }
      assert Records(file) == done;
      count := Wrap(loaded);
      bestBlockHeight := count;
    }

    method Remember(header: BlockHeader)
      modifies this`bestBlockHash, this`headerCache
      ensures State() == old(State()).(bestHash := rules.hash(header),
        cache := old(headerCache)[rules.hash(header) := header])
    {
      var hash := rules.hash(header);
      headerCache := headerCache[hash := header];
      bestBlockHash := hash;
    }

    method SaveNewHeaders(headers: seq<BlockHeader>) returns (r: SaveResult)
      modifies this`bestBlockHash, this`bestBlockHeight, this`headerCache, this`file
      ensures (State(), r) == Save(rules, old(State()), headers)
    {
      var added := 0;
      var writer: seq<byte> := [];
      assert file + writer == file;
      SaveStart(rules, State(), headers);
      for k := 0 to |headers|
        invariant file == old(file)
        invariant SoFar(rules, old(State()), headers, Buffered(writer), headers[k..], added)
      {
        SaveStep(rules, old(State()), headers, Buffered(writer), headers[k..], added);
        assert headers[k..][1..] == headers[k + 1..];
        var verdict;
        verdict, writer := SaveHeader(headers[k], writer);
        if verdict.Refused? {
          file := file + writer;  // dropping the buffered writer flushes it
          return Rejected;
        }
        if verdict.Stored? {
          added := added + 1;
        }
      }
      file := file + writer;
      r := Added(added);
    }

    /** One turn of the loop: skip a known header, refuse a bad one, else write and cache it. */
    method SaveHeader(header: BlockHeader, writer: seq<byte>) returns (verdict: Verdict, written: seq<byte>)
      modifies this`bestBlockHash, this`bestBlockHeight, this`headerCache
      ensures verdict == Judge(rules, old(headerCache), header)
      ensures Buffered(written) == if verdict.Stored? then Append(rules, old(Buffered(writer)), header)
        else old(Buffered(writer))
    {
      var hash := rules.hash(header);
      if hash in headerCache {
        return Skipped, writer;
      }
      var prev := Lookup(headerCache, header.prevBlock);
      if !Verify(rules, header, prev) {
        return Refused, writer;
      }
      var bytes := WriteRecord(header);
      Assoc(file, writer, bytes);
      headerCache := headerCache[hash := header];
      bestBlockHash := hash;
      bestBlockHeight := Wrap(bestBlockHeight + 1);
      return Stored, writer + bytes;
    }

    /** The state with the bytes still in the buffered writer counted as written. */
    function Buffered(writer: seq<byte>): Chain
      reads this
    {
      State().(file := file + writer)
    }
  }

  function Judge(rules: Rules, cache: map<Hash32, BlockHeader>, h: BlockHeader): Verdict {
    if rules.hash(h) in cache then Skipped
    else if !Verify(rules, h, Lookup(cache, h.prevBlock)) then Refused
    else Stored
  }

  /** What is left of a batch, saved from the state reached, completes the whole save. */
  ghost predicate SoFar(rules: Rules, start: Chain, all: seq<BlockHeader>, c: Chain, rest: seq<BlockHeader>,
      added: nat)
  {
    Save(rules, start, all) == (Save(rules, c, rest).0, Combine(Save(rules, c, rest).1, added))
  }

  lemma SaveStart(rules: Rules, c: Chain, hs: seq<BlockHeader>)
    ensures SoFar(rules, c, hs, c, hs[0..], 0)
  {
    assert hs[0..] == hs;
  }

  lemma SaveStep(rules: Rules, start: Chain, all: seq<BlockHeader>, c: Chain, rest: seq<BlockHeader>, added: nat)
    requires SoFar(rules, start, all, c, rest, added) && rest != []
    ensures match Judge(rules, c.cache, rest[0])
      case Skipped => SoFar(rules, start, all, c, rest[1..], added)
      case Refused => Save(rules, start, all) == (c, Rejected)
      case Stored => SoFar(rules, start, all, Append(rules, c, rest[0]), rest[1..], added + 1)
  {
  }

  lemma Shift(all: seq<BlockHeader>, done: seq<BlockHeader>, before: seq<BlockHeader>, h: BlockHeader,
      rest: seq<BlockHeader>)
    requires all == done + before && before == [h] + rest
    ensures all == (done + [h]) + rest
  {
  }

  /** The state once some records have been read, the height not yet being set. */
  function Remembered(rules: Rules, c: Chain, done: seq<BlockHeader>): Chain {
    c.(bestHash := if done == [] then c.bestHash else BestOf(rules, done), cache := c.cache + CacheOf(rules, done))
  }

  lemma RememberNone(rules: Rules, c: Chain)
    ensures Remembered(rules, c, []) == c
  {
    assert c.cache + CacheOf(rules, []) == c.cache;
  }

  lemma RememberOne(rules: Rules, c: Chain, done: seq<BlockHeader>, h: BlockHeader)
    ensures var r := Remembered(rules, c, done);
      Remembered(rules, c, done + [h]) == r.(bestHash := rules.hash(h), cache := r.cache[rules.hash(h) := h])
  {
    assert (done + [h])[..|done|] == done;
  }

  /** `read_from_disk`, an end of file inside a record counting as the end. */
  method NextRecord(reader: Reader) returns (r: Option<BlockHeader>)
    modifies reader
    ensures r.None? ==> Records(old(reader.rest)) == []
    ensures r.Some? ==> Records(old(reader.rest)) == [r.value] + Records(reader.rest)
    ensures r.Some? ==> |reader.rest| < |old(reader.rest)|
  {
    r := ReadRecord(reader);
  }
}
