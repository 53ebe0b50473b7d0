/** Client-side filtering: what is tracked for an address, and which messages are shown. */
module Filter {
  import opened Bytes
  import opened Base58
  import Positional
  import Base58Codec
  import opened Transaction
  import opened Packets
  import opened Addresses

  /** What the node tracks for an address given to it. */
  ghost function FilterHash(al: seq<byte>, address: seq<byte>): (h: Option<Hash20>)
    requires |al| == 58
  {
    match Decode(al, address)
    case None => None
    case Some(d) => if |d| < 25 then None else Some(d[1..21])
  }

  ghost function FilterHashes(al: seq<byte>, addresses: seq<seq<byte>>): seq<Hash20>
    requires |al| == 58
  {
    if addresses == [] then []
    else
      var front := FilterHashes(al, addresses[..|addresses| - 1]);
      match FilterHash(al, addresses[|addresses| - 1])
      case None => front
      case Some(h) => front + [h]
  }

  method TrackedHashes(alphabet: seq<byte>, addresses: seq<seq<byte>>) returns (hashes: seq<Hash20>)
    requires IsAlphabet(alphabet) && alphabet[0] == ONE
    ensures hashes == FilterHashes(alphabet, addresses)
  {
    hashes := [];
    for k := 0 to |addresses|
      invariant hashes == FilterHashes(alphabet, addresses[..k])
    {
      assert addresses[..k + 1][..k] == addresses[..k];
      var decoded := Base58Codec.DecodeOver(alphabet, addresses[k]);
      if decoded.Some? && |decoded.value| >= 25 {
        hashes := hashes + [decoded.value[1..21]];
      }
    }
    assert addresses[..|addresses|] == addresses;
  }

  predicate WindowAt(script: seq<byte>, i: nat, hash: seq<byte>) {
    i + |hash| <= |script| && script[i..i + |hash|] == hash
  }

  ghost predicate Contains(script: seq<byte>, hash: seq<byte>) {
    exists i: nat :: WindowAt(script, i, hash)
  }

  ghost predicate Pays(tx: TxMessage, hashes: seq<Hash20>) {
    exists o, h :: o in tx.txOut && h in hashes && Contains(o.pkScript, h)
  }

  /** `matches_filter`: which messages are shown. */
  ghost predicate Matches(m: Message, hashes: seq<Hash20>) {
    hashes == [] ||
    match m
    case Tx(tx) => Pays(tx, hashes)
    case Inv(_) => false
    case GetData(_) => false
    case _ => true
  }

  method MatchesFilter(m: Message, hashes: seq<Hash20>) returns (r: bool)
    ensures r == Matches(m, hashes)
  {
    if hashes == [] { return true; }
    match m {
      case Tx(tx) =>
        for i := 0 to |tx.txOut|
          invariant forall o, h :: o in tx.txOut[..i] && h in hashes ==> !Contains(o.pkScript, h)
        {
          for j := 0 to |hashes|
            invariant forall h :: h in hashes[..j] ==> !Contains(tx.txOut[i].pkScript, h)
          {
            var found := HasWindow(tx.txOut[i].pkScript, hashes[j]);
            if found { PaysHere(tx, hashes, i, j); return true; }
          }
        }
        return false;
      case Inv(_) => return false;
      case GetData(_) => return false;
      case _ => return true;
    }
  }

  lemma PaysHere(tx: TxMessage, hashes: seq<Hash20>, i: nat, j: nat)
    requires i < |tx.txOut| && j < |hashes| && Contains(tx.txOut[i].pkScript, hashes[j])
    ensures Pays(tx, hashes)
  {
    assert tx.txOut[i] in tx.txOut && hashes[j] in hashes;
  }

  /** `windows(hash.len()).any(|w| w == hash)` */
  method HasWindow(script: seq<byte>, hash: Hash20) returns (found: bool)
    ensures found == Contains(script, hash)
  {
    var i := 0;
    while i + |hash| <= |script|
      invariant forall k: nat :: k < i ==> !WindowAt(script, k, hash)
    {
      if WindowAt(script, i, hash) { return true; }
      i := i + 1;
    }
    return false;
  }

  /** Why a transaction is shown: one of its output scripts holds a tracked hash. */
  lemma ShownWhy(tx: TxMessage, hashes: seq<Hash20>) returns (j: nat, k: nat, i: nat)
    requires hashes != [] && Matches(Tx(tx), hashes)
    ensures j < |tx.txOut| && k < |hashes| && i + 20 <= |tx.txOut[j].pkScript|
    ensures tx.txOut[j].pkScript[i..i + 20] == hashes[k]
  {
    var o, h :| o in tx.txOut && h in hashes && Contains(o.pkScript, h);
    j :| 0 <= j < |tx.txOut| && tx.txOut[j] == o;
    k :| 0 <= k < |hashes| && hashes[k] == h;
    i :| WindowAt(o.pkScript, i, h);
  }

  /** And that is enough. */
  lemma ShownIf(tx: TxMessage, hashes: seq<Hash20>, j: nat, k: nat, i: nat)
    requires j < |tx.txOut| && k < |hashes| && i + 20 <= |tx.txOut[j].pkScript|
    requires tx.txOut[j].pkScript[i..i + 20] == hashes[k]
    ensures Matches(Tx(tx), hashes)
  {
    assert WindowAt(tx.txOut[j].pkScript, i, hashes[k]);
    PaysHere(tx, hashes, j, k);
  }

  /** With a filter, inventories and requests are hidden and all but transactions shown;
      without one, everything is. */
  lemma OthersShown(m: Message, hashes: seq<Hash20>)
    ensures hashes == [] ==> Matches(m, hashes)
    ensures hashes != [] && (m.Inv? || m.GetData?) ==> !Matches(m, hashes)
    ensures m.Version? || m.Verack? || m.Ping? || m.Pong? || m.GetHeaders? || m.Header? || m.Unknown? ==>
      Matches(m, hashes)
  {
  }

  // ---------------------------------------------------------------- tracked addresses

  /** An encoding is tracked when it is of 25 bytes or more or of 24 zero bytes, which gain
      one; whatever its version and checksum bytes are, its bytes 1 to 20 are the hash. */
  lemma FilterHashExact(al: seq<byte>, d: seq<byte>)
    requires IsAlphabet(al)
    ensures FilterHash(al, Base58.Encode(al, d)).Some? <==> |d| >= 25 || (|d| == 24 && AllZero(d))
    ensures |d| >= 25 ==> FilterHash(al, Base58.Encode(al, d)) == Some(d[1..21])
  {
    EncodedDecodes(al, d);
    if AllZero(d) { ZeroSlice(d); }
  }

  lemma ZeroSlice(d: seq<byte>)
    requires d == Positional.Zeros(|d|)
    ensures |Positional.Zeros(|d| + 1)| == |d| + 1
    ensures |d| >= 25 ==> d[1..21] == Positional.Zeros(|d| + 1)[1..21]
  {
  }

  /** The address of a script tracks the hash in that script, or for P2WPKH nothing. */
  lemma AddressTracked(al: seq<byte>, sha256: Sha256, script: seq<byte>)
    requires IsAlphabet(al) && UNDERSCORE !in al
    requires PkScriptToAddress(al, sha256, script).Some?
    ensures FilterHash(al, PkScriptToAddress(al, sha256, script).value) ==
            if IsP2wpkh(script) then None else Some(HashIn(script))
  {
    if IsP2wpkh(script) {
      SegwitNotBase58(al, Hex(HashIn(script)));
    } else {
      FilterHashExact(al, Checked(sha256, VersionOf(script), HashIn(script)));
    }
  }

  lemma {:induction false} HashesExact(al: seq<byte>, addresses: seq<seq<byte>>, h: Hash20)
    requires |al| == 58
    ensures h in FilterHashes(al, addresses) <==> exists a :: a in addresses && FilterHash(al, a) == Some(h)
  {
    if addresses != [] {
      var front, last := addresses[..|addresses| - 1], addresses[|addresses| - 1];
      HashesExact(al, front, h);
      assert addresses == front + [last];
    }
  }

  /** A P2PKH or P2SH address that was asked for is never missed: every transaction with an
      output to its script is shown, whatever else is tracked. So is one that pays the same
      hash under another script form. */
  lemma TrackedNeverMissed(al: seq<byte>, sha256: Sha256, addresses: seq<seq<byte>>, script: seq<byte>,
      other: seq<byte>, tx: TxMessage)
    requires IsAlphabet(al) && UNDERSCORE !in al
    requires PkScriptToAddress(al, sha256, script).Some? && !IsP2wpkh(script)
    requires PkScriptToAddress(al, sha256, script).value in addresses
    requires PkScriptToAddress(al, sha256, other).Some? && HashIn(other) == HashIn(script)
    requires exists o :: o in tx.txOut && o.pkScript == other
    ensures Matches(Tx(tx), FilterHashes(al, addresses))
  {
    AddressTracked(al, sha256, script);
    HashesExact(al, addresses, HashIn(script));
    ScriptHoldsHash(other);
  }

  lemma ScriptHoldsHash(script: seq<byte>)
    requires IsP2pkh(script) || IsP2sh(script) || IsP2wpkh(script)
    ensures Contains(script, HashIn(script))
  {
    assert WindowAt(script, if IsP2pkh(script) then 3 else 2, HashIn(script));
  }

  /** Addresses that cannot be tracked: those with a foreign character and those that decode
      to fewer than 25 bytes. */
  ghost predicate Untracked(al: seq<byte>, address: seq<byte>)
    requires |al| == 58
  {
    !Over(al, address) || |Decode(al, address).value| < 25
  }

  lemma UntrackedExact(al: seq<byte>, address: seq<byte>)
    requires |al| == 58
    ensures FilterHash(al, address).None? <==> Untracked(al, address)
  {
  }

  /** Everything is shown, whatever it is, exactly if none of the addresses given can be
      tracked. */
  lemma ShowsAllExact(al: seq<byte>, addresses: seq<seq<byte>>)
    requires |al| == 58
    ensures (forall m :: Matches(m, FilterHashes(al, addresses))) <==> forall a :: a in addresses ==> Untracked(al, a)
  {
    var hashes := FilterHashes(al, addresses);
    if a :| a in addresses && !Untracked(al, a) {
      UntrackedExact(al, a);
      HashesExact(al, addresses, FilterHash(al, a).value);
      assert !Matches(Inv([]), hashes);
    } else if hashes != [] {
      HashesExact(al, addresses, hashes[0]);
      var a :| a in addresses && FilterHash(al, a) == Some(hashes[0]);
      UntrackedExact(al, a);
    }
  }

  /** One mistyped address, given alone, switches the filter off. */
  lemma MistypedShowsAll(al: seq<byte>, m: Message)
    requires |al| == 58 && UNDERSCORE !in al
    ensures Matches(m, FilterHashes(al, [[UNDERSCORE]]))
  {
    assert [UNDERSCORE][0] !in al;
    ShowsAllExact(al, [[UNDERSCORE]]);
  }

  /** So does any number of P2WPKH addresses. */
  lemma OnlySegwitShowsAll(al: seq<byte>, sha256: Sha256, addresses: seq<seq<byte>>, m: Message)
    requires IsAlphabet(al) && UNDERSCORE !in al
    requires forall a :: a in addresses ==> exists h :: a == SEGWIT + h
    ensures Matches(m, FilterHashes(al, addresses))
  {
    forall a | a in addresses ensures Untracked(al, a) {
      var h :| a == SEGWIT + h;
      SegwitNotBase58(al, h);
    }
    ShowsAllExact(al, addresses);
  }

  /** With some address tracked, a transaction is shown only for an address given whose bytes
      1 to 20 stand in one of its output scripts: any other transaction is hidden. */
  lemma ShownFor(al: seq<byte>, addresses: seq<seq<byte>>, tx: TxMessage)
    returns (address: seq<byte>, j: nat, i: nat)
    requires |al| == 58 && (exists a :: a in addresses && !Untracked(al, a))
    requires Matches(Tx(tx), FilterHashes(al, addresses))
    ensures address in addresses && Over(al, address) && |Decode(al, address).value| >= 25
    ensures j < |tx.txOut| && i + 20 <= |tx.txOut[j].pkScript|
    ensures tx.txOut[j].pkScript[i..i + 20] == Decode(al, address).value[1..21]
  {
    var hashes := FilterHashes(al, addresses);
    var a :| a in addresses && !Untracked(al, a);
    UntrackedExact(al, a);
    HashesExact(al, addresses, FilterHash(al, a).value);
    var k;
    j, k, i := ShownWhy(tx, hashes);
    HashesExact(al, addresses, hashes[k]);
    address :| address in addresses && FilterHash(al, address) == Some(hashes[k]);
    UntrackedExact(al, address);
  }

  // ---------------------------------------------------------------- with the real alphabet

  /** What the node tracks for the addresses on its command line. */
  ghost function Tracked(addresses: seq<seq<byte>>): seq<Hash20> {
    AlphabetIsAlphabet();
    FilterHashes(ALPHABET, addresses)
  }

  method TrackedOf(addresses: seq<seq<byte>>) returns (hashes: seq<Hash20>)
    ensures hashes == Tracked(addresses)
  {
    AlphabetIsAlphabet();
    hashes := TrackedHashes(ALPHABET, addresses);
  }

  /** `TrackedNeverMissed` for the addresses the node displays. */
  lemma DisplayedNeverMissed(sha256: Sha256, addresses: seq<seq<byte>>, script: seq<byte>, other: seq<byte>,
      tx: TxMessage)
    requires AddressOf(sha256, script).Some? && !IsP2wpkh(script)
    requires AddressOf(sha256, script).value in addresses
    requires AddressOf(sha256, other).Some? && HashIn(other) == HashIn(script)
    requires exists o :: o in tx.txOut && o.pkScript == other
    ensures Matches(Tx(tx), Tracked(addresses))
  {
    AlphabetIsAlphabet();
    AlphabetHasNoUnderscore();
    TrackedNeverMissed(ALPHABET, sha256, addresses, script, other, tx);
  }
}
