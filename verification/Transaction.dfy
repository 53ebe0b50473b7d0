/** Transactions, their wire forms, and the reader that tells the forms apart. */
module Transaction {
  import opened Bytes
  import opened Streams
  import opened Varint

  datatype Outpoint = Outpoint(hash: Hash32, index: u32)
  datatype TxIn = TxIn(prevTxid: Outpoint, scriptSig: seq<byte>, sequence: u32)
  datatype TxOut = TxOut(value: i64, pkScript: seq<byte>)
  datatype TxWitness = TxWitness(witnessData: seq<byte>)
  datatype TxMessageWitness = TxMessageWitness(items: seq<TxWitness>)
  datatype TxMessage = TxMessage(
    version: i32, flag: byte, txIn: seq<TxIn>, txOut: seq<TxOut>,
    txWitness: Option<seq<TxMessageWitness>>, lockTime: u32)

  /** Lengths fit the 64-bit counts of the wire format, as those of all vectors do. */
  ghost predicate Sized(tx: TxMessage) {
    && |tx.txIn| < TWO_64 && |tx.txOut| < TWO_64
    && (forall i :: i in tx.txIn ==> |i.scriptSig| < TWO_64)
    && (forall o :: o in tx.txOut ==> |o.pkScript| < TWO_64)
    && (tx.txWitness.Some? ==> forall w :: w in tx.txWitness.value ==> SizedStack(w))
  }

  ghost predicate SizedStack(w: TxMessageWitness) {
    |w.items| < TWO_64 && forall d :: d in w.items ==> |d.witnessData| < TWO_64
  }

  /** The transaction as the legacy format carries it. */
  function Stripped(tx: TxMessage): TxMessage {
    tx.(flag := 0, txWitness := None)
  }

  // ---------------------------------------------------------------- wire forms

  function EncBytes(b: seq<byte>): seq<byte> { EncVarint(|b|) + b }
  function EncOutpoint(o: Outpoint): seq<byte> { o.hash + EncU32(o.index) }
  function EncTxIn(i: TxIn): seq<byte> { EncOutpoint(i.prevTxid) + EncBytes(i.scriptSig) + EncU32(i.sequence) }
  function EncTxOut(o: TxOut): seq<byte> { EncI64(o.value) + EncBytes(o.pkScript) }
  function EncItem(w: TxWitness): seq<byte> { EncBytes(w.witnessData) }
  function EncStack(w: TxMessageWitness): seq<byte> { EncVarint(|w.items|) + EncMany(EncItem, w.items) }

  function EncInputs(ins: seq<TxIn>): seq<byte> { EncVarint(|ins|) + EncMany(EncTxIn, ins) }
  function EncOutputs(outs: seq<TxOut>): seq<byte> { EncVarint(|outs|) + EncMany(EncTxOut, outs) }

  function EncWitness(w: Option<seq<TxMessageWitness>>): seq<byte> {
    if w.Some? then EncMany(EncStack, w.value) else []
  }

  function EncLegacy(tx: TxMessage): seq<byte> {
    EncI32(tx.version) + EncInputs(tx.txIn) + EncOutputs(tx.txOut) + EncU32(tx.lockTime)
  }

  /** The "Serialization" section of BIP 144: a zero marker and a flag byte after the
      version, and one witness stack per input, with no count, before the lock time. */
  function EncMarked(tx: TxMessage): seq<byte> {
    EncI32(tx.version) + [0, tx.flag] + EncInputs(tx.txIn) + EncOutputs(tx.txOut)
    + EncWitness(tx.txWitness) + EncU32(tx.lockTime)
  }

  /** What `EncMarked` is defined for: witnesses go with flag 1, one stack per input. */
  ghost predicate WellMarked(tx: TxMessage) {
    && (tx.flag == 1 <==> tx.txWitness.Some?)
    && (tx.txWitness.Some? ==> |tx.txWitness.value| == |tx.txIn|)
  }

  /** The fields of each part, in order. */
  lemma FieldsInOrder(i: TxIn, o: TxOut, w: TxMessageWitness)
    ensures EncTxIn(i) == i.prevTxid.hash + LE(i.prevTxid.index, 4) + EncVarint(|i.scriptSig|) + i.scriptSig
                          + LE(i.sequence, 4)
    ensures EncTxOut(o) == LE(o.value % 0x1_0000_0000_0000_0000, 8) + EncVarint(|o.pkScript|) + o.pkScript
    ensures EncStack(w) == EncVarint(|w.items|) + EncMany(EncItem, w.items)
    ensures forall d :: EncItem(TxWitness(d)) == EncVarint(|d|) + d
  {
    TwosComplement(0, o.value, 0, 0);
  }

  /** The parts of a transaction, in order: only the marked form has a marker, a flag and, in
      front of the lock time, the witnesses. */
  lemma PartsInOrder(tx: TxMessage)
    ensures var ins := EncVarint(|tx.txIn|) + EncMany(EncTxIn, tx.txIn);
      var outs := EncVarint(|tx.txOut|) + EncMany(EncTxOut, tx.txOut);
      && EncLegacy(tx) == LE(tx.version % 0x1_0000_0000, 4) + ins + outs + LE(tx.lockTime, 4)
      && EncMarked(tx) == LE(tx.version % 0x1_0000_0000, 4) + [0x00, tx.flag] + ins + outs
                          + (if tx.txWitness.Some? then EncMany(EncStack, tx.txWitness.value) else [])
                          + LE(tx.lockTime, 4)
  {
    TwosComplement(tx.version, 0, 0, 0);
  }

  // ---------------------------------------------------------------- parsers

  function ParseBytes(s: seq<byte>): Parsed<seq<byte>> {
    var (n, s1) :- ParseVarint(s);
    Take(s1, n)
  }

  function ParseOutpoint(s: seq<byte>): Parsed<Outpoint> {
    var (hash, s1) :- ParseHash(s);
    var (index, s2) :- ParseU32(s1);
    Done(Outpoint(hash, index), s2)
  }

  function ParseTxIn(s: seq<byte>): Parsed<TxIn> {
    var (prev, s1) :- ParseOutpoint(s);
    var (script, s2) :- ParseBytes(s1);
    var (sequence, s3) :- ParseU32(s2);
    Done(TxIn(prev, script, sequence), s3)
  }

  function ParseTxOut(s: seq<byte>): Parsed<TxOut> {
    var (value, s1) :- ParseI64(s);
    var (script, s2) :- ParseBytes(s1);
    Done(TxOut(value, script), s2)
  }

  function ParseItem(s: seq<byte>): Parsed<TxWitness> {
    var (data, s1) :- ParseBytes(s);
    Done(TxWitness(data), s1)
  }

  function ParseStack(s: seq<byte>): Parsed<TxMessageWitness> {
    var (n, s1) :- ParseVarint(s);
    var (items, s2) :- ParseMany(ParseItem, n, s1);
    Done(TxMessageWitness(items), s2)
  }

  function ParseWitness(present: bool, count: nat, s: seq<byte>): Parsed<Option<seq<TxMessageWitness>>> {
    if present then
      var (stacks, s1) :- ParseMany(ParseStack, count, s);
      Done(Some(stacks), s1)
    else
      Done(None, s)
  }

  /** Marker, flag and input count: the flag is zero when there is no marker. */
  function ParseHead(s: seq<byte>): Parsed<(byte, nat)> {
    if s != [] && s[0] == 0 then
      var (f, s1) :- Take(s[1..], 1);
      var (n, s2) :- ParseVarint(s1);
      Done((f[0], n), s2)
    else
      var (n, s1) :- ParseVarint(s);
      Done((0, n), s1)
  }

  function ParseTx(s: seq<byte>): Parsed<TxMessage> {
    var (version, s1) :- ParseI32(s);
    var (head, s2) :- ParseHead(s1);
    if head.1 == 0 then Fail
    else
      var (ins, s3) :- ParseMany(ParseTxIn, head.1, s2);
      var (n, s4) :- ParseVarint(s3);
      var (outs, s5) :- ParseMany(ParseTxOut, n, s4);
      var (w, s6) :- ParseWitness(head.0 == 1, head.1, s5);
      var (lock, s7) :- ParseU32(s6);
      Done(TxMessage(version, head.0, ins, outs, w, lock), s7)
  }

  // ---------------------------------------------------------------- round trips

  lemma BytesRoundTrip(b: seq<byte>, r: seq<byte>)
    requires |b| < TWO_64
    ensures ParseBytes(EncBytes(b) + r) == Done(b, r)
  {
    VarintRoundTrip(|b|, b + r);
    assert EncBytes(b) + r == EncVarint(|b|) + (b + r);
    assert (b + r)[..|b|] == b && (b + r)[|b|..] == r;
  }

  lemma OutpointRoundTrip(o: Outpoint, r: seq<byte>)
    ensures ParseOutpoint(EncOutpoint(o) + r) == Done(o, r)
  {
    var t := EncU32(o.index) + r;
    assert EncOutpoint(o) + r == o.hash + t;
    assert (o.hash + t)[..32] == o.hash && (o.hash + t)[32..] == t;
    U32Read(o.index, r);
  }

  lemma TxInRoundTrip(i: TxIn, r: seq<byte>)
    requires |i.scriptSig| < TWO_64
    ensures ParseTxIn(EncTxIn(i) + r) == Done(i, r)
  {
    var t2 := EncU32(i.sequence) + r;
    var t1 := EncBytes(i.scriptSig) + t2;
    assert EncTxIn(i) + r == EncOutpoint(i.prevTxid) + t1;
    OutpointRoundTrip(i.prevTxid, t1);
    BytesRoundTrip(i.scriptSig, t2);
    U32Read(i.sequence, r);
  }

  lemma TxOutRoundTrip(o: TxOut, r: seq<byte>)
    requires |o.pkScript| < TWO_64
    ensures ParseTxOut(EncTxOut(o) + r) == Done(o, r)
  {
    var t := EncBytes(o.pkScript) + r;
    assert EncTxOut(o) + r == EncI64(o.value) + t;
    I64Read(o.value, t);
    BytesRoundTrip(o.pkScript, r);
  }

  lemma StackRoundTrip(w: TxMessageWitness, r: seq<byte>)
    requires SizedStack(w)
    ensures ParseStack(EncStack(w) + r) == Done(w, r)
  {
    var t := EncMany(EncItem, w.items) + r;
    assert EncStack(w) + r == EncVarint(|w.items|) + t;
    VarintRoundTrip(|w.items|, t);
    forall d, u | d in w.items ensures ParseItem(EncItem(d) + u) == Done(d, u) {
      BytesRoundTrip(d.witnessData, u);
    }
    ManyRoundTrip(ParseItem, EncItem, w.items, r);
  }

  lemma WitnessRoundTrip(tx: TxMessage, r: seq<byte>)
    requires Sized(tx) && WellMarked(tx)
    ensures ParseWitness(tx.flag == 1, |tx.txIn|, EncWitness(tx.txWitness) + r) == Done(tx.txWitness, r)
  {
    if tx.txWitness.Some? {
      forall w, u | w in tx.txWitness.value ensures ParseStack(EncStack(w) + u) == Done(w, u) {
        StackRoundTrip(w, u);
      }
      ManyRoundTrip(ParseStack, EncStack, tx.txWitness.value, r);
    } else {
      assert EncWitness(tx.txWitness) + r == r;
    }
  }

  lemma InputsRoundTrip(tx: TxMessage, r: seq<byte>)
    requires Sized(tx)
    ensures ParseMany(ParseTxIn, |tx.txIn|, EncMany(EncTxIn, tx.txIn) + r) == Done(tx.txIn, r)
  {
    forall i, u | i in tx.txIn ensures ParseTxIn(EncTxIn(i) + u) == Done(i, u) {
      TxInRoundTrip(i, u);
    }
    ManyRoundTrip(ParseTxIn, EncTxIn, tx.txIn, r);
  }

  lemma OutputsRoundTrip(tx: TxMessage, r: seq<byte>)
    requires Sized(tx)
    ensures ParseMany(ParseTxOut, |tx.txOut|, EncMany(EncTxOut, tx.txOut) + r) == Done(tx.txOut, r)
  {
    forall o, u | o in tx.txOut ensures ParseTxOut(EncTxOut(o) + u) == Done(o, u) {
      TxOutRoundTrip(o, u);
    }
    ManyRoundTrip(ParseTxOut, EncTxOut, tx.txOut, r);
  }

  /** Everything after the input count. */
  function EncTail(tx: TxMessage): seq<byte> {
    EncMany(EncTxIn, tx.txIn) + (EncVarint(|tx.txOut|) + (EncMany(EncTxOut, tx.txOut)
    + (EncWitness(tx.txWitness) + EncU32(tx.lockTime))))
  }

  lemma TailRoundTrip(tx: TxMessage, s: seq<byte>, r: seq<byte>)
    requires Sized(tx) && WellMarked(tx) && tx.txIn != []
    requires ParseI32(s).Done? && ParseI32(s).value == tx.version
    requires ParseHead(ParseI32(s).rest) == Done((tx.flag, |tx.txIn|), EncTail(tx) + r)
    ensures ParseTx(s) == Done(tx, r)
  {
    var t6 := EncU32(tx.lockTime) + r;
    var t5 := EncWitness(tx.txWitness) + t6;
    var t4 := EncMany(EncTxOut, tx.txOut) + t5;
    var t3 := EncVarint(|tx.txOut|) + t4;
    TailLayout(EncMany(EncTxIn, tx.txIn), EncVarint(|tx.txOut|), EncMany(EncTxOut, tx.txOut),
               EncWitness(tx.txWitness), EncU32(tx.lockTime), r);
    InputsRoundTrip(tx, t3);
    VarintRoundTrip(|tx.txOut|, t4);
    OutputsRoundTrip(tx, t5);
    WitnessRoundTrip(tx, t6);
    U32Read(tx.lockTime, r);
    TailSteps(s, tx, EncTail(tx) + r, t3, t4, t5, t6, r);
  }

  lemma TailLayout(a: seq<byte>, b: seq<byte>, c: seq<byte>, d: seq<byte>, e: seq<byte>, r: seq<byte>)
    ensures (a + (b + (c + (d + e)))) + r == a + (b + (c + (d + (e + r))))
  {
    Assoc(a, b + (c + (d + e)), r);
    Assoc(b, c + (d + e), r);
    Assoc(c, d + e, r);
    Assoc(d, e, r);
  }

  lemma TailSteps(s: seq<byte>, tx: TxMessage, t2: seq<byte>, t3: seq<byte>, t4: seq<byte>, t5: seq<byte>,
      t6: seq<byte>, r: seq<byte>)
    requires tx.txIn != []
    requires ParseI32(s).Done? && ParseI32(s).value == tx.version
    requires ParseHead(ParseI32(s).rest) == Done((tx.flag, |tx.txIn|), t2)
    requires ParseMany(ParseTxIn, |tx.txIn|, t2) == Done(tx.txIn, t3)
    requires ParseVarint(t3) == Done(|tx.txOut|, t4)
    requires ParseMany(ParseTxOut, |tx.txOut|, t4) == Done(tx.txOut, t5)
    requires ParseWitness(tx.flag == 1, |tx.txIn|, t5) == Done(tx.txWitness, t6)
    requires ParseU32(t6) == Done(tx.lockTime, r)
    ensures ParseTx(s) == Done(tx, r)
  {
  }

  /** Reading a legacy encoding, whatever follows it, consumes exactly the encoding and
      gives the transaction back without flag and witness. */
  lemma LegacyRoundTrip(tx: TxMessage, r: seq<byte>)
    requires Sized(tx) && tx.txIn != []
    ensures ParseTx(EncLegacy(tx) + r) == Done(Stripped(tx), r)
  {
    var u := Stripped(tx);
    var t := EncVarint(|tx.txIn|) + (EncTail(u) + r);
    LegacyLayout(tx, r);
    I32Read(tx.version, t);
    VarintRoundTrip(|tx.txIn|, EncTail(u) + r);
    VarintHead(|tx.txIn|);
    assert t[0] == EncVarint(|tx.txIn|)[0];
    TailRoundTrip(u, EncLegacy(tx) + r, r);
  }

  lemma LegacyLayout(tx: TxMessage, r: seq<byte>)
    ensures EncLegacy(tx) + r == EncI32(tx.version) + (EncVarint(|tx.txIn|) + (EncTail(Stripped(tx)) + r))
  {
    var a, b, c := EncI32(tx.version), EncVarint(|tx.txIn|), EncMany(EncTxIn, tx.txIn);
    var d, e, f := EncVarint(|tx.txOut|), EncMany(EncTxOut, tx.txOut), EncU32(tx.lockTime);
    assert EncWitness(None) + f == f;
    Regroup(a, b, c, d, e, f);
    Assoc(a, b + (c + (d + (e + f))), r);
    Assoc(b, c + (d + (e + f)), r);
  }

  lemma Regroup(a: seq<byte>, b: seq<byte>, c: seq<byte>, d: seq<byte>, e: seq<byte>, f: seq<byte>)
    ensures a + (b + c) + (d + e) + f == a + (b + (c + (d + (e + f))))
  {
    Assoc(a + (b + c), d + e, f);
    Assoc(a, b + c, (d + e) + f);
    Assoc(b, c, (d + e) + f);
    Assoc(d, e, f);
  }

  /** Reading the BIP 144 form gives back every field, witnesses included. */
  lemma MarkedRoundTrip(tx: TxMessage, r: seq<byte>)
    requires Sized(tx) && WellMarked(tx) && tx.txIn != []
    ensures ParseTx(EncMarked(tx) + r) == Done(tx, r)
  {
    var t1 := EncVarint(|tx.txIn|) + (EncTail(tx) + r);
    var t := [0, tx.flag] + t1;
    MarkedLayout(tx, r);
    I32Read(tx.version, t);
    VarintRoundTrip(|tx.txIn|, EncTail(tx) + r);
    assert t[1..][..1] == [tx.flag] && t[1..][1..] == t1;
    TailRoundTrip(tx, EncMarked(tx) + r, r);
  }

  lemma MarkedLayout(tx: TxMessage, r: seq<byte>)
    ensures EncMarked(tx) + r == EncI32(tx.version) + ([0, tx.flag] + (EncVarint(|tx.txIn|) + (EncTail(tx) + r)))
  {
    var a, m, b, c := EncI32(tx.version), [0, tx.flag], EncVarint(|tx.txIn|), EncMany(EncTxIn, tx.txIn);
    var d, e, f := EncVarint(|tx.txOut|), EncMany(EncTxOut, tx.txOut), EncWitness(tx.txWitness);
    var g := EncU32(tx.lockTime);
    Assoc(a + m + (b + c) + (d + e), f, g);
    Regroup(a + m, b, c, d, e, f + g);
    Assoc(a + m, b + (c + (d + (e + (f + g)))), r);
    Assoc(a, m, b + (c + (d + (e + (f + g)))) + r);
    Assoc(b, c + (d + (e + (f + g))), r);
  }

  /** No legacy encoding is a prefix of another, and equal ones carry equal transactions. */
  lemma LegacyPrefixFree(a: TxMessage, r: seq<byte>, b: TxMessage, t: seq<byte>)
    requires Sized(a) && Sized(b) && a.txIn != [] && b.txIn != []
    requires EncLegacy(a) + r == EncLegacy(b) + t
    ensures Stripped(a) == Stripped(b) && r == t
  {
    LegacyRoundTrip(a, r);
    LegacyRoundTrip(b, t);
  }

  /** No byte string starts with a legacy encoding and with a marked one. */
  lemma FormsDisjoint(a: TxMessage, r: seq<byte>, b: TxMessage, t: seq<byte>)
    requires a.txIn != []
    ensures EncLegacy(a) + r != EncMarked(b) + t
  {
    VarintHead(|a.txIn|);
    assert (EncLegacy(a) + r)[4] == EncVarint(|a.txIn|)[0];
    assert (EncMarked(b) + t)[4] == 0;
  }

  /** A transaction as a marker and a flag announce it, with witnesses for flag 1 only. */
  function Flagged(tx: TxMessage, flag: byte, stacks: seq<TxMessageWitness>): TxMessage {
    tx.(flag := flag, txWitness := if flag == 1 then Some(stacks) else None)
  }

  /** Behind a zero marker every flag is accepted, not just the 1 that BIP 144 defines: with
      one witness stack per input for flag 1, with none for any other. */
  lemma EveryFlagAccepted(tx: TxMessage, flag: byte, stacks: seq<TxMessageWitness>, r: seq<byte>)
    requires Sized(tx) && tx.txIn != [] && |stacks| == |tx.txIn| && forall w :: w in stacks ==> SizedStack(w)
    ensures ParseTx(EncMarked(Flagged(tx, flag, stacks)) + r) == Done(Flagged(tx, flag, stacks), r)
  {
    MarkedRoundTrip(Flagged(tx, flag, stacks), r);
  }

  /** Unmarked bytes give a legacy transaction and marked ones a transaction with witnesses. */
  predicate Standard(s: seq<byte>, tx: TxMessage)
    requires |s| > 5
  {
    if s[4] == 0 then tx.txWitness.Some? else tx == Stripped(tx)
  }

  /** What is read is as the standard would have it exactly if there is no zero marker, or
      flag 1 behind it. */
  lemma StandardExact(s: seq<byte>)
    requires ParseTx(s).Done?
    ensures var tx := ParseTx(s).value;
      && |s| > 5 && (s[4] == 0 ==> tx.flag == s[5]) && (tx.txWitness.Some? <==> s[4] == 0 && s[5] == 1)
      && (Standard(s, tx) <==> s[4] != 0 || s[5] == 1)
  {
    ParseTxExact(s);
    MarkerRead(s);
  }

  lemma MarkerRead(s: seq<byte>)
    requires ParseTx(s).Done?
    ensures |s| > 5 && (s[4] == 0 ==> ParseTx(s).value.flag == s[5])
  {
    HeadOfTx(s);
    HeadRead(s[4..]);
  }

  lemma HeadOfTx(s: seq<byte>)
    requires ParseTx(s).Done?
    ensures |s| >= 4 && var h := ParseHead(s[4..]);
      h.Done? && h.value.0 == ParseTx(s).value.flag && ParseMany(ParseTxIn, h.value.1, h.rest).Done? && h.value.1 > 0
  {
  }

  lemma HeadRead(t: seq<byte>)
    requires var h := ParseHead(t); h.Done? && h.value.1 > 0 && ParseMany(ParseTxIn, h.value.1, h.rest).Done?
    ensures |t| > 1 && (t[0] == 0 ==> ParseHead(t).value.0 == t[1])
  {
    assert ParseTxIn([]).Fail?;
    if t[0] == 0 { assert t[1..][..1] == [t[1]]; }
  }

  /** One transaction can be read from a legacy and from a marked form exactly if its flag is
      zero; the two forms then differ all the same. */
  lemma FormsAgree(tx: TxMessage, r: seq<byte>)
    requires Sized(tx) && WellMarked(tx) && tx.txIn != []
    ensures ParseTx(EncLegacy(tx) + r) == ParseTx(EncMarked(tx) + r) <==> tx.flag == 0
    ensures EncMarked(tx) != EncLegacy(tx)
  {
    MarkedRoundTrip(tx, r);
    LegacyRoundTrip(tx, r);
    FormsDisjoint(tx, [], tx, []);
    assert EncMarked(tx) + [] == EncMarked(tx) && EncLegacy(tx) + [] == EncLegacy(tx);
  }

  /** As for a transaction without witnesses, whose marked form with flag zero BIP 144 would
      refuse. */
  lemma FlagZeroAccepted(tx: TxMessage, r: seq<byte>)
    requires Sized(tx) && tx.txIn != [] && tx.flag == 0 && tx.txWitness.None?
    ensures ParseTx(EncMarked(tx) + r) == ParseTx(EncLegacy(tx) + r) == Done(tx, r)
    ensures EncMarked(tx) != EncLegacy(tx)
  {
    FormsAgree(tx, r);
    LegacyRoundTrip(tx, r);
  }

  // ---------------------------------------------------------------- exactness

  lemma BytesMinimal(s: seq<byte>)
    ensures var p := ParseBytes(s); p.Done? ==> |p.value| < TWO_64 && Minimal(s, p, EncBytes(p.value))
  {
    var n := ParseVarint(s);
    if n.Done? && ParseBytes(s).Done? {
      VarintMinimal(s);
      TakeExact(n.rest, n.value);
      var b := Take(n.rest, n.value);
      MinimalStep(s, n, EncVarint(n.value), b, b.value);
    }
  }

  lemma OutpointExact(s: seq<byte>)
    ensures var p := ParseOutpoint(s); p.Done? ==> s == EncOutpoint(p.value) + p.rest
  {
    if ParseOutpoint(s).Done? {
      var h := ParseHash(s);
      var i := ParseU32(h.rest);
      IntExact(s);
      IntExact(h.rest);
      Assoc(h.value, EncU32(i.value), i.rest);
    }
  }

  lemma TxInMinimal(s: seq<byte>)
    ensures var p := ParseTxIn(s); p.Done? ==> |p.value.scriptSig| < TWO_64 && Minimal(s, p, EncTxIn(p.value))
  {
    if ParseTxIn(s).Done? {
      var o := ParseOutpoint(s);
      var b := ParseBytes(o.rest);
      var q := ParseU32(b.rest);
      OutpointExact(s);
      IntExact(b.rest);
      BytesMinimal(o.rest);
      MinimalStep(s, o, EncOutpoint(o.value), b, EncBytes(b.value));
      MinimalStep(s, b, EncOutpoint(o.value) + EncBytes(b.value), q, EncU32(q.value));
    }
  }

  lemma TxOutMinimal(s: seq<byte>)
    ensures var p := ParseTxOut(s); p.Done? ==> |p.value.pkScript| < TWO_64 && Minimal(s, p, EncTxOut(p.value))
  {
    if ParseTxOut(s).Done? {
      var v := ParseI64(s);
      IntExact(s);
      BytesMinimal(v.rest);
      var b := ParseBytes(v.rest);
      MinimalStep(s, v, EncI64(v.value), b, EncBytes(b.value));
    }
  }

  lemma ItemMinimal(s: seq<byte>)
    ensures var p := ParseItem(s); p.Done? ==> |p.value.witnessData| < TWO_64 && Minimal(s, p, EncItem(p.value))
  {
    BytesMinimal(s);
  }

  lemma StackMinimal(s: seq<byte>)
    ensures var p := ParseStack(s); p.Done? ==> SizedStack(p.value) && Minimal(s, p, EncStack(p.value))
  {
    if ParseStack(s).Done? {
      var n := ParseVarint(s);
      var m := ParseMany(ParseItem, n.value, n.rest);
      VarintMinimal(s);
      forall t
        ensures ParseItem(t).Done? ==>
          |ParseItem(t).value.witnessData| < TWO_64 && Minimal(t, ParseItem(t), EncItem(ParseItem(t).value))
      {
        ItemMinimal(t);
      }
      ManyMinimal(ParseItem, EncItem, n.value, n.rest);
      ManyAll(ParseItem, (d: TxWitness) => |d.witnessData| < TWO_64, n.value, n.rest);
      MinimalStep(s, n, EncVarint(n.value), m, EncMany(EncItem, m.value));
    }
  }

  lemma InputsMinimal(count: nat, s: seq<byte>)
    ensures var p := ParseMany(ParseTxIn, count, s); p.Done? ==>
      Minimal(s, p, EncMany(EncTxIn, p.value)) && forall i :: i in p.value ==> |i.scriptSig| < TWO_64
  {
    forall t
      ensures ParseTxIn(t).Done? ==>
        |ParseTxIn(t).value.scriptSig| < TWO_64 && Minimal(t, ParseTxIn(t), EncTxIn(ParseTxIn(t).value))
    {
      TxInMinimal(t);
    }
    ManyMinimal(ParseTxIn, EncTxIn, count, s);
    ManyAll(ParseTxIn, (i: TxIn) => |i.scriptSig| < TWO_64, count, s);
  }

  lemma OutputsMinimal(count: nat, s: seq<byte>)
    ensures var p := ParseMany(ParseTxOut, count, s); p.Done? ==>
      Minimal(s, p, EncMany(EncTxOut, p.value)) && forall o :: o in p.value ==> |o.pkScript| < TWO_64
  {
    forall t
      ensures ParseTxOut(t).Done? ==>
        |ParseTxOut(t).value.pkScript| < TWO_64 && Minimal(t, ParseTxOut(t), EncTxOut(ParseTxOut(t).value))
    {
      TxOutMinimal(t);
    }
    ManyMinimal(ParseTxOut, EncTxOut, count, s);
    ManyAll(ParseTxOut, (o: TxOut) => |o.pkScript| < TWO_64, count, s);
  }

  lemma WitnessMinimal(present: bool, count: nat, s: seq<byte>)
    ensures var p := ParseWitness(present, count, s); p.Done? ==>
      && Minimal(s, p, EncWitness(p.value))
      && (p.value.Some? <==> present)
      && (present ==> |p.value.value| == count && forall w :: w in p.value.value ==> SizedStack(w))
  {
    if present {
      forall t
        ensures ParseStack(t).Done? ==>
          SizedStack(ParseStack(t).value) && Minimal(t, ParseStack(t), EncStack(ParseStack(t).value))
      {
        StackMinimal(t);
      }
      ManyMinimal(ParseStack, EncStack, count, s);
      ManyAll(ParseStack, (w: TxMessageWitness) => SizedStack(w), count, s);
    } else {
      assert s == [] + s;
    }
  }

  /** Version, marker, flag and input count, as they were read. */
  function EncHead(marked: bool, flag: byte, count: nat): seq<byte> {
    if marked then [0, flag] + EncVarint(count) else EncVarint(count)
  }

  lemma HeadMinimal(s: seq<byte>)
    ensures var p := ParseHead(s); p.Done? ==>
      && p.value.1 < TWO_64
      && (s[0] != 0 ==> p.value.0 == 0)
      && Minimal(s, p, EncHead(s[0] == 0, p.value.0, p.value.1))
  {
    var p := ParseHead(s);
    if p.Done? {
      VarintMinimal(s);
      if s[0] == 0 {
        var t := s[1..][1..];
        VarintMinimal(t);
        assert s == [0, p.value.0] + t;
        MinimalStep(s, Done([0, p.value.0], t), [0, p.value.0], p, EncVarint(p.value.1));
      }
    }
  }

  /** Every parse yields a transaction with inputs whose witnesses, if any, are one stack per
      input; it read at least as many bytes as the form it recognised writes, and exactly
      that form when and only when it read as many. */
  lemma ParseTxExact(s: seq<byte>)
    requires ParseTx(s).Done?
    ensures var p := ParseTx(s);
      && p.value.txIn != [] && Sized(p.value) && WellMarked(p.value)
      && (s[4] != 0 ==> p.value.flag == 0 && p.value.txWitness.None?)
      && Minimal(s, p, if s[4] != 0 then EncLegacy(p.value) else EncMarked(p.value))
  {
    ParseTxWellFormed(s);
    ParseTxMinimal(s);
    HeadLayout(ParseTx(s).value, s[4] == 0);
  }

  lemma ParseTxWellFormed(s: seq<byte>)
    requires ParseTx(s).Done?
    ensures var tx := ParseTx(s).value;
      && tx.txIn != [] && Sized(tx) && WellMarked(tx)
      && (s[4] != 0 ==> tx.flag == 0 && tx.txWitness.None?)
  {
    var v := ParseI32(s);
    var h := ParseHead(v.rest);
    var ins := ParseMany(ParseTxIn, h.value.1, h.rest);
    var n := ParseVarint(ins.rest);
    var outs := ParseMany(ParseTxOut, n.value, n.rest);
    HeadMinimal(v.rest);
    InputsMinimal(h.value.1, h.rest);
    VarintMinimal(ins.rest);
    OutputsMinimal(n.value, n.rest);
    WitnessMinimal(h.value.0 == 1, h.value.1, outs.rest);
  }

  lemma ParseTxMinimal(s: seq<byte>)
    requires ParseTx(s).Done?
    ensures var p := ParseTx(s);
      Minimal(s, p, EncFront(s[4] == 0, p.value) + EncBack(p.value))
  {
    var p := ParseTx(s);
    var h := ParseHead(ParseI32(s).rest);
    var ins := ParseMany(ParseTxIn, h.value.1, h.rest);
    FrontMinimal(s, ParseI32(s), h, ins);
    var n := ParseVarint(ins.rest);
    var outs := ParseMany(ParseTxOut, n.value, n.rest);
    var w := ParseWitness(h.value.0 == 1, h.value.1, outs.rest);
    BackMinimal(ins.rest, n, outs, h.value.0 == 1, h.value.1, w, ParseU32(w.rest));
    MinimalStep(s, ins, EncFront(s[4] == 0, p.value), p, EncBack(p.value));
  }

  function EncFront(marked: bool, tx: TxMessage): seq<byte> {
    EncI32(tx.version) + EncHead(marked, tx.flag, |tx.txIn|) + EncMany(EncTxIn, tx.txIn)
  }

  function EncBack(tx: TxMessage): seq<byte> {
    EncOutputs(tx.txOut) + EncWitness(tx.txWitness) + EncU32(tx.lockTime)
  }

  lemma FrontMinimal(s: seq<byte>, v: Parsed<i32>, h: Parsed<(byte, nat)>, ins: Parsed<seq<TxIn>>)
    requires v == ParseI32(s) && v.Done?
    requires h == ParseHead(v.rest) && h.Done?
    requires ins == ParseMany(ParseTxIn, h.value.1, h.rest) && ins.Done?
    ensures Minimal(s, ins, EncI32(v.value) + EncHead(s[4] == 0, h.value.0, h.value.1) + EncMany(EncTxIn, ins.value))
  {
    IntExact(s);
    HeadMinimal(v.rest);
    InputsMinimal(h.value.1, h.rest);
    MinimalStep(s, v, EncI32(v.value), h, EncHead(s[4] == 0, h.value.0, h.value.1));
    MinimalStep(s, h, EncI32(v.value) + EncHead(s[4] == 0, h.value.0, h.value.1), ins, EncMany(EncTxIn, ins.value));
  }

  lemma BackMinimal(s: seq<byte>, n: Parsed<nat>, outs: Parsed<seq<TxOut>>, present: bool, count: nat,
                    w: Parsed<Option<seq<TxMessageWitness>>>, lock: Parsed<u32>)
    requires n == ParseVarint(s) && n.Done?
    requires outs == ParseMany(ParseTxOut, n.value, n.rest) && outs.Done?
    requires w == ParseWitness(present, count, outs.rest) && w.Done?
    requires lock == ParseU32(w.rest) && lock.Done?
    ensures Minimal(s, lock, EncOutputs(outs.value) + EncWitness(w.value) + EncU32(lock.value))
  {
    VarintMinimal(s);
    OutputsMinimal(n.value, n.rest);
    MinimalStep(s, n, EncVarint(n.value), outs, EncMany(EncTxOut, outs.value));
    WitnessMinimal(present, count, outs.rest);
    MinimalStep(s, outs, EncOutputs(outs.value), w, EncWitness(w.value));
    IntExact(w.rest);
    MinimalStep(s, w, EncOutputs(outs.value) + EncWitness(w.value), lock, EncU32(lock.value));
  }

  lemma HeadLayout(tx: TxMessage, marked: bool)
    requires !marked ==> tx.txWitness.None?
    ensures EncFront(marked, tx) + EncBack(tx) == if marked then EncMarked(tx) else EncLegacy(tx)
  {
    var a, m, b, c := EncI32(tx.version), [0, tx.flag], EncVarint(|tx.txIn|), EncMany(EncTxIn, tx.txIn);
    var o, w, f := EncOutputs(tx.txOut), EncWitness(tx.txWitness), EncU32(tx.lockTime);
    Assoc(EncFront(marked, tx), o + w, f);
    Assoc(EncFront(marked, tx), o, w);
    if marked {
      Assoc(a, m, b);
      Assoc(a + m, b, c);
    } else {
      Assoc(a, b, c);
      assert o + [] == o;
    }
  }
}
