/** The legacy signature hash: clone, edit in place, serialize, hash. */
module SigHash {
  import opened Bytes
  import opened Streams
  import opened Varint
  import opened Transaction
  import opened TransactionIo

  /** The arguments of one `signature_hash` call. */
  datatype Call = Call(tx: TxMessage, index: nat, code: seq<byte>, hashType: u32) {

    /** `hash_type & 31` */
    function SighashType(): nat { hashType % 32 }

    predicate SignsNone() { SighashType() == 2 }
    predicate SignsSingle() { SighashType() == 3 }
    predicate SignsAll() { !SignsNone() && !SignsSingle() }

    /** `hash_type & 0x80 != 0` */
    predicate AnyoneCanPay() { hashType / 128 % 2 == 1 }

    /** The index names no input, or under SINGLE no output: the constant hash is returned. */
    predicate Degenerate() {
      index >= |tx.txIn| || (SignsSingle() && index >= |tx.txOut|)
    }

    /** The input being signed. */
    function Input(): TxIn
      requires index < |tx.txIn|
    {
      tx.txIn[index]
    }

    ghost predicate Sized() { Transaction.Sized(tx) && |code| < TWO_64 }
  }

  const BLANK: TxOut := TxOut(-1, [])

  // ---------------------------------------------------------------- one-pass serializer

  function StreamInput(c: Call, k: nat): seq<byte>
    requires k < |c.tx.txIn|
  {
    var input := c.tx.txIn[k];
    EncOutpoint(input.prevTxid)
    + EncBytes(if k == c.index then c.code else [])
    + EncU32(if k == c.index || c.SignsAll() then input.sequence else 0)
  }

  function StreamInputs(c: Call, from: nat): seq<byte>
    requires from <= |c.tx.txIn|
    decreases |c.tx.txIn| - from
  {
    if from == |c.tx.txIn| then [] else StreamInput(c, from) + StreamInputs(c, from + 1)
  }

  function OutputCount(c: Call): nat {
    if c.SignsNone() then 0 else if c.SignsSingle() then c.index + 1 else |c.tx.txOut|
  }

  function StreamOutputs(c: Call, from: nat): seq<byte>
    requires !c.Degenerate() && from <= OutputCount(c)
    decreases OutputCount(c) - from
  {
    if from == OutputCount(c) then [] else StreamOutput(c, from) + StreamOutputs(c, from + 1)
  }

  /** Under SINGLE the outputs before the input's own are blanked. */
  function StreamOutput(c: Call, k: nat): seq<byte>
    requires !c.Degenerate() && k < OutputCount(c)
  {
    if c.SignsSingle() && k != c.index then EncTxOut(BLANK) else EncTxOut(c.tx.txOut[k])
  }

  /** The bytes that are hashed, written straight from the original transaction. */
  function Preimage(c: Call): seq<byte>
    requires !c.Degenerate()
  {
    EncI32(c.tx.version)
    + (if c.AnyoneCanPay() then EncVarint(1) + StreamInput(c, c.index) else EncVarint(|c.tx.txIn|) + StreamInputs(c, 0))
    + (EncVarint(OutputCount(c)) + StreamOutputs(c, 0))
    + EncU32(c.tx.lockTime)
    + EncU32(c.hashType)
  }

  function DoubleSha256(sha256: seq<byte> -> Hash32, data: seq<byte>): Hash32 {
    sha256(sha256(data))
  }

  /** A one in the first byte, the rest zero. */
  function OneHash(): Hash32 { [1] + seq(31, _ => 0) }

  /** What `signature_hash` returns. */
  function SignatureHash(sha256: seq<byte> -> Hash32, c: Call): Hash32 {
    if c.Degenerate() then OneHash() else DoubleSha256(sha256, Preimage(c))
  }

  // ---------------------------------------------------------------- the edited copy

  function EditedInput(c: Call, k: nat): TxIn
    requires k < |c.tx.txIn|
  {
    var input := c.tx.txIn[k];
    TxIn(input.prevTxid, if k == c.index then c.code else [], if k == c.index || c.SignsAll() then input.sequence
      else 0)
  }

  function EditedInputs(c: Call): (ins: seq<TxIn>)
    ensures |ins| == |c.tx.txIn|
  {
    seq(|c.tx.txIn|, k requires 0 <= k < |c.tx.txIn| => EditedInput(c, k))
  }

  function EditedOutputs(c: Call): (outs: seq<TxOut>)
    requires !c.Degenerate()
    ensures |outs| == OutputCount(c)
  {
    seq(OutputCount(c), k requires 0 <= k < OutputCount(c) =>
      if c.SignsSingle() && k != c.index then BLANK else c.tx.txOut[k])
  }

  function Edited(c: Call): TxMessage
    requires !c.Degenerate()
  {
    c.tx.(txIn := if c.AnyoneCanPay() then [EditedInputs(c)[c.index]] else EditedInputs(c), txOut := EditedOutputs(c))
  }

  lemma EditedSized(c: Call)
    requires !c.Degenerate() && c.Sized()
    ensures Sized(Edited(c))
  {
  }

  lemma {:induction false} StreamsInputs(c: Call, from: nat)
    requires from <= |c.tx.txIn|
    ensures StreamInputs(c, from) == EncMany(EncTxIn, EditedInputs(c)[from..])
    decreases |c.tx.txIn| - from
  {
    if from < |c.tx.txIn| {
      StreamsInputs(c, from + 1);
      ManyFrom(EncTxIn, EditedInputs(c), from);
    }
  }

  lemma StreamsOutput(c: Call, k: nat)
    requires !c.Degenerate() && k < OutputCount(c)
    ensures StreamOutput(c, k) == EncTxOut(EditedOutputs(c)[k])
  {
  }

  lemma {:induction false} StreamsOutputs(c: Call, from: nat)
    requires !c.Degenerate() && from <= OutputCount(c)
    ensures StreamOutputs(c, from) == EncMany(EncTxOut, EditedOutputs(c)[from..])
    decreases OutputCount(c) - from
  {
    if from < OutputCount(c) {
      StreamsOutputs(c, from + 1);
      StreamsOutput(c, from);
      ManyFrom(EncTxOut, EditedOutputs(c), from);
    }
  }

  /** Serializing the edited copy writes byte for byte what the one-pass serializer writes. */
  lemma EditedRefinesStream(c: Call)
    requires !c.Degenerate()
    ensures EncLegacy(Edited(c)) + EncU32(c.hashType) == Preimage(c)
  {
    InputsPart(c);
    OutputsPart(c);
  }

  lemma InputsPart(c: Call)
    requires !c.Degenerate()
    ensures EncInputs(Edited(c).txIn) ==
      if c.AnyoneCanPay() then EncVarint(1) + StreamInput(c, c.index) else EncVarint(|c.tx.txIn|) + StreamInputs(c, 0)
  {
    StreamsInputs(c, 0);
    assert EditedInputs(c)[0..] == EditedInputs(c);
    var one := [EditedInputs(c)[c.index]];
    assert EncMany(EncTxIn, one) == EncTxIn(one[0]) + [] == StreamInput(c, c.index);
  }

  lemma OutputsPart(c: Call)
    requires !c.Degenerate()
    ensures EncOutputs(EditedOutputs(c)) == EncVarint(OutputCount(c)) + StreamOutputs(c, 0)
  {
    StreamsOutputs(c, 0);
    assert EditedOutputs(c)[0..] == EditedOutputs(c);
  }

  // ---------------------------------------------------------------- what is committed

  /** Two calls with the same hash type agree on script code, on which outpoints and
      sequences that hash type commits to, and on the input's position so far as it shows. */
  ghost predicate SameInputs(a: Call, b: Call)
    requires !a.Degenerate() && !b.Degenerate()
  {
    && a.code == b.code
    && (if a.AnyoneCanPay() then
          a.Input().prevTxid == b.Input().prevTxid && a.Input().sequence == b.Input().sequence
        else
          && |a.tx.txIn| == |b.tx.txIn|
          && (forall k :: 0 <= k < |a.tx.txIn| ==> a.tx.txIn[k].prevTxid == b.tx.txIn[k].prevTxid)
          && (if a.SignsAll() then
                && (forall k :: 0 <= k < |a.tx.txIn| ==> a.tx.txIn[k].sequence == b.tx.txIn[k].sequence)
                && (a.index == b.index || a.code == [])
              else
                || (a.index == b.index && a.Input().sequence == b.Input().sequence)
                || (a.code == [] && a.Input().sequence == 0 && b.Input().sequence == 0)))
  }

  /** All outputs, none of them, or only the one at the input's position. */
  ghost predicate SameOutputs(a: Call, b: Call)
    requires !a.Degenerate() && !b.Degenerate()
  {
    && (a.SignsAll() ==> a.tx.txOut == b.tx.txOut)
    && (a.SignsSingle() && b.SignsSingle() ==> a.index == b.index && a.tx.txOut[a.index] == b.tx.txOut[b.index])
  }

  ghost predicate SameCommitment(a: Call, b: Call)
    requires !a.Degenerate() && !b.Degenerate()
  {
    && a.tx.version == b.tx.version && a.tx.lockTime == b.tx.lockTime
    && SameInputs(a, b)
    && SameOutputs(a, b)
  }

  /** Two calls hash the same bytes exactly when they agree on the hash type and on what it
      commits to. */
  lemma CommitmentExact(a: Call, b: Call)
    requires !a.Degenerate() && !b.Degenerate() && a.Sized() && b.Sized()
    ensures Preimage(a) == Preimage(b) <==> a.hashType == b.hashType && SameCommitment(a, b)
  {
    EditedRefinesStream(a);
    EditedRefinesStream(b);
    EditedSized(a);
    EditedSized(b);
    if Preimage(a) == Preimage(b) {
      LegacyPrefixFree(Edited(a), EncU32(a.hashType), Edited(b), EncU32(b.hashType));
      HashTypeRead(a.hashType, b.hashType);
      SameEdits(a, b);
    }
    if a.hashType == b.hashType && SameCommitment(a, b) {
      SameEdits(a, b);
      LegacyIgnoresWitness(Edited(a));
      LegacyIgnoresWitness(Edited(b));
    }
  }

  lemma HashTypeRead(a: u32, b: u32)
    requires EncU32(a) == EncU32(b)
    ensures a == b
  {
    U32Read(a, []);
    U32Read(b, []);
  }

  lemma LegacyIgnoresWitness(tx: TxMessage)
    ensures EncLegacy(tx) == EncLegacy(Stripped(tx))
  {
  }

  lemma SameEdits(a: Call, b: Call)
    requires !a.Degenerate() && !b.Degenerate() && a.hashType == b.hashType
    ensures Stripped(Edited(a)) == Stripped(Edited(b)) <==> SameCommitment(a, b)
  {
    SameInputEdits(a, b);
    SameOutputEdits(a, b);
  }

  lemma SameInputEdits(a: Call, b: Call)
    requires !a.Degenerate() && !b.Degenerate() && a.hashType == b.hashType
    ensures Edited(a).txIn == Edited(b).txIn <==> SameInputs(a, b)
  {
    var ea, eb := EditedInputs(a), EditedInputs(b);
    if a.AnyoneCanPay() {
      assert [ea[a.index]] == [eb[b.index]] <==> ea[a.index] == eb[b.index];
    } else {
      if ea == eb {
        assert ea[a.index] == eb[a.index] && ea[b.index] == eb[b.index];
        forall k | 0 <= k < |a.tx.txIn|
          ensures a.tx.txIn[k].prevTxid == b.tx.txIn[k].prevTxid
          ensures a.SignsAll() ==> a.tx.txIn[k].sequence == b.tx.txIn[k].sequence
        {
          assert ea[k] == eb[k];
        }
      }
      if SameInputs(a, b) {
        forall k | 0 <= k < |ea| ensures ea[k] == eb[k] {
        }
      }
    }
  }

  lemma SameOutputEdits(a: Call, b: Call)
    requires !a.Degenerate() && !b.Degenerate() && a.hashType == b.hashType
    ensures EditedOutputs(a) == EditedOutputs(b) <==> SameOutputs(a, b)
  {
    var ea, eb := EditedOutputs(a), EditedOutputs(b);
    if a.SignsAll() {
      assert ea == a.tx.txOut && eb == b.tx.txOut;
    } else if a.SignsSingle() {
      assert |ea| == a.index + 1 && ea[a.index] == a.tx.txOut[a.index];
      assert |eb| == b.index + 1 && eb[b.index] == b.tx.txOut[b.index];
    }
  }

  // ---------------------------------------------------------------- in numbers

  /** The commitment with the hash type taken apart: its value modulo 32 is 2 for NONE, 3 for
      SINGLE and anything else for ALL, and its bit 0x80 is ANYONECANPAY. */
  lemma CommitmentByNumbers(a: Call, b: Call)
    requires a.Sized() && b.Sized() && a.index < |a.tx.txIn| && b.index < |b.tx.txIn|
    requires a.hashType % 32 == 3 ==> a.index < |a.tx.txOut|
    requires b.hashType % 32 == 3 ==> b.index < |b.tx.txOut|
    ensures Preimage(a) == Preimage(b) <==>
      && a.hashType == b.hashType && a.code == b.code
      && a.tx.version == b.tx.version && a.tx.lockTime == b.tx.lockTime
      && (if a.hashType / 128 % 2 == 1 then
            && a.tx.txIn[a.index].prevTxid == b.tx.txIn[b.index].prevTxid
            && a.tx.txIn[a.index].sequence == b.tx.txIn[b.index].sequence
          else
            && |a.tx.txIn| == |b.tx.txIn|
            && (forall k :: 0 <= k < |a.tx.txIn| ==> a.tx.txIn[k].prevTxid == b.tx.txIn[k].prevTxid)
            && (if a.hashType % 32 != 2 && a.hashType % 32 != 3 then
                  && (forall k :: 0 <= k < |a.tx.txIn| ==> a.tx.txIn[k].sequence == b.tx.txIn[k].sequence)
                  && (a.index == b.index || a.code == [])
                else
                  || (a.index == b.index && a.tx.txIn[a.index].sequence == b.tx.txIn[b.index].sequence)
                  || (a.code == [] && a.tx.txIn[a.index].sequence == 0 && b.tx.txIn[b.index].sequence == 0)))
      && (a.hashType % 32 == 3 ==> a.index == b.index && a.tx.txOut[a.index] == b.tx.txOut[b.index])
      && (a.hashType % 32 != 2 && a.hashType % 32 != 3 ==> a.tx.txOut == b.tx.txOut)
  {
    CommitmentExact(a, b);
  }

  /** A signature of type NONE stands whatever the outputs are. */
  lemma NoneLeavesOutputs(c: Call, outs: seq<TxOut>)
    requires c.index < |c.tx.txIn| && c.hashType % 32 == 2
    ensures Preimage(c) == Preimage(c.(tx := c.tx.(txOut := outs)))
  {
    var d := c.(tx := c.tx.(txOut := outs));
    EditedRefinesStream(c);
    EditedRefinesStream(d);
    assert Edited(c).txIn == Edited(d).txIn;
    LegacyIgnoresWitness(Edited(c));
    LegacyIgnoresWitness(Edited(d));
    assert Stripped(Edited(c)) == Stripped(Edited(d));
  }

  /** The transaction that is serialized and hashed twice, field by field. */
  lemma SignedByNumbers(sha256: seq<byte> -> Hash32, c: Call)
    requires c.index < |c.tx.txIn| && (c.hashType % 32 == 3 ==> c.index < |c.tx.txOut|)
    ensures var t := Edited(c); var ins, outs := c.tx.txIn, c.tx.txOut;
      && SignatureHash(sha256, c) == sha256(sha256(EncLegacy(t) + LE(c.hashType, 4)))
      && t.version == c.tx.version && t.lockTime == c.tx.lockTime
      && (if c.hashType / 128 % 2 == 1 then
            t.txIn == [TxIn(ins[c.index].prevTxid, c.code, ins[c.index].sequence)]
          else
            && |t.txIn| == |ins|
            && forall k :: 0 <= k < |ins| ==>
                 && t.txIn[k].prevTxid == ins[k].prevTxid
                 && t.txIn[k].scriptSig == (if k == c.index then c.code else [])
                 && t.txIn[k].sequence ==
                    if k != c.index && (c.hashType % 32 == 2 || c.hashType % 32 == 3) then 0 else ins[k].sequence)
      && (if c.hashType % 32 == 2 then t.txOut == []
          else if c.hashType % 32 == 3 then
            && |t.txOut| == c.index + 1 && t.txOut[c.index] == outs[c.index]
            && forall k :: 0 <= k < c.index ==> t.txOut[k] == TxOut(-1, [])
          else t.txOut == outs)
  {
    EditedRefinesStream(c);
    if c.hashType % 32 != 2 && c.hashType % 32 != 3 { assert EditedOutputs(c) == c.tx.txOut; }
  }

  /** An index without an input, or under SINGLE without an output, signs the number one. */
  lemma ConstantByNumbers(sha256: seq<byte> -> Hash32, c: Call)
    requires c.index >= |c.tx.txIn| || (c.hashType % 32 == 3 && c.index >= |c.tx.txOut|)
    ensures var hash := SignatureHash(sha256, c);
      hash[0] == 1 && forall i :: 1 <= i < 32 ==> hash[i] == 0
  {
  }

  // ---------------------------------------------------------------- clone and edit

  method CalculateSignatureHash(sha256: seq<byte> -> Hash32, tx: TxMessage, inputIndex: nat, scriptCode: seq<byte>,
      hashType: u32)
    returns (hash: Hash32)
    requires Sized(tx) && |scriptCode| < TWO_64
    ensures hash == SignatureHash(sha256, Call(tx, inputIndex, scriptCode, hashType))
  {
    if inputIndex >= |tx.txIn| {
      return OneHash();
    }
    ghost var c := Call(tx, inputIndex, scriptCode, hashType);
    var txCopy := tx;

    // 1. and 2. clear all input scripts, set that of the input being signed
    var txIn := ClearScripts(txCopy.txIn);
    txIn := txIn[inputIndex := txIn[inputIndex].(scriptSig := scriptCode)];
    txCopy := txCopy.(txIn := txIn);

    var sighashType := hashType % 32;
    var anyoneCanPay := hashType / 128 % 2 != 0;

    // 3. NONE, SINGLE
    if sighashType == 2 {
      txIn := ZeroOtherSequences(txCopy.txIn, inputIndex);
      txCopy := txCopy.(txIn := txIn, txOut := []);
    } else if sighashType == 3 {
      if inputIndex >= |txCopy.txOut| {
        return OneHash();
      }
      var txOut := BlankOutputs(txCopy.txOut[..inputIndex + 1], inputIndex);
      txIn := ZeroOtherSequences(txCopy.txIn, inputIndex);
      txCopy := txCopy.(txIn := txIn, txOut := txOut);
    }
    assert txCopy.txIn == EditedInputs(c);
    assert txCopy.txOut == EditedOutputs(c);

    // 4. ANYONECANPAY
    if anyoneCanPay {
      var currentInput := txCopy.txIn[inputIndex];
      txCopy := txCopy.(txIn := [currentInput]);
    }
    hash := HashCopy(sha256, c, txCopy, hashType);
  }

  /** 5. serialize and hash */
  method HashCopy(sha256: seq<byte> -> Hash32, ghost c: Call, txCopy: TxMessage, hashType: u32) returns (hash: Hash32)
    requires !c.Degenerate() && c.Sized() && txCopy == Edited(c) && hashType == c.hashType
    ensures hash == SignatureHash(sha256, c)
  {
    var buf := new Writer();
    EditedSized(c);
    EncodeLegacy(txCopy, buf);
    buf.Write(EncU32(hashType));
    EditedRefinesStream(c);
    FromNothing(EncLegacy(txCopy));
    hash := DoubleSha256(sha256, buf.bytes);
  }

  lemma FromNothing(s: seq<byte>)
    ensures [] + s == s
  {
  }

  method ClearScripts(ins: seq<TxIn>) returns (txIn: seq<TxIn>)
    ensures |txIn| == |ins|
    ensures forall k :: 0 <= k < |ins| ==> txIn[k] == ins[k].(scriptSig := [])
  {
    txIn := ins;
    for i := 0 to |txIn|
      invariant |txIn| == |ins|
      invariant forall k :: 0 <= k < |ins| ==> txIn[k] == if k < i then ins[k].(scriptSig := []) else ins[k]
    {
      txIn := txIn[i := txIn[i].(scriptSig := [])];
    }
  }

  method BlankOutputs(outs: seq<TxOut>, inputIndex: nat) returns (txOut: seq<TxOut>)
    requires inputIndex < |outs|
    ensures |txOut| == |outs|
    ensures forall k :: 0 <= k < |outs| ==> txOut[k] == if k < inputIndex then BLANK else outs[k]
  {
    txOut := outs;
    for i := 0 to inputIndex
      invariant |txOut| == |outs|
      invariant forall k :: 0 <= k < |outs| ==> txOut[k] == if k < i then BLANK else outs[k]
    {
      txOut := txOut[i := txOut[i].(value := -1)];
      txOut := txOut[i := txOut[i].(pkScript := [])];
    }
  }

  method ZeroOtherSequences(ins: seq<TxIn>, inputIndex: nat) returns (txIn: seq<TxIn>)
    ensures |txIn| == |ins|
    ensures forall k :: 0 <= k < |ins| ==> txIn[k] == if k == inputIndex then ins[k] else ins[k].(sequence := 0)
  {
    txIn := ins;
    for i := 0 to |txIn|
      invariant |txIn| == |ins|
      invariant forall k :: 0 <= k < |ins| ==> txIn[k] == if k < i && k != inputIndex then ins[k].(sequence := 0)
        else ins[k]
    {
      if i != inputIndex {
        txIn := txIn[i := txIn[i].(sequence := 0)];
      }
    }
  }
}
