/** The transaction readers and the legacy writer, proved against the parsers and wire
    forms of `Transaction`. */
module TransactionIo {
  import opened Bytes
  import opened Streams
  import opened Varint
  import opened Transaction

  method ReadBytes(reader: Reader) returns (r: Option<seq<byte>>)
    modifies reader
    ensures Agrees(ParseBytes(old(reader.rest)), r, reader.rest)
  {
    var n :- ReadVarint(reader);
    r := reader.ReadExact(n);
  }

  method ReadOutpoint(reader: Reader) returns (r: Option<Outpoint>)
    modifies reader
    ensures Agrees(ParseOutpoint(old(reader.rest)), r, reader.rest)
  {
    var hash :- reader.ReadHash();
    var index :- reader.ReadU32();
    r := Some(Outpoint(hash, index));
  }

  method ReadTxIn(reader: Reader) returns (r: Option<TxIn>)
    modifies reader
    ensures Agrees(ParseTxIn(old(reader.rest)), r, reader.rest)
  {
    var prev :- ReadOutpoint(reader);
    var script :- ReadBytes(reader);
    var sequence :- reader.ReadU32();
    r := Some(TxIn(prev, script, sequence));
  }

  method ReadTxOut(reader: Reader) returns (r: Option<TxOut>)
    modifies reader
    ensures Agrees(ParseTxOut(old(reader.rest)), r, reader.rest)
  {
    var value :- reader.ReadI64();
    var script :- ReadBytes(reader);
    r := Some(TxOut(value, script));
  }

  method ReadTxWitness(reader: Reader) returns (r: Option<TxWitness>)
    modifies reader
    ensures Agrees(ParseItem(old(reader.rest)), r, reader.rest)
  {
    var data :- ReadBytes(reader);
    r := Some(TxWitness(data));
  }

  method ReadItems(reader: Reader, count: nat) returns (r: Option<seq<TxWitness>>)
    modifies reader
    ensures Agrees(ParseMany(ParseItem, count, old(reader.rest)), r, reader.rest)
  {
    ghost var start := reader.rest;
    var items: seq<TxWitness> := [];
    for i := 0 to count
      invariant ParseMany(ParseItem, i, start) == Done(items, reader.rest)
    {
      var more := OneMoreItem(reader, items, i, start);
      if more.None? {
        ManyFails(ParseItem, i + 1, count, start);
        return None;
      }
      items := more.value;
    }
    r := Some(items);
  }

  method OneMoreItem(reader: Reader, items: seq<TxWitness>, ghost i: nat, ghost start: seq<byte>)
    returns (r: Option<seq<TxWitness>>)
    requires ParseMany(ParseItem, i, start) == Done(items, reader.rest)
    modifies reader
    ensures Agrees(ParseMany(ParseItem, i + 1, start), r, reader.rest)
  {
    ManyNext(ParseItem, i, start);
    var item :- ReadTxWitness(reader);
    r := Some(items + [item]);
  }

  method ReadTxMessageWitness(reader: Reader) returns (r: Option<TxMessageWitness>)
    modifies reader
    ensures Agrees(ParseStack(old(reader.rest)), r, reader.rest)
  {
    var count :- ReadVarint(reader);
    var items :- ReadItems(reader, count);
    r := Some(TxMessageWitness(items));
  }

  method ReadInputs(reader: Reader, count: nat) returns (r: Option<seq<TxIn>>)
    modifies reader
    ensures Agrees(ParseMany(ParseTxIn, count, old(reader.rest)), r, reader.rest)
  {
    ghost var start := reader.rest;
    var ins: seq<TxIn> := [];
    for i := 0 to count
      invariant ParseMany(ParseTxIn, i, start) == Done(ins, reader.rest)
    {
      var more := OneMoreInput(reader, ins, i, start);
      if more.None? {
        ManyFails(ParseTxIn, i + 1, count, start);
        return None;
      }
      ins := more.value;
    }
    r := Some(ins);
  }

  method OneMoreInput(reader: Reader, ins: seq<TxIn>, ghost i: nat, ghost start: seq<byte>)
    returns (r: Option<seq<TxIn>>)
    requires ParseMany(ParseTxIn, i, start) == Done(ins, reader.rest)
    modifies reader
    ensures Agrees(ParseMany(ParseTxIn, i + 1, start), r, reader.rest)
  {
    ManyNext(ParseTxIn, i, start);
    var input :- ReadTxIn(reader);
    r := Some(ins + [input]);
  }

  method ReadOutputs(reader: Reader, count: nat) returns (r: Option<seq<TxOut>>)
    modifies reader
    ensures Agrees(ParseMany(ParseTxOut, count, old(reader.rest)), r, reader.rest)
  {
    ghost var start := reader.rest;
    var outs: seq<TxOut> := [];
    for i := 0 to count
      invariant ParseMany(ParseTxOut, i, start) == Done(outs, reader.rest)
    {
      var more := OneMoreOutput(reader, outs, i, start);
      if more.None? {
        ManyFails(ParseTxOut, i + 1, count, start);
        return None;
      }
      outs := more.value;
    }
    r := Some(outs);
  }

  method OneMoreOutput(reader: Reader, outs: seq<TxOut>, ghost i: nat, ghost start: seq<byte>)
    returns (r: Option<seq<TxOut>>)
    requires ParseMany(ParseTxOut, i, start) == Done(outs, reader.rest)
    modifies reader
    ensures Agrees(ParseMany(ParseTxOut, i + 1, start), r, reader.rest)
  {
    ManyNext(ParseTxOut, i, start);
    var output :- ReadTxOut(reader);
    r := Some(outs + [output]);
  }

  method ReadWitnesses(reader: Reader, count: nat) returns (r: Option<seq<TxMessageWitness>>)
    modifies reader
    ensures Agrees(ParseMany(ParseStack, count, old(reader.rest)), r, reader.rest)
  {
    ghost var start := reader.rest;
    var stacks: seq<TxMessageWitness> := [];
    for i := 0 to count
      invariant ParseMany(ParseStack, i, start) == Done(stacks, reader.rest)
    {
      var more := OneMoreStack(reader, stacks, i, start);
      if more.None? {
        ManyFails(ParseStack, i + 1, count, start);
        return None;
      }
      stacks := more.value;
    }
    r := Some(stacks);
  }

  method OneMoreStack(reader: Reader, stacks: seq<TxMessageWitness>, ghost i: nat, ghost start: seq<byte>)
    returns (r: Option<seq<TxMessageWitness>>)
    requires ParseMany(ParseStack, i, start) == Done(stacks, reader.rest)
    modifies reader
    ensures Agrees(ParseMany(ParseStack, i + 1, start), r, reader.rest)
  {
    ManyNext(ParseStack, i, start);
    var stack :- ReadTxMessageWitness(reader);
    r := Some(stacks + [stack]);
  }

  /** The input count, after a marker and flag if the first byte is zero, else starting with
      the byte already read (`Cursor::new([b]).chain(reader)`). */
  method ReadHead(reader: Reader) returns (r: Option<(byte, nat)>)
    modifies reader
    ensures Agrees(ParseHead(old(reader.rest)), r, reader.rest)
  {
    var b :- reader.ReadExact(1);
    if b[0] == 0 {
      var f :- reader.ReadExact(1);
      var n :- ReadVarint(reader);
      return Some((f[0], n));
    } else {
      var chain := new Reader(b + reader.rest);
      assert chain.rest == old(reader.rest);
      var n :- ReadVarint(chain);
      reader.rest := chain.rest;
      return Some((0, n));
    }
  }

  method ReadTx(reader: Reader) returns (r: Option<TxMessage>)
    modifies reader
    ensures Agrees(ParseTx(old(reader.rest)), r, reader.rest)
  {
    var version :- reader.ReadI32();
    var head :- ReadHead(reader);
    var flag, txInCount := head.0, head.1;
    var hasWitness := flag == 1;
    if txInCount == 0 {
      return None;
    }
    var txIn :- ReadInputs(reader, txInCount);
    var txOutCount :- ReadVarint(reader);
    var txOut :- ReadOutputs(reader, txOutCount);
    var txWitness: Option<seq<TxMessageWitness>> := None;
    if hasWitness {
      var stacks :- ReadWitnesses(reader, txInCount);
      txWitness := Some(stacks);
    }
    var lockTime :- reader.ReadU32();
    r := Some(TxMessage(version, flag, txIn, txOut, txWitness, lockTime));
  }

  method WriteTxIn(buf: Writer, input: TxIn)
    requires |input.scriptSig| < TWO_64
    modifies buf
    ensures buf.bytes == old(buf.bytes) + EncTxIn(input)
  {
    ghost var was := buf.bytes;
    buf.Write(input.prevTxid.hash);
    buf.Write(EncU32(input.prevTxid.index));
    WriteVarint(buf, |input.scriptSig|);
    buf.Write(input.scriptSig);
    buf.Write(EncU32(input.sequence));
    TxInLayout(was, input);
  }

  lemma TxInLayout(was: seq<byte>, i: TxIn)
    ensures was + i.prevTxid.hash + EncU32(i.prevTxid.index) + EncVarint(|i.scriptSig|) + i.scriptSig
      + EncU32(i.sequence)
            == was + EncTxIn(i)
  {
    var o, v := EncOutpoint(i.prevTxid), EncVarint(|i.scriptSig|);
    Assoc(was, i.prevTxid.hash, EncU32(i.prevTxid.index));
    Assoc(was + o, v, i.scriptSig);
    Assoc(was, o, v + i.scriptSig);
    Assoc(was, o + (v + i.scriptSig), EncU32(i.sequence));
  }

  method WriteTxOut(buf: Writer, output: TxOut)
    requires |output.pkScript| < TWO_64
    modifies buf
    ensures buf.bytes == old(buf.bytes) + EncTxOut(output)
  {
    ghost var was := buf.bytes;
    buf.Write(EncI64(output.value));
    WriteVarint(buf, |output.pkScript|);
    buf.Write(output.pkScript);
    Assoc(was + EncI64(output.value), EncVarint(|output.pkScript|), output.pkScript);
    Assoc(was, EncI64(output.value), EncBytes(output.pkScript));
  }

  method WriteInputs(buf: Writer, ins: seq<TxIn>)
    requires |ins| < TWO_64 && forall i :: i in ins ==> |i.scriptSig| < TWO_64
    modifies buf
    ensures buf.bytes == old(buf.bytes) + EncInputs(ins)
  {
    WriteVarint(buf, |ins|);
    ghost var start := buf.bytes;
    for k := 0 to |ins|
      invariant buf.bytes == start + EncMany(EncTxIn, ins[..k])
    {
      WriteTxIn(buf, ins[k]);
      ManyWritten(start, EncTxIn, ins, k);
    }
    AllWritten(old(buf.bytes), EncVarint(|ins|), EncTxIn, ins);
  }

  method WriteOutputs(buf: Writer, outs: seq<TxOut>)
    requires |outs| < TWO_64 && forall o :: o in outs ==> |o.pkScript| < TWO_64
    modifies buf
    ensures buf.bytes == old(buf.bytes) + EncOutputs(outs)
  {
    WriteVarint(buf, |outs|);
    ghost var start := buf.bytes;
    for k := 0 to |outs|
      invariant buf.bytes == start + EncMany(EncTxOut, outs[..k])
    {
      WriteTxOut(buf, outs[k]);
      ManyWritten(start, EncTxOut, outs, k);
    }
    AllWritten(old(buf.bytes), EncVarint(|outs|), EncTxOut, outs);
  }

  method EncodeLegacy(tx: TxMessage, buf: Writer)
    requires Sized(tx)
    modifies buf
    ensures buf.bytes == old(buf.bytes) + EncLegacy(tx)
  {
    ghost var was := buf.bytes;
    buf.Write(EncI32(tx.version));
    WriteInputs(buf, tx.txIn);
    WriteOutputs(buf, tx.txOut);
    buf.Write(EncU32(tx.lockTime));
    ghost var a, b, c, d := EncI32(tx.version), EncInputs(tx.txIn), EncOutputs(tx.txOut), EncU32(tx.lockTime);
    Assoc(was, a, b);
    Assoc(was, a + b, c);
    Assoc(was, a + b + c, d);
  }
}
