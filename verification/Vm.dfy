/** The stack machine: what each instruction does to the stack, and laws of whole programs. */
module Vm {
  import opened Bytes
  import opened Transaction
  import opened SigHash
  import opened Script

  /** Hash functions and signature checking, whose insides are not modelled. `verify` takes a
      public key, a DER signature and a digest, and is false if either does not parse. */
  datatype Crypto = Crypto(
    sha256: seq<byte> -> Hash32,
    ripemd160: seq<byte> -> Hash20,
    verify: (seq<byte>, seq<byte>, Hash32) -> bool)

  /** The part of the context no instruction changes. */
  datatype Env = Env(crypto: Crypto, tx: TxMessage, inputIndex: nat, scriptCode: seq<byte>)

  /** The top of the stack is its last item. */
  type Stack = seq<seq<byte>>

  datatype Error = Underflow | EqualVerifyFailed | NotImplemented(op: OpCode)

  /** The stack an execution leaves behind, and its error if it ended in one. */
  datatype Outcome = Outcome(stack: Stack, error: Option<Error>)

  function Hash160(crypto: Crypto, data: seq<byte>): Hash20 {
    crypto.ripemd160(crypto.sha256(data))
  }

  function Truth(b: bool): seq<byte> {
    if b then [1] else []
  }

  /** Whether OP_CHECKSIG accepts: the last signature byte is the hash type. */
  function SignatureValid(env: Env, sig: seq<byte>, pubkey: seq<byte>): bool {
    && sig != []
    && var call := Call(env.tx, env.inputIndex, env.scriptCode, sig[|sig| - 1] as nat);
       env.crypto.verify(pubkey, sig[..|sig| - 1], SignatureHash(env.crypto.sha256, call))
  }

  function ExecOp(env: Env, op: OpCode, s: Stack): Outcome {
    var n := |s|;
    match op
    case Op0 => Outcome(s + [[]], None)
    case Op1Negate => Outcome(s + [[0x81]], None)
    case OpPushNum(k) => Outcome(s + [if k == 0 then [] else [k]], None)
    case OpDup => if n == 0 then Outcome(s, Some(Underflow)) else Outcome(s + [s[n - 1]], None)
    case OpHash160 => if n == 0 then Outcome(s, Some(Underflow))
      else Outcome(s[..n - 1] + [Hash160(env.crypto, s[n - 1])], None)
    case OpEqual =>
      if n < 2 then Outcome(s, Some(Underflow)) else Outcome(s[..n - 2] + [Truth(s[n - 1] == s[n - 2])], None)
    case OpEqualVerify =>
      if n < 2 then Outcome(s, Some(Underflow))
      else Outcome(s[..n - 2], if s[n - 1] == s[n - 2] then None else Some(EqualVerifyFailed))
    case OpCheckSig =>
      if n < 2 then Outcome(s, Some(Underflow))
        else Outcome(s[..n - 2] + [Truth(SignatureValid(env, s[n - 2], s[n - 1]))], None)
    case _ => Outcome(s, Some(NotImplemented(op)))
  }

  function Step(env: Env, i: Instruction, s: Stack): Outcome {
    match i
    case Op(op) => ExecOp(env, op, s)
    case PushData(d) => Outcome(s + [d], None)
  }

  /** Execution stops at the first error. */
  function Run(env: Env, prog: seq<Instruction>, s: Stack): Outcome {
    if prog == [] then Outcome(s, None)
    else
      var r := Step(env, prog[0], s);
      if r.error.Some? then r else Run(env, prog[1..], r.stack)
  }

  // ---------------------------------------------------------------- laws

  /** Executing one program after another is executing their concatenation. */
  lemma {:induction false} RunConcat(env: Env, p: seq<Instruction>, q: seq<Instruction>, s: Stack)
    ensures var r := Run(env, p, s);
      Run(env, p + q, s) == if r.error.Some? then r else Run(env, q, r.stack)
  {
    if p == [] {
      assert p + q == q;
    } else {
      assert (p + q)[1..] == p[1..] + q;
      var r := Step(env, p[0], s);
      if r.error.None? { RunConcat(env, p[1..], q, r.stack); }
    }
  }

  lemma StepFrame(env: Env, i: Instruction, base: Stack, s: Stack)
    requires Step(env, i, s).error != Some(Underflow)
    ensures Step(env, i, base + s) == Outcome(base + Step(env, i, s).stack, Step(env, i, s).error)
  {
    var n := |s|;
    match i
    case PushData(d) => OnTop(base, s, 0, d);
    case Op(Op0) => OnTop(base, s, 0, []);
    case Op(Op1Negate) => OnTop(base, s, 0, [0x81]);
    case Op(OpPushNum(k)) => OnTop(base, s, 0, if k == 0 then [] else [k]);
    case Op(OpDup) => OnTop(base, s, 0, s[n - 1]);
    case Op(OpHash160) => OnTop(base, s, 1, Hash160(env.crypto, s[n - 1]));
    case Op(OpEqual) => OnTop(base, s, 2, Truth(s[n - 1] == s[n - 2]));
    case Op(OpEqualVerify) => OnTop(base, s, 2, []);
    case Op(OpCheckSig) => OnTop(base, s, 2, Truth(SignatureValid(env, s[n - 2], s[n - 1])));
    case _ =>
  }

  lemma OnTop(base: Stack, s: Stack, k: nat, x: seq<byte>)
    requires k <= |s|
    ensures (base + s)[..|base| + |s| - k] == base + s[..|s| - k]
    ensures (base + s)[..|base| + |s| - k] + [x] == base + (s[..|s| - k] + [x])
    ensures (base + s) + [x] == base + (s + [x])
  {
  }

  /** A run that does not underflow does the same on top of any other stack, whether it
      succeeds or fails. */
  lemma {:induction false} Frame(env: Env, prog: seq<Instruction>, base: Stack, s: Stack)
    requires Run(env, prog, s).error != Some(Underflow)
    ensures Run(env, prog, base + s) == Outcome(base + Run(env, prog, s).stack, Run(env, prog, s).error)
  {
    if prog != [] {
      StepFrame(env, prog[0], base, s);
      var r := Step(env, prog[0], s);
      if r.error.None? { Frame(env, prog[1..], base, r.stack); }
    }
  }

  predicate Implemented(i: Instruction) {
    i.PushData? || i.op in {Op0, Op1Negate, OpDup, OpHash160, OpEqual, OpEqualVerify, OpCheckSig} || i.op.OpPushNum?
  }

  /** Items an instruction takes off or looks at. */
  function Pops(i: Instruction): nat {
    if i.PushData? then 0
    else match i.op
      case OpDup => 1
      case OpHash160 => 1
      case OpEqual => 2
      case OpEqualVerify => 2
      case OpCheckSig => 2
      case _ => 0
  }

  /** The change in depth. */
  function Delta(i: Instruction): int {
    if i.PushData? then 1
    else match i.op
      case OpHash160 => 0
      case OpEqual => -1
      case OpEqualVerify => -2
      case OpCheckSig => -1
      case _ => 1
  }

  /** The static pass: the least depth a program can start from, and its total change. */
  function Need(prog: seq<Instruction>): nat {
    if prog == [] then 0
    else
      var later := Need(prog[1..]) - Delta(prog[0]);
      if later > Pops(prog[0]) then later else Pops(prog[0])
  }

  function TotalDelta(prog: seq<Instruction>): int {
    if prog == [] then 0 else Delta(prog[0]) + TotalDelta(prog[1..])
  }

  /** For programs of implemented instructions the static pass is exact: short of a failed
      OP_EQUALVERIFY a run underflows if and only if it starts below the computed depth, else
      it succeeds with the computed change. */
  lemma {:induction false} DepthExact(env: Env, prog: seq<Instruction>, s: Stack)
    requires forall i :: i in prog ==> Implemented(i)
    ensures var r := Run(env, prog, s);
      && (r.error != Some(EqualVerifyFailed) ==> (r.error == Some(Underflow) <==> |s| < Need(prog)))
      && (r.error.None? ==> |r.stack| == |s| + TotalDelta(prog))
      && (r.error.Some? ==> r.error.value == Underflow || r.error.value == EqualVerifyFailed)
  {
    if prog != [] {
      assert Implemented(prog[0]);
      var r := Step(env, prog[0], s);
      if r.error.None? { DepthExact(env, prog[1..], r.stack); }
    }
  }

  // ---------------------------------------------------------------- each opcode

  /** What each opcode does to the items on top, `x` being the last. */
  lemma OpcodesByItems(env: Env, s: Stack, y: seq<byte>, x: seq<byte>, n: byte)
    ensures ExecOp(env, Op0, s) == Outcome(s + [[]], None)
    ensures ExecOp(env, Op1Negate, s) == Outcome(s + [[0x81]], None)
    ensures ExecOp(env, OpPushNum(n), s) == Outcome(s + [if n == 0 then [] else [n]], None)
    ensures ExecOp(env, OpDup, s + [x]) == Outcome(s + [x, x], None)
    ensures ExecOp(env, OpHash160, s + [x]) == Outcome(s + [env.crypto.ripemd160(env.crypto.sha256(x))], None)
    ensures ExecOp(env, OpEqual, s + [y, x]) == Outcome(s + [if x == y then [1] else []], None)
    ensures ExecOp(env, OpEqualVerify, s + [y, x]) == Outcome(s, if x == y then None else Some(EqualVerifyFailed))
    ensures ExecOp(env, OpCheckSig, s + [y, x]) ==
      if y != [] && env.crypto.verify(x, y[..|y| - 1],
           SignatureHash(env.crypto.sha256, Call(env.tx, env.inputIndex, env.scriptCode, y[|y| - 1] as nat)))
      then Outcome(s + [[1]], None) else Outcome(s + [[]], None)
  {
    var one, two := s + [x], s + [y, x];
    assert one[..|s|] == s && two[..|s|] == s;
    assert one + [x] == s + [x, x];
  }

  /** Without the items they need the opcodes fail and leave the stack. */
  lemma OpcodesNeedItems(env: Env, s: Stack)
    ensures s == [] ==> ExecOp(env, OpDup, s) == ExecOp(env, OpHash160, s) == Outcome(s, Some(Underflow))
    ensures |s| < 2 ==> ExecOp(env, OpEqual, s) == ExecOp(env, OpEqualVerify, s) == ExecOp(env, OpCheckSig, s)
                        == Outcome(s, Some(Underflow))
  {
  }

  /** Every other opcode fails, wherever it stands, and leaves the stack. */
  lemma OthersFail(env: Env, op: OpCode, s: Stack)
    requires op.OpNopFuture? || op.OpReturnSuccess? || op.OpInvalidOpcode? || op.OpOther?
    ensures ExecOp(env, op, s) == Outcome(s, Some(NotImplemented(op)))
  {
  }

  // ---------------------------------------------------------------- no limits

  function Pushes(items: Stack): seq<Instruction> {
    seq(|items|, i requires 0 <= i < |items| => PushData(items[i]))
  }

  /** The overview of the project promises limits of 520 bytes an item and 1000 items and a
      clean stack. None is in force: a script of pushes runs, whatever the number and the
      sizes of its items and whatever lies below them. */
  lemma {:induction false} PushesUnchecked(env: Env, items: Stack, s: Stack)
    ensures Run(env, Pushes(items), s) == Outcome(s + items, None)
  {
    if items == [] {
      assert s + items == s;
    } else {
      assert Pushes(items)[1..] == Pushes(items[1..]);
      PushesUnchecked(env, items[1..], s + [items[0]]);
      assert (s + [items[0]]) + items[1..] == s + items;
    }
  }

  const MAX_ITEM: nat := 520
  const MAX_DEPTH: nat := 1000

  predicate Small(s: Stack) {
    forall i :: 0 <= i < |s| ==> |s[i]| <= MAX_ITEM
  }

  /** Every stack a run passes, the first and the last included, keeps to the limit on items
      and to a given depth. */
  predicate Within(env: Env, prog: seq<Instruction>, s: Stack, depth: nat) {
    && Small(s) && |s| <= depth
    && (prog != [] ==>
          var r := Step(env, prog[0], s);
          if r.error.Some? then Small(r.stack) && |r.stack| <= depth else Within(env, prog[1..], r.stack, depth))
  }

  predicate SmallPushes(prog: seq<Instruction>) {
    forall i :: 0 <= i < |prog| && prog[i].PushData? ==> |prog[i].data| <= MAX_ITEM
  }

  /** How far above its start a program's stack rises. */
  function Peak(prog: seq<Instruction>): (n: nat) {
    if prog == [] then 0
    else
      var later := Delta(prog[0]) + Peak(prog[1..]);
      if later > 0 then later else 0
  }

  lemma StepSmall(env: Env, i: Instruction, s: Stack)
    requires Implemented(i) && Step(env, i, s).error.None? && Small(s)
    ensures Small(Step(env, i, s).stack) <==> i.PushData? ==> |i.data| <= MAX_ITEM
  {
    var t := Step(env, i, s).stack;
    if i.PushData? { assert t[|s|] == i.data; }
  }

  lemma SmallPushesCons(prog: seq<Instruction>)
    requires prog != []
    ensures SmallPushes(prog) <==> (prog[0].PushData? ==> |prog[0].data| <= MAX_ITEM) && SmallPushes(prog[1..])
  {
    if SmallPushes(prog[1..]) {
      forall i | 0 < i < |prog| && prog[i].PushData? ensures |prog[i].data| <= MAX_ITEM {
        assert prog[1..][i - 1] == prog[i];
      }
    }
    if SmallPushes(prog) {
      forall i | 0 <= i < |prog[1..]| && prog[1..][i].PushData? ensures |prog[1..][i].data| <= MAX_ITEM {
        assert prog[1..][i] == prog[i + 1];
      }
    }
  }

  lemma {:induction false} WithinExact(env: Env, prog: seq<Instruction>, s: Stack, depth: nat)
    requires (forall i :: i in prog ==> Implemented(i)) && Run(env, prog, s).error.None?
    ensures Within(env, prog, s, depth) <==> Small(s) && SmallPushes(prog) && |s| + Peak(prog) <= depth
  {
    if prog != [] {
      assert Implemented(prog[0]);
      var t := Step(env, prog[0], s).stack;
      SmallPushesCons(prog);
      WithinExact(env, prog[1..], t, depth);
      if Small(s) { StepSmall(env, prog[0], s); }
      StepDepth(env, prog[0], s);
    }
  }

  lemma StepDepth(env: Env, i: Instruction, s: Stack)
    requires Implemented(i) && Step(env, i, s).error.None?
    ensures |Step(env, i, s).stack| == |s| + Delta(i)
  {
  }

  /** A run of implemented instructions that succeeds keeps to the promised limits throughout
      exactly if it starts on small items and pushes only such, and the static pass over the
      program keeps it from rising too high; it ends on a clean stack exactly if the total
      change says so. */
  lemma LimitsExact(env: Env, prog: seq<Instruction>, s: Stack)
    requires (forall i :: i in prog ==> Implemented(i)) && Run(env, prog, s).error.None?
    ensures Within(env, prog, s, MAX_DEPTH) <==> Small(s) && SmallPushes(prog) && |s| + Peak(prog) <= MAX_DEPTH
    ensures |Run(env, prog, s).stack| == 1 <==> |s| + TotalDelta(prog) == 1
  {
    WithinExact(env, prog, s, MAX_DEPTH);
    DepthExact(env, prog, s);
  }

  /** 1001 items of 521 bytes, for one, are left without an error. */
  lemma LimitsExceeded(env: Env)
    ensures var items := seq(1001, _ => seq(521, _ => 0));
      Run(env, Pushes(items), []) == Outcome(items, None) && |items| > 1000 && |items[0]| > 520
  {
    var items: Stack := seq(1001, _ => seq(521, _ => 0));
    PushesUnchecked(env, items, []);
    assert [] + items == items;
  }

  lemma {:induction false} PeakPushes(items: Stack, rest: seq<Instruction>)
    ensures Peak(Pushes(items) + rest) >= |items|
  {
    if items != [] {
      assert (Pushes(items) + rest)[1..] == Pushes(items[1..]) + rest;
      PeakPushes(items[1..], rest);
    }
  }

  /** 1002 items are no error either when four of them are gone again at the end. */
  lemma DepthPassed(env: Env)
    ensures var verify := Op(OpEqualVerify);
      var prog := Pushes(seq(1002, _ => [])) + [verify, verify];
      && Run(env, prog, []) == Outcome(seq(998, _ => []), None)
      && !Within(env, prog, [], MAX_DEPTH)
  {
    var verify := Op(OpEqualVerify);
    var items: Stack, two := seq(1002, _ => []), [verify, verify];
    var prog := Pushes(items) + two;
    PushesUnchecked(env, items, []);
    assert [] + items == items;
    RunConcat(env, Pushes(items), two, []);
    VerifiedTwice(env, items);
    PeakPushes(items, two);
    WithinExact(env, prog, [], MAX_DEPTH);
  }

  lemma VerifiedTwice(env: Env, items: Stack)
    requires items == seq(1002, _ => [])
    ensures Run(env, [Op(OpEqualVerify), Op(OpEqualVerify)], items) == Outcome(seq(998, _ => []), None)
  {
    var two := [Op(OpEqualVerify), Op(OpEqualVerify)];
    var fewer: Stack := seq(1000, _ => []);
    assert items[..1000] == fewer && fewer[..998] == seq(998, _ => []);
    assert two[1..] == [Op(OpEqualVerify)] && two[1..][1..] == [];
    UnfoldRun(env, two, items);
    UnfoldRun(env, two[1..], fewer);
  }

  /** OP_EQUALVERIFY is OP_EQUAL and a test of what it left: it passes exactly when OP_EQUAL
      leaves true, takes that item off, and underflows when OP_EQUAL does. */
  lemma EqualVerifyIsEqual(env: Env, s: Stack)
    ensures var (e, v) := (ExecOp(env, OpEqual, s), ExecOp(env, OpEqualVerify, s));
      && (e.error == Some(Underflow) <==> v.error == Some(Underflow))
      && (e.error.None? ==>
            && v.stack == e.stack[..|e.stack| - 1]
            && (v.error.None? <==> e.stack[|e.stack| - 1] == [1]))
  {
    if |s| >= 2 {
      var t := s[..|s| - 2];
      assert (t + [Truth(s[|s| - 1] == s[|s| - 2])])[..|t|] == t;
    }
  }

  /** An item equals its copy, and not a different one. */
  lemma EqualExact(env: Env, a: seq<byte>, b: seq<byte>)
    ensures Run(env, [PushData(a), PushData(b), Op(OpEqual)], []) == Outcome([Truth(a == b)], None)
    ensures Run(env, [PushData(a), Op(OpDup), Op(OpEqual)], []) == Outcome([[1]], None)
  {
    var p := [PushData(a), PushData(b), Op(OpEqual)];
    var q := [PushData(a), Op(OpDup), Op(OpEqual)];
    assert p[1..] == [PushData(b), Op(OpEqual)] && p[2..] == [Op(OpEqual)] && p[3..] == [];
    assert q[1..] == [Op(OpDup), Op(OpEqual)] && q[2..] == [Op(OpEqual)] && q[3..] == [];
    var one, two, twice: Stack := [a], [a, b], [a, a];
    assert [] + [a] == one && one + [b] == two && one + [a] == twice;
    UnfoldRun(env, p, []);
    UnfoldRun(env, p[1..], one);
    UnfoldRun(env, p[2..], two);
    UnfoldRun(env, q, []);
    UnfoldRun(env, q[1..], one);
    UnfoldRun(env, q[2..], twice);
  }

  // ---------------------------------------------------------------- pay to public key hash

  function P2pkhScript(h: Hash20): seq<byte> {
    [0x76, 0xa9, 0x14] + h + [0x88, 0xac]
  }

  lemma ParseP2pkh(h: Hash20)
    ensures Parse(P2pkhScript(h)) == [Op(OpDup), Op(OpHash160), PushData(h), Op(OpEqualVerify), Op(OpCheckSig)]
  {
    var p4 := [Op(OpCheckSig)];
    var p3 := [Op(OpEqualVerify)] + p4;
    var p2 := [PushData(h)] + p3;
    var p1 := [Op(OpHash160)] + p2;
    PrintCons(Op(OpCheckSig), []);
    PrintCons(Op(OpEqualVerify), p4);
    PrintCons(PushData(h), p3);
    PrintCons(Op(OpHash160), p2);
    PrintCons(Op(OpDup), p1);
    assert [Op(OpCheckSig)] + [] == p4;
    var prog := [Op(OpDup)] + p1;
    assert PrintAll(prog) == P2pkhScript(h);
    ParsePrint(prog);
  }

  lemma PrintCons(i: Instruction, rest: seq<Instruction>)
    ensures PrintAll([i] + rest) == Print(i) + PrintAll(rest)
  {
    assert ([i] + rest)[1..] == rest;
  }

  /** Two pushes and then the parsed locking script: the run fails, at OP_EQUALVERIFY, exactly
      when the key does not hash to `h`; otherwise it leaves one item on top of the initial
      stack, true exactly when the signature is not empty and verifies, without its last byte,
      over the signature hash of that byte. */
  lemma P2pkhExact(env: Env, sig: seq<byte>, pubkey: seq<byte>, h: Hash20, base: Stack)
    ensures var first := Run(env, [PushData(sig), PushData(pubkey)], base);
      && first.error.None?
      && var r := Run(env, Parse(P2pkhScript(h)), first.stack);
         if env.crypto.ripemd160(env.crypto.sha256(pubkey)) != h
         then r == Outcome(base + [sig, pubkey], Some(EqualVerifyFailed))
         else if sig != [] && env.crypto.verify(pubkey, sig[..|sig| - 1],
                SignatureHash(env.crypto.sha256,
                              Call(env.tx, env.inputIndex, env.scriptCode, sig[|sig| - 1] as nat)))
         then r == Outcome(base + [[1]], None)
         else r == Outcome(base + [[]], None)
  {
    var p := [PushData(sig), PushData(pubkey)];
    assert p[1..] == [PushData(pubkey)] && p[1..][1..] == [];
    UnfoldRun(env, p, []);
    UnfoldRun(env, p[1..], [sig]);
    assert Run(env, p, []) == Outcome([sig, pubkey], None) by {
      assert [] + [sig] == [sig] && [sig] + [pubkey] == [sig, pubkey];
    }
    Frame(env, p, base, []);
    assert base + [] == base;
    ParseP2pkh(h);
    P2pkhRun(env, sig, pubkey, h);
    Frame(env, Parse(P2pkhScript(h)), base, [sig, pubkey]);
  }

  lemma P2pkhRun(env: Env, sig: seq<byte>, pubkey: seq<byte>, h: Hash20)
    ensures var prog := [Op(OpDup), Op(OpHash160), PushData(h), Op(OpEqualVerify), Op(OpCheckSig)];
      Run(env, prog, [sig, pubkey]) ==
      if Hash160(env.crypto, pubkey) == h
      then Outcome([Truth(SignatureValid(env, sig, pubkey))], None)
      else Outcome([sig, pubkey], Some(EqualVerifyFailed))
  {
    var prog := [Op(OpDup), Op(OpHash160), PushData(h), Op(OpEqualVerify), Op(OpCheckSig)];
    var k := Hash160(env.crypto, pubkey);
    assert prog[1..] == [Op(OpHash160), PushData(h), Op(OpEqualVerify), Op(OpCheckSig)];
    assert prog[2..] == [PushData(h), Op(OpEqualVerify), Op(OpCheckSig)];
    assert prog[3..] == [Op(OpEqualVerify), Op(OpCheckSig)];
    assert prog[4..] == [Op(OpCheckSig)] && prog[5..] == [];
    var s1, s2, s3: Stack := [sig, pubkey, pubkey], [sig, pubkey, k], [sig, pubkey, k, h];
    assert Step(env, prog[0], [sig, pubkey]) == Outcome(s1, None);
    assert Step(env, prog[1], s1) == Outcome(s2, None) by { assert s1[..2] == [sig, pubkey]; }
    assert Step(env, prog[2], s2) == Outcome(s3, None);
    assert s3[..2] == [sig, pubkey];
    var s4: Stack := [sig, pubkey];
    assert s4[..0] == [];
    UnfoldRun(env, prog, [sig, pubkey]);
    UnfoldRun(env, prog[1..], s1);
    UnfoldRun(env, prog[2..], s2);
    UnfoldRun(env, prog[3..], s3);
    if k == h {
      UnfoldRun(env, prog[4..], s4);
    }
  }

  lemma UnfoldRun(env: Env, prog: seq<Instruction>, s: Stack)
    requires prog != []
    ensures var r := Step(env, prog[0], s);
      Run(env, prog, s) == if r.error.Some? then r else Run(env, prog[1..], r.stack)
  {
  }

  /** Two environments in which a signature with a given hash type signs the same: both
      return early, with the constant, or neither does and what is committed to agrees. */
  ghost predicate SignsAlike(a: Env, b: Env, hashType: byte) {
    var ca := Call(a.tx, a.inputIndex, a.scriptCode, hashType as nat);
    var cb := Call(b.tx, b.inputIndex, b.scriptCode, hashType as nat);
    if ca.Degenerate() || cb.Degenerate() then ca.Degenerate() && cb.Degenerate()
    else ca.Sized() && cb.Sized() && SameCommitment(ca, cb)
  }

  lemma AlikeHashes(a: Env, b: Env, sig: seq<byte>, pubkey: seq<byte>)
    requires a.crypto == b.crypto && (sig != [] ==> SignsAlike(a, b, sig[|sig| - 1]))
    ensures SignatureValid(a, sig, pubkey) == SignatureValid(b, sig, pubkey)
  {
    if sig != [] {
      var ht := sig[|sig| - 1] as nat;
      var ca, cb := Call(a.tx, a.inputIndex, a.scriptCode, ht), Call(b.tx, b.inputIndex, b.scriptCode, ht);
      if !ca.Degenerate() { CommitmentExact(ca, cb); }
    }
  }

  /** A pay-to-public-key-hash spend has the same outcome in any two transactions that agree on
      what the signature's hash type commits to, or that both sign the constant. */
  lemma P2pkhCommitment(a: Env, b: Env, sig: seq<byte>, pubkey: seq<byte>, h: Hash20, base: Stack)
    requires a.crypto == b.crypto && (sig != [] ==> SignsAlike(a, b, sig[|sig| - 1]))
    ensures Run(a, Parse(P2pkhScript(h)), base + [sig, pubkey]) == Run(b, Parse(P2pkhScript(h)), base + [sig, pubkey])
  {
    AlikeHashes(a, b, sig, pubkey);
    ParseP2pkh(h);
    P2pkhRun(a, sig, pubkey, h);
    P2pkhRun(b, sig, pubkey, h);
    Frame(a, Parse(P2pkhScript(h)), base, [sig, pubkey]);
    Frame(b, Parse(P2pkhScript(h)), base, [sig, pubkey]);
  }

  // ---------------------------------------------------------------- the machine

  class ExecutionContext {
    const crypto: Crypto
    var stack: Stack
    var altStack: Stack
    var execStack: seq<bool>
    var tx: TxMessage
    var inputIndex: nat
    var scriptCode: seq<byte>

    constructor (crypto: Crypto, tx: TxMessage, inputIndex: nat, scriptCode: seq<byte>)
      ensures stack == [] && altStack == [] && execStack == []
      ensures Context() == Env(crypto, tx, inputIndex, scriptCode)
    {
      this.crypto := crypto;
      stack, altStack, execStack := [], [], [];
      this.tx, this.inputIndex, this.scriptCode := tx, inputIndex, scriptCode;
    }

    function Context(): Env
      reads this
    {
      Env(crypto, tx, inputIndex, scriptCode)
    }

    /** Lengths are those of real vectors. */
    ghost predicate Valid()
      reads this
    {
      Sized(tx) && |scriptCode| < TWO_64
    }

    method Pop() returns (top: seq<byte>)
      requires stack != []
      modifies this`stack
      ensures top == old(stack)[|old(stack)| - 1] && stack == old(stack)[..|old(stack)| - 1]
    {
      top := stack[|stack| - 1];
      stack := stack[..|stack| - 1];
    }

    method PopTwo() returns (a: seq<byte>, b: seq<byte>)
      requires |stack| >= 2
      modifies this`stack
      ensures var n := |old(stack)|; a == old(stack)[n - 1] && b == old(stack)[n - 2] && stack == old(stack)[..n - 2]
    {
      a := Pop();
      b := Pop();
    }

    method CheckSig()
      requires Valid() && |stack| >= 2
      modifies this`stack
      ensures Outcome(stack, None) == ExecOp(Context(), OpCheckSig, old(stack))
    {
      var pubkey, sig := PopTwo();
      if sig == [] {
        stack := stack + [[]];
        return;
      }
      var hashType := sig[|sig| - 1] as nat;
      var derSig := sig[..|sig| - 1];
      var hash := CalculateSignatureHash(crypto.sha256, tx, inputIndex, scriptCode, hashType);
      if crypto.verify(pubkey, derSig, hash) { stack := stack + [[1]]; } else { stack := stack + [[]]; }
    }

    method ExecuteOp(op: OpCode) returns (error: Option<Error>)
      requires Valid()
      modifies this`stack
      ensures Outcome(stack, error) == ExecOp(Context(), op, old(stack))
    {
      error := None;
      match op
      case Op0 => stack := stack + [[]];
      case Op1Negate => stack := stack + [[0x81]];
      case OpPushNum(n) =>
        if n == 0 { stack := stack + [[]]; } else { stack := stack + [[n]]; }
      case OpDup =>
        if stack == [] { return Some(Underflow); }
        stack := stack + [stack[|stack| - 1]];
      case OpHash160 =>
        if stack == [] { return Some(Underflow); }
        var top := Pop();
        stack := stack + [crypto.ripemd160(crypto.sha256(top))];
      case OpEqual =>
        if |stack| < 2 { return Some(Underflow); }
        var a, b := PopTwo();
        if a == b { stack := stack + [[1]]; } else { stack := stack + [[]]; }
      case OpEqualVerify =>
        if |stack| < 2 { return Some(Underflow); }
        var a, b := PopTwo();
        if a != b { return Some(EqualVerifyFailed); }
      case OpCheckSig =>
        if |stack| < 2 { return Some(Underflow); }
        CheckSig();
      case _ => error := Some(NotImplemented(op));
    }

    method Execute(instructions: seq<Instruction>) returns (error: Option<Error>)
      requires Valid()
      modifies this`stack
      ensures Outcome(stack, error) == Run(Context(), instructions, old(stack))
    {
      for k := 0 to |instructions|
        invariant Run(Context(), instructions, old(stack)) == Run(Context(), instructions[k..], stack)
      {
        UnfoldRun(Context(), instructions[k..], stack);
        assert instructions[k..][1..] == instructions[k + 1..];
        match instructions[k]
        case Op(op) =>
          error := ExecuteOp(op);
          if error.Some? { return; }
        case PushData(data) =>
          stack := stack + [data];
      }
      error := None;
    }
  }
}
