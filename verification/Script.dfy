/** The script tokenizer: opcodes and five encodings of data pushes. */
module Script {
  import opened Bytes

  /** The opcodes the virtual machine executes by name; every other one-byte opcode of the
      enumeration stands for itself by its byte. */
  datatype OpCode =
    | Op0 | Op1Negate | OpPushNum(n: byte) | OpDup | OpEqual | OpEqualVerify | OpHash160 | OpCheckSig
    | OpNopFuture(code: byte) | OpReturnSuccess(code: byte) | OpInvalidOpcode
    | OpOther(code: byte)

  datatype Instruction = Op(op: OpCode) | PushData(data: seq<byte>)

  predicate IsPush(b: byte) { 1 <= b <= 0x4e }
  predicate IsNopFuture(b: byte) { b == 0xb0 || 0xb3 <= b <= 0xb9 }

  function FromByte(b: byte): OpCode
    requires !IsPush(b)
  {
    if b == 0x00 then Op0
    else if b == 0x4f then Op1Negate
    else if 0x51 <= b <= 0x60 then OpPushNum(b - 0x50)
    else if b == 0x76 then OpDup
    else if b == 0x87 then OpEqual
    else if b == 0x88 then OpEqualVerify
    else if b == 0xa9 then OpHash160
    else if b == 0xac then OpCheckSig
    else if IsNopFuture(b) then OpNopFuture(b)
    else if 0xbb <= b <= 0xfe then OpReturnSuccess(b)
    else if b == 0xff then OpInvalidOpcode
    else OpOther(b)
  }

  function ToByte(op: OpCode): byte {
    match op
    case Op0 => 0x00
    case Op1Negate => 0x4f
    case OpPushNum(n) => ((0x50 + n as int) % 256) as byte
    case OpDup => 0x76
    case OpEqual => 0x87
    case OpEqualVerify => 0x88
    case OpHash160 => 0xa9
    case OpCheckSig => 0xac
    case OpInvalidOpcode => 0xff
    case OpNopFuture(b) => b
    case OpReturnSuccess(b) => b
    case OpOther(b) => b
  }

  /** The instructions the tokenizer can yield. */
  predicate Producible(i: Instruction) {
    match i
    case PushData(d) => |d| < TWO_32
    case Op(OpPushNum(n)) => 1 <= n <= 16
    case Op(OpNopFuture(b)) => IsNopFuture(b)
    case Op(OpReturnSuccess(b)) => 0xbb <= b <= 0xfe
    case Op(OpOther(b)) => !IsPush(b) && FromByte(b) == OpOther(b)
    case Op(_) => true
  }

  // ---------------------------------------------------------------- tokenizing

  /** The first instruction and its length in bytes, or a push that runs past the end. */
  datatype Token = Tok(inst: Instruction, len: nat) | Cut

  function PushToken(s: seq<byte>, header: nat, n: nat): Token {
    if header + n <= |s| then Tok(PushData(s[header..header + n]), header + n) else Cut
  }

  /** Bytes before the data of a push that starts with `b`. */
  function HeaderLen(b: byte): (h: nat)
    requires IsPush(b)
  {
    if b <= 0x4b then 1 else if b == 0x4c then 2 else if b == 0x4d then 3 else 5
  }

  /** The length of the data, given the header of the push. */
  function DataLen(header: seq<byte>): nat
    requires header != [] && IsPush(header[0])
  {
    if header[0] <= 0x4b then header[0] as nat else FromLE(header[1..])
  }

  function Next(s: seq<byte>): (t: Token)
    requires s != []
    ensures t.Tok? ==> 1 <= t.len <= |s|
  {
    if !IsPush(s[0]) then Tok(Op(FromByte(s[0])), 1)
    else
      var h := HeaderLen(s[0]);
      if |s| < h then Cut else PushToken(s, h, DataLen(s[..h]))
  }

  function Parse(s: seq<byte>): seq<Instruction> {
    if s == [] then []
    else
      match Next(s)
      case Cut => [Op(OpInvalidOpcode)]
      case Tok(i, n) => [i] + Parse(s[n..])
  }

  /** The script does not end inside a push. */
  predicate Whole(s: seq<byte>) {
    s == [] || (Next(s).Tok? && Whole(s[Next(s).len..]))
  }

  method ParseScript(script: seq<byte>) returns (instructions: seq<Instruction>)
    ensures instructions == Parse(script)
  {
    instructions := [];
    var i := 0;
    while i < |script|
      invariant 0 <= i <= |script|
      invariant Parse(script) == instructions + Parse(script[i..])
    {
      var token := ReadToken(script, i);
      if token.Cut? {
        instructions := instructions + [Op(OpInvalidOpcode)];
        break;
      }
      assert script[i..][token.len..] == script[i + token.len..];
      instructions := instructions + [token.inst];
      i := i + token.len;
    }
  }

  /** The body of the loop: which push encoding, whether its length bytes and its data are
      all there. */
  method ReadToken(script: seq<byte>, i: nat) returns (t: Token)
    requires i < |script|
    ensures t == Next(script[i..])
  {
    var b := script[i];
    ghost var rest := script[i..];
    if 0x01 <= b <= 0x4b {
      t := ReadPush(script, i, 1, b as nat);
    } else if b == 0x4c {
      if i + 2 > |script| { return Cut; }
      LengthBytes(rest, 2);
      t := ReadPush(script, i, 2, script[i + 1] as nat);
    } else if b == 0x4d {
      if i + 3 > |script| { return Cut; }
      LengthBytes(rest, 3);
      t := ReadPush(script, i, 3, script[i + 1] as nat + 0x100 * script[i + 2] as nat);
    } else if b == 0x4e {
      if i + 5 > |script| { return Cut; }
      LengthBytes(rest, 5);
      t := ReadPush(script, i, 5,
        script[i + 1] as nat + 0x100 * script[i + 2] as nat + 0x1_0000 * script[i + 3] as nat
          + 0x100_0000 * script[i + 4] as nat);
    } else {
      t := Tok(Op(FromByte(b)), 1);
    }
  }

  method ReadPush(script: seq<byte>, i: nat, header: nat, len: nat) returns (t: Token)
    requires i < |script|
    ensures t == PushToken(script[i..], header, len)
  {
    if i + header + len <= |script| {
      assert script[i..][header..header + len] == script[i + header..i + header + len];
      t := Tok(PushData(script[i + header..i + header + len]), header + len);
    } else {
      t := Cut;
    }
  }

  /** The little-endian length after the opcode byte. */
  lemma LengthBytes(s: seq<byte>, h: nat)
    requires h <= |s| && h in {2, 3, 5}
    ensures FromLE(s[..h][1..]) ==
      if h == 2 then s[1] as nat
      else if h == 3 then s[1] as nat + 0x100 * s[2] as nat
      else s[1] as nat + 0x100 * s[2] as nat + 0x1_0000 * s[3] as nat + 0x100_0000 * s[4] as nat
  {
    var t := s[..h][1..];
    assert FromLE(t) == t[0] as nat + 256 * FromLE(t[1..]);
    if h >= 3 { assert FromLE(t[1..]) == t[1] as nat + 256 * FromLE(t[2..]) by { assert t[1..][1..] == t[2..]; } }
    if h == 5 {
      assert FromLE(t[2..]) == t[2] as nat + 256 * FromLE(t[3..]) by { assert t[2..][1..] == t[3..]; }
      assert FromLE(t[3..]) == t[3] as nat by { assert t[3..][1..] == []; }
    }
  }

  // ---------------------------------------------------------------- compositionality

  lemma NextExtends(a: seq<byte>, b: seq<byte>)
    requires a != [] && Next(a).Tok?
    ensures Next(a + b) == Next(a)
    ensures (a + b)[Next(a).len..] == a[Next(a).len..] + b
  {
    if IsPush(a[0]) {
      var h := HeaderLen(a[0]);
      assert (a + b)[..h] == a[..h];
      var n := DataLen(a[..h]);
      assert (a + b)[h..h + n] == a[h..h + n];
    }
  }

  /** A push cut short is completed by enough further bytes. */
  lemma CutCompletes(a: seq<byte>, b: seq<byte>)
    requires a != [] && Next(a).Cut? && |b| >= TWO_32 + 5
    ensures Next(a + b).Tok? && Next(a + b).inst.PushData?
  {
    DataLenBound((a + b)[..HeaderLen(a[0])]);
  }

  lemma DataLenBound(header: seq<byte>)
    requires header != [] && IsPush(header[0]) && |header| == HeaderLen(header[0])
    ensures DataLen(header) < TWO_32
    ensures header[0] == 0x4c ==> DataLen(header) < 0x100
    ensures header[0] == 0x4d ==> DataLen(header) < 0x1_0000
  {
    WidthValues();
    FromLERoundTrip(header[1..]);
  }

  lemma {:induction false} ParseConcat(a: seq<byte>, b: seq<byte>)
    requires Whole(a)
    ensures Parse(a + b) == Parse(a) + Parse(b)
  {
    if a == [] {
      assert a + b == b;
    } else {
      NextExtends(a, b);
      ParseConcat(a[Next(a).len..], b);
    }
  }

  lemma ParseNext(s: seq<byte>)
    requires s != [] && Next(s).Tok?
    ensures Parse(s) == [Next(s).inst] + Parse(s[Next(s).len..])
  {
  }

  lemma TailsDiffer(i: Instruction, whole: seq<Instruction>, x: seq<Instruction>, y: seq<Instruction>)
    requires whole != x + y
    ensures [i] + whole != ([i] + x) + y
  {
    assert ([i] + whole)[1..] == whole;
    assert (([i] + x) + y)[1..] == x + y;
  }

  lemma {:induction false} CutDiffers(a: seq<byte>, b: seq<byte>)
    requires !Whole(a) && |b| >= TWO_32 + 5
    ensures Parse(a + b) != Parse(a) + Parse(b)
    decreases |a|
  {
    if Next(a).Cut? {
      CutCompletes(a, b);
      assert Parse(a + b)[0] != Op(OpInvalidOpcode) == (Parse(a) + Parse(b))[0];
    } else {
      NextExtends(a, b);
      CutDiffers(a[Next(a).len..], b);
      ParseNext(a);
      ParseNext(a + b);
      TailsDiffer(Next(a).inst, Parse(a[Next(a).len..] + b), Parse(a[Next(a).len..]), Parse(b));
    }
  }

  /** Parsing distributes over whatever is appended to a script exactly when the script does
      not end inside a push. */
  lemma ConcatExact(a: seq<byte>)
    ensures Whole(a) <==> forall b :: Parse(a + b) == Parse(a) + Parse(b)
  {
    if Whole(a) {
      forall b ensures Parse(a + b) == Parse(a) + Parse(b) {
        ParseConcat(a, b);
      }
    } else {
      CutDiffers(a, seq(TWO_32 + 5, _ => 0));
    }
  }

  /** Where the push that runs past the end starts. */
  function CutPoint(s: seq<byte>): (k: nat)
    requires !Whole(s)
    ensures k < |s|
  {
    if Next(s).Cut? then 0 else Next(s).len + CutPoint(s[Next(s).len..])
  }

  /** A truncated push yields what comes before it and one invalid opcode. */
  lemma {:induction false} TruncatedPush(s: seq<byte>)
    requires !Whole(s)
    ensures var k := CutPoint(s);
      Whole(s[..k]) && Next(s[k..]).Cut? && Parse(s) == Parse(s[..k]) + [Op(OpInvalidOpcode)]
  {
    if Next(s).Tok? {
      var n, k := Next(s).len, CutPoint(s);
      var t := s[n..];
      TruncatedPush(t);
      assert s[..k][n..] == t[..k - n] && s[k..] == t[k - n..];
      PrefixNext(s, k);
    }
  }

  lemma PrefixNext(s: seq<byte>, k: nat)
    requires s != [] && Next(s).Tok? && Next(s).len <= k <= |s|
    ensures Next(s[..k]) == Next(s)
  {
    var h := if IsPush(s[0]) then HeaderLen(s[0]) else 1;
    assert s[..k][..h] == s[..h];
    if IsPush(s[0]) {
      var n := DataLen(s[..h]);
      assert s[..k][h..h + n] == s[h..h + n];
    }
  }

  // ---------------------------------------------------------------- printing

  /** The shortest push of `d` that the tokenizer reads as a push. */
  function Print(i: Instruction): (s: seq<byte>)
    ensures s != []
  {
    match i
    case Op(op) => [ToByte(op)]
    case PushData(d) =>
      if 1 <= |d| <= 75 then [|d| as byte] + d
      else if |d| <= 0xFF then [0x4c] + LE(|d|, 1) + d
      else if |d| <= 0xFFFF then [0x4d] + LE(|d|, 2) + d
      else [0x4e] + LE(|d|, 4) + d
  }

  function PrintAll(prog: seq<Instruction>): seq<byte> {
    if prog == [] then [] else Print(prog[0]) + PrintAll(prog[1..])
  }

  lemma NextPush(b: byte, len: seq<byte>, d: seq<byte>)
    requires IsPush(b) && HeaderLen(b) == 1 + |len| && DataLen([b] + len) == |d|
    ensures Next([b] + len + d) == Tok(PushData(d), 1 + |len| + |d|)
  {
    var s := [b] + len + d;
    assert s[..1 + |len|] == [b] + len;
    assert s[1 + |len|..1 + |len| + |d|] == d;
  }

  lemma NextLongPush(b: byte, d: seq<byte>)
    requires 0x4c <= b <= 0x4e && |d| < Pow(256, HeaderLen(b) - 1)
    ensures Next([b] + LE(|d|, HeaderLen(b) - 1) + d) == Tok(PushData(d), HeaderLen(b) + |d|)
  {
    var len := LE(|d|, HeaderLen(b) - 1);
    LERoundTrip(|d|, HeaderLen(b) - 1);
    assert ([b] + len)[1..] == len;
    NextPush(b, len, d);
  }

  lemma NextPrint(i: Instruction)
    requires Producible(i)
    ensures Next(Print(i)) == Tok(i, |Print(i)|)
  {
    if i.PushData? {
      var d := i.data;
      WidthValues();
      if 1 <= |d| <= 75 {
        assert [|d| as byte] + [] + d == [|d| as byte] + d;
        NextPush(|d| as byte, [], d);
      } else {
        NextLongPush(Print(i)[0], d);
      }
    }
  }

  /** The four forms of a push, each with its length in front of the data. */
  lemma PushesByByte(d: seq<byte>, r: seq<byte>)
    ensures 1 <= |d| <= 75 ==> Parse([|d| as byte] + d + r) == [PushData(d)] + Parse(r)
    ensures |d| <= 0xFF ==> Parse([0x4c, |d| as byte] + d + r) == [PushData(d)] + Parse(r)
    ensures |d| <= 0xFFFF ==> Parse([0x4d] + LE(|d|, 2) + d + r) == [PushData(d)] + Parse(r)
    ensures |d| <= 0xFFFF_FFFF ==> Parse([0x4e] + LE(|d|, 4) + d + r) == [PushData(d)] + Parse(r)
  {
    WidthValues();
    if 1 <= |d| <= 75 {
      assert [|d| as byte] + [] + d == [|d| as byte] + d;
      NextPush(|d| as byte, [], d);
      TokenParsed([|d| as byte] + d, r);
    }
    if |d| <= 0xFF {
      assert LE(|d|, 1) == [|d| as byte];
      assert [0x4c] + LE(|d|, 1) + d == [0x4c, |d| as byte] + d;
      LongPushParsed(0x4c, d, r);
    }
    if |d| <= 0xFFFF { LongPushParsed(0x4d, d, r); }
    if |d| <= 0xFFFF_FFFF { LongPushParsed(0x4e, d, r); }
  }

  lemma LongPushParsed(b: byte, d: seq<byte>, r: seq<byte>)
    requires 0x4c <= b <= 0x4e && |d| < Pow(256, HeaderLen(b) - 1)
    ensures Parse([b] + LE(|d|, HeaderLen(b) - 1) + d + r) == [PushData(d)] + Parse(r)
  {
    NextLongPush(b, d);
    TokenParsed([b] + LE(|d|, HeaderLen(b) - 1) + d, r);
  }

  lemma TokenParsed(s: seq<byte>, r: seq<byte>)
    requires s != [] && Next(s).Tok? && Next(s).len == |s|
    ensures Parse(s + r) == [Next(s).inst] + Parse(r)
  {
    NextExtends(s, r);
    assert (s + r)[|s|..] == r;
  }

  /** Every byte that is no push is an opcode by itself. */
  lemma OpcodesByByte(b: byte, r: seq<byte>)
    requires b == 0 || b >= 0x4f
    ensures Parse([b] + r) == [Op(FromByte(b))] + Parse(r)
    ensures FromByte(0x00) == Op0 && FromByte(0x4f) == Op1Negate && FromByte(0x76) == OpDup
    ensures FromByte(0x87) == OpEqual && FromByte(0x88) == OpEqualVerify
    ensures FromByte(0xa9) == OpHash160 && FromByte(0xac) == OpCheckSig && FromByte(0xff) == OpInvalidOpcode
    ensures 0x51 <= b <= 0x60 ==> FromByte(b) == OpPushNum(b - 0x50)
    ensures b == 0xb0 || 0xb3 <= b <= 0xb9 ==> FromByte(b) == OpNopFuture(b)
    ensures 0xbb <= b <= 0xfe ==> FromByte(b) == OpReturnSuccess(b)
  {
    assert ([b] + r)[1..] == r;
  }

  /** A push with less data than it claims ends the script with an invalid opcode. */
  lemma ShortPush(n: byte, d: seq<byte>)
    requires 1 <= n <= 75 && |d| < n as nat
    ensures Parse([n] + d) == [Op(OpInvalidOpcode)]
  {
  }

  /** Parsing the printed form of a list of instructions gives the list back. */
  lemma {:induction false} ParsePrint(prog: seq<Instruction>)
    requires forall i :: i in prog ==> Producible(i)
    ensures Parse(PrintAll(prog)) == prog && Whole(PrintAll(prog))
  {
    if prog != [] {
      var s, t := Print(prog[0]), PrintAll(prog[1..]);
      NextPrint(prog[0]);
      NextExtends(s, t);
      assert s[|s|..] + t == t;
      ParsePrint(prog[1..]);
    }
  }

  lemma NextProducible(s: seq<byte>)
    requires s != [] && Next(s).Tok?
    ensures Producible(Next(s).inst)
  {
    if IsPush(s[0]) { DataLenBound(s[..HeaderLen(s[0])]); }
  }

  /** The tokenizer yields nothing that cannot be printed. */
  lemma {:induction false} ParseProducible(s: seq<byte>)
    ensures forall i :: i in Parse(s) ==> Producible(i)
  {
    if s != [] && Next(s).Tok? {
      NextProducible(s);
      ParseProducible(s[Next(s).len..]);
    }
  }

  lemma PrintNextShortest(s: seq<byte>)
    requires s != [] && Next(s).Tok?
    ensures |Print(Next(s).inst)| <= Next(s).len
    ensures |Print(Next(s).inst)| == Next(s).len ==> Print(Next(s).inst) == s[..Next(s).len]
  {
    if IsPush(s[0]) {
      var h := HeaderLen(s[0]);
      var hd := s[..h];
      var n := DataLen(hd);
      DataLenBound(hd);
      FromLERoundTrip(hd[1..]);
      assert s[..h + n] == [s[0]] + hd[1..] + s[h..h + n];
    }
  }

  /** Printing what was parsed is never longer than a whole script, and is as long only when
      it is the script. */
  lemma {:induction false} PrintShortest(s: seq<byte>)
    requires Whole(s)
    ensures |PrintAll(Parse(s))| <= |s|
    ensures |PrintAll(Parse(s))| == |s| <==> PrintAll(Parse(s)) == s
  {
    if s != [] {
      var n := Next(s).len;
      PrintNextShortest(s);
      PrintShortest(s[n..]);
      assert Parse(s)[1..] == Parse(s[n..]);
      ShorterParts(s, n, Print(Next(s).inst), PrintAll(Parse(s[n..])));
    }
  }

  lemma ShorterParts(s: seq<byte>, n: nat, x: seq<byte>, y: seq<byte>)
    requires n <= |s| && |x| <= n && |y| <= |s| - n
    requires |x| == n ==> x == s[..n]
    requires |y| == |s| - n <==> y == s[n..]
    ensures |x + y| == |s| <==> x + y == s
  {
    assert s == s[..n] + s[n..];
  }
}
