/** UTF-8: well-formed text, and the repair of what is not. */
module Text {
  import opened Bytes

  predicate IsTail(b: byte) { 0x80 <= b <= 0xBF }

  /** Bytes a character starting with `b` has, or zero if none starts so (section 4 of RFC 3629). */
  function Width(b: byte): nat {
    if b < 0x80 then 1
    else if 0xC2 <= b <= 0xDF then 2
    else if 0xE0 <= b <= 0xEF then 3
    else if 0xF0 <= b <= 0xF4 then 4
    else 0
  }

  /** A second byte that can follow the first: no overlong forms, surrogates or values too big. */
  predicate IsSecond(b: byte, c: byte) {
    && IsTail(c)
    && (b == 0xE0 ==> c >= 0xA0) && (b == 0xED ==> c <= 0x9F)
    && (b == 0xF0 ==> c >= 0x90) && (b == 0xF4 ==> c <= 0x8F)
  }

  /** How far the front of `s` is the start of a character: at most its width. */
  function Fits(s: seq<byte>): (n: nat)
    requires s != []
    ensures n <= |s| && n <= Width(s[0])
  {
    var w := Width(s[0]);
    if w == 0 then 0
    else if w == 1 || |s| < 2 || !IsSecond(s[0], s[1]) then 1
    else if w == 2 || |s| < 3 || !IsTail(s[2]) then 2
    else if w == 3 || |s| < 4 || !IsTail(s[3]) then 3
    else 4
  }

  /** Bytes of the first character, or zero if none is well formed. */
  function CharLen(s: seq<byte>): (n: nat)
    requires s != []
    ensures n <= |s|
  {
    if Fits(s) == Width(s[0]) then Fits(s) else 0
  }

  /** The bytes of a code point (section 3 of RFC 3629). */
  function CodePoint(c: nat): seq<byte>
    requires c <= 0x10FFFF
  {
    if c < 0x80 then [c as byte]
    else if c < 0x800 then [(0xC0 + c / 0x40) as byte, (0x80 + c % 0x40) as byte]
    else if c < 0x1_0000 then
      [(0xE0 + c / 0x1000) as byte, (0x80 + c / 0x40 % 0x40) as byte, (0x80 + c % 0x40) as byte]
    else
      [(0xF0 + c / 0x4_0000) as byte, (0x80 + c / 0x1000 % 0x40) as byte, (0x80 + c / 0x40 % 0x40) as byte,
       (0x80 + c % 0x40) as byte]
  }

  /** Every code point but a surrogate is a character. */
  lemma CodePointRead(c: nat, r: seq<byte>)
    requires c <= 0x10FFFF && !(0xD800 <= c <= 0xDFFF)
    ensures CharLen(CodePoint(c) + r) == |CodePoint(c)|
  {
    if c < 0x80 {
    } else if c < 0x800 {
      SecondRead(CodePoint(c) + r, 2);
    } else if c < 0x1_0000 {
      SecondRead(CodePoint(c) + r, 3);
    } else {
      SecondRead(CodePoint(c) + r, 4);
    }
  }

  lemma SecondRead(s: seq<byte>, n: nat)
    requires 2 <= n <= 4 && |s| >= n && Width(s[0]) == n && IsSecond(s[0], s[1])
    requires forall i :: 2 <= i < n ==> IsTail(s[i])
    ensures CharLen(s) == n
  {
  }

  /** And there is no other. */
  lemma CharIsCodePoint(s: seq<byte>) returns (c: nat)
    requires s != [] && CharLen(s) > 0
    ensures c <= 0x10FFFF && !(0xD800 <= c <= 0xDFFF) && s[..CharLen(s)] == CodePoint(c)
  {
    if s[0] < 0x80 {
      c := s[0] as nat;
    } else if s[0] < 0xE0 {
      c := TwoBytes(s[0], s[1]);
      assert s[..2] == [s[0], s[1]];
    } else if s[0] < 0xF0 {
      c := ThreeBytes(s[0], s[1], s[2]);
      assert s[..3] == [s[0], s[1], s[2]];
    } else {
      c := FourBytes(s[0], s[1], s[2], s[3]);
      assert s[..4] == [s[0], s[1], s[2], s[3]];
    }
  }

  lemma TwoBytes(a: byte, b: byte) returns (c: nat)
    requires 0xC2 <= a <= 0xDF && IsTail(b)
    ensures 0x80 <= c < 0x800 && CodePoint(c) == [a, b]
  {
    c := (a - 0xC0) as nat * 0x40 + (b - 0x80) as nat;
  }

  lemma ThreeBytes(a: byte, b: byte, d: byte) returns (c: nat)
    requires 0xE0 <= a <= 0xEF && IsSecond(a, b) && IsTail(d)
    ensures 0x800 <= c < 0x1_0000 && !(0xD800 <= c <= 0xDFFF) && CodePoint(c) == [a, b, d]
  {
    var low := (b - 0x80) as nat * 0x40 + (d - 0x80) as nat;
    c := (a - 0xE0) as nat * 0x1000 + low;
    assert c / 0x1000 == (a - 0xE0) as nat && c % 0x1000 == low;
    assert c / 0x40 == (a - 0xE0) as nat * 0x40 + (b - 0x80) as nat;
  }

  lemma FourBytes(a: byte, b: byte, d: byte, e: byte) returns (c: nat)
    requires 0xF0 <= a <= 0xF4 && IsSecond(a, b) && IsTail(d) && IsTail(e)
    ensures 0x1_0000 <= c <= 0x10FFFF && CodePoint(c) == [a, b, d, e]
  {
    var x, y, z := (b - 0x80) as nat, (d - 0x80) as nat, (e - 0x80) as nat;
    c := (a - 0xF0) as nat * 0x4_0000 + x * 0x1000 + y * 0x40 + z;
    assert c / 0x40 == (a - 0xF0) as nat * 0x1000 + x * 0x40 + y;
    assert c / 0x1000 == (a - 0xF0) as nat * 0x40 + x;
    assert c / 0x4_0000 == (a - 0xF0) as nat;
  }

  predicate Utf8(s: seq<byte>) {
    s == [] || (CharLen(s) > 0 && Utf8(s[CharLen(s)..]))
  }

  /** A string: well-formed bytes. */
  type Str = s: seq<byte> | Utf8(s)

  lemma {:induction false} AsciiIsUtf8(s: seq<byte>)
    requires forall i :: 0 <= i < |s| ==> s[i] < 0x80
    ensures Utf8(s)
  {
    if s != [] { AsciiIsUtf8(s[1..]); }
  }

  /** U+FFFD */
  const REPLACEMENT: seq<byte> := [0xEF, 0xBF, 0xBD]

  /** `String::from_utf8_lossy`: each longest start of a character that breaks off, and each
      byte that starts none, becomes U+FFFD. */
  function Lossy(s: seq<byte>): (t: seq<byte>) {
    if s == [] then []
    else if CharLen(s) > 0 then s[..CharLen(s)] + Lossy(s[CharLen(s)..])
    else REPLACEMENT + Lossy(s[if Fits(s) == 0 then 1 else Fits(s)..])
  }

  /** A byte that starts no character becomes U+FFFD by itself, a character is kept, and a
      character broken off by the end becomes one U+FFFD. */
  lemma RepairByByte(b: byte, c: nat, r: seq<byte>)
    requires c <= 0x10FFFF && !(0xD800 <= c <= 0xDFFF)
    ensures 0x80 <= b <= 0xC1 || 0xF5 <= b ==> Lossy([b] + r) == [0xEF, 0xBF, 0xBD] + Lossy(r)
    ensures Lossy(CodePoint(c) + r) == CodePoint(c) + Lossy(r)
    ensures forall k :: 0 < k < |CodePoint(c)| ==> Lossy(CodePoint(c)[..k]) == [0xEF, 0xBF, 0xBD]
  {
    assert ([b] + r)[1..] == r;
    CodePointRead(c, r);
    var whole := CodePoint(c) + r;
    assert whole[..|CodePoint(c)|] == CodePoint(c) && whole[|CodePoint(c)|..] == r;
    CodePointRead(c, []);
    assert CodePoint(c) + [] == CodePoint(c);
    forall k | 0 < k < |CodePoint(c)| ensures Lossy(CodePoint(c)[..k]) == [0xEF, 0xBF, 0xBD] {
      CharBegun(CodePoint(c), k);
      BrokenOff(CodePoint(c)[..k]);
    }
  }

  lemma BrokenOff(s: seq<byte>)
    requires s != [] && Fits(s) == |s| && CharLen(s) == 0
    ensures Lossy(s) == [0xEF, 0xBF, 0xBD]
  {
    assert s[|s|..] == [];
  }

  lemma CharFront(c: seq<byte>, r: seq<byte>)
    requires c != [] && CharLen(c) == |c|
    ensures CharLen(c + r) == |c| && (c + r)[|c|..] == r
    ensures Utf8(r) ==> Utf8(c + r)
  {
    assert (c + r)[0] == c[0];
    assert forall i :: 0 <= i < |c| ==> (c + r)[i] == c[i];
    assert (c + r)[|c|..] == r;
  }

  lemma FrontChar(s: seq<byte>, k: nat)
    requires s != [] && 0 < CharLen(s) <= k <= |s|
    ensures CharLen(s[..k]) == CharLen(s) && s[..k][CharLen(s)..] == s[CharLen(s)..][..k - CharLen(s)]
  {
    assert forall i :: 0 <= i < k ==> s[..k][i] == s[i];
  }

  /** The repaired bytes are well formed. */
  lemma {:induction false} LossyIsUtf8(s: seq<byte>)
    ensures Utf8(Lossy(s))
  {
    if s != [] {
      if CharLen(s) > 0 {
        var n := CharLen(s);
        LossyIsUtf8(s[n..]);
        FrontChar(s, n);
        CharFront(s[..n], Lossy(s[n..]));
      } else {
        var n := if Fits(s) == 0 then 1 else Fits(s);
        LossyIsUtf8(s[n..]);
        CharFront(REPLACEMENT, Lossy(s[n..]));
      }
    }
  }

  /** Repair changes nothing exactly if there is nothing to repair. */
  lemma {:induction false} LossyExact(s: seq<byte>)
    ensures Lossy(s) == s <==> Utf8(s)
  {
    if Utf8(s) {
      LossyKeeps(s);
    } else {
      LossyIsUtf8(s);
    }
  }

  lemma {:induction false} LossyKeeps(s: seq<byte>)
    requires Utf8(s)
    ensures Lossy(s) == s
  {
    if s != [] {
      LossyKeeps(s[CharLen(s)..]);
      assert s == s[..CharLen(s)] + s[CharLen(s)..];
    }
  }

  /** Text cut short grows by two bytes at most when it is repaired: only its last character
      can have been broken. */
  lemma {:induction false} LossyOfCut(s: seq<byte>, k: nat)
    requires Utf8(s) && k <= |s|
    ensures |Lossy(s[..k])| <= k + 2
    decreases k
  {
    if k > 0 {
      var n := CharLen(s);
      if n <= k {
        FrontChar(s, k);
        LossyOfCut(s[n..], k - n);
      } else {
        BrokenChar(s, k);
      }
    }
  }

  lemma BrokenChar(s: seq<byte>, k: nat)
    requires s != [] && 0 < k < CharLen(s)
    ensures |Lossy(s[..k])| == 3
  {
    CharBegun(s, k);
    assert s[..k][k..] == [];
  }

  // ---------------------------------------------------------------- text that has begun

  /** These bytes can still become text of at most `room` bytes. */
  predicate Begins(x: seq<byte>, room: nat) {
    x == [] ||
    if CharLen(x) > 0 then CharLen(x) <= room && Begins(x[CharLen(x)..], room - CharLen(x))
    else Fits(x) == |x| && Width(x[0]) <= room
  }

  lemma {:induction false} BeginsText(x: seq<byte>, y: seq<byte>, room: nat)
    requires Utf8(x + y) && |x + y| <= room
    ensures Begins(x, room)
  {
    if x != [] {
      var s := x + y;
      var n := CharLen(s);
      assert s[..|x|] == x;
      if n <= |x| {
        FrontChar(s, |x|);
        assert s[n..] == x[n..] + y;
        BeginsText(x[n..], y, room - n);
      } else {
        CharBegun(s, |x|);
      }
    }
  }

  lemma CharBegun(s: seq<byte>, k: nat)
    requires s != [] && 0 < k < CharLen(s)
    ensures Fits(s[..k]) == k && CharLen(s[..k]) == 0 && Width(s[..k][0]) == CharLen(s)
  {
    assert forall i :: 0 <= i < k ==> s[..k][i] == s[i];
  }

  /** A second byte that may follow `b`. */
  function SecondOf(b: byte): (c: byte)
    requires Width(b) >= 2
    ensures IsSecond(b, c) && c != 0
  {
    if b == 0xE0 then 0xA0 else if b == 0xF0 then 0x90 else 0x80
  }

  /** The bytes a broken-off character lacks. */
  function Missing(x: seq<byte>): (y: seq<byte>)
    requires x != [] && Fits(x) == |x|
    ensures |x + y| == Width(x[0]) && 0 !in y
  {
    var w := Width(x[0]);
    if |x| == 1 && w > 1 then [SecondOf(x[0])] + seq(w - 2, _ => 0x80) else seq(w - |x|, _ => 0x80)
  }

  lemma MissingFits(x: seq<byte>)
    requires x != [] && Fits(x) == |x|
    ensures CharLen(x + Missing(x)) == |x + Missing(x)|
  {
    var s := x + Missing(x);
    assert forall i :: 0 <= i < |x| ==> s[i] == x[i];
    assert forall i :: |x| <= i < |s| && i >= 2 ==> s[i] == 0x80;
    assert |x| == 1 && |s| > 1 ==> s[1] == SecondOf(x[0]);
  }

  lemma {:induction false} Finish(x: seq<byte>, room: nat) returns (y: seq<byte>)
    requires Begins(x, room)
    ensures |x + y| <= room && Utf8(x + y) && 0 !in y
  {
    if x == [] {
      y := [];
    } else if CharLen(x) > 0 {
      y := Finish(x[CharLen(x)..], room - CharLen(x));
      CharAhead(x, y);
    } else {
      y := Missing(x);
      LastChar(x);
    }
  }

  lemma CharAhead(x: seq<byte>, y: seq<byte>)
    requires x != [] && CharLen(x) > 0 && Utf8(x[CharLen(x)..] + y)
    ensures Utf8(x + y)
  {
    var n := CharLen(x);
    var c, rest := x[..n], x[n..] + y;
    FrontChar(x, n);
    CharFront(c, rest);
    assert c + rest == x + y by { assert x == c + x[n..]; }
  }

  lemma LastChar(x: seq<byte>)
    requires x != [] && Fits(x) == |x|
    ensures Utf8(x + Missing(x))
  {
    var s := x + Missing(x);
    MissingFits(x);
    assert s[|s|..] == [];
  }
}
