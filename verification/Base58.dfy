/** Base58: the fixed-buffer decoder and the repeated-division encoder. */
module Base58 {
  import opened Bytes
  import opened Positional

  /** "123456789ABCDEFGHJKLMNPQRSTUVWXYZabcdefghijkmnopqrstuvwxyz" as ASCII. */
  const ALPHABET: seq<byte> := DIGITS + CAPITALS + SMALL
  const DIGITS: seq<byte> := [49, 50, 51, 52, 53, 54, 55, 56, 57]
  const CAPITALS: seq<byte> :=
    [65, 66, 67, 68, 69, 70, 71, 72]
    + [74, 75, 76, 77, 78]
    + [80, 81, 82, 83, 84, 85, 86, 87, 88, 89, 90]
  const SMALL: seq<byte> :=
    [97, 98, 99, 100, 101, 102, 103, 104, 105, 106, 107]
    + [109, 110, 111, 112, 113, 114, 115, 116, 117, 118, 119, 120, 121, 122]
  const ONE: byte := 49

  /** `alphabet.iter().position(|&c| c == ch)` */
  function Position(cs: seq<byte>, ch: byte): (p: Option<nat>)
    ensures p.Some? ==> p.value < |cs| && cs[p.value] == ch && ch !in cs[..p.value]
    ensures p.None? <==> ch !in cs
  {
    if cs == [] then None
    else if cs[0] == ch then Some(0)
    else
      match Position(cs[1..], ch)
      case None => None
      case Some(i) =>
        assert cs[..i + 1] == [cs[0]] + cs[1..][..i];
        Some(i + 1)
  }

  /** Fifty-eight characters in ascending order: no character stands for two digits. */
  ghost predicate IsAlphabet(al: seq<byte>) {
    |al| == 58 && forall i, j :: 0 <= i < j < 58 ==> al[i] < al[j]
  }

  lemma AlphabetAscending(i: nat)
    requires i < 57
    ensures |ALPHABET| == 58 && ALPHABET[i] < ALPHABET[i + 1]
  {
  }

  /** Each character is greater than the one before it. */
  ghost predicate Climbs(al: seq<byte>) {
    |al| == 58 && forall i, j :: 0 <= i < 57 && j == i + 1 ==> al[i] < al[j]
  }

  lemma {:induction false} Sorted(al: seq<byte>, i: nat, j: nat)
    requires Climbs(al) && i < j < 58
    ensures al[i] < al[j]
    decreases j - i
  {
    if i + 1 < j { Sorted(al, i + 1, j); }
  }

  lemma AscendingIsAlphabet(al: seq<byte>)
    requires Climbs(al)
    ensures IsAlphabet(al)
  {
    forall i, j | 0 <= i < j < 58 ensures al[i] < al[j] {
      Sorted(al, i, j);
    }
  }

  lemma AlphabetIsAlphabet()
    ensures IsAlphabet(ALPHABET) && ALPHABET[0] == ONE
  {
    forall i, j | 0 <= i < 57 && j == i + 1 ensures |ALPHABET| == 58 && ALPHABET[i] < ALPHABET[j] {
      AlphabetAscending(i);
    }
    AscendingIsAlphabet(ALPHABET);
  }

  /** The digits and letters of ASCII without 0, I, O and l; with `AlphabetIsAlphabet`, in
      ascending order. */
  lemma AlphabetMembers(c: byte)
    ensures c in ALPHABET <==>
      && ('1' <= c as char <= '9' || 'A' <= c as char <= 'Z' || 'a' <= c as char <= 'z')
      && c as char != 'I' && c as char != 'O' && c as char != 'l'
  {
    assert c in ALPHABET <==> c in DIGITS || c in CAPITALS || c in SMALL;
  }

  predicate Over(al: seq<byte>, s: seq<byte>) {
    forall i :: 0 <= i < |s| ==> s[i] in al
  }

  /** The place of a character in the alphabet. */
  ghost function DigitOf(al: seq<byte>, ch: byte): (d: byte)
    requires |al| == 58 && ch in al
    ensures d < 58 && al[d] == ch
  {
    var i :| 0 <= i < |al| && al[i] == ch;
    i as byte
  }

  lemma DigitOfChar(al: seq<byte>, d: byte)
    requires IsAlphabet(al) && d < 58
    ensures al[d] in al && DigitOf(al, al[d]) == d
    ensures al[d] == al[0] <==> d == 0
  {
    assert al[DigitOf(al, al[d])] == al[d];
  }

  // ---------------------------------------------------------------- reference definitions

  /** Change of base with one leading zero digit kept for each leading zero digit read. */
  function Convert(b: Base, c: Base, ds: seq<byte>): (es: seq<byte>)
    ensures AreDigits(c, es)
  {
    Zeros(LeadingZeros(ds)) + Digits(c, Val(b, ds))
  }

  ghost function DigitsOf(al: seq<byte>, s: seq<byte>): (ds: seq<byte>)
    requires |al| == 58 && Over(al, s)
    ensures AreDigits(58, ds) && |ds| == |s|
  {
    seq(|s|, i requires 0 <= i < |s| => DigitOf(al, s[i]))
  }

  function CharsOf(al: seq<byte>, ds: seq<byte>): (s: seq<byte>)
    requires |al| == 58 && AreDigits(58, ds)
    ensures |s| == |ds|
  {
    seq(|ds|, i requires 0 <= i < |ds| => al[ds[i]])
  }

  /** Section 4 of draft-msporny-base58: decoding. */
  ghost function Decode(al: seq<byte>, s: seq<byte>): Option<seq<byte>>
    requires |al| == 58
  {
    if Over(al, s) then Some(Convert(58, 256, DigitsOf(al, s))) else None
  }

  /** Section 3 of draft-msporny-base58: encoding. */
  function StandardEncode(al: seq<byte>, data: seq<byte>): seq<byte>
    requires |al| == 58
  {
    CharsOf(al, Convert(256, 58, data))
  }

  /** The digits the division loop emits: like `Digits`, but one zero for the value zero. */
  function EmittedDigits(payload: seq<byte>): (ds: seq<byte>)
    ensures AreDigits(58, ds)
  {
    if payload != [] && Val(256, payload) == 0 then [0] else Digits(58, Val(256, payload))
  }

  function Encode(al: seq<byte>, data: seq<byte>): seq<byte>
    requires |al| == 58
  {
    CharsOf(al, Zeros(LeadingZeros(data)) + EmittedDigits(data))
  }

  /** One or more bytes, all zero: what the encoder does not treat as the standard does. */
  ghost predicate AllZero(data: seq<byte>) {
    data != [] && data == Zeros(|data|)
  }

  // ---------------------------------------------------------------- laws

  lemma CharsDigits(al: seq<byte>, ds: seq<byte>)
    requires IsAlphabet(al) && AreDigits(58, ds)
    ensures Over(al, CharsOf(al, ds)) && DigitsOf(al, CharsOf(al, ds)) == ds
  {
    var s := CharsOf(al, ds);
    forall i | 0 <= i < |ds| ensures s[i] in al && DigitOf(al, s[i]) == ds[i] {
      DigitOfChar(al, ds[i]);
    }
  }

  lemma ConvertInverse(b: Base, c: Base, ds: seq<byte>)
    requires AreDigits(b, ds)
    ensures Convert(c, b, Convert(b, c, ds)) == ds
  {
    var z, v := LeadingZeros(ds), Val(b, ds);
    LeadingZerosOf(z, Digits(c, v));
    ValStrip(c, z, Digits(c, v));
    DigitsVal(c, v);
    Decompose(b, ds);
  }

  /** Decoding and the standard encoding are inverse bijections between all byte strings
      and all strings over the alphabet. */
  lemma StandardInverse(al: seq<byte>, data: seq<byte>, s: seq<byte>)
    requires IsAlphabet(al)
    ensures Decode(al, StandardEncode(al, data)) == Some(data)
    ensures Decode(al, s).Some? <==> Over(al, s)
    ensures Decode(al, s).Some? ==> StandardEncode(al, Decode(al, s).value) == s
  {
    CharsDigits(al, Convert(256, 58, data));
    ConvertInverse(256, 58, data);
    if Over(al, s) {
      ConvertInverse(58, 256, DigitsOf(al, s));
      assert CharsOf(al, DigitsOf(al, s)) == s;
    }
  }

  /** Decoding a character at a time: the last counts for its place in the alphabet, and what
      stands before it for 58 times as much. */
  lemma DecodeByPlaces(al: seq<byte>, s: seq<byte>, k: nat)
    requires IsAlphabet(al) && Over(al, s) && k < 58
    ensures Over(al, s + [al[k]])
    ensures Val(256, Decode(al, s + [al[k]]).value) == 58 * Val(256, Decode(al, s).value) + k
  {
    DigitsSnoc(al, s, k as byte);
    ConvertValue(58, 256, DigitsOf(al, s));
    ConvertValue(58, 256, DigitsOf(al, s + [al[k]]));
    ValSnoc(58, DigitsOf(al, s), k as byte);
  }

  /** A first character of place zero gives one zero byte, any other no leading zero byte, and
      the empty string no byte. */
  lemma DecodeLead(al: seq<byte>, s: seq<byte>, k: nat)
    requires IsAlphabet(al) && Over(al, s) && 0 < k < 58
    ensures Decode(al, []) == Some([]) && Decode(al, [al[0]] + s) == Some([0] + Decode(al, s).value)
    ensures Over(al, [al[k]] + s)
    ensures var d := Decode(al, [al[k]] + s).value; d != [] && d[0] != 0
  {
    DecodeNothing(al);
    DigitsCons(al, s, 0);
    ConvertLead(58, 256, DigitsOf(al, s));
    DigitsCons(al, s, k as byte);
    NoZeroLead(58, 256, k as byte, DigitsOf(al, s));
  }

  lemma DecodeNothing(al: seq<byte>)
    requires |al| == 58
    ensures Decode(al, []) == Some([])
  {
    assert DigitsOf(al, []) == [];
    assert Zeros(0) + Digits(256, 0) == [];
  }

  lemma DigitsSnoc(al: seq<byte>, s: seq<byte>, k: byte)
    requires IsAlphabet(al) && Over(al, s) && k < 58
    ensures Over(al, s + [al[k]]) && DigitsOf(al, s + [al[k]]) == DigitsOf(al, s) + [k]
  {
    DigitOfChar(al, k);
  }

  lemma DigitsCons(al: seq<byte>, s: seq<byte>, k: byte)
    requires IsAlphabet(al) && Over(al, s) && k < 58
    ensures Over(al, [al[k]] + s) && DigitsOf(al, [al[k]] + s) == [k] + DigitsOf(al, s)
  {
    DigitOfChar(al, k);
  }

  lemma NoZeroLead(b: Base, c: Base, d: byte, ds: seq<byte>)
    requires 0 < d as int < b
    ensures Convert(b, c, [d] + ds) != [] && Convert(b, c, [d] + ds)[0] != 0
  {
    ValLead(b, d, ds);
    MulAtLeast(d as nat, Pow(b, |ds|));
    assert Zeros(0) + Digits(c, Val(b, [d] + ds)) == Digits(c, Val(b, [d] + ds));
  }

  lemma ConvertValue(b: Base, c: Base, ds: seq<byte>)
    ensures Val(c, Convert(b, c, ds)) == Val(b, ds)
  {
    ValStrip(c, LeadingZeros(ds), Digits(c, Val(b, ds)));
    DigitsVal(c, Val(b, ds));
  }

  lemma ConvertLead(b: Base, c: Base, ds: seq<byte>)
    ensures Convert(b, c, [0] + ds) == [0] + Convert(b, c, ds)
  {
    assert ([0] + ds)[1..] == ds;
    ValLead(b, 0, ds);
    assert Zeros(1 + LeadingZeros(ds)) == [0] + Zeros(LeadingZeros(ds));
  }

  lemma ZeroValue(b: Base, ds: seq<byte>)
    requires AreDigits(b, ds)
    ensures Val(b, ds) == 0 <==> ds == Zeros(|ds|)
  {
    ValZeros(b, |ds|);
    Decompose(b, ds);
  }

  /** The encoder meets the standard except that a run of `n >= 1` zero bytes comes out as
      `n + 1` ones. */
  lemma EncodeVersusStandard(al: seq<byte>, data: seq<byte>)
    requires IsAlphabet(al)
    ensures Encode(al, data) == StandardEncode(al, data) <==> !AllZero(data)
    ensures AllZero(data) ==> Encode(al, data) == StandardEncode(al, Zeros(|data| + 1))
  {
    ZeroValue(256, data);
    if AllZero(data) {
      var n := |data|;
      LeadingZerosOf(n, []);
      LeadingZerosOf(n + 1, []);
      ValZeros(256, n + 1);
      assert Zeros(n) + [] == Zeros(n);
      assert Zeros(n + 1) + [] == Zeros(n + 1) == Zeros(n) + [0];
    }
  }

  /** Decoding undoes encoding exactly for the inputs that are empty or hold a non-zero
      byte; a run of zero bytes comes back one longer. */
  lemma DecodeEncode(al: seq<byte>, data: seq<byte>)
    requires IsAlphabet(al)
    ensures Decode(al, Encode(al, data)) == Some(data) <==> !AllZero(data)
    ensures AllZero(data) ==> Decode(al, Encode(al, data)) == Some(Zeros(|data| + 1))
  {
    EncodeVersusStandard(al, data);
    StandardInverse(al, data, []);
    StandardInverse(al, Zeros(|data| + 1), []);
  }

  /** Encoding undoes decoding exactly for the alphabet strings that are empty or hold a
      character other than the zero digit. */
  lemma EncodeDecode(al: seq<byte>, s: seq<byte>)
    requires IsAlphabet(al) && Over(al, s)
    ensures Encode(al, Decode(al, s).value) == s <==> s == [] || exists i :: 0 <= i < |s| && s[i] != al[0]
  {
    var d := Decode(al, s).value;
    StandardInverse(al, [], s);
    EncodeVersusStandard(al, d);
    AllOnes(al, s);
  }

  lemma AllOnes(al: seq<byte>, s: seq<byte>)
    requires IsAlphabet(al) && Over(al, s)
    ensures AllZero(Decode(al, s).value) <==> s != [] && forall i :: 0 <= i < |s| ==> s[i] == al[0]
  {
    var ds := DigitsOf(al, s);
    forall i | 0 <= i < |s| ensures ds[i] == 0 <==> s[i] == al[0] {
      DigitOfChar(al, ds[i]);
    }
    assert ds == Zeros(|ds|) <==> forall i :: 0 <= i < |s| ==> ds[i] == 0;
    ConvertZeros(58, 256, ds);
  }

  lemma ConvertZeros(b: Base, c: Base, ds: seq<byte>)
    requires AreDigits(b, ds)
    ensures AllZero(Convert(b, c, ds)) <==> AllZero(ds)
  {
    var z, es := LeadingZeros(ds), Convert(b, c, ds);
    ZeroValue(b, ds);
    ZeroValue(c, es);
    ValStrip(c, z, Digits(c, Val(b, ds)));
    DigitsVal(c, Val(b, ds));
    Decompose(b, ds);
  }

  /** No two byte strings have the same encoding. */
  lemma EncodeInjective(al: seq<byte>, x: seq<byte>, y: seq<byte>)
    requires IsAlphabet(al) && Encode(al, x) == Encode(al, y)
    ensures x == y
  {
    DecodeEncode(al, x);
    DecodeEncode(al, y);
    assert AllZero(Zeros(|x| + 1)) && AllZero(Zeros(|y| + 1));
  }

  // ---------------------------------------------------------------- the decoder's buffer

  lemma PowMono(b: nat, m: nat, n: nat)
    requires b >= 1 && m <= n
    ensures Pow(b, m) <= Pow(b, n)
  {
    PowAdd(b, m, n - m);
    FactorAtMost(Pow(b, m), Pow(b, n - m));
  }

  lemma FactorAtMost(x: nat, y: nat)
    requires y >= 1
    ensures x <= x * y
  {
    assert x * y == x * (y - 1) + x;
  }

  lemma {:induction false} PowProduct(b: nat, m: nat, n: nat)
    ensures Pow(Pow(b, m), n) == Pow(b, m * n)
    decreases n
  {
    if n > 0 {
      PowProduct(b, m, n - 1);
      assert m * n == m + m * (n - 1);
      PowAdd(b, m, m * (n - 1));
    } else {
      assert m * n == 0;
    }
  }

  /** Powers grow with their base. */
  lemma {:induction false} PowBase(x: nat, y: nat, n: nat)
    ensures x <= y ==> Pow(x, n) <= Pow(y, n)
    ensures x < y && n > 0 ==> Pow(x, n) < Pow(y, n)
  {
    if n > 0 && x <= y {
      PowBase(x, y, n - 1);
      ProductMono(x, y, Pow(x, n - 1), Pow(y, n - 1));
    }
  }

  lemma Pow71()
    ensures Pow(58, 71) <= Pow(256, 52)
  {
    assert Pow(58, 7) == 2207984167552;
    WidthValues();
    PowProduct(58, 7, 10);
    PowProduct(256, 4, 13);
    SevenDigitBlocks(2207984167552, TWO_32);
  }

  /** Seven base-58 digits in ten blocks, against four bytes in thirteen. */
  lemma SevenDigitBlocks(x: nat, y: nat)
    requires x == 2207984167552 && y == TWO_32
    ensures 58 * Pow(x, 10) <= Pow(y, 13)
  {
    PowAdd(x, 5, 5);
    PowAdd(y, 6, 6);
    assert Pow(x, 5) == x * (x * (x * (x * x)));
    assert Pow(y, 6) == y * (y * (y * (y * (y * y))));
    assert Pow(y, 13) == y * Pow(y, 12);
  }

  /** `len * 733 / 1000 + 1` bytes hold any number written with `len` base-58 digits. */
  lemma BufferSuffices(len: nat)
    ensures Pow(58, len) <= Pow(256, len * 733 / 1000 + 1)
  {
    var size := len * 733 / 1000 + 1;
    var x, y := Pow(58, len), Pow(256, size);
    PowProduct(58, len, 71);
    PowProduct(58, 71, len);
    PowProduct(256, 52, len);
    PowProduct(256, size, 71);
    Pow71();
    PowBase(Pow(58, 71), Pow(256, 52), len);
    assert 52 * len <= size * 71;
    PowMono(256, 52 * len, size * 71);
    if y < x { PowBase(y, x, 71); }
  }
}
