/** The loops of the Base58 codec, proved against `Base58.Decode` and `Base58.Encode`. */
module Base58Codec {
  import opened Bytes
  import opened Positional
  import opened Base58

  /** One multiply-and-add over the whole buffer, last byte first. When the new value fits
      the buffer nothing is carried out of the top byte. */
  method MultiplyAdd(result: array<byte>, digit: byte) returns (carry: nat)
    requires digit < 58
    requires 58 * Val(256, result[..]) + digit as nat < Pow(256, result.Length)
    modifies result
    ensures carry == 0
    ensures Val(256, result[..]) == 58 * Val(256, old(result[..])) + digit as nat
  {
    ghost var was := result[..];
    var n, j := result.Length, result.Length;
    carry := digit as nat;
    assert result[..j] == was;
    ValOne(256, digit);
    assert [digit] + result[j..] == [digit];
    while j > 0
      invariant 0 <= j <= n && carry < 58
      invariant result[..j] == was[..j]
      invariant Val(256, [carry as byte] + result[j..]) == 58 * Val(256, was[j..]) + digit as nat
    {
      j := j - 1;
      ghost var low, c := result[j + 1..], carry;
      assert result[j] == result[..j + 1][j] == was[j];
      var num := result[j] as nat * 58 + carry;
      result[j] := (num % 256) as byte;
      carry := num / 256;
      assert result[j..] == [(num % 256) as byte] + low;
      assert was[j..] == [was[j]] + was[j + 1..];
      CarryStep(low, was[j + 1..], was[j], c as byte, digit as nat, carry as byte, (num % 256) as byte);
    }
    assert result[0..] == result[..] && was[0..] == was;
    TopDigit(carry as byte, result[..]);
  }

  /** A value that fits in the bytes below has nothing above them. */
  lemma TopDigit(c: byte, low: seq<byte>)
    requires Val(256, [c] + low) < Pow(256, |low|)
    ensures c == 0 && Val(256, [c] + low) == Val(256, low)
  {
    ValLead(256, c, low);
    TopArithmetic(c as nat, Pow(256, |low|), Val(256, low));
  }

  lemma TopArithmetic(c: nat, p: nat, v: nat)
    requires c * p + v < p
    ensures c == 0 && c * p + v == v
  {
    if c > 0 { MulAtLeast(c, p); }
  }

  lemma CarryStep(low: seq<byte>, was: seq<byte>, d: byte, carry: byte, digit: nat, q: byte, m: byte)
    requires |low| == |was|
    requires Val(256, [carry] + low) == 58 * Val(256, was) + digit
    requires q as nat * 256 + m as nat == d as nat * 58 + carry as nat
    ensures Val(256, [q] + ([m] + low)) == 58 * Val(256, [d] + was) + digit
  {
    var n := |low|;
    ValLead(256, carry, low);
    ValLead(256, d, was);
    ValLead(256, m, low);
    ValLead(256, q, [m] + low);
    CarryArithmetic(q as nat, m as nat, d as nat, carry as nat, Pow(256, n), Pow(256, n + 1), Val(256, low),
      Val(256, was), digit);
  }

  lemma CarryArithmetic(q: nat, m: nat, d: nat, carry: nat, p: nat, p': nat, low: nat, was: nat, digit: nat)
    requires q * 256 + m == d * 58 + carry && p' == 256 * p
    requires carry * p + low == 58 * was + digit
    ensures q * p' + (m * p + low) == 58 * (d * p + was) + digit
  {
    assert q * p' == (q * 256) * p;
    assert (q * 256) * p + m * p == (q * 256 + m) * p;
    assert (d * 58 + carry) * p == (d * 58) * p + carry * p;
    assert (d * 58) * p == 58 * (d * p);
  }

  method DecodeBase58(s: seq<byte>) returns (r: Option<seq<byte>>)
    ensures |ALPHABET| == 58 && r == Decode(ALPHABET, s)
  {
    AlphabetIsAlphabet();
    r := DecodeOver(ALPHABET, s);
  }

  method DecodeOver(alphabet: seq<byte>, s: seq<byte>) returns (r: Option<seq<byte>>)
    requires IsAlphabet(alphabet) && alphabet[0] == ONE
    ensures r == Decode(alphabet, s)
  {
    var result := new byte[|s| * 733 / 1000 + 1](_ => 0);
    assert result[..] == Zeros(result.Length);
    var leadingZeros :- FillBuffer(alphabet, s, result);
    var start := FirstNonZero(result);
    Assemble(alphabet, s, leadingZeros, result[..], start);
    assert result[..][start..] == result[start..];
    r := Some(Zeros(leadingZeros) + result[start..]);
  }

  /** The character loop: counts the leading ones and feeds every other digit to the buffer. */
  method FillBuffer(alphabet: seq<byte>, s: seq<byte>, result: array<byte>) returns (ones: Option<nat>)
    requires IsAlphabet(alphabet) && alphabet[0] == ONE
    requires result.Length == |s| * 733 / 1000 + 1 && result[..] == Zeros(result.Length)
    modifies result
    ensures ones.Some? <==> Over(alphabet, s)
    ensures ones.Some? ==> Val(256, result[..]) == ValueOf(alphabet, s)
    ensures ones.Some? ==> exists done :: CountingOnes(s, |s|, ones.value, done)
  {
    var leadingZeros, zerosDone := 0, false;
    ValZeros(256, result.Length);
    assert Val(256, result[..]) == ValueOf(alphabet, s[..0]);
    for k := 0 to |s|
      invariant CountingOnes(s, k, leadingZeros, zerosDone)
      invariant Over(alphabet, s[..k]) && Val(256, result[..]) == ValueOf(alphabet, s[..k])
    {
      var ch := s[k];
      if ch == ONE && !zerosDone {
        LeadingOne(alphabet, s, k);
        leadingZeros := leadingZeros + 1;
        continue;
      }
      zerosDone := true;
      var p := Position(alphabet, ch);
      if p.None? {
        return None;
      }
      NextDigit(alphabet, s, k, p.value as byte);
      ValueFits(alphabet, s[..k + 1], |s|);
      var carry := MultiplyAdd(result, p.value as byte);
    }
    assert s[..|s|] == s;
    return Some(leadingZeros);
  }

  ghost function ValueOf(al: seq<byte>, s: seq<byte>): nat
    requires |al| == 58 && Over(al, s)
  {
    Val(58, DigitsOf(al, s))
  }

  /** The leading ones of the first `k` characters have been counted, and whether they are over. */
  ghost predicate CountingOnes(s: seq<byte>, k: nat, z: nat, done: bool) {
    && z <= k <= |s|
    && (forall i :: 0 <= i < z ==> s[i] == ONE)
    && if done then z < k && s[z] != ONE else z == k
  }

  lemma Assemble(al: seq<byte>, s: seq<byte>, z: nat, buffer: seq<byte>, start: nat)
    requires IsAlphabet(al) && al[0] == ONE
    requires Over(al, s) && exists done :: CountingOnes(s, |s|, z, done)
    requires Val(256, buffer) == ValueOf(al, s)
    requires start <= |buffer| && buffer[..start] == Zeros(start) && (start < |buffer| ==> buffer[start] != 0)
    ensures Zeros(z) + buffer[start..] == Convert(58, 256, DigitsOf(al, s))
  {
    LeadingOnes(al, s, z);
    Stripped(buffer, start);
  }

  lemma Stripped(buffer: seq<byte>, start: nat)
    requires start <= |buffer| && buffer[..start] == Zeros(start) && (start < |buffer| ==> buffer[start] != 0)
    ensures buffer[start..] == Digits(256, Val(256, buffer))
  {
    assert buffer == Zeros(start) + buffer[start..];
    ValStrip(256, start, buffer[start..]);
    ValDigits(256, buffer[start..]);
  }

  lemma NextDigit(al: seq<byte>, s: seq<byte>, k: nat, d: byte)
    requires IsAlphabet(al) && k < |s| && Over(al, s[..k]) && d < 58 && s[k] == al[d]
    ensures Over(al, s[..k + 1])
    ensures ValueOf(al, s[..k + 1]) == 58 * ValueOf(al, s[..k]) + d as nat
  {
    var t := s[..k];
    assert s[..k + 1] == t + [al[d]];
    SnocDigit(al, t, d);
  }

  lemma SnocDigit(al: seq<byte>, s: seq<byte>, d: byte)
    requires IsAlphabet(al) && Over(al, s) && d < 58
    ensures Over(al, s + [al[d]])
    ensures ValueOf(al, s + [al[d]]) == 58 * ValueOf(al, s) + d as nat
  {
    DigitOfChar(al, d);
    assert DigitsOf(al, s + [al[d]]) == DigitsOf(al, s) + [d];
    ValSnoc(58, DigitsOf(al, s), d);
  }

  /** The fixed buffer holds the value of any string of at most `len` characters. */
  lemma ValueFits(al: seq<byte>, s: seq<byte>, len: nat)
    requires |al| == 58 && Over(al, s) && |s| <= len
    ensures ValueOf(al, s) < Pow(256, len * 733 / 1000 + 1)
  {
    var digits := DigitsOf(al, s);
    ValBound(58, digits);
    PowMono(58, |digits|, len);
    BufferSuffices(len);
  }

  lemma LeadingOne(al: seq<byte>, s: seq<byte>, k: nat)
    requires IsAlphabet(al) && al[0] == ONE
    requires k < |s| && forall i :: 0 <= i <= k ==> s[i] == ONE
    ensures Over(al, s[..k]) && Over(al, s[..k + 1])
    ensures ValueOf(al, s[..k]) == ValueOf(al, s[..k + 1]) == 0
  {
    DigitOfChar(al, 0);
    assert DigitsOf(al, s[..k]) == Zeros(k);
    assert DigitsOf(al, s[..k + 1]) == Zeros(k + 1);
    ValZeros(58, k);
    ValZeros(58, k + 1);
  }

  lemma LeadingOnes(al: seq<byte>, s: seq<byte>, z: nat)
    requires IsAlphabet(al) && al[0] == ONE
    requires Over(al, s) && z <= |s|
    requires forall i :: 0 <= i < z ==> s[i] == ONE
    requires z < |s| ==> s[z] != ONE
    ensures LeadingZeros(DigitsOf(al, s)) == z
  {
    var ds := DigitsOf(al, s);
    forall i | 0 <= i < |s| ensures ds[i] == 0 <==> s[i] == ONE {
      DigitOfChar(al, ds[i]);
    }
    assert ds == Zeros(z) + ds[z..];
    LeadingZerosOf(z, ds[z..]);
  }

  /** `position(|&x| x != 0).unwrap_or(len)` */
  method FirstNonZero(a: array<byte>) returns (start: nat)
    ensures start <= a.Length && a[..start] == Zeros(start)
    ensures start < a.Length ==> a[start] != 0
  {
    start := 0;
    while start < a.Length && a[start] == 0
      invariant start <= a.Length && a[..start] == Zeros(start)
    {
      start := start + 1;
    }
  }

  /** One pass of long division by 58. */
  method DivideBy58(payload: seq<byte>) returns (quotient: seq<byte>, rem: nat)
    ensures quotient == Digits(256, Val(256, payload) / 58)
    ensures rem == Val(256, payload) % 58
  {
    rem := 0;
    quotient := [];
    for k := 0 to |payload|
      invariant rem < 58
      invariant Positional.Minimal(quotient)
      invariant Val(256, payload[..k]) == Val(256, quotient) * 58 + rem
    {
      assert payload[..k + 1] == payload[..k] + [payload[k]];
      ValSnoc(256, payload[..k], payload[k]);
      var acc := rem * 256 + payload[k] as nat;
      var quo := acc / 58;
      ValSnoc(256, quotient, quo as byte);
      rem := acc % 58;
      if quotient != [] || quo != 0 {
        quotient := quotient + [quo as byte];
      }
    }
    assert payload[..|payload|] == payload;
    DivMod(Val(256, quotient), 58, rem);
    ValDigits(256, quotient);
  }

  method EncodeBase58(data: seq<byte>) returns (s: seq<byte>)
    ensures |ALPHABET| == 58 && s == Encode(ALPHABET, data)
  {
    AlphabetIsAlphabet();
    s := EncodeOver(ALPHABET, data);
  }

  method EncodeOver(alphabet: seq<byte>, data: seq<byte>) returns (s: seq<byte>)
    requires |alphabet| == 58
    ensures s == Encode(alphabet, data)
  {
    var zeros := CountZeros(data);
    var result: seq<byte> := [];
    var payload := data;
    while payload != []
      invariant result + EmittedChars(alphabet, payload) == EmittedChars(alphabet, data)
      decreases Val(256, payload), |payload|
    {
      var quotient, rem := DivideBy58(payload);
      EmittedStep(payload);
      assert result + [alphabet[rem]] + EmittedChars(alphabet, quotient) == EmittedChars(alphabet, data);
      result := result + [alphabet[rem]];
      payload := quotient;
    }
    assert result == EmittedChars(alphabet, data);
    for i := 0 to zeros
      invariant result == EmittedChars(alphabet, data) + seq(i, _ => alphabet[0])
    {
      result := result + [alphabet[0]];
    }
    EmittedReversed(alphabet, data, zeros);
    s := Reverse(result);
  }

  method CountZeros(data: seq<byte>) returns (zeros: nat)
    ensures zeros == LeadingZeros(data)
  {
    zeros := 0;
    while zeros < |data| && data[zeros] == 0
      invariant zeros <= |data| && data[..zeros] == Zeros(zeros)
    {
      zeros := zeros + 1;
    }
    assert data == Zeros(zeros) + data[zeros..];
    LeadingZerosOf(zeros, data[zeros..]);
  }

  /** The payload after one division pass. */
  function Quotient(payload: seq<byte>): seq<byte> {
    Digits(256, Val(256, payload) / 58)
  }

  /** A pass makes the payload smaller or, from a payload of value zero, shorter, and takes
      off the last digit still to be emitted. */
  lemma EmittedStep(payload: seq<byte>)
    requires payload != []
    ensures Val(256, Quotient(payload)) < Val(256, payload)
            || (Val(256, Quotient(payload)) == Val(256, payload) && Quotient(payload) == [])
    ensures EmittedDigits(payload) == EmittedDigits(Quotient(payload)) + [(Val(256, payload) % 58) as byte]
  {
    DigitsVal(256, Val(256, payload) / 58);
  }

  /** The characters in the order the loop pushes them. */
  ghost function EmittedChars(al: seq<byte>, payload: seq<byte>): seq<byte>
    requires |al| == 58
    decreases Val(256, payload), |payload|
  {
    if payload == [] then []
    else
      EmittedStep(payload);
      [al[Val(256, payload) % 58]] + EmittedChars(al, Quotient(payload))
  }

  lemma {:induction false} EmittedInReverse(al: seq<byte>, payload: seq<byte>)
    requires |al| == 58
    ensures EmittedChars(al, payload) == Reverse(CharsOf(al, EmittedDigits(payload)))
    decreases Val(256, payload), |payload|
  {
    if payload != [] {
      EmittedStep(payload);
      EmittedInReverse(al, Quotient(payload));
      CharsReversed(al, EmittedDigits(Quotient(payload)), (Val(256, payload) % 58) as byte);
    }
  }

  lemma CharsReversed(al: seq<byte>, ds: seq<byte>, d: byte)
    requires |al| == 58 && AreDigits(58, ds) && d < 58
    ensures AreDigits(58, ds + [d])
    ensures Reverse(CharsOf(al, ds + [d])) == [al[d]] + Reverse(CharsOf(al, ds))
  {
    assert CharsOf(al, ds + [d]) == CharsOf(al, ds) + [al[d]];
    ReverseSnoc(CharsOf(al, ds), al[d]);
  }

  lemma ReverseSnoc(s: seq<byte>, c: byte)
    ensures Reverse(s + [c]) == [c] + Reverse(s)
  {
  }

  lemma EmittedReversed(al: seq<byte>, data: seq<byte>, zeros: nat)
    requires |al| == 58 && zeros == LeadingZeros(data)
    ensures Reverse(EmittedChars(al, data) + seq(zeros, _ => al[0])) == Encode(al, data)
  {
    EmittedInReverse(al, data);
    var digits, ones := EmittedDigits(data), seq(zeros, _ => al[0]);
    ReverseBack(CharsOf(al, digits), ones);
    CharsPadded(al, zeros, digits);
  }

  lemma ReverseBack(chars: seq<byte>, ones: seq<byte>)
    requires forall i, j :: 0 <= i < |ones| && 0 <= j < |ones| ==> ones[i] == ones[j]
    ensures Reverse(Reverse(chars) + ones) == ones + chars
  {
  }

  lemma CharsPadded(al: seq<byte>, zeros: nat, digits: seq<byte>)
    requires |al| == 58 && AreDigits(58, digits)
    ensures AreDigits(58, Zeros(zeros) + digits)
    ensures CharsOf(al, Zeros(zeros) + digits) == seq(zeros, _ => al[0]) + CharsOf(al, digits)
  {
  }
}
