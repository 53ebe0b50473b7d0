/** Base58Check and the addresses of locking scripts. */
module Addresses {
  import opened Bytes
  import opened Base58
  import Positional
  import Base58Codec

  type Sha256 = seq<byte> -> Hash32

  /** Version byte, payload and the first four bytes of the double hash of both. */
  function Checked(sha256: Sha256, version: byte, payload: seq<byte>): (d: seq<byte>)
    ensures |d| == |payload| + 5
  {
    [version] + payload + sha256(sha256([version] + payload))[..4]
  }

  function Base58Check(al: seq<byte>, sha256: Sha256, version: byte, payload: seq<byte>): seq<byte>
    requires |al| == 58
  {
    Encode(al, Checked(sha256, version, payload))
  }

  method EncodeBase58Check(alphabet: seq<byte>, sha256: Sha256, version: byte, payload: seq<byte>)
    returns (s: seq<byte>)
    requires |alphabet| == 58
    ensures s == Base58Check(alphabet, sha256, version, payload)
  {
    var data := [version];
    data := data + payload;
    var hash1 := sha256(data);
    var hash2 := sha256(hash1);
    data := data + hash2[..4];
    s := Base58Codec.EncodeOver(alphabet, data);
  }

  // ---------------------------------------------------------------- addresses of scripts

  /** The characters of the prefix "bc1_p2wpkh_". */
  const SEGWIT: seq<byte> := [98, 99, 49, 95, 112, 50, 119, 112, 107, 104, 95]
  const UNDERSCORE: byte := 95

  function HexDigit(n: byte): byte
    requires n < 16
  {
    if n < 10 then 48 + n else 87 + n
  }

  function Hex(s: seq<byte>): (h: seq<byte>)
    ensures |h| == 2 * |s|
  {
    if s == [] then [] else [HexDigit(s[0] / 16), HexDigit(s[0] % 16)] + Hex(s[1..])
  }

  predicate IsP2pkh(s: seq<byte>) {
    |s| == 25 && s[0] == 0x76 && s[1] == 0xa9 && s[2] == 0x14 && s[23] == 0x88 && s[24] == 0xac
  }

  predicate IsP2sh(s: seq<byte>) {
    |s| == 23 && s[0] == 0xa9 && s[1] == 0x14 && s[22] == 0x87
  }

  predicate IsP2wpkh(s: seq<byte>) {
    |s| == 22 && s[0] == 0x00 && s[1] == 0x14
  }

  function PkScriptToAddress(al: seq<byte>, sha256: Sha256, script: seq<byte>): Option<seq<byte>>
    requires |al| == 58
  {
    if IsP2pkh(script) then Some(Base58Check(al, sha256, 0x00, script[3..23]))
    else if IsP2sh(script) then Some(Base58Check(al, sha256, 0x05, script[2..22]))
    else if IsP2wpkh(script) then Some(SEGWIT + Hex(script[2..22]))
    else None
  }

  /** The hash inside a recognised script. */
  function HashIn(script: seq<byte>): (h: Hash20)
    requires IsP2pkh(script) || IsP2sh(script) || IsP2wpkh(script)
  {
    if IsP2pkh(script) then script[3..23] else script[2..22]
  }

  /** The three forms of locking script by their bytes, and the address of each. */
  lemma AddressByBytes(sha256: Sha256, h: Hash20)
    ensures AddressOf(sha256, [0x76, 0xa9, 0x14] + h + [0x88, 0xac]) ==
      Some(Encode(ALPHABET, [0x00] + h + sha256(sha256([0x00] + h))[..4]))
    ensures AddressOf(sha256, [0xa9, 0x14] + h + [0x87]) ==
      Some(Encode(ALPHABET, [0x05] + h + sha256(sha256([0x05] + h))[..4]))
    ensures AddressOf(sha256, [0x00, 0x14] + h) == Some(Ascii("bc1_p2wpkh_") + Hex(h))
  {
    AlphabetIsAlphabet();
    var s, t, u := [0x76, 0xa9, 0x14] + h + [0x88, 0xac], [0xa9, 0x14] + h + [0x87], [0x00, 0x14] + h;
    assert s[3..23] == h && t[2..22] == h && u[2..22] == h;
    PrefixInAscii();
  }

  lemma PrefixInAscii()
    ensures SEGWIT == Ascii("bc1_p2wpkh_")
  {
  }

  /** No other script has an address. */
  lemma AddressedForms(sha256: Sha256, s: seq<byte>) returns (h: Hash20)
    requires AddressOf(sha256, s).Some?
    ensures s == [0x76, 0xa9, 0x14] + h + [0x88, 0xac] || s == [0xa9, 0x14] + h + [0x87] || s == [0x00, 0x14] + h
  {
    h := HashIn(s);
    var k := if IsP2pkh(s) then 3 else 2;
    assert s == s[..k] + h + s[k + 20..];
  }

  /** Two digits a byte, the high half first. */
  lemma {:induction false} HexDigits(s: seq<byte>, i: nat)
    requires i < |s|
    ensures Hex(s)[2 * i] == Ascii("0123456789abcdef")[s[i] / 16]
    ensures Hex(s)[2 * i + 1] == Ascii("0123456789abcdef")[s[i] % 16]
  {
    var hex := Hex(s);
    assert hex[2..] == Hex(s[1..]);
    if i > 0 {
      HexDigits(s[1..], i - 1);
      assert hex[2 * i] == hex[2..][2 * (i - 1)] && hex[2 * i + 1] == hex[2..][2 * (i - 1) + 1];
    } else {
      assert hex[0] == HexDigit(s[0] / 16) && hex[1] == HexDigit(s[0] % 16);
      DigitInAscii(s[0] / 16);
      DigitInAscii(s[0] % 16);
    }
  }

  lemma DigitInAscii(n: byte)
    requires n < 16
    ensures HexDigit(n) == Ascii("0123456789abcdef")[n]
  {
  }

  lemma {:induction false} HexInjective(a: seq<byte>, b: seq<byte>)
    requires Hex(a) == Hex(b)
    ensures a == b
  {
    if a != [] && b != [] {
      var x, y := Hex(a), Hex(b);
      assert x[0] == HexDigit(a[0] / 16) && x[1] == HexDigit(a[0] % 16) && x[2..] == Hex(a[1..]);
      assert y[0] == HexDigit(b[0] / 16) && y[1] == HexDigit(b[0] % 16) && y[2..] == Hex(b[1..]);
      HexInjective(a[1..], b[1..]);
      assert a == [a[0]] + a[1..] && b == [b[0]] + b[1..];
    } else {
      assert |a| == |b|;
    }
  }

  /** The underscore is not an alphabet character, so no such address is Base58. */
  lemma SegwitNotBase58(al: seq<byte>, h: seq<byte>)
    requires |al| == 58 && UNDERSCORE !in al
    ensures Decode(al, SEGWIT + h).None?
  {
    assert (SEGWIT + h)[3] == UNDERSCORE;
  }

  lemma AlphabetHasNoUnderscore()
    ensures UNDERSCORE !in ALPHABET
  {
  }

  lemma CheckedInjective(sha256: Sha256, v: byte, p: Hash20, w: byte, q: Hash20)
    requires Checked(sha256, v, p) == Checked(sha256, w, q)
    ensures v == w && p == q
  {
    var x, y := Checked(sha256, v, p), Checked(sha256, w, q);
    assert x[0] == v && x[1..21] == p;
    assert y[0] == w && y[1..21] == q;
  }

  lemma ScriptOfHash(s: seq<byte>, t: seq<byte>)
    requires (IsP2pkh(s) && IsP2pkh(t)) || (IsP2sh(s) && IsP2sh(t)) || (IsP2wpkh(s) && IsP2wpkh(t))
    requires HashIn(s) == HashIn(t)
    ensures s == t
  {
    var k := if IsP2pkh(s) then 3 else 2;
    assert s == s[..k] + HashIn(s) + s[k + 20..];
    assert t == t[..k] + HashIn(t) + t[k + 20..];
  }

  /** Two recognised scripts, of any kinds, never share an address. */
  lemma AddressInjective(al: seq<byte>, sha256: Sha256, s: seq<byte>, t: seq<byte>)
    requires IsAlphabet(al) && UNDERSCORE !in al
    requires PkScriptToAddress(al, sha256, s).Some?
    requires PkScriptToAddress(al, sha256, s) == PkScriptToAddress(al, sha256, t)
    ensures s == t
  {
    if IsP2wpkh(s) {
      SegwitNotBase58(al, Hex(HashIn(s)));
    }
    if IsP2wpkh(t) {
      SegwitNotBase58(al, Hex(HashIn(t)));
    }
    if IsP2wpkh(s) && IsP2wpkh(t) {
      var x, y := SEGWIT + Hex(HashIn(s)), SEGWIT + Hex(HashIn(t));
      assert x[11..] == Hex(HashIn(s)) && y[11..] == Hex(HashIn(t));
      HexInjective(HashIn(s), HashIn(t));
    } else {
      EncodedDecodes(al, Checked(sha256, VersionOf(s), HashIn(s)));
      EncodedDecodes(al, Checked(sha256, VersionOf(t), HashIn(t)));
      EncodeInjective(al, Checked(sha256, VersionOf(s), HashIn(s)), Checked(sha256, VersionOf(t), HashIn(t)));
      CheckedInjective(sha256, VersionOf(s), HashIn(s), VersionOf(t), HashIn(t));
    }
    ScriptOfHash(s, t);
  }

  function VersionOf(script: seq<byte>): byte {
    if IsP2pkh(script) then 0x00 else 0x05
  }

  lemma EncodedDecodes(al: seq<byte>, d: seq<byte>)
    requires IsAlphabet(al)
    ensures Decode(al, Encode(al, d)) == Some(if AllZero(d) then Positional.Zeros(|d| + 1) else d)
  {
    DecodeEncode(al, d);
  }

  /** The address the node displays. */
  function AddressOf(sha256: Sha256, script: seq<byte>): (r: Option<seq<byte>>)
    ensures r.Some? <==> IsP2pkh(script) || IsP2sh(script) || IsP2wpkh(script)
  {
    AlphabetIsAlphabet();
    PkScriptToAddress(ALPHABET, sha256, script)
  }

  /** `AddressInjective` for the addresses the node displays. */
  lemma AddressUnique(sha256: Sha256, s: seq<byte>, t: seq<byte>)
    requires AddressOf(sha256, s).Some? && AddressOf(sha256, s) == AddressOf(sha256, t)
    ensures s == t
  {
    AlphabetIsAlphabet();
    AlphabetHasNoUnderscore();
    AddressInjective(ALPHABET, sha256, s, t);
  }

  /** `pk_script_to_address` */
  method AddressOfScript(sha256: Sha256, script: seq<byte>) returns (r: Option<seq<byte>>)
    ensures r == AddressOf(sha256, script)
  {
    AlphabetIsAlphabet();
    r := AddressOver(ALPHABET, sha256, script);
  }

  method AddressOver(alphabet: seq<byte>, sha256: Sha256, script: seq<byte>) returns (r: Option<seq<byte>>)
    requires |alphabet| == 58
    ensures r == PkScriptToAddress(alphabet, sha256, script)
  {
    if IsP2pkh(script) {
      var s := EncodeBase58Check(alphabet, sha256, 0x00, script[3..23]);
      return Some(s);
    } else if IsP2sh(script) {
      var s := EncodeBase58Check(alphabet, sha256, 0x05, script[2..22]);
      return Some(s);
    } else if IsP2wpkh(script) {
      return Some(SEGWIT + Hex(script[2..22]));
    }
    return None;
  }
}
