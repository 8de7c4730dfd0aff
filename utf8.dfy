/** UTF-8, as Python's `str.encode('utf-8')` and `bytes.decode('utf-8', errors)` use it.
    Decoding follows the Unicode "maximal subpart" rule: an ill-formed sequence is consumed up
    to the first byte that cannot continue it, and with `errors='replace'` each such piece
    becomes one U+FFFD. */
module Utf8 {
  import opened Py

  const REPLACEMENT: char := '\U{FFFD}'

  /** The bytes of one character. */
  function EncodeChar(c: char): (r: seq<byte>)
    ensures 1 <= |r| <= 4
    ensures (|r| == 1) == (c as int < 0x80)
  {
    var cp := c as int;
    if cp < 0x80 then [cp]
    else if cp < 0x800 then [0xC0 + cp / 64, 0x80 + cp % 64]
    else if cp < 0x10000 then [0xE0 + cp / 4096, 0x80 + (cp / 64) % 64, 0x80 + cp % 64]
    else [0xF0 + cp / 262144, 0x80 + (cp / 4096) % 64, 0x80 + (cp / 64) % 64, 0x80 + cp % 64]
  }

  /** `s.encode('utf-8')`. */
  function Encode(s: string): seq<byte>
  {
    if s == [] then [] else EncodeChar(s[0]) + Encode(s[1..])
  }

  /** How many bytes a sequence starting with lead byte `b` has (0: not a lead byte). */
  function Width(b: byte): nat
  {
    if b < 0x80 then 1
    else if b < 0xC2 then 0
    else if b < 0xE0 then 2
    else if b < 0xF0 then 3
    else if b < 0xF5 then 4
    else 0
  }

  /** The range the second byte must lie in after lead byte `b` (Unicode Table 3-7). */
  function SecondLow(b: byte): byte
  {
    if b == 0xE0 then 0xA0 else if b == 0xF0 then 0x90 else 0x80
  }

  function SecondHigh(b: byte): byte
  {
    if b == 0xED then 0x9F else if b == 0xF4 then 0x8F else 0xBF
  }

  predicate IsContinuation(b: byte) {
    0x80 <= b <= 0xBF
  }

  /** A code point that Dafny's `char` can hold (a Unicode scalar value). */
  predicate IsScalar(cp: int) {
    0 <= cp < 0xD800 || 0xE000 <= cp < 0x11_0000
  }

  /** One decoding step: a well-formed character and its length, or the length of the
      maximal ill-formed subpart at the front. */
  datatype Step = Char(c: char, len: nat) | Bad(len: nat)

  function DecodeStep(bs: seq<byte>): (r: Step)
    requires |bs| > 0
    ensures 1 <= r.len <= |bs| && r.len <= 4
  {
    var b0: int := bs[0];
    var b1: int := if |bs| > 1 then bs[1] else 0;
    var b2: int := if |bs| > 2 then bs[2] else 0;
    var b3: int := if |bs| > 3 then bs[3] else 0;
    var n := Width(bs[0]);
    if n == 1 then Char(b0 as char, 1)
    else if n == 0 then Bad(1)
    else if |bs| < 2 || !(SecondLow(bs[0]) <= bs[1] <= SecondHigh(bs[0])) then Bad(1)
    else if n == 2 then
      Char(((b0 - 0xC0) * 64 + (b1 - 0x80)) as char, 2)
    else if |bs| < 3 || !IsContinuation(bs[2]) then Bad(2)
    else if n == 3 then
      var cp := (b0 - 0xE0) * 4096 + (b1 - 0x80) * 64 + (b2 - 0x80);
      assert IsScalar(cp);
      Char(cp as char, 3)
    else if |bs| < 4 || !IsContinuation(bs[3]) then Bad(3)
    else
      var cp := (b0 - 0xF0) * 262144 + (b1 - 0x80) * 4096 + (b2 - 0x80) * 64 + (b3 - 0x80);
      assert IsScalar(cp);
      Char(cp as char, 4)
  }

  /** `bs.decode('utf-8')` (errors='strict'): `None` is the UnicodeDecodeError. */
  function Decode(bs: seq<byte>): Option<string>
    decreases |bs|
  {
    if bs == [] then Some([])
    else
      match DecodeStep(bs)
      case Bad(_) => None
      case Char(c, n) =>
        match Decode(bs[n..])
        case None => None
        case Some(rest) => Some([c] + rest)
  }

  /** `bs.decode('utf-8', 'replace')`. */
  function DecodeReplace(bs: seq<byte>): string
    decreases |bs|
  {
    if bs == [] then []
    else
      match DecodeStep(bs)
      case Bad(n) => [REPLACEMENT] + DecodeReplace(bs[n..])
      case Char(c, n) => [c] + DecodeReplace(bs[n..])
  }

  /** Division by the constants of the encoding, when quotient and remainder are known. */
  lemma DivMod(x: int, d: int, q: int, m: int)
    requires d == 64 || d == 4096 || d == 262144
    requires x == d * q + m && 0 <= m < d
    ensures x / d == q && x % d == m
  {
    if d == 64 {
      assert x == 64 * q + m;
    } else if d == 4096 {
      assert x == 4096 * q + m;
    } else {
      assert x == 262144 * q + m;
    }
  }

  /** Every character is decoded from its own encoding, whatever follows. */
  lemma DecodeStepOfEncodeChar(c: char, rest: seq<byte>)
    ensures DecodeStep(EncodeChar(c) + rest) == Char(c, |EncodeChar(c)|)
  {
    var cp := c as int;
    var e := EncodeChar(c);
    var bs := e + rest;
    if cp < 0x80 {
    } else if cp < 0x800 {
      DivMod(cp, 64, cp / 64, cp % 64);
    } else if cp < 0x10000 {
      var q := cp / 64;
      DivMod(q, 64, q / 64, q % 64);
      assert cp / 4096 == q / 64;
      assert bs[0] == 0xE0 + q / 64 && bs[1] == 0x80 + q % 64 && bs[2] == 0x80 + cp % 64;
      assert (q / 64) * 4096 + (q % 64) * 64 + cp % 64 == cp;
    } else {
      var q := cp / 64;
      var q2 := q / 64;
      assert cp / 4096 == q2;
      assert cp / 262144 == q2 / 64;
      assert bs[0] == 0xF0 + q2 / 64 && bs[1] == 0x80 + q2 % 64;
      assert bs[2] == 0x80 + q % 64 && bs[3] == 0x80 + cp % 64;
      assert (q2 / 64) * 262144 + (q2 % 64) * 4096 + (q % 64) * 64 + cp % 64 == cp;
    }
  }

  /** A well-formed character read from the front is re-encoded to exactly the bytes it was
      read from. */
  lemma EncodeCharOfDecodeStep(bs: seq<byte>)
    requires |bs| > 0 && DecodeStep(bs).Char?
    ensures EncodeChar(DecodeStep(bs).c) == bs[..DecodeStep(bs).len]
  {
    var b0: int := bs[0];
    var n := Width(bs[0]);
    var c := DecodeStep(bs).c;
    var cp := c as int;
    if n == 2 {
      var b1: int := bs[1];
      DivMod(cp, 64, b0 - 0xC0, b1 - 0x80);
    } else if n == 3 {
      var b1: int, b2: int := bs[1], bs[2];
      DivMod(cp, 64, (b0 - 0xE0) * 64 + (b1 - 0x80), b2 - 0x80);
      DivMod(cp / 64, 64, b0 - 0xE0, b1 - 0x80);
      DivMod(cp, 4096, b0 - 0xE0, (b1 - 0x80) * 64 + (b2 - 0x80));
    } else if n == 4 {
      var b1: int, b2: int, b3: int := bs[1], bs[2], bs[3];
      DivMod(cp, 64, (b0 - 0xF0) * 4096 + (b1 - 0x80) * 64 + (b2 - 0x80), b3 - 0x80);
      DivMod(cp / 64, 64, (b0 - 0xF0) * 64 + (b1 - 0x80), b2 - 0x80);
      DivMod(cp, 4096, (b0 - 0xF0) * 64 + (b1 - 0x80), (b2 - 0x80) * 64 + (b3 - 0x80));
      DivMod(cp / 4096, 64, b0 - 0xF0, b1 - 0x80);
      DivMod(cp, 262144, b0 - 0xF0, (b1 - 0x80) * 4096 + (b2 - 0x80) * 64 + (b3 - 0x80));
    }
  }

  lemma {:induction false} EncodeAppend(s: string, t: string)
    ensures Encode(s + t) == Encode(s) + Encode(t)
  {
    if s != [] {
      assert (s + t)[0] == s[0];
      assert (s + t)[1..] == s[1..] + t;
      EncodeAppend(s[1..], t);
      assert Encode(s + t) == EncodeChar(s[0]) + Encode(s[1..] + t);
    } else {
      assert s + t == t;
    }
  }

  /** Strict decoding undoes encoding: what `respond` writes for a string decodes back to it. */
  lemma {:induction false} DecodeEncode(s: string)
    ensures Decode(Encode(s)) == Some(s)
  {
    if s != [] {
      var e := EncodeChar(s[0]);
      var bs := Encode(s);
      assert bs == e + Encode(s[1..]);
      DecodeStepOfEncodeChar(s[0], Encode(s[1..]));
      assert bs[|e|..] == Encode(s[1..]);
      DecodeEncode(s[1..]);
      assert s == [s[0]] + s[1..];
    }
  }

  /** Decoding with replacement also undoes encoding: well-formed input is never replaced. */
  lemma {:induction false} DecodeReplaceEncode(s: string)
    ensures DecodeReplace(Encode(s)) == s
  {
    if s != [] {
      var e := EncodeChar(s[0]);
      DecodeStepOfEncodeChar(s[0], Encode(s[1..]));
      assert (e + Encode(s[1..]))[|e|..] == Encode(s[1..]);
      DecodeReplaceEncode(s[1..]);
    }
  }

  /** Encoding is injective, so the body a handler records determines the text it was given. */
  lemma EncodeInjective(s: string, t: string)
    requires Encode(s) == Encode(t)
    ensures s == t
  {
    DecodeEncode(s);
    DecodeEncode(t);
  }

  /** Encoding undoes strict decoding: bytes that decode re-encode to themselves. */
  lemma {:induction false} EncodeDecode(bs: seq<byte>)
    requires Decode(bs).Some?
    ensures Encode(Decode(bs).value) == bs
    decreases |bs|
  {
    if bs != [] {
      var st := DecodeStep(bs);
      EncodeCharOfDecodeStep(bs);
      EncodeDecode(bs[st.len..]);
      assert bs == bs[..st.len] + bs[st.len..];
    }
  }

  /** Text made of ASCII characters is encoded one byte per character, by code. */
  lemma {:induction false} EncodeAscii(s: string)
    requires forall k :: 0 <= k < |s| ==> s[k] as int < 0x80
    ensures |Encode(s)| == |s|
    ensures forall k :: 0 <= k < |s| ==> Encode(s)[k] == s[k] as int
  {
    if s != [] {
      EncodeAscii(s[1..]);
    }
  }
}
