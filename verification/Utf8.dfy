/** UTF-8 as Python's strict codec reads and writes it, and the character tests the codec uses. */
module Utf8 {
  import opened Wrappers

  /** The characters XML 1.0 allows: src/acs/protocol/omadm/wbxml.py, _utf8. */
  predicate IsXmlChar(c: char) {
    var n := c as int;
    || n == 9 || n == 10 || n == 13
    || 0x20 <= n <= 0xD7FF
    || 0xE000 <= n <= 0xFFFD
    || 0x10000 <= n <= 0x10FFFF
  }

  predicate IsXmlText(s: string) {
    forall i :: 0 <= i < |s| ==> IsXmlChar(s[i])
  }

  /** str.isspace for one character. */
  predicate IsSpaceChar(c: char) {
    var n := c as int;
    || 9 <= n <= 13 || 0x1C <= n <= 0x20
    || n == 0x85 || n == 0xA0 || n == 0x1680
    || 0x2000 <= n <= 0x200A
    || n == 0x2028 || n == 0x2029 || n == 0x202F || n == 0x205F || n == 0x3000
  }

  /** str.isspace: at least one character, and all of them white space. */
  predicate IsSpace(s: string) {
    s != [] && forall i :: 0 <= i < |s| ==> IsSpaceChar(s[i])
  }

  predicate IsScalar(n: int) {
    0 <= n <= 0xD7FF || 0xE000 <= n <= 0x10FFFF
  }

  function EncodeChar(c: char): (b: Bytes)
    ensures 1 <= |b| <= 4
  {
    var n := c as int;
    if n < 0x80 then [n as byte]
    else if n < 0x800 then [(0xC0 + n / 64) as byte, (0x80 + n % 64) as byte]
    else if n < 0x10000 then [(0xE0 + n / 4096) as byte, (0x80 + n / 64 % 64) as byte, (0x80 + n % 64) as byte]
    else [(0xF0 + n / 262144) as byte, (0x80 + n / 4096 % 64) as byte, (0x80 + n / 64 % 64) as byte,
        (0x80 + n % 64) as byte]
  }

  function Encode(s: string): (b: Bytes)
    ensures |s| <= |b|
  {
    if s == [] then [] else EncodeChar(s[0]) + Encode(s[1..])
  }

  predicate IsTrail(b: byte) {
    0x80 <= b < 0xC0
  }

  /** The scalar value at the start of b and the length of its shortest form; None if malformed. */
  function DecodeChar(b: Bytes): (r: Option<(char, nat)>)
    ensures r.Some? ==> 1 <= r.value.1 <= 4 && r.value.1 <= |b|
  {
    if b == [] then None
    else
      var b0 := b[0] as int;
      if b0 < 0x80 then Some((b0 as char, 1))
      else if 0xC2 <= b0 < 0xE0 && |b| >= 2 && IsTrail(b[1]) then
        Some((((b0 - 0xC0) * 64 + (b[1] as int - 0x80)) as char, 2))
      else if 0xE0 <= b0 < 0xF0 && |b| >= 3 && IsTrail(b[1]) && IsTrail(b[2]) then
        var n := (b0 - 0xE0) * 4096 + (b[1] as int - 0x80) * 64 + (b[2] as int - 0x80);
        if 0x800 <= n && IsScalar(n) then Some((n as char, 3)) else None
      else if 0xF0 <= b0 < 0xF5 && |b| >= 4 && IsTrail(b[1]) && IsTrail(b[2]) && IsTrail(b[3]) then
        var n := (b0 - 0xF0) * 262144 + (b[1] as int - 0x80) * 4096 + (b[2] as int - 0x80) * 64 + (b[3] as int - 0x80);
        if 0x10000 <= n && IsScalar(n) then Some((n as char, 4)) else None
      else None
  }

  function Decode(b: Bytes): (r: Option<string>)
  {
    if b == [] then Some([])
    else
      var first := DecodeChar(b);
      if first.None? then None
      else
        var rest := Decode(b[first.value.1..]);
        if rest.None? then None else Some([first.value.0] + rest.value)
  }

  lemma Digits64(q: int, r: int)
    requires 0 <= r < 64
    ensures (q * 64 + r) / 64 == q && (q * 64 + r) % 64 == r
  {
  }

  lemma Places(n: nat)
    ensures n == n / 64 * 64 + n % 64
    ensures n / 4096 == n / 64 / 64 && n / 262144 == n / 64 / 64 / 64
  {
  }

  lemma DecodeCharOfEncode(c: char, rest: Bytes)
    ensures DecodeChar(EncodeChar(c) + rest) == Some((c, |EncodeChar(c)|))
  {
    var n := c as int;
    if n < 0x80 {
    } else if n < 0x800 {
      DecodeTwo(c, rest);
    } else if n < 0x10000 {
      DecodeThree(c, rest);
    } else {
      DecodeFour(c, rest);
    }
  }

  lemma DecodeTwo(c: char, rest: Bytes)
    requires 0x80 <= c as int < 0x800
    ensures DecodeChar(EncodeChar(c) + rest) == Some((c, 2))
  {
    var n := c as int;
    var b := EncodeChar(c) + rest;
    assert b[0] as int == 0xC0 + n / 64 && b[1] as int == 0x80 + n % 64;
  }

  lemma DecodeThree(c: char, rest: Bytes)
    requires 0x800 <= c as int < 0x10000
    ensures DecodeChar(EncodeChar(c) + rest) == Some((c, 3))
  {
    var n := c as int;
    var b := EncodeChar(c) + rest;
    assert b[0] as int == 0xE0 + n / 4096 && b[1] as int == 0x80 + n / 64 % 64 && b[2] as int == 0x80 + n % 64;
    Places(n);
    Places(n / 64);
  }

  lemma DecodeFour(c: char, rest: Bytes)
    requires 0x10000 <= c as int
    ensures DecodeChar(EncodeChar(c) + rest) == Some((c, 4))
  {
    var n := c as int;
    var b := EncodeChar(c) + rest;
    assert b[0] as int == 0xF0 + n / 262144 && b[1] as int == 0x80 + n / 4096 % 64;
    assert b[2] as int == 0x80 + n / 64 % 64 && b[3] as int == 0x80 + n % 64;
    Places(n);
    Places(n / 64);
    Places(n / 4096);
  }

  lemma EncodeOfDecodeChar(b: Bytes)
    requires DecodeChar(b).Some?
    ensures var (c, k) := DecodeChar(b).value; EncodeChar(c) == b[..k]
  {
    var (c, k) := DecodeChar(b).value;
    if k == 2 {
      Digits64(b[0] as int - 0xC0, b[1] as int - 0x80);
    } else if k == 3 {
      EncodeThree(b);
    } else if k == 4 {
      EncodeFour(b);
    }
  }

  lemma EncodeThree(b: Bytes)
    requires DecodeChar(b).Some? && DecodeChar(b).value.1 == 3
    ensures EncodeChar(DecodeChar(b).value.0) == b[..3]
  {
    var n := DecodeChar(b).value.0 as int;
    var m := (b[0] as int - 0xE0) * 64 + (b[1] as int - 0x80);
    assert n == m * 64 + (b[2] as int - 0x80);
    Digits64(b[0] as int - 0xE0, b[1] as int - 0x80);
    Digits64(m, b[2] as int - 0x80);
    Places(n);
  }

  lemma EncodeFour(b: Bytes)
    requires DecodeChar(b).Some? && DecodeChar(b).value.1 == 4
    ensures EncodeChar(DecodeChar(b).value.0) == b[..4]
  {
    var n := DecodeChar(b).value.0 as int;
    var l := (b[0] as int - 0xF0) * 64 + (b[1] as int - 0x80);
    var m := l * 64 + (b[2] as int - 0x80);
    assert n == m * 64 + (b[3] as int - 0x80);
    Digits64(b[0] as int - 0xF0, b[1] as int - 0x80);
    Digits64(l, b[2] as int - 0x80);
    Digits64(m, b[3] as int - 0x80);
    Places(n);
  }

  /** Every string survives encoding. */
  lemma {:induction false} DecodeOfEncode(s: string)
    ensures Decode(Encode(s)) == Some(s)
  {
    if s != [] {
      DecodeCharOfEncode(s[0], Encode(s[1..]));
      var first := EncodeChar(s[0]);
      assert Encode(s)[|first|..] == Encode(s[1..]);
      DecodeOfEncode(s[1..]);
      assert s == [s[0]] + s[1..];
    }
  }

  /** The decoder is strict: it accepts a byte string only if that is what encoding its result gives. */
  lemma {:induction false} EncodeOfDecode(b: Bytes)
    requires Decode(b).Some?
    ensures Encode(Decode(b).value) == b
  {
    hide DecodeChar; hide EncodeChar;
    if b != [] {
      var (c, k) := DecodeChar(b).value;
      EncodeOfDecodeChar(b);
      EncodeOfDecode(b[k..]);
      assert b == b[..k] + b[k..];
    }
  }

  /** Text without NUL encodes without a zero byte, so a terminator is unambiguous. */
  lemma {:induction false} NoZero(s: string)
    requires forall i :: 0 <= i < |s| ==> s[i] as int != 0
    ensures 0 !in Encode(s)
  {
    if s != [] {
      NoZeroChar(s[0]);
      NoZero(s[1..]);
    }
  }

  lemma NoZeroChar(c: char)
    requires c as int != 0
    ensures 0 !in EncodeChar(c)
  {
  }

  lemma {:induction false} EncodeAppend(s: string, t: string)
    ensures Encode(s + t) == Encode(s) + Encode(t)
  {
    if s == [] {
      assert s + t == t;
    } else {
      assert (s + t)[1..] == s[1..] + t;
      EncodeAppend(s[1..], t);
    }
  }
}
