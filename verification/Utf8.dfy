/** UTF-8 as Python encodes it, and as it decodes it with `errors="replace"`. */
module Utf8 {

  type Byte = b: int | 0 <= b < 256

  const REPLACEMENT: char := '\U{FFFD}'

  function EncodeChar(c: char): seq<Byte> {
    var n := c as int;
    if n < 0x80 then [n]
    else if n < 0x800 then [0xC0 + n / 0x40, 0x80 + n % 0x40]
    else if n < 0x1_0000 then [0xE0 + n / 0x1000, 0x80 + n / 0x40 % 0x40, 0x80 + n % 0x40]
    else [0xF0 + n / 0x4_0000, 0x80 + n / 0x1000 % 0x40, 0x80 + n / 0x40 % 0x40, 0x80 + n % 0x40]
  }

  function Encode(s: string): seq<Byte> {
    if s == "" then [] else EncodeChar(s[0]) + Encode(s[1..])
  }

  predicate Continuation(bytes: seq<Byte>, i: nat) {
    i < |bytes| && 0x80 <= bytes[i] < 0xC0
  }

  /** Lower and upper bound of the second byte, which rule out overlong forms and surrogates. */
  predicate SecondByte(bytes: seq<Byte>)
    requires |bytes| > 0
  {
    && Continuation(bytes, 1)
    && (bytes[0] == 0xE0 ==> bytes[1] >= 0xA0)
    && (bytes[0] == 0xED ==> bytes[1] < 0xA0)
    && (bytes[0] == 0xF0 ==> bytes[1] >= 0x90)
    && (bytes[0] == 0xF4 ==> bytes[1] < 0x90)
  }

  function Scalar(n: int): char {
    if 0 <= n < 0xD800 || 0xE000 <= n < 0x11_0000 then n as char else REPLACEMENT
  }

  /** The bits a continuation byte carries. */
  function Low(b: Byte): int { b as int - 0x80 }

  /** The next character and the bytes it takes; a broken sequence yields one replacement. */
  function DecodeOne(bytes: seq<Byte>): (r: (char, nat))
    requires |bytes| > 0
    ensures 1 <= r.1 <= |bytes|
  {
    var b: int := bytes[0];
    if b < 0x80 then (b as char, 1)
    else if 0xC2 <= b < 0xE0 then
      if !SecondByte(bytes) then (REPLACEMENT, 1)
      else (Scalar((b - 0xC0) * 0x40 + Low(bytes[1])), 2)
    else if 0xE0 <= b < 0xF0 then
      if !SecondByte(bytes) then (REPLACEMENT, 1)
      else if !Continuation(bytes, 2) then (REPLACEMENT, 2)
      else (Scalar((b - 0xE0) * 0x1000 + Low(bytes[1]) * 0x40 + Low(bytes[2])), 3)
    else if 0xF0 <= b < 0xF5 then
      if !SecondByte(bytes) then (REPLACEMENT, 1)
      else if !Continuation(bytes, 2) then (REPLACEMENT, 2)
      else if !Continuation(bytes, 3) then (REPLACEMENT, 3)
      else (Scalar((b - 0xF0) * 0x4_0000 + Low(bytes[1]) * 0x1000 + Low(bytes[2]) * 0x40 + Low(bytes[3])), 4)
    else (REPLACEMENT, 1)
  }

  function Decode(bytes: seq<Byte>): string {
    if bytes == [] then "" else
      var (c, n) := DecodeOne(bytes);
      [c] + Decode(bytes[n..])
  }

  lemma DivTwice(n: nat)
    ensures n / 0x1000 == n / 0x40 / 0x40
    ensures n / 0x4_0000 == n / 0x1000 / 0x40
  {
  }

  lemma SixBitGroups(n: nat)
    ensures n == n / 0x40 * 0x40 + n % 0x40
    ensures n == n / 0x1000 * 0x1000 + n / 0x40 % 0x40 * 0x40 + n % 0x40
    ensures n == n / 0x4_0000 * 0x4_0000 + n / 0x1000 % 0x40 * 0x1000 + n / 0x40 % 0x40 * 0x40 + n % 0x40
  {
    DivTwice(n);
    var a := n / 0x40;
    var b := a / 0x40;
    assert n == a * 0x40 + n % 0x40 && a == b * 0x40 + a % 0x40 && b == b / 0x40 * 0x40 + b % 0x40;
  }

  lemma DecodeOneEncoded(c: char, rest: seq<Byte>)
    ensures EncodeChar(c) != []
    ensures DecodeOne(EncodeChar(c) + rest) == (c, |EncodeChar(c)|)
  {
    var n := c as int;
    var head := EncodeChar(c);
    var bytes := head + rest;
    SixBitGroups(n);
    assert forall i :: 0 <= i < |head| ==> bytes[i] == head[i];
    if n < 0x80 {
    } else if n < 0x800 {
      assert bytes[0] == 0xC0 + n / 0x40 && bytes[1] == 0x80 + n % 0x40;
    } else if n < 0x1_0000 {
      assert bytes[0] == 0xE0 + n / 0x1000 && bytes[1] == 0x80 + n / 0x40 % 0x40 && bytes[2] == 0x80 + n % 0x40;
      assert SecondByte(bytes);
    } else {
      assert bytes[0] == 0xF0 + n / 0x4_0000 && bytes[1] == 0x80 + n / 0x1000 % 0x40;
      assert bytes[2] == 0x80 + n / 0x40 % 0x40 && bytes[3] == 0x80 + n % 0x40;
      assert SecondByte(bytes);
    }
  }

  /** Decoding with replacement loses nothing on text that was encoded. */
  lemma {:induction false} DecodeEncode(s: string)
    ensures Decode(Encode(s)) == s
  {
    if s != "" {
      var head, tail := EncodeChar(s[0]), Encode(s[1..]);
      DecodeOneEncoded(s[0], tail);
      assert (head + tail)[|head|..] == tail;
      DecodeEncode(s[1..]);
      assert s == [s[0]] + s[1..];
    }
  }
}
