/** One character of UTF-8, as sections 3 and 4 of RFC 3629 define it over Unicode scalar values. */
module Utf8Char {
  type Byte = b: int | 0 <= b < 256

  function EncodeChar(c: char): (bs: seq<Byte>)
    ensures 1 <= |bs| <= 4
  {
    var v := c as int;
    if v < 0x80 then [v]
    else if v < 0x800 then [0xC0 + v / 64, 0x80 + v % 64]
    else if v < 0x10000 then [0xE0 + v / 4096, 0x80 + v / 64 % 64, 0x80 + v % 64]
    else [0xF0 + v / 262144, 0x80 + v / 4096 % 64, 0x80 + v / 64 % 64, 0x80 + v % 64]
  }

  predicate Continuation(b: Byte) {
    0x80 <= b < 0xC0
  }

  /** The number of bytes a lead byte announces; 0 for a byte that starts nothing. */
  function Announced(b: Byte): nat {
    if b < 0x80 then 1
    else if 0xC2 <= b < 0xE0 then 2
    else if 0xE0 <= b < 0xF0 then 3
    else if 0xF0 <= b < 0xF5 then 4
    else 0
  }

  /** The second byte's range: no overlong forms, no surrogates, nothing above U+10FFFF. */
  predicate SecondByte(lead: Byte, b: Byte) {
    && Continuation(b)
    && (lead == 0xE0 ==> 0xA0 <= b)
    && (lead == 0xED ==> b < 0xA0)
    && (lead == 0xF0 ==> 0x90 <= b)
    && (lead == 0xF4 ==> b < 0x90)
  }

  datatype Step = Decoded(c: char, size: nat) | Dropped(size: nat)

  /** The code point of a multi-byte sequence, without its marker bits. */
  function Joined2(a: int, b: int): int { (a - 0xC0) * 64 + (b - 0x80) }
  function Joined3(a: int, b: int, c: int): int { (a - 0xE0) * 4096 + (b - 0x80) * 64 + (c - 0x80) }
  function Joined4(a: int, b: int, c: int, d: int): int {
    (a - 0xF0) * 262144 + (b - 0x80) * 4096 + (c - 0x80) * 64 + (d - 0x80)
  }

  /** What the decoder does at the start of non-empty input. */
  function NextChar(bs: seq<Byte>): (step: Step)
    requires bs != []
    ensures 1 <= step.size <= |bs|
  {
    var b0 := bs[0];
    var n := Announced(b0);
    if n == 0 then Dropped(1)
    else if n == 1 then Decoded(b0 as char, 1)
    else if |bs| < 2 || !SecondByte(b0, bs[1]) then Dropped(1)
    else if n == 2 then Decoded(Joined2(b0, bs[1]) as char, 2)
    else if |bs| < 3 || !Continuation(bs[2]) then Dropped(2)
    else if n == 3 then Decoded(Joined3(b0, bs[1], bs[2]) as char, 3)
    else if |bs| < 4 || !Continuation(bs[3]) then Dropped(3)
    else Decoded(Joined4(b0, bs[1], bs[2], bs[3]) as char, 4)
  }

  lemma Parts2(v: int)
    requires 0x80 <= v < 0x800
    ensures var a, b := 0xC0 + v / 64, 0x80 + v % 64;
            0xC2 <= a < 0xE0 && 0x80 <= b < 0xC0 && Joined2(a, b) == v
  {
  }

  lemma Parts3(v: int)
    requires 0x800 <= v < 0x10000 && !(0xD800 <= v < 0xE000)
    ensures var a, b, c := 0xE0 + v / 4096, 0x80 + v / 64 % 64, 0x80 + v % 64;
            && 0xE0 <= a < 0xF0 && 0x80 <= b < 0xC0 && 0x80 <= c < 0xC0
            && (a == 0xE0 ==> 0xA0 <= b) && (a == 0xED ==> b < 0xA0)
            && Joined3(a, b, c) == v
  {
    var q := v / 64;
    assert v == 64 * q + v % 64;
    assert q == 64 * (q / 64) + q % 64;
    assert q / 64 == v / 4096;
  }

  lemma Parts4(v: int)
    requires 0x10000 <= v < 0x110000
    ensures var a, b, c, d := 0xF0 + v / 262144, 0x80 + v / 4096 % 64, 0x80 + v / 64 % 64, 0x80 + v % 64;
            && 0xF0 <= a < 0xF5 && 0x80 <= b < 0xC0 && 0x80 <= c < 0xC0 && 0x80 <= d < 0xC0
            && (a == 0xF0 ==> 0x90 <= b) && (a == 0xF4 ==> b < 0x90)
            && Joined4(a, b, c, d) == v
  {
    var q := v / 64;
    var r := q / 64;
    assert v == 64 * q + v % 64;
    assert q == 64 * r + q % 64;
    assert r == 64 * (r / 64) + r % 64;
    assert r == v / 4096 && r / 64 == v / 262144;
  }

  lemma NextCharEncoded(c: char, rest: seq<Byte>)
    ensures NextChar(EncodeChar(c) + rest) == Decoded(c, |EncodeChar(c)|)
  {
    var v := c as int;
    var e := EncodeChar(c);
    assert forall i :: 0 <= i < |e| ==> (e + rest)[i] == e[i];
    if v < 0x80 {
    } else if v < 0x800 {
      Parts2(v);
    } else if v < 0x10000 {
      Parts3(v);
    } else {
      Parts4(v);
    }
  }

  lemma Joins2(a: Byte, b: Byte)
    requires 0xC2 <= a < 0xE0 && Continuation(b)
    ensures var v := Joined2(a, b); 0x80 <= v < 0x800 && a == 0xC0 + v / 64 && b == 0x80 + v % 64
  {
  }

  lemma Joins3(a: Byte, b: Byte, c: Byte)
    requires 0xE0 <= a < 0xF0 && SecondByte(a, b) && Continuation(c)
    ensures var v := Joined3(a, b, c);
            && 0x800 <= v < 0x10000 && !(0xD800 <= v < 0xE000)
            && a == 0xE0 + v / 4096 && b == 0x80 + v / 64 % 64 && c == 0x80 + v % 64
  {
    var v := Joined3(a, b, c);
    var x, y, z: int := a - 0xE0, b - 0x80, c - 0x80;
    assert v == 64 * (64 * x + y) + z;
    assert v / 64 == 64 * x + y && v % 64 == z;
    assert v / 4096 == x;
  }

  lemma Joins4(a: Byte, b: Byte, c: Byte, d: Byte)
    requires 0xF0 <= a < 0xF5 && SecondByte(a, b) && Continuation(c) && Continuation(d)
    ensures var v := Joined4(a, b, c, d);
            && 0x10000 <= v < 0x110000
            && a == 0xF0 + v / 262144 && b == 0x80 + v / 4096 % 64 && c == 0x80 + v / 64 % 64 && d == 0x80 + v % 64
  {
    var v := Joined4(a, b, c, d);
    var x, y, z, w: int := a - 0xF0, b - 0x80, c - 0x80, d - 0x80;
    assert v == 64 * (64 * (64 * x + y) + z) + w;
    assert v / 64 == 64 * (64 * x + y) + z && v % 64 == w;
    assert v / 4096 == 64 * x + y;
    assert v / 262144 == x;
  }

  /** The decoder accepts nothing but the encoding of the character it returns. */
  lemma NextCharSound(bs: seq<Byte>)
    requires bs != [] && NextChar(bs).Decoded?
    ensures bs[..NextChar(bs).size] == EncodeChar(NextChar(bs).c)
  {
    var n := Announced(bs[0]);
    if n == 2 {
      Joins2(bs[0], bs[1]);
    } else if n == 3 {
      Joins3(bs[0], bs[1], bs[2]);
    } else if n == 4 {
      Joins4(bs[0], bs[1], bs[2], bs[3]);
    }
  }

  /** A character cut short at the end of input is dropped whole. */
  lemma NextCharCutShort(c: char, n: nat)
    requires 0 < n < |EncodeChar(c)|
    ensures NextChar(EncodeChar(c)[..n]) == Dropped(n)
  {
  }

  lemma TailBytesContinue(c: char, i: nat)
    requires 0 < i < |EncodeChar(c)|
    ensures Continuation(EncodeChar(c)[i])
  {
  }
}
