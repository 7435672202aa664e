/** Base 64 of section 4 of RFC 4648, and the lenient decoder behind Python's `base64.b64decode`. */
module Base64 {
  import opened Options
  import opened Utf8Char

  type Sextet = v: int | 0 <= v < 64

  function Symbol(v: Sextet): char {
    if v < 26 then ('A' as int + v) as char
    else if v < 52 then ('a' as int + (v - 26)) as char
    else if v < 62 then ('0' as int + (v - 52)) as char
    else if v == 62 then '+'
    else '/'
  }

  /** The value of a symbol, -1 for any other character. */
  function SymbolValue(c: char): int {
    if 'A' <= c <= 'Z' then c as int - 'A' as int
    else if 'a' <= c <= 'z' then c as int - 'a' as int + 26
    else if '0' <= c <= '9' then c as int - '0' as int + 52
    else if c == '+' then 62
    else if c == '/' then 63
    else -1
  }

  /** The characters a payload may hold: `[A-Za-z0-9+/=]` */
  predicate PayloadChar(c: char) {
    SymbolValue(c) >= 0 || c == '='
  }

  function Encode64(bs: seq<Byte>): string {
    if bs == [] then ""
    else if |bs| == 1 then
      [Symbol(bs[0] / 4), Symbol(bs[0] % 4 * 16), '=', '=']
    else if |bs| == 2 then
      [Symbol(bs[0] / 4), Symbol(bs[0] % 4 * 16 + bs[1] / 16), Symbol(bs[1] % 16 * 4), '=']
    else
      [Symbol(bs[0] / 4), Symbol(bs[0] % 4 * 16 + bs[1] / 16), Symbol(bs[1] % 16 * 4 + bs[2] / 64), Symbol(bs[2] % 64)]
      + Encode64(bs[3..])
  }

  /**
    The decoder's loop: `quad` symbols of the current group are read, `left` holds the bits not yet
    written, `pads` counts the padding since the last symbol. Other characters are skipped, enough
    padding ends the input, and an incomplete group at the end is an error.
    */
  function DecodeFrom(s: string, quad: nat, left: nat, pads: nat): Option<seq<Byte>>
    requires quad < 4
    requires quad == 1 ==> left < 64
    requires quad == 2 ==> left < 16
    requires quad == 3 ==> left < 4
  {
    if s == "" then
      if quad != 0 then None else Some([])
    else
      var v := SymbolValue(s[0]);
      if s[0] == '=' then
        if quad >= 2 && quad + pads + 1 >= 4 then Some([])
        else DecodeFrom(s[1..], quad, left, if quad >= 2 then pads + 1 else pads)
      else if v < 0 then DecodeFrom(s[1..], quad, left, pads)
      else if quad == 0 then DecodeFrom(s[1..], 1, v, 0)
      else if quad == 1 then Emit(left * 4 + v / 16, DecodeFrom(s[1..], 2, v % 16, 0))
      else if quad == 2 then Emit(left * 16 + v / 4, DecodeFrom(s[1..], 3, v % 4, 0))
      else Emit(left * 64 + v, DecodeFrom(s[1..], 0, 0, 0))
  }

  function Emit(b: Byte, rest: Option<seq<Byte>>): Option<seq<Byte>> {
    match rest
    case None => None
    case Some(bs) => Some([b] + bs)
  }

  /** `base64.b64decode`, with None for binascii.Error. */
  function Decode64(s: string): Option<seq<Byte>> {
    DecodeFrom(s, 0, 0, 0)
  }

  lemma SymbolsDecode(v: Sextet)
    ensures SymbolValue(Symbol(v)) == v && Symbol(v) != '='
  {
  }

  /** Four symbols decode to their three bytes, whatever follows. */
  lemma GroupDecodes(a: Sextet, b: Sextet, c: Sextet, d: Sextet, rest: string)
    ensures Decode64([Symbol(a), Symbol(b), Symbol(c), Symbol(d)] + rest)
            == Emit(a * 4 + b / 16, Emit(b % 16 * 16 + c / 4, Emit(c % 4 * 64 + d, Decode64(rest))))
  {
    SymbolsDecode(a);
    SymbolsDecode(b);
    SymbolsDecode(c);
    SymbolsDecode(d);
    hide Symbol, SymbolValue;
    var s := [Symbol(a), Symbol(b), Symbol(c), Symbol(d)] + rest;
    assert s[1..][0] == Symbol(b) && s[1..][1..] == s[2..];
    assert s[2..][0] == Symbol(c) && s[2..][1..] == s[3..];
    assert s[3..][0] == Symbol(d) && s[3..][1..] == rest;
    assert DecodeFrom(s[3..], 3, c % 4, 0) == Emit(c % 4 * 64 + d, Decode64(rest));
    assert DecodeFrom(s[2..], 2, b % 16, 0) == Emit(b % 16 * 16 + c / 4, DecodeFrom(s[3..], 3, c % 4, 0));
    assert DecodeFrom(s[1..], 1, a, 0) == Emit(a * 4 + b / 16, DecodeFrom(s[2..], 2, b % 16, 0));
  }

  lemma ShortGroupDecodes(a: Sextet, b: Sextet)
    ensures Decode64([Symbol(a), Symbol(b), '=', '=']) == Some([a * 4 + b / 16])
  {
    SymbolsDecode(a);
    SymbolsDecode(b);
    hide Symbol, SymbolValue;
    var s := [Symbol(a), Symbol(b), '=', '='];
    assert s[1..] == [Symbol(b), '=', '='];
    assert s[1..][1..] == ['=', '='] && ['=', '='][1..] == ['='];
    assert DecodeFrom(['='], 2, b % 16, 1) == Some([]);
    assert DecodeFrom(['=', '='], 2, b % 16, 0) == Some([]);
    assert DecodeFrom([Symbol(b), '=', '='], 1, a, 0) == Emit(a * 4 + b / 16, Some([]));
    assert DecodeFrom(s, 0, 0, 0) == DecodeFrom(s[1..], 1, a, 0);
    assert [a * 4 + b / 16] + [] == [a * 4 + b / 16];
  }

  lemma LongGroupDecodes(a: Sextet, b: Sextet, c: Sextet)
    ensures Decode64([Symbol(a), Symbol(b), Symbol(c), '=']) == Some([a * 4 + b / 16, b % 16 * 16 + c / 4])
  {
    SymbolsDecode(a);
    SymbolsDecode(b);
    SymbolsDecode(c);
    hide Symbol, SymbolValue;
    var s := [Symbol(a), Symbol(b), Symbol(c), '='];
    assert s[1..] == [Symbol(b), Symbol(c), '='];
    assert s[1..][1..] == [Symbol(c), '='] && s[1..][1..][1..] == ['='];
    assert DecodeFrom(['='], 3, c % 4, 0) == Some([]);
    assert [Symbol(c), '='][1..] == ['='];
    assert DecodeFrom([Symbol(c), '='], 2, b % 16, 0) == Emit(b % 16 * 16 + c / 4, Some([]));
    assert DecodeFrom([Symbol(b), Symbol(c), '='], 1, a, 0)
           == Emit(a * 4 + b / 16, DecodeFrom([Symbol(c), '='], 2, b % 16, 0));
    assert DecodeFrom(s, 0, 0, 0) == DecodeFrom(s[1..], 1, a, 0);
    var x, y := a * 4 + b / 16, b % 16 * 16 + c / 4;
    assert [x] + ([y] + []) == [x, y];
  }

  lemma DecodesNothing()
    ensures Decode64("") == Some([])
  {
  }

  lemma ThreeBytesDecode(x: Byte, y: Byte, z: Byte, rest: seq<Byte>)
    requires Decode64(Encode64(rest)) == Some(rest)
    ensures Decode64([Symbol(x / 4), Symbol(x % 4 * 16 + y / 16), Symbol(y % 16 * 4 + z / 64), Symbol(z % 64)]
                     + Encode64(rest))
            == Some([x, y, z] + rest)
  {
    hide Symbol, SymbolValue, DecodeFrom, Decode64, Encode64;
    GroupDecodes(x / 4, x % 4 * 16 + y / 16, y % 16 * 4 + z / 64, z % 64, Encode64(rest));
    assert [x] + ([y] + ([z] + rest)) == [x, y, z] + rest;
  }

  /** Decoding an encoding gives the bytes back. */
  lemma {:induction false} Base64RoundTrip(bs: seq<Byte>)
    ensures Decode64(Encode64(bs)) == Some(bs)
  {
    hide Symbol, SymbolValue, DecodeFrom, Decode64;
    if bs == [] {
      DecodesNothing();
    } else if |bs| == 1 {
      ShortGroupDecodes(bs[0] / 4, bs[0] % 4 * 16);
      assert bs == [bs[0]];
    } else if |bs| == 2 {
      LongGroupDecodes(bs[0] / 4, bs[0] % 4 * 16 + bs[1] / 16, bs[1] % 16 * 4);
      assert bs == [bs[0], bs[1]];
    } else {
      Base64RoundTrip(bs[3..]);
      ThreeBytesDecode(bs[0], bs[1], bs[2], bs[3..]);
      assert bs == [bs[0], bs[1], bs[2]] + bs[3..];
    }
  }

  /** An encoding consists of payload characters, and is empty only for no bytes. */
  lemma {:induction false} EncodedIsPayload(bs: seq<Byte>)
    ensures forall c | c in Encode64(bs) :: PayloadChar(c)
    ensures Encode64(bs) == "" <==> bs == []
  {
    if |bs| > 2 {
      EncodedIsPayload(bs[3..]);
    }
  }

  /** The alphabet of section 4 of RFC 4648. */
  lemma AlphabetIs(v: Sextet)
    ensures Symbol(v) == if v < 26 then "ABCDEFGHIJKLMNOPQRSTUVWXYZ"[v]
                         else if v < 52 then "abcdefghijklmnopqrstuvwxyz"[v - 26]
                         else "0123456789+/"[v - 52]
  {
    if v < 26 {
      CapitalIs(v);
    } else if v < 52 {
      SmallIs(v - 26);
    } else if v < 62 {
      assert "0123456789+/"[v - 52] as int == '0' as int + (v - 52);
    }
  }

  lemma CapitalIs(i: nat)
    requires i < 26
    ensures "ABCDEFGHIJKLMNOPQRSTUVWXYZ"[i] == ('A' as int + i) as char
  {
    assert "ABCDEFGHIJKLMNOPQRSTUVWXYZ"[i] as int == 'A' as int + i;
  }

  lemma SmallIs(i: nat)
    requires i < 26
    ensures "abcdefghijklmnopqrstuvwxyz"[i] == ('a' as int + i) as char
  {
    assert "abcdefghijklmnopqrstuvwxyz"[i] as int == 'a' as int + i;
  }

  // ----- what else is decoded

  function Pads(n: nat): string {
    seq(n, _ => '=')
  }

  /** The padding a group needs: none when it is complete, and nothing helps a single symbol. */
  predicate Padded(symbols: nat, pads: nat) {
    symbols % 4 == 0 || (symbols % 4 == 2 && pads >= 2) || (symbols % 4 == 3 && pads >= 1)
  }

  lemma {:induction false} PadsDecode(n: nat, quad: nat, left: nat, pads: nat)
    requires quad < 4 && (quad == 1 ==> left < 64) && (quad == 2 ==> left < 16) && (quad == 3 ==> left < 4)
    requires quad + pads < 4 && (quad < 2 ==> pads == 0)
    ensures DecodeFrom(Pads(n), quad, left, pads).Some? <==> Padded(quad, pads + n)
  {
    if n > 0 {
      assert Pads(n)[1..] == Pads(n - 1);
      if quad < 2 {
        PadsDecode(n - 1, quad, left, 0);
      } else if quad + pads + 1 < 4 {
        PadsDecode(n - 1, quad, left, pads + 1);
      }
    }
  }

  lemma {:induction false} PaddedDecodes(s: string, n: nat, quad: nat, left: nat)
    requires quad < 4 && (quad == 1 ==> left < 64) && (quad == 2 ==> left < 16) && (quad == 3 ==> left < 4)
    requires forall c | c in s :: SymbolValue(c) >= 0
    ensures DecodeFrom(s + Pads(n), quad, left, 0).Some? <==> Padded(quad + |s|, n)
  {
    hide Pads, SymbolValue;
    if s == "" {
      assert s + Pads(n) == Pads(n);
      PadsDecode(n, quad, left, 0);
    } else {
      var v := SymbolValue(s[0]);
      SymbolIsNoPad(s[0]);
      assert (s + Pads(n))[1..] == s[1..] + Pads(n);
      PaddedDecodes(s[1..], n, (quad + 1) % 4,
                    if quad == 0 then v else if quad == 1 then v % 16 else if quad == 2 then v % 4 else 0);
    }
  }

  lemma SymbolIsNoPad(c: char)
    requires SymbolValue(c) >= 0
    ensures c != '=' && SymbolValue(c) < 64
  {
  }

  /** Symbols and padding are decoded exactly when every group of four is complete or has the padding it lacks. */
  lemma DecodesIff(s: string, n: nat)
    requires forall c | c in s :: SymbolValue(c) >= 0
    ensures Decode64(s + Pads(n)).Some? <==> Padded(|s|, n)
  {
    PaddedDecodes(s, n, 0, 0);
  }
}
