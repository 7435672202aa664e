/**
  UTF-8 as sections 3 and 4 of RFC 3629 define it, over Unicode scalar values, and the decoder that
  Python's `bytes.decode("utf-8", errors="ignore")` runs on arbitrary bytes: each maximal ill-formed
  part is dropped and decoding goes on behind it.
  */
module Utf8 {
  import opened Options
  import opened Utf8Char

  function Encode(s: string): (bs: seq<Byte>) {
    if s == "" then [] else EncodeChar(s[0]) + Encode(s[1..])
  }

  function ByteLength(s: string): nat {
    |Encode(s)|
  }

  /** `bs.decode("utf-8", errors="ignore")` */
  function DecodeIgnore(bs: seq<Byte>): string {
    if bs == [] then ""
    else
      match NextChar(bs)
      case Decoded(c, n) => [c] + DecodeIgnore(bs[n..])
      case Dropped(n) => DecodeIgnore(bs[n..])
  }

  /** `bs.decode("utf-8")`, with None for the UnicodeDecodeError. */
  function DecodeStrict(bs: seq<Byte>): Option<string> {
    if bs == [] then Some("")
    else
      match NextChar(bs)
      case Dropped(_) => None
      case Decoded(c, n) =>
        match DecodeStrict(bs[n..])
        case None => None
        case Some(s) => Some([c] + s)
  }

  // ----- the decoders undo the encoder

  lemma {:induction false} EncodeAppend(s: string, t: string)
    ensures Encode(s + t) == Encode(s) + Encode(t)
  {
    if s == "" {
      assert s + t == t;
    } else {
      assert (s + t)[0] == s[0] && (s + t)[1..] == s[1..] + t;
      EncodeAppend(s[1..], t);
    }
  }

  lemma DecodeCharThen(c: char, rest: seq<Byte>)
    ensures DecodeIgnore(EncodeChar(c) + rest) == [c] + DecodeIgnore(rest)
    ensures DecodeStrict(EncodeChar(c) + rest) ==
            match DecodeStrict(rest) case None => None case Some(s) => Some([c] + s)
  {
    NextCharEncoded(c, rest);
    assert (EncodeChar(c) + rest)[|EncodeChar(c)|..] == rest;
  }

  lemma {:induction false} DecodeTextThen(s: string, rest: seq<Byte>)
    ensures DecodeIgnore(Encode(s) + rest) == s + DecodeIgnore(rest)
  {
    hide EncodeChar, DecodeIgnore, NextChar;
    if s == "" {
      assert Encode(s) + rest == rest;
    } else {
      var e := Encode(s[1..]);
      calc {
        DecodeIgnore(Encode(s) + rest);
        { assert Encode(s) + rest == EncodeChar(s[0]) + (e + rest); }
        DecodeIgnore(EncodeChar(s[0]) + (e + rest));
        { DecodeCharThen(s[0], e + rest); }
        [s[0]] + DecodeIgnore(e + rest);
        { DecodeTextThen(s[1..], rest); }
        [s[0]] + (s[1..] + DecodeIgnore(rest));
        s + DecodeIgnore(rest);
      }
    }
  }

  /** Both decoders undo the encoder. */
  lemma {:induction false} RoundTrip(s: string)
    ensures DecodeIgnore(Encode(s)) == s
    ensures DecodeStrict(Encode(s)) == Some(s)
  {
    if s != "" {
      DecodeCharThen(s[0], Encode(s[1..]));
      RoundTrip(s[1..]);
    }
  }

  /** The strict decoder accepts exactly the encodings, each as the text it encodes. */
  lemma {:induction false} StrictAcceptsEncodings(bs: seq<Byte>, s: string)
    ensures DecodeStrict(bs) == Some(s) <==> bs == Encode(s)
    decreases |bs|
  {
    if bs == Encode(s) {
      RoundTrip(s);
    }
    if bs != [] && DecodeStrict(bs) == Some(s) {
      var n := NextChar(bs).size;
      NextCharSound(bs);
      StrictAcceptsEncodings(bs[n..], s[1..]);
      assert bs == bs[..n] + bs[n..];
    }
  }

  /** On any bytes at all, what the lenient decoder keeps encodes into no more bytes than it read. */
  lemma {:induction false} DecodeIgnoreShrinks(bs: seq<Byte>)
    ensures ByteLength(DecodeIgnore(bs)) <= |bs|
    decreases |bs|
  {
    if bs != [] {
      var n := NextChar(bs).size;
      DecodeIgnoreShrinks(bs[n..]);
      if NextChar(bs).Decoded? {
        NextCharSound(bs);
      }
    }
  }

  /** k counts the characters of the longest prefix of s that fits n bytes. */
  ghost predicate LongestPrefix(s: string, n: int, k: nat) {
    && k <= |s| && ByteLength(s[..k]) <= n
    && (k < |s| ==> n < ByteLength(s[..k + 1]))
  }

  /** k is where the longest suffix of s that fits n bytes starts. */
  ghost predicate LongestSuffix(s: string, n: int, k: nat) {
    && k <= |s| && ByteLength(s[k..]) <= n
    && (0 < k ==> n < ByteLength(s[k - 1..]))
  }

  lemma SplitLength(s: string, k: nat)
    requires k <= |s|
    ensures Encode(s) == Encode(s[..k]) + Encode(s[k..])
  {
    assert s == s[..k] + s[k..];
    EncodeAppend(s[..k], s[k..]);
  }

  /** Cutting an encoding anywhere and ignoring errors yields the longest prefix that fits the cut. */
  lemma {:induction false} CutPrefix(s: string, n: nat) returns (k: nat)
    requires n <= ByteLength(s)
    ensures LongestPrefix(s, n, k)
    ensures DecodeIgnore(Encode(s)[..n]) == s[..k]
  {
    if s == "" {
      k := 0;
    } else {
      var e, rest := EncodeChar(s[0]), Encode(s[1..]);
      if n < |e| {
        k := 0;
        assert s[..1] == [s[0]];
        assert Encode(s[..1]) == e;
        if n > 0 {
          assert Encode(s)[..n] == e[..n];
          NextCharCutShort(s[0], n);
        }
      } else {
        var m := CutPrefix(s[1..], n - |e|);
        k := m + 1;
        assert Encode(s)[..n] == e + rest[..n - |e|];
        DecodeCharThen(s[0], rest[..n - |e|]);
        PrefixLengthStep(s, m);
        if m < |s[1..]| {
          PrefixLengthStep(s, m + 1);
        }
      }
    }
  }

  lemma PrefixLengthStep(s: string, m: nat)
    requires 1 + m <= |s|
    ensures s[..m + 1] == [s[0]] + s[1..][..m]
    ensures Encode(s[..m + 1]) == EncodeChar(s[0]) + Encode(s[1..][..m])
  {
  }

  lemma {:induction false} TailBytesIgnored(c: char, i: nat, rest: seq<Byte>)
    requires 0 < i <= |EncodeChar(c)|
    ensures DecodeIgnore(EncodeChar(c)[i..] + rest) == DecodeIgnore(rest)
    decreases |EncodeChar(c)| - i
  {
    var e := EncodeChar(c);
    if i == |e| {
      assert e[i..] + rest == rest;
    } else {
      TailBytesContinue(c, i);
      var bs := e[i..] + rest;
      assert bs[0] == e[i];
      assert NextChar(bs) == Dropped(1);
      assert bs[1..] == e[i + 1..] + rest;
      TailBytesIgnored(c, i + 1, rest);
    }
  }

  lemma LongestSuffixNext(s: string, n: nat, m: nat)
    requires s != "" && n < ByteLength(s) && LongestSuffix(s[1..], n, m)
    ensures LongestSuffix(s, n, m + 1)
  {
    hide Encode;
    assert s[1..][m..] == s[m + 1..];
    if m > 0 {
      assert s[1..][m - 1..] == s[m..];
    } else {
      assert s[0..] == s;
    }
  }

  /** Starting inside an encoding and ignoring errors yields the longest suffix that fits. */
  lemma {:induction false} CutSuffix(s: string, from: nat) returns (k: nat)
    requires from <= ByteLength(s)
    ensures LongestSuffix(s, ByteLength(s) - from, k)
    ensures DecodeIgnore(Encode(s)[from..]) == s[k..]
  {
    hide EncodeChar, DecodeIgnore;
    if from == 0 {
      k := 0;
      RoundTrip(s);
    } else {
      var e, rest := EncodeChar(s[0]), Encode(s[1..]);
      if from <= |e| {
        k := 1;
        assert Encode(s)[from..] == e[from..] + rest;
        TailBytesIgnored(s[0], from, rest);
        RoundTrip(s[1..]);
        assert s[0..] == s;
      } else {
        var m := CutSuffix(s[1..], from - |e|);
        k := m + 1;
        assert Encode(s)[from..] == rest[from - |e|..];
        LongestSuffixNext(s, ByteLength(s) - from, m);
        assert s[1..][m..] == s[k..];
      }
    }
  }
}
