/** The byte trimmer that cuts prompt material to a budget without splitting a character. */
module Trim {
  import opened Numbers
  import opened Options
  import opened Utf8
  import opened Utf8Char
  import opened Text

  /** `_trim_text_to_bytes` */
  function TrimTextToBytes(text: string, maxBytes: int, marker: string): string {
    var target := Max(0, maxBytes);
    var raw := Encode(text);
    if |raw| <= target then text
    else if target <= 0 then ""
    else if target <= ByteLength(marker) then DecodeIgnore(raw[..target])
    else Strip(CutText(raw, target, marker))
  }

  /** Head, marker and tail, before the final strip. */
  function CutText(raw: seq<Byte>, target: nat, marker: string): string
    requires ByteLength(marker) < target < |raw|
  {
    var keep := target - ByteLength(marker);
    var headBytes := Max(1, keep / 2);
    var tailBytes := Max(0, keep - headBytes);
    HeadOf(raw, headBytes) + marker + TailOf(raw, tailBytes)
  }

  function HeadOf(raw: seq<Byte>, n: nat): string
    requires n <= |raw|
  {
    DecodeIgnore(raw[..n])
  }

  /** The last n bytes decoded; `raw[-0:]` would be all of them, so the code asks for n > 0 first. */
  function TailOf(raw: seq<Byte>, n: nat): string
    requires n <= |raw|
  {
    if n > 0 then DecodeIgnore(raw[|raw| - n..]) else ""
  }

  lemma SliceLength(s: string, i: nat, j: nat)
    requires i <= j <= |s|
    ensures ByteLength(s[i..j]) <= ByteLength(s)
  {
    SplitLength(s, j);
    SplitLength(s[..j], i);
    assert s[..j][i..] == s[i..j];
  }

  lemma PrefixLength(s: string, i: nat, j: nat)
    requires i <= j <= |s|
    ensures ByteLength(s[..i]) <= ByteLength(s[..j])
    ensures i < j ==> ByteLength(s[..i]) < ByteLength(s[..j])
  {
    SplitLength(s[..j], i);
    assert s[..j][..i] == s[..i] && s[..j][i..] == s[i..j];
    if i < j {
      assert ByteLength(s[i..j]) > 0;
    }
  }

  lemma SuffixLength(s: string, i: nat, j: nat)
    requires i <= j <= |s|
    ensures ByteLength(s[j..]) <= ByteLength(s[i..])
  {
    SplitLength(s[i..], j - i);
    assert s[i..][j - i..] == s[j..];
  }

  /**
    What a cut text looks like when the marker fits: the longest prefix within the head's share, the
    marker, and the longest suffix within the tail's share, taken from disjoint parts of the text.
    */
  ghost predicate CutAround(text: string, budget: nat, marker: string, i: nat, j: nat, whole: string)
    requires ByteLength(marker) < budget
  {
    var keep := budget - ByteLength(marker);
    var headBytes := Max(1, keep / 2);
    && LongestPrefix(text, headBytes, i)
    && LongestSuffix(text, keep - headBytes, j)
    && i <= j
    && whole == text[..i] + marker + text[j..]
  }

  /** A prefix and a suffix that together are shorter than the text do not overlap. */
  lemma ShortPiecesAreDisjoint(text: string, i: nat, j: nat)
    requires i <= |text| && j <= |text|
    requires ByteLength(text[..i]) + ByteLength(text[j..]) < ByteLength(text)
    ensures i <= j
  {
    SplitLength(text, i);
    if j < i {
      SuffixLength(text, j, i);
    }
  }

  lemma EmptyEncoding(s: string)
    requires ByteLength(s) == 0
    ensures s == ""
  {
  }

  lemma HeadKeeps(text: string, headBytes: nat) returns (i: nat)
    requires headBytes <= ByteLength(text)
    ensures LongestPrefix(text, headBytes, i)
    ensures text[..i] == HeadOf(Encode(text), headBytes)
  {
    i := CutPrefix(text, headBytes);
  }

  lemma TailKeeps(text: string, tailBytes: nat) returns (j: nat)
    requires tailBytes <= ByteLength(text)
    ensures LongestSuffix(text, tailBytes, j)
    ensures text[j..] == TailOf(Encode(text), tailBytes)
  {
    j := CutSuffix(text, ByteLength(text) - tailBytes);
    if tailBytes == 0 {
      EmptyEncoding(text[j..]);
    }
  }

  lemma CutPieces(text: string, headBytes: nat, tailBytes: nat) returns (i: nat, j: nat)
    requires headBytes + tailBytes < ByteLength(text)
    ensures LongestPrefix(text, headBytes, i) && LongestSuffix(text, tailBytes, j) && i <= j
    ensures text[..i] == HeadOf(Encode(text), headBytes)
    ensures text[j..] == TailOf(Encode(text), tailBytes)
  {
    i := HeadKeeps(text, headBytes);
    j := TailKeeps(text, tailBytes);
    ShortPiecesAreDisjoint(text, i, j);
  }

  lemma CutKeeps(text: string, budget: nat, marker: string) returns (i: nat, j: nat, whole: string)
    requires ByteLength(marker) < budget < ByteLength(text)
    ensures CutAround(text, budget, marker, i, j, whole)
    ensures TrimTextToBytes(text, budget, marker) == Strip(whole)
  {
    hide HeadOf, TailOf, Encode, LongestPrefix, LongestSuffix, Strip;
    var keep := budget - ByteLength(marker);
    var headBytes := Max(1, keep / 2);
    i, j := CutPieces(text, headBytes, keep - headBytes);
    whole := text[..i] + marker + text[j..];
    assert CutText(Encode(text), budget, marker) == whole;
  }

  lemma LengthAppends(s: string, t: string)
    ensures ByteLength(s + t) == ByteLength(s) + ByteLength(t)
  {
    EncodeAppend(s, t);
  }

  lemma CharLength(c: char)
    ensures 1 <= ByteLength([c]) <= 4
  {
    assert Encode([c][1..]) == [];
  }

  /** The cut itself wastes little: at most three bytes at each of the two cuts. */
  lemma CutUsesBudget(text: string, budget: nat, marker: string, i: nat, j: nat, whole: string)
    requires ByteLength(marker) < budget < ByteLength(text)
    requires CutAround(text, budget, marker, i, j, whole)
    ensures budget - 6 <= ByteLength(whole) <= budget
  {
    hide Encode, ByteLength;
    LengthAppends(text[..i] + marker, text[j..]);
    LengthAppends(text[..i], marker);
    if i < |text| {
      assert text[..i + 1] == text[..i] + [text[i]];
      LengthAppends(text[..i], [text[i]]);
      CharLength(text[i]);
    }
    if 0 < j {
      assert text[j - 1..] == [text[j - 1]] + text[j..];
      LengthAppends([text[j - 1]], text[j..]);
      CharLength(text[j - 1]);
    }
    assert text[..|text|] == text == text[0..];
  }

  /** A trimmed text never encodes into more than its budget; a negative budget counts as 0. */
  lemma TrimFits(text: string, maxBytes: int, marker: string)
    ensures ByteLength(TrimTextToBytes(text, maxBytes, marker)) <= Max(0, maxBytes)
  {
    var target := Max(0, maxBytes);
    var raw := Encode(text);
    if 0 < target < |raw| {
      if target <= ByteLength(marker) {
        DecodeIgnoreShrinks(raw[..target]);
      } else {
        var i, j, whole := CutKeeps(text, target, marker);
        CutUsesBudget(text, target, marker, i, j, whole);
        var a, b := StripSlices(whole);
        SliceLength(whole, a, b);
      }
    }
  }

  /** When not even the marker fits, what remains is the longest prefix that does. */
  lemma TrimBelowMarker(text: string, maxBytes: int, marker: string) returns (k: nat)
    requires maxBytes < ByteLength(text) && maxBytes <= ByteLength(marker)
    ensures LongestPrefix(text, Max(0, maxBytes), k)
    ensures TrimTextToBytes(text, maxBytes, marker) == text[..k]
  {
    k := CutPrefix(text, Max(0, maxBytes));
    if k > 0 {
      PrefixLength(text, 0, k);
    }
  }

  lemma StripIsNotBlank(s: string)
    ensures Blank(Strip(s)) <==> Strip(s) == ""
  {
    var i, j := StripSlices(s);
    if i < j {
      assert Strip(s)[0] == s[i];
    }
  }

  /** The longest prefix that fits n bytes is white space, and not empty. */
  ghost predicate BlankPrefix(text: string, n: int) {
    exists k :: k > 0 && LongestPrefix(text, n, k) && Blank(text[..k])
  }

  /**
    A text that is not blank is trimmed to something blank but not empty exactly when not even the marker
    fits and the longest prefix that fits is white space.
    */
  lemma TrimmedToBlankIff(text: string, maxBytes: int, marker: string)
    requires !Blank(text)
    ensures var r := TrimTextToBytes(text, maxBytes, marker);
            r != "" && Blank(r) <==>
            && 0 < maxBytes < ByteLength(text) && maxBytes <= ByteLength(marker)
            && BlankPrefix(text, maxBytes)
  {
    hide Strip, Encode, Blank, LongestPrefix;
    var r := TrimTextToBytes(text, maxBytes, marker);
    if 0 < maxBytes < ByteLength(text) {
      if maxBytes <= ByteLength(marker) {
        var k := TrimBelowMarker(text, maxBytes, marker);
        forall m | LongestPrefix(text, maxBytes, m) ensures m == k {
          OneLongestPrefix(text, maxBytes, k, m);
        }
        assert r == text[..k];
      } else {
        StripIsNotBlank(CutText(Encode(text), maxBytes, marker));
      }
    }
  }

  lemma OneLongestPrefix(s: string, n: nat, k: nat, m: nat)
    requires LongestPrefix(s, n, k) && LongestPrefix(s, n, m)
    ensures k == m
  {
    hide ByteLength;
    if k < m {
      PrefixLength(s, k + 1, m);
    }
    if m < k {
      PrefixLength(s, m + 1, k);
    }
  }

  // ----- one trim after another

  function TrimWithin(text: string, limit: Option<int>, marker: string): string {
    if limit.None? then text else TrimTextToBytes(text, limit.value, marker)
  }

  lemma PrefixOfPrefix(text: string, k: nat, n: nat, i: nat)
    requires k <= |text| && n < ByteLength(text[..k])
    ensures LongestPrefix(text[..k], n, i) <==> LongestPrefix(text, n, i)
  {
    hide ByteLength;
    if i < k {
      assert text[..k][..i] == text[..i] && text[..k][..i + 1] == text[..i + 1];
    } else if i <= |text| {
      PrefixLength(text, k, i);
      assert text[..k][..k] == text[..k];
    }
  }

  lemma SamePrefixOfLess(text: string, m: int, n: int, k: nat)
    requires LongestPrefix(text, m, k) && ByteLength(text[..k]) <= n <= m
    ensures LongestPrefix(text, n, k)
  {
    hide ByteLength;
  }

  lemma StripStartsSolid(s: string)
    ensures Strip(s) != "" ==> !IsSpace(Strip(s)[0])
  {
    hide Strip, IsSpace;
    var i, j := StripSlices(s);
  }

  lemma SolidHasNoBlankPrefix(text: string, n: int)
    requires text != "" && !IsSpace(text[0])
    ensures !Blank(text) && !BlankPrefix(text, n)
  {
    hide IsSpace, ByteLength;
    forall k: nat | 0 < k <= |text| ensures !Blank(text[..k]) {
      assert text[..k][0] == text[0];
    }
    assert !IsSpace(text[0]);
  }

  /** What a strip leaves does not start with white space, so no cut of it is blank. */
  lemma StrippedStaysSolid(whole: string, n: int, marker: string)
    ensures var twice := TrimTextToBytes(Strip(whole), n, marker); twice == "" || !Blank(twice)
  {
    hide Encode, BlankPrefix, Blank, Strip, IsSpace, TrimTextToBytes;
    var once := Strip(whole);
    if once == "" {
      EmptyLength("");
      TrimIdempotent("", n, marker);
    } else {
      StripStartsSolid(whole);
      SolidHasNoBlankPrefix(once, n);
      TrimmedToBlankIff(once, n, marker);
    }
  }

  /** A cut below the marker and then a smaller one: together they are the smaller one. */
  lemma CutBelowMarkerTwice(text: string, m: int, n: int, marker: string)
    requires 0 < m < ByteLength(text) && m <= ByteLength(marker)
    ensures var twice := TrimTextToBytes(TrimTextToBytes(text, m, marker), n, marker);
            twice != "" && Blank(twice) <==> 0 < n && BlankPrefix(text, if n < m then n else m)
  {
    hide Encode, LongestPrefix, Blank, ByteLength, Strip;
    var k := TrimBelowMarker(text, m, marker);
    var once := text[..k];
    LongestFits(text, m, k);
    if ByteLength(once) <= Max(0, n) {
      TrimIdempotent(once, n, marker);
      if n < m {
        SamePrefixOfLess(text, m, Max(0, n), k);
      }
      OnlyBlankPrefix(text, if n < m then Max(0, n) else m, k);
      EmptyLength(once);
    } else {
      LongestFits(text, m, k);
      var i := TrimBelowMarker(once, n, marker);
      PrefixOfPrefix(text, k, Max(0, n), i);
      LongestFits(once, Max(0, n), i);
      assert once[..i] == text[..i];
      OnlyBlankPrefix(text, Max(0, n), i);
      LongestFits(text, Max(0, n), i);
      EmptyLength(text[..i]);
    }
  }

  lemma LongestFits(text: string, n: int, k: nat)
    requires LongestPrefix(text, n, k)
    ensures k <= |text| && ByteLength(text[..k]) <= n
  {
    hide ByteLength;
  }

  lemma EmptyLength(s: string)
    ensures ByteLength(s) == 0 <==> s == ""
  {
    if s != "" {
      assert |EncodeChar(s[0])| > 0;
    }
  }

  lemma OnlyBlankPrefix(text: string, n: nat, k: nat)
    requires LongestPrefix(text, n, k)
    ensures BlankPrefix(text, n) <==> k > 0 && Blank(text[..k])
  {
    hide LongestPrefix, Blank;
    forall m | LongestPrefix(text, n, m) ensures m == k {
      OneLongestPrefix(text, n, k, m);
    }
  }

  /** The tighter of two limits. */
  function Tighter(a: Option<int>, b: Option<int>): Option<int> {
    if a.None? then b else if b.None? || a.value <= b.value then a else b
  }

  /**
    A text that is not blank comes out of two trims blank but not empty exactly when the tighter limit cuts it
    below its marker to leading white space, and the first limit does not cut it above its marker.
    */
  lemma TwiceTrimmedToBlankIff(text: string, first: Option<int>, second: Option<int>, marker: string)
    requires !Blank(text)
    ensures var r := TrimWithin(TrimWithin(text, first, marker), second, marker);
            var limit := Tighter(first, second);
            r != "" && Blank(r) <==>
            && limit.Some? && 0 < limit.value < ByteLength(text) && limit.value <= ByteLength(marker)
            && (first.Some? && first.value < ByteLength(text) ==> first.value <= ByteLength(marker))
            && BlankPrefix(text, limit.value)
  {
    hide Encode, Blank, BlankPrefix, ByteLength, CutText;
    if first.Some? && first.value < ByteLength(text) {
      CutThenCut(text, first.value, second, marker);
    } else {
      if first.Some? {
        TrimIdempotent(text, first.value, marker);
      }
      if second.Some? {
        TrimmedToBlankIff(text, second.value, marker);
      }
    }
  }

  lemma CutThenCut(text: string, m: int, second: Option<int>, marker: string)
    requires !Blank(text) && m < ByteLength(text)
    ensures var r := TrimWithin(TrimTextToBytes(text, m, marker), second, marker);
            var limit := Tighter(Some(m), second).value;
            r != "" && Blank(r) <==>
            0 < limit && m <= ByteLength(marker) && BlankPrefix(text, limit)
  {
    hide Encode, Blank, BlankPrefix, ByteLength, CutText, Strip, TrimTextToBytes;
    if m <= 0 {
      TrimFits(text, m, marker);
      EmptyLength(TrimTextToBytes(text, m, marker));
      if second.Some? {
        TrimFits("", second.value, marker);
        TrimIdempotent("", second.value, marker);
        EmptyLength("");
      }
    } else if m <= ByteLength(marker) {
      CutBelowMarkerTwice(text, m, if second.Some? then second.value else m, marker);
      if second.None? {
        TrimIdempotent(text, m, marker);
      }
    } else {
      StripsAbove(text, m, marker);
      var whole := CutText(Encode(text), m, marker);
      StripIsNotBlank(whole);
      if second.Some? {
        StrippedStaysSolid(whole, second.value, marker);
      }
    }
  }

  lemma StripsAbove(text: string, m: int, marker: string)
    requires ByteLength(marker) < m < ByteLength(text)
    ensures ByteLength(marker) < m < |Encode(text)|
    ensures TrimTextToBytes(text, m, marker) == Strip(CutText(Encode(text), m, marker))
  {
    hide Encode, Strip, CutText;
  }

  /** Only texts over budget change, so trimming again changes nothing. */
  lemma TrimIdempotent(text: string, maxBytes: int, marker: string)
    ensures TrimTextToBytes(text, maxBytes, marker) == text <==> ByteLength(text) <= Max(0, maxBytes)
    ensures var once := TrimTextToBytes(text, maxBytes, marker);
            TrimTextToBytes(once, maxBytes, marker) == once
  {
    TrimFits(text, maxBytes, marker);
  }
}
