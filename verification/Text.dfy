/** The parts of Python's `str` that the models use: white space, strip, and the order of strings. */
module Text {

  /** The characters `str.strip`, `str.isspace` and a regular expression's `\s` treat as white space. */
  predicate IsSpace(c: char) {
    var v := c as int;
    || 0x09 <= v <= 0x0D || 0x1C <= v <= 0x20 || v == 0x85 || v == 0xA0 || v == 0x1680
    || 0x2000 <= v <= 0x200A || v == 0x2028 || v == 0x2029 || v == 0x202F || v == 0x205F || v == 0x3000
  }

  /** All of them: ten of ASCII, and nineteen others. */
  const SPACES: string :=
    "\t\n\U{B}\U{C}\r\U{1C}\U{1D}\U{1E}\U{1F} "
    + "\U{85}\U{A0}\U{1680}\U{2000}\U{2001}\U{2002}\U{2003}\U{2004}\U{2005}\U{2006}\U{2007}\U{2008}\U{2009}"
    + "\U{200A}\U{2028}\U{2029}\U{202F}\U{205F}\U{3000}"

  lemma SpacesAre(c: char)
    ensures IsSpace(c) <==> c in SPACES
  {
    var v := c as int;
    assert c == v as char;
  }

  predicate Blank(s: string) {
    forall i :: 0 <= i < |s| ==> IsSpace(s[i])
  }

  function SkipSpace(s: string): (r: string)
    ensures |r| <= |s| && r == s[|s| - |r|..] && Blank(s[..|s| - |r|])
    ensures r != "" ==> !IsSpace(r[0])
  {
    if s != "" && IsSpace(s[0]) then SkipSpace(s[1..]) else s
  }

  function StripRight(s: string): (r: string)
    ensures |r| <= |s| && r == s[..|r|] && Blank(s[|r|..])
    ensures r != "" ==> !IsSpace(r[|r| - 1])
  {
    if s != "" && IsSpace(s[|s| - 1]) then StripRight(s[..|s| - 1]) else s
  }

  /** `s.strip()` */
  function Strip(s: string): (r: string) {
    StripRight(SkipSpace(s))
  }

  /** Stripping keeps a slice of the text, drops white space only, and leaves none at either end. */
  lemma StripSlices(s: string) returns (i: nat, j: nat)
    ensures i <= j <= |s| && Strip(s) == s[i..j]
    ensures Blank(s[..i]) && Blank(s[j..])
    ensures i < j ==> !IsSpace(s[i]) && !IsSpace(s[j - 1])
  {
    hide IsSpace, SkipSpace, StripRight;
    var left := SkipSpace(s);
    var r := StripRight(left);
    i := |s| - |left|;
    j := i + |r|;
    assert left[|r|..] == s[j..];
    if i < j {
      assert r[0] == left[0] == s[i];
      assert r[|r| - 1] == s[j - 1];
    }
  }

  lemma StripBlank(s: string)
    ensures Strip(s) == "" <==> Blank(s)
  {
    var i, j := StripSlices(s);
    if i < j {
      assert !IsSpace(s[i]);
    }
    if i == j {
      forall k | 0 <= k < |s| ensures IsSpace(s[k]) {
        if k < i {
          assert s[k] == s[..i][k];
        } else {
          assert s[k] == s[j..][k - j];
        }
      }
    }
  }

  /** `a <= b` on strings: by code points, a prefix first. */
  predicate StrLeq(a: string, b: string) {
    a == "" || (b != "" && (a[0] < b[0] || (a[0] == b[0] && StrLeq(a[1..], b[1..]))))
  }

  lemma {:induction false} StrLeqTotal(a: string, b: string)
    ensures StrLeq(a, b) || StrLeq(b, a)
  {
    if a != "" && b != "" {
      StrLeqTotal(a[1..], b[1..]);
    }
  }

  lemma {:induction false} StrLeqTransitive(a: string, b: string, c: string)
    requires StrLeq(a, b) && StrLeq(b, c)
    ensures StrLeq(a, c)
  {
    if a != "" && a[0] == b[0] == c[0] {
      StrLeqTransitive(a[1..], b[1..], c[1..]);
    }
  }

  lemma {:induction false} StrLeqAntisymmetric(a: string, b: string)
    requires StrLeq(a, b) && StrLeq(b, a)
    ensures a == b
  {
    if a != "" {
      StrLeqAntisymmetric(a[1..], b[1..]);
      assert a == [a[0]] + a[1..] && b == [b[0]] + b[1..];
    }
  }

  lemma StrLeqInitial(a: string, b: string)
    requires a != "" && b != "" && a[0] < b[0]
    ensures StrLeq(a, b) && !StrLeq(b, a)
  {
  }

  /** A common beginning does not matter. */
  lemma {:induction false} StrLeqAppend(prefix: string, a: string, b: string)
    ensures StrLeq(prefix + a, prefix + b) <==> StrLeq(a, b)
  {
    if prefix == "" {
      assert prefix + a == a && prefix + b == b;
    } else {
      assert (prefix + a)[1..] == prefix[1..] + a && (prefix + b)[1..] == prefix[1..] + b;
      StrLeqAppend(prefix[1..], a, b);
    }
  }

  /** The strings part at i, and the first has the smaller character there. */
  predicate LessAt(a: string, b: string, i: nat) {
    i < |a| && i < |b| && a[..i] == b[..i] && a[i] < b[i]
  }

  /** A string stands before another exactly when it is a prefix of it, or has the smaller character where they part. */
  lemma {:induction false} StrLeqMeans(a: string, b: string)
    ensures StrLeq(a, b) <==> a <= b || exists i :: LessAt(a, b, i)
  {
    if a != "" && b != "" && a[0] == b[0] {
      StrLeqMeans(a[1..], b[1..]);
      assert a == [a[0]] + a[1..] && b == [b[0]] + b[1..];
      if i: nat :| LessAt(a[1..], b[1..], i) {
        assert LessAt(a, b, i + 1);
      }
      if i: nat :| LessAt(a, b, i) {
        assert i > 0 && LessAt(a[1..], b[1..], i - 1);
      }
    } else if a != "" && b != "" && a[0] < b[0] {
      assert LessAt(a, b, 0);
    }
  }

  /** The order on strings is total, transitive and antisymmetric. */
  lemma StrLeqOrders()
    ensures forall a, b :: StrLeq(a, b) || StrLeq(b, a)
    ensures forall a, b, c :: StrLeq(a, b) && StrLeq(b, c) ==> StrLeq(a, c)
    ensures forall a, b :: StrLeq(a, b) && StrLeq(b, a) ==> a == b
  {
    forall a, b ensures StrLeq(a, b) || StrLeq(b, a) {
      StrLeqTotal(a, b);
    }
    forall a, b, c | StrLeq(a, b) && StrLeq(b, c) ensures StrLeq(a, c) {
      StrLeqTransitive(a, b, c);
    }
    forall a, b | StrLeq(a, b) && StrLeq(b, a) ensures a == b {
      StrLeqAntisymmetric(a, b);
    }
  }

  /** Some text is none of these. */
  lemma FreshText(xs: seq<string>) returns (t: string)
    ensures t != "" && t !in xs
    ensures forall i :: 0 <= i < |xs| ==> |xs[i]| < |t|
  {
    if xs == [] {
      t := "x";
    } else {
      var u := FreshText(xs[1..]);
      t := u + xs[0];
      assert forall i :: 1 <= i < |xs| ==> xs[i] == xs[1..][i - 1];
    }
  }

  /** `"\n".join(lines)` */
  function JoinLines(lines: seq<string>): string {
    if lines == [] then ""
    else if |lines| == 1 then lines[0]
    else lines[0] + "\n" + JoinLines(lines[1..])
  }

  lemma {:induction false} JoinLinesAppend(xs: seq<string>, ys: seq<string>)
    requires xs != [] && ys != []
    ensures JoinLines(xs + ys) == JoinLines(xs) + "\n" + JoinLines(ys)
  {
    if |xs| == 1 {
      assert (xs + ys)[1..] == ys;
    } else {
      assert (xs + ys)[0] == xs[0] && (xs + ys)[1..] == xs[1..] + ys;
      JoinLinesAppend(xs[1..], ys);
      calc {
        JoinLines(xs + ys);
        xs[0] + "\n" + JoinLines(xs[1..] + ys);
        xs[0] + "\n" + (JoinLines(xs[1..]) + "\n" + JoinLines(ys));
        JoinLines(xs) + "\n" + JoinLines(ys);
      }
    }
  }

  /** Decimal digits, as an f-string prints an int. */
  function Digits(n: nat): (s: string)
    ensures s != ""
    ensures forall c :: c in s ==> '0' <= c <= '9'
  {
    var d := [('0' as int + n % 10) as char];
    if n < 10 then d else Digits(n / 10) + d
  }

  function Decimal(n: int): string {
    if n < 0 then "-" + Digits(-n) else Digits(n)
  }

  /** The number that decimal digits write. */
  function ReadDigits(s: string): int {
    if s == "" then 0 else 10 * ReadDigits(s[..|s| - 1]) + (s[|s| - 1] as int - '0' as int)
  }

  lemma {:induction false} DigitsRead(n: nat)
    ensures ReadDigits(Digits(n)) == n
    ensures Digits(n)[0] == '0' ==> n == 0
  {
    if n >= 10 {
      DigitsRead(n / 10);
      var d := [('0' as int + n % 10) as char];
      assert (Digits(n / 10) + d)[..|Digits(n / 10)|] == Digits(n / 10);
    }
  }

  /** A printed number reads back as itself. */
  lemma DecimalReads(n: int)
    ensures n >= 0 ==> ReadDigits(Decimal(n)) == n
    ensures n < 0 ==> Decimal(n)[0] == '-' && ReadDigits(Decimal(n)[1..]) == -n
  {
    if n < 0 {
      DigitsRead(-n);
      assert ("-" + Digits(-n))[1..] == Digits(-n);
    } else {
      DigitsRead(n);
    }
  }
}
