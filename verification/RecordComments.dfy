/**
  The record comments both Markdown stores keep their payloads in: how a file is printed line by
  line, and what `finditer` of `<!--\s*TAG\s+([A-Za-z0-9+/=]+)\s*-->` finds in any text.
  */
module RecordComments {
  import opened Options
  import opened Sequences
  import opened Text
  import opened Base64

  function SkipPayload(s: string): (r: string)
    ensures |r| <= |s| && r == s[|s| - |r|..]
  {
    if s != "" && PayloadChar(s[0]) then SkipPayload(s[1..]) else s
  }

  /** What follows the literal, if s starts with it. */
  function After(lit: string, s: string): Option<string> {
    if lit <= s then Some(s[|lit|..]) else None
  }

  /**
    The pattern at the start of s: its payload and the text behind it. Each class is disjoint from
    what follows it in the pattern, so the longest run is the only one that can match.
    */
  function MatchHere(tag: string, s: string): Option<(string, string)> {
    match After("<!--", s)
    case None => None
    case Some(inside) =>
      match After(tag, SkipSpace(inside))
      case None => None
      case Some(gap) => MatchGap(gap)
  }

  /** The pattern from the white space behind the tag. */
  function MatchGap(gap: string): Option<(string, string)> {
    var payload := SkipSpace(gap);
    if |payload| == |gap| then None else MatchPayload(payload)
  }

  function MatchPayload(payload: string): Option<(string, string)> {
    var after := SkipPayload(payload);
    if |after| == |payload| then None
    else
      match After("-->", SkipSpace(after))
      case None => None
      case Some(rest) => Some((payload[..|payload| - |after|], rest))
  }

  /** The payloads of all matches, leftmost first, never overlapping. */
  function Scan(tag: string, s: string): seq<string>
    decreases |s|
  {
    if s == "" then []
    else
      match MatchHere(tag, s)
      case None => Scan(tag, s[1..])
      case Some((payload, rest)) => [payload] + Scan(tag, rest)
  }

  const TICK: char := '`'

  lemma {:induction false} SkipSpaceStops(u: string, v: string)
    requires v != "" && !IsSpace(v[0])
    ensures SkipSpace(u + v) == SkipSpace(u) + v
  {
    if u == "" {
      assert u + v == v;
    } else {
      assert (u + v)[0] == u[0] && (u + v)[1..] == u[1..] + v;
      SkipSpaceStops(u[1..], v);
    }
  }

  lemma {:induction false} SkipPayloadStops(u: string, v: string)
    requires v != "" && !PayloadChar(v[0])
    ensures SkipPayload(u + v) == SkipPayload(u) + v
  {
    hide PayloadChar;
    if u == "" {
      assert u + v == v;
    } else {
      assert (u + v)[0] == u[0] && (u + v)[1..] == u[1..] + v;
      SkipPayloadStops(u[1..], v);
    }
  }

  /** A literal without the first character of v cannot reach into v. */
  lemma LiteralStops(lit: string, u: string, v: string)
    requires v != "" && v[0] !in lit
    ensures After(lit, u + v) == match After(lit, u) case None => None case Some(rest) => Some(rest + v)
  {
    if |u| < |lit| {
      assert (u + v)[|u|] == v[0] && lit[|u|] in lit;
    } else {
      assert (u + v)[..|lit|] == u[..|lit|] && (u + v)[|lit|..] == u[|lit|..] + v;
    }
  }

  /** The match with more text behind it. */
  function Extend(m: Option<(string, string)>, v: string): Option<(string, string)> {
    match m
    case None => None
    case Some((payload, rest)) => Some((payload, rest + v))
  }

  lemma TickIsNeither()
    ensures !IsSpace(TICK) && !PayloadChar(TICK)
    ensures TICK !in "<!--" && TICK !in "-->"
  {
  }

  lemma PayloadStopsAtTick(payload: string, v: string)
    requires v != "" && v[0] == TICK
    ensures MatchPayload(payload + v) == Extend(MatchPayload(payload), v)
  {
    hide SkipPayload, SkipSpace, PayloadChar, IsSpace, After;
    TickIsNeither();
    SkipPayloadStops(payload, v);
    var after := SkipPayload(payload);
    SkipSpaceStops(after, v);
    LiteralStops("-->", SkipSpace(after), v);
    assert (payload + v)[..|payload| - |after|] == payload[..|payload| - |after|];
  }

  lemma GapStopsAtTick(gap: string, v: string)
    requires v != "" && v[0] == TICK
    ensures MatchGap(gap + v) == Extend(MatchGap(gap), v)
  {
    hide MatchPayload, SkipSpace, PayloadChar, IsSpace;
    TickIsNeither();
    SkipSpaceStops(gap, v);
    PayloadStopsAtTick(SkipSpace(gap), v);
  }

  /** A match cannot run across a back tick, which no part of the pattern accepts. */
  lemma MatchStopsAtTick(tag: string, u: string, v: string)
    requires TICK !in tag && v != "" && v[0] == TICK
    ensures MatchHere(tag, u + v) == Extend(MatchHere(tag, u), v)
  {
    hide MatchGap, SkipSpace, PayloadChar, IsSpace, After;
    TickIsNeither();
    LiteralStops("<!--", u, v);
    match After("<!--", u) {
      case None =>
      case Some(inside) =>
        SkipSpaceStops(inside, v);
        LiteralStops(tag, SkipSpace(inside), v);
        match After(tag, SkipSpace(inside)) {
          case None =>
          case Some(gap) => GapStopsAtTick(gap, v);
        }
    }
  }

  /** So scanning splits at every back tick. */
  lemma {:induction false} ScanSplitsAtTick(tag: string, u: string, v: string)
    requires TICK !in tag && v != "" && v[0] == TICK
    ensures Scan(tag, u + v) == Scan(tag, u) + Scan(tag, v[1..])
    decreases |u|
  {
    hide MatchHere;
    if u == "" {
      assert u + v == v;
      TickStartsNothing(tag, v);
    } else {
      MatchStopsAtTick(tag, u, v);
      match MatchHere(tag, u) {
        case None =>
          assert (u + v)[1..] == u[1..] + v;
          ScanSplitsAtTick(tag, u[1..], v);
        case Some((payload, rest)) =>
          MatchShrinks(tag, u);
          ScanSplitsAtTick(tag, rest, v);
      }
    }
  }

  lemma TickStartsNothing(tag: string, v: string)
    requires v != "" && v[0] == TICK
    ensures MatchHere(tag, v) == None
  {
  }

  lemma MatchShrinks(tag: string, s: string)
    requires MatchHere(tag, s).Some?
    ensures |MatchHere(tag, s).value.1| < |s|
  {
  }

  /** Text without `<` holds no match and starts none. */
  lemma {:induction false} ScanSkips(tag: string, plain: string, t: string)
    requires '<' !in plain
    ensures Scan(tag, plain + t) == Scan(tag, t)
  {
    if plain == "" {
      assert plain + t == t;
    } else {
      var s := plain + t;
      assert s[0] == plain[0] && s[1..] == plain[1..] + t;
      assert MatchHere(tag, s) == None;
      hide MatchHere;
      ScanSkips(tag, plain[1..], t);
    }
  }

  /** `<!-- TAG PAYLOAD -->` */
  function Comment(tag: string, payload: string): string {
    "<!-- " + tag + " " + payload + " -->"
  }

  predicate Tag(tag: string) {
    tag != "" && !IsSpace(tag[0]) && TICK !in tag
  }

  predicate Payload(p: string) {
    p != "" && forall i :: 0 <= i < |p| ==> PayloadChar(p[i])
  }

  lemma {:induction false} SkipsWholePayload(p: string, t: string)
    requires forall i :: 0 <= i < |p| ==> PayloadChar(p[i])
    requires t != "" && !PayloadChar(t[0])
    ensures SkipPayload(p + t) == t
  {
    hide PayloadChar;
    if p == "" {
      assert p + t == t;
    } else {
      assert (p + t)[0] == p[0] && (p + t)[1..] == p[1..] + t;
      SkipsWholePayload(p[1..], t);
    }
  }

  lemma PayloadIsNoSpace(c: char)
    requires PayloadChar(c)
    ensures !IsSpace(c)
  {
  }

  lemma SkipOneSpace(s: string)
    requires s != "" && !IsSpace(s[0])
    ensures SkipSpace(" " + s) == s
  {
    assert (" " + s)[1..] == s;
  }

  lemma AfterItself(lit: string, t: string)
    ensures After(lit, lit + t) == Some(t)
  {
    assert (lit + t)[..|lit|] == lit && (lit + t)[|lit|..] == t;
  }

  lemma PayloadMatches(p: string, t: string)
    requires Payload(p)
    ensures MatchPayload(p + (" " + ("-->" + t))) == Some((p, t))
  {
    hide SkipPayload, SkipSpace, PayloadChar, IsSpace, After;
    var end := "-->" + t;
    SpaceAndDash();
    SkipsWholePayload(p, " " + end);
    SkipOneSpace(end);
    AfterItself("-->", t);
    assert (p + (" " + end))[..|p|] == p;
  }

  lemma SpaceAndDash()
    ensures !IsSpace('-') && !PayloadChar(' ')
  {
  }

  lemma GapMatches(p: string, t: string)
    requires Payload(p)
    ensures MatchGap(" " + (p + (" " + ("-->" + t)))) == Some((p, t))
  {
    hide SkipSpace, PayloadChar, IsSpace, MatchPayload;
    PayloadIsNoSpace(p[0]);
    SkipOneSpace(p + (" " + ("-->" + t)));
    PayloadMatches(p, t);
  }

  lemma CommentMatches(tag: string, p: string, t: string)
    requires Tag(tag) && Payload(p)
    ensures MatchHere(tag, Comment(tag, p) + t) == Some((p, t))
  {
    hide SkipSpace, PayloadChar, IsSpace, MatchGap, After;
    var gap := " " + (p + (" " + ("-->" + t)));
    assert Comment(tag, p) + t == "<!--" + (" " + (tag + gap)) by {
      assert "<!-- " == "<!--" + " " && " -->" == " " + "-->";
    }
    AfterItself("<!--", " " + (tag + gap));
    assert (tag + gap)[0] == tag[0];
    SkipOneSpace(tag + gap);
    AfterItself(tag, gap);
    GapMatches(p, t);
  }

  lemma ScanComment(tag: string, p: string, t: string)
    requires Tag(tag) && Payload(p)
    ensures Scan(tag, Comment(tag, p) + t) == [p] + Scan(tag, t)
  {
    CommentMatches(tag, p, t);
    hide MatchHere;
    assert Comment(tag, p) + t != "";
  }

  // ----- printed files

  /** A line of a record: its comment, or labels each followed by a value in back ticks. */
  datatype Line = CommentLine(payload: string) | FieldLine(fields: seq<(string, string)>)

  function Quoted(fields: seq<(string, string)>): string {
    if fields == [] then ""
    else fields[0].0 + "`" + fields[0].1 + "`" + Quoted(fields[1..])
  }

  function LineText(tag: string, l: Line): string {
    match l
    case CommentLine(p) => Comment(tag, p)
    case FieldLine(fields) => Quoted(fields)
  }

  function LineTexts(tag: string, ls: seq<Line>): seq<string> {
    if ls == [] then [] else [LineText(tag, ls[0])] + LineTexts(tag, ls[1..])
  }

  /** The whole file: `"\n".join` of a header's lines and the records' lines. */
  function FileText(tag: string, header: seq<string>, ls: seq<Line>): string {
    JoinLines(header + LineTexts(tag, ls))
  }

  predicate GoodLine(l: Line) {
    match l
    case CommentLine(p) => Payload(p)
    case FieldLine(fields) => PlainLabels(fields)
  }

  predicate PlainLabels(fields: seq<(string, string)>) {
    forall f | f in fields :: '<' !in f.0
  }

  /** What a scan finds in a line: the comment's own payload, or whatever hides in the values. */
  function FoundIn(tag: string, l: Line): seq<string> {
    match l
    case CommentLine(p) => [p]
    case FieldLine(fields) => FoundInFields(tag, fields)
  }

  function FoundInFields(tag: string, fields: seq<(string, string)>): seq<string> {
    if fields == [] then [] else Scan(tag, fields[0].1) + FoundInFields(tag, fields[1..])
  }

  function FoundInLines(tag: string, ls: seq<Line>): seq<string> {
    if ls == [] then [] else FoundIn(tag, ls[0]) + FoundInLines(tag, ls[1..])
  }

  lemma {:induction false} ScanFields(tag: string, fields: seq<(string, string)>, t: string)
    requires TICK !in tag && PlainLabels(fields)
    ensures Scan(tag, Quoted(fields) + t) == FoundInFields(tag, fields) + Scan(tag, t)
  {
    hide Scan;
    if fields == [] {
      assert Quoted(fields) + t == t;
    } else {
      var more := Quoted(fields[1..]) + t;
      var value := fields[0].1;
      var v := "`" + more;
      assert Quoted(fields) + t == fields[0].0 + ("`" + (value + v));
      ScanSkips(tag, fields[0].0 + "`", value + v);
      assert fields[0].0 + ("`" + (value + v)) == fields[0].0 + "`" + (value + v);
      ScanSplitsAtTick(tag, value, v);
      assert v[1..] == more;
      ScanFields(tag, fields[1..], t);
    }
  }

  lemma ScanLine(tag: string, l: Line, t: string)
    requires Tag(tag) && GoodLine(l)
    ensures Scan(tag, NewLine(LineText(tag, l)) + t) == FoundIn(tag, l) + Scan(tag, t)
  {
    hide Scan;
    assert "\n" + LineText(tag, l) + t == "\n" + (LineText(tag, l) + t);
    ScanSkips(tag, "\n", LineText(tag, l) + t);
    match l {
      case CommentLine(p) => ScanComment(tag, p, t);
      case FieldLine(fields) => ScanFields(tag, fields, t);
    }
  }

  function NewLine(text: string): string {
    "\n" + text
  }

  /** The lines as they follow a header. */
  function Prefixed(tag: string, ls: seq<Line>): string {
    if ls == [] then "" else NewLine(LineText(tag, ls[0])) + Prefixed(tag, ls[1..])
  }

  lemma JoinOneMore(header: seq<string>, text: string)
    requires header != []
    ensures JoinLines(header + [text]) == JoinLines(header) + NewLine(text)
  {
    JoinLinesAppend(header, [text]);
    hide JoinLines;
    assert JoinLines(header) + "\n" + text == JoinLines(header) + ("\n" + text);
    JoinOne(text);
  }

  lemma JoinOne(line: string)
    ensures JoinLines([line]) == line
  {
  }

  lemma {:induction false} JoinIsPrefixed(tag: string, header: seq<string>, ls: seq<Line>)
    requires header != []
    ensures FileText(tag, header, ls) == JoinLines(header) + Prefixed(tag, ls)
    decreases |ls|
  {
    hide LineText, JoinLines, NewLine;
    if ls == [] {
      assert header + LineTexts(tag, ls) == header;
    } else {
      var text := LineText(tag, ls[0]);
      assert header + LineTexts(tag, ls) == header + [text] + LineTexts(tag, ls[1..]);
      JoinIsPrefixed(tag, header + [text], ls[1..]);
      JoinOneMore(header, text);
    }
  }

  lemma {:induction false} ScanPrefixed(tag: string, ls: seq<Line>)
    requires Tag(tag) && forall l | l in ls :: GoodLine(l)
    ensures Scan(tag, Prefixed(tag, ls)) == FoundInLines(tag, ls)
  {
    hide GoodLine, LineText, FoundIn;
    if ls != [] {
      ScanLine(tag, ls[0], Prefixed(tag, ls[1..]));
      ScanPrefixed(tag, ls[1..]);
    }
  }

  /**
    Scanning a printed file finds, in order, the payload of every record and whatever hides in the
    printed values, and nothing else: no match begins in one place and ends in another.
    */
  lemma ScanFile(tag: string, header: seq<string>, ls: seq<Line>)
    requires Tag(tag) && header != [] && '<' !in JoinLines(header)
    requires forall l | l in ls :: GoodLine(l)
    ensures Scan(tag, FileText(tag, header, ls)) == FoundInLines(tag, ls)
  {
    hide Scan;
    JoinIsPrefixed(tag, header, ls);
    ScanSkips(tag, JoinLines(header), Prefixed(tag, ls));
    ScanPrefixed(tag, ls);
  }

  lemma {:induction false} FoundInLinesAppend(tag: string, xs: seq<Line>, ys: seq<Line>)
    ensures FoundInLines(tag, xs + ys) == FoundInLines(tag, xs) + FoundInLines(tag, ys)
  {
    hide FoundIn;
    if xs == [] {
      assert xs + ys == ys;
    } else {
      assert (xs + ys)[0] == xs[0] && (xs + ys)[1..] == xs[1..] + ys;
      FoundInLinesAppend(tag, xs[1..], ys);
    }
  }

  lemma {:induction false} JoinIsPlain(lines: seq<string>)
    requires forall l | l in lines :: '<' !in l
    ensures '<' !in JoinLines(lines)
  {
    if |lines| > 1 {
      JoinIsPlain(lines[1..]);
    }
  }

  /** Text without `<` hides no record. */
  lemma PlainHidesNothing(tag: string, s: string)
    requires '<' !in s
    ensures Scan(tag, s) == []
  {
    assert s + "" == s;
    ScanSkips(tag, s, "");
  }
}
