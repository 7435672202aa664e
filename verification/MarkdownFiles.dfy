/** Stores that keep one record comment per item in a Markdown file, whatever the items are. */
module MarkdownFiles {
  import opened Options
  import opened Text
  import opened RecordComments
  import opened RecordCodec
  import J = Json

  /**
    What differs between stores: the tag, the header, the two halves of the codec (None for an
    exception), and the lines of labelled values printed beside each comment.
    */
  datatype Format<!T(!new)> = Format(
    tag: string, header: seq<string>,
    toPayload: T -> J.Object, fromPayload: J.Object -> Option<T>,
    fields: T -> seq<seq<(string, string)>>)
  {
    ghost predicate Valid() {
      && Tag(tag) && header != [] && (forall l | l in header :: '<' !in l)
      && (forall x, fs | fs in fields(x) :: PlainLabels(fs))
      && (forall o :: fromPayload(o).Some? ==> Storable(fromPayload(o).value))
    }

    /** The item comes back from its own payload. */
    ghost predicate Storable(x: T) {
      fromPayload(toPayload(x)) == Some(x)
    }
  }

  function FieldLines(fss: seq<seq<(string, string)>>): seq<Line> {
    if fss == [] then [] else [FieldLine(fss[0])] + FieldLines(fss[1..])
  }

  function ItemLines<T(!new)>(h: J.Host, f: Format<T>, x: T): seq<Line> {
    [CommentLine(Encoded(h, f.toPayload(x)))] + FieldLines(f.fields(x)) + [FieldLine([])]
  }

  function AllLines<T(!new)>(h: J.Host, f: Format<T>, xs: seq<T>): seq<Line> {
    if xs == [] then [] else ItemLines(h, f, xs[0]) + AllLines(h, f, xs[1..])
  }

  /** What `_write` puts into the file. */
  function Written<T(!new)>(h: J.Host, f: Format<T>, xs: seq<T>): string {
    FileText(f.tag, f.header, AllLines(h, f, xs))
  }

  function ReadPayload<T(!new)>(h: J.Host, f: Format<T>, payload: string): seq<T> {
    match Decoded(h, payload)
    case None => []
    case Some(o) => match f.fromPayload(o) case None => [] case Some(x) => [x]
  }

  function ReadPayloads<T(!new)>(h: J.Host, f: Format<T>, payloads: seq<string>): seq<T> {
    if payloads == [] then [] else ReadPayload(h, f, payloads[0]) + ReadPayloads(h, f, payloads[1..])
  }

  /** The items of a file with this text: every match of the record pattern that can be read. */
  function ReadText<T(!new)>(h: J.Host, f: Format<T>, text: string): seq<T> {
    ReadPayloads(h, f, Scan(f.tag, text))
  }

  /** The readable records that hide in values printed beside a comment. */
  function HiddenIn<T(!new)>(h: J.Host, f: Format<T>, fields: seq<(string, string)>): seq<T> {
    if fields == [] then [] else ReadText(h, f, fields[0].1) + HiddenIn(h, f, fields[1..])
  }

  function Hidden<T(!new)>(h: J.Host, f: Format<T>, fss: seq<seq<(string, string)>>): seq<T> {
    if fss == [] then [] else HiddenIn(h, f, fss[0]) + Hidden(h, f, fss[1..])
  }

  /** The item is storable, and its printed values hide no readable record. */
  ghost predicate RoundTrips<T(!new)>(h: J.Host, f: Format<T>, x: T) {
    f.Storable(x) && Hidden(h, f, f.fields(x)) == []
  }

  // ----- reading at different moments

  /** Two ways to look at a file that differ only in what they make of the readable payloads. */
  ghost predicate Alike<T(!new)>(h: J.Host, f: Format<T>, k: J.Host, g: Format<T>) {
    && h.loads == k.loads && h.dumps == k.dumps && f.tag == g.tag && f.header == g.header
    && (forall x :: f.toPayload(x) == g.toPayload(x) && f.fields(x) == g.fields(x))
    && (forall o :: f.fromPayload(o).Some? == g.fromPayload(o).Some?)
  }

  lemma {:induction false} AlikeWritten<T(!new)>(h: J.Host, f: Format<T>, k: J.Host, g: Format<T>, xs: seq<T>)
    requires Alike(h, f, k, g)
    ensures AllLines(h, f, xs) == AllLines(k, g, xs)
  {
    hide Encoded;
    if xs != [] {
      AlikeWritten(h, f, k, g, xs[1..]);
      assert Encoded(h, f.toPayload(xs[0])) == Encoded(k, g.toPayload(xs[0])) by {
        SameDumps(h, k, f.toPayload(xs[0]));
      }
    }
  }

  lemma SameDumps(h: J.Host, k: J.Host, o: J.Object)
    requires h.dumps == k.dumps
    ensures Encoded(h, o) == Encoded(k, o)
  {
  }

  lemma SameLoads(h: J.Host, k: J.Host, payload: string)
    requires h.loads == k.loads
    ensures Decoded(h, payload) == Decoded(k, payload)
  {
  }

  /** A look at another moment finds as many items. */
  lemma {:induction false} AlikeCount<T(!new)>(h: J.Host, f: Format<T>, k: J.Host, g: Format<T>, payloads: seq<string>)
    requires Alike(h, f, k, g)
    ensures |ReadPayloads(h, f, payloads)| == |ReadPayloads(k, g, payloads)|
  {
    hide Decoded;
    if payloads != [] {
      AlikeCount(h, f, k, g, payloads[1..]);
      SameLoads(h, k, payloads[0]);
    }
  }

  /** Every payload that is read satisfies `carries`. */
  ghost predicate AllCarry<T(!new)>(h: J.Host, f: Format<T>, carries: J.Object -> bool, payloads: seq<string>) {
    forall p | p in payloads && ReadPayload(h, f, p) != [] :: carries(Decoded(h, p).value)
  }

  /** Payloads that carry all they need are read the same at any moment. */
  lemma {:induction false} AlikeRead<T(!new)>(
    h: J.Host, f: Format<T>, k: J.Host, g: Format<T>, carries: J.Object -> bool, payloads: seq<string>)
    requires Alike(h, f, k, g) && AllCarry(h, f, carries, payloads)
    requires forall o :: carries(o) ==> f.fromPayload(o) == g.fromPayload(o)
    ensures ReadPayloads(h, f, payloads) == ReadPayloads(k, g, payloads)
  {
    hide Decoded;
    if payloads != [] {
      AlikeRead(h, f, k, g, carries, payloads[1..]);
      SameLoads(h, k, payloads[0]);
    }
  }

  lemma {:induction false} ReadPayloadIn<T(!new)>(h: J.Host, f: Format<T>, payloads: seq<string>, p: string)
    requires p in payloads
    ensures forall x | x in ReadPayload(h, f, p) :: x in ReadPayloads(h, f, payloads)
  {
    hide ReadPayload;
    if payloads[0] != p {
      ReadPayloadIn(h, f, payloads[1..], p);
    }
  }

  /** One that does not carry them is read, at another moment, as what that moment makes of it. */
  lemma UncarriedIsRead<T(!new)>(
    h: J.Host, f: Format<T>, k: J.Host, g: Format<T>, carries: J.Object -> bool, payloads: seq<string>)
    returns (o: J.Object)
    requires Alike(h, f, k, g) && !AllCarry(h, f, carries, payloads)
    ensures !carries(o) && f.fromPayload(o).Some? && g.fromPayload(o).Some?
    ensures g.fromPayload(o).value in ReadPayloads(k, g, payloads)
  {
    hide Decoded;
    var p :| p in payloads && ReadPayload(h, f, p) != [] && !carries(Decoded(h, p).value);
    SameLoads(h, k, p);
    o := Decoded(h, p).value;
    ReadPayloadIn(k, g, payloads, p);
  }

  // ----- reading what was written

  lemma {:induction false} ReadPayloadsAppend<T(!new)>(h: J.Host, f: Format<T>, xs: seq<string>, ys: seq<string>)
    ensures ReadPayloads(h, f, xs + ys) == ReadPayloads(h, f, xs) + ReadPayloads(h, f, ys)
  {
    hide ReadPayload;
    if xs == [] {
      assert xs + ys == ys;
    } else {
      assert (xs + ys)[0] == xs[0] && (xs + ys)[1..] == xs[1..] + ys;
      ReadPayloadsAppend(h, f, xs[1..], ys);
    }
  }

  lemma {:induction false} ReadsFields<T(!new)>(h: J.Host, f: Format<T>, fields: seq<(string, string)>)
    ensures ReadPayloads(h, f, FoundInFields(f.tag, fields)) == HiddenIn(h, f, fields)
  {
    hide Scan, ReadPayload;
    if fields != [] {
      ReadsFields(h, f, fields[1..]);
      ReadPayloadsAppend(h, f, Scan(f.tag, fields[0].1), FoundInFields(f.tag, fields[1..]));
    }
  }

  lemma {:induction false} ReadsFieldLines<T(!new)>(h: J.Host, f: Format<T>, fss: seq<seq<(string, string)>>)
    ensures ReadPayloads(h, f, FoundInLines(f.tag, FieldLines(fss))) == Hidden(h, f, fss)
  {
    hide Scan, ReadPayload, FoundInFields, HiddenIn;
    if fss != [] {
      var fields, rest := fss[0], FoundInLines(f.tag, FieldLines(fss[1..]));
      ReadsFields(h, f, fields);
      ReadsFieldLines(h, f, fss[1..]);
      FoundInFirst(f.tag, FieldLine(fields), FieldLines(fss[1..]));
      ReadPayloadsAppend(h, f, FoundInFields(f.tag, fields), rest);
    }
  }

  lemma FoundInFirst(tag: string, l: Line, ls: seq<Line>)
    ensures FoundInLines(tag, [l] + ls) == FoundIn(tag, l) + FoundInLines(tag, ls)
  {
    hide FoundIn;
    assert ([l] + ls)[1..] == ls;
  }

  /** What an item's own comment reads back as. */
  function Own<T(!new)>(f: Format<T>, x: T): seq<T> {
    match f.fromPayload(f.toPayload(x)) case None => [] case Some(back) => [back]
  }

  lemma ReadsOwn<T(!new)>(h: J.Host, f: Format<T>, x: T)
    requires h.Faithful()
    ensures ReadPayloads(h, f, [Encoded(h, f.toPayload(x))]) == Own(f, x)
    ensures Payload(Encoded(h, f.toPayload(x)))
  {
    CodecRoundTrip(h, f.toPayload(x));
    hide Encoded, Decoded, Payload;
    var p := Encoded(h, f.toPayload(x));
    assert [p][1..] == [];
    assert ReadPayloads(h, f, [p]) == ReadPayload(h, f, p) + [];
  }

  lemma ReadsItem<T(!new)>(h: J.Host, f: Format<T>, x: T)
    requires h.Faithful() && f.Valid()
    ensures ReadPayloads(h, f, FoundInLines(f.tag, ItemLines(h, f, x))) == Own(f, x) + Hidden(h, f, f.fields(x))
  {
    hide Scan, ReadPayload, FieldLines, Encoded, Hidden, Own, ReadPayloads, FoundInLines;
    var p, ls := Encoded(h, f.toPayload(x)), FieldLines(f.fields(x));
    var found := FoundInLines(f.tag, ls);
    ReadsOwn(h, f, x);
    ReadsFieldLines(h, f, f.fields(x));
    assert ItemLines(h, f, x) == [CommentLine(p)] + (ls + [FieldLine([])]);
    FoundInFirst(f.tag, CommentLine(p), ls + [FieldLine([])]);
    FoundInLinesAppend(f.tag, ls, [FieldLine([])]);
    BlankLineHidesNothing(f.tag);
    assert FoundInLines(f.tag, ItemLines(h, f, x)) == [p] + found;
    ReadPayloadsAppend(h, f, [p], found);
  }

  lemma BlankLineHidesNothing(tag: string)
    ensures FoundInLines(tag, [FieldLine([])]) == []
  {
    hide Scan;
    assert [FieldLine([])][1..] == [];
  }

  lemma {:induction false} FieldLinesAreGood(fss: seq<seq<(string, string)>>)
    requires forall fs | fs in fss :: PlainLabels(fs)
    ensures forall l | l in FieldLines(fss) :: GoodLine(l)
  {
    if fss != [] {
      assert GoodLine(FieldLine(fss[0]));
      FieldLinesAreGood(fss[1..]);
    }
  }

  lemma ItemLinesAreGood<T(!new)>(h: J.Host, f: Format<T>, x: T)
    requires h.Faithful() && f.Valid()
    ensures forall l | l in ItemLines(h, f, x) :: GoodLine(l)
  {
    ReadsOwn(h, f, x);
    FieldLinesAreGood(f.fields(x));
    hide Encoded, Payload, FieldLines, ReadPayloads;
    var lines, last := FieldLines(f.fields(x)), FieldLine([]);
    assert GoodLine(CommentLine(Encoded(h, f.toPayload(x)))) && GoodLine(last);
  }

  function Contents<T(!new)>(h: J.Host, f: Format<T>, xs: seq<T>): seq<T> {
    if xs == [] then [] else Own(f, xs[0]) + Hidden(h, f, f.fields(xs[0])) + Contents(h, f, xs[1..])
  }

  lemma {:induction false} ReadsAllLines<T(!new)>(h: J.Host, f: Format<T>, xs: seq<T>)
    requires h.Faithful() && f.Valid()
    ensures ReadPayloads(h, f, FoundInLines(f.tag, AllLines(h, f, xs))) == Contents(h, f, xs)
    ensures forall l | l in AllLines(h, f, xs) :: GoodLine(l)
  {
    hide ItemLines, GoodLine, Own, Hidden, ReadPayload, FoundIn;
    if xs != [] {
      var x, rest := xs[0], AllLines(h, f, xs[1..]);
      ReadsItem(h, f, x);
      ItemLinesAreGood(h, f, x);
      ReadsAllLines(h, f, xs[1..]);
      FoundInLinesAppend(f.tag, ItemLines(h, f, x), rest);
      ReadPayloadsAppend(h, f, FoundInLines(f.tag, ItemLines(h, f, x)), FoundInLines(f.tag, rest));
    }
  }

  lemma ReadsWritten<T(!new)>(h: J.Host, f: Format<T>, xs: seq<T>)
    requires h.Faithful() && f.Valid()
    ensures ReadText(h, f, Written(h, f, xs)) == Contents(h, f, xs)
  {
    hide Scan, ReadPayloads, AllLines, FileText, FoundInLines, Contents, GoodLine;
    JoinIsPlain(f.header);
    ReadsAllLines(h, f, xs);
    ScanFile(f.tag, f.header, AllLines(h, f, xs));
  }

  lemma {:induction false} ReadsAreStorable<T(!new)>(h: J.Host, f: Format<T>, payloads: seq<string>)
    requires f.Valid()
    ensures forall x | x in ReadPayloads(h, f, payloads) :: f.Storable(x)
  {
    hide Decoded;
    if payloads != [] {
      ReadsAreStorable(h, f, payloads[1..]);
    }
  }

  lemma {:induction false} ContentsOfStorable<T(!new)>(h: J.Host, f: Format<T>, xs: seq<T>)
    requires forall x | x in xs :: f.Storable(x)
    ensures |Contents(h, f, xs)| >= |xs|
    ensures |Contents(h, f, xs)| == |xs| <==> forall x | x in xs :: Hidden(h, f, f.fields(x)) == []
    ensures |Contents(h, f, xs)| == |xs| ==> Contents(h, f, xs) == xs
  {
    hide Hidden;
    if xs != [] {
      var x, rest := xs[0], Contents(h, f, xs[1..]);
      assert x in xs && Own(f, x) == [x];
      ContentsOfStorable(h, f, xs[1..]);
      assert Contents(h, f, xs) == [x] + Hidden(h, f, f.fields(x)) + rest;
      assert xs == [x] + xs[1..];
    }
  }

  /**
    Reading back what was written gives the same items exactly when each of them is storable and
    hides no readable record in its printed values; otherwise not even the same items in another order.
    */
  lemma MarkdownRoundTrip<T(!new)>(h: J.Host, f: Format<T>, xs: seq<T>)
    requires h.Faithful() && f.Valid()
    ensures ReadText(h, f, Written(h, f, xs)) == xs <==> forall x | x in xs :: RoundTrips(h, f, x)
    ensures multiset(ReadText(h, f, Written(h, f, xs))) == multiset(xs) <==> forall x | x in xs :: RoundTrips(h, f, x)
  {
    ReadsWritten(h, f, xs);
    ReadsAreStorable(h, f, Scan(f.tag, Written(h, f, xs)));
    var back := ReadText(h, f, Written(h, f, xs));
    assert forall x | x in back :: f.Storable(x);
    hide ReadText, Written, Contents, Hidden;
    if multiset(back) == multiset(xs) || forall x | x in xs :: RoundTrips(h, f, x) {
      forall x | x in xs ensures f.Storable(x) {
        assert x in multiset(xs);
        assert multiset(back) == multiset(xs) ==> x in multiset(back);
      }
      assert multiset(back) == multiset(xs) ==> |multiset(back)| == |multiset(xs)|;
      ContentsOfStorable(h, f, xs);
    }
  }
}
