/** The three event sinks: a list, rows of a database table, and a Markdown file of record comments. */
module EventSinks {
  import opened Options
  import opened Sequences
  import opened Text
  import opened RecordComments
  import opened RecordCodec
  import opened MarkdownFiles
  import opened Events
  import J = Json

  // ----- the event codec

  /** `AgentEvent.manifest` */
  function ToPayload(e: Event): J.Object {
    map[
      "type" := J.JStr(e.kind),
      "run_id" := J.JStr(e.runId),
      "turn_id" := J.JStr(e.turnId),
      "sequence" := J.JInt(e.sequence),
      "payload" := J.JObj(e.payload),
      "created_at" := J.JStr(e.createdAt)
    ]
  }

  /** `_event_from_payload`, with None for its exceptions. */
  function FromPayload(h: J.Host, o: J.Object): Option<Event> {
    var kind := J.TextAt(h.show, o, "type", "");
    if kind !in EVENT_TYPES then None
    else
      match J.IntAt(h.toInt, o, "sequence")
      case None => None
      case Some(n) =>
        Some(Event(kind, J.TextAt(h.show, o, "run_id", ""), J.TextAt(h.show, o, "turn_id", ""), n,
                   J.ObjectAt(o, "payload"), J.TextAt(h.show, o, "created_at", h.now)))
  }

  /** What a stored event needs to come back as itself. */
  predicate Storable(e: Event) {
    e.kind in EVENT_TYPES && e.createdAt != ""
  }

  /** A payload is read when it has a known type and its sequence, 0 if it has none, is a number. */
  lemma PayloadReads(h: J.Host, o: J.Object)
    ensures FromPayload(h, o).Some? <==>
            J.TextAt(h.show, o, "type", "") in EVENT_TYPES && J.IntAt(h.toInt, o, "sequence").Some?
    ensures FromPayload(h, o).Some? ==>
              var e := FromPayload(h, o).value;
              && ("sequence" !in o ==> e.sequence == 0)
              && ("run_id" !in o ==> e.runId == "") && ("turn_id" !in o ==> e.turnId == "")
              && ("created_at" !in o ==> e.createdAt == h.now)
              && e.payload == if "payload" in o && o["payload"].JObj? then o["payload"].fields else map[]
  {
  }

  lemma StorableComesBack(h: J.Host, e: Event)
    requires h.Faithful()
    ensures FromPayload(h, ToPayload(e)) == Some(e) <==> Storable(e)
  {
    var o := ToPayload(e);
    assert J.TextAt(h.show, o, "type", "") == e.kind;
    assert J.TextAt(h.show, o, "run_id", "") == e.runId;
    assert J.TextAt(h.show, o, "turn_id", "") == e.turnId;
    assert J.IntAt(h.toInt, o, "sequence") == Some(e.sequence);
    assert J.ObjectAt(o, "payload") == e.payload;
    assert J.TextAt(h.show, o, "created_at", h.now) == if e.createdAt == "" then h.now else e.createdAt;
  }

  lemma ReadIsStorable(h: J.Host, o: J.Object)
    requires h.Faithful() && FromPayload(h, o).Some?
    ensures Storable(FromPayload(h, o).value)
  {
    var v := J.Get(o, "created_at");
    assert J.Falsy(v) || J.Str(h.show, v) != "";
  }

  // ----- the Markdown file

  const EVENT_TAG := "agent-core-event"

  const EVENT_NOTE := "This file is managed by raven_heart. Event payloads are stored in comments."

  const EVENT_HEADER := [
    "# Agent Events",
    "",
    EVENT_NOTE,
    ""
  ]

  function OrDash(s: string): string {
    if s == "" then "-" else s
  }

  function EventFields(e: Event): seq<(string, string)> {
    [("- sequence: ", Decimal(e.sequence)), (" type: ", e.kind),
     (" run_id: ", OrDash(e.runId)), (" turn_id: ", OrDash(e.turnId))]
  }

  function EventFormat(h: J.Host): Format<Event> {
    Format(EVENT_TAG, EVENT_HEADER, (e: Event) => ToPayload(e), (o: J.Object) => FromPayload(h, o),
           (e: Event) => [EventFields(e)])
  }

  /** Each step adds a few characters to the literal whose characters are known. */
  lemma NoteIsPlain()
    ensures '<' !in EVENT_NOTE
  {
    assert '<' !in "This file is ma";
    assert '<' !in "This file is managed by raven_";
    assert '<' !in "This file is managed by raven_heart. Event pay";
    assert '<' !in "This file is managed by raven_heart. Event payloads are stored";
  }

  lemma EventHeaderIsPlain()
    ensures forall l | l in EVENT_HEADER :: '<' !in l
  {
    NoteIsPlain();
  }

  lemma EventFormatIsValid(h: J.Host)
    requires h.Faithful()
    ensures EventFormat(h).Valid()
  {
    var f := EventFormat(h);
    EventHeaderIsPlain();
    assert f.header == EVENT_HEADER;
    forall o: J.Object | f.fromPayload(o).Some? ensures f.Storable(f.fromPayload(o).value) {
      ReadIsStorable(h, o);
      StorableComesBack(h, f.fromPayload(o).value);
    }
    hide ToPayload, FromPayload, Decimal, OrDash;
    forall e: Event, fs | fs in f.fields(e) ensures PlainLabels(fs) {
      assert fs == EventFields(e);
    }
  }

  /** What `_write` puts into the file. */
  function WriteLog(h: J.Host, es: seq<Event>): string {
    Written(h, EventFormat(h), es)
  }

  /** `MarkdownEventSink.records` on a file with this text. */
  function ReadLog(h: J.Host, text: string): seq<Event> {
    ReadText(h, EventFormat(h), text)
  }

  /** The file of one event: a header, its comment, a line of labelled values and an empty line. */
  lemma OneEventFile(h: J.Host, e: Event)
    ensures WriteLog(h, [e]) == FileText(
      "agent-core-event",
      ["# Agent Events", "", "This file is managed by raven_heart. Event payloads are stored in comments.", ""],
      [CommentLine(Encoded(h, ToPayload(e))),
       FieldLine([("- sequence: ", Decimal(e.sequence)), (" type: ", e.kind),
                  (" run_id: ", if e.runId == "" then "-" else e.runId),
                  (" turn_id: ", if e.turnId == "" then "-" else e.turnId)]),
       FieldLine([])])
  {
    EventLines(h, e);
    hide ToPayload, Decimal, Encoded, FileText, ItemLines;
    var f := EventFormat(h);
    assert [e][1..] == [];
    assert AllLines(h, f, [e]) == ItemLines(h, f, e) + [] == ItemLines(h, f, e);
  }

  lemma EventLines(h: J.Host, e: Event)
    ensures var f := EventFormat(h);
            ItemLines(h, f, e) == [CommentLine(Encoded(h, ToPayload(e))), FieldLine(EventFields(e)), FieldLine([])]
  {
    hide ToPayload, EventFields, Encoded;
    var f := EventFormat(h);
    assert [EventFields(e)][1..] == [];
    assert FieldLines(f.fields(e)) == [FieldLine(EventFields(e))];
  }

  // ----- reading at different moments

  /** The payload carries its creation time. */
  predicate Carries(o: J.Object) {
    !J.Falsy(J.Get(o, "created_at"))
  }

  function CarriesTime(): J.Object -> bool {
    (o: J.Object) => Carries(o)
  }

  /** Every readable event of the file carries its creation time. */
  ghost predicate Complete(h: J.Host, text: string) {
    AllCarry(h, EventFormat(h), CarriesTime(), Scan(EVENT_TAG, text))
  }

  /** The file holds these events at whatever moment it is read. */
  ghost predicate Keeps(h: J.Host, text: string, es: seq<Event>) {
    forall d :: ReadLog(h.At(d), text) == es
  }

  lemma FromPayloadAt(h: J.Host, d: J.Draw, o: J.Object)
    ensures FromPayload(h.At(d), o).Some? <==> FromPayload(h, o).Some?
    ensures Carries(o) ==> FromPayload(h.At(d), o) == FromPayload(h, o)
    ensures !Carries(o) && FromPayload(h, o).Some? ==> FromPayload(h.At(d), o).value.createdAt == d.now
  {
  }

  lemma FormatsAlike(h: J.Host, d: J.Draw)
    ensures Alike(h, EventFormat(h), h.At(d), EventFormat(h.At(d)))
    ensures var f, g := EventFormat(h), EventFormat(h.At(d));
            forall o :: CarriesTime()(o) ==> f.fromPayload(o) == g.fromPayload(o)
  {
    hide ToPayload, FromPayload, EventFields, Carries;
    forall o: J.Object
      ensures FromPayload(h.At(d), o).Some? <==> FromPayload(h, o).Some?
      ensures Carries(o) ==> FromPayload(h.At(d), o) == FromPayload(h, o)
    {
      FromPayloadAt(h, d, o);
    }
  }

  lemma SameAtAnyMoment(h: J.Host, d: J.Draw, text: string, es: seq<Event>)
    ensures WriteLog(h.At(d), es) == WriteLog(h, es)
    ensures |ReadLog(h.At(d), text)| == |ReadLog(h, text)|
    ensures Complete(h, text) ==> ReadLog(h.At(d), text) == ReadLog(h, text)
    ensures (forall e | e in es :: Good(h.At(d), e)) <==> (forall e | e in es :: Good(h, e))
  {
    var f, g := EventFormat(h), EventFormat(h.At(d));
    FormatsAlike(h, d);
    assert f.tag == g.tag == EVENT_TAG;
    hide EventFormat, Scan, Storable, ReadPayloads, AllLines, AllCarry, Alike;
    AlikeWritten(h, f, h.At(d), g, es);
    AlikeCount(h, f, h.At(d), g, Scan(EVENT_TAG, text));
    if Complete(h, text) {
      AlikeRead(h, f, h.At(d), g, CarriesTime(), Scan(EVENT_TAG, text));
    }
    forall s: string ensures |ReadText(h, f, s)| == |ReadText(h.At(d), g, s)| {
      AlikeCount(h, f, h.At(d), g, Scan(EVENT_TAG, s));
    }
  }

  function Times(es: seq<Event>): (r: seq<string>)
    ensures forall e | e in es :: e.createdAt in r
  {
    if es == [] then [] else [es[0].createdAt] + Times(es[1..])
  }

  /** A file keeps what one reading finds exactly when all its readable events carry their creation time. */
  lemma KeepsIff(h: J.Host, text: string)
    requires h.Faithful()
    ensures Keeps(h, text, ReadLog(h, text)) <==> Complete(h, text)
  {
    hide ReadLog, Complete;
    if Complete(h, text) {
      forall d ensures ReadLog(h.At(d), text) == ReadLog(h, text) {
        SameAtAnyMoment(h, d, text, []);
      }
    } else {
      var t := FreshText(Times(ReadLog(h, text)));
      Drifts(h, J.Draw(t, t), text);
    }
  }

  lemma Drifts(h: J.Host, d: J.Draw, text: string)
    requires !Complete(h, text) && d.now !in Times(ReadLog(h, text))
    ensures ReadLog(h.At(d), text) != ReadLog(h, text)
  {
    var f, g := EventFormat(h), EventFormat(h.At(d));
    FormatsAlike(h, d);
    var o := UncarriedIsRead(h, f, h.At(d), g, CarriesTime(), Scan(EVENT_TAG, text));
    FromPayloadAt(h, d, o);
    hide FromPayload, Scan, ReadPayloads;
    var e := FromPayload(h.At(d), o).value;
    assert e in ReadLog(h.At(d), text);
    assert e !in ReadLog(h, text);
  }

  /** The event can be stored, and no readable record hides in the texts printed beside its comment. */
  predicate Good(h: J.Host, e: Event) {
    Storable(e) && ReadLog(h, e.kind) == [] && ReadLog(h, e.runId) == [] && ReadLog(h, e.turnId) == []
  }

  lemma PlainReadsNothing(h: J.Host, s: string)
    requires '<' !in s
    ensures ReadLog(h, s) == []
  {
    PlainHidesNothing(EVENT_TAG, s);
  }

  lemma GoodMeans(h: J.Host, e: Event)
    requires h.Faithful()
    ensures RoundTrips(h, EventFormat(h), e) <==> Good(h, e)
  {
    StorableComesBack(h, e);
    assert EventFormat(h).Storable(e) == Storable(e);
    DecimalIsPlain(e.sequence);
    PlainReadsNothing(h, Decimal(e.sequence));
    PlainReadsNothing(h, "-");
    PlainReadsNothing(h, "");
    hide ReadText, ToPayload, FromPayload, Decimal, Storable;
    var fs := EventFields(e);
    assert fs[1..][1..] == fs[2..] && fs[2..][1..] == fs[3..] && fs[3..][1..] == [];
    var lines := [fs];
    assert lines[1..] == [];
    var f := EventFormat(h);
    assert HiddenIn(h, f, fs[3..]) == ReadLog(h, e.turnId) + [];
    assert HiddenIn(h, f, fs[2..]) == ReadLog(h, e.runId) + HiddenIn(h, f, fs[3..]);
    assert HiddenIn(h, f, fs[1..]) == ReadLog(h, e.kind) + HiddenIn(h, f, fs[2..]);
    assert HiddenIn(h, f, fs) == [] + HiddenIn(h, f, fs[1..]);
    assert Hidden(h, f, lines) == HiddenIn(h, f, fs) + [];
  }

  lemma DecimalIsPlain(n: int)
    ensures '<' !in Decimal(n)
  {
  }

  /**
    Reading back a written log gives the same events exactly when every event has a known type and a
    creation time, and hides no readable record in its printed fields.
    */
  lemma EventLogRoundTrip(h: J.Host, es: seq<Event>)
    requires h.Faithful()
    ensures ReadLog(h, WriteLog(h, es)) == es <==> forall e | e in es :: Good(h, e)
  {
    EventFormatIsValid(h);
    MarkdownRoundTrip(h, EventFormat(h), es);
    hide ReadText, Written, Good, RoundTrips;
    forall e | e in es ensures RoundTrips(h, EventFormat(h), e) == Good(h, e) {
      GoodMeans(h, e);
    }
  }
}
