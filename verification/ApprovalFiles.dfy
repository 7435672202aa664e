/** The Markdown approval store, and its agreement with the in-memory queue over whole runs. */
module ApprovalFiles {
  import opened Options
  import opened Sequences
  import opened StableSort
  import opened Text
  import opened RecordComments
  import opened RecordCodec
  import opened MarkdownFiles
  import opened Approvals
  import J = Json

  // ----- the record codec

  function StatusText(s: Status): string {
    match s
    case Pending => "pending"
    case Approved => "approved"
    case Rejected => "rejected"
    case Cancelled => "cancelled"
  }

  /** `_approval_status`; `_decision_status` also refuses "pending". */
  function StatusOf(text: string): Option<Status> {
    if text == "pending" then Some(Pending)
    else if text == "approved" then Some(Approved)
    else if text == "rejected" then Some(Rejected)
    else if text == "cancelled" then Some(Cancelled)
    else None
  }

  function RequestPayload(r: Request): J.Object {
    map["reason" := J.JStr(r.reason), "subject" := J.JStr(r.subject), "metadata" := J.JObj(r.metadata)]
  }

  function DecisionPayload(d: Decision): J.Object {
    map["status" := J.JStr(StatusText(d.status)), "reason" := J.JStr(d.reason), "actor" := J.JStr(d.actor),
        "decided_at" := J.JStr(d.decidedAt), "metadata" := J.JObj(d.metadata)]
  }

  /** `_approval_record_payload` */
  function ToPayload(r: Record): J.Object {
    map[
      "schema_version" := J.JStr("agent-core-approval-record-payload/v1"),
      "approval_id" := J.JStr(r.id),
      "status" := J.JStr(StatusText(r.status)),
      "run_id" := J.JStr(r.runId),
      "turn_id" := J.JStr(r.turnId),
      "created_at" := J.JStr(r.createdAt),
      "request" := J.JObj(RequestPayload(r.request)),
      "decision" := if r.decision.Some? then J.JObj(DecisionPayload(r.decision.value)) else J.JNull,
      "metadata" := J.JObj(r.metadata)
    ]
  }

  function RequestFrom(h: J.Host, o: J.Object): Option<Request> {
    match J.DictAt(h.toDict, o, "metadata")
    case None => None
    case Some(m) => Some(Request(J.TextAt(h.show, o, "reason", ""), J.TextAt(h.show, o, "subject", ""), m))
  }

  function DecisionFrom(h: J.Host, o: J.Object): Option<Decision> {
    var status := StatusOf(J.TextAt(h.show, o, "status", "approved"));
    var metadata := J.DictAt(h.toDict, o, "metadata");
    if status.None? || status.value == Pending || metadata.None? then None
    else
      Some(Decision(status.value, J.TextAt(h.show, o, "reason", ""), J.TextAt(h.show, o, "actor", ""),
                    J.TextAt(h.show, o, "decided_at", h.now), metadata.value))
  }

  /** `_approval_record_from_json` on a parsed object, with None for its exceptions. */
  function FromPayload(h: J.Host, o: J.Object): Option<Record> {
    var request, decision := J.Get(o, "request"), J.Get(o, "decision");
    if !request.JObj? then None
    else
      var req := RequestFrom(h, request.fields);
      var dec := if decision.JObj? then DecisionFrom(h, decision.fields) else None;
      var status := StatusOf(J.TextAt(h.show, o, "status", "pending"));
      var metadata := J.DictAt(h.toDict, o, "metadata");
      if req.None? || (decision.JObj? && dec.None?) || status.None? || metadata.None? then None
      else
        Some(Record(J.TextAt(h.show, o, "approval_id", h.uuid), req.value, status.value,
                    J.TextAt(h.show, o, "run_id", ""), J.TextAt(h.show, o, "turn_id", ""),
                    J.TextAt(h.show, o, "created_at", h.now), dec, metadata.value))
  }

  /** A decision is read when its status, approved if it has none, is one of the three of a decision. */
  lemma DecisionReads(h: J.Host, o: J.Object)
    ensures var v := J.Get(o, "status");
            DecisionFrom(h, o).Some? <==>
            && (J.Falsy(v) || J.Str(h.show, v) in {"approved", "rejected", "cancelled"})
            && J.DictAt(h.toDict, o, "metadata").Some?
    ensures DecisionFrom(h, o).Some? && "status" !in o ==> DecisionFrom(h, o).value.status == Approved
    ensures DecisionFrom(h, o).Some? && "decided_at" !in o ==> DecisionFrom(h, o).value.decidedAt == h.now
  {
  }

  /** A record is read when it holds a request, and a status, pending if it has none, that is one of the four. */
  lemma RecordReads(h: J.Host, o: J.Object)
    ensures var v, d := J.Get(o, "status"), J.Get(o, "decision");
            FromPayload(h, o).Some? <==>
            && "request" in o && o["request"].JObj? && RequestFrom(h, o["request"].fields).Some?
            && (J.Falsy(v) || J.Str(h.show, v) in {"pending", "approved", "rejected", "cancelled"})
            && (d.JObj? ==> DecisionFrom(h, d.fields).Some?)
            && J.DictAt(h.toDict, o, "metadata").Some?
    ensures FromPayload(h, o).Some? ==>
              var r := FromPayload(h, o).value;
              && ("status" !in o ==> r.status == Pending)
              && ("approval_id" !in o ==> r.id == h.uuid) && ("created_at" !in o ==> r.createdAt == h.now)
              && (r.decision.Some? <==> J.Get(o, "decision").JObj?)
  {
    hide RequestFrom, DecisionFrom;
  }

  /** What a record needs to come back as itself. */
  predicate Storable(r: Record) {
    r.id != "" && r.createdAt != "" && (r.decision.Some? ==> r.decision.value.decidedAt != "")
  }

  lemma StatusComesBack(s: Status)
    ensures StatusOf(StatusText(s)) == Some(s) && StatusText(s) != "" && '<' !in StatusText(s)
  {
  }

  lemma RequestComesBack(h: J.Host, r: Request)
    ensures RequestFrom(h, RequestPayload(r)) == Some(r)
  {
    var o := RequestPayload(r);
    assert J.TextAt(h.show, o, "reason", "") == r.reason && J.TextAt(h.show, o, "subject", "") == r.subject;
    assert J.DictAt(h.toDict, o, "metadata") == Some(r.metadata);
  }

  lemma DecisionComesBack(h: J.Host, d: Decision)
    ensures DecisionFrom(h, DecisionPayload(d))
            == Some(d.(decidedAt := if d.decidedAt == "" then h.now else d.decidedAt))
  {
    var o := DecisionPayload(d);
    StatusComesBack(d.status);
    assert J.TextAt(h.show, o, "status", "approved") == StatusText(d.status);
    assert J.TextAt(h.show, o, "reason", "") == d.reason && J.TextAt(h.show, o, "actor", "") == d.actor;
    assert J.TextAt(h.show, o, "decided_at", h.now) == if d.decidedAt == "" then h.now else d.decidedAt;
    assert J.DictAt(h.toDict, o, "metadata") == Some(d.metadata);
  }

  lemma PayloadEntries(r: Record)
    ensures var o := ToPayload(r);
            && J.Get(o, "request") == J.JObj(RequestPayload(r.request))
            && J.Get(o, "decision") == (if r.decision.Some? then J.JObj(DecisionPayload(r.decision.value)) else J.JNull)
            && J.Get(o, "approval_id") == J.JStr(r.id) && J.Get(o, "status") == J.JStr(StatusText(r.status))
            && J.Get(o, "run_id") == J.JStr(r.runId) && J.Get(o, "turn_id") == J.JStr(r.turnId)
            && J.Get(o, "created_at") == J.JStr(r.createdAt) && J.Get(o, "metadata") == J.JObj(r.metadata)
  {
    hide RequestPayload, DecisionPayload, StatusText;
  }

  lemma StorableComesBack(h: J.Host, r: Record)
    requires h.Faithful()
    ensures FromPayload(h, ToPayload(r)) == Some(r) <==> Storable(r)
  {
    PayloadEntries(r);
    RequestComesBack(h, r.request);
    if r.decision.Some? {
      DecisionComesBack(h, r.decision.value);
    }
    StatusComesBack(r.status);
    assert h.now != "" && h.uuid != "";
    hide ToPayload, RequestFrom, DecisionFrom, RequestPayload, DecisionPayload, StatusText, StatusOf;
    hide J.Get, J.TextAt, J.DictAt;
    var o := ToPayload(r);
    DictOf(h, o, "metadata", r.metadata);
    TextOf(h, o, "approval_id", r.id, h.uuid);
    TextOf(h, o, "status", StatusText(r.status), "pending");
    TextOf(h, o, "run_id", r.runId, "");
    TextOf(h, o, "turn_id", r.turnId, "");
    TextOf(h, o, "created_at", r.createdAt, h.now);
  }

  lemma TextOf(h: J.Host, o: J.Object, key: string, text: string, default: string)
    requires J.Get(o, key) == J.JStr(text)
    ensures J.TextAt(h.show, o, key, default) == if text == "" then default else text
  {
  }

  lemma DictOf(h: J.Host, o: J.Object, key: string, fields: J.Object)
    requires J.Get(o, key) == J.JObj(fields)
    ensures J.DictAt(h.toDict, o, key) == Some(fields)
  {
  }

  lemma TextIsSome(h: J.Host, o: J.Object, key: string, default: string)
    requires h.Faithful() && default != ""
    ensures J.TextAt(h.show, o, key, default) != ""
  {
    var v := J.Get(o, key);
    assert J.Falsy(v) || J.Str(h.show, v) != "";
  }

  lemma ReadIsStorable(h: J.Host, o: J.Object)
    requires h.Faithful() && FromPayload(h, o).Some?
    ensures Storable(FromPayload(h, o).value)
  {
    TextIsSome(h, o, "approval_id", h.uuid);
    TextIsSome(h, o, "created_at", h.now);
    var decision := J.Get(o, "decision");
    if decision.JObj? {
      TextIsSome(h, decision.fields, "decided_at", h.now);
    }
  }

  // ----- the file

  const APPROVAL_TAG := "approval-record"

  const APPROVAL_NOTE := "This file is managed by raven_heart. Approval payloads are stored in comments."

  const APPROVAL_HEADER := [
    "# Approval Records",
    "",
    APPROVAL_NOTE,
    ""
  ]

  function RecordFields(r: Record): seq<seq<(string, string)>> {
    [[("- approval_id: ", r.id)],
     [("- subject: ", r.request.subject)],
     [("- status: ", StatusText(r.status))]]
    + if r.decision.Some? then [[("- actor: ", r.decision.value.actor)]] else []
  }

  function RecordFormat(h: J.Host): Format<Record> {
    Format(APPROVAL_TAG, APPROVAL_HEADER, (r: Record) => ToPayload(r), (o: J.Object) => FromPayload(h, o),
           (r: Record) => RecordFields(r))
  }

  lemma CodecIsValid(h: J.Host, o: J.Object)
    requires h.Faithful()
    ensures var f := RecordFormat(h); f.fromPayload(o).Some? ==> f.Storable(f.fromPayload(o).value)
  {
    hide ToPayload, FromPayload, RecordFields, Storable;
    if FromPayload(h, o).Some? {
      ReadIsStorable(h, o);
      StorableComesBack(h, FromPayload(h, o).value);
    }
  }

  lemma LabelsAreValid(r: Record)
    ensures forall fs | fs in RecordFields(r) :: PlainLabels(fs)
  {
    hide StatusText;
    var fss := RecordFields(r);
    forall i | 0 <= i < |fss| ensures PlainLabels(fss[i]) {
      assert fss[i] == fss[0] || fss[i] == fss[1] || fss[i] == fss[2] || fss[i] == fss[3];
    }
  }

  lemma HeaderIsValid()
    ensures Tag(APPROVAL_TAG) && APPROVAL_HEADER != [] && forall l | l in APPROVAL_HEADER :: '<' !in l
  {
    HeaderIsPlain();
  }

  /** Each step adds a few characters to the literal whose characters are known. */
  lemma NoteIsPlain()
    ensures '<' !in APPROVAL_NOTE
  {
    assert '<' !in "This file is ma";
    assert '<' !in "This file is managed by raven_";
    assert '<' !in "This file is managed by raven_heart. Approval pay";
    assert '<' !in "This file is managed by raven_heart. Approval payloads are stored";
  }

  lemma HeaderIsPlain()
    ensures forall l | l in APPROVAL_HEADER :: '<' !in l
  {
    NoteIsPlain();
  }

  lemma RecordFormatIsValid(h: J.Host)
    requires h.Faithful()
    ensures RecordFormat(h).Valid()
  {
    hide ToPayload, FromPayload, RecordFields, PlainLabels, Tag;
    var f := RecordFormat(h);
    HeaderIsValid();
    forall o: J.Object | f.fromPayload(o).Some? ensures f.Storable(f.fromPayload(o).value) {
      CodecIsValid(h, o);
    }
    forall r: Record, fs | fs in f.fields(r) ensures PlainLabels(fs) {
      LabelsAreValid(r);
      assert fs in RecordFields(r);
    }
  }

  /** The records a file's text holds, in file order. */
  function ReadRecords(h: J.Host, text: string): seq<Record> {
    ReadText(h, RecordFormat(h), text)
  }

  function WriteRecords(h: J.Host, rs: seq<Record>): string {
    Written(h, RecordFormat(h), rs)
  }

  /** The file of one record: a header, its comment, its labelled values line by line, and an empty line. */
  lemma OneRecordFile(h: J.Host, r: Record)
    ensures WriteRecords(h, [r]) == FileText(
      "approval-record",
      ["# Approval Records", "", "This file is managed by raven_heart. Approval payloads are stored in comments.", ""],
      [CommentLine(Encoded(h, ToPayload(r))),
       FieldLine([("- approval_id: ", r.id)]),
       FieldLine([("- subject: ", r.request.subject)]),
       FieldLine([("- status: ", StatusText(r.status))])]
      + (if r.decision.Some? then [FieldLine([("- actor: ", r.decision.value.actor)])] else [])
      + [FieldLine([])])
  {
    RecordLines(h, r);
    hide ToPayload, StatusText, Encoded, FileText, ItemLines;
    var f := RecordFormat(h);
    assert [r][1..] == [];
    assert AllLines(h, f, [r]) == ItemLines(h, f, r) + [] == ItemLines(h, f, r);
  }

  lemma RecordLines(h: J.Host, r: Record)
    ensures var f := RecordFormat(h);
            ItemLines(h, f, r) ==
            [CommentLine(Encoded(h, ToPayload(r))),
             FieldLine([("- approval_id: ", r.id)]),
             FieldLine([("- subject: ", r.request.subject)]),
             FieldLine([("- status: ", StatusText(r.status))])]
            + (if r.decision.Some? then [FieldLine([("- actor: ", r.decision.value.actor)])] else [])
            + [FieldLine([])]
  {
    hide ToPayload, StatusText, Encoded;
    var more := if r.decision.Some? then [[("- actor: ", r.decision.value.actor)]] else [];
    var a, b := [("- approval_id: ", r.id)], [("- subject: ", r.request.subject)];
    var c := [("- status: ", StatusText(r.status))];
    assert FieldLines(more) == if r.decision.Some? then [FieldLine(more[0])] else [];
    FieldLinesCons(c, more);
    FieldLinesCons(b, [c] + more);
    FieldLinesCons(a, [b] + ([c] + more));
    assert RecordFields(r) == [a] + ([b] + ([c] + more));
  }

  lemma FieldLinesCons(fs: seq<(string, string)>, fss: seq<seq<(string, string)>>)
    ensures FieldLines([fs] + fss) == [FieldLine(fs)] + FieldLines(fss)
  {
    assert ([fs] + fss)[1..] == fss;
  }

  /** The record can be stored, and no readable record hides in the texts printed beside its comment. */
  predicate Good(h: J.Host, r: Record) {
    && Storable(r)
    && ReadRecords(h, r.id) == [] && ReadRecords(h, r.request.subject) == []
    && (r.decision.Some? ==> ReadRecords(h, r.decision.value.actor) == [])
  }

  lemma OneFieldHides(h: J.Host, f: Format<Record>, label_: string, value: string)
    ensures HiddenIn(h, f, [(label_, value)]) == ReadText(h, f, value)
  {
    hide ReadText;
    var fs := [(label_, value)];
    assert fs[1..] == [];
    assert HiddenIn(h, f, fs) == ReadText(h, f, value) + [];
  }

  lemma HiddenCons(h: J.Host, f: Format<Record>, fs: seq<(string, string)>, fss: seq<seq<(string, string)>>)
    ensures Hidden(h, f, [fs] + fss) == HiddenIn(h, f, fs) + Hidden(h, f, fss)
  {
    hide HiddenIn;
    assert ([fs] + fss)[1..] == fss;
  }

  lemma ThreeLinesHide(h: J.Host, f: Format<Record>, a: (string, string), b: (string, string), c: (string, string),
                       more: seq<seq<(string, string)>>)
    ensures Hidden(h, f, [[a], [b], [c]] + more)
            == ReadText(h, f, a.1) + ReadText(h, f, b.1) + ReadText(h, f, c.1) + Hidden(h, f, more)
  {
    hide *;
    assert [[a], [b], [c]] + more == [[a]] + ([[b]] + ([[c]] + more));
    HiddenCons(h, f, [a], [[b]] + ([[c]] + more));
    HiddenCons(h, f, [b], [[c]] + more);
    HiddenCons(h, f, [c], more);
    OneFieldHides(h, f, a.0, a.1);
    OneFieldHides(h, f, b.0, b.1);
    OneFieldHides(h, f, c.0, c.1);
  }

  lemma ActorHides(h: J.Host, f: Format<Record>, actor: string)
    ensures Hidden(h, f, [[("- actor: ", actor)]]) == ReadText(h, f, actor)
  {
    hide ReadText, HiddenIn;
    OneFieldHides(h, f, "- actor: ", actor);
    assert [[("- actor: ", actor)]] == [[("- actor: ", actor)]] + [];
    HiddenCons(h, f, [("- actor: ", actor)], []);
  }

  lemma RecordHides(h: J.Host, r: Record)
    ensures var f := RecordFormat(h);
            Hidden(h, f, RecordFields(r))
            == ReadRecords(h, r.id) + ReadRecords(h, r.request.subject)
               + if r.decision.Some? then ReadRecords(h, r.decision.value.actor) else []
  {
    var f := RecordFormat(h);
    StatusComesBack(r.status);
    PlainHidesNothing(APPROVAL_TAG, StatusText(r.status));
    assert ReadText(h, f, StatusText(r.status)) == [];
    hide ReadText, StatusText, Hidden, HiddenIn, RecordFormat;
    var more := if r.decision.Some? then [[("- actor: ", r.decision.value.actor)]] else [];
    ThreeLinesHide(h, f, ("- approval_id: ", r.id), ("- subject: ", r.request.subject),
                   ("- status: ", StatusText(r.status)), more);
    HiddenNothing(h, f);
    if r.decision.Some? {
      ActorHides(h, f, r.decision.value.actor);
    }
  }

  lemma HiddenNothing(h: J.Host, f: Format<Record>)
    ensures Hidden(h, f, []) == []
  {
  }

  lemma GoodMeans(h: J.Host, r: Record)
    requires h.Faithful()
    ensures RoundTrips(h, RecordFormat(h), r) <==> Good(h, r)
  {
    StorableComesBack(h, r);
    RecordHides(h, r);
    hide ReadText, ToPayload, FromPayload, RecordFields, Hidden, Storable;
    assert RecordFormat(h).Storable(r) == (FromPayload(h, ToPayload(r)) == Some(r));
  }

  /** Reading back written records gives the same records, in any order, exactly when all are good. */
  lemma RecordsRoundTrip(h: J.Host, rs: seq<Record>)
    requires h.Faithful()
    ensures ReadRecords(h, WriteRecords(h, rs)) == rs <==> forall r | r in rs :: Good(h, r)
    ensures multiset(ReadRecords(h, WriteRecords(h, rs))) == multiset(rs) <==> forall r | r in rs :: Good(h, r)
  {
    RecordFormatIsValid(h);
    MarkdownRoundTrip(h, RecordFormat(h), rs);
    hide ReadText, Written, Good, RoundTrips, RecordFormat;
    forall r | r in rs ensures RoundTrips(h, RecordFormat(h), r) == Good(h, r) {
      GoodMeans(h, r);
    }
  }

  // ----- reading at different moments

  /** The payload carries its id, its creation time and, if it holds a decision, the decision's time. */
  predicate Carries(o: J.Object) {
    var decision := J.Get(o, "decision");
    && !J.Falsy(J.Get(o, "approval_id")) && !J.Falsy(J.Get(o, "created_at"))
    && (decision.JObj? ==> !J.Falsy(J.Get(decision.fields, "decided_at")))
  }

  function CarriesAll(): J.Object -> bool {
    (o: J.Object) => Carries(o)
  }

  /** Every readable payload of the text carries what a reading would otherwise draw. */
  ghost predicate CompleteText(h: J.Host, text: string) {
    AllCarry(h, RecordFormat(h), CarriesAll(), Scan(APPROVAL_TAG, text))
  }

  lemma DecisionFromAt(h: J.Host, d: J.Draw, o: J.Object)
    ensures DecisionFrom(h.At(d), o).Some? <==> DecisionFrom(h, o).Some?
    ensures !J.Falsy(J.Get(o, "decided_at")) ==> DecisionFrom(h.At(d), o) == DecisionFrom(h, o)
    ensures J.Falsy(J.Get(o, "decided_at")) && DecisionFrom(h, o).Some? ==>
              DecisionFrom(h.At(d), o).value.decidedAt == d.now
  {
    hide StatusOf;
  }

  /** The texts of a record that a reading may have drawn. */
  function Marks(r: Record): seq<string> {
    [r.id, r.createdAt] + if r.decision.Some? then [r.decision.value.decidedAt] else []
  }

  lemma FromPayloadAt(h: J.Host, d: J.Draw, o: J.Object)
    ensures FromPayload(h.At(d), o).Some? <==> FromPayload(h, o).Some?
    ensures Carries(o) ==> FromPayload(h.At(d), o) == FromPayload(h, o)
    ensures !Carries(o) && FromPayload(h, o).Some? && d.now == d.uuid ==> d.now in Marks(FromPayload(h.At(d), o).value)
  {
    hide StatusOf, DecisionFrom;
    var decision := J.Get(o, "decision");
    if decision.JObj? {
      DecisionFromAt(h, d, decision.fields);
    }
  }

  lemma FormatsAlike(h: J.Host, d: J.Draw)
    ensures Alike(h, RecordFormat(h), h.At(d), RecordFormat(h.At(d)))
    ensures var f, g := RecordFormat(h), RecordFormat(h.At(d));
            forall o :: CarriesAll()(o) ==> f.fromPayload(o) == g.fromPayload(o)
  {
    hide ToPayload, FromPayload, RecordFields, Carries;
    forall o: J.Object
      ensures FromPayload(h.At(d), o).Some? <==> FromPayload(h, o).Some?
      ensures Carries(o) ==> FromPayload(h.At(d), o) == FromPayload(h, o)
    {
      FromPayloadAt(h, d, o);
    }
  }

  lemma SameCounts(h: J.Host, d: J.Draw, text: string)
    ensures |ReadRecords(h.At(d), text)| == |ReadRecords(h, text)|
  {
    FormatsAlike(h, d);
    hide RecordFormat, Scan, ReadPayloads, Alike;
    RecordTag(h);
    RecordTag(h.At(d));
    AlikeCount(h, RecordFormat(h), h.At(d), RecordFormat(h.At(d)), Scan(APPROVAL_TAG, text));
  }

  lemma RecordTag(h: J.Host)
    ensures RecordFormat(h).tag == APPROVAL_TAG && RecordFormat(h).header == APPROVAL_HEADER
  {
  }

  lemma SameWriting(h: J.Host, d: J.Draw, rs: seq<Record>)
    ensures WriteRecords(h.At(d), rs) == WriteRecords(h, rs)
  {
    FormatsAlike(h, d);
    hide RecordFormat, AllLines, Alike;
    RecordTag(h);
    RecordTag(h.At(d));
    AlikeWritten(h, RecordFormat(h), h.At(d), RecordFormat(h.At(d)), rs);
  }

  lemma SameGood(h: J.Host, d: J.Draw, r: Record)
    ensures Good(h.At(d), r) <==> Good(h, r)
  {
    hide ReadRecords;
    forall s ensures ReadRecords(h.At(d), s) == [] <==> ReadRecords(h, s) == [] {
      SameCounts(h, d, s);
    }
  }

  lemma SameReading(h: J.Host, d: J.Draw, text: string)
    requires CompleteText(h, text)
    ensures ReadRecords(h.At(d), text) == ReadRecords(h, text)
  {
    FormatsAlike(h, d);
    hide RecordFormat, Scan, ReadPayloads, Alike, AllCarry;
    RecordTag(h);
    RecordTag(h.At(d));
    AlikeRead(h, RecordFormat(h), h.At(d), RecordFormat(h.At(d)), CarriesAll(), Scan(APPROVAL_TAG, text));
  }

  function AllMarks(rs: seq<Record>): (r: seq<string>)
    ensures forall x, m | x in rs && m in Marks(x) :: m in r
  {
    if rs == [] then [] else Marks(rs[0]) + AllMarks(rs[1..])
  }

  /** A text of which a reading draws something reads as other records when other things are drawn. */
  lemma ReadingDrifts(h: J.Host, d: J.Draw, text: string)
    requires !CompleteText(h, text) && d.now == d.uuid && d.now !in AllMarks(ReadRecords(h, text))
    ensures exists r :: r in ReadRecords(h.At(d), text) && r !in ReadRecords(h, text)
  {
    FormatsAlike(h, d);
    var f, g := RecordFormat(h), RecordFormat(h.At(d));
    var o := UncarriedIsRead(h, f, h.At(d), g, CarriesAll(), Scan(APPROVAL_TAG, text));
    FromPayloadAt(h, d, o);
    hide FromPayload, Scan, ReadPayloads, Marks, AllCarry, Carries;
    var r := FromPayload(h.At(d), o).value;
    assert r in ReadRecords(h.At(d), text);
    assert r !in ReadRecords(h, text);
  }

  // ----- the store

  /** The key `(created_at, approval_id)` */
  function ByCreationAndId(): (Record, Record) -> bool {
    (a: Record, b: Record) =>
      if a.createdAt != b.createdAt then StrLeq(a.createdAt, b.createdAt) else StrLeq(a.id, b.id)
  }

  lemma ByCreationAndIdIsTotal()
    ensures TotalPreorder(ByCreationAndId())
    ensures forall a, b :: ByCreationAndId()(a, b) && ByCreationAndId()(b, a) ==> a.id == b.id
  {
    StrLeqOrders();
    var leq := ByCreationAndId();
    forall x, y, z | leq(x, y) && leq(y, z) ensures leq(x, z) {
    }
  }

  function InOrder(rs: seq<Record>): seq<Record> {
    Sort(ByCreationAndId(), rs)
  }

  /** `MarkdownApprovalStore.records`; None is a missing file. */
  function FileRecords(h: J.Host, file: Option<string>): seq<Record> {
    match file
    case None => []
    case Some(text) => InOrder(ReadRecords(h, text))
  }

  /** `{item.approval_id: item for item in rs}` */
  function Dictionary(rs: seq<Record>): seq<Record> {
    if rs == [] then [] else Put(Dictionary(rs[..|rs| - 1]), rs[|rs| - 1])
  }

  /** `_save`: the whole file is written anew. */
  function Save(h: J.Host, file: Option<string>, r: Record): Option<string> {
    Some(WriteRecords(h, InOrder(Put(Dictionary(FileRecords(h, file)), r))))
  }

  lemma {:induction false} DictionaryOfUnique(rs: seq<Record>)
    requires UniqueIds(rs)
    ensures Dictionary(rs) == rs
  {
    if rs != [] {
      var init, last := rs[..|rs| - 1], rs[|rs| - 1];
      DictionaryOfUnique(init);
      FindNone(init, last.id);
      PutAt(init, last);
      assert rs == init + [last];
    }
  }

  lemma PutPermutes(xs: seq<Record>, ys: seq<Record>, r: Record)
    requires UniqueIds(xs) && UniqueIds(ys) && multiset(xs) == multiset(ys)
    ensures multiset(Put(xs, r)) == multiset(Put(ys, r))
  {
    SameFind(xs, ys, r.id);
    PutMultiset(xs, r);
    PutMultiset(ys, r);
  }

  lemma SameFind(xs: seq<Record>, ys: seq<Record>, id: string)
    requires UniqueIds(xs) && UniqueIds(ys) && multiset(xs) == multiset(ys)
    ensures Find(xs, id) == Find(ys, id)
  {
    forall r ensures r in xs <==> r in ys {
      assert r in multiset(xs) <==> r in multiset(ys);
    }
    FindNone(xs, id);
    FindNone(ys, id);
    if Find(xs, id).Some? {
      FindUnique(ys, Find(xs, id).value);
    }
  }

  lemma PutMultiset(rs: seq<Record>, r: Record)
    ensures multiset(Put(rs, r)) ==
            match Find(rs, r.id)
            case None => multiset(rs) + multiset{r}
            case Some(o) => multiset(rs) - multiset{o} + multiset{r}
  {
    PutAt(rs, r);
    if Find(rs, r.id).Some? {
      var i :| 0 <= i < |rs| && rs[i].id == r.id && Put(rs, r) == rs[i := r] && Find(rs, r.id) == Some(rs[i]);
    }
  }

  lemma UniqueOfPermutation(xs: seq<Record>, ys: seq<Record>)
    requires UniqueIds(xs) && multiset(xs) == multiset(ys)
    ensures UniqueIds(ys)
  {
    DistinctPermutes(IdOf(), xs, ys);
  }

  /** With unique ids the order is the same whatever order the records come in. */
  lemma OrderIsCanonical(xs: seq<Record>, ys: seq<Record>)
    requires UniqueIds(xs) && multiset(xs) == multiset(ys)
    ensures InOrder(xs) == InOrder(ys)
  {
    var leq := ByCreationAndId();
    ByCreationAndIdIsTotal();
    SortSorts(leq, xs);
    SortSorts(leq, ys);
    SortPermutes(leq, xs);
    SortPermutes(leq, ys);
    UniqueOfPermutation(xs, InOrder(xs));
    hide ByCreationAndId;
    forall a, b | a in InOrder(xs) && b in InOrder(xs) && leq(a, b) && leq(b, a) ensures a == b {
      FindUnique(InOrder(xs), a);
      FindUnique(InOrder(xs), b);
    }
    SortedPermutationsAgree(leq, InOrder(xs), InOrder(ys));
  }

  /** The store lists records by their creation times, and those of one time by their ids. */
  lemma InOrderMeans(rs: seq<Record>)
    ensures multiset(InOrder(rs)) == multiset(rs)
    ensures var ordered := InOrder(rs);
            forall i, j :: 0 <= i < j < |ordered| ==>
              && StrLeq(ordered[i].createdAt, ordered[j].createdAt)
              && (ordered[i].createdAt == ordered[j].createdAt ==> StrLeq(ordered[i].id, ordered[j].id))
  {
    var leq, ordered := ByCreationAndId(), InOrder(rs);
    ByCreationAndIdIsTotal();
    StrLeqOrders();
    SortPermutes(leq, rs);
    SortSorts(leq, rs);
    hide Sort, StrLeq;
    forall i, j | 0 <= i < j < |ordered|
      ensures StrLeq(ordered[i].createdAt, ordered[j].createdAt)
      ensures ordered[i].createdAt == ordered[j].createdAt ==> StrLeq(ordered[i].id, ordered[j].id)
    {
      assert leq(ordered[i], ordered[j]);
    }
  }

  /** The file lists the records of the in-memory queue. */
  ghost predicate Mirrors(h: J.Host, file: Option<string>, rs: seq<Record>) {
    FileRecords(h, file) == InOrder(rs)
  }

  lemma InOrderFacts(rs: seq<Record>)
    requires UniqueIds(rs)
    ensures multiset(InOrder(rs)) == multiset(rs) && UniqueIds(InOrder(rs)) && InOrder(InOrder(rs)) == InOrder(rs)
    ensures forall r :: r in InOrder(rs) <==> r in rs
  {
    SortPermutes(ByCreationAndId(), rs);
    SortMembers(ByCreationAndId(), rs);
    UniqueOfPermutation(rs, InOrder(rs));
    OrderIsCanonical(rs, InOrder(rs));
  }

  /** Saving into a mirroring file writes the queue's next state, in order. */
  lemma SaveWrites(h: J.Host, file: Option<string>, rs: seq<Record>, r: Record)
    requires UniqueIds(rs) && Mirrors(h, file, rs)
    ensures Save(h, file, r) == Some(WriteRecords(h, InOrder(Put(rs, r))))
  {
    hide WriteRecords, FileRecords, InOrder;
    assert FileRecords(h, file) == InOrder(rs);
    InOrderFacts(rs);
    DictionaryOfUnique(InOrder(rs));
    PutPermutes(InOrder(rs), rs, r);
    PutKeepsUnique(InOrder(rs), r);
    PutKeepsUnique(rs, r);
    OrderIsCanonical(Put(InOrder(rs), r), Put(rs, r));
  }

  /** The saved file mirrors the next state exactly when all its records are good. */
  lemma SaveMirrors(h: J.Host, file: Option<string>, rs: seq<Record>, r: Record)
    requires h.Faithful() && UniqueIds(rs) && Mirrors(h, file, rs)
    ensures Mirrors(h, Save(h, file, r), Put(rs, r)) <==> forall x | x in Put(rs, r) :: Good(h, x)
  {
    hide WriteRecords, ReadRecords, Good, InOrder, Put, Save;
    var next := Put(rs, r);
    var written := WriteRecords(h, InOrder(next));
    var back := ReadRecords(h, written);
    SaveWrites(h, file, rs, r);
    PutKeepsUnique(rs, r);
    InOrderFacts(next);
    RecordsRoundTrip(h, InOrder(next));
    assert FileRecords(h, Save(h, file, r)) == InOrder(back);
    InOrderPermutes(back);
  }

  lemma InOrderPermutes(rs: seq<Record>)
    ensures multiset(InOrder(rs)) == multiset(rs)
  {
    SortPermutes(ByCreationAndId(), rs);
  }

  /** The queue of a store that is given the records of this file. */
  function Opened(h: J.Host, file: Option<string>): seq<Record> {
    Dictionary(FileRecords(h, file))
  }

  lemma {:induction false} DictionaryIsUnique(rs: seq<Record>)
    ensures UniqueIds(Dictionary(rs))
  {
    if rs != [] {
      DictionaryIsUnique(rs[..|rs| - 1]);
      PutKeepsUnique(Dictionary(rs[..|rs| - 1]), rs[|rs| - 1]);
    }
  }

  lemma {:induction false} FileIsInOrder(h: J.Host, file: Option<string>)
    ensures InOrder(FileRecords(h, file)) == FileRecords(h, file)
  {
    if file.Some? {
      ByCreationAndIdIsTotal();
      SortSorts(ByCreationAndId(), ReadRecords(h, file.value));
      SortOfSorted(ByCreationAndId(), FileRecords(h, file));
    }
  }

  /** A file mirrors the queue it opens exactly when it lists no id twice. */
  lemma OpeningMirrors(h: J.Host, file: Option<string>)
    ensures UniqueIds(Opened(h, file))
    ensures Mirrors(h, file, Opened(h, file)) <==> UniqueIds(FileRecords(h, file))
  {
    hide FileRecords, InOrder, Dictionary;
    var rs := FileRecords(h, file);
    DictionaryIsUnique(rs);
    FileIsInOrder(h, file);
    InOrderFacts(Dictionary(rs));
    if UniqueIds(rs) {
      DictionaryOfUnique(rs);
    }
  }

  ghost predicate Complete(h: J.Host, file: Option<string>) {
    file.Some? ==> CompleteText(h, file.value)
  }

  /** The file lists the records of the queue at whatever moment it is read. */
  ghost predicate Keeps(h: J.Host, file: Option<string>, rs: seq<Record>) {
    forall d :: Mirrors(h.At(d), file, rs)
  }

  lemma KeepsNow(h: J.Host, file: Option<string>, rs: seq<Record>)
    requires h.Faithful() && Keeps(h, file, rs)
    ensures Mirrors(h, file, rs)
  {
    hide Mirrors;
    var d := J.Draw(h.now, h.uuid);
    h.AtIsFaithful(d);
    assert Mirrors(h.At(d), file, rs);
  }

  lemma FileDrifts(h: J.Host, d: J.Draw, text: string)
    requires !CompleteText(h, text) && d.now == d.uuid && d.now !in AllMarks(ReadRecords(h, text))
    ensures FileRecords(h.At(d), Some(text)) != FileRecords(h, Some(text))
  {
    ReadingDrifts(h, d, text);
    hide ReadRecords, CompleteText, AllMarks;
    SortMembers(ByCreationAndId(), ReadRecords(h, text));
    SortMembers(ByCreationAndId(), ReadRecords(h.At(d), text));
    hide Sort;
    var r :| r in ReadRecords(h.At(d), text) && r !in ReadRecords(h, text);
    assert r in FileRecords(h.At(d), Some(text)) && r !in FileRecords(h, Some(text));
  }

  /** A file keeps the queue it opens exactly when it is complete and lists no id twice. */
  lemma OpeningKeeps(h: J.Host, file: Option<string>)
    requires h.Faithful()
    ensures Keeps(h, file, Opened(h, file)) <==> Complete(h, file) && UniqueIds(FileRecords(h, file))
  {
    hide Opened, ReadRecords, CompleteText, AllMarks, UniqueIds;
    var rs := Opened(h, file);
    OpeningMirrors(h, file);
    if Keeps(h, file, rs) {
      KeepsNow(h, file, rs);
      if file.Some? && !CompleteText(h, file.value) {
        var t := FreshText(AllMarks(ReadRecords(h, file.value)));
        var d := J.Draw(t, t);
        assert Mirrors(h.At(d), file, rs);
        FileDrifts(h, d, file.value);
      }
    }
    if Complete(h, file) && UniqueIds(FileRecords(h, file)) {
      forall d ensures Mirrors(h.At(d), file, rs) {
        if file.Some? {
          SameReading(h, d, file.value);
        }
      }
    }
  }

  /** A save at any moment leaves a file that keeps the next state exactly when all its records are good. */
  lemma SaveKeeps(h: J.Host, file: Option<string>, rs: seq<Record>, r: Record, d: J.Draw)
    requires h.Faithful() && UniqueIds(rs) && Keeps(h, file, rs)
    ensures Keeps(h, Save(h.At(d), file, r), Put(rs, r)) <==> AllGood(h, Put(rs, r))
  {
    hide WriteRecords, ReadRecords, Good, InOrder, Put, Save, Mirrors;
    var next := Put(rs, r);
    var saved := Save(h.At(d), file, r);
    forall w: J.Draw ensures Mirrors(h.At(w), saved, next) <==> AllGood(h, next) {
      assert Mirrors(h.At(w), file, rs) && Mirrors(h.At(d), file, rs);
      h.AtIsFaithful(w);
      SaveWrites(h.At(w), file, rs, r);
      SaveWrites(h.At(d), file, rs, r);
      SameWriting(h, w, InOrder(next));
      SameWriting(h, d, InOrder(next));
      SaveMirrors(h.At(w), file, rs, r);
      forall x ensures Good(h.At(w), x) <==> Good(h, x) {
        SameGood(h, w, x);
      }
    }
    if Keeps(h, saved, next) {
      assert Mirrors(h.At(d), saved, next);
    }
  }

  ghost predicate AllGood(h: J.Host, rs: seq<Record>) {
    forall r | r in rs :: Good(h, r)
  }

  /** Every operation reads the file anew; what its readings draw comes with the call. */
  class MarkdownApprovalStore {
    const h: J.Host
    var file: Option<string>
    /** The in-memory queue after the same operations, and whether the file keeps it so far. */
    ghost var queue: seq<Record>
    ghost var clean: bool

    ghost predicate Valid()
      reads this
    {
      h.Faithful() && UniqueIds(queue) && (clean ==> Keeps(h, file, queue))
    }

    /** Opens the file as it is; it is clean when it is complete and lists no id twice. */
    constructor (h: J.Host, existing: Option<string>)
      requires h.Faithful()
      ensures Valid() && this.h == h && file == existing && queue == Opened(h, existing)
      ensures clean <==> Keeps(h, existing, queue)
      ensures clean <==> Complete(h, existing) && UniqueIds(FileRecords(h, existing))
    {
      this.h := h;
      file, queue, clean := existing, Opened(h, existing), Keeps(h, existing, Opened(h, existing));
      new;
      OpeningMirrors(h, existing);
      OpeningKeeps(h, existing);
    }

    method Records(d: J.Draw) returns (rs: seq<Record>)
      requires Valid()
      ensures rs == FileRecords(h.At(d), file)
      ensures clean ==> rs == InOrder(queue)
    {
      rs := FileRecords(h.At(d), file);
      assert clean ==> Mirrors(h.At(d), file, queue);
    }

    method Get(id: string, d: J.Draw) returns (r: Option<Record>)
      requires Valid()
      ensures r == Find(FileRecords(h.At(d), file), id)
      ensures clean ==> r == Find(queue, id)
    {
      r := Find(FileRecords(h.At(d), file), id);
      if clean {
        assert Mirrors(h.At(d), file, queue);
        InOrderFacts(queue);
        SameFind(InOrder(queue), queue, id);
      }
    }

    method SaveRecord(r: Record, d: J.Draw)
      requires Valid()
      modifies this
      ensures Valid() && queue == Put(old(queue), r) && file == Save(h.At(d), old(file), r)
      ensures clean <==> old(clean) && AllGood(h, queue)
    {
      hide Good, WriteRecords, ReadRecords, Mirrors;
      if clean {
        SaveKeeps(h, file, queue, r, d);
      }
      PutKeepsUnique(queue, r);
      file := Save(h.At(d), file, r);
      queue := Put(queue, r);
      clean := clean && AllGood(h, queue);
    }

    method Submit(
      id: string, request: Request, runId: string, turnId: string, now: string, metadata: J.Object, draws: Draws)
      returns (record: Record)
      requires Valid()
      modifies this
      ensures Valid() && record == NewRecord(id, request, runId, turnId, now, metadata)
      ensures queue == Apply(old(queue), Action.Submit(record))
      ensures file == FileApply(h, old(file), Action.Submit(record), draws)
      ensures clean <==> old(clean) && AllGood(h, queue)
    {
      record := Record(id, request, Pending, runId, turnId, now, None, metadata);
      SaveRecord(record, draws.save);
    }

    /** While the file is clean, deciding has the in-memory store's outcome, errors included. */
    method Decide(id: string, decision: Decision, draws: Draws) returns (r: Result<Record, StoreError>)
      requires Valid()
      modifies this
      ensures Valid() && file == FileApply(h, old(file), Action.Decide(id, decision), draws)
      ensures old(clean) ==>
                && queue == Apply(old(queue), Action.Decide(id, decision))
                && match Refusal(old(queue), id)
                   case Some(e) => r == Err(e) && clean
                   case None => r == Ok(Resolve(Find(old(queue), id).value, decision)) && (clean <==> AllGood(h, queue))
    {
      hide AllGood, Mirrors, Keeps, Save;
      var found := Get(id, draws.get);
      if found.None? {
        return Err(UnknownApproval(id));
      }
      if found.value.status != Pending {
        return Err(AlreadyResolved(id));
      }
      var resolved := found.value.(status := decision.status, decision := Some(decision));
      SaveRecord(resolved, draws.save);
      r := Ok(resolved);
    }
  }

  // ----- whole runs

  /** What the readings of one operation draw: the lookup's, if it has one, and the save's. */
  datatype Draws = Draws(get: J.Draw, save: J.Draw)

  function FileApply(h: J.Host, file: Option<string>, a: Action, draws: Draws): Option<string> {
    match a
    case Submit(r) => Save(h.At(draws.save), file, r)
    case Decide(id, d) =>
      var rs := FileRecords(h.At(draws.get), file);
      if Refusal(rs, id).Some? then file else Save(h.At(draws.save), file, Resolve(Find(rs, id).value, d))
  }

  function FileRun(h: J.Host, file: Option<string>, acts: seq<Action>, draws: seq<Draws>): Option<string>
    requires |draws| == |acts|
  {
    if acts == [] then file
    else var n := |acts| - 1; FileApply(h, FileRun(h, file, acts[..n], draws[..n]), acts[n], draws[n])
  }

  lemma {:induction false} RunKeepsUnique(rs: seq<Record>, acts: seq<Action>)
    requires UniqueIds(rs)
    ensures UniqueIds(Run(rs, acts))
  {
    if acts != [] {
      var before, a := Run(rs, acts[..|acts| - 1]), acts[|acts| - 1];
      RunKeepsUnique(rs, acts[..|acts| - 1]);
      match a {
        case Submit(r) => PutKeepsUnique(before, r);
        case Decide(id, d) =>
          if Refusal(before, id).None? {
            PutKeepsUnique(before, Resolve(Find(before, id).value, d));
          }
      }
    }
  }

  /** The action writes the file: a submission, or a decision that goes through. */
  predicate Writes(rs: seq<Record>, a: Action) {
    a.Submit? || Refusal(rs, a.id).None?
  }

  /** One operation: the file keeps the queue's next state exactly when all records that it writes are good. */
  lemma StepKeeps(h: J.Host, file: Option<string>, rs: seq<Record>, a: Action, draws: Draws)
    requires h.Faithful() && UniqueIds(rs) && Keeps(h, file, rs)
    ensures Keeps(h, FileApply(h, file, a, draws), Apply(rs, a)) <==> (Writes(rs, a) ==> AllGood(h, Apply(rs, a)))
  {
    hide Good, Save, InOrder;
    InOrderFacts(rs);
    match a {
      case Submit(r) => SaveKeeps(h, file, rs, r, draws.save);
      case Decide(id, d) =>
        assert Mirrors(h.At(draws.get), file, rs);
        assert FileRecords(h.At(draws.get), file) == InOrder(rs);
        SameFind(InOrder(rs), rs, id);
        hide FileRecords, Mirrors;
        if Refusal(rs, id).None? {
          SaveKeeps(h, file, rs, Resolve(Find(rs, id).value, d), draws.save);
        }
    }
  }

  /**
    After each of these actions the file holds, at whatever moment it is read, the records of a queue that
    started out with the records of one reading.
    */
  ghost predicate MirrorsThroughout(h: J.Host, file: Option<string>, acts: seq<Action>, draws: seq<Draws>)
    requires |draws| == |acts|
  {
    forall n :: 0 <= n <= |acts| ==>
      Keeps(h, FileRun(h, file, acts[..n], draws[..n]), Run(Opened(h, file), acts[..n]))
  }

  ghost predicate GoodWhenWritten(h: J.Host, rs: seq<Record>, acts: seq<Action>) {
    forall n :: 0 <= n < |acts| ==>
      (Writes(Run(rs, acts[..n]), acts[n]) ==> AllGood(h, Run(rs, acts[..n + 1])))
  }

  lemma WrittenNext(h: J.Host, rs: seq<Record>, acts: seq<Action>)
    requires acts != []
    ensures var init, a := acts[..|acts| - 1], acts[|acts| - 1];
            GoodWhenWritten(h, rs, acts) <==>
            GoodWhenWritten(h, rs, init) && (Writes(Run(rs, init), a) ==> AllGood(h, Apply(Run(rs, init), a)))
  {
    hide AllGood, Writes, Apply;
    var init := acts[..|acts| - 1];
    assert acts[..|acts|] == acts;
    forall n | 0 <= n <= |init| ensures init[..n] == acts[..n] {
    }
    assert forall n :: 0 <= n < |init| ==> init[n] == acts[n];
    if GoodWhenWritten(h, rs, acts) {
      assert Writes(Run(rs, acts[..|init|]), acts[|init|]) ==> AllGood(h, Run(rs, acts[..|init| + 1]));
    }
  }

  lemma MirrorsNext(h: J.Host, file: Option<string>, acts: seq<Action>, draws: seq<Draws>)
    requires |draws| == |acts| > 0
    ensures var m := |acts| - 1;
            MirrorsThroughout(h, file, acts, draws) <==>
            && MirrorsThroughout(h, file, acts[..m], draws[..m])
            && Keeps(h, FileRun(h, file, acts, draws), Run(Opened(h, file), acts))
  {
    hide Keeps, FileRun, Run, Opened;
    var m := |acts| - 1;
    assert acts[..|acts|] == acts && draws[..|acts|] == draws;
    forall n | 0 <= n <= m ensures acts[..m][..n] == acts[..n] && draws[..m][..n] == draws[..n] {
    }
  }

  lemma MirrorsAtEnd(h: J.Host, file: Option<string>, acts: seq<Action>, draws: seq<Draws>)
    requires |draws| == |acts| && MirrorsThroughout(h, file, acts, draws)
    ensures Keeps(h, FileRun(h, file, acts, draws), Run(Opened(h, file), acts))
  {
    hide Keeps, FileRun, Run, Opened;
    assert acts[..|acts|] == acts && draws[..|acts|] == draws;
  }

  /**
    Over every run of submissions and decisions on any file, whatever its readings draw, the Markdown store
    holds the in-memory store's records at all times and at whatever moment it is read exactly when each
    readable payload of the file carries its id and times, the file lists no id twice, and all records are
    good whenever it is written.
    */
  lemma {:induction false} FileMirrorsQueue(h: J.Host, file: Option<string>, acts: seq<Action>, draws: seq<Draws>)
    requires h.Faithful() && |draws| == |acts|
    ensures MirrorsThroughout(h, file, acts, draws) <==>
            Complete(h, file) && UniqueIds(FileRecords(h, file)) && GoodWhenWritten(h, Opened(h, file), acts)
  {
    hide Keeps, FileApply, Apply, Opened, AllGood, Writes, FileRecords, Complete;
    var rs := Opened(h, file);
    OpeningMirrors(h, file);
    OpeningKeeps(h, file);
    if acts == [] {
      assert acts[..0] == [] && draws[..0] == [];
    } else {
      hide MirrorsThroughout, GoodWhenWritten;
      var m := |acts| - 1;
      FileMirrorsQueue(h, file, acts[..m], draws[..m]);
      WrittenNext(h, rs, acts);
      MirrorsNext(h, file, acts, draws);
      RunKeepsUnique(rs, acts[..m]);
      if MirrorsThroughout(h, file, acts[..m], draws[..m]) {
        MirrorsAtEnd(h, file, acts[..m], draws[..m]);
        StepKeeps(h, FileRun(h, file, acts[..m], draws[..m]), Run(rs, acts[..m]), acts[m], draws[m]);
      }
    }
  }

  // ----- a file that reads differently each time

  function BareText(h: J.Host): string {
    Comment(APPROVAL_TAG, Encoded(h, BARE_PAYLOAD))
  }

  const BARE_PAYLOAD: J.Object := map["request" := J.JObj(map[])]

  function BareRecord(h: J.Host): Record {
    Record(h.uuid, Request("", "", map[]), Pending, "", "", h.now, None, map[])
  }

  lemma BareTextReads(h: J.Host)
    requires h.Faithful()
    ensures ReadRecords(h, BareText(h)) == [BareRecord(h)]
  {
    var p := Encoded(h, BARE_PAYLOAD);
    CodecRoundTrip(h, BARE_PAYLOAD);
    HeaderIsValid();
    BarePayloadReads(h);
    RecordTag(h);
    hide *;
    ScanComment(APPROVAL_TAG, p, "");
    BareScan(h, p);
  }

  lemma BarePayloadReads(h: J.Host)
    ensures FromPayload(h, BARE_PAYLOAD) == Some(BareRecord(h))
  {
  }

  lemma BareScan(h: J.Host, p: string)
    requires Scan(APPROVAL_TAG, Comment(APPROVAL_TAG, p) + "") == [p] + Scan(APPROVAL_TAG, "")
    requires p == Encoded(h, BARE_PAYLOAD) && Decoded(h, p) == Some(BARE_PAYLOAD)
    requires FromPayload(h, BARE_PAYLOAD) == Some(BareRecord(h))
    ensures ReadRecords(h, BareText(h)) == [BareRecord(h)]
  {
    hide Encoded, Decoded, FromPayload, Comment, BareRecord;
    assert Comment(APPROVAL_TAG, p) + "" == Comment(APPROVAL_TAG, p);
    assert Scan(APPROVAL_TAG, "") == [];
    assert Scan(APPROVAL_TAG, BareText(h)) == [p];
    hide Scan;
    assert ReadPayloads(h, RecordFormat(h), [p][1..]) == [];
  }

  lemma BareFile(h: J.Host, d: J.Draw)
    requires h.Faithful()
    ensures FileRecords(h.At(d), Some(BareText(h))) == [BareRecord(h.At(d))]
  {
    var k := h.At(d);
    h.AtIsFaithful(d);
    BareTextReads(k);
    assert BareText(k) == BareText(h);
    hide ReadRecords, BareRecord, BareText;
    SortOfOne(BareRecord(k));
  }

  lemma SortOfOne(r: Record)
    ensures InOrder([r]) == [r]
  {
    SortOfSorted(ByCreationAndId(), [r]);
  }

  /**
    A file of one payload that only holds an empty request: it lists no id twice and nothing is written, yet
    the id that one reading lists is unknown to the next, and deciding on it fails.
    */
  lemma ListedIdMayBeUnknown(h: J.Host, d: J.Draw)
    requires h.Faithful() && d.uuid != h.uuid
    ensures var file := Some(BareText(h));
            && UniqueIds(FileRecords(h, file)) && !Complete(h, file) && !MirrorsThroughout(h, file, [], [])
            && Refusal(FileRecords(h, file), h.uuid).None?
            && Refusal(FileRecords(h.At(d), file), h.uuid) == Some(UnknownApproval(h.uuid))
  {
    var file := Some(BareText(h));
    var now := J.Draw(h.now, h.uuid);
    BareFile(h, now);
    BareFile(h, d);
    h.AtIsFaithful(now);
    hide FileRecords, BareText, Opened, Complete;
    assert FileRecords(h, file) == [BareRecord(h)];
    if Complete(h, file) {
      OpeningKeeps(h, file);
      assert false;
    }
    FileMirrorsQueue(h, file, [], []);
  }

  // ----- the condition on what is supplied

  /** A submitted record is good; a decision has its time, and no readable record hides in its actor. */
  predicate GoodSupply(h: J.Host, a: Action) {
    match a
    case Submit(r) => Good(h, r)
    case Decide(_, d) => d.decidedAt != "" && ReadRecords(h, d.actor) == []
  }

  ghost predicate GoodSupplies(h: J.Host, rs: seq<Record>, acts: seq<Action>) {
    forall n :: 0 <= n < |acts| ==>
      (Writes(Run(rs, acts[..n]), acts[n]) ==> AllGood(h, rs) && GoodSupply(h, acts[n]))
  }

  lemma SuppliesNext(h: J.Host, rs: seq<Record>, acts: seq<Action>)
    requires acts != []
    ensures var init, a := acts[..|acts| - 1], acts[|acts| - 1];
            GoodSupplies(h, rs, acts) <==>
            GoodSupplies(h, rs, init) && (Writes(Run(rs, init), a) ==> AllGood(h, rs) && GoodSupply(h, a))
  {
    hide AllGood, Writes, GoodSupply, Run;
    var init := acts[..|acts| - 1];
    forall n | 0 <= n < |init| ensures init[..n] == acts[..n] && init[n] == acts[n] {
    }
    if GoodSupplies(h, rs, acts) {
      assert Writes(Run(rs, acts[..|init|]), acts[|init|]) ==> AllGood(h, rs) && GoodSupply(h, acts[|init|]);
    }
  }

  lemma ResolvedIsGood(h: J.Host, r: Record, id: string, d: Decision)
    requires r.decision.None?
    ensures Good(h, Resolve(r, d)) <==> Good(h, r) && GoodSupply(h, Action.Decide(id, d))
  {
    hide ReadRecords;
  }

  /** One write leaves only good records exactly when there were only good ones and a good one is supplied. */
  lemma StepGood(h: J.Host, rs: seq<Record>, a: Action)
    requires WellFormed(rs) && Writes(rs, a)
    requires a.Submit? ==> Find(rs, a.record.id).None?
    ensures AllGood(h, Apply(rs, a)) <==> AllGood(h, rs) && GoodSupply(h, a)
  {
    hide Good;
    match a {
      case Submit(r) =>
        PutAt(rs, r);
        assert forall x :: x in rs + [r] <==> x in rs || x == r;
      case Decide(id, d) =>
        var o := Find(rs, id).value;
        var r := Resolve(o, d);
        ResolvedIsGood(h, o, id, d);
        hide GoodSupply, Resolve, Put;
        PutMembers(rs, o, r);
    }
  }

  lemma PutMembers(rs: seq<Record>, o: Record, r: Record)
    requires UniqueIds(rs) && Find(rs, r.id) == Some(o)
    ensures forall x :: x in Put(rs, r) <==> x == r || (x in rs && x != o)
  {
    PutAt(rs, r);
    hide Put;
    var i :| 0 <= i < |rs| && rs[i].id == r.id && Put(rs, r) == rs[i := r] && Some(rs[i]) == Some(o);
    forall x ensures x in Put(rs, r) <==> x == r || (x in rs && x != o) {
      if x in rs && x != o {
        var j :| 0 <= j < |rs| && rs[j] == x;
        assert rs[i := r][j] == x;
      }
      if x in Put(rs, r) && x != r {
        var j :| 0 <= j < |rs| && rs[i := r][j] == x;
        assert rs[j] == x && i != j;
      }
      assert rs[i := r][i] == r;
    }
  }

  lemma {:induction false} WrittenIsSupplied(h: J.Host, rs: seq<Record>, acts: seq<Action>)
    requires WellFormed(rs) && Fresh(rs, acts)
    ensures GoodWhenWritten(h, rs, acts) <==> GoodSupplies(h, rs, acts)
    ensures GoodWhenWritten(h, rs, acts) ==> Run(rs, acts) == rs || (AllGood(h, rs) && AllGood(h, Run(rs, acts)))
  {
    hide Good, GoodSupply, AllGood, GoodWhenWritten, GoodSupplies, Writes, Apply;
    if acts == [] {
      NothingWritten(h, rs);
    } else {
      var init, a := acts[..|acts| - 1], acts[|acts| - 1];
      var before := Run(rs, init);
      WrittenIsSupplied(h, rs, init);
      RunsStayWellFormed(rs, init);
      WrittenNext(h, rs, acts);
      SuppliesNext(h, rs, acts);
      if Writes(before, a) {
        StepGood(h, before, a);
      } else {
        UnwrittenStays(before, a);
      }
    }
  }

  lemma NothingWritten(h: J.Host, rs: seq<Record>)
    ensures GoodWhenWritten(h, rs, []) && GoodSupplies(h, rs, [])
  {
  }

  lemma UnwrittenStays(rs: seq<Record>, a: Action)
    requires !Writes(rs, a)
    ensures Apply(rs, a) == rs
  {
  }

  /**
    The same condition on what a caller supplies: the file is complete and lists no id twice; and as soon as
    anything is written, its records, each submitted record, and the time and the actor of each decision that
    goes through are good.
    */
  lemma FileMirrorsQueueIffSuppliesGood(h: J.Host, file: Option<string>, acts: seq<Action>, draws: seq<Draws>)
    requires h.Faithful() && WellFormed(Opened(h, file)) && Fresh(Opened(h, file), acts) && |draws| == |acts|
    ensures MirrorsThroughout(h, file, acts, draws) <==>
            Complete(h, file) && UniqueIds(FileRecords(h, file)) && GoodSupplies(h, Opened(h, file), acts)
  {
    hide MirrorsThroughout, GoodWhenWritten, GoodSupplies, FileRecords, Opened, WellFormed, Fresh, Complete;
    FileMirrorsQueue(h, file, acts, draws);
    WrittenIsSupplied(h, Opened(h, file), acts);
  }

  /** With distinct creation times both stores list their records in the same order. */
  lemma SameListing(rs: seq<Record>)
    requires forall i, j :: 0 <= i < j < |rs| ==> rs[i].createdAt != rs[j].createdAt
    ensures Listed(rs) == InOrder(rs)
  {
    var leq := CreatedBefore();
    StrLeqOrders();
    CreatedBeforeIsTotal();
    ByCreationAndIdIsTotal();
    SortSorts(leq, rs);
    SortSorts(ByCreationAndId(), rs);
    SortPermutes(leq, rs);
    SortPermutes(ByCreationAndId(), rs);
    SortMembers(leq, rs);
    var a, b := Listed(rs), InOrder(rs);
    forall i, j | 0 <= i < j < |b| ensures leq(b[i], b[j]) {
      assert ByCreationAndId()(b[i], b[j]);
    }
    forall x, y | x in a && y in a && leq(x, y) && leq(y, x) ensures x == y {
      var i :| 0 <= i < |rs| && rs[i] == x;
      var j :| 0 <= j < |rs| && rs[j] == y;
    }
    SortedPermutationsAgree(leq, a, b);
  }
}
