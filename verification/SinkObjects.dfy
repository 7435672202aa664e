/** The event sinks as the objects they are, and the agreement between them over whole runs. */
module SinkObjects {
  import opened Options
  import opened Sequences
  import opened Text
  import opened RecordComments
  import opened Events
  import opened EventSinks
  import J = Json

  /** The log after emitting es into a sink that already holds base. */
  function LogFrom(base: seq<Event>, es: seq<Event>): seq<Event> {
    if es == [] then base else Append(LogFrom(base, es[..|es| - 1]), es[|es| - 1])
  }

  lemma LogFromNext(base: seq<Event>, es: seq<Event>, e: Event)
    ensures LogFrom(base, es + [e]) == Append(LogFrom(base, es), e)
  {
    assert (es + [e])[..|es|] == es;
  }

  lemma {:induction false} LogFromNothing(es: seq<Event>)
    ensures LogFrom([], es) == LogOf(es)
  {
    if es != [] {
      LogFromNothing(es[..|es| - 1]);
    }
  }

  class ListEventSink {
    var events: seq<Event>
    ghost var emitted: seq<Event>

    ghost predicate Valid()
      reads this
    {
      events == LogFrom([], emitted)
    }

    constructor ()
      ensures Valid() && emitted == []
    {
      events, emitted := [], [];
    }

    method Emit(e: Event)
      requires Valid()
      modifies this
      ensures Valid() && emitted == old(emitted) + [e]
      ensures events == Append(old(events), e)
    {
      var event := e;
      if event.sequence <= 0 {
        event := event.(sequence := |events| + 1);
      }
      LogFromNext([], emitted, e);
      events := events + [event];
      emitted := emitted + [e];
    }

    method Records(runId: Option<string>) returns (r: seq<Event>)
      requires Valid()
      ensures r == Scoped(LogFrom([], emitted), runId)
    {
      r := Scoped(events, runId);
    }
  }

  // ----- the database sink

  datatype Row = Row(
    sequence: int, kind: string, runId: string, turnId: string, payloadJson: string, createdAt: string)

  function RowOf(h: J.Host, e: Event): Row {
    Row(e.sequence, e.kind, e.runId, e.turnId, h.dumps(J.JObj(e.payload)), e.createdAt)
  }

  function Rows(h: J.Host, es: seq<Event>): (rows: seq<Row>)
    ensures |rows| == |es|
  {
    if es == [] then [] else [RowOf(h, es[0])] + Rows(h, es[1..])
  }

  /** `_event_from_row`, with None for its exceptions. */
  function FromRow(h: J.Host, row: Row): Option<Event> {
    match h.loads(if row.payloadJson == "" then "{}" else row.payloadJson)
    case None => None
    case Some(v) =>
      if row.kind !in EVENT_TYPES then None
      else
        Some(Event(row.kind, row.runId, row.turnId, row.sequence, if v.JObj? then v.fields else map[],
                   if row.createdAt == "" then h.now else row.createdAt))
  }

  /** Every row is read; one that cannot be read raises. */
  function ReadRows(h: J.Host, rows: seq<Row>): Option<seq<Event>> {
    if rows == [] then Some([])
    else
      match FromRow(h, rows[0])
      case None => None
      case Some(e) =>
        match ReadRows(h, rows[1..])
        case None => None
        case Some(es) => Some([e] + es)
  }

  function RowOfRun(runId: string): Row -> bool {
    (r: Row) => r.runId == runId
  }

  function ScopedRows(rows: seq<Row>, runId: Option<string>): seq<Row> {
    match runId
    case None => rows
    case Some(id) => Filter(RowOfRun(id), rows)
  }

  class SQLiteEventSink {
    const h: J.Host
    var rows: seq<Row>
    ghost var emitted: seq<Event>

    ghost predicate Valid()
      reads this
    {
      rows == Rows(h, LogFrom([], emitted))
    }

    constructor (h: J.Host)
      ensures Valid() && emitted == [] && this.h == h
    {
      this.h := h;
      rows, emitted := [], [];
    }

    method Emit(e: Event)
      requires Valid()
      modifies this
      ensures Valid() && emitted == old(emitted) + [e]
    {
      var event := e;
      if event.sequence <= 0 {
        event := event.(sequence := |rows| + 1);
      }
      LogFromNext([], emitted, e);
      RowsAppend(h, LogFrom([], emitted), event);
      rows := rows + [RowOf(h, event)];
      emitted := emitted + [e];
    }

    /** None when a stored row makes the read raise. */
    method Records(runId: Option<string>) returns (r: Option<seq<Event>>)
      requires Valid() && h.Faithful()
      ensures var log := Scoped(LogFrom([], emitted), runId);
              r == Some(log) <==> forall e | e in log :: Storable(e)
    {
      r := ReadRows(h, ScopedRows(rows, runId));
      DatabaseRoundTrip(h, LogFrom([], emitted), runId);
    }
  }

  lemma {:induction false} RowsAppend(h: J.Host, es: seq<Event>, e: Event)
    ensures Rows(h, es + [e]) == Rows(h, es) + [RowOf(h, e)]
  {
    hide RowOf;
    if es != [] {
      assert (es + [e])[1..] == es[1..] + [e];
      RowsAppend(h, es[1..], e);
    }
  }

  lemma {:induction false} ScopedRowsAre(h: J.Host, es: seq<Event>, runId: string)
    ensures Filter(RowOfRun(runId), Rows(h, es)) == Rows(h, Filter(OfRun(runId), es))
  {
    if es != [] {
      ScopedRowsAre(h, es[1..], runId);
      var row, rest := RowOf(h, es[0]), Rows(h, es[1..]);
      assert row.runId == es[0].runId;
      hide RowOf;
      assert ([row] + rest)[1..] == rest;
    }
  }

  lemma {:induction false} RowsReadBack(h: J.Host, es: seq<Event>)
    requires h.Faithful()
    ensures ReadRows(h, Rows(h, es)) == Some(es) <==> forall e | e in es :: Storable(e)
  {
    if es != [] {
      var e, row := es[0], RowOf(h, es[0]);
      RowsReadBack(h, es[1..]);
      assert h.loads(row.payloadJson) == Some(J.JObj(e.payload)) && row.payloadJson != "";
      assert FromRow(h, row) == Some(e) <==> Storable(e);
      hide RowOf, FromRow, Storable;
      assert ([row] + Rows(h, es[1..]))[1..] == Rows(h, es[1..]);
      assert es == [e] + es[1..];
    }
  }

  /** Reading a run's rows gives back its events exactly when each has a known type and a creation time. */
  lemma DatabaseRoundTrip(h: J.Host, es: seq<Event>, runId: Option<string>)
    requires h.Faithful()
    ensures ReadRows(h, ScopedRows(Rows(h, es), runId)) == Some(Scoped(es, runId)) <==>
            forall e | e in Scoped(es, runId) :: Storable(e)
  {
    RowsReadBack(h, Scoped(es, runId));
    if runId.Some? {
      ScopedRowsAre(h, es, runId.value);
    }
  }

  // ----- the Markdown sink

  const FRESH_FILE := "# Agent Events\n\n"

  class MarkdownEventSink {
    const h: J.Host
    var text: string
    /** What the opened file held, whether its events carry their times, and what was emitted since. */
    ghost var base: seq<Event>
    ghost var complete: bool
    ghost var emitted: seq<Event>

    /** As long as every event is good, the file keeps the same log a list would. */
    ghost predicate Valid()
      reads this
    {
      h.Faithful() && (complete && AllGood(h, base + emitted) ==> Keeps(h, text, LogFrom(base, emitted)))
    }

    /** Opens an existing file, or starts a fresh one. */
    constructor (h: J.Host, existing: Option<string>)
      requires h.Faithful()
      ensures Valid() && emitted == [] && this.h == h
      ensures text == Opened(existing) && base == ReadLog(h, text)
      ensures complete <==> Complete(h, text)
      ensures Keeps(h, text, base) <==> complete
      ensures existing.None? ==> base == [] && complete
    {
      this.h := h;
      text, emitted := Opened(existing), [];
      base, complete := ReadLog(h, Opened(existing)), Complete(h, Opened(existing));
      new;
      FreshFileIsEmpty(h);
      KeepsIff(h, text);
    }

    /** The file is read once for a missing sequence, and once for the events before this one. */
    method Emit(e: Event, first: J.Draw, second: J.Draw)
      requires Valid()
      modifies this
      ensures Valid() && emitted == old(emitted) + [e] && base == old(base) && complete == old(complete)
      ensures text == MarkdownEmit(h, old(text), e, first, second)
    {
      hide WriteLog, ReadLog, Good, Keeps;
      ghost var before := emitted;
      var event := e;
      if event.sequence <= 0 {
        var counted := ReadLog(h.At(first), text);
        event := event.(sequence := |counted| + 1);
      }
      var records := ReadLog(h.At(second), text);
      text := WriteLog(h, records + [event]);
      emitted := emitted + [e];
      if complete && AllGood(h, base + emitted) {
        assert forall x | x in base + before :: x in base + emitted;
        EmitKeeps(h, old(text), base, emitted, first, second);
        assert emitted[..|emitted| - 1] == before;
      }
    }

    method Records(runId: Option<string>, d: J.Draw) returns (r: seq<Event>)
      requires Valid()
      ensures complete && AllGood(h, base + emitted) ==> r == Scoped(LogFrom(base, emitted), runId)
    {
      r := Scoped(ReadLog(h.At(d), text), runId);
    }
  }

  /** The text a sink starts with. */
  function Opened(existing: Option<string>): string {
    if existing.Some? then existing.value else FRESH_FILE
  }

  ghost predicate AllGood(h: J.Host, es: seq<Event>) {
    forall e | e in es :: Good(h, e)
  }

  lemma FreshFileIsEmpty(h: J.Host)
    ensures ReadLog(h, FRESH_FILE) == [] && Complete(h, FRESH_FILE)
  {
    PlainHidesNothing(EVENT_TAG, FRESH_FILE);
  }

  /** Being good does not depend on the number a sink gives. */
  lemma {:induction false} LogFromGood(h: J.Host, base: seq<Event>, es: seq<Event>)
    ensures (forall e | e in LogFrom(base, es) :: Good(h, e)) <==> (forall e | e in base + es :: Good(h, e))
  {
    hide ReadLog;
    if es != [] {
      var init, last := es[..|es| - 1], es[|es| - 1];
      LogFromGood(h, base, init);
      var n := Numbered(last, |LogFrom(base, init)|);
      assert Good(h, n) == Good(h, last);
      assert base + es == base + init + [last];
      assert LogFrom(base, es) == LogFrom(base, init) + [n];
      forall e ensures e in LogFrom(base, es) <==> e in LogFrom(base, init) || e == n {
      }
    } else {
      assert base + es == base;
    }
  }

  // ----- runs

  function MarkdownEmit(h: J.Host, text: string, e: Event, first: J.Draw, second: J.Draw): string {
    WriteLog(h, ReadLog(h.At(second), text) + [Numbered(e, |ReadLog(h.At(first), text)|)])
  }

  /** What the two readings of one emit draw. */
  datatype Draws = Draws(first: J.Draw, second: J.Draw)

  /** The file after emitting es into a sink on a file with this text. */
  function MarkdownFile(h: J.Host, text: string, es: seq<Event>, draws: seq<Draws>): string
    requires |draws| == |es|
  {
    if es == [] then text
    else
      var n := |es| - 1;
      MarkdownEmit(h, MarkdownFile(h, text, es[..n], draws[..n]), es[n], draws[n].first, draws[n].second)
  }

  /** Written events are kept exactly when all of them are good. */
  lemma WrittenKeeps(h: J.Host, es: seq<Event>)
    requires h.Faithful()
    ensures Keeps(h, WriteLog(h, es), es) <==> AllGood(h, es)
  {
    hide WriteLog, ReadLog, Good;
    var text := WriteLog(h, es);
    EventLogRoundTrip(h, es);
    forall d ensures ReadLog(h.At(d), text) == es <==> AllGood(h, es) {
      h.AtIsFaithful(d);
      EventLogRoundTrip(h.At(d), es);
      SameAtAnyMoment(h, d, text, es);
    }
    if Keeps(h, text, es) {
      var d := J.Draw(h.now, h.uuid);
      assert ReadLog(h.At(d), text) == es;
    }
  }

  /** One emit into a file that keeps a log. */
  lemma EmitMeans(h: J.Host, text: string, log: seq<Event>, e: Event, first: J.Draw, second: J.Draw)
    requires h.Faithful() && Keeps(h, text, log)
    ensures MarkdownEmit(h, text, e, first, second) == WriteLog(h, Append(log, e))
  {
    hide WriteLog, ReadLog;
    assert ReadLog(h.At(first), text) == log && ReadLog(h.At(second), text) == log;
  }

  lemma EmitKeeps(h: J.Host, text: string, base: seq<Event>, es: seq<Event>, first: J.Draw, second: J.Draw)
    requires h.Faithful() && es != [] && Keeps(h, text, LogFrom(base, es[..|es| - 1]))
    ensures var e := es[|es| - 1];
            Keeps(h, MarkdownEmit(h, text, e, first, second), LogFrom(base, es)) <==> AllGood(h, base + es)
  {
    hide WriteLog, ReadLog, Good, Keeps, MarkdownEmit;
    EmitMeans(h, text, LogFrom(base, es[..|es| - 1]), es[|es| - 1], first, second);
    WrittenKeeps(h, LogFrom(base, es));
    LogFromGood(h, base, es);
  }

  /** At whatever moment it is read, the file agrees with the list after each of these emits. */
  ghost predicate AlwaysAgrees(h: J.Host, text: string, es: seq<Event>, draws: seq<Draws>)
    requires |draws| == |es|
  {
    forall n :: 0 <= n <= |es| ==>
      Keeps(h, MarkdownFile(h, text, es[..n], draws[..n]), LogFrom(ReadLog(h, text), es[..n]))
  }

  lemma AgreesNext(h: J.Host, text: string, es: seq<Event>, draws: seq<Draws>)
    requires |draws| == |es| > 0
    ensures var m := |es| - 1;
            AlwaysAgrees(h, text, es, draws) <==>
            AlwaysAgrees(h, text, es[..m], draws[..m])
            && Keeps(h, MarkdownFile(h, text, es, draws), LogFrom(ReadLog(h, text), es))
  {
    hide Keeps, MarkdownFile, LogFrom, ReadLog;
    var m := |es| - 1;
    assert es[..|es|] == es && draws[..|es|] == draws;
    forall n | 0 <= n <= m ensures es[..m][..n] == es[..n] && draws[..m][..n] == draws[..n] {
    }
  }

  lemma AgreesAtEnd(h: J.Host, text: string, es: seq<Event>, draws: seq<Draws>)
    requires |draws| == |es| && AlwaysAgrees(h, text, es, draws)
    ensures Keeps(h, MarkdownFile(h, text, es, draws), LogFrom(ReadLog(h, text), es))
  {
    hide Keeps, MarkdownFile, LogFrom, ReadLog;
    assert es[..|es|] == es && draws[..|es|] == draws;
  }

  /**
    Over every run on any file, the Markdown file holds the log of a list that began with the file's events,
    at all times and at whatever moment it is read, exactly when the events of the file carry their creation
    times and, once anything is emitted, all of them and every emitted one have a known type and a creation
    time and hide no readable record.
    */
  lemma {:induction false} MarkdownAgreesWithList(h: J.Host, text: string, es: seq<Event>, draws: seq<Draws>)
    requires h.Faithful() && |draws| == |es|
    ensures AlwaysAgrees(h, text, es, draws) <==>
            Complete(h, text) && (es == [] || AllGood(h, ReadLog(h, text) + es))
  {
    hide ReadLog, WriteLog, Good, Keeps, Complete, AllGood, MarkdownEmit;
    var base := ReadLog(h, text);
    if es == [] {
      KeepsIff(h, text);
      assert es[..0] == [] && draws[..0] == [];
    } else {
      hide AlwaysAgrees;
      var m := |es| - 1;
      MarkdownAgreesWithList(h, text, es[..m], draws[..m]);
      AgreesNext(h, text, es, draws);
      GoodPrefix(h, base, es);
      if AlwaysAgrees(h, text, es[..m], draws[..m]) {
        AgreesAtEnd(h, text, es[..m], draws[..m]);
        EmitKeeps(h, MarkdownFile(h, text, es[..m], draws[..m]), base, es, draws[m].first, draws[m].second);
      }
    }
  }

  lemma GoodPrefix(h: J.Host, base: seq<Event>, es: seq<Event>)
    requires es != []
    ensures AllGood(h, base + es) ==> AllGood(h, base + es[..|es| - 1])
  {
    hide Good;
    assert forall e | e in base + es[..|es| - 1] :: e in base + es;
  }

  /** From a fresh file only the emitted events matter. */
  lemma FreshMarkdownAgreesWithList(h: J.Host, es: seq<Event>, draws: seq<Draws>)
    requires h.Faithful() && |draws| == |es|
    ensures ReadLog(h, FRESH_FILE) == [] && LogFrom([], es) == LogOf(es)
    ensures AlwaysAgrees(h, FRESH_FILE, es, draws) <==> AllGood(h, es)
  {
    hide AlwaysAgrees, ReadLog, Complete, Good;
    FreshFileIsEmpty(h);
    LogFromNothing(es);
    MarkdownAgreesWithList(h, FRESH_FILE, es, draws);
    assert [] + es == es;
  }
}
