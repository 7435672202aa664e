/** Cursor-based reading of an event log: pages, bounded tails, and polling while writers append. */
module EventStream {
  import opened Numbers
  import opened Options
  import opened Sequences
  import opened StableSort
  import opened Events
  import J = Json

  /** What a cursor selects; an empty field or list selects everything. */
  datatype Query = Query(runId: string, runKey: string, sessionName: string, types: seq<string>)

  datatype Cursor = Cursor(query: Query, after: nat, limit: Positive)

  /** `EventStreamCursor(...)` with the clamping of `__post_init__`. */
  function MakeCursor(query: Query, after: int, limit: int): Cursor {
    Cursor(query.(types := Distinct(query.types)), if after < 0 then 0 else after, if limit < 1 then 1 else limit)
  }

  /** Normalizing a cursor drops repeated types and bad numbers, and changes nothing about what it matches. */
  lemma CursorIsNormal(query: Query, after: int, limit: int, show: J.Json -> string, e: Event)
    ensures var c := MakeCursor(query, after, limit);
            && (forall i, j :: 0 <= i < j < |c.query.types| ==> c.query.types[i] != c.query.types[j])
            && Matches(c.query, show, e) == Matches(query, show, e)
            && (e.sequence > c.after <==> e.sequence > after && e.sequence > 0)
            && MakeCursor(c.query, c.after, c.limit) == c
            && c.after == Max(0, after) && c.limit == Max(1, limit) && c.query.(types := []) == query.(types := [])
  {
    DistinctLength(Distinct(query.types));
    if query.types != [] {
      assert query.types[0] in Distinct(query.types);
    }
  }

  /** `_event_matches_cursor`, with show for `str`, and the event type test next to its call. */
  predicate Matches(q: Query, show: J.Json -> string, e: Event) {
    && (q.runId != "" ==> e.runId == q.runId)
    && (q.runKey != "" ==> J.TextAt(show, e.payload, "run_key", "") == q.runKey)
    && (q.sessionName != "" ==> J.TextAt(show, e.payload, "session_name", "") == q.sessionName)
    && (q.types != [] ==> e.kind in q.types)
  }

  function Wanted(q: Query, show: J.Json -> string): Event -> bool {
    (e: Event) => Matches(q, show, e)
  }

  function Beyond(w: Event -> bool, after: int): Event -> bool {
    (e: Event) => e.sequence > after && w(e)
  }

  function BySequence(): (Event, Event) -> bool {
    (a: Event, b: Event) => a.sequence <= b.sequence
  }

  /** The events behind the cursor, before the page limit. */
  function Selected(log: seq<Event>, c: Cursor, show: J.Json -> string): seq<Event> {
    var records := Scoped(log, if c.query.runId == "" then None else Some(c.query.runId));
    Filter(Beyond(Wanted(c.query, show), c.after), Sort(BySequence(), records))
  }

  datatype Batch = Batch(cursor: Cursor, events: seq<Event>, nextAfter: nat, hasMore: bool, terminal: bool)

  /** `EventStreamBatch.from_log` */
  function FromLog(log: seq<Event>, c: Cursor, show: J.Json -> string): Batch {
    var selected := Selected(log, c, show);
    var page := Take(selected, c.limit);
    assert page != [] ==> page[|page| - 1] in selected;
    Batch(c, page, if page != [] then page[|page| - 1].sequence else c.after,
          |selected| > |page|, exists e | e in page :: IsTerminal(e))
  }

  /** `EventStreamBatch.next_cursor` */
  function NextCursor(b: Batch): Cursor {
    b.cursor.(after := b.nextAfter)
  }

  // ----- what a page holds

  lemma BySequenceIsTotal()
    ensures TotalPreorder(BySequence())
  {
  }

  /** The events w wants beyond a sequence, in sequence order. */
  function Pending(log: seq<Event>, w: Event -> bool, after: int): seq<Event> {
    Filter(Beyond(w, after), Sort(BySequence(), log))
  }

  lemma SelectedIsPending(log: seq<Event>, c: Cursor, show: J.Json -> string)
    ensures Selected(log, c, show) == Pending(log, Wanted(c.query, show), c.after)
  {
    if c.query.runId != "" {
      var w := Beyond(Wanted(c.query, show), c.after);
      var ofRun := OfRun(c.query.runId);
      BySequenceIsTotal();
      FilterCommutesWithSort(BySequence(), ofRun, log);
      FilterFilter(w, ofRun, Sort(BySequence(), log));
    }
  }

  /**
    Which events a cursor selects, told from their own fields: those of the log behind its sequence that
    have the run, the run key, the session and one of the types it asks for, each as often as the log
    holds it, in order of their sequences.
    */
  lemma SelectedMeans(log: seq<Event>, c: Cursor, show: J.Json -> string, e: Event)
    ensures var q, es := c.query, Selected(log, c, show);
            && (forall i, j :: 0 <= i < j < |es| ==> es[i].sequence <= es[j].sequence)
            && multiset(es)[e] ==
               if && c.after < e.sequence
                  && (q.runId == "" || q.runId == e.runId)
                  && (q.runKey == "" || ("run_key" in e.payload && J.Says(show, e.payload["run_key"], q.runKey)))
                  && (q.sessionName == "" ||
                      ("session_name" in e.payload && J.Says(show, e.payload["session_name"], q.sessionName)))
                  && (q.types == [] || exists i :: 0 <= i < |q.types| && q.types[i] == e.kind)
               then multiset(log)[e]
               else 0
  {
    hide J.TextAt, Sort;
    var q, w := c.query, Wanted(c.query, show);
    SelectedIsPending(log, c, show);
    PendingIsSorted(log, w, c.after);
    SortPermutes(BySequence(), log);
    FilterCounts(Beyond(w, c.after), Sort(BySequence(), log), e);
    if q.runKey != "" {
      J.TextAtMeans(show, e.payload, "run_key", q.runKey);
    }
    if q.sessionName != "" {
      J.TextAtMeans(show, e.payload, "session_name", q.sessionName);
    }
    hide Selected, Pending;
    var es := Selected(log, c, show);
    forall i, j | 0 <= i < j < |es| ensures es[i].sequence <= es[j].sequence {
      assert BySequence()(es[i], es[j]);
    }
  }

  /** A page is the selection, or as much of it as the limit allows, and tells what it leaves and how it ends. */
  lemma FromLogMeans(log: seq<Event>, c: Cursor, show: J.Json -> string)
    ensures var b, es := FromLog(log, c, show), Selected(log, c, show);
            && b.cursor == c
            && b.events <= es && |b.events| <= c.limit
            && (b.hasMore ==> |b.events| == c.limit < |es|)
            && (!b.hasMore ==> b.events == es)
            && (b.events == [] ==> b.nextAfter == c.after)
            && (b.events != [] ==> b.events[|b.events| - 1].sequence == b.nextAfter)
            && (b.terminal <==> exists e | e in b.events ::
                  e.kind == "run_finished" || e.kind == "run_cancelled" || e.kind == "run_timeout")
            && NextCursor(b) == Cursor(c.query, b.nextAfter, c.limit)
  {
    hide Selected;
    var b := FromLog(log, c, show);
    assert forall e :: IsTerminal(e) <==>
                       e.kind == "run_finished" || e.kind == "run_cancelled" || e.kind == "run_timeout";
  }

  lemma PendingIsSorted(log: seq<Event>, w: Event -> bool, after: int)
    ensures Sorted(BySequence(), Pending(log, w, after))
    ensures Pending(log, w, after) == Sort(BySequence(), Filter(Beyond(w, after), log))
  {
    BySequenceIsTotal();
    FilterCommutesWithSort(BySequence(), Beyond(w, after), log);
    SortSorts(BySequence(), Filter(Beyond(w, after), log));
  }

  /** A poll never moves the cursor back, and moves it forward exactly when it returns events. */
  lemma CursorAdvances(log: seq<Event>, c: Cursor, show: J.Json -> string)
    ensures var b := FromLog(log, c, show);
            if b.events == [] then b.nextAfter == c.after && !b.hasMore
            else b.nextAfter > c.after && forall e | e in b.events :: c.after < e.sequence <= b.nextAfter
  {
    hide Selected, Pending, Wanted, IsTerminal;
    SelectedIsPending(log, c, show);
    PendingIsSorted(log, Wanted(c.query, show), c.after);
    PendingIsBeyond(log, Wanted(c.query, show), c.after);
    var es := Pending(log, Wanted(c.query, show), c.after);
    var page := Take(es, c.limit);
    assert FromLog(log, c, show).events == page;
    forall i | 0 <= i < |page| ensures c.after < page[i].sequence <= page[|page| - 1].sequence {
      assert page[i] in es;
      assert i < |page| - 1 ==> BySequence()(es[i], es[|page| - 1]);
    }
  }

  lemma PendingIsBeyond(log: seq<Event>, w: Event -> bool, after: int)
    ensures forall e | e in Pending(log, w, after) :: e.sequence > after
  {
  }

  // ----- polling while writers append

  datatype Action = Emit(event: Event) | Poll

  /** A log, a reader's cursor, what the reader got so far, and whether its last poll saw the end. */
  datatype Stream = Stream(log: seq<Event>, cursor: Cursor, delivered: seq<Event>, drained: bool)

  function Step(show: J.Json -> string, s: Stream, a: Action): Stream {
    match a
    case Emit(e) => s.(log := Append(s.log, e), drained := false)
    case Poll =>
      var b := FromLog(s.log, s.cursor, show);
      Stream(s.log, NextCursor(b), s.delivered + b.events, !b.hasMore)
  }

  function Run(show: J.Json -> string, s: Stream, acts: seq<Action>): Stream {
    if acts == [] then s else Step(show, Run(show, s, acts[..|acts| - 1]), acts[|acts| - 1])
  }

  function Start(q: Query, start: nat, limit: Positive): Stream {
    Stream([], Cursor(q, start, limit), [], false)
  }

  function Emits(acts: seq<Action>): seq<Event> {
    if acts == [] then []
    else
      var before, a := Emits(acts[..|acts| - 1]), acts[|acts| - 1];
      if a.Emit? then before + [a.event] else before
  }

  lemma {:induction false} RunKeepsLog(show: J.Json -> string, q: Query, start: nat, limit: Positive, acts: seq<Action>)
    ensures var s := Run(show, Start(q, start, limit), acts);
            s.log == LogOf(Emits(acts)) && s.cursor.query == q && s.cursor.limit == limit
  {
    hide Selected, Append;
    if acts != [] {
      var before := acts[..|acts| - 1];
      RunKeepsLog(show, q, start, limit, before);
      var a := acts[|acts| - 1];
      if a.Emit? {
        assert Emits(acts)[..|Emits(acts)| - 1] == Emits(before);
      }
    }
  }

  /** How many leading events have a sequence of at most n. */
  function UpTo(es: seq<Event>, n: int): (k: nat)
    ensures k <= |es|
  {
    if es == [] || es[0].sequence > n then 0 else 1 + UpTo(es[1..], n)
  }

  lemma {:induction false} UpToOfIncreasing(es: seq<Event>, n: int, k: nat)
    requires StrictlyIncreasing(es) && k <= |es|
    ensures UpTo(es, n) == k <==> (k > 0 ==> es[k - 1].sequence <= n) && (k < |es| ==> n < es[k].sequence)
  {
    if es != [] {
      if k == 0 {
      } else {
        UpToOfIncreasing(es[1..], n, k - 1);
        assert k > 1 ==> es[0].sequence < es[k - 1].sequence;
      }
    }
  }

  lemma {:induction false} BeyondOfIncreasing(es: seq<Event>, w: Event -> bool, n: int)
    requires StrictlyIncreasing(es) && forall e | e in es :: w(e)
    ensures Filter(Beyond(w, n), es) == es[UpTo(es, n)..]
  {
    if es != [] {
      if es[0].sequence > n {
        forall e | e in es ensures Beyond(w, n)(e) {
          var i :| 0 <= i < |es| && es[i] == e;
          assert i > 0 ==> es[0].sequence < es[i].sequence;
        }
        FilterAll(Beyond(w, n), es);
      } else {
        BeyondOfIncreasing(es[1..], w, n);
      }
    }
  }

  /** What the reader is owed: the wanted events beyond its start, in the order they were written. */
  function Owed(log: seq<Event>, w: Event -> bool, start: int): seq<Event> {
    Filter(Beyond(w, start), log)
  }

  lemma PendingOfOwed(log: seq<Event>, w: Event -> bool, start: int, after: int)
    requires StrictlyIncreasing(Owed(log, w, start)) && start <= after
    ensures var owed := Owed(log, w, start);
            Pending(log, w, after) == owed[UpTo(owed, after)..]
  {
    var owed := Owed(log, w, start);
    PendingIsSorted(log, w, after);
    FilterFilter(Beyond(w, after), Beyond(w, start), log);
    BeyondOfIncreasing(owed, w, after);
    SortOfSorted(BySequence(), owed[UpTo(owed, after)..]);
  }

  /** The reader holds exactly the owed events up to its cursor. */
  ghost predicate InStep(s: Stream, w: Event -> bool, start: nat) {
    Holds(s, Owed(s.log, w, start), start)
  }

  ghost predicate Holds(s: Stream, owed: seq<Event>, start: nat) {
    && start <= s.cursor.after
    && (s.cursor.after > start ==> exists k :: 0 <= k < |owed| && owed[k].sequence == s.cursor.after)
    && s.delivered == owed[..UpTo(owed, s.cursor.after)]
    && (s.drained ==> s.delivered == owed)
  }

  /** One poll of a reader in step returns the next owed events and moves the cursor to the last of them. */
  lemma PollTakesNext(show: J.Json -> string, s: Stream, start: nat)
    requires start <= s.cursor.after
    requires StrictlyIncreasing(Owed(s.log, Wanted(s.cursor.query, show), start))
    ensures var owed := Owed(s.log, Wanted(s.cursor.query, show), start);
            var u := UpTo(owed, s.cursor.after);
            var b := FromLog(s.log, s.cursor, show);
            && b.events == Take(owed[u..], s.cursor.limit)
            && (b.hasMore <==> |owed| > u + |b.events|)
            && b.nextAfter == if b.events == [] then s.cursor.after else owed[u + |b.events| - 1].sequence
  {
    var w := Wanted(s.cursor.query, show);
    SelectedIsPending(s.log, s.cursor, show);
    PendingOfOwed(s.log, w, start, s.cursor.after);
    hide Wanted, Pending, Selected;
  }

  lemma TakeNext(s: Stream, s': Stream, owed: seq<Event>, start: nat, page: seq<Event>)
    requires Holds(s, owed, start) && StrictlyIncreasing(owed)
    requires forall i :: 0 <= i < |owed| ==> owed[i].sequence > start
    requires var u := UpTo(owed, s.cursor.after);
             && page == Take(owed[u..], s.cursor.limit)
             && s'.delivered == s.delivered + page
             && (s'.drained ==> |owed| == u + |page|)
             && s'.cursor.after == if page == [] then s.cursor.after else owed[u + |page| - 1].sequence
    ensures Holds(s', owed, start)
  {
    if page == [] {
      TakeNothing(s, s', owed, start);
    } else {
      TakeSome(s, s', owed, start, page);
    }
  }

  lemma TakeNothing(s: Stream, s': Stream, owed: seq<Event>, start: nat)
    requires Holds(s, owed, start)
    requires s'.delivered == s.delivered && s'.cursor.after == s.cursor.after
    requires s'.drained ==> |owed| == UpTo(owed, s.cursor.after)
    ensures Holds(s', owed, start)
  {
    hide UpTo;
    assert owed[..|owed|] == owed;
  }

  lemma TakeSome(s: Stream, s': Stream, owed: seq<Event>, start: nat, page: seq<Event>)
    requires s.delivered == owed[..UpTo(owed, s.cursor.after)] && StrictlyIncreasing(owed)
    requires forall i :: 0 <= i < |owed| ==> owed[i].sequence > start
    requires var u := UpTo(owed, s.cursor.after);
             && page == Take(owed[u..], s.cursor.limit) && page != []
             && s'.delivered == s.delivered + page
             && (s'.drained ==> |owed| == u + |page|)
             && s'.cursor.after == owed[u + |page| - 1].sequence
    ensures Holds(s', owed, start)
  {
    hide UpTo;
    var u := UpTo(owed, s.cursor.after);
    var k := u + |page|;
    var last := owed[k - 1].sequence;
    PageIsSlice(owed, u, s.cursor.limit);
    assert k < |owed| ==> last < owed[k].sequence;
    UpToOfIncreasing(owed, last, k);
    hide StrictlyIncreasing, Take;
    assert owed[..|owed|] == owed;
  }

  lemma PageIsSlice(owed: seq<Event>, u: nat, limit: Positive)
    requires u <= |owed|
    ensures var page := Take(owed[u..], limit);
            u + |page| <= |owed| && page == owed[u..u + |page|] && owed[..u] + page == owed[..u + |page|]
  {
  }

  lemma PollMeans(show: J.Json -> string, s: Stream)
    ensures var b, s' := FromLog(s.log, s.cursor, show), Step(show, s, Poll);
            s'.log == s.log && s'.delivered == s.delivered + b.events && s'.drained == !b.hasMore
            && s'.cursor.after == b.nextAfter
  {
    hide Selected, Take;
  }

  lemma PollKeepsStep(show: J.Json -> string, s: Stream, start: nat)
    requires InStep(s, Wanted(s.cursor.query, show), start)
    requires StrictlyIncreasing(Owed(s.log, Wanted(s.cursor.query, show), start))
    ensures InStep(Step(show, s, Poll), Wanted(s.cursor.query, show), start)
  {
    assert start <= s.cursor.after;
    hide Wanted, Owed, FromLog, Holds, StrictlyIncreasing, UpTo, Step, Take;
    var owed := Owed(s.log, Wanted(s.cursor.query, show), start);
    PollTakesNext(show, s, start);
    PollMeans(show, s);
    OwedBeyond(s.log, Wanted(s.cursor.query, show), start);
    TakeNext(s, Step(show, s, Poll), owed, start, FromLog(s.log, s.cursor, show).events);
  }

  lemma OwedBeyond(log: seq<Event>, w: Event -> bool, start: int)
    ensures forall i :: 0 <= i < |Owed(log, w, start)| ==> Owed(log, w, start)[i].sequence > start
  {
    var owed := Owed(log, w, start);
    forall i | 0 <= i < |owed| ensures owed[i].sequence > start {
      assert owed[i] in owed;
    }
  }

  lemma EmitKeepsStep(s: Stream, w: Event -> bool, start: nat, e: Event)
    requires InStep(s, w, start)
    requires StrictlyIncreasing(Owed(Append(s.log, e), w, start))
    ensures StrictlyIncreasing(Owed(s.log, w, start))
    ensures InStep(s.(log := Append(s.log, e), drained := false), w, start)
  {
    hide Owed, Holds, StrictlyIncreasing, Append;
    var added := OwedGrows(s.log, w, start, e);
    HoldsGrows(s, Owed(s.log, w, start), added, start);
    HoldsIgnoresLog(s, Append(s.log, e), Owed(Append(s.log, e), w, start), start);
  }

  lemma HoldsIgnoresLog(s: Stream, log: seq<Event>, owed: seq<Event>, start: nat)
    ensures Holds(s.(log := log, drained := false), owed, start) == Holds(s.(drained := false), owed, start)
  {
  }

  lemma OwedGrows(log: seq<Event>, w: Event -> bool, start: nat, e: Event) returns (added: seq<Event>)
    ensures Owed(Append(log, e), w, start) == Owed(log, w, start) + added
    ensures forall x | x in added :: x.sequence > start
  {
    added := Filter(Beyond(w, start), [Numbered(e, |log|)]);
    FilterAppend(Beyond(w, start), log, [Numbered(e, |log|)]);
  }

  /** Owing more, with higher sequences, leaves a reader in step, though perhaps no longer at the end. */
  lemma HoldsGrows(s: Stream, owed: seq<Event>, added: seq<Event>, start: nat)
    requires Holds(s, owed, start) && StrictlyIncreasing(owed + added)
    requires forall e | e in added :: e.sequence > start
    ensures StrictlyIncreasing(owed) && Holds(s.(drained := false), owed + added, start)
  {
    hide UpTo;
    var all, u := owed + added, UpTo(owed, s.cursor.after);
    forall i, j | 0 <= i < j < |owed| ensures owed[i].sequence < owed[j].sequence {
      assert all[i] == owed[i] && all[j] == owed[j];
    }
    UpToOfIncreasing(owed, s.cursor.after, u);
    if s.cursor.after > start {
      var k :| 0 <= k < |owed| && owed[k].sequence == s.cursor.after;
      assert all[k].sequence == s.cursor.after;
      assert u < |all| ==> s.cursor.after < all[u].sequence;
    } else if u == |owed| < |all| {
      assert all[u] in added;
    }
    UpToOfIncreasing(all, s.cursor.after, u);
    assert all[..u] == owed[..u];
  }

  /**
    Exactly-once delivery, over every interleaving of emits and polls: if the wanted events beyond the
    start were written with increasing sequences, the pages concatenate to the wanted events up to the
    cursor, none lost and none repeated; and a reader that saw the end has them all.
    */
  lemma {:induction false} ExactlyOnce(show: J.Json -> string, q: Query, start: nat, limit: Positive, acts: seq<Action>)
    requires StrictlyIncreasing(Owed(LogOf(Emits(acts)), Wanted(q, show), start))
    ensures InStep(Run(show, Start(q, start, limit), acts), Wanted(q, show), start)
  {
    var w := Wanted(q, show);
    hide FromLog, Wanted, InStep, Append, StrictlyIncreasing;
    if acts == [] {
      NothingYet(q, w, start, limit);
    } else {
      var before, a := acts[..|acts| - 1], acts[|acts| - 1];
      var s := Run(show, Start(q, start, limit), before);
      RunKeepsLog(show, q, start, limit, before);
      RunKeepsLog(show, q, start, limit, acts);
      match a {
        case Emit(e) =>
          assert LogOf(Emits(acts)) == Append(s.log, e);
          OwedPrefix(s.log, w, start, e);
          ExactlyOnce(show, q, start, limit, before);
          EmitKeepsStep(s, w, start, e);
        case Poll =>
          ExactlyOnce(show, q, start, limit, before);
          PollKeepsStep(show, s, start);
      }
    }
  }

  lemma NothingYet(q: Query, w: Event -> bool, start: nat, limit: Positive)
    ensures InStep(Start(q, start, limit), w, start)
  {
  }

  lemma OwedPrefix(log: seq<Event>, w: Event -> bool, start: int, e: Event)
    requires StrictlyIncreasing(Owed(Append(log, e), w, start))
    ensures StrictlyIncreasing(Owed(log, w, start))
  {
    FilterAppend(Beyond(w, start), log, [Numbered(e, |log|)]);
    var owed, owed' := Owed(log, w, start), Owed(Append(log, e), w, start);
    forall i, j | 0 <= i < j < |owed| ensures owed[i].sequence < owed[j].sequence {
      assert owed'[i] == owed[i] && owed'[j] == owed[j];
    }
  }

  // ----- the hypothesis is exactly what is needed

  lemma {:induction false} OneAtATime(show: J.Json -> string, q: Query, start: nat, acts: seq<Action>)
    ensures var s := Run(show, Start(q, start, 1), acts);
            && s.cursor.limit == 1
            && StrictlyIncreasing(s.delivered)
            && forall e | e in s.delivered :: e.sequence <= s.cursor.after
  {
    hide Selected, Append, Wanted;
    if acts != [] {
      var s := Run(show, Start(q, start, 1), acts[..|acts| - 1]);
      OneAtATime(show, q, start, acts[..|acts| - 1]);
      CursorAdvances(s.log, s.cursor, show);
    }
  }

  lemma {:induction false} RunAppend(show: J.Json -> string, s: Stream, xs: seq<Action>, ys: seq<Action>)
    ensures Run(show, s, xs + ys) == Run(show, Run(show, s, xs), ys)
  {
    hide Step;
    if ys == [] {
      assert xs + ys == xs;
    } else {
      assert (xs + ys)[..|xs + ys| - 1] == xs + ys[..|ys| - 1];
      RunAppend(show, s, xs, ys[..|ys| - 1]);
    }
  }

  lemma {:induction false} FilterDrops<T>(p: T -> bool, xs: seq<T>, x: T)
    requires x in xs && !p(x)
    ensures |Filter(p, xs)| < |xs|
  {
    if xs[0] != x {
      FilterDrops(p, xs[1..], x);
    }
  }

  lemma SelectedShrinks(log: seq<Event>, c: Cursor, show: J.Json -> string)
    requires FromLog(log, c, show).events != []
    ensures |Selected(log, NextCursor(FromLog(log, c, show)), show)| < |Selected(log, c, show)|
  {
    var w, b := Wanted(c.query, show), FromLog(log, c, show);
    CursorAdvances(log, c, show);
    SelectedIsPending(log, c, show);
    SelectedIsPending(log, NextCursor(b), show);
    FilterFilter(Beyond(w, b.nextAfter), Beyond(w, c.after), Sort(BySequence(), log));
    FilterDrops(Beyond(w, b.nextAfter), Pending(log, w, c.after), b.events[|b.events| - 1]);
  }

  function Polls(n: nat): seq<Action> {
    seq(n, _ => Poll)
  }

  lemma {:induction false} PollsDrain(show: J.Json -> string, s: Stream, n: nat)
    requires n > |Selected(s.log, s.cursor, show)|
    ensures Run(show, s, Polls(n)).drained
    decreases n
  {
    hide Selected;
    var b, s' := FromLog(s.log, s.cursor, show), Step(show, s, Poll);
    assert [Poll][..0] == [];
    assert Run(show, s, [Poll]) == s';
    if n == 1 {
      assert Polls(1) == [Poll];
    } else {
      assert Polls(n) == [Poll] + Polls(n - 1);
      RunAppend(show, s, [Poll], Polls(n - 1));
      if b.events != [] {
        SelectedShrinks(s.log, s.cursor, show);
      }
      PollsDrain(show, s', n - 1);
    }
  }

  function AllEmits(es: seq<Event>): seq<Action> {
    if es == [] then [] else AllEmits(es[..|es| - 1]) + [Emit(es[|es| - 1])]
  }

  lemma {:induction false} EmitsOfAllEmits(es: seq<Event>, n: nat)
    ensures Emits(AllEmits(es) + Polls(n)) == es
    decreases |es|, n
  {
    var acts := AllEmits(es) + Polls(n);
    if n > 0 {
      assert acts[..|acts| - 1] == AllEmits(es) + Polls(n - 1);
      EmitsOfAllEmits(es, n - 1);
    } else if es != [] {
      assert acts == AllEmits(es);
      assert acts[..|acts| - 1] == AllEmits(es[..|es| - 1]) + Polls(0);
      EmitsOfAllEmits(es[..|es| - 1], 0);
      assert es == es[..|es| - 1] + [es[|es| - 1]];
    }
  }

  /** Some schedule of these emits, read one event at a time, lets the reader see the end. */
  lemma ScheduleExists(show: J.Json -> string, q: Query, start: nat, es: seq<Event>) returns (acts: seq<Action>)
    ensures Emits(acts) == es && Run(show, Start(q, start, 1), acts).drained
  {
    hide Selected;
    var s := Run(show, Start(q, start, 1), AllEmits(es));
    var n := |Selected(s.log, s.cursor, show)| + 1;
    acts := AllEmits(es) + Polls(n);
    PollsDrain(show, s, n);
    RunAppend(show, Start(q, start, 1), AllEmits(es), Polls(n));
    EmitsOfAllEmits(es, n);
  }

  /** Whatever the page limit and the schedule, a reader that saw the end got exactly what it is owed. */
  ghost predicate AlwaysDelivers(show: J.Json -> string, q: Query, start: nat, es: seq<Event>) {
    forall limit: Positive, acts: seq<Action> |
      Emits(acts) == es && Run(show, Start(q, start, limit), acts).drained ::
      Run(show, Start(q, start, limit), acts).delivered == Owed(LogOf(es), Wanted(q, show), start)
  }

  /** Exactly-once delivery is safe for a writer precisely when its wanted events have increasing sequences. */
  lemma ExactlyOnceIffIncreasing(show: J.Json -> string, q: Query, start: nat, es: seq<Event>)
    ensures AlwaysDelivers(show, q, start, es) <==> StrictlyIncreasing(Owed(LogOf(es), Wanted(q, show), start))
  {
    hide Wanted, Owed, LogOf, Run, Emits, StrictlyIncreasing;
    if StrictlyIncreasing(Owed(LogOf(es), Wanted(q, show), start)) {
      forall limit: Positive, acts: seq<Action> |
        Emits(acts) == es && Run(show, Start(q, start, limit), acts).drained
        ensures Run(show, Start(q, start, limit), acts).delivered == Owed(LogOf(es), Wanted(q, show), start)
      {
        ExactlyOnce(show, q, start, limit, acts);
        RunKeepsLog(show, q, start, limit, acts);
      }
    }
    if AlwaysDelivers(show, q, start, es) {
      var acts := ScheduleExists(show, q, start, es);
      OneAtATime(show, q, start, acts);
      assert Run(show, Start(q, start, 1), acts).delivered == Owed(LogOf(es), Wanted(q, show), start);
    }
  }

  /** A log that numbers its own events meets the condition for every query. */
  lemma {:induction false} SelfNumberedDelivers(show: J.Json -> string, q: Query, start: nat, es: seq<Event>)
    requires forall e | e in es :: e.sequence <= 0
    ensures AlwaysDelivers(show, q, start, es)
  {
    hide Wanted, AlwaysDelivers;
    SelfNumberedLog(es);
    FilterIncreasing(Beyond(Wanted(q, show), start), LogOf(es));
    ExactlyOnceIffIncreasing(show, q, start, es);
  }

  lemma FilterIncreasing(p: Event -> bool, es: seq<Event>)
    requires StrictlyIncreasing(es)
    ensures StrictlyIncreasing(Filter(p, es))
  {
    var earlier := (a: Event, b: Event) => a.sequence < b.sequence;
    FilterSorted(earlier, p, es);
    var kept := Filter(p, es);
    assert forall i, j :: 0 <= i < j < |kept| ==> earlier(kept[i], kept[j]);
  }

  /** Two events with one sequence on both sides of a page boundary: the second is never delivered. */
  lemma EqualSequencesLoseAnEvent(show: J.Json -> string)
    ensures var a := Event("error", "r", "first", 1, map[], "t");
            var b := Event("error", "r", "second", 1, map[], "t");
            var q := Query("", "", "", []);
            var s := Run(show, Start(q, 0, 1), [Emit(a), Emit(b), Poll, Poll]);
            s.drained && s.delivered == [a] && Owed(s.log, Wanted(q, show), 0) == [a, b]
  {
    var a, b := Event("error", "r", "first", 1, map[], "t"), Event("error", "r", "second", 1, map[], "t");
    var q := Query("", "", "", []);
    var log := [a, b];
    var s0 := Start(q, 0, 1);
    var s2 := Stream(log, Cursor(q, 0, 1), [], false);
    var s3 := Stream(log, Cursor(q, 1, 1), [a], false);
    var all := [Emit(a), Emit(b), Poll, Poll];
    assert Sort(BySequence(), [b]) == [b];
    assert Sort(BySequence(), log) == Insert(BySequence(), a, Sort(BySequence(), log[1..]));
    assert log[1..] == [b];
    assert Sort(BySequence(), log) == log;
    assert Filter(Beyond(Wanted(q, show), 0), [b]) == [b];
    assert Filter(Beyond(Wanted(q, show), 0), log) == log;
    assert Filter(Beyond(Wanted(q, show), 1), log) == [];
    assert Run(show, s0, all[..1]) == s0.(log := [a]) by {
      assert all[..1][..0] == [];
    }
    assert Run(show, s0, all[..2]) == s2 by {
      assert all[..2][..1] == all[..1];
    }
    assert Step(show, s2, Poll) == s3;
    assert Run(show, s0, all[..3]) == s3 by {
      assert all[..3][..2] == all[..2];
    }
    assert all[..|all| - 1] == all[..3];
  }
}
