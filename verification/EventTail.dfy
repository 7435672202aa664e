/** `EventStreamTail`: a bounded drain of pages, against direct filtering of the log. */
module EventTail {
  import opened Numbers
  import opened Options
  import opened Sequences
  import opened StableSort
  import opened Events
  import opened EventStream
  import J = Json

  /** The drain's pages: up to m of them, ending early at a terminal page or when nothing is left. */
  function Batches(log: seq<Event>, c: Cursor, show: J.Json -> string, m: Positive, stop: bool): (bs: seq<Batch>)
    ensures 1 <= |bs| <= m
    decreases m
  {
    var b := FromLog(log, c, show);
    if (stop && b.terminal) || !b.hasMore || m == 1 then [b]
    else [b] + Batches(log, NextCursor(b), show, m - 1, stop)
  }

  /** `EventStreamTail.from_log` */
  method TailFromLog(log: seq<Event>, cursor: Cursor, show: J.Json -> string, maxBatches: int, stopAtTerminal: bool)
    returns (batches: seq<Batch>, limit: Positive)
    ensures limit == if maxBatches < 1 then 1 else maxBatches
    ensures batches == Batches(log, cursor, show, limit, stopAtTerminal)
  {
    hide FromLog;
    limit := if maxBatches < 1 then 1 else maxBatches;
    batches := [];
    var current := cursor;
    var i := 0;
    while i < limit
      invariant 0 <= i < limit
      invariant batches + Batches(log, current, show, limit - i, stopAtTerminal)
                == Batches(log, cursor, show, limit, stopAtTerminal)
      decreases limit - i
    {
      var batch := FromLog(log, current, show);
      batches := batches + [batch];
      if stopAtTerminal && batch.terminal {
        break;
      }
      if !batch.hasMore {
        break;
      }
      if i == limit - 1 {
        break;
      }
      current := NextCursor(batch);
      i := i + 1;
    }
  }

  function EventsOf(bs: seq<Batch>): seq<Event> {
    if bs == [] then [] else bs[0].events + EventsOf(bs[1..])
  }

  predicate IsTerminalTail(bs: seq<Batch>) {
    exists b | b in bs :: b.terminal
  }

  /** The tail's `has_more` and `next_cursor`. */
  predicate TailHasMore(bs: seq<Batch>) {
    bs != [] && bs[|bs| - 1].hasMore && !IsTerminalTail(bs)
  }

  function TailNextCursor(c: Cursor, bs: seq<Batch>): Cursor {
    if bs == [] then c else NextCursor(bs[|bs| - 1])
  }

  /** The events a drain reads from, and whether any two of them share a sequence. */
  ghost predicate DistinctSequences(log: seq<Event>, c: Cursor, show: J.Json -> string) {
    var es := Selected(log, c, show);
    forall i, j :: 0 <= i < j < |es| ==> es[i].sequence != es[j].sequence
  }

  lemma SelectedIncreases(log: seq<Event>, c: Cursor, show: J.Json -> string)
    requires DistinctSequences(log, c, show)
    ensures StrictlyIncreasing(Selected(log, c, show))
  {
    var es := Selected(log, c, show);
    SelectedIsPending(log, c, show);
    PendingIsSorted(log, Wanted(c.query, show), c.after);
    forall i, j | 0 <= i < j < |es| ensures es[i].sequence < es[j].sequence {
      assert BySequence()(es[i], es[j]);
    }
  }

  lemma BeyondPage(es: seq<Event>, w: Event -> bool, after: int, k: nat, next: int)
    requires StrictlyIncreasing(es) && k <= |es|
    requires forall e | e in es :: w(e) && e.sequence > after
    requires next == if k > 0 then es[k - 1].sequence else after
    ensures Filter(Beyond(w, next), es) == es[k..]
  {
    BeyondOfIncreasing(es, w, next);
    assert forall i :: 0 <= i < |es| ==> es[i] in es;
    UpToOfIncreasing(es, next, k);
  }

  lemma PendingNext(log: seq<Event>, w: Event -> bool, after: int, next: int)
    requires after <= next
    ensures Pending(log, w, next) == Filter(Beyond(w, next), Pending(log, w, after))
    ensures forall e | e in Pending(log, w, after) :: w(e) && e.sequence > after
  {
    FilterFilter(Beyond(w, next), Beyond(w, after), Sort(BySequence(), log));
    forall e | e in Pending(log, w, after) ensures w(e) && e.sequence > after {
      assert Beyond(w, after)(e);
    }
  }

  lemma PageMeans(log: seq<Event>, c: Cursor, show: J.Json -> string)
    ensures var b, es := FromLog(log, c, show), Selected(log, c, show);
            && b.events == Take(es, c.limit)
            && b.nextAfter == (if b.events == [] then c.after else es[|b.events| - 1].sequence)
            && (b.hasMore <==> |es| > c.limit)
            && NextCursor(b) == c.(after := b.nextAfter)
  {
    hide Selected;
  }

  lemma PendingDrops(log: seq<Event>, w: Event -> bool, after: int, next: int, limit: Positive)
    requires StrictlyIncreasing(Pending(log, w, after)) && after <= next
    requires var es := Pending(log, w, after); next == if es == [] then after else es[Min(limit, |es|) - 1].sequence
    ensures Pending(log, w, next) == Drop(Pending(log, w, after), limit)
  {
    hide Pending, StrictlyIncreasing;
    var es := Pending(log, w, after);
    PendingNext(log, w, after, next);
    BeyondPage(es, w, after, Min(limit, |es|), next);
  }

  /** After a page, the rest of the selection is what the next cursor selects. */
  lemma NextSelects(log: seq<Event>, c: Cursor, show: J.Json -> string)
    requires DistinctSequences(log, c, show)
    ensures Selected(log, NextCursor(FromLog(log, c, show)), show) == Drop(Selected(log, c, show), c.limit)
  {
    var next := NextCursor(FromLog(log, c, show));
    SelectedIncreases(log, c, show);
    CursorAdvances(log, c, show);
    PageMeans(log, c, show);
    SelectedIsPending(log, c, show);
    SelectedIsPending(log, next, show);
    hide Selected, Wanted, FromLog, Pending, StrictlyIncreasing, Drop;
    PendingDrops(log, Wanted(c.query, show), c.after, next.after, c.limit);
  }

  lemma NextDistinct(log: seq<Event>, c: Cursor, show: J.Json -> string)
    requires DistinctSequences(log, c, show)
    ensures DistinctSequences(log, NextCursor(FromLog(log, c, show)), show)
  {
    NextSelects(log, c, show);
    SelectedIncreases(log, c, show);
    hide Selected, FromLog, Take;
    DropIncreasing(Selected(log, c, show), c.limit);
  }

  lemma DropIncreasing(es: seq<Event>, n: nat)
    requires StrictlyIncreasing(es)
    ensures StrictlyIncreasing(Drop(es, n))
  {
  }

  /** One page of a drain, and where the drain goes on. */
  lemma TailUnfolds(log: seq<Event>, c: Cursor, show: J.Json -> string, m: Positive, stop: bool)
    ensures var b, bs := FromLog(log, c, show), Batches(log, c, show, m, stop);
            var next := NextCursor(b);
            if (stop && b.terminal) || !b.hasMore || m == 1 then
              bs == [b] && EventsOf(bs) == b.events && TailNextCursor(c, bs) == next
            else
              var rest := Batches(log, next, show, m - 1, stop);
              && bs == [b] + rest && EventsOf(bs) == b.events + EventsOf(rest)
              && TailNextCursor(c, bs) == TailNextCursor(next, rest)
  {
    hide FromLog, NextCursor;
    var b, bs := FromLog(log, c, show), Batches(log, c, show, m, stop);
    if (stop && b.terminal) || !b.hasMore || m == 1 {
      assert b.events + [] == b.events;
    } else {
      var rest := Batches(log, NextCursor(b), show, m - 1, stop);
      assert bs[1..] == rest && bs[|bs| - 1] == rest[|rest| - 1];
    }
  }

  /** Reading es and then standing at next is reading the first n selected events, and no others. */
  ghost predicate ReadFirst(log: seq<Event>, c: Cursor, show: J.Json -> string, n: nat, es: seq<Event>, next: Cursor) {
    && es == Take(Selected(log, c, show), n)
    && Selected(log, next, show) == Drop(Selected(log, c, show), n)
    && DistinctSequences(log, next, show)
    && next.limit == c.limit
  }

  lemma ReadFirstMeans(log: seq<Event>, c: Cursor, show: J.Json -> string, n: nat, es: seq<Event>, next: Cursor)
    requires ReadFirst(log, c, show, n, es, next)
    ensures es == Take(Selected(log, c, show), n)
    ensures DistinctSequences(log, next, show) && next.limit == c.limit
  {
  }

  lemma PageReadsFirst(log: seq<Event>, c: Cursor, show: J.Json -> string)
    requires DistinctSequences(log, c, show)
    ensures var b := FromLog(log, c, show); ReadFirst(log, c, show, c.limit, b.events, NextCursor(b))
  {
    NextSelects(log, c, show);
    NextDistinct(log, c, show);
    PageMeans(log, c, show);
    hide Selected, FromLog, DistinctSequences, Take, Drop;
  }

  lemma ReadOn(log: seq<Event>, c: Cursor, d: Cursor, e: Cursor, show: J.Json -> string, m: nat, n: nat,
               xs: seq<Event>, ys: seq<Event>)
    requires ReadFirst(log, c, show, m, xs, d) && ReadFirst(log, d, show, n, ys, e)
    ensures ReadFirst(log, c, show, m + n, xs + ys, e)
  {
    hide Selected, DistinctSequences, Take, Drop;
    TakeTake(Selected(log, c, show), m, n);
  }

  lemma ReadAll(log: seq<Event>, c: Cursor, d: Cursor, show: J.Json -> string, m: nat, n: nat, xs: seq<Event>)
    requires ReadFirst(log, c, show, m, xs, d) && (m == n || |Selected(log, c, show)| <= m <= n)
    ensures ReadFirst(log, c, show, n, xs, d)
  {
    hide Selected, DistinctSequences, Take, Drop;
    if m != n {
      TakeEnough(Selected(log, c, show), m, n);
    }
  }

  /** Without a terminal stop, m pages hold the first m * limit selected events. */
  lemma {:induction false} TailIsPrefix(log: seq<Event>, c: Cursor, show: J.Json -> string, m: Positive)
    requires DistinctSequences(log, c, show)
    ensures var bs := Batches(log, c, show, m, false);
            ReadFirst(log, c, show, Span(m, c.limit), EventsOf(bs), TailNextCursor(c, bs))
    decreases m
  {
    hide *;
    var b := FromLog(log, c, show);
    var next := NextCursor(b);
    PageReadsFirst(log, c, show);
    PageMeans(log, c, show);
    TailUnfolds(log, c, show, m, false);
    SpanStep(m, c.limit);
    ReadFirstMeans(log, c, show, c.limit, b.events, next);
    if !b.hasMore || m == 1 {
      ReadAll(log, c, next, show, c.limit, Span(m, c.limit), b.events);
    } else {
      var rest := Batches(log, next, show, m - 1, false);
      TailIsPrefix(log, next, show, m - 1);
      ReadOn(log, c, next, TailNextCursor(next, rest), show, c.limit, Span(m - 1, c.limit), b.events, EventsOf(rest));
    }
  }

  lemma TakeTake<T>(xs: seq<T>, m: nat, n: nat)
    ensures Take(xs, m) + Take(Drop(xs, m), n) == Take(xs, m + n)
    ensures Drop(Drop(xs, m), n) == Drop(xs, m + n)
  {
  }

  lemma TakeEnough<T>(xs: seq<T>, m: nat, n: nat)
    requires m <= n
    ensures |xs| <= m ==> Take(xs, m) == Take(xs, n) == xs && Drop(xs, m) == Drop(xs, n)
  {
  }

  /** The number of events a number of full pages holds. */
  function Span(pages: nat, limit: Positive): nat {
    pages * limit
  }

  lemma SpanStep(m: Positive, limit: Positive)
    ensures Span(m, limit) == limit + Span(m - 1, limit)
    ensures Span(0, limit) == 0
  {
    assert m * limit == limit + (m - 1) * limit;
  }

  /** When a page was the last one, nothing is selected behind it. */
  lemma NothingBehind(log: seq<Event>, c: Cursor, show: J.Json -> string)
    requires !FromLog(log, c, show).hasMore
    ensures Selected(log, NextCursor(FromLog(log, c, show)), show) == []
  {
    var b := FromLog(log, c, show);
    var next, w := NextCursor(b), Wanted(c.query, show);
    CursorAdvances(log, c, show);
    PageMeans(log, c, show);
    SelectedIsPending(log, c, show);
    SelectedIsPending(log, next, show);
    PendingNext(log, w, c.after, next.after);
    hide Selected, Wanted, FromLog, Pending;
    FilterNone(Beyond(w, next.after), Selected(log, c, show));
  }

  lemma NothingToDrain(log: seq<Event>, c: Cursor, show: J.Json -> string, m: Positive)
    requires Selected(log, c, show) == []
    ensures EventsOf(Batches(log, c, show, m, false)) == []
  {
    hide Selected;
    PageMeans(log, c, show);
    TailUnfolds(log, c, show, m, false);
  }

  /**
    Draining m and then n pages, from where the first drain ended, reads what draining m + n pages reads,
    whatever the sequences are.
    */
  lemma {:induction false} TailsCompose(log: seq<Event>, c: Cursor, show: J.Json -> string, m: Positive, n: Positive)
    ensures var first := Batches(log, c, show, m, false);
            EventsOf(Batches(log, c, show, m + n, false))
            == EventsOf(first) + EventsOf(Batches(log, TailNextCursor(c, first), show, n, false))
    decreases m
  {
    hide *;
    var b := FromLog(log, c, show);
    var next := NextCursor(b);
    TailUnfolds(log, c, show, m, false);
    TailUnfolds(log, c, show, m + n, false);
    if !b.hasMore {
      NothingBehind(log, c, show);
      NothingToDrain(log, next, show, n);
      assert b.events + [] == b.events;
    } else if m > 1 {
      var first := Batches(log, next, show, m - 1, false);
      TailsCompose(log, next, show, m - 1, n);
      AppendAssociates(b.events, EventsOf(first), EventsOf(Batches(log, TailNextCursor(next, first), show, n, false)));
    }
  }

  // ----- ties at page boundaries

  /** The last event of a page and the first one behind it. */
  predicate Tied(es: seq<Event>, k: nat) {
    0 < k < |es| && es[k - 1].sequence == es[k].sequence
  }

  /** None of the boundaries that a drain of m pages crosses falls between events of one sequence. */
  ghost predicate CleanBoundaries(es: seq<Event>, limit: Positive, m: nat) {
    forall k :: 1 <= k < m ==> !Tied(es, Span(k, limit))
  }

  lemma CleanBoundariesNext(es: seq<Event>, limit: Positive, m: nat)
    requires m > 1 && |es| > limit
    ensures CleanBoundaries(es, limit, m) <==> !Tied(es, limit) && CleanBoundaries(Drop(es, limit), limit, m - 1)
  {
    var rest := Drop(es, limit);
    SpanStep(1, limit);
    forall k | 1 <= k < m - 1 ensures Tied(rest, Span(k, limit)) <==> Tied(es, Span(k + 1, limit)) {
      SpanStep(k + 1, limit);
      SpanStep(k, limit);
      SpanIsPositive(k, limit);
      hide Span;
    }
    hide Tied, Drop;
    if CleanBoundaries(es, limit, m) {
      assert !Tied(es, Span(1, limit));
      forall k | 1 <= k < m - 1 ensures !Tied(rest, Span(k, limit)) {
        assert !Tied(es, Span(k + 1, limit));
      }
    }
    if !Tied(es, limit) && CleanBoundaries(rest, limit, m - 1) {
      forall k | 1 <= k < m ensures !Tied(es, Span(k, limit)) {
        if k > 1 {
          assert !Tied(rest, Span(k - 1, limit));
        }
      }
    }
  }

  lemma SpanIsPositive(m: Positive, limit: Positive)
    ensures Span(m, limit) >= limit
  {
    SpanStep(m, limit);
  }

  /** The selected events in sequence order: those beyond the k-th are the rest, unless the k-th is tied. */
  lemma {:induction false} BeyondUntied(es: seq<Event>, w: Event -> bool, k: nat)
    requires Sorted(BySequence(), es) && 0 < k < |es| && !Tied(es, k)
    requires forall e | e in es :: w(e)
    ensures Filter(Beyond(w, es[k - 1].sequence), es) == es[k..]
  {
    var keep := Beyond(w, es[k - 1].sequence);
    forall e | e in es[..k] ensures !keep(e) {
      var i :| 0 <= i < k && es[i] == e;
      assert i < k - 1 ==> BySequence()(es[i], es[k - 1]);
    }
    forall e | e in es[k..] ensures keep(e) {
      var i :| k <= i < |es| && es[i] == e;
      assert BySequence()(es[k - 1], es[k]);
      assert i > k ==> BySequence()(es[k], es[i]);
      assert es[i] in es;
    }
    assert es == es[..k] + es[k..];
    FilterAppend(keep, es[..k], es[k..]);
    FilterNone(keep, es[..k]);
    FilterAll(keep, es[k..]);
  }

  lemma PendingUntied(log: seq<Event>, w: Event -> bool, after: int, k: nat)
    requires var es := Pending(log, w, after); 0 < k < |es| && !Tied(es, k) && es[k - 1].sequence >= after
    ensures var es := Pending(log, w, after); Pending(log, w, es[k - 1].sequence) == Drop(es, k)
  {
    hide Pending, Tied, Filter;
    var es := Pending(log, w, after);
    PendingIsSorted(log, w, after);
    PendingNext(log, w, after, es[k - 1].sequence);
    BeyondUntied(es, w, k);
  }

  lemma NextSelectsUntied(log: seq<Event>, c: Cursor, show: J.Json -> string)
    requires FromLog(log, c, show).hasMore && !Tied(Selected(log, c, show), c.limit)
    ensures Selected(log, NextCursor(FromLog(log, c, show)), show) == Drop(Selected(log, c, show), c.limit)
  {
    hide Selected, Wanted, FromLog, Pending, Tied, Drop;
    var next := NextCursor(FromLog(log, c, show));
    PageMeans(log, c, show);
    CursorAdvances(log, c, show);
    SelectedIsPending(log, c, show);
    SelectedIsPending(log, next, show);
    PendingUntied(log, Wanted(c.query, show), c.after, c.limit);
  }

  lemma {:induction false} DrainStaysBeyond(log: seq<Event>, c: Cursor, show: J.Json -> string, m: Positive)
    ensures forall e | e in EventsOf(Batches(log, c, show, m, false)) :: e.sequence > c.after
    decreases m
  {
    hide *;
    var b := FromLog(log, c, show);
    CursorAdvances(log, c, show);
    PageMeans(log, c, show);
    TailUnfolds(log, c, show, m, false);
    if b.hasMore && m > 1 {
      DrainStaysBeyond(log, NextCursor(b), show, m - 1);
    }
  }

  lemma TieLosesAnEvent(es: seq<Event>, limit: Positive, n: nat, rest: seq<Event>)
    requires Tied(es, limit) && n > limit
    requires forall e | e in rest :: e.sequence > es[limit - 1].sequence
    ensures Take(es, limit) + rest != Take(es, n)
  {
    var whole := Take(es, limit) + rest;
    if rest != [] {
      assert rest[0] in rest;
      assert whole[limit] == rest[0];
    }
    assert Take(es, n)[limit] == es[limit];
  }

  lemma TakeMore(es: seq<Event>, limit: Positive, n: nat, rest: seq<Event>)
    requires |es| > limit
    ensures Take(es, limit) + rest == Take(es, limit + n) <==> rest == Take(Drop(es, limit), n)
  {
    TakeTake(es, limit, n);
    var page := Take(es, limit);
    assert (page + rest)[limit..] == rest;
    assert (page + Take(Drop(es, limit), n))[limit..] == Take(Drop(es, limit), n);
  }

  /**
    Without a terminal stop, m pages hold the first m * limit selected events if and only if no two events
    of one sequence lie on both sides of a page boundary that the drain crosses.
    */
  lemma {:induction false} TailIsPrefixIff(log: seq<Event>, c: Cursor, show: J.Json -> string, m: Positive)
    ensures EventsOf(Batches(log, c, show, m, false)) == Take(Selected(log, c, show), Span(m, c.limit)) <==>
            CleanBoundaries(Selected(log, c, show), c.limit, m)
    decreases m
  {
    hide *;
    var es, b := Selected(log, c, show), FromLog(log, c, show);
    var next := NextCursor(b);
    PageMeans(log, c, show);
    TailUnfolds(log, c, show, m, false);
    SpanStep(m, c.limit);
    SpanIsPositive(m, c.limit);
    if !b.hasMore || m == 1 {
      OnePageIsClean(es, c.limit, m);
      TakeEnough(es, c.limit, Span(m, c.limit));
    } else {
      var rest := EventsOf(Batches(log, next, show, m - 1, false));
      CleanBoundariesNext(es, c.limit, m);
      SpanIsPositive(m - 1, c.limit);
      if Tied(es, c.limit) {
        DrainStaysBeyond(log, next, show, m - 1);
        TiedLast(es, c.limit, b.events);
        TieLosesAnEvent(es, c.limit, Span(m, c.limit), rest);
      } else {
        NextSelectsUntied(log, c, show);
        TailIsPrefixIff(log, next, show, m - 1);
        TakeMore(es, c.limit, Span(m - 1, c.limit), rest);
      }
    }
  }

  lemma TiedLast(es: seq<Event>, limit: Positive, page: seq<Event>)
    requires Tied(es, limit) && page == Take(es, limit)
    ensures |page| == limit && page[limit - 1] == es[limit - 1]
  {
  }

  lemma OnePageIsClean(es: seq<Event>, limit: Positive, m: Positive)
    requires m == 1 || |es| <= limit
    ensures CleanBoundaries(es, limit, m)
  {
    forall k | 1 <= k < m ensures !Tied(es, Span(k, limit)) {
      SpanIsPositive(k, limit);
    }
  }

  ghost predicate NoTerminal(es: seq<Event>) {
    forall e | e in es :: !IsTerminal(e)
  }

  /** A drain of p pages that stops at the first terminal page, or after m pages, or at the end of es. */
  ghost predicate StoppedDrain(
    es: seq<Event>, limit: Positive, m: Positive, p: Positive, out: seq<Event>, hasMore: bool) {
    && out == Take(es, Span(p, limit))
    && NoTerminal(Take(es, Span(p - 1, limit)))
    && (p == m || Span(p, limit) >= |es| || !NoTerminal(out))
    && Span(p - 1, limit) <= |es|
    && (hasMore <==> Span(p, limit) < |es|)
  }

  /**
    With the terminal stop, the drain is the shortest whole number of pages that holds a terminal
    event, or the batch bound, or everything there is.
    */
  lemma {:induction false} TailStopsAtTerminal(log: seq<Event>, c: Cursor, show: J.Json -> string, m: Positive)
    requires DistinctSequences(log, c, show)
    ensures var bs := Batches(log, c, show, m, true);
            StoppedDrain(Selected(log, c, show), c.limit, m, |bs|, EventsOf(bs), bs[|bs| - 1].hasMore)
    decreases m
  {
    hide *;
    var es, b := Selected(log, c, show), FromLog(log, c, show);
    var next := NextCursor(b);
    NextSelects(log, c, show);
    NextDistinct(log, c, show);
    PageMeans(log, c, show);
    TerminalMeans(log, c, show);
    TailUnfolds(log, c, show, m, true);
    if b.terminal || !b.hasMore || m == 1 {
      OnePage(es, c.limit, m, b.events, b.hasMore);
    } else {
      var rest := Batches(log, next, show, m - 1, true);
      TailStopsAtTerminal(log, next, show, m - 1);
      StopStep(es, c.limit, m, |rest|, b.events, EventsOf(rest), rest[|rest| - 1].hasMore);
    }
  }

  lemma OnePage(es: seq<Event>, limit: Positive, m: Positive, page: seq<Event>, hasMore: bool)
    requires page == Take(es, limit) && (hasMore <==> |es| > limit)
    requires !NoTerminal(page) || !hasMore || m == 1
    ensures StoppedDrain(es, limit, m, 1, page, hasMore)
  {
    NoTerminalIn([], []);
    hide NoTerminal, Span;
    SpanStep(1, limit);
    TakeNothing(es);
  }

  /** A page without a terminal event in front of a shorter drain. */
  lemma StopStep(
    es: seq<Event>, limit: Positive, m: Positive, q: Positive, page: seq<Event>, rest: seq<Event>, hasMore: bool)
    requires m > 1 && page == Take(es, limit) && NoTerminal(page) && |es| > limit
    requires StoppedDrain(Drop(es, limit), limit, m - 1, q, rest, hasMore)
    ensures StoppedDrain(es, limit, m, q + 1, page + rest, hasMore)
  {
    hide NoTerminal, Take, Drop, Span;
    SpanStep(q + 1, limit);
    SpanStep(q, limit);
    DropLength(es, limit);
    TakeTake(es, limit, Span(q, limit));
    TakeTake(es, limit, Span(q - 1, limit));
    NoTerminalIn(page, Take(Drop(es, limit), Span(q - 1, limit)));
    NoTerminalIn(page, rest);
  }

  lemma NoTerminalIn(xs: seq<Event>, ys: seq<Event>)
    ensures NoTerminal(xs + ys) <==> NoTerminal(xs) && NoTerminal(ys)
    ensures NoTerminal([])
  {
    forall e ensures e in xs + ys <==> e in xs || e in ys {
    }
  }

  lemma TakeNothing<T>(xs: seq<T>)
    ensures Take(xs, 0) == []
  {
  }

  lemma DropLength<T>(xs: seq<T>, n: nat)
    ensures |Drop(xs, n)| == |xs| - Min(n, |xs|)
  {
  }

  lemma TerminalMeans(log: seq<Event>, c: Cursor, show: J.Json -> string)
    ensures FromLog(log, c, show).terminal <==> !NoTerminal(FromLog(log, c, show).events)
  {
  }

  lemma {:induction false} TerminalTailMeans(
    log: seq<Event>, c: Cursor, show: J.Json -> string, m: Positive, stop: bool)
    ensures var bs := Batches(log, c, show, m, stop);
            IsTerminalTail(bs) <==> !NoTerminal(EventsOf(bs))
    decreases m
  {
    var b := FromLog(log, c, show);
    var bs := Batches(log, c, show, m, stop);
    TerminalMeans(log, c, show);
    hide FromLog;
    NoTerminalIn(b.events, EventsOf(bs[1..]));
    if |bs| == 1 {
      assert bs == [b];
      NoTerminalIn([], []);
    } else {
      var rest := Batches(log, NextCursor(b), show, m - 1, stop);
      assert bs == [b] + rest && bs[1..] == rest;
      TerminalTailMeans(log, NextCursor(b), show, m - 1, stop);
      hide NoTerminal;
      assert IsTerminalTail(bs) <==> b.terminal || IsTerminalTail(rest);
    }
  }

  /** Without the terminal stop, the last page has more behind it exactly when the pages do not span the selection. */
  lemma {:induction false} LastPageHasMore(log: seq<Event>, c: Cursor, show: J.Json -> string, m: Positive)
    requires DistinctSequences(log, c, show)
    ensures var bs := Batches(log, c, show, m, false);
            bs[|bs| - 1].hasMore <==> Span(m, c.limit) < |Selected(log, c, show)|
    decreases m
  {
    hide *;
    var b, bs := FromLog(log, c, show), Batches(log, c, show, m, false);
    var next := NextCursor(b);
    PageMeans(log, c, show);
    TailUnfolds(log, c, show, m, false);
    SpanStep(m, c.limit);
    if b.hasMore && m > 1 {
      var rest := Batches(log, next, show, m - 1, false);
      NextSelects(log, c, show);
      NextDistinct(log, c, show);
      LastPageHasMore(log, next, show, m - 1);
      DropLength(Selected(log, c, show), c.limit);
      MinMeans(c.limit, |Selected(log, c, show)|);
      assert bs[|bs| - 1] == rest[|rest| - 1];
    }
  }

  lemma MinMeans(a: nat, b: nat)
    ensures Min(a, b) == if a < b then a else b
  {
  }

  lemma NoMoreWhenStopping(log: seq<Event>, c: Cursor, show: J.Json -> string, m: Positive)
    requires DistinctSequences(log, c, show)
    ensures var bs := Batches(log, c, show, m, true);
            !TailHasMore(bs) <==> !NoTerminal(EventsOf(bs)) || EventsOf(bs) == Selected(log, c, show)
  {
    hide *;
    var es, bs := Selected(log, c, show), Batches(log, c, show, m, true);
    TailStopsAtTerminal(log, c, show, m);
    TerminalTailMeans(log, c, show, m, true);
    HasMoreMeans(bs);
    StoppedMeans(es, c.limit, m, |bs|, EventsOf(bs), bs[|bs| - 1].hasMore);
  }

  lemma HasMoreMeans(bs: seq<Batch>)
    requires bs != []
    ensures TailHasMore(bs) <==> bs[|bs| - 1].hasMore && !IsTerminalTail(bs)
  {
  }

  lemma StoppedMeans(es: seq<Event>, limit: Positive, m: Positive, p: Positive, out: seq<Event>, hasMore: bool)
    requires StoppedDrain(es, limit, m, p, out, hasMore)
    ensures !hasMore <==> out == es
  {
    hide NoTerminal, Span, Take;
    TakesAll(es, Span(p, limit));
  }

  lemma NoMoreWithoutStop(log: seq<Event>, c: Cursor, show: J.Json -> string, m: Positive)
    requires DistinctSequences(log, c, show)
    ensures var bs := Batches(log, c, show, m, false);
            !TailHasMore(bs) <==> !NoTerminal(EventsOf(bs)) || EventsOf(bs) == Selected(log, c, show)
  {
    hide Selected, DistinctSequences, NoTerminal, Batches, EventsOf, IsTerminalTail, Span, ReadFirst, Take;
    var es, bs := Selected(log, c, show), Batches(log, c, show, m, false);
    TerminalTailMeans(log, c, show, m, false);
    TailIsPrefix(log, c, show, m);
    ReadFirstMeans(log, c, show, Span(m, c.limit), EventsOf(bs), TailNextCursor(c, bs));
    LastPageHasMore(log, c, show, m);
    TakesAll(es, Span(m, c.limit));
  }

  lemma TakesAll<T>(xs: seq<T>, n: nat)
    ensures Take(xs, n) == xs <==> |xs| <= n
  {
  }

  /**
    Whether or not it stops at terminal events, a tail that reports no more events has met one or
    delivered everything selected, and every such tail reports no more.
    */
  lemma NoMoreMeansDone(log: seq<Event>, c: Cursor, show: J.Json -> string, m: Positive, stop: bool)
    requires DistinctSequences(log, c, show)
    ensures var bs := Batches(log, c, show, m, stop);
            !TailHasMore(bs) <==> !NoTerminal(EventsOf(bs)) || EventsOf(bs) == Selected(log, c, show)
  {
    hide *;
    if stop {
      NoMoreWhenStopping(log, c, show, m);
    } else {
      NoMoreWithoutStop(log, c, show, m);
    }
  }
}
