/** The trace evaluator's checks on event sequences, and what passing them means for stream readers. */
module TraceChecks {
  import opened Sequences
  import opened Events
  import opened EventStream
  import J = Json

  /** `_event_log_sequences` of a log's manifests. */
  function SequencesOf(es: seq<Event>): (r: seq<int>)
    ensures |r| == |es| && forall i :: 0 <= i < |es| ==> r[i] == es[i].sequence
  {
    seq(|es|, i requires 0 <= i < |es| => es[i].sequence)
  }

  /** `_event_sequence_monotonic`: each sequence exceeds the one before it. */
  predicate Monotonic(ns: seq<int>) {
    forall i :: 0 <= i < |ns| - 1 ==> ns[i + 1] > ns[i]
  }

  function Surplus(ks: seq<int>, m: multiset<int>): nat {
    if ks == [] then 0 else (if m[ks[0]] > 1 then m[ks[0]] - 1 else 0) + Surplus(ks[1..], m)
  }

  /** `_duplicate_event_sequence_count` */
  function DuplicateCount(ns: seq<int>): nat {
    Surplus(Distinct(ns), multiset(ns))
  }

  lemma {:induction false} NeighboursDecide(ns: seq<int>, i: nat, j: nat)
    requires Monotonic(ns) && i < j < |ns|
    ensures ns[i] < ns[j]
    decreases j
  {
    if i < j - 1 {
      NeighboursDecide(ns, i, j - 1);
    }
    assert ns[(j - 1) + 1] > ns[j - 1];
  }

  lemma {:induction false} SurplusCounts(ks: seq<int>, m: multiset<int>)
    requires forall i, j :: 0 <= i < j < |ks| ==> ks[i] != ks[j]
    requires forall n :: n in ks <==> n in m
    ensures Surplus(ks, m) + |ks| == |m|
  {
    if ks == [] {
      forall n ensures n !in m {
        assert n !in ks;
      }
      assert m == multiset{};
    } else {
      var k, rest := ks[0], m[ks[0] := 0];
      assert forall j :: 1 <= j < |ks| ==> ks[0] != ks[j];
      forall n ensures n in ks[1..] <==> n in rest {
        assert n in ks <==> n == k || n in ks[1..];
      }
      SurplusCounts(ks[1..], rest);
      SurplusWithout(ks[1..], m, k);
      Copies(m, k);
    }
  }

  lemma {:induction false} SurplusWithout(ks: seq<int>, m: multiset<int>, k: int)
    requires k !in ks
    ensures Surplus(ks, m[k := 0]) == Surplus(ks, m)
  {
    if ks != [] {
      SurplusWithout(ks[1..], m, k);
    }
  }

  /** The duplicates are what the log holds beyond one event per sequence. */
  lemma DuplicatesAreSurplus(ns: seq<int>)
    ensures DuplicateCount(ns) == |ns| - |Distinct(ns)|
    ensures DuplicateCount(ns) == 0 <==> forall i, j :: 0 <= i < j < |ns| ==> ns[i] != ns[j]
  {
    forall n ensures n in Distinct(ns) <==> n in multiset(ns) {
    }
    SurplusCounts(Distinct(ns), multiset(ns));
    DistinctLength(ns);
  }

  /** A monotonic log has no duplicate sequence. */
  lemma MonotonicHasNoDuplicates(ns: seq<int>)
    requires Monotonic(ns)
    ensures DuplicateCount(ns) == 0
  {
    DuplicatesAreSurplus(ns);
    forall i, j | 0 <= i < j < |ns| ensures ns[i] != ns[j] {
      NeighboursDecide(ns, i, j);
    }
  }

  lemma MonotonicMeansIncreasing(es: seq<Event>)
    ensures Monotonic(SequencesOf(es)) <==> StrictlyIncreasing(es)
  {
    var ns := SequencesOf(es);
    if Monotonic(ns) {
      forall i, j | 0 <= i < j < |es| ensures es[i].sequence < es[j].sequence {
        NeighboursDecide(ns, i, j);
      }
    }
  }

  lemma {:induction false} LogIsNumbered(es: seq<Event>)
    ensures forall e | e in LogOf(es) :: e.sequence > 0
  {
    if es != [] {
      LogIsNumbered(es[..|es| - 1]);
    }
  }

  /** The monotonicity check passes exactly when every reader of the log, whatever it asks for, gets its events once. */
  lemma MonotonicIffAllReadersServed(show: J.Json -> string, es: seq<Event>)
    ensures Monotonic(SequencesOf(LogOf(es))) <==> forall q, start: nat :: AlwaysDelivers(show, q, start, es)
  {
    hide AlwaysDelivers, Monotonic, Wanted, StrictlyIncreasing;
    MonotonicMeansIncreasing(LogOf(es));
    if Monotonic(SequencesOf(LogOf(es))) {
      forall q, start: nat ensures AlwaysDelivers(show, q, start, es) {
        FilterIncreasing(Beyond(Wanted(q, show), start), LogOf(es));
        ExactlyOnceIffIncreasing(show, q, start, es);
      }
    }
    if forall q, start: nat :: AlwaysDelivers(show, q, start, es) {
      var everything := Query("", "", "", []);
      assert AlwaysDelivers(show, everything, 0, es);
      ExactlyOnceIffIncreasing(show, everything, 0, es);
      LogIsNumbered(es);
      EverythingIsWanted(show, es);
    }
  }

  lemma EverythingIsWanted(show: J.Json -> string, es: seq<Event>)
    requires forall e | e in LogOf(es) :: e.sequence > 0
    ensures Owed(LogOf(es), Wanted(Query("", "", "", []), show), 0) == LogOf(es)
  {
    FilterAll(Beyond(Wanted(Query("", "", "", []), show), 0), LogOf(es));
  }
}
