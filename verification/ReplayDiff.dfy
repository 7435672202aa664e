/** Comparing two run traces by the shape of their replay, in order or as a bag of steps. */
module ReplayDiff {
  import opened Options
  import opened Sequences
  import opened StableSort
  import opened Text
  import J = Json

  datatype Step = Step(
    sequence: int, source: string, eventType: string, runId: string, turnId: string, payload: J.Object)

  /** A trace as the comparison sees it: run fields, summary counters, and the replayed steps. */
  datatype Trace = Trace(run: J.Object, summary: J.Object, steps: seq<Step>)

  datatype Spec = Spec(
    runFields: seq<string>, summaryKeys: seq<string>, eventOrder: bool, sources: bool, payloads: bool,
    ignored: seq<string>)

  datatype Issue =
    | RunFieldMismatch(field: string, expected: J.Json, actual: J.Json)
    | SummaryMismatch(field: string, expected: J.Json, actual: J.Json)
    | UnexpectedStep(index: nat, actualStep: J.Object)
    | MissingStep(index: nat, expectedStep: J.Object)
    | StepMismatch(index: nat, expectedStep: J.Object, actualStep: J.Object)
    | MissingStepCount(signature: seq<string>, count: nat, actualCount: nat)
    | UnexpectedStepCount(signature: seq<string>, count: nat, expectedCount: nat)

  function Kept(spec: Spec): Step -> bool {
    (s: Step) => s.eventType !in spec.ignored
  }

  /** `_filtered_steps` */
  function Filtered(steps: seq<Step>, spec: Spec): seq<Step> {
    Filter(Kept(spec), steps)
  }

  /** `_step_comparison_manifest` */
  function View(s: Step, spec: Spec): J.Object {
    map["event_type" := J.JStr(s.eventType)]
    + (if spec.sources then map["source" := J.JStr(s.source)] else map[])
    + (if spec.payloads then map["payload" := J.JObj(s.payload)] else map[])
  }

  /** `_step_signature`; dumps is `json.dumps` of a payload. */
  function Signature(s: Step, spec: Spec, dumps: J.Json -> string): seq<string> {
    [s.eventType]
    + (if spec.sources then [s.source] else [])
    + (if spec.payloads then [dumps(J.JObj(s.payload))] else [])
  }

  /** What the ordered comparison's `==` sees of a step. */
  function Seen(s: Step, spec: Spec): J.Value {
    J.ValueOf(J.JObj(View(s, spec)))
  }

  function AllSeen(steps: seq<Step>, spec: Spec): (r: seq<J.Value>)
    ensures |r| == |steps|
    ensures forall i :: 0 <= i < |steps| ==> r[i] == Seen(steps[i], spec)
  {
    seq(|steps|, i requires 0 <= i < |steps| => Seen(steps[i], spec))
  }

  function Signatures(steps: seq<Step>, spec: Spec, dumps: J.Json -> string): (r: seq<seq<string>>)
    ensures |r| == |steps|
    ensures forall i :: 0 <= i < |steps| ==> r[i] == Signature(steps[i], spec, dumps)
  {
    seq(|steps|, i requires 0 <= i < |steps| => Signature(steps[i], spec, dumps))
  }

  // ----- fields

  function FieldIssues(expected: J.Object, actual: J.Object, fields: seq<string>, summary: bool): seq<Issue> {
    if fields == [] then []
    else
      var e, a := J.Get(expected, fields[0]), J.Get(actual, fields[0]);
      (if J.Same(e, a) then []
       else [if summary then SummaryMismatch(fields[0], e, a) else RunFieldMismatch(fields[0], e, a)])
      + FieldIssues(expected, actual, fields[1..], summary)
  }

  method CompareFields(expected: J.Object, actual: J.Object, fields: seq<string>, summary: bool, issues: seq<Issue>)
    returns (all: seq<Issue>)
    ensures all == issues + FieldIssues(expected, actual, fields, summary)
  {
    hide J.Same;
    all := issues;
    var i := 0;
    while i < |fields|
      invariant 0 <= i <= |fields|
      invariant all + FieldIssues(expected, actual, fields[i..], summary)
                == issues + FieldIssues(expected, actual, fields, summary)
    {
      var e, a := J.Get(expected, fields[i]), J.Get(actual, fields[i]);
      assert fields[i..][1..] == fields[i + 1..];
      if !J.Same(e, a) {
        all := all + [if summary then SummaryMismatch(fields[i], e, a) else RunFieldMismatch(fields[i], e, a)];
      }
      i := i + 1;
    }
  }

  function Fields(o: J.Object, fields: seq<string>): (r: seq<J.Value>)
    ensures |r| == |fields|
  {
    if fields == [] then [] else [J.ValueOf(J.Get(o, fields[0]))] + Fields(o, fields[1..])
  }

  lemma {:induction false} FieldsAgree(expected: J.Object, actual: J.Object, fields: seq<string>, summary: bool)
    ensures FieldIssues(expected, actual, fields, summary) == [] <==> Fields(expected, fields) == Fields(actual, fields)
  {
    hide J.ValueOf;
    if fields != [] {
      FieldsAgree(expected, actual, fields[1..], summary);
      var e, a := Fields(expected, fields), Fields(actual, fields);
      assert e == a <==> e[0] == a[0] && e[1..] == a[1..];
    }
  }

  /** The fields that differ by Python's `==`, each reported with both values. */
  lemma {:induction false} FieldIssuesMean(
    expected: J.Object, actual: J.Object, fields: seq<string>, summary: bool, i: Issue)
    ensures i in FieldIssues(expected, actual, fields, summary) <==>
            if summary then
              i.SummaryMismatch? && i.field in fields && !J.Same(i.expected, i.actual)
              && i.expected == J.Get(expected, i.field) && i.actual == J.Get(actual, i.field)
            else
              i.RunFieldMismatch? && i.field in fields && !J.Same(i.expected, i.actual)
              && i.expected == J.Get(expected, i.field) && i.actual == J.Get(actual, i.field)
  {
    hide J.Same, J.Get;
    if fields != [] {
      FieldIssuesMean(expected, actual, fields[1..], summary, i);
      assert fields == [fields[0]] + fields[1..];
    }
  }

  // ----- ordered steps

  /** What an issue shows of a step: its type, and on demand its source and its payload. */
  lemma ViewMeans(s: Step, spec: Spec)
    ensures var v := View(s, spec);
            && v.Keys == {"event_type"} + (if spec.sources then {"source"} else {})
                         + (if spec.payloads then {"payload"} else {})
            && v["event_type"] == J.JStr(s.eventType)
            && (spec.sources ==> v["source"] == J.JStr(s.source))
            && (spec.payloads ==> v["payload"] == J.JObj(s.payload))
  {
  }

  /** The issue is about the place n: a step too many, a missing one, or two that look different. */
  ghost predicate ReportsPlace(expected: seq<Step>, actual: seq<Step>, spec: Spec, n: nat, i: Issue) {
    if |expected| <= n < |actual| then i == UnexpectedStep(n, View(actual[n], spec))
    else if |actual| <= n < |expected| then i == MissingStep(n, View(expected[n], spec))
    else if n < |expected| && n < |actual| then
      && i == StepMismatch(n, View(expected[n], spec), View(actual[n], spec))
      && Seen(expected[n], spec) != Seen(actual[n], spec)
    else false
  }

  lemma IssueAtMeans(expected: seq<Step>, actual: seq<Step>, spec: Spec, n: nat, i: Issue)
    requires n < |expected| || n < |actual|
    ensures i in IssueAt(expected, actual, spec, n) <==> ReportsPlace(expected, actual, spec, n, i)
  {
    hide View, Seen;
  }

  lemma {:induction false} IssuesFromMean(expected: seq<Step>, actual: seq<Step>, spec: Spec, n: nat, i: Issue)
    ensures i in IssuesFrom(expected, actual, spec, n) <==>
            exists k :: k >= n && ReportsPlace(expected, actual, spec, k, i)
    decreases |expected| + |actual| - n
  {
    if n < |expected| || n < |actual| {
      OrderedNext(expected, actual, spec, n);
      IssueAtMeans(expected, actual, spec, n, i);
      IssuesFromMean(expected, actual, spec, n + 1, i);
      hide IssuesFrom, IssueAt, ReportsPlace;
    } else {
      OrderedEnds(expected, actual, spec, n);
    }
  }

  /** The ordered comparison reports every place that differs, each in its own way, and nothing else. */
  lemma OrderedIssuesMean(expected: seq<Step>, actual: seq<Step>, spec: Spec, i: Issue)
    ensures i in OrderedIssues(expected, actual, spec, 0) <==> exists n :: ReportsPlace(expected, actual, spec, n, i)
  {
    hide ReportsPlace, OrderedIssues;
    IssuesFromMean(expected, actual, spec, 0, i);
    assert Drop(expected, 0) == expected && Drop(actual, 0) == actual;
  }

  function OrderedIssues(expected: seq<Step>, actual: seq<Step>, spec: Spec, index: nat): seq<Issue> {
    if expected == [] && actual == [] then []
    else if expected == [] then
      [UnexpectedStep(index, View(actual[0], spec))] + OrderedIssues([], actual[1..], spec, index + 1)
    else if actual == [] then
      [MissingStep(index, View(expected[0], spec))] + OrderedIssues(expected[1..], [], spec, index + 1)
    else
      (if Seen(expected[0], spec) == Seen(actual[0], spec) then []
       else [StepMismatch(index, View(expected[0], spec), View(actual[0], spec))])
      + OrderedIssues(expected[1..], actual[1..], spec, index + 1)
  }

  /** What one round of the ordered comparison adds. */
  function IssueAt(expected: seq<Step>, actual: seq<Step>, spec: Spec, i: nat): seq<Issue>
    requires i < |expected| || i < |actual|
  {
    if i >= |expected| then [UnexpectedStep(i, View(actual[i], spec))]
    else if i >= |actual| then [MissingStep(i, View(expected[i], spec))]
    else if Seen(expected[i], spec) == Seen(actual[i], spec) then []
    else [StepMismatch(i, View(expected[i], spec), View(actual[i], spec))]
  }

  function IssuesFrom(expected: seq<Step>, actual: seq<Step>, spec: Spec, i: nat): seq<Issue> {
    OrderedIssues(Drop(expected, i), Drop(actual, i), spec, i)
  }

  /** `_compare_ordered_steps` */
  method CompareOrderedSteps(expected: seq<Step>, actual: seq<Step>, spec: Spec, issues: seq<Issue>)
    returns (all: seq<Issue>)
    ensures all == issues + OrderedIssues(expected, actual, spec, 0)
  {
    hide View, OrderedIssues, IssuesFrom, J.ValueOf;
    all := issues;
    var maxLen := if |expected| < |actual| then |actual| else |expected|;
    var index := 0;
    OrderedEnds(expected, actual, spec, maxLen);
    while index < maxLen
      invariant 0 <= index <= maxLen
      invariant all + IssuesFrom(expected, actual, spec, index) == issues + OrderedIssues(expected, actual, spec, 0)
    {
      ghost var before := all;
      if index >= |expected| {
        all := all + [UnexpectedStep(index, View(actual[index], spec))];
      } else if index >= |actual| {
        all := all + [MissingStep(index, View(expected[index], spec))];
      } else {
        var e, a := View(expected[index], spec), View(actual[index], spec);
        if !J.Same(J.JObj(e), J.JObj(a)) {
          all := all + [StepMismatch(index, e, a)];
        }
      }
      assert all == before + IssueAt(expected, actual, spec, index);
      OrderedNext(expected, actual, spec, index);
      AppendAssociates(before, IssueAt(expected, actual, spec, index), IssuesFrom(expected, actual, spec, index + 1));
      index := index + 1;
    }
  }

  lemma OrderedEnds(expected: seq<Step>, actual: seq<Step>, spec: Spec, n: nat)
    requires |expected| <= n && |actual| <= n
    ensures IssuesFrom(expected, actual, spec, 0) == OrderedIssues(expected, actual, spec, 0)
    ensures IssuesFrom(expected, actual, spec, n) == []
  {
    assert expected[0..] == expected && actual[0..] == actual;
  }

  lemma OrderedNext(expected: seq<Step>, actual: seq<Step>, spec: Spec, i: nat)
    requires i < |expected| || i < |actual|
    ensures IssuesFrom(expected, actual, spec, i)
            == IssueAt(expected, actual, spec, i) + IssuesFrom(expected, actual, spec, i + 1)
  {
    hide Seen, View;
    if i < |expected| {
      assert Drop(expected, i)[1..] == Drop(expected, i + 1);
    }
    if i < |actual| {
      assert Drop(actual, i)[1..] == Drop(actual, i + 1);
    }
  }

  lemma {:induction false} OrderedAgree(expected: seq<Step>, actual: seq<Step>, spec: Spec, index: nat)
    ensures OrderedIssues(expected, actual, spec, index) == [] <==> AllSeen(expected, spec) == AllSeen(actual, spec)
  {
    hide Seen, View;
    if expected != [] && actual != [] {
      OrderedAgree(expected[1..], actual[1..], spec, index + 1);
      var e, a := AllSeen(expected, spec), AllSeen(actual, spec);
      assert e[1..] == AllSeen(expected[1..], spec) && a[1..] == AllSeen(actual[1..], spec);
      assert e == a <==> e[0] == a[0] && e[1..] == a[1..];
    } else {
      assert |expected| != |actual| ==> |AllSeen(expected, spec)| != |AllSeen(actual, spec)|;
    }
  }

  // ----- steps as a bag

  predicate SignatureLeq(a: seq<string>, b: seq<string>) {
    a == [] || (b != [] && (if a[0] != b[0] then StrLeq(a[0], b[0]) else SignatureLeq(a[1..], b[1..])))
  }

  function SignatureOrder(): (seq<string>, seq<string>) -> bool {
    (a: seq<string>, b: seq<string>) => SignatureLeq(a, b)
  }

  /** The keys of a Counter, sorted. */
  function SortedKeys(xs: seq<seq<string>>): seq<seq<string>> {
    Sort(SignatureOrder(), Distinct(xs))
  }

  /** The issues for the keys that occur more often in `more` than in `less`. */
  function CountIssues(
    keys: seq<seq<string>>, more: multiset<seq<string>>, less: multiset<seq<string>>, missing: bool): seq<Issue> {
    if keys == [] then []
    else
      var k := keys[0];
      (if more[k] <= less[k] then []
       else [if missing then MissingStepCount(k, more[k] - less[k], less[k])
             else UnexpectedStepCount(k, more[k] - less[k], less[k])])
      + CountIssues(keys[1..], more, less, missing)
  }

  method CompareCounts(
    keys: seq<seq<string>>, more: multiset<seq<string>>, less: multiset<seq<string>>, missing: bool, issues: seq<Issue>)
    returns (all: seq<Issue>)
    ensures all == issues + CountIssues(keys, more, less, missing)
  {
    all := issues;
    var i := 0;
    while i < |keys|
      invariant 0 <= i <= |keys|
      invariant all + CountIssues(keys[i..], more, less, missing) == issues + CountIssues(keys, more, less, missing)
    {
      var k := keys[i];
      assert keys[i..][1..] == keys[i + 1..];
      if more[k] > less[k] {
        all := all + [if missing then MissingStepCount(k, more[k] - less[k], less[k])
                      else UnexpectedStepCount(k, more[k] - less[k], less[k])];
      }
      i := i + 1;
    }
  }

  function BagIssues(expected: seq<seq<string>>, actual: seq<seq<string>>): seq<Issue> {
    CountIssues(SortedKeys(expected), multiset(expected), multiset(actual), true)
    + CountIssues(SortedKeys(actual), multiset(actual), multiset(expected), false)
  }

  function Counted(issues: seq<Issue>): nat {
    if issues == [] then 0
    else
      (if issues[0].MissingStepCount? || issues[0].UnexpectedStepCount? then issues[0].count else 0)
      + Counted(issues[1..])
  }

  function Counts(keys: seq<seq<string>>, m: multiset<seq<string>>): nat {
    if keys == [] then 0 else m[keys[0]] + Counts(keys[1..], m)
  }

  function Itself(): seq<string> -> seq<string> {
    (x: seq<string>) => x
  }

  ghost predicate DistinctKeys(keys: seq<seq<string>>) {
    DistinctBy(Itself(), keys)
  }

  lemma {:induction false} CountsAll(keys: seq<seq<string>>, m: multiset<seq<string>>)
    requires DistinctKeys(keys) && forall x :: x in m ==> x in keys
    ensures Counts(keys, m) == |m|
  {
    if keys == [] {
      assert m == multiset{};
    } else {
      var k := keys[0];
      var rest := m[k := 0];
      forall x | x in rest ensures x in keys[1..] {
        assert x in m && x != k;
      }
      assert DistinctKeys(keys[1..]);
      CountsAll(keys[1..], rest);
      CountsWithout(keys[1..], m, k);
      Copies(m, k);
    }
  }

  lemma {:induction false} CountsWithout(keys: seq<seq<string>>, m: multiset<seq<string>>, k: seq<string>)
    requires k !in keys
    ensures Counts(keys, m[k := 0]) == Counts(keys, m)
  {
    if keys != [] {
      CountsWithout(keys[1..], m, k);
    }
  }

  lemma {:induction false} CountedIsDifference(
    keys: seq<seq<string>>, more: multiset<seq<string>>, less: multiset<seq<string>>, missing: bool)
    ensures Counted(CountIssues(keys, more, less, missing)) == Counts(keys, more - less)
    ensures CountIssues(keys, more, less, missing) == [] <==> Counts(keys, more - less) == 0
  {
    if keys != [] {
      CountedIsDifference(keys[1..], more, less, missing);
      var k, rest := keys[0], CountIssues(keys[1..], more, less, missing);
      if more[k] > less[k] {
        var i := CountIssues(keys, more, less, missing)[0];
        assert ([i] + rest)[1..] == rest;
      } else {
        assert CountIssues(keys, more, less, missing) == [] + rest == rest;
      }
    }
  }

  lemma SortedKeysAreKeys(xs: seq<seq<string>>)
    ensures DistinctKeys(SortedKeys(xs)) && forall x :: x in SortedKeys(xs) <==> x in xs
  {
    var keys := Distinct(xs);
    SortPermutes(SignatureOrder(), keys);
    SortMembers(SignatureOrder(), keys);
    DistinctPermutes(Itself(), keys, SortedKeys(xs));
  }

  lemma DifferenceEmpty(a: multiset<seq<string>>, b: multiset<seq<string>>)
    ensures a - b == multiset{} <==> a <= b
  {
    if a - b == multiset{} {
      forall x ensures a[x] <= b[x] {
        assert (a - b)[x] == 0;
      }
    }
  }

  /** Missing is what the expected steps have more of, unexpected what the actual ones have more of. */
  ghost predicate ReportsCount(expected: seq<seq<string>>, actual: seq<seq<string>>, i: Issue) {
    if i.MissingStepCount? then
      && multiset(expected)[i.signature] > multiset(actual)[i.signature] == i.actualCount
      && i.count == multiset(expected)[i.signature] - i.actualCount
    else
      && i.UnexpectedStepCount?
      && multiset(actual)[i.signature] > multiset(expected)[i.signature] == i.expectedCount
      && i.count == multiset(actual)[i.signature] - i.expectedCount
  }

  lemma {:induction false} CountIssuesMean(
    keys: seq<seq<string>>, more: multiset<seq<string>>, less: multiset<seq<string>>, missing: bool, i: Issue)
    ensures i in CountIssues(keys, more, less, missing) <==>
            if missing then
              i.MissingStepCount? && i.signature in keys
              && i.actualCount == less[i.signature] && more[i.signature] == less[i.signature] + i.count && i.count > 0
            else
              i.UnexpectedStepCount? && i.signature in keys
              && i.expectedCount == less[i.signature] && more[i.signature] == less[i.signature] + i.count && i.count > 0
  {
    if keys != [] {
      CountIssuesMean(keys[1..], more, less, missing, i);
      assert keys == [keys[0]] + keys[1..];
    }
  }

  /** The unordered comparison reports every signature whose counts differ, on its side, and nothing else. */
  lemma BagIssuesMean(expected: seq<seq<string>>, actual: seq<seq<string>>, i: Issue)
    ensures i in BagIssues(expected, actual) <==> ReportsCount(expected, actual, i)
  {
    hide SortedKeys, CountIssues;
    SortedKeysAreKeys(expected);
    SortedKeysAreKeys(actual);
    CountIssuesMean(SortedKeys(expected), multiset(expected), multiset(actual), true, i);
    CountIssuesMean(SortedKeys(actual), multiset(actual), multiset(expected), false, i);
  }

  lemma SignatureLeqIsTotal()
    ensures TotalPreorder(SignatureOrder())
  {
    StrLeqOrders();
    var leq := SignatureOrder();
    forall x, y ensures leq(x, y) || leq(y, x) {
      SignatureLeqTotal(x, y);
    }
    forall x, y, z | leq(x, y) && leq(y, z) ensures leq(x, z) {
      SignatureLeqTransitive(x, y, z);
    }
  }

  lemma {:induction false} SignatureLeqTotal(a: seq<string>, b: seq<string>)
    ensures SignatureLeq(a, b) || SignatureLeq(b, a)
  {
    if a != [] && b != [] {
      StrLeqTotal(a[0], b[0]);
      SignatureLeqTotal(a[1..], b[1..]);
    }
  }

  lemma {:induction false} SignatureLeqTransitive(a: seq<string>, b: seq<string>, c: seq<string>)
    requires SignatureLeq(a, b) && SignatureLeq(b, c)
    ensures SignatureLeq(a, c)
  {
    if a != [] && b != [] && c != [] {
      StrLeqOrders();
      hide StrLeq;
      if a[0] == b[0] == c[0] {
        SignatureLeqTransitive(a[1..], b[1..], c[1..]);
      }
    }
  }

  function SignatureOf(i: Issue): seq<string> {
    if i.MissingStepCount? || i.UnexpectedStepCount? then i.signature else []
  }

  ghost predicate BySignature(issues: seq<Issue>) {
    forall i, j :: 0 <= i < j < |issues| ==> SignatureLeq(SignatureOf(issues[i]), SignatureOf(issues[j]))
  }

  lemma {:induction false} CountIssuesInOrder(
    keys: seq<seq<string>>, more: multiset<seq<string>>, less: multiset<seq<string>>, missing: bool)
    requires Sorted(SignatureOrder(), keys)
    ensures BySignature(CountIssues(keys, more, less, missing))
  {
    hide SignatureLeq;
    if keys != [] {
      var k, rest := keys[0], CountIssues(keys[1..], more, less, missing);
      TailSorted(SignatureOrder(), keys);
      CountIssuesInOrder(keys[1..], more, less, missing);
      forall j | 0 <= j < |rest| ensures SignatureLeq(k, SignatureOf(rest[j])) {
        CountIssuesMean(keys[1..], more, less, missing, rest[j]);
        var n :| 0 <= n < |keys[1..]| && keys[1..][n] == SignatureOf(rest[j]);
        assert SignatureOrder()(keys[0], keys[n + 1]);
      }
    }
  }

  predicate ReportedBefore(a: Issue, b: Issue) {
    && (a.MissingStepCount? || b.UnexpectedStepCount?)
    && (a.MissingStepCount? == b.MissingStepCount? ==> SignatureLeq(SignatureOf(a), SignatureOf(b)))
  }

  /** What is missing is reported first, and on each side the issues follow the order of their signatures. */
  lemma BagIssuesInOrder(expected: seq<seq<string>>, actual: seq<seq<string>>)
    ensures var issues := BagIssues(expected, actual);
            forall i, j :: 0 <= i < j < |issues| ==> ReportedBefore(issues[i], issues[j])
  {
    SignatureLeqIsTotal();
    SortSorts(SignatureOrder(), Distinct(expected));
    SortSorts(SignatureOrder(), Distinct(actual));
    var more, less := multiset(expected), multiset(actual);
    CountIssuesInOrder(SortedKeys(expected), more, less, true);
    CountIssuesInOrder(SortedKeys(actual), less, more, false);
    hide SignatureLeq, SortedKeys, CountIssues, SignatureOf, SignatureOrder, BySignature, ReportedBefore;
    var missing, unexpected :=
      CountIssues(SortedKeys(expected), more, less, true), CountIssues(SortedKeys(actual), less, more, false);
    forall i | i in missing ensures i.MissingStepCount? {
      CountIssuesMean(SortedKeys(expected), more, less, true, i);
    }
    forall i | i in unexpected ensures i.UnexpectedStepCount? {
      CountIssuesMean(SortedKeys(actual), less, more, false, i);
    }
    BothInOrder(missing, unexpected);
  }

  lemma BothInOrder(missing: seq<Issue>, unexpected: seq<Issue>)
    requires forall i | i in missing :: i.MissingStepCount?
    requires forall i | i in unexpected :: i.UnexpectedStepCount?
    requires BySignature(missing) && BySignature(unexpected)
    ensures var issues := missing + unexpected;
            forall i, j :: 0 <= i < j < |issues| ==> ReportedBefore(issues[i], issues[j])
  {
    hide SignatureLeq, SignatureOf;
    var issues, m := missing + unexpected, |missing|;
    forall i, j | 0 <= i < j < |issues| ensures ReportedBefore(issues[i], issues[j]) {
      assert issues[i] == if i < m then missing[i] else unexpected[i - m];
      assert issues[j] == if j < m then missing[j] else unexpected[j - m];
      assert i < m ==> missing[i] in missing;
      assert j < m ==> missing[j] in missing;
      assert i >= m ==> unexpected[i - m] in unexpected;
      assert j >= m ==> unexpected[j - m] in unexpected;
    }
  }

  /** The tuples part at i, and the first has the smaller entry there. */
  predicate EntryBefore(a: seq<string>, b: seq<string>, i: nat) {
    i < |a| && i < |b| && a[..i] == b[..i] && a[i] != b[i] && StrLeq(a[i], b[i])
  }

  /** Signatures are compared as tuples: by the first entry that differs, and a shorter one first. */
  lemma {:induction false} SignatureLeqMeans(a: seq<string>, b: seq<string>)
    ensures SignatureLeq(a, b) <==> a <= b || exists i :: EntryBefore(a, b, i)
  {
    hide StrLeq;
    if a != [] && b != [] && a[0] == b[0] {
      SignatureLeqMeans(a[1..], b[1..]);
      assert a == [a[0]] + a[1..] && b == [b[0]] + b[1..];
      if i: nat :| EntryBefore(a[1..], b[1..], i) {
        assert EntryBefore(a, b, i + 1);
      }
      if i: nat :| EntryBefore(a, b, i) {
        assert i > 0 && EntryBefore(a[1..], b[1..], i - 1);
      }
    } else if a != [] && b != [] && StrLeq(a[0], b[0]) {
      assert EntryBefore(a, b, 0);
    }
  }

  /** A signature tells what the spec compares: the type, and on demand the source and the printed payload. */
  lemma SignatureMeans(s: Step, t: Step, spec: Spec, dumps: J.Json -> string)
    ensures Signature(s, spec, dumps) == Signature(t, spec, dumps) <==>
            && s.eventType == t.eventType
            && (spec.sources ==> s.source == t.source)
            && (spec.payloads ==> dumps(J.JObj(s.payload)) == dumps(J.JObj(t.payload)))
  {
    var a, b := Signature(s, spec, dumps), Signature(t, spec, dumps);
    if a == b {
      assert a[0] == b[0] && |a| == |b|;
      assert |a| > 1 ==> a[1] == b[1];
      assert |a| > 2 ==> a[2] == b[2];
    }
  }

  /** The missing counts add up to the bag difference, and so do the unexpected ones the other way round. */
  lemma CountsAreDifferences(xs: seq<seq<string>>, ys: seq<seq<string>>, missing: bool)
    ensures var issues := CountIssues(SortedKeys(xs), multiset(xs), multiset(ys), missing);
            Counted(issues) == |multiset(xs) - multiset(ys)| && (issues == [] <==> multiset(xs) <= multiset(ys))
  {
    hide SortedKeys;
    var d := multiset(xs) - multiset(ys);
    SortedKeysAreKeys(xs);
    forall x | x in d ensures x in SortedKeys(xs) {
      assert x in multiset(xs);
    }
    CountsAll(SortedKeys(xs), d);
    CountedIsDifference(SortedKeys(xs), multiset(xs), multiset(ys), missing);
    assert |d| == 0 <==> d == multiset{};
    DifferenceEmpty(multiset(xs), multiset(ys));
  }

  lemma BagSizes(a: multiset<seq<string>>, b: multiset<seq<string>>)
    ensures |a - b| + |b| == |b - a| + |a|
  {
    assert (a - b) + b == (b - a) + a;
  }

  /** No issue exactly when the bags are equal; and missing minus unexpected is the difference in length. */
  lemma BagsAgree(xs: seq<seq<string>>, ys: seq<seq<string>>)
    ensures BagIssues(xs, ys) == [] <==> multiset(xs) == multiset(ys)
    ensures Counted(CountIssues(SortedKeys(xs), multiset(xs), multiset(ys), true)) + |ys|
            == Counted(CountIssues(SortedKeys(ys), multiset(ys), multiset(xs), false)) + |xs|
  {
    hide SortedKeys, CountIssues, Counted;
    CountsAreDifferences(xs, ys, true);
    CountsAreDifferences(ys, xs, false);
    BagSizes(multiset(xs), multiset(ys));
    assert |multiset(xs)| == |xs| && |multiset(ys)| == |ys|;
    assert multiset(xs) <= multiset(ys) && multiset(ys) <= multiset(xs) <==> multiset(xs) == multiset(ys);
  }

  // ----- the whole comparison

  function StepIssues(baseline: Trace, actual: Trace, spec: Spec, dumps: J.Json -> string): seq<Issue> {
    var expected, got := Filtered(baseline.steps, spec), Filtered(actual.steps, spec);
    if spec.eventOrder then OrderedIssues(expected, got, spec, 0)
    else BagIssues(Signatures(expected, spec, dumps), Signatures(got, spec, dumps))
  }

  function Issues(baseline: Trace, actual: Trace, spec: Spec, dumps: J.Json -> string): seq<Issue> {
    FieldIssues(baseline.run, actual.run, spec.runFields, false)
    + FieldIssues(baseline.summary, actual.summary, spec.summaryKeys, true)
    + StepIssues(baseline, actual, spec, dumps)
  }

  /** `TraceReplayComparator.compare`; every issue is an error, so ok means no issue. */
  method Compare(baseline: Trace, actual: Trace, spec: Spec, dumps: J.Json -> string)
    returns (ok: bool, issues: seq<Issue>)
    ensures issues == Issues(baseline, actual, spec, dumps) && (ok <==> issues == [])
  {
    hide FieldIssues, OrderedIssues, CountIssues, SortedKeys, Filtered, Signatures;
    issues := CompareFields(baseline.run, actual.run, spec.runFields, false, []);
    issues := CompareFields(baseline.summary, actual.summary, spec.summaryKeys, true, issues);
    var expected, got := Filtered(baseline.steps, spec), Filtered(actual.steps, spec);
    if spec.eventOrder {
      issues := CompareOrderedSteps(expected, got, spec, issues);
    } else {
      var es, gs := Signatures(expected, spec, dumps), Signatures(got, spec, dumps);
      issues := CompareCounts(SortedKeys(es), multiset(es), multiset(gs), true, issues);
      issues := CompareCounts(SortedKeys(gs), multiset(gs), multiset(es), false, issues);
    }
    ok := issues == [];
  }

  /** What a comparison under this spec can see of a trace. */
  datatype Shape = Shape(
    runFields: seq<J.Value>, summary: seq<J.Value>, ordered: seq<J.Value>, bag: multiset<seq<string>>)

  function ShapeOf(t: Trace, spec: Spec, dumps: J.Json -> string): Shape {
    var steps := Filtered(t.steps, spec);
    Shape(Fields(t.run, spec.runFields), Fields(t.summary, spec.summaryKeys),
          if spec.eventOrder then AllSeen(steps, spec) else [],
          if spec.eventOrder then multiset{} else multiset(Signatures(steps, spec, dumps)))
  }

  /** Two traces compare ok exactly when they have the same shape, so ok is an equivalence of traces. */
  lemma OkMeansSameShape(a: Trace, b: Trace, spec: Spec, dumps: J.Json -> string)
    ensures Issues(a, b, spec, dumps) == [] <==> ShapeOf(a, spec, dumps) == ShapeOf(b, spec, dumps)
  {
    hide Filtered, AllSeen, Signatures, Fields, BagIssues, OrderedIssues, FieldIssues;
    var x, y := Filtered(a.steps, spec), Filtered(b.steps, spec);
    FieldsAgree(a.run, b.run, spec.runFields, false);
    FieldsAgree(a.summary, b.summary, spec.summaryKeys, true);
    OrderedAgree(x, y, spec, 0);
    BagsAgree(Signatures(x, spec, dumps), Signatures(y, spec, dumps));
  }

  /** The ordered comparison compares types as texts, and sources and payloads only on demand. */
  lemma SeenMeans(s: Step, t: Step, spec: Spec)
    ensures Seen(s, spec) == Seen(t, spec) <==>
            && s.eventType == t.eventType
            && (spec.sources ==> s.source == t.source)
            && (spec.payloads ==> J.Same(J.JObj(s.payload), J.JObj(t.payload)))
  {
    var v, w := View(s, spec), View(t, spec);
    J.SameObjects(v, w);
    TextsAreSame(s.eventType, t.eventType);
    TextsAreSame(s.source, t.source);
    hide J.ValueOf;
    assert v.Keys == w.Keys;
    assert J.Same(v["event_type"], w["event_type"]) <==> s.eventType == t.eventType;
    if spec.sources {
      assert J.Same(v["source"], w["source"]) <==> s.source == t.source;
    }
    if spec.payloads {
      assert J.Same(v["payload"], w["payload"]) <==> J.Same(J.JObj(s.payload), J.JObj(t.payload));
    }
  }

  lemma TextsAreSame(s: string, t: string)
    ensures J.Same(J.JStr(s), J.JStr(t)) <==> s == t
  {
  }

  /** Steps that look the same in order have the same signature, unless equal payloads are spelled differently. */
  lemma SeenAlikeSignedAlike(s: Step, t: Step, spec: Spec, dumps: J.Json -> string)
    requires Seen(s, spec) == Seen(t, spec) && (spec.payloads ==> s.payload == t.payload)
    ensures Signature(s, spec, dumps) == Signature(t, spec, dumps)
  {
    hide Seen;
    SeenMeans(s, t, spec);
  }

  ghost predicate PayloadsIn(t: Trace, d: J.Object -> bool) {
    forall s | s in t.steps :: d(s.payload)
  }

  /** Within d, payloads that Python finds equal are written alike, numbers included. */
  ghost predicate OneSpelling(d: J.Object -> bool) {
    forall p, q | d(p) && d(q) && J.Same(J.JObj(p), J.JObj(q)) :: p == q
  }

  /** On traces with payloads in d, whatever is ok in order is ok out of order. */
  ghost predicate OrderIsStricter(spec: Spec, d: J.Object -> bool, dumps: J.Json -> string) {
    forall a, b | PayloadsIn(a, d) && PayloadsIn(b, d) && Issues(a, b, spec.(eventOrder := true), dumps) == [] ::
      Issues(a, b, spec.(eventOrder := false), dumps) == []
  }

  lemma SpecIgnoresOrder(steps: seq<Step>, spec: Spec, dumps: J.Json -> string)
    ensures var ordered, bag := spec.(eventOrder := true), spec.(eventOrder := false);
            && Filtered(steps, ordered) == Filtered(steps, bag)
            && (forall s ::
                  View(s, ordered) == View(s, bag) && Signature(s, ordered, dumps) == Signature(s, bag, dumps))
  {
    FilterCongruent(Kept(spec.(eventOrder := true)), Kept(spec.(eventOrder := false)), steps);
  }

  lemma OkInOrderIsOkInBag(a: Trace, b: Trace, spec: Spec, d: J.Object -> bool, dumps: J.Json -> string)
    requires !spec.payloads || (OneSpelling(d) && PayloadsIn(a, d) && PayloadsIn(b, d))
    requires Issues(a, b, spec.(eventOrder := true), dumps) == []
    ensures Issues(a, b, spec.(eventOrder := false), dumps) == []
  {
    hide Filtered, Issues, AllSeen, Signatures, J.Same, OneSpelling;
    var ordered, bag := spec.(eventOrder := true), spec.(eventOrder := false);
    OkMeansSameShape(a, b, ordered, dumps);
    OkMeansSameShape(a, b, bag, dumps);
    SpecIgnoresOrder(a.steps, spec, dumps);
    SpecIgnoresOrder(b.steps, spec, dumps);
    var x, y := Filtered(a.steps, ordered), Filtered(b.steps, ordered);
    KeptSteps(a.steps, ordered);
    KeptSteps(b.steps, ordered);
    SeenAlikeAllSignedAlike(x, y, spec, d, dumps);
  }

  lemma KeptSteps(steps: seq<Step>, spec: Spec)
    ensures forall s | s in Filtered(steps, spec) :: s in steps
  {
  }

  lemma SeenAlikeAllSignedAlike(x: seq<Step>, y: seq<Step>, spec: Spec, d: J.Object -> bool, dumps: J.Json -> string)
    requires AllSeen(x, spec.(eventOrder := true)) == AllSeen(y, spec.(eventOrder := true))
    requires !spec.payloads || OneSpelling(d)
    requires spec.payloads ==> forall s | s in x + y :: d(s.payload)
    ensures Signatures(x, spec.(eventOrder := false), dumps) == Signatures(y, spec.(eventOrder := false), dumps)
  {
    hide View, Signature, Seen, J.Same;
    var ordered, bag := spec.(eventOrder := true), spec.(eventOrder := false);
    var u, v := AllSeen(x, ordered), AllSeen(y, ordered);
    forall i | 0 <= i < |x| ensures Signatures(x, bag, dumps)[i] == Signatures(y, bag, dumps)[i] {
      assert u[i] == v[i];
      assert x[i] in x + y && y[i] in x + y;
      SeenMeans(x[i], y[i], ordered);
      SeenAlikeSignedAlike(x[i], y[i], ordered, dumps);
      SpecIgnoresOrder(x, spec, dumps);
    }
    assert |u| == |v|;
  }

  /** Without payloads the ordered comparison is the stricter one. */
  lemma OrderedOkImpliesBagOk(a: Trace, b: Trace, spec: Spec, dumps: J.Json -> string)
    requires !spec.payloads && Issues(a, b, spec.(eventOrder := true), dumps) == []
    ensures Issues(a, b, spec.(eventOrder := false), dumps) == []
  {
    OkInOrderIsOkInBag(a, b, spec, (p: J.Object) => true, dumps);
  }

  function OneStep(eventType: string, payload: J.Object): Trace {
    Trace(map[], map[], [Step(1, "s", eventType, "r", "t", payload)])
  }

  /** One step on each side, with payloads that are equal in Python: ok in order; out of order only if written alike. */
  lemma OneStepEach(h: J.Host, spec: Spec, eventType: string, p: J.Object, q: J.Object)
    requires h.Faithful() && spec.payloads && eventType !in spec.ignored && J.Same(J.JObj(p), J.JObj(q))
    ensures var a, b := OneStep(eventType, p), OneStep(eventType, q);
            && Issues(a, b, spec.(eventOrder := true), h.dumps) == []
            && (Issues(a, b, spec.(eventOrder := false), h.dumps) == [] <==> p == q)
  {
    hide *;
    OneStepInOrder(h, spec.(eventOrder := true), eventType, p, q);
    OneStepInBag(h, spec.(eventOrder := false), eventType, p, q);
  }

  lemma OneStepInOrder(h: J.Host, spec: Spec, eventType: string, p: J.Object, q: J.Object)
    requires spec.eventOrder && eventType !in spec.ignored && J.Same(J.JObj(p), J.JObj(q))
    ensures Issues(OneStep(eventType, p), OneStep(eventType, q), spec, h.dumps) == []
  {
    hide Seen, Filtered, Issues, J.ValueOf;
    var a, b := OneStep(eventType, p), OneStep(eventType, q);
    OkMeansSameShape(a, b, spec, h.dumps);
    NothingIgnored(a.steps, spec);
    NothingIgnored(b.steps, spec);
    SeenMeans(a.steps[0], b.steps[0], spec);
    assert AllSeen(a.steps, spec) == AllSeen(b.steps, spec);
  }

  lemma OneStepInBag(h: J.Host, spec: Spec, eventType: string, p: J.Object, q: J.Object)
    requires h.Faithful() && spec.payloads && !spec.eventOrder && eventType !in spec.ignored
    ensures Issues(OneStep(eventType, p), OneStep(eventType, q), spec, h.dumps) == [] <==> p == q
  {
    var a, b := OneStep(eventType, p), OneStep(eventType, q);
    var s, t := a.steps[0], b.steps[0];
    assert a.steps == [s] && b.steps == [t] && t == s.(payload := q);
    SignatureTells(h, s, t, spec);
    hide *;
    BagsDecide(a, b, spec, h.dumps);
    OneSignature(s, spec, h.dumps);
    OneSignature(t, spec, h.dumps);
    OneInBag(Signature(s, spec, h.dumps), Signature(t, spec, h.dumps));
  }

  lemma OneSignature(s: Step, spec: Spec, dumps: J.Json -> string)
    ensures Signatures([s], spec, dumps) == [Signature(s, spec, dumps)]
  {
    hide Signature;
  }

  lemma BagsDecide(a: Trace, b: Trace, spec: Spec, dumps: J.Json -> string)
    requires !spec.eventOrder && a.run == b.run && a.summary == b.summary
    requires forall s | s in a.steps + b.steps :: s.eventType !in spec.ignored
    ensures Issues(a, b, spec, dumps) == [] <==>
            multiset(Signatures(a.steps, spec, dumps)) == multiset(Signatures(b.steps, spec, dumps))
  {
    hide Signatures, Filtered, Issues, Fields, AllSeen;
    OkMeansSameShape(a, b, spec, dumps);
    NothingIgnored(a.steps, spec);
    NothingIgnored(b.steps, spec);
  }

  lemma OneInBag<T>(u: T, v: T)
    ensures multiset([u]) == multiset([v]) <==> u == v
  {
    if multiset([u]) == multiset([v]) {
      assert u in multiset([v]);
    }
  }

  lemma NothingIgnored(steps: seq<Step>, spec: Spec)
    requires forall s | s in steps :: s.eventType !in spec.ignored
    ensures Filtered(steps, spec) == steps
  {
    FilterAll(Kept(spec), steps);
  }

  lemma SignatureTells(h: J.Host, s: Step, t: Step, spec: Spec)
    requires h.Faithful() && spec.payloads && s == t.(payload := s.payload)
    ensures Signature(s, spec, h.dumps) == Signature(t, spec, h.dumps) <==> s.payload == t.payload
  {
    var i := if spec.sources then 2 else 1;
    var a, b := Signature(s, spec, h.dumps), Signature(t, spec, h.dumps);
    assert a[i] == h.dumps(J.JObj(s.payload)) && b[i] == h.dumps(J.JObj(t.payload));
    assert h.loads(a[i]) == Some(J.JObj(s.payload)) && h.loads(b[i]) == Some(J.JObj(t.payload));
  }

  /**
    With payloads compared too, order is the stricter comparison on a domain of payloads exactly when
    payloads of that domain which Python finds equal are written alike.
    */
  lemma OrderIsStricterIff(h: J.Host, spec: Spec, d: J.Object -> bool)
    requires h.Faithful()
    ensures OrderIsStricter(spec, d, h.dumps) <==> !spec.payloads || OneSpelling(d)
  {
    hide Issues, J.Same;
    if !spec.payloads || OneSpelling(d) {
      forall a, b | PayloadsIn(a, d) && PayloadsIn(b, d) && Issues(a, b, spec.(eventOrder := true), h.dumps) == []
        ensures Issues(a, b, spec.(eventOrder := false), h.dumps) == []
      {
        OkInOrderIsOkInBag(a, b, spec, d, h.dumps);
      }
    }
    if OrderIsStricter(spec, d, h.dumps) && spec.payloads {
      var t := FreshText(spec.ignored);
      forall p, q | d(p) && d(q) && J.Same(J.JObj(p), J.JObj(q)) ensures p == q {
        OneStepEach(h, spec, t, p, q);
        var a, b := OneStep(t, p), OneStep(t, q);
        assert PayloadsIn(a, d) && PayloadsIn(b, d);
      }
    }
  }

  /** The numbers 1 and 1.0: equal in order, a missing and an unexpected step out of order. */
  lemma SpellingBreaksStrictness(h: J.Host)
    requires h.Faithful()
    ensures var spec := Spec([], [], true, false, true, []);
            var a := OneStep("error", map["n" := J.JInt(1)]);
            var b := OneStep("error", map["n" := J.JFloat(J.Scaled(1, 0))]);
            && Issues(a, b, spec, h.dumps) == [] && Issues(a, b, spec.(eventOrder := false), h.dumps) != []
  {
    var p, q: J.Object := map["n" := J.JInt(1)], map["n" := J.JFloat(J.Scaled(1, 0))];
    var spec := Spec([], [], true, false, true, []);
    assert J.ValueOf(J.JInt(1)) == J.ValueOf(J.JFloat(J.Scaled(1, 0)));
    assert J.ValueOf(J.JObj(p)).fields == J.ValueOf(J.JObj(q)).fields;
    assert p["n"] != q["n"];
    OneStepEach(h, spec, "error", p, q);
    assert spec.(eventOrder := true) == spec;
  }

  lemma FilteredIgnores(before: seq<Step>, s: Step, after: seq<Step>, spec: Spec)
    requires s.eventType in spec.ignored
    ensures Filtered(before + [s] + after, spec) == Filtered(before + after, spec)
  {
    hide Filter;
    FilterAppend(Kept(spec), before, after);
    FilterAppend(Kept(spec), before + [s], after);
    FilterAppend(Kept(spec), before, [s]);
    FilterNone(Kept(spec), [s]);
    assert Filter(Kept(spec), before) + [] == Filter(Kept(spec), before);
  }

  /** Steps of an ignored type change nothing, wherever they are put. */
  lemma IgnoredStepsAreInvisible(
    a: Trace, t: Trace, before: seq<Step>, s: Step, after: seq<Step>, spec: Spec, dumps: J.Json -> string)
    requires t.steps == before + after && s.eventType in spec.ignored
    ensures Issues(a, t.(steps := before + [s] + after), spec, dumps) == Issues(a, t, spec, dumps)
  {
    hide Filtered, FieldIssues, OrderedIssues, BagIssues;
    FilteredIgnores(before, s, after, spec);
  }
}
