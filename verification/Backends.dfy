/** Storage backend selection: evaluation against a requirement, the best match, and preflight. */
module Backends {
  import opened Options
  import opened Sequences
  import opened StableSort
  import opened Text

  datatype Spec = Spec(
    role: string, kind: string, name: string, namespace: string, durable: bool, inspectable: bool,
    queryable: bool, transactional: bool, coreBuiltin: bool, capabilities: seq<string>)

  /** Empty lists and names, and None, ask for nothing. */
  datatype Requirement = Requirement(
    role: string, allowedKinds: seq<string>, requiredCapabilities: seq<string>, namespace: string,
    durable: Option<bool>, queryable: Option<bool>, transactional: Option<bool>, inspectable: Option<bool>,
    allowExternal: bool)

  datatype Reason =
    | KindNotAllowed | NamespaceMismatch | DurableMismatch | QueryableMismatch | TransactionalMismatch
    | InspectableMismatch | ExternalNotAllowed | MissingCapabilities

  /** A candidate with its reasons against; none of them means it is matched. */
  datatype Candidate = Candidate(backend: Spec, reasons: seq<Reason>, missing: seq<string>, score: nat) {
    predicate Matched() {
      reasons == []
    }
  }

  // ----- what a requirement asks for

  predicate Agrees(wanted: Option<bool>, actual: bool) {
    wanted.Some? ==> actual == wanted.value
  }

  /** The backend is everything the requirement asks for, apart from its role. */
  predicate Satisfies(b: Spec, r: Requirement) {
    && (r.allowedKinds != [] ==> b.kind in r.allowedKinds)
    && (r.namespace != "" ==> b.namespace == r.namespace)
    && Agrees(r.durable, b.durable) && Agrees(r.queryable, b.queryable)
    && Agrees(r.transactional, b.transactional) && Agrees(r.inspectable, b.inspectable)
    && (r.allowExternal || b.coreBuiltin)
    && (forall c | c in r.requiredCapabilities :: c in b.capabilities)
  }

  function Points(wanted: Option<bool>): nat {
    if wanted.Some? then 2 else 0
  }

  /** The score of any backend that satisfies the requirement: it depends on the requirement alone. */
  function FullScore(r: Requirement): nat {
    4 + (if r.namespace != "" then 3 else 0)
    + Points(r.durable) + Points(r.queryable) + Points(r.transactional) + Points(r.inspectable)
    + |r.requiredCapabilities|
  }

  function NotIn(have: seq<string>): string -> bool {
    (c: string) => c !in have
  }

  /** One of the four yes-or-no tests of `_evaluate_backend`, which differ only in the field. */
  method TestFlag(wanted: Option<bool>, actual: bool, reason: Reason, reasons: seq<Reason>, score: nat)
    returns (reasons': seq<Reason>, score': nat)
    ensures reasons' == reasons + Against(!Agrees(wanted, actual), reason)
    ensures score' == score + Gain(!Agrees(wanted, actual), Points(wanted))
  {
    reasons', score' := reasons, score;
    if wanted.Some? && actual != wanted.value {
      reasons' := reasons' + [reason];
    } else if wanted.Some? {
      score' := score' + 2;
    }
  }

  /** The kind and the namespace tests. */
  method TestPlace(b: Spec, r: Requirement) returns (reasons: seq<Reason>, score: nat)
    ensures reasons == PlaceReasons(b, r) && score == PlaceScore(b, r)
  {
    reasons, score := [], 0;
    if r.allowedKinds != [] && b.kind !in r.allowedKinds {
      reasons := reasons + [KindNotAllowed];
    } else {
      score := score + 4;
    }
    if r.namespace != "" && b.namespace != r.namespace {
      reasons := reasons + [NamespaceMismatch];
    } else if r.namespace != "" {
      score := score + 3;
    }
  }

  /** `_evaluate_backend` */
  method Evaluate(b: Spec, r: Requirement) returns (c: Candidate)
    ensures c == Evaluated(b, r)
    ensures c.Matched() <==> Satisfies(b, r)
    ensures c.score <= FullScore(r) && (c.Matched() ==> c.score == FullScore(r))
  {
    MatchedMeansSatisfied(b, r);
    hide Satisfies, FullScore;
    hide Agrees, Missing, Points, PlaceReasons, PlaceScore, FlagReasons, FlagScore;
    var reasons, score := TestPlace(b, r);
    reasons, score := TestFlags(b, r, reasons, score);
    if !r.allowExternal && !b.coreBuiltin {
      reasons := reasons + [ExternalNotAllowed];
    }
    var missing := Missing(b, r);
    if missing != [] {
      reasons := reasons + [MissingCapabilities];
    } else {
      score := score + |r.requiredCapabilities|;
    }
    c := Candidate(b, reasons, missing, score);
  }

  method TestFlags(
    b: Spec, r: Requirement, reasons: seq<Reason>, score: nat) returns (reasons': seq<Reason>, score': nat)
    ensures reasons' == reasons + FlagReasons(b, r) && score' == score + FlagScore(b, r)
  {
    hide Agrees, Points, Against, Gain;
    reasons', score' := TestFlag(r.durable, b.durable, DurableMismatch, reasons, score);
    reasons', score' := TestFlag(r.queryable, b.queryable, QueryableMismatch, reasons', score');
    reasons', score' := TestFlag(r.transactional, b.transactional, TransactionalMismatch, reasons', score');
    reasons', score' := TestFlag(r.inspectable, b.inspectable, InspectableMismatch, reasons', score');
  }

  function Against(failed: bool, reason: Reason): seq<Reason> {
    if failed then [reason] else []
  }

  function Gain(failed: bool, points: nat): nat {
    if failed then 0 else points
  }

  function Missing(b: Spec, r: Requirement): seq<string> {
    Filter(NotIn(b.capabilities), r.requiredCapabilities)
  }

  function PlaceReasons(b: Spec, r: Requirement): seq<Reason> {
    Against(r.allowedKinds != [] && b.kind !in r.allowedKinds, KindNotAllowed)
    + Against(r.namespace != "" && b.namespace != r.namespace, NamespaceMismatch)
  }

  function PlaceScore(b: Spec, r: Requirement): nat {
    Gain(r.allowedKinds != [] && b.kind !in r.allowedKinds, 4)
    + Gain(r.namespace == "" || b.namespace != r.namespace, 3)
  }

  function FlagReasons(b: Spec, r: Requirement): seq<Reason> {
    Against(!Agrees(r.durable, b.durable), DurableMismatch)
    + Against(!Agrees(r.queryable, b.queryable), QueryableMismatch)
    + Against(!Agrees(r.transactional, b.transactional), TransactionalMismatch)
    + Against(!Agrees(r.inspectable, b.inspectable), InspectableMismatch)
  }

  function FlagScore(b: Spec, r: Requirement): nat {
    Gain(!Agrees(r.durable, b.durable), Points(r.durable))
    + Gain(!Agrees(r.queryable, b.queryable), Points(r.queryable))
    + Gain(!Agrees(r.transactional, b.transactional), Points(r.transactional))
    + Gain(!Agrees(r.inspectable, b.inspectable), Points(r.inspectable))
  }

  /** The candidate: one reason for each part that fails, points for each part that was asked for and holds. */
  function Evaluated(b: Spec, r: Requirement): Candidate {
    var missing := Missing(b, r);
    Candidate(
      b,
      PlaceReasons(b, r) + FlagReasons(b, r)
      + Against(!r.allowExternal && !b.coreBuiltin, ExternalNotAllowed) + Against(missing != [], MissingCapabilities),
      missing,
      PlaceScore(b, r) + FlagScore(b, r) + Gain(missing != [], |r.requiredCapabilities|))
  }

  /** A candidate is matched exactly when it satisfies the requirement, and then has the full score. */
  lemma MatchedMeansSatisfied(b: Spec, r: Requirement)
    ensures Evaluated(b, r).Matched() <==> Satisfies(b, r)
    ensures Evaluated(b, r).Matched() ==> Evaluated(b, r).score == FullScore(r)
    ensures Evaluated(b, r).score <= FullScore(r)
  {
    var missing := Missing(b, r);
    if missing != [] {
      assert missing[0] in missing;
    }
    assert missing == [] <==> forall c | c in r.requiredCapabilities :: c in b.capabilities;
  }

  /** What can stand between a backend and a requirement, told from their fields. */
  ghost predicate Objects(b: Spec, r: Requirement, reason: Reason) {
    match reason
    case KindNotAllowed => r.allowedKinds != [] && forall i :: 0 <= i < |r.allowedKinds| ==> r.allowedKinds[i] != b.kind
    case NamespaceMismatch => r.namespace != "" && r.namespace != b.namespace
    case DurableMismatch => r.durable == Some(!b.durable)
    case QueryableMismatch => r.queryable == Some(!b.queryable)
    case TransactionalMismatch => r.transactional == Some(!b.transactional)
    case InspectableMismatch => r.inspectable == Some(!b.inspectable)
    case ExternalNotAllowed => !r.allowExternal && !b.coreBuiltin
    case MissingCapabilities =>
      exists i :: 0 <= i < |r.requiredCapabilities| && r.requiredCapabilities[i] !in b.capabilities
  }

  /** Exactly the reasons that apply are given, and a backend satisfies a requirement when none does. */
  lemma ReasonsMean(b: Spec, r: Requirement, reason: Reason)
    ensures reason in Evaluated(b, r).reasons <==> Objects(b, r, reason)
    ensures Satisfies(b, r) <==> forall other :: !Objects(b, r, other)
    ensures forall c :: c in Evaluated(b, r).missing <==> c in r.requiredCapabilities && c !in b.capabilities
  {
    MissingMeans(b, r);
    SatisfiesMeans(b, r);
    PlaceReasonsMean(b, r, reason);
    FlagReasonsMean(b, r, reason);
    hide Missing, Satisfies, PlaceReasons, FlagReasons, PlaceScore, FlagScore, Against;
    AgainstMeans(!r.allowExternal && !b.coreBuiltin, ExternalNotAllowed, reason);
    AgainstMeans(Missing(b, r) != [], MissingCapabilities, reason);
  }

  lemma AgainstMeans(failed: bool, reason: Reason, other: Reason)
    ensures other in Against(failed, reason) <==> failed && other == reason
  {
  }

  lemma PlaceReasonsMean(b: Spec, r: Requirement, reason: Reason)
    ensures reason in PlaceReasons(b, r) <==>
            (reason.KindNotAllowed? || reason.NamespaceMismatch?) && Objects(b, r, reason)
  {
    hide Against;
    AgainstMeans(r.allowedKinds != [] && b.kind !in r.allowedKinds, KindNotAllowed, reason);
    AgainstMeans(r.namespace != "" && b.namespace != r.namespace, NamespaceMismatch, reason);
  }

  lemma FlagReasonsMean(b: Spec, r: Requirement, reason: Reason)
    ensures reason in FlagReasons(b, r) <==>
            && (reason.DurableMismatch? || reason.QueryableMismatch? || reason.TransactionalMismatch?
                || reason.InspectableMismatch?)
            && Objects(b, r, reason)
  {
    hide Against;
    AgainstMeans(!Agrees(r.durable, b.durable), DurableMismatch, reason);
    AgainstMeans(!Agrees(r.queryable, b.queryable), QueryableMismatch, reason);
    AgainstMeans(!Agrees(r.transactional, b.transactional), TransactionalMismatch, reason);
    AgainstMeans(!Agrees(r.inspectable, b.inspectable), InspectableMismatch, reason);
  }

  lemma MissingMeans(b: Spec, r: Requirement)
    ensures Missing(b, r) != [] <==> Objects(b, r, MissingCapabilities)
    ensures forall c :: c in Missing(b, r) <==> c in r.requiredCapabilities && c !in b.capabilities
  {
    var missing := Missing(b, r);
    assert forall c :: c in missing <==> c in r.requiredCapabilities && c !in b.capabilities;
    if missing != [] {
      assert missing[0] in missing;
      var i :| 0 <= i < |r.requiredCapabilities| && r.requiredCapabilities[i] == missing[0];
    }
  }

  lemma SatisfiesMeans(b: Spec, r: Requirement)
    ensures Satisfies(b, r) <==> forall other :: !Objects(b, r, other)
  {
    if forall other :: !Objects(b, r, other) {
      assert !Objects(b, r, KindNotAllowed) && !Objects(b, r, NamespaceMismatch) && !Objects(b, r, DurableMismatch);
      assert !Objects(b, r, QueryableMismatch) && !Objects(b, r, TransactionalMismatch);
      assert !Objects(b, r, InspectableMismatch) && !Objects(b, r, ExternalNotAllowed);
      assert !Objects(b, r, MissingCapabilities);
    }
  }

  /** Points for what is asked for and not objected to: 4 for the kind, 3, 2 for each flag, 1 for each capability. */
  lemma ScoreMeans(b: Spec, r: Requirement)
    ensures var rs := Evaluated(b, r).reasons;
            Evaluated(b, r).score ==
            (if KindNotAllowed in rs then 0 else 4)
            + (if r.namespace == "" || NamespaceMismatch in rs then 0 else 3)
            + (if r.durable == Some(b.durable) then 2 else 0) + (if r.queryable == Some(b.queryable) then 2 else 0)
            + (if r.transactional == Some(b.transactional) then 2 else 0)
            + (if r.inspectable == Some(b.inspectable) then 2 else 0)
            + (if MissingCapabilities in rs then 0 else |r.requiredCapabilities|)
  {
    ReasonsMean(b, r, KindNotAllowed);
    ReasonsMean(b, r, NamespaceMismatch);
    ReasonsMean(b, r, MissingCapabilities);
    MissingMeans(b, r);
    hide Missing, Satisfies, FlagReasons, PlaceReasons, FlagScore, PlaceScore;
    PlaceScoreMeans(b, r);
    FlagScoreMeans(b, r);
  }

  lemma PlaceScoreMeans(b: Spec, r: Requirement)
    ensures PlaceScore(b, r) ==
            (if Objects(b, r, KindNotAllowed) then 0 else 4)
            + (if r.namespace == "" || Objects(b, r, NamespaceMismatch) then 0 else 3)
  {
  }

  lemma FlagScoreMeans(b: Spec, r: Requirement)
    ensures FlagScore(b, r) ==
            (if r.durable == Some(b.durable) then 2 else 0) + (if r.queryable == Some(b.queryable) then 2 else 0)
            + (if r.transactional == Some(b.transactional) then 2 else 0)
            + (if r.inspectable == Some(b.inspectable) then 2 else 0)
  {
  }

  // ----- the best match

  /** The key `(score, durable, transactional, queryable, name)`, larger keys first. */
  predicate Outranks(a: Candidate, b: Candidate) {
    if a.score != b.score then a.score > b.score
    else if a.backend.durable != b.backend.durable then a.backend.durable
    else if a.backend.transactional != b.backend.transactional then a.backend.transactional
    else if a.backend.queryable != b.backend.queryable then a.backend.queryable
    else StrLeq(b.backend.name, a.backend.name)
  }

  function Preference(): (Candidate, Candidate) -> bool {
    (a: Candidate, b: Candidate) => Outranks(a, b)
  }

  function IsMatched(): Candidate -> bool {
    (c: Candidate) => c.Matched()
  }

  /** `_select_best_candidate` */
  function SelectBest(cs: seq<Candidate>): Option<Candidate> {
    var sorted := Sort(Preference(), Filter(IsMatched(), cs));
    if sorted == [] then None else Some(sorted[0])
  }

  lemma PreferenceIsTotal()
    ensures TotalPreorder(Preference())
  {
    StrLeqOrders();
    var leq := Preference();
    forall x, y ensures leq(x, y) || leq(y, x) {
    }
    forall x, y, z | leq(x, y) && leq(y, z) ensures leq(x, z) {
    }
  }

  /** The selected candidate is the first-registered best among the matched ones, and there is one if any matched. */
  lemma SelectsFirstBest(cs: seq<Candidate>)
    ensures var matched := Filter(IsMatched(), cs);
            match SelectBest(cs)
            case None => matched == []
            case Some(c) => exists i: nat :: FirstLeast(Preference(), matched, i) && matched[i] == c
  {
    var matched := Filter(IsMatched(), cs);
    PreferenceIsTotal();
    if matched != [] {
      var i := SortStartsWithFirstLeast(Preference(), matched);
    }
  }

  // ----- the catalog

  function OfRole(role: string): Spec -> bool {
    (b: Spec) => b.role == role
  }

  function EvaluatedAll(bs: seq<Spec>, r: Requirement): seq<Candidate> {
    if bs == [] then [] else [Evaluated(bs[0], r)] + EvaluatedAll(bs[1..], r)
  }

  datatype Selection = Selection(requirement: Requirement, candidates: seq<Candidate>, selected: Option<Candidate>) {
    predicate Ready() {
      selected.Some? && selected.value.Matched()
    }
  }

  function Select(backends: seq<Spec>, r: Requirement): Selection {
    var candidates := EvaluatedAll(Filter(OfRole(r.role), backends), r);
    Selection(r, candidates, SelectBest(candidates))
  }

  function Preflight(backends: seq<Spec>, rs: seq<Requirement>): (ss: seq<Selection>)
    ensures |ss| == |rs|
  {
    if rs == [] then [] else [Select(backends, rs[0])] + Preflight(backends, rs[1..])
  }

  /** `StorageBackendPreflightReport.ready` and `blocking_count` */
  predicate ReportReady(ss: seq<Selection>) {
    ss != [] && forall s | s in ss :: s.Ready()
  }

  function BlockingCount(ss: seq<Selection>): nat {
    if ss == [] then 0 else (if ss[0].Ready() then 0 else 1) + BlockingCount(ss[1..])
  }

  class Catalog {
    var backends: seq<Spec>

    constructor ()
      ensures backends == []
    {
      backends := [];
    }

    method Register(b: Spec)
      modifies this
      ensures backends == old(backends) + [b]
      ensures forall rs :: ReportReady(Preflight(old(backends), rs)) ==> ReportReady(Preflight(backends, rs))
    {
      forall rs | ReportReady(Preflight(backends, rs)) ensures ReportReady(Preflight(backends + [b], rs)) {
        RegisteringKeepsReady(backends, [b], rs);
      }
      backends := backends + [b];
    }

    method Check(rs: seq<Requirement>) returns (ss: seq<Selection>)
      ensures ss == Preflight(backends, rs)
      ensures ReportReady(ss) <==>
              rs != [] && forall r | r in rs :: exists b :: b in backends && b.role == r.role && Satisfies(b, r)
    {
      ss := Preflight(backends, rs);
      PreflightReadyMeans(backends, rs);
    }
  }

  lemma {:induction false} EvaluatedMembers(bs: seq<Spec>, r: Requirement)
    ensures forall c :: c in EvaluatedAll(bs, r) <==> exists b :: b in bs && c == Evaluated(b, r)
  {
    hide Evaluated;
    if bs != [] {
      EvaluatedMembers(bs[1..], r);
      forall c ensures c in EvaluatedAll(bs, r) <==> exists b :: b in bs && c == Evaluated(b, r) {
        if c == Evaluated(bs[0], r) {
          assert bs[0] in bs;
        }
        if b :| b in bs && c == Evaluated(b, r) {
          assert b == bs[0] || b in bs[1..];
        }
      }
    }
  }

  /** A selection is ready exactly when some registered backend of the role satisfies the requirement. */
  lemma SelectReadyMeans(backends: seq<Spec>, r: Requirement)
    ensures Select(backends, r).Ready() <==> exists b :: b in backends && b.role == r.role && Satisfies(b, r)
  {
    hide Evaluated, Satisfies, Sort;
    var ofRole := Filter(OfRole(r.role), backends);
    var cs := EvaluatedAll(ofRole, r);
    EvaluatedMembers(ofRole, r);
    SelectsFirstBest(cs);
    var matched := Filter(IsMatched(), cs);
    if Select(backends, r).Ready() {
      var c := SelectBest(cs).value;
      assert c in matched;
      var b :| b in ofRole && c == Evaluated(b, r);
      MatchedMeansSatisfied(b, r);
    }
    if b :| b in backends && b.role == r.role && Satisfies(b, r) {
      MatchedMeansSatisfied(b, r);
      assert b in ofRole && Evaluated(b, r) in cs;
      assert Evaluated(b, r) in matched;
      var c := SelectBest(cs).value;
      assert c in matched;
    }
  }

  /** `a` is no better than `b` in the first of these respects in which they differ. */
  predicate RanksAtMost(a: Spec, b: Spec) {
    && (a.durable ==> b.durable)
    && (a.durable == b.durable ==>
          && (a.transactional ==> b.transactional)
          && (a.transactional == b.transactional ==>
                && (a.queryable ==> b.queryable)
                && (a.queryable == b.queryable ==> StrLeq(a.name, b.name))))
  }

  /**
    The selected backend satisfies the requirement and is the lexicographic maximum of the satisfying
    backends of its role, by durability, transactions, queries and name; scores never decide.
    */
  lemma SelectedIsMaximum(backends: seq<Spec>, r: Requirement, b: Spec)
    requires b in backends && b.role == r.role && Satisfies(b, r)
    ensures var s := Select(backends, r);
            && s.selected.Some? && s.selected.value.backend in backends
            && s.selected.value.backend.role == r.role && Satisfies(s.selected.value.backend, r)
            && RanksAtMost(b, s.selected.value.backend)
  {
    hide Evaluated, Satisfies, Sort;
    var ofRole := Filter(OfRole(r.role), backends);
    var cs := EvaluatedAll(ofRole, r);
    var matched := Filter(IsMatched(), cs);
    EvaluatedMembers(ofRole, r);
    SelectsFirstBest(cs);
    MatchedMeansSatisfied(b, r);
    var rival := Evaluated(b, r);
    assert b in ofRole && rival in cs;
    assert rival in matched;
    var c := SelectBest(cs).value;
    var i: nat :| FirstLeast(Preference(), matched, i) && matched[i] == c;
    var j :| 0 <= j < |matched| && matched[j] == rival;
    assert c in matched;
    var best :| best in ofRole && c == Evaluated(best, r);
    MatchedMeansSatisfied(best, r);
    EvaluatedBackend(b, r);
    EvaluatedBackend(best, r);
    FirstLeastBeats(matched, i, j);
    BeatenRanksBelow(c, rival);
  }

  lemma EvaluatedBackend(b: Spec, r: Requirement)
    ensures Evaluated(b, r).backend == b
  {
  }

  lemma FirstLeastBeats(cs: seq<Candidate>, i: nat, j: nat)
    requires FirstLeast(Preference(), cs, i) && j < |cs|
    ensures Outranks(cs[i], cs[j])
  {
    hide Outranks;
    PreferenceIsTotal();
    var leq, a, b := Preference(), cs[i], cs[j];
    assert leq(a, b) || leq(b, a);
  }

  lemma BeatenRanksBelow(c: Candidate, d: Candidate)
    requires Outranks(c, d) && c.score == d.score
    ensures RanksAtMost(d.backend, c.backend)
  {
  }

  lemma {:induction false} PreflightSelects(backends: seq<Spec>, rs: seq<Requirement>)
    ensures forall s :: s in Preflight(backends, rs) <==> exists r :: r in rs && s == Select(backends, r)
  {
    hide Select;
    if rs != [] {
      PreflightSelects(backends, rs[1..]);
      forall s ensures s in Preflight(backends, rs) <==> exists r :: r in rs && s == Select(backends, r) {
        if s == Select(backends, rs[0]) {
          assert rs[0] in rs;
        }
        if r :| r in rs && s == Select(backends, r) {
          assert r == rs[0] || r in rs[1..];
        }
      }
    }
  }

  /** Preflight is ready exactly when something is required and every requirement is satisfied by some backend. */
  lemma PreflightReadyMeans(backends: seq<Spec>, rs: seq<Requirement>)
    ensures ReportReady(Preflight(backends, rs)) <==>
            rs != [] && forall r | r in rs :: exists b :: b in backends && b.role == r.role && Satisfies(b, r)
    ensures BlockingCount(Preflight(backends, rs)) == 0 <==> forall s | s in Preflight(backends, rs) :: s.Ready()
  {
    hide Select, Satisfies;
    PreflightSelects(backends, rs);
    NoneBlocking(Preflight(backends, rs));
    forall r | r in rs
      ensures Select(backends, r).Ready() <==> exists b :: b in backends && b.role == r.role && Satisfies(b, r)
    {
      SelectReadyMeans(backends, r);
    }
    var ss := Preflight(backends, rs);
    assert forall r | r in rs :: Select(backends, r) in ss;
  }

  ghost predicate Blocked(backends: seq<Spec>, r: Requirement) {
    forall b | b in backends && b.role == r.role :: !Satisfies(b, r)
  }

  function Occurs(hit: bool): nat {
    if hit then 1 else 0
  }

  ghost function BlockedAmong(backends: seq<Spec>, rs: seq<Requirement>): nat {
    if rs == [] then 0 else Occurs(Blocked(backends, rs[0])) + BlockedAmong(backends, rs[1..])
  }

  /** The blocking count is the number of requirements that no registered backend of their role satisfies. */
  lemma {:induction false} BlockingMeans(backends: seq<Spec>, rs: seq<Requirement>)
    ensures BlockingCount(Preflight(backends, rs)) == BlockedAmong(backends, rs)
  {
    hide Select, Satisfies;
    if rs != [] {
      SelectReadyMeans(backends, rs[0]);
      BlockingMeans(backends, rs[1..]);
      var rest := Preflight(backends, rs[1..]);
      assert ([Select(backends, rs[0])] + rest)[1..] == rest;
    }
  }

  lemma {:induction false} NoneBlocking(ss: seq<Selection>)
    ensures BlockingCount(ss) == 0 <==> forall s | s in ss :: s.Ready()
  {
    if ss != [] {
      NoneBlocking(ss[1..]);
      assert ss == [ss[0]] + ss[1..];
    }
  }

  /** Registering more backends never blocks what was ready. */
  lemma RegisteringKeepsReady(backends: seq<Spec>, more: seq<Spec>, rs: seq<Requirement>)
    requires ReportReady(Preflight(backends, rs))
    ensures ReportReady(Preflight(backends + more, rs))
  {
    hide Preflight, ReportReady, Satisfies;
    PreflightReadyMeans(backends, rs);
    PreflightReadyMeans(backends + more, rs);
    forall r | r in rs ensures exists b :: b in backends + more && b.role == r.role && Satisfies(b, r) {
      var b :| b in backends && b.role == r.role && Satisfies(b, r);
      assert b in backends + more;
    }
  }
}
