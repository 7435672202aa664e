/** Human approvals: the record life cycle, the in-memory queue, and the grants a resumed run gets. */
module Approvals {
  import opened Options
  import opened Sequences
  import opened StableSort
  import opened Text
  import J = Json

  datatype Status = Pending | Approved | Rejected | Cancelled
  type Verdict = s: Status | s != Pending witness Approved

  datatype Request = Request(reason: string, subject: string, metadata: J.Object)

  datatype Decision = Decision(status: Verdict, reason: string, actor: string, decidedAt: string, metadata: J.Object)

  datatype Record = Record(
    id: string, request: Request, status: Status, runId: string, turnId: string, createdAt: string,
    decision: Option<Decision>, metadata: J.Object)

  datatype StoreError = UnknownApproval(id: string) | AlreadyResolved(id: string)

  // ----- a dictionary of records in insertion order

  function Find(rs: seq<Record>, id: string): (r: Option<Record>)
    ensures r.Some? ==> r.value in rs && r.value.id == id
  {
    if rs == [] then None else if rs[0].id == id then Some(rs[0]) else Find(rs[1..], id)
  }

  /** `records[r.approval_id] = r`: an existing key keeps its place. */
  function Put(rs: seq<Record>, r: Record): seq<Record> {
    if rs == [] then [r] else if rs[0].id == r.id then [r] + rs[1..] else [rs[0]] + Put(rs[1..], r)
  }

  lemma {:induction false} PutThenFind(rs: seq<Record>, r: Record, id: string)
    ensures Find(Put(rs, r), id) == if id == r.id then Some(r) else Find(rs, id)
  {
    if rs != [] && rs[0].id != r.id {
      PutThenFind(rs[1..], r, id);
    }
  }

  function IdOf(): Record -> string {
    (r: Record) => r.id
  }

  ghost predicate UniqueIds(rs: seq<Record>) {
    DistinctBy(IdOf(), rs)
  }

  lemma {:induction false} PutAt(rs: seq<Record>, r: Record)
    ensures var p := Put(rs, r);
            if Find(rs, r.id).None? then p == rs + [r]
            else |p| == |rs| && exists i :: 0 <= i < |rs| && rs[i].id == r.id && p == rs[i := r]
                                                && Find(rs, r.id) == Some(rs[i])
  {
    if rs != [] {
      if rs[0].id == r.id {
        assert Put(rs, r) == rs[0 := r];
      } else {
        PutAt(rs[1..], r);
        if Find(rs, r.id).Some? {
          var i :| 0 <= i < |rs[1..]| && rs[1..][i].id == r.id && Put(rs[1..], r) == rs[1..][i := r]
                   && Find(rs[1..], r.id) == Some(rs[1..][i]);
          assert rs[i + 1].id == r.id && Put(rs, r) == rs[i + 1 := r];
        }
      }
    }
  }

  lemma {:induction false} FindNone(rs: seq<Record>, id: string)
    ensures Find(rs, id).None? <==> forall r | r in rs :: r.id != id
  {
    if rs != [] {
      FindNone(rs[1..], id);
    }
  }

  lemma {:induction false} FindUnique(rs: seq<Record>, r: Record)
    requires UniqueIds(rs)
    ensures Find(rs, r.id) == Some(r) <==> r in rs
  {
    if rs != [] {
      FindUnique(rs[1..], r);
      assert forall j :: 1 <= j < |rs| ==> rs[0].id != rs[j].id;
    }
  }

  lemma PutKeepsUnique(rs: seq<Record>, r: Record)
    requires UniqueIds(rs)
    ensures UniqueIds(Put(rs, r))
  {
    PutAt(rs, r);
    FindNone(rs, r.id);
  }

  // ----- what the store operations do

  function NewRecord(
    id: string, request: Request, runId: string, turnId: string, createdAt: string, metadata: J.Object): Record {
    Record(id, request, Pending, runId, turnId, createdAt, None, metadata)
  }

  function Resolve(r: Record, d: Decision): Record {
    r.(status := d.status, decision := Some(d))
  }

  datatype Action = Submit(record: Record) | Decide(id: string, decision: Decision)

  /** Why a decide fails; None when it goes through. */
  function Refusal(rs: seq<Record>, id: string): Option<StoreError> {
    match Find(rs, id)
    case None => Some(UnknownApproval(id))
    case Some(r) => if r.status != Pending then Some(AlreadyResolved(id)) else None
  }

  /** An id is unknown when no record has it, and resolved when its record has a decision. */
  lemma RefusalMeans(rs: seq<Record>, id: string)
    requires WellFormed(rs)
    ensures Refusal(rs, id) == Some(UnknownApproval(id)) <==> forall r | r in rs :: r.id != id
    ensures Refusal(rs, id) == Some(AlreadyResolved(id)) <==> exists r :: r in rs && r.id == id && r.decision.Some?
    ensures Refusal(rs, id) == None <==> exists r :: r in rs && r.id == id && r.decision.None?
  {
    FindNone(rs, id);
    if r :| r in rs && r.id == id {
      FindUnique(rs, r);
      assert Coherent(r);
    }
  }

  function Apply(rs: seq<Record>, a: Action): seq<Record> {
    match a
    case Submit(r) => Put(rs, r)
    case Decide(id, d) => if Refusal(rs, id).Some? then rs else Put(rs, Resolve(Find(rs, id).value, d))
  }

  function Run(rs: seq<Record>, acts: seq<Action>): seq<Record> {
    if acts == [] then rs else Apply(Run(rs, acts[..|acts| - 1]), acts[|acts| - 1])
  }

  /** A pending record has no decision, and a decided one carries its decision's status. */
  predicate Coherent(r: Record) {
    match r.decision
    case None => r.status == Pending
    case Some(d) => r.status == d.status
  }

  ghost predicate WellFormed(rs: seq<Record>) {
    UniqueIds(rs) && forall r | r in rs :: Coherent(r)
  }

  function CreatedBefore(): (Record, Record) -> bool {
    (a: Record, b: Record) => StrLeq(a.createdAt, b.createdAt)
  }

  /** `records()`: in order of creation. */
  function Listed(rs: seq<Record>): seq<Record> {
    Sort(CreatedBefore(), rs)
  }

  class InMemoryApprovalStore {
    /** The dictionary `_records`, in insertion order. */
    var records: seq<Record>

    ghost predicate Valid()
      reads this
    {
      WellFormed(records)
    }

    constructor (initial: seq<Record>)
      requires forall r | r in initial :: Coherent(r)
      ensures Valid()
      ensures UniqueIds(initial) ==> records == initial
    {
      var rs: seq<Record> := [];
      var i := 0;
      while i < |initial|
        invariant 0 <= i <= |initial| && WellFormed(rs)
        invariant UniqueIds(initial) ==> rs == initial[..i]
      {
        PutKeepsUnique(rs, initial[i]);
        PutAt(rs, initial[i]);
        FindNone(rs, initial[i].id);
        if UniqueIds(initial) {
          assert forall k :: 0 <= k < i ==> initial[k].id != initial[i].id;
        }
        rs := Put(rs, initial[i]);
        i := i + 1;
      }
      records := rs;
    }

    /** The fresh id and the clock's reading are the caller's. */
    method Submit(id: string, request: Request, runId: string, turnId: string, now: string, metadata: J.Object)
      returns (record: Record)
      requires Valid()
      modifies this
      ensures Valid()
      ensures record == NewRecord(id, request, runId, turnId, now, metadata)
      ensures record.id == id && record.request == request && record.runId == runId && record.turnId == turnId
      ensures record.createdAt == now && record.metadata == metadata
      ensures record.status == Pending && record.decision == None
      ensures records == Apply(old(records), Action.Submit(record))
    {
      record := Record(id, request, Pending, runId, turnId, now, None, metadata);
      PutKeepsUnique(records, record);
      PutAt(records, record);
      records := Put(records, record);
    }

    method Decide(id: string, decision: Decision) returns (r: Result<Record, StoreError>)
      requires Valid()
      modifies this
      ensures Valid()
      ensures records == Apply(old(records), Action.Decide(id, decision))
      ensures match Refusal(old(records), id)
              case Some(e) => r == Err(e) && records == old(records)
              case None => r == Ok(Resolve(Find(old(records), id).value, decision))
                           && Find(records, id) == Some(r.value)
      ensures r.Ok? ==> r.value.status == decision.status && r.value.decision == Some(decision)
      ensures r.Ok? ==> exists x :: x in old(records) && x.id == id && x.decision == None
                                    && r.value.(status := x.status, decision := x.decision) == x
    {
      var found := Get(id);
      if found.None? {
        return Err(UnknownApproval(id));
      }
      if found.value.status != Pending {
        return Err(AlreadyResolved(id));
      }
      var resolved := found.value.(status := decision.status, decision := Some(decision));
      PutKeepsUnique(records, resolved);
      PutAt(records, resolved);
      PutThenFind(records, resolved, id);
      records := Put(records, resolved);
      r := Ok(resolved);
    }

    method Get(id: string) returns (r: Option<Record>)
      ensures r == Find(records, id)
    {
      r := Find(records, id);
    }

    /** `pending()`: exactly the undecided records, in order of creation. */
    method PendingRecords() returns (rs: seq<Record>)
      requires Valid()
      ensures forall r :: r in rs <==> r in records && r.decision.None?
      ensures Sorted(CreatedBefore(), rs) && multiset(rs) <= multiset(records)
      ensures forall i, j :: 0 <= i < j < |rs| ==> StrLeq(rs[i].createdAt, rs[j].createdAt)
    {
      hide Sort, StrLeq, UniqueIds;
      rs := Filter((r: Record) => r.status == Pending, Listed(records));
      NoneTwice((r: Record) => r.status == Pending, records);
      SortMembers(CreatedBefore(), records);
      CreatedBeforeIsTotal();
      SortSorts(CreatedBefore(), records);
      FilterSorted(CreatedBefore(), (r: Record) => r.status == Pending, Listed(records));
    }
  }

  /** Records are listed by their creation times, those of one time in their order in the store. */
  lemma ListedMeans(rs: seq<Record>, time: string)
    ensures multiset(Listed(rs)) == multiset(rs)
    ensures forall i, j :: 0 <= i < j < |rs| ==> StrLeq(Listed(rs)[i].createdAt, Listed(rs)[j].createdAt)
    ensures Filter((r: Record) => r.createdAt == time, Listed(rs)) == Filter((r: Record) => r.createdAt == time, rs)
  {
    var leq, p := CreatedBefore(), (r: Record) => r.createdAt == time;
    CreatedBeforeIsTotal();
    SortPermutes(leq, rs);
    SortSorts(leq, rs);
    FilterCommutesWithSort(leq, p, rs);
    StrLeqTotal(time, time);
    hide Sort, StrLeq;
    assert |multiset(Listed(rs))| == |multiset(rs)|;
    forall i, j | 0 <= i < j < |rs| ensures StrLeq(Listed(rs)[i].createdAt, Listed(rs)[j].createdAt) {
      assert leq(Listed(rs)[i], Listed(rs)[j]);
    }
    var same := Filter(p, rs);
    forall i, j | 0 <= i < j < |same| ensures leq(same[i], same[j]) {
      assert same[i] in same && same[j] in same;
    }
    SortOfSorted(leq, same);
  }

  lemma NoneTwice(p: Record -> bool, rs: seq<Record>)
    ensures multiset(Filter(p, Listed(rs))) <= multiset(rs)
  {
    SortPermutes(CreatedBefore(), rs);
    hide Sort;
    forall r ensures multiset(Filter(p, Listed(rs)))[r] <= multiset(rs)[r] {
      FilterCounts(p, Listed(rs), r);
    }
  }

  lemma CreatedBeforeIsTotal()
    ensures TotalPreorder(CreatedBefore())
  {
    StrLeqOrders();
  }

  // ----- whole runs

  /** Every submission is a pending record under an id the store does not hold yet. */
  ghost predicate Fresh(rs: seq<Record>, acts: seq<Action>) {
    acts == [] ||
    (var init, a := acts[..|acts| - 1], acts[|acts| - 1];
     Fresh(rs, init) &&
     (a.Submit? ==> Find(Run(rs, init), a.record.id).None? && a.record.status == Pending && a.record.decision.None?))
  }

  /** Whatever happens, a record is pending exactly while it has no decision. */
  lemma {:induction false} RunsStayWellFormed(rs: seq<Record>, acts: seq<Action>)
    requires WellFormed(rs) && Fresh(rs, acts)
    ensures WellFormed(Run(rs, acts))
  {
    if acts != [] {
      var before, a := Run(rs, acts[..|acts| - 1]), acts[|acts| - 1];
      RunsStayWellFormed(rs, acts[..|acts| - 1]);
      match a {
        case Submit(r) =>
          PutKeepsUnique(before, r);
          PutAt(before, r);
        case Decide(id, d) =>
          if Refusal(before, id).None? {
            var r := Resolve(Find(before, id).value, d);
            PutKeepsUnique(before, r);
            PutAt(before, r);
          }
      }
    }
  }

  /** The first decision on this id, if any. */
  function FirstDecision(acts: seq<Action>, id: string): Option<Decision> {
    if acts == [] then None
    else
      var earlier, a := FirstDecision(acts[..|acts| - 1], id), acts[|acts| - 1];
      if earlier.Some? then earlier else if a.Decide? && a.id == id then Some(a.decision) else None
  }

  /** What becomes of a record when d is the first decision on it. */
  function Fate(r: Record, d: Option<Decision>): Record {
    if r.status == Pending && d.Some? then Resolve(r, d.value) else r
  }

  /** The first decision on a pending record settles it for good; later ones change nothing. */
  lemma {:induction false} FirstDecisionWins(rs: seq<Record>, acts: seq<Action>, id: string)
    requires WellFormed(rs) && Fresh(rs, acts) && Find(rs, id).Some?
    ensures Find(Run(rs, acts), id) == Some(Fate(Find(rs, id).value, FirstDecision(acts, id)))
  {
    if acts != [] {
      var init, a := acts[..|acts| - 1], acts[|acts| - 1];
      var before := Run(rs, init);
      FirstDecisionWins(rs, init, id);
      match a {
        case Submit(r) => PutThenFind(before, r, id);
        case Decide(other, d) =>
          if Refusal(before, other).None? {
            PutThenFind(before, Resolve(Find(before, other).value, d), id);
          }
      }
    }
  }

  lemma {:induction false} RunAppend(rs: seq<Record>, xs: seq<Action>, ys: seq<Action>)
    ensures Run(rs, xs + ys) == Run(Run(rs, xs), ys)
    ensures Fresh(rs, xs + ys) ==> Fresh(rs, xs) && Fresh(Run(rs, xs), ys)
  {
    hide Apply;
    if ys == [] {
      assert xs + ys == xs;
    } else {
      assert (xs + ys)[..|xs + ys| - 1] == xs + ys[..|ys| - 1];
      RunAppend(rs, xs, ys[..|ys| - 1]);
    }
  }

  /** A submitted record is in the store ever after, decided by the first decision behind its submission. */
  lemma SubmittedFate(rs: seq<Record>, acts: seq<Action>, i: nat)
    requires WellFormed(rs) && Fresh(rs, acts) && i < |acts| && acts[i].Submit?
    ensures Find(Run(rs, acts), acts[i].record.id)
            == Some(Fate(acts[i].record, FirstDecision(acts[i + 1..], acts[i].record.id)))
  {
    var head, tail := acts[..i + 1], acts[i + 1..];
    var r := acts[i].record;
    assert acts == head + tail;
    RunAppend(rs, head, tail);
    assert head[..|head| - 1] == acts[..i];
    RunsStayWellFormed(rs, head);
    PutThenFind(Run(rs, acts[..i]), r, r.id);
    FirstDecisionWins(Run(rs, head), tail, r.id);
  }

  /** Nothing else gets in: a stored id was there before or was submitted. */
  lemma {:induction false} NothingElseStored(rs: seq<Record>, acts: seq<Action>, id: string)
    requires Find(Run(rs, acts), id).Some?
    ensures Find(rs, id).Some? || exists i :: 0 <= i < |acts| && acts[i].Submit? && acts[i].record.id == id
  {
    if acts != [] {
      var init, a := acts[..|acts| - 1], acts[|acts| - 1];
      var before := Run(rs, init);
      match a {
        case Submit(r) => PutThenFind(before, r, id);
        case Decide(other, d) =>
          if Refusal(before, other).None? {
            PutThenFind(before, Resolve(Find(before, other).value, d), id);
          }
      }
      if Find(before, id).Some? {
        NothingElseStored(rs, init, id);
        if Find(rs, id).None? {
          var i :| 0 <= i < |init| && init[i].Submit? && init[i].record.id == id;
          assert acts[i] == init[i];
        }
      } else {
        assert acts[|acts| - 1].Submit?;
      }
    }
  }

  function IsPending(): Record -> bool {
    (r: Record) => r.status == Pending
  }

  function PendingCount(rs: seq<Record>): nat {
    |Filter(IsPending(), rs)|
  }

  function Submits(acts: seq<Action>): nat {
    if acts == [] then 0 else Submits(acts[..|acts| - 1]) + if acts[|acts| - 1].Submit? then 1 else 0
  }

  /** The decides of a run that went through. */
  function Decided(rs: seq<Record>, acts: seq<Action>): nat {
    if acts == [] then 0
    else
      var init, a := acts[..|acts| - 1], acts[|acts| - 1];
      Decided(rs, init) + if a.Decide? && Refusal(Run(rs, init), a.id).None? then 1 else 0
  }

  lemma {:induction false} PendingAfterPut(rs: seq<Record>, r: Record)
    ensures var old_ := Find(rs, r.id);
            PendingCount(Put(rs, r)) == PendingCount(rs) + (if r.status == Pending then 1 else 0)
                                        - (if old_.Some? && old_.value.status == Pending then 1 else 0)
  {
    if rs != [] {
      var rest := Put(rs[1..], r);
      if rs[0].id == r.id {
        assert ([r] + rs[1..])[1..] == rs[1..];
      } else {
        assert ([rs[0]] + rest)[1..] == rest;
        PendingAfterPut(rs[1..], r);
      }
    }
  }

  /** The queue grows by one for each submission and shrinks by one for each decision that goes through. */
  lemma {:induction false} PendingAdds(rs: seq<Record>, acts: seq<Action>)
    requires Fresh(rs, acts)
    ensures PendingCount(Run(rs, acts)) + Decided(rs, acts) == PendingCount(rs) + Submits(acts)
  {
    hide PendingCount;
    if acts != [] {
      var before, a := Run(rs, acts[..|acts| - 1]), acts[|acts| - 1];
      PendingAdds(rs, acts[..|acts| - 1]);
      match a {
        case Submit(r) => PendingAfterPut(before, r);
        case Decide(id, d) =>
          if Refusal(before, id).None? {
            PendingAfterPut(before, Resolve(Find(before, id).value, d));
          }
      }
    }
  }

  // ----- grants for a resumed run

  datatype Grant = Grant(
    id: string, subject: string, status: Verdict, reason: string, actor: string, decidedAt: string,
    requestMetadata: J.Object, decisionMetadata: J.Object)

  /** `ApprovalGrant.from_record`, with None for the ValueError of an undecided record. */
  function GrantOf(r: Record): Option<Grant> {
    match r.decision
    case None => None
    case Some(d) =>
      Some(Grant(r.id, r.request.subject, d.status, d.reason, d.actor, d.decidedAt, r.request.metadata, d.metadata))
  }

  /** `ApprovalResumeContext.from_records`; one undecided record makes the whole call raise. */
  function GrantsOf(rs: seq<Record>): Option<seq<Grant>> {
    if rs == [] then Some([])
    else
      match GrantOf(rs[0])
      case None => None
      case Some(g) => match GrantsOf(rs[1..]) case None => None case Some(gs) => Some([g] + gs)
  }

  /** ids = [] asks for all. The run and subject arguments of the call have no effect in the code. */
  function Resumable(ids: seq<string>, statuses: seq<Verdict>): Record -> bool {
    (r: Record) => (ids != [] ==> r.id in ids) && r.decision.Some? && r.decision.value.status in statuses
  }

  /** `ApprovalCenter.resume_context` */
  function ResumeContext(rs: seq<Record>, ids: seq<string>, statuses: seq<Verdict>): Option<seq<Grant>> {
    GrantsOf(Filter(Resumable(ids, statuses), Listed(rs)))
  }

  /** The record is decided, wanted by its id if ids are given and by its status, and the grant repeats it. */
  predicate Grants(r: Record, ids: seq<string>, statuses: seq<Verdict>, g: Grant) {
    && r.decision.Some? && (ids == [] || r.id in ids)
    && var d := r.decision.value;
       && d.status in statuses && g.status == d.status
       && g.id == r.id && g.subject == r.request.subject && g.requestMetadata == r.request.metadata
       && g.reason == d.reason && g.actor == d.actor && g.decidedAt == d.decidedAt && g.decisionMetadata == d.metadata
  }

  lemma GrantMeans(r: Record, ids: seq<string>, statuses: seq<Verdict>, g: Grant)
    ensures Grants(r, ids, statuses, g) <==> Resumable(ids, statuses)(r) && GrantOf(r) == Some(g)
  {
  }

  lemma {:induction false} GrantsOfDecided(rs: seq<Record>)
    requires forall r | r in rs :: r.decision.Some?
    ensures GrantsOf(rs).Some? && |GrantsOf(rs).value| == |rs|
    ensures forall i :: 0 <= i < |rs| ==> GrantOf(rs[i]) == Some(GrantsOf(rs).value[i])
  {
    if rs != [] {
      GrantsOfDecided(rs[1..]);
    }
  }

  /** Building a resume context never raises, and grants exactly the wanted decided records. */
  lemma ResumeGrantsWanted(rs: seq<Record>, ids: seq<string>, statuses: seq<Verdict>)
    ensures ResumeContext(rs, ids, statuses).Some?
    ensures forall g :: g in ResumeContext(rs, ids, statuses).value <==>
              exists r :: r in rs && Grants(r, ids, statuses, g)
  {
    hide Grants, ResumeContext, Resumable, GrantOf;
    ResumeGrantsResumable(rs, ids, statuses);
    forall r, g ensures Grants(r, ids, statuses, g) <==> Resumable(ids, statuses)(r) && GrantOf(r) == Some(g) {
      GrantMeans(r, ids, statuses, g);
    }
  }

  lemma ResumeGrantsResumable(rs: seq<Record>, ids: seq<string>, statuses: seq<Verdict>)
    ensures ResumeContext(rs, ids, statuses).Some?
    ensures forall g :: g in ResumeContext(rs, ids, statuses).value <==>
              exists r :: r in rs && Resumable(ids, statuses)(r) && GrantOf(r) == Some(g)
  {
    var wanted := Filter(Resumable(ids, statuses), Listed(rs));
    SortMembers(CreatedBefore(), rs);
    GrantsOfDecided(wanted);
    var gs := ResumeContext(rs, ids, statuses).value;
    forall g ensures g in gs <==> exists r :: r in rs && Resumable(ids, statuses)(r) && GrantOf(r) == Some(g) {
      if g in gs {
        var i :| 0 <= i < |gs| && gs[i] == g;
        assert wanted[i] in wanted;
      }
      if r :| r in rs && Resumable(ids, statuses)(r) && GrantOf(r) == Some(g) {
        assert r in wanted;
        var i :| 0 <= i < |wanted| && wanted[i] == r;
        assert gs[i] == g;
      }
    }
  }

  /** `ApprovalResumeContext.approved_for`: the first grant that approves the subject. */
  function ApprovedFor(gs: seq<Grant>, subject: string): (g: Option<Grant>)
    ensures g.Some? <==> exists x :: x in gs && x.status == Approved && x.subject == subject
    ensures g.Some? ==> g.value in gs && g.value.status == Approved && g.value.subject == subject
    ensures g.Some? ==> exists i :: 0 <= i < |gs| && gs[i] == g.value
                                    && forall j :: 0 <= j < i ==> gs[j].status != Approved || gs[j].subject != subject
  {
    if gs == [] then None
    else if gs[0].status == Approved && gs[0].subject == subject then Some(gs[0])
    else ApprovedFor(gs[1..], subject)
  }

  /**
    The gate: a resumed run is let through for a subject exactly when a wanted request about that subject
    was approved from the start, or was pending or submitted and the first decision on it was an approval.
    */
  lemma GateNeedsApproval(
    rs: seq<Record>, acts: seq<Action>, ids: seq<string>, statuses: seq<Verdict>, subject: string)
    requires WellFormed(rs) && Fresh(rs, acts)
    ensures var resume := ResumeContext(Run(rs, acts), ids, statuses);
            && resume.Some?
            && (ApprovedFor(resume.value, subject).Some? <==>
                  || (exists r :: r in rs && StartUnlocks(r, acts, ids, statuses, subject))
                  || (exists i :: Unlocks(acts, i, ids, statuses, subject)))
  {
    hide ResumeContext, Run, Fresh, FirstDecision, StartUnlocks, Unlocks;
    var end := Run(rs, acts);
    ResumeGrantsResumable(end, ids, statuses);
    RunsStayWellFormed(rs, acts);
    var gs := ResumeContext(end, ids, statuses).value;
    var g := ApprovedFor(gs, subject);
    if g.Some? {
      var r :| r in end && Resumable(ids, statuses)(r) && GrantOf(r) == Some(g.value);
      PassedGate(rs, acts, r, ids, statuses);
    }
    if r :| r in rs && StartUnlocks(r, acts, ids, statuses, subject) {
      StartPasses(rs, acts, r, ids, statuses, subject);
    }
    if i :| Unlocks(acts, i, ids, statuses, subject) {
      SubmissionPasses(rs, acts, i, ids, statuses, subject);
    }
  }

  /** A record that lets a run through was unlocked from the start or by a submission. */
  lemma PassedGate(rs: seq<Record>, acts: seq<Action>, r: Record, ids: seq<string>, statuses: seq<Verdict>)
    requires WellFormed(rs) && Fresh(rs, acts) && r in Run(rs, acts)
    requires Resumable(ids, statuses)(r) && r.decision.value.status == Approved
    ensures || (exists x :: x in rs && StartUnlocks(x, acts, ids, statuses, r.request.subject))
            || (exists i :: Unlocks(acts, i, ids, statuses, r.request.subject))
  {
    hide Run, Fresh, FirstDecision;
    RunsStayWellFormed(rs, acts);
    FindUnique(Run(rs, acts), r);
    NothingElseStored(rs, acts, r.id);
    if Find(rs, r.id).Some? {
      var x := Find(rs, r.id).value;
      FirstDecisionWins(rs, acts, r.id);
      assert StartUnlocks(x, acts, ids, statuses, r.request.subject);
    } else {
      var i :| 0 <= i < |acts| && acts[i].Submit? && acts[i].record.id == r.id;
      SubmittedFate(rs, acts, i);
      FreshIsPending(rs, acts, i);
      assert Unlocks(acts, i, ids, statuses, r.request.subject);
    }
  }

  lemma StartPasses(
    rs: seq<Record>, acts: seq<Action>, r: Record, ids: seq<string>, statuses: seq<Verdict>, subject: string)
    requires WellFormed(rs) && Fresh(rs, acts) && r in rs && StartUnlocks(r, acts, ids, statuses, subject)
    ensures exists x :: x in Run(rs, acts) && Resumable(ids, statuses)(x) && GrantOf(x).Some?
                        && GrantOf(x).value.status == Approved && GrantOf(x).value.subject == subject
  {
    hide Run, Fresh, FirstDecision;
    FindUnique(rs, r);
    FirstDecisionWins(rs, acts, r.id);
    RunsStayWellFormed(rs, acts);
    var x := Find(Run(rs, acts), r.id).value;
    assert x in Run(rs, acts) && Coherent(x);
  }

  lemma SubmissionPasses(
    rs: seq<Record>, acts: seq<Action>, i: int, ids: seq<string>, statuses: seq<Verdict>, subject: string)
    requires WellFormed(rs) && Fresh(rs, acts) && Unlocks(acts, i, ids, statuses, subject)
    ensures exists x :: x in Run(rs, acts) && Resumable(ids, statuses)(x) && GrantOf(x).Some?
                        && GrantOf(x).value.status == Approved && GrantOf(x).value.subject == subject
  {
    hide Run, Fresh, FirstDecision;
    SubmittedFate(rs, acts, i);
    FreshIsPending(rs, acts, i);
    var x := Find(Run(rs, acts), acts[i].record.id).value;
    assert x in Run(rs, acts);
  }

  /** A wanted record about the subject is approved already, or pending and first decided by an approval. */
  ghost predicate StartUnlocks(
    r: Record, acts: seq<Action>, ids: seq<string>, statuses: seq<Verdict>, subject: string) {
    && (ids != [] ==> r.id in ids)
    && r.request.subject == subject
    && Approved in statuses
    && var d := FirstDecision(acts, r.id);
       r.status == Approved || (r.status == Pending && d.Some? && d.value.status == Approved)
  }

  /** The i-th action submits a wanted request about the subject whose first decision approves it. */
  ghost predicate Unlocks(acts: seq<Action>, i: int, ids: seq<string>, statuses: seq<Verdict>, subject: string) {
    && 0 <= i < |acts| && acts[i].Submit?
    && (ids != [] ==> acts[i].record.id in ids)
    && acts[i].record.request.subject == subject
    && Approved in statuses
    && var d := FirstDecision(acts[i + 1..], acts[i].record.id);
       d.Some? && d.value.status == Approved
  }

  lemma {:induction false} FreshIsPending(rs: seq<Record>, acts: seq<Action>, i: nat)
    requires Fresh(rs, acts) && i < |acts| && acts[i].Submit?
    ensures acts[i].record.status == Pending && acts[i].record.decision.None?
  {
    hide Run;
    if i < |acts| - 1 {
      FreshIsPending(rs, acts[..|acts| - 1], i);
    }
  }
}
