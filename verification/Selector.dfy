/** Context material selection: triage, ranking, and the greedy choice under the two caps. */
module Selector {
  import opened Numbers
  import opened Options
  import opened Sequences
  import opened StableSort
  import opened Greedy
  import opened Utf8
  import opened Text
  import opened InjectionPolicy
  import J = Json

  datatype Material = Material(name: string, content: string, role: string, priority: int, metadata: J.Object)

  datatype SelectionStatus =
    | Selected | EmptyContent | Denied | ScoreBelowThreshold | CountExceeded | BudgetExceeded

  datatype Selection = Selection(
    material: Material, target: Role, status: SelectionStatus, score: real, rank: nat, reason: string)

  /** minScore and the caps are absent when None; allowedTargets = [] allows every target. */
  datatype Request = Request(
    materials: seq<Material>, maxMaterials: Option<int>, maxBytes: Option<int>,
    allowedTargets: seq<Role>, minScore: Option<real>)

  /** The rating of a material for the request's task, and the bucket its role stands for. */
  datatype Rating = Rating(score: Material -> real, target: Material -> Role)

  datatype Candidate = Candidate(score: real, index: nat, target: Role, material: Material)

  /** `None if cap is None else max(0, int(cap))` */
  function NormalCap(cap: Option<int>): Option<nat> {
    match cap
    case None => None
    case Some(n) => Some(if n < 0 then 0 else n)
  }

  function CapsOf(req: Request): Caps {
    Caps(NormalCap(req.maxMaterials), NormalCap(req.maxBytes))
  }

  /** Why a material is set aside at once; None makes it a candidate. */
  function SetAside(req: Request, r: Rating, m: Material): Option<Selection> {
    var target := r.target(m);
    if Strip(m.content) == "" then
      Some(Selection(m, target, EmptyContent, 0.0, 0, "empty_content"))
    else if req.allowedTargets != [] && target !in req.allowedTargets then
      Some(Selection(m, target, Denied, 0.0, 0, "target_not_allowed"))
    else if req.minScore.Some? && r.score(m) < req.minScore.value then
      Some(Selection(m, target, ScoreBelowThreshold, r.score(m), 0, "score_below_threshold"))
    else None
  }

  function Immediate(req: Request, r: Rating, ms: seq<Material>): seq<Selection> {
    if ms == [] then []
    else
      (match SetAside(req, r, ms[0]) case Some(s) => [s] case None => []) + Immediate(req, r, ms[1..])
  }

  function Candidates(req: Request, r: Rating, ms: seq<Material>, index: nat): (cs: seq<Candidate>)
    ensures forall c | c in cs :: index <= c.index < index + |ms|
  {
    if ms == [] then []
    else
      var rest := Candidates(req, r, ms[1..], index + 1);
      if SetAside(req, r, ms[0]).Some? then rest
      else [Candidate(r.score(ms[0]), index, r.target(ms[0]), ms[0])] + rest
  }

  /**
    `sort(key=(score, priority, -index, name), reverse=True)`. Indices differ, so the key decides
    before it reaches the name.
    */
  predicate RanksBefore(a: Candidate, b: Candidate) {
    if a.score != b.score then a.score > b.score
    else if a.material.priority != b.material.priority then a.material.priority > b.material.priority
    else a.index <= b.index
  }

  function Ranking(): (Candidate, Candidate) -> bool {
    (a, b) => RanksBefore(a, b)
  }

  function Sizes(cs: seq<Candidate>): (r: seq<nat>)
    ensures |r| == |cs|
  {
    if cs == [] then [] else [ByteLength(cs[0].material.content)] + Sizes(cs[1..])
  }

  function VerdictSelection(c: Candidate, v: Verdict, rank: nat): Selection {
    match v
    case Picked => Selection(c.material, c.target, Selected, c.score, rank, "semantic_priority_selected")
    case CountFull => Selection(c.material, c.target, CountExceeded, c.score, rank, "max_materials_exceeded")
    case BytesFull => Selection(c.material, c.target, BudgetExceeded, c.score, rank, "max_bytes_exceeded")
  }

  function Label(cs: seq<Candidate>, vs: seq<Verdict>, rank: nat): (r: seq<Selection>)
    requires |cs| == |vs|
    ensures |r| == |cs|
  {
    if cs == [] then [] else [VerdictSelection(cs[0], vs[0], rank)] + Label(cs[1..], vs[1..], rank + 1)
  }

  function Ranked(req: Request, r: Rating): seq<Candidate> {
    Sort(Ranking(), Candidates(req, r, req.materials, 0))
  }

  function Verdicts(req: Request, r: Rating): seq<Verdict> {
    Choose(CapsOf(req), Sizes(Ranked(req, r)), 0, 0)
  }

  function Selections(req: Request, r: Rating): seq<Selection> {
    Label(Ranked(req, r), Verdicts(req, r), 1) + Immediate(req, r, req.materials)
  }

  lemma TriageNext(req: Request, r: Rating, index: nat)
    requires index < |req.materials|
    ensures var m := req.materials[index];
            var aside := SetAside(req, r, m);
            && Immediate(req, r, req.materials[index..])
               == (if aside.Some? then [aside.value] else []) + Immediate(req, r, req.materials[index + 1..])
            && Candidates(req, r, req.materials[index..], index)
               == (if aside.Some? then [] else [Candidate(r.score(m), index, r.target(m), m)])
                  + Candidates(req, r, req.materials[index + 1..], index + 1)
  {
    hide SetAside, Immediate, Candidates;
    TriageHead(req, r, req.materials[index..], index);
    assert req.materials[index..][1..] == req.materials[index + 1..];
  }

  lemma TriageHead(req: Request, r: Rating, ms: seq<Material>, index: nat)
    requires ms != []
    ensures var m := ms[0];
            var aside := SetAside(req, r, m);
            && Immediate(req, r, ms) == (if aside.Some? then [aside.value] else []) + Immediate(req, r, ms[1..])
            && Candidates(req, r, ms, index)
               == (if aside.Some? then [] else [Candidate(r.score(m), index, r.target(m), m)])
                  + Candidates(req, r, ms[1..], index + 1)
  {
    hide SetAside;
  }

  /** `DefaultContextMaterialSelector.select` */
  method Select(req: Request, r: Rating) returns (selections: seq<Selection>)
    ensures selections == Selections(req, r)
    ensures forall s | s in selections :: Explained(req, r, s)
  {
    SelectionMeans(req, r);
    var immediate, candidates := Triage(req, r);
    candidates := Sort(Ranking(), candidates);
    var ranked := Rank(candidates, CapsOf(req));
    selections := ranked + immediate;
  }

  /** The first loop of `select`. */
  method Triage(req: Request, r: Rating) returns (immediate: seq<Selection>, candidates: seq<Candidate>)
    ensures immediate == Immediate(req, r, req.materials)
    ensures candidates == Candidates(req, r, req.materials, 0)
  {
    hide Strip, Immediate, Candidates;
    immediate, candidates := [], [];
    var index := 0;
    assert req.materials[0..] == req.materials;
    while index < |req.materials|
      invariant index <= |req.materials|
      invariant immediate + Immediate(req, r, req.materials[index..]) == Immediate(req, r, req.materials)
      invariant candidates + Candidates(req, r, req.materials[index..], index) == Candidates(req, r, req.materials, 0)
    {
      var m := req.materials[index];
      TriageNext(req, r, index);
      ghost var aside := Immediate(req, r, req.materials[index + 1..]);
      ghost var rest := Candidates(req, r, req.materials[index + 1..], index + 1);
      assert [] + aside == aside && [] + rest == rest;
      var target := r.target(m);
      if Strip(m.content) == "" {
        immediate := immediate + [Selection(m, target, EmptyContent, 0.0, 0, "empty_content")];
      } else if req.allowedTargets != [] && target !in req.allowedTargets {
        immediate := immediate + [Selection(m, target, Denied, 0.0, 0, "target_not_allowed")];
      } else {
        var score := r.score(m);
        if req.minScore.Some? && score < req.minScore.value {
          immediate := immediate + [Selection(m, target, ScoreBelowThreshold, score, 0, "score_below_threshold")];
        } else {
          candidates := candidates + [Candidate(score, index, target, m)];
        }
      }
      index := index + 1;
    }
    TriageEnd(req, r);
  }

  lemma TriageEnd(req: Request, r: Rating)
    ensures var n := |req.materials|;
            Immediate(req, r, req.materials[n..]) == [] && Candidates(req, r, req.materials[n..], n) == []
  {
  }

  /** The second loop of `select`, over the sorted candidates. */
  method Rank(cs: seq<Candidate>, caps: Caps) returns (ranked: seq<Selection>)
    ensures ranked == Label(cs, Choose(caps, Sizes(cs), 0, 0), 1)
  {
    hide Encode, Label, Choose, Sizes;
    ranked := [];
    var selectedCount, selectedBytes, i := 0, 0, 0;
    assert cs[0..] == cs;
    while i < |cs|
      invariant i <= |cs| && 0 <= selectedCount && 0 <= selectedBytes
      invariant ranked + Label(cs[i..], Choose(caps, Sizes(cs[i..]), selectedCount, selectedBytes), i + 1)
                == Label(cs, Choose(caps, Sizes(cs), 0, 0), 1)
    {
      var c := cs[i];
      var size := ByteLength(c.material.content);
      LabelNext(cs, caps, i, selectedCount, selectedBytes);
      ghost var before, s := ranked, VerdictSelection(c, Judge(caps, size, selectedCount, selectedBytes), i + 1);
      if caps.count.Some? && selectedCount >= caps.count.value {
        ranked := ranked + [Selection(c.material, c.target, CountExceeded, c.score, i + 1, "max_materials_exceeded")];
      } else if caps.bytes.Some? && selectedBytes + size > caps.bytes.value {
        ranked := ranked + [Selection(c.material, c.target, BudgetExceeded, c.score, i + 1, "max_bytes_exceeded")];
      } else {
        selectedCount := selectedCount + 1;
        selectedBytes := selectedBytes + size;
        ranked := ranked + [Selection(c.material, c.target, Selected, c.score, i + 1, "semantic_priority_selected")];
      }
      assert ranked == before + [s];
      ghost var verdicts := Choose(caps, Sizes(cs[i + 1..]), selectedCount, selectedBytes);
      AppendAssociates(before, [s], Label(cs[i + 1..], verdicts, i + 2));
      i := i + 1;
    }
  }

  lemma LabelHead(cs: seq<Candidate>, vs: seq<Verdict>, rank: nat, v: Verdict, rest: seq<Verdict>)
    requires cs != [] && |vs| == |cs| && vs == [v] + rest
    ensures Label(cs, vs, rank) == [VerdictSelection(cs[0], v, rank)] + Label(cs[1..], rest, rank + 1)
  {
    hide VerdictSelection;
    assert vs[1..] == rest;
  }

  lemma LabelNext(cs: seq<Candidate>, caps: Caps, i: nat, n: nat, b: nat)
    requires i < |cs|
    ensures var size := ByteLength(cs[i].material.content);
            var v := Judge(caps, size, n, b);
            Label(cs[i..], Choose(caps, Sizes(cs[i..]), n, b), i + 1)
            == [VerdictSelection(cs[i], v, i + 1)]
               + if v == Picked
                 then Label(cs[i + 1..], Choose(caps, Sizes(cs[i + 1..]), n + 1, b + size), i + 2)
                 else Label(cs[i + 1..], Choose(caps, Sizes(cs[i + 1..]), n, b), i + 2)
  {
    hide Encode, Judge, VerdictSelection, Label;
    var rest, sizes := cs[i..], Sizes(cs[i..]);
    assert rest[0] == cs[i] && rest[1..] == cs[i + 1..];
    assert sizes[0] == ByteLength(cs[i].material.content) && sizes[1..] == Sizes(cs[i + 1..]);
    var vs, v := Choose(caps, sizes, n, b), Judge(caps, sizes[0], n, b);
    if v == Picked {
      LabelHead(rest, vs, i + 1, v, Choose(caps, sizes[1..], n + 1, b + sizes[0]));
    } else {
      LabelHead(rest, vs, i + 1, v, Choose(caps, sizes[1..], n, b));
    }
  }

  lemma {:induction false} LabelAt(cs: seq<Candidate>, vs: seq<Verdict>, rank: nat, i: nat)
    requires |cs| == |vs| && i < |cs|
    ensures Label(cs, vs, rank)[i] == VerdictSelection(cs[i], vs[i], rank + i)
  {
    hide VerdictSelection;
    if i > 0 {
      LabelAt(cs[1..], vs[1..], rank + 1, i - 1);
    }
  }

  // ----- what a selection guarantees

  function MaterialOf(): Selection -> Material {
    (s: Selection) => s.material
  }

  function CandidateMaterial(): Candidate -> Material {
    (c: Candidate) => c.material
  }

  function MaterialsOf(ss: seq<Selection>): seq<Material> {
    Map(MaterialOf(), ss)
  }

  function CandidateMaterials(cs: seq<Candidate>): seq<Material> {
    Map(CandidateMaterial(), cs)
  }

  lemma SetAsideKeepsMaterial(req: Request, r: Rating, m: Material)
    ensures var s := SetAside(req, r, m);
            s.Some? ==> s.value.material == m &&
                        (s.value.status == EmptyContent || s.value.status == Denied
                         || s.value.status == ScoreBelowThreshold)
  {
  }

  lemma AsideMaterials(req: Request, r: Rating, ms: seq<Material>, index: nat)
    requires ms != [] && SetAside(req, r, ms[0]).Some?
    ensures multiset(MaterialsOf(Immediate(req, r, ms)))
            == multiset{ms[0]} + multiset(MaterialsOf(Immediate(req, r, ms[1..])))
    ensures Candidates(req, r, ms, index) == Candidates(req, r, ms[1..], index + 1)
  {
    TriageHead(req, r, ms, index);
    SetAsideKeepsMaterial(req, r, ms[0]);
    hide SetAside, Map, Immediate, Candidates;
    MapCons(MaterialOf(), SetAside(req, r, ms[0]).value, Immediate(req, r, ms[1..]));
    NothingBefore(Candidates(req, r, ms[1..], index + 1));
  }

  lemma CandidateMaterialsStep(req: Request, r: Rating, ms: seq<Material>, index: nat)
    requires ms != [] && SetAside(req, r, ms[0]).None?
    ensures multiset(CandidateMaterials(Candidates(req, r, ms, index)))
            == multiset{ms[0]} + multiset(CandidateMaterials(Candidates(req, r, ms[1..], index + 1)))
    ensures Immediate(req, r, ms) == Immediate(req, r, ms[1..])
  {
    TriageHead(req, r, ms, index);
    hide SetAside, Map, Immediate, Candidates;
    MapCons(CandidateMaterial(), Candidate(r.score(ms[0]), index, r.target(ms[0]), ms[0]),
            Candidates(req, r, ms[1..], index + 1));
    NothingBefore(Immediate(req, r, ms[1..]));
  }

  lemma NothingBefore<T>(xs: seq<T>)
    ensures [] + xs == xs
  {
  }

  lemma {:induction false} TriageSplits(req: Request, r: Rating, ms: seq<Material>, index: nat)
    ensures multiset(MaterialsOf(Immediate(req, r, ms))) + multiset(CandidateMaterials(Candidates(req, r, ms, index)))
            == multiset(ms)
  {
    if ms != [] {
      hide SetAside, Immediate, Candidates, MaterialsOf, CandidateMaterials;
      TriageSplits(req, r, ms[1..], index + 1);
      TailCounts(ms);
      var aside := multiset(MaterialsOf(Immediate(req, r, ms[1..])));
      var rest := multiset(CandidateMaterials(Candidates(req, r, ms[1..], index + 1)));
      AddToEither(aside, rest, ms[0]);
      if SetAside(req, r, ms[0]).Some? {
        AsideMaterials(req, r, ms, index);
      } else {
        CandidateMaterialsStep(req, r, ms, index);
      }
    }
  }

  lemma AddToEither<T>(a: multiset<T>, b: multiset<T>, x: T)
    ensures (multiset{x} + a) + b == multiset{x} + (a + b)
    ensures a + (multiset{x} + b) == multiset{x} + (a + b)
  {
  }

  lemma LabelKeepsMaterials(cs: seq<Candidate>, vs: seq<Verdict>, rank: nat)
    requires |cs| == |vs|
    ensures MaterialsOf(Label(cs, vs, rank)) == CandidateMaterials(cs)
  {
    forall i | 0 <= i < |cs| ensures MaterialsOf(Label(cs, vs, rank))[i] == CandidateMaterials(cs)[i] {
      LabelAt(cs, vs, rank, i);
    }
  }

  /** Every material of the request comes out exactly once, whatever happens to it. */
  lemma SelectionPartitions(req: Request, r: Rating)
    ensures multiset(MaterialsOf(Selections(req, r))) == multiset(req.materials)
  {
    hide Strip, Encode, Choose, SetAside;
    var cs := Candidates(req, r, req.materials, 0);
    var labelled := Label(Ranked(req, r), Verdicts(req, r), 1);
    TriageSplits(req, r, req.materials, 0);
    SortPermutes(Ranking(), cs);
    MapPermutes(CandidateMaterial(), Ranked(req, r), cs);
    LabelKeepsMaterials(Ranked(req, r), Verdicts(req, r), 1);
    MapAppend(MaterialOf(), labelled, Immediate(req, r, req.materials));
  }

  /** A better score, then a higher priority, then an earlier place in the request. */
  predicate RankedAhead(a: Candidate, b: Candidate) {
    && a.score >= b.score
    && (a.score == b.score ==>
          && a.material.priority >= b.material.priority
          && (a.material.priority == b.material.priority ==> a.index < b.index))
  }

  function Place(): Candidate -> nat {
    (c: Candidate) => c.index
  }

  lemma {:induction false} CandidatesDiffer(req: Request, r: Rating, ms: seq<Material>, index: nat)
    ensures DistinctBy(Place(), Candidates(req, r, ms, index))
  {
    hide SetAside;
    if ms != [] {
      var rest := Candidates(req, r, ms[1..], index + 1);
      CandidatesDiffer(req, r, ms[1..], index + 1);
      assert forall i :: 0 <= i < |rest| ==> rest[i] in rest && index < rest[i].index;
    }
  }

  lemma RankingAhead(cs: seq<Candidate>)
    requires DistinctBy(Place(), cs) && Sorted(Ranking(), Sort(Ranking(), cs))
    ensures var ranked := Sort(Ranking(), cs);
            forall i, j :: 0 <= i < j < |ranked| ==> RankedAhead(ranked[i], ranked[j])
  {
    hide Sort;
    var ranked := Sort(Ranking(), cs);
    SortPermutes(Ranking(), cs);
    DistinctPermutes(Place(), cs, ranked);
    forall i, j | 0 <= i < j < |ranked| ensures RankedAhead(ranked[i], ranked[j]) {
      assert Ranking()(ranked[i], ranked[j]);
      assert Place()(ranked[i]) != Place()(ranked[j]);
    }
  }

  /** Candidates are ranked from 1 by score, then priority, then their place in the request. */
  lemma RankedInOrder(req: Request, r: Rating)
    ensures forall i, j :: 0 <= i < j < |Ranked(req, r)| ==>
              RankedAhead(Ranked(req, r)[i], Ranked(req, r)[j])
    ensures forall i :: 0 <= i < |Ranked(req, r)| ==>
              Selections(req, r)[i].rank == i + 1 && Selections(req, r)[i].material == Ranked(req, r)[i].material
  {
    hide Strip, Encode, Choose, SetAside;
    forall x, y ensures Ranking()(x, y) || Ranking()(y, x) {
    }
    forall x, y, z | Ranking()(x, y) && Ranking()(y, z) ensures Ranking()(x, z) {
    }
    var cs := Candidates(req, r, req.materials, 0);
    SortSorts(Ranking(), cs);
    CandidatesDiffer(req, r, req.materials, 0);
    RankingAhead(cs);
    forall i | 0 <= i < |Ranked(req, r)|
      ensures Selections(req, r)[i].rank == i + 1 && Selections(req, r)[i].material == Ranked(req, r)[i].material
    {
      LabelAt(Ranked(req, r), Verdicts(req, r), 1, i);
    }
  }

  function SelectedOf(ss: seq<Selection>): seq<Selection> {
    if ss == [] then []
    else (if ss[0].status == Selected then [ss[0]] else []) + SelectedOf(ss[1..])
  }

  function SelectedBytes(ss: seq<Selection>): nat {
    if ss == [] then 0
    else (if ss[0].status == Selected then ByteLength(ss[0].material.content) else 0) + SelectedBytes(ss[1..])
  }

  lemma SelectedNext(s: Selection, rest: seq<Selection>)
    ensures |SelectedOf([s] + rest)| == (if s.status == Selected then 1 else 0) + |SelectedOf(rest)|
    ensures SelectedBytes([s] + rest)
            == (if s.status == Selected then ByteLength(s.material.content) else 0) + SelectedBytes(rest)
  {
    hide Encode;
  }

  lemma LabelSplits(cs: seq<Candidate>, vs: seq<Verdict>, rank: nat)
    requires |cs| == |vs| && cs != []
    ensures Label(cs, vs, rank) == [VerdictSelection(cs[0], vs[0], rank)] + Label(cs[1..], vs[1..], rank + 1)
  {
    hide VerdictSelection;
  }

  lemma VerdictStatus(c: Candidate, v: Verdict, rank: nat)
    ensures VerdictSelection(c, v, rank).material == c.material
    ensures VerdictSelection(c, v, rank).status == Selected <==> v == Picked
  {
  }

  lemma {:induction false} LabelCounts(cs: seq<Candidate>, vs: seq<Verdict>, rank: nat, tail: seq<Selection>)
    requires |cs| == |vs|
    requires forall s | s in tail :: s.status != Selected
    ensures |SelectedOf(Label(cs, vs, rank) + tail)| == CountOf(vs)
    ensures SelectedBytes(Label(cs, vs, rank) + tail) == BytesOf(Sizes(cs), vs)
  {
    hide Encode, VerdictSelection, SelectedOf, SelectedBytes;
    if cs == [] {
      NoneSelected(tail);
      assert Label(cs, vs, rank) + tail == tail;
    } else {
      LabelCounts(cs[1..], vs[1..], rank + 1, tail);
      var s, labelled := VerdictSelection(cs[0], vs[0], rank), Label(cs[1..], vs[1..], rank + 1);
      LabelSplits(cs, vs, rank);
      AppendAssociates([s], labelled, tail);
      SelectedNext(s, labelled + tail);
      VerdictStatus(cs[0], vs[0], rank);
      assert Sizes(cs)[1..] == Sizes(cs[1..]);
    }
  }

  lemma {:induction false} NoneSelected(ss: seq<Selection>)
    requires forall s | s in ss :: s.status != Selected
    ensures SelectedOf(ss) == [] && SelectedBytes(ss) == 0
  {
    hide Encode;
    if ss != [] {
      NoneSelected(ss[1..]);
    }
  }

  lemma {:induction false} ImmediateNotSelected(req: Request, r: Rating, ms: seq<Material>)
    ensures forall s | s in Immediate(req, r, ms) ::
              s.status == EmptyContent || s.status == Denied || s.status == ScoreBelowThreshold
  {
    hide SetAside;
    if ms != [] {
      SetAsideKeepsMaterial(req, r, ms[0]);
      ImmediateNotSelected(req, r, ms[1..]);
    }
  }

  lemma {:induction false} SizesAt(cs: seq<Candidate>, i: nat)
    requires i < |cs|
    ensures Sizes(cs)[i] == ByteLength(cs[i].material.content)
  {
    hide Encode;
    if i > 0 {
      SizesAt(cs[1..], i - 1);
    }
  }

  /**
    The selection keeps both caps, and a refusal is never out of date: at the end, a material refused
    for its bytes would still overflow, and one refused for the count faces a full count.
    */
  lemma SelectionKeepsCaps(req: Request, r: Rating)
    ensures var ss := Selections(req, r);
            var caps := CapsOf(req);
            && Fits(caps.count, |SelectedOf(ss)|) && Fits(caps.bytes, SelectedBytes(ss))
            && forall i :: 0 <= i < |ss| ==>
                 && (ss[i].status == BudgetExceeded ==>
                       !Fits(caps.bytes, SelectedBytes(ss) + ByteLength(ss[i].material.content)))
                 && (ss[i].status == CountExceeded ==> caps.count == Some(|SelectedOf(ss)|))
  {
    hide Encode, Choose, Judge, Label, Sizes, Fits, Immediate, SelectedBytes, SelectedOf, BytesOf, CountOf, Sort;
    var ss, caps, cs, vs := Selections(req, r), CapsOf(req), Ranked(req, r), Verdicts(req, r);
    var tail := Immediate(req, r, req.materials);
    ImmediateNotSelected(req, r, req.materials);
    LabelCounts(cs, vs, 1, tail);
    NoCapExceeded(caps);
    ChoiceFits(caps, Sizes(cs), 0, 0);
    forall i | 0 <= i < |ss|
      ensures ss[i].status == BudgetExceeded ==>
                !Fits(caps.bytes, SelectedBytes(ss) + ByteLength(ss[i].material.content))
      ensures ss[i].status == CountExceeded ==> caps.count == Some(|SelectedOf(ss)|)
    {
      if i < |cs| {
        LabelAt(cs, vs, 1, i);
        RefusalsStand(caps, Sizes(cs), 0, 0, i);
        SizesAt(cs, i);
      } else {
        assert ss[i] in tail;
      }
    }
  }

  lemma NoCapExceeded(caps: Caps)
    ensures Fits(caps.count, 0) && Fits(caps.bytes, 0)
  {
  }

  lemma {:induction false} SelectedArePicked(cs: seq<Candidate>, vs: seq<Verdict>, rank: nat)
    requires |cs| == |vs|
    ensures MaterialsOf(SelectedOf(Label(cs, vs, rank))) == CandidateMaterials(PickedItems(cs, vs))
  {
    if cs != [] {
      SelectedArePicked(cs[1..], vs[1..], rank + 1);
      var labelled := Label(cs, vs, rank);
      assert labelled[1..] == Label(cs[1..], vs[1..], rank + 1);
      var some, picked := SelectedOf(labelled[1..]), PickedItems(cs[1..], vs[1..]);
      if vs[0] == Picked {
        assert MaterialsOf([labelled[0]] + some) == [cs[0].material] + MaterialsOf(some);
        assert CandidateMaterials([cs[0]] + picked) == [cs[0].material] + CandidateMaterials(picked);
      }
    }
  }

  lemma {:induction false} SelectedAppend(xs: seq<Selection>, ys: seq<Selection>)
    requires SelectedOf(ys) == []
    ensures SelectedOf(xs + ys) == SelectedOf(xs)
  {
    if xs == [] {
      assert xs + ys == ys;
    } else {
      assert (xs + ys)[0] == xs[0] && (xs + ys)[1..] == xs[1..] + ys;
      SelectedAppend(xs[1..], ys);
    }
  }

  function SelectedMaterials(req: Request, r: Rating): seq<Material> {
    MaterialsOf(SelectedOf(Selections(req, r)))
  }

  lemma SelectedMaterialsArePicked(req: Request, r: Rating)
    ensures SelectedMaterials(req, r) == CandidateMaterials(PickedItems(Ranked(req, r), Verdicts(req, r)))
  {
    hide Strip, Encode, Choose, SetAside, Judge;
    var tail := Immediate(req, r, req.materials);
    ImmediateNotSelected(req, r, req.materials);
    NoneSelected(tail);
    SelectedAppend(Label(Ranked(req, r), Verdicts(req, r), 1), tail);
    SelectedArePicked(Ranked(req, r), Verdicts(req, r), 1);
  }

  /** Lowering the count cap to m keeps exactly the first m materials selected without a count cap. */
  lemma CountCapSelectsPrefix(req: Request, r: Rating, m: int)
    ensures var free := SelectedMaterials(req.(maxMaterials := None), r);
            var cap := if m < 0 then 0 else m;
            SelectedMaterials(req.(maxMaterials := Some(m)), r) == Take(free, cap)
  {
    hide Strip, Encode, Choose, Judge, SelectedOf, Label, PickedItems, Sort;
    var unlimited, limited := req.(maxMaterials := None), req.(maxMaterials := Some(m));
    var cap := if m < 0 then 0 else m;
    CandidatesIgnoreCap(unlimited, limited, r, req.materials, 0);
    var cs := Ranked(unlimited, r);
    assert Ranked(limited, r) == cs;
    SelectedMaterialsArePicked(unlimited, r);
    SelectedMaterialsArePicked(limited, r);
    CountCapTakesPrefix(cs, Sizes(cs), NormalCap(req.maxBytes), cap, 0, 0);
    var free := PickedItems(cs, Verdicts(unlimited, r));
  }

  lemma {:induction false} CandidatesIgnoreCap(a: Request, b: Request, r: Rating, ms: seq<Material>, index: nat)
    requires a.allowedTargets == b.allowedTargets && a.minScore == b.minScore
    ensures Candidates(a, r, ms, index) == Candidates(b, r, ms, index)
  {
    hide Strip;
    if ms != [] {
      CandidatesIgnoreCap(a, b, r, ms[1..], index + 1);
    }
  }

  // ----- what became of each material, and why

  predicate Admitted(req: Request, s: Selection) {
    req.allowedTargets == [] || s.target in req.allowedTargets
  }

  /** What was set aside, ranked, scored and given as a reason is told by the material itself. */
  ghost predicate Explained(req: Request, r: Rating, s: Selection) {
    var m, admitted := s.material, Admitted(req, s);
    var low := req.minScore.Some? && r.score(m) < req.minScore.value;
    && m in req.materials && s.target == r.target(m)
    && (s.status == EmptyContent <==> Blank(m.content))
    && (s.status == Denied <==> !Blank(m.content) && !admitted)
    && (s.status == ScoreBelowThreshold <==> !Blank(m.content) && admitted && low)
    && (s.rank > 0 <==> !Blank(m.content) && admitted && !low)
    && s.score == (if Blank(m.content) || !admitted then 0.0 else r.score(m))
    && s.reason == match s.status
                   case Selected => "semantic_priority_selected"
                   case EmptyContent => "empty_content"
                   case Denied => "target_not_allowed"
                   case ScoreBelowThreshold => "score_below_threshold"
                   case CountExceeded => "max_materials_exceeded"
                   case BudgetExceeded => "max_bytes_exceeded"
  }

  lemma AsideExplained(req: Request, r: Rating, m: Material)
    requires m in req.materials && SetAside(req, r, m).Some?
    ensures Explained(req, r, SetAside(req, r, m).value)
  {
    hide Strip, Blank;
    StripBlank(m.content);
  }

  lemma RankedExplained(req: Request, r: Rating, c: Candidate, v: Verdict, rank: nat)
    requires c.material in req.materials && SetAside(req, r, c.material).None? && rank > 0
    requires c.score == r.score(c.material) && c.target == r.target(c.material)
    ensures Explained(req, r, VerdictSelection(c, v, rank))
  {
    hide Strip, Blank;
    StripBlank(c.material.content);
  }

  lemma {:induction false} AllAsideExplained(req: Request, r: Rating, ms: seq<Material>)
    requires forall m | m in ms :: m in req.materials
    ensures forall s | s in Immediate(req, r, ms) :: Explained(req, r, s) && s.rank == 0
  {
    hide SetAside, Explained;
    if ms != [] {
      AllAsideExplained(req, r, ms[1..]);
      if SetAside(req, r, ms[0]).Some? {
        AsideExplained(req, r, ms[0]);
        AsideIsUnranked(req, r, ms[0]);
      }
    }
  }

  lemma AsideIsUnranked(req: Request, r: Rating, m: Material)
    ensures SetAside(req, r, m).Some? ==> SetAside(req, r, m).value.rank == 0
  {
    hide Strip;
  }

  /** A candidate is the material at its index, with the target and the score it is given. */
  lemma {:induction false} CandidatesAre(req: Request, r: Rating, ms: seq<Material>, index: nat)
    ensures forall c | c in Candidates(req, r, ms, index) ::
              && c.material == ms[c.index - index] && SetAside(req, r, c.material).None?
              && c.score == r.score(c.material) && c.target == r.target(c.material)
  {
    hide SetAside;
    if ms != [] {
      CandidatesAre(req, r, ms[1..], index + 1);
    }
  }

  /** One of the ranked materials, in its turn. */
  lemma RankedMeans(req: Request, r: Rating, i: nat)
    requires i < |Ranked(req, r)|
    ensures var c, s := Ranked(req, r)[i], Selections(req, r)[i];
            && c.index < |req.materials| && req.materials[c.index] == s.material == c.material
            && c.score == s.score && s.rank == i + 1 && Explained(req, r, s)
  {
    hide Explained, SetAside, Choose, Candidates;
    var cs := Candidates(req, r, req.materials, 0);
    var c := Ranked(req, r)[i];
    CandidatesAre(req, r, req.materials, 0);
    SortMembers(Ranking(), cs);
    hide Sort;
    assert c in cs;
    LabelAt(Ranked(req, r), Verdicts(req, r), 1, i);
    RankedExplained(req, r, c, Verdicts(req, r)[i], i + 1);
    VerdictKeeps(c, Verdicts(req, r)[i], i + 1);
  }

  lemma VerdictKeeps(c: Candidate, v: Verdict, rank: nat)
    ensures var s := VerdictSelection(c, v, rank);
            && s.material == c.material && s.score == c.score && s.rank == rank
            && s.status == match v
                           case Picked => Selected
                           case CountFull => CountExceeded
                           case BytesFull => BudgetExceeded
  {
  }

  /**
    Everything in a selection has its status for the right reason; in particular whatever is selected reaches
    the minimal score.
    */
  lemma SelectionMeans(req: Request, r: Rating)
    ensures forall s | s in Selections(req, r) :: Explained(req, r, s)
    ensures forall s | s in Selections(req, r) && s.status == Selected && req.minScore.Some? ::
              r.score(s.material) >= req.minScore.value
  {
    hide Explained, Immediate, Choose, Candidates, Sort, Label;
    var ss, cs := Selections(req, r), Ranked(req, r);
    AllAsideExplained(req, r, req.materials);
    forall s | s in ss ensures Explained(req, r, s) {
      var i :| 0 <= i < |ss| && ss[i] == s;
      if i < |cs| {
        RankedMeans(req, r, i);
      } else {
        assert s in Immediate(req, r, req.materials);
      }
    }
    forall s | s in ss && s.status == Selected && req.minScore.Some?
      ensures r.score(s.material) >= req.minScore.value
    {
      SelectedScores(req, r, s);
    }
  }

  lemma SelectedScores(req: Request, r: Rating, s: Selection)
    requires Explained(req, r, s) && s.status == Selected && req.minScore.Some?
    ensures r.score(s.material) >= req.minScore.value
  {
    hide Blank;
  }

  lemma {:induction false} LabelPrefix(cs: seq<Candidate>, vs: seq<Verdict>, rank: nat, i: nat)
    requires |cs| == |vs| && i <= |cs|
    ensures Label(cs, vs, rank)[..i] == Label(cs[..i], vs[..i], rank)
  {
    hide VerdictSelection;
    if i > 0 {
      LabelPrefix(cs[1..], vs[1..], rank + 1, i - 1);
      assert cs[..i][1..] == cs[1..][..i - 1] && vs[..i][1..] == vs[1..][..i - 1];
    }
  }

  lemma {:induction false} SizesPrefix(cs: seq<Candidate>, i: nat)
    requires i <= |cs|
    ensures Sizes(cs)[..i] == Sizes(cs[..i])
  {
    hide Encode;
    if i > 0 {
      SizesPrefix(cs[1..], i - 1);
      assert cs[..i][1..] == cs[1..][..i - 1];
    }
  }

  lemma SelectedBefore(req: Request, r: Rating, i: nat)
    requires i <= |Ranked(req, r)|
    ensures var before, vs := Selections(req, r)[..i], Verdicts(req, r)[..i];
            && |SelectedOf(before)| == CountOf(vs)
            && SelectedBytes(before) == BytesOf(Sizes(Ranked(req, r))[..i], vs)
  {
    hide Choose, Sort, Candidates, Immediate, Label, SelectedOf, SelectedBytes, Sizes, CountOf, BytesOf;
    var cs, vs := Ranked(req, r), Verdicts(req, r);
    var labelled := Label(cs, vs, 1);
    LabelPrefix(cs, vs, 1, i);
    SizesPrefix(cs, i);
    LabelCounts(cs[..i], vs[..i], 1, []);
    assert labelled[..i] + [] == labelled[..i];
    assert Selections(req, r)[..i] == labelled[..i];
  }

  /** A ranked material is selected unless, in its turn, the count is full or its bytes overflow. */
  lemma VerdictsMean(req: Request, r: Rating, i: nat)
    requires i < |Ranked(req, r)|
    ensures var ss := Selections(req, r);
            var before, s := ss[..i], ss[i];
            var full := req.maxMaterials.Some? && |SelectedOf(before)| >= req.maxMaterials.value;
            var over := req.maxBytes.Some?
                        && SelectedBytes(before) + ByteLength(s.material.content) > Max(0, req.maxBytes.value);
            s.status == if full then CountExceeded else if over then BudgetExceeded else Selected
  {
    hide Choose, Sort, Candidates, Immediate, Label, SelectedOf, SelectedBytes, Sizes, CountOf, BytesOf, Encode;
    var cs, vs := Ranked(req, r), Verdicts(req, r);
    SelectedBefore(req, r, i);
    JudgedInTurn(CapsOf(req), Sizes(cs), 0, 0, i);
    SizesAt(cs, i);
    LabelAt(cs, vs, 1, i);
    VerdictKeeps(cs[i], vs[i], i + 1);
    hide VerdictSelection;
  }
}
