/** From selected materials to prompt decisions: what survives when a selection meets an injection policy. */
module SelectionToPrompt {
  import opened Options
  import opened Sequences
  import opened StableSort
  import opened Utf8
  import opened Text
  import opened Trim
  import opened InjectionPolicy
  import S = Selector
  import J = Json

  /** `str` of values that are not strings, and the float a score is kept as. */
  datatype Printer = Printer(show: J.Json -> string, float: real -> J.Float)

  /** `ContextMaterialSelection.injection` of a selected material. */
  function InjectionOf(x: Printer, s: S.Selection): Injection {
    var m := s.material;
    Injection(
      m.name, m.content, s.target,
      J.TextAt(x.show, m.metadata, "source", if m.role != "" then m.role else "context"),
      m.priority,
      m.metadata["context_material_selection" := J.JObj(map[
        "score" := J.JFloat(x.float(s.score)), "rank" := J.JInt(s.rank), "reason" := J.JStr(s.reason),
        "target" := J.JStr(RoleValue(s.target))])])
  }

  /** The injection repeats the material, names its source, and records why it was selected beside its metadata. */
  lemma InjectionMeans(x: Printer, s: S.Selection)
    ensures var m, inj := s.material, InjectionOf(x, s);
            && inj.name == m.name && inj.content == m.content && inj.priority == m.priority && inj.target == s.target
            && ("source" in m.metadata && m.metadata["source"].JStr? && m.metadata["source"].s != "" ==>
                  inj.source == m.metadata["source"].s)
            && ("source" !in m.metadata ==> inj.source == if m.role == "" then "context" else m.role)
            && inj.metadata.Keys == m.metadata.Keys + {"context_material_selection"}
            && (forall k | k in m.metadata && k != "context_material_selection" :: inj.metadata[k] == m.metadata[k])
            && inj.metadata["context_material_selection"].JObj?
            && Records(inj.metadata["context_material_selection"].fields, s, x.float(s.score))
  {
  }

  ghost predicate Records(o: J.Object, s: S.Selection, score: J.Float) {
    && o.Keys == {"score", "rank", "reason", "target"}
    && o["score"] == J.JFloat(score) && o["rank"] == J.JInt(s.rank) && o["reason"] == J.JStr(s.reason)
    && o["target"] == J.JStr(RoleValue(s.target))
  }

  /** `ContextMaterialSelectionResult.injections` */
  function Injections(x: Printer, ss: seq<S.Selection>): seq<Injection> {
    if ss == [] then []
    else (if ss[0].status == S.Selected then [InjectionOf(x, ss[0])] else []) + Injections(x, ss[1..])
  }

  // ----- when a policy lets everything through

  predicate Allows(p: Policy, inj: Injection) {
    Admits(p, inj) && !Over(p.maxInjectionBytes, ByteLength(inj.content))
  }

  function SizeOf(): Injection -> nat {
    (inj: Injection) => ByteLength(inj.content)
  }

  function TotalSize(injs: seq<Injection>): nat {
    Sum(Map(SizeOf(), injs))
  }

  ghost predicate AllIncluded(ds: seq<Decision>) {
    forall d | d in ds :: d.status == Included
  }

  ghost predicate AllAllowed(p: Policy, injs: seq<Injection>) {
    forall inj | inj in injs :: Allows(p, inj)
  }

  ghost predicate NoneBlank(injs: seq<Injection>) {
    forall inj | inj in injs :: Strip(inj.content) != ""
  }

  lemma DecidedIncluded(p: Policy, inj: Injection, total: nat)
    requires Strip(inj.content) != ""
    ensures var d := Decide(p, inj, total);
            && (d.status == Included <==> Allows(p, inj) && !Over(p.maxTotalBytes, total + ByteLength(inj.content)))
            && (d.status == Included ==> d.finalBytes == ByteLength(inj.content) && d.injection.content == inj.content)
  {
    hide Strip, TrimTextToBytes, Encode;
  }

  lemma TotalSizeCons(inj: Injection, injs: seq<Injection>)
    ensures TotalSize([inj] + injs) == ByteLength(inj.content) + TotalSize(injs)
  {
    hide Encode;
    var sizes := Map(SizeOf(), [inj] + injs);
    assert sizes[1..] == Map(SizeOf(), injs);
  }

  /** Everything is included as it stands exactly when each item is allowed and all together fit. */
  lemma {:induction false} IncludedIff(p: Policy, injs: seq<Injection>, total: nat)
    requires NoneBlank(injs)
    ensures AllIncluded(DecideAll(p, injs, total)) <==>
            AllAllowed(p, injs) && (injs == [] || !Over(p.maxTotalBytes, total + TotalSize(injs)))
  {
    hide Decide, Strip, Encode, TotalSize, Allows;
    if injs != [] {
      var d, rest := Decide(p, injs[0], total), injs[1..];
      assert injs == [injs[0]] + rest;
      DecidedIncluded(p, injs[0], total);
      TotalSizeCons(injs[0], rest);
      var ds := DecideAll(p, rest, total + d.finalBytes);
      IncludedIff(p, rest, total + d.finalBytes);
      assert AllIncluded(DecideAll(p, injs, total)) <==> d.status == Included && AllIncluded(ds) by {
        assert DecideAll(p, injs, total) == [d] + ds;
      }
      assert AllAllowed(p, injs) <==> Allows(p, injs[0]) && AllAllowed(p, rest);
      if rest == [] {
        NothingWeighsNothing();
      }
    }
  }

  lemma NothingWeighsNothing()
    ensures TotalSize([]) == 0
  {
  }

  lemma {:induction false} SumPermutes(xs: seq<nat>, ys: seq<nat>)
    requires multiset(xs) == multiset(ys)
    ensures Sum(xs) == Sum(ys)
  {
    assert |multiset(xs)| == |multiset(ys)|;
    if xs != [] {
      var x := xs[0];
      TailCounts(xs);
      var before, after := TakeOut(ys, x);
      SumPermutes(xs[1..], before + after);
      SumAppend(before, after);
      SumAppend(before + [x], after);
      SumAppend(before, [x]);
    }
  }

  // ----- what a selection hands on

  lemma {:induction false} InjectionsMeasured(x: Printer, ss: seq<S.Selection>)
    ensures TotalSize(Injections(x, ss)) == S.SelectedBytes(ss)
    ensures |Injections(x, ss)| == |S.SelectedOf(ss)|
  {
    hide Encode, TotalSize, InjectionOf;
    if ss == [] {
      NothingWeighsNothing();
    } else {
      var rest := Injections(x, ss[1..]);
      InjectionsMeasured(x, ss[1..]);
      TotalSizeCons(InjectionOf(x, ss[0]), rest);
      assert [] + rest == rest;
      InjectionKeeps(x, ss[0]);
    }
  }

  lemma InjectionKeeps(x: Printer, s: S.Selection)
    ensures InjectionOf(x, s).content == s.material.content && InjectionOf(x, s).target == s.target
  {
  }

  lemma {:induction false} InjectionsFrom(x: Printer, ss: seq<S.Selection>)
    ensures forall inj :: inj in Injections(x, ss) <==>
              exists s :: s in ss && s.status == S.Selected && inj == InjectionOf(x, s)
  {
    hide InjectionOf;
    if ss != [] {
      InjectionsFrom(x, ss[1..]);
      assert ss == [ss[0]] + ss[1..];
      forall inj ensures inj in Injections(x, ss) <==>
                         exists s :: s in ss && s.status == S.Selected && inj == InjectionOf(x, s)
      {
        if s :| s in ss && s.status == S.Selected && inj == InjectionOf(x, s) {
          assert s == ss[0] || s in ss[1..];
        }
        if inj in Injections(x, ss[1..]) {
          var s :| s in ss[1..] && s.status == S.Selected && inj == InjectionOf(x, s);
          assert s in ss;
        }
      }
    }
  }

  /** A selected material was a candidate: it is not blank and its target was allowed. */
  lemma SelectedWereCandidates(req: S.Request, r: S.Rating, s: S.Selection)
    requires s in S.Selections(req, r) && s.status == S.Selected
    ensures Strip(s.material.content) != ""
    ensures req.allowedTargets == [] || s.target in req.allowedTargets
  {
    hide Strip, Encode;
    var ss, cs, vs := S.Selections(req, r), S.Ranked(req, r), S.Verdicts(req, r);
    S.ImmediateNotSelected(req, r, req.materials);
    var i :| 0 <= i < |ss| && ss[i] == s;
    assert i >= |cs| ==> s in S.Immediate(req, r, req.materials);
    S.LabelAt(cs, vs, 1, i);
    hide S.SetAside;
    CandidatePassed(req, r, req.materials, 0);
    SortMembers(S.Ranking(), S.Candidates(req, r, req.materials, 0));
    assert cs[i] in cs;
  }

  lemma {:induction false} CandidatePassed(req: S.Request, r: S.Rating, ms: seq<S.Material>, index: nat)
    ensures forall c | c in S.Candidates(req, r, ms, index) ::
              Strip(c.material.content) != "" && (req.allowedTargets == [] || c.target in req.allowedTargets)
  {
    hide Strip;
    if ms != [] {
      CandidatePassed(req, r, ms[1..], index + 1);
    }
  }

  /**
    A selection meets a policy, in whatever order the builder puts it: every selected material reaches
    the prompt with its content untouched exactly when the policy allows each of them alone and their
    selected bytes fit the total.
    */
  lemma SelectionSurvivesIff(x: Printer, req: S.Request, r: S.Rating, p: Policy, injs: seq<Injection>)
    requires multiset(injs) == multiset(Injections(x, S.Selections(req, r)))
    ensures var ss := S.Selections(req, r);
            AllIncluded(DecideAll(p, injs, 0)) <==>
            AllAllowed(p, Injections(x, ss)) && (S.SelectedOf(ss) == [] || !Over(p.maxTotalBytes, S.SelectedBytes(ss)))
  {
    hide S.Selections, DecideAll, Allows, Encode, Strip, InjectionOf, S.SelectedBytes, S.SelectedOf, Sum;
    var ss := S.Selections(req, r);
    var given := Injections(x, ss);
    SelectionNotBlank(x, req, r);
    InjectionsMeasured(x, ss);
    MapPermutes(SizeOf(), injs, given);
    SumPermutes(Map(SizeOf(), injs), Map(SizeOf(), given));
    assert |multiset(injs)| == |multiset(given)|;
    assert forall inj :: inj in injs <==> inj in multiset(injs);
    assert forall inj :: inj in given <==> inj in multiset(given);
    IncludedIff(p, injs, 0);
  }

  lemma SelectionNotBlank(x: Printer, req: S.Request, r: S.Rating)
    ensures NoneBlank(Injections(x, S.Selections(req, r)))
  {
    hide Encode, Strip, S.Selections, Injections, InjectionOf;
    var ss := S.Selections(req, r);
    InjectionsFrom(x, ss);
    forall inj | inj in Injections(x, ss) ensures Strip(inj.content) != "" {
      var s :| s in ss && s.status == S.Selected && inj == InjectionOf(x, s);
      SelectedWereCandidates(req, r, s);
      InjectionKeeps(x, s);
    }
  }

  lemma {:induction false} EmptySelection(ss: seq<S.Selection>)
    requires S.SelectedBytes(ss) == 0
    requires forall s | s in ss && s.status == S.Selected :: Strip(s.material.content) != ""
    ensures S.SelectedOf(ss) == []
  {
    hide Strip, Encode;
    if ss != [] {
      if ss[0].status == S.Selected {
        NotEmpty(ss[0].material.content);
      }
      EmptySelection(ss[1..]);
    }
  }

  /** The policy's total and targets are no narrower than the request's. */
  predicate AsWide(p: Policy, req: S.Request) {
    && (p.maxTotalBytes.Some? ==> req.maxBytes.Some? && req.maxBytes.value <= p.maxTotalBytes.value)
    && (p.allowedTargets == [] ||
        (req.allowedTargets != [] && forall t | t in req.allowedTargets :: t in p.allowedTargets))
  }

  lemma SelectedBytesFit(req: S.Request, r: S.Rating, p: Policy)
    requires AsWide(p, req)
    ensures var ss := S.Selections(req, r);
            S.SelectedOf(ss) == [] || !Over(p.maxTotalBytes, S.SelectedBytes(ss))
  {
    hide S.Selections, Strip, Encode, S.SelectedBytes, S.SelectedOf;
    var ss := S.Selections(req, r);
    S.SelectionKeepsCaps(req, r);
    if S.SelectedBytes(ss) == 0 {
      forall s | s in ss && s.status == S.Selected ensures Strip(s.material.content) != "" {
        SelectedWereCandidates(req, r, s);
      }
      EmptySelection(ss);
    }
  }

  /**
    So selecting under limits no wider than the policy's loses nothing afterwards: when no selected material
    is over the item limit, the builder includes all that was selected as it is.
    */
  lemma SelectingForThePolicyIsSafe(x: Printer, req: S.Request, r: S.Rating, p: Policy)
    requires AsWide(p, req)
    requires forall s | s in S.Selections(req, r) && s.status == S.Selected ::
               !Over(p.maxInjectionBytes, ByteLength(s.material.content))
    ensures AllIncluded(BuilderDecisions(p, Injections(x, S.Selections(req, r))))
  {
    hide S.Selections, DecideAll, Encode, ByteLength, Strip, Injections, InjectionOf;
    hide S.SelectedBytes, S.SelectedOf, Sort;
    var ss := S.Selections(req, r);
    var given := Injections(x, ss);
    SortPermutes(Order(), given);
    SelectionSurvivesIff(x, req, r, p, Ordered(given));
    SelectedBytesFit(req, r, p);
    InjectionsFrom(x, ss);
    forall inj | inj in given ensures Allows(p, inj) {
      var s :| s in ss && s.status == S.Selected && inj == InjectionOf(x, s);
      SelectedWereCandidates(req, r, s);
      InjectionKeeps(x, s);
    }
  }
}
