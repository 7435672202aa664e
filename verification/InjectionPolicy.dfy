/** Context injections: the byte-budget policy and the prompt builder that feeds it in priority order. */
module InjectionPolicy {
  import opened Numbers
  import opened Options
  import opened Sequences
  import opened StableSort
  import opened Utf8
  import opened Utf8Char
  import opened Text
  import opened Trim
  import J = Json

  datatype Role = HighStatic | Frozen | SemiDynamic1 | SemiDynamic2 | TimelineOpen | Dynamic

  function RoleValue(r: Role): string {
    match r
    case HighStatic => "high_static"
    case Frozen => "frozen"
    case SemiDynamic1 => "semi_dynamic_1"
    case SemiDynamic2 => "semi_dynamic_2"
    case TimelineOpen => "timeline_open"
    case Dynamic => "dynamic"
  }

  datatype Injection = Injection(
    name: string, content: string, target: Role, source: string, priority: int, metadata: J.Object)

  datatype Status = Included | Trimmed | Empty | TargetDenied | TotalBudgetExceeded

  function StatusText(s: Status): string {
    match s
    case Included => "included"
    case Trimmed => "trimmed"
    case Empty => "empty"
    case TargetDenied => "target_denied"
    case TotalBudgetExceeded => "total_budget_exceeded"
  }

  datatype Decision = Decision(
    injection: Injection, status: Status, originalBytes: nat, finalBytes: nat, excludedReason: string)
  {
    predicate IsIncluded() {
      (status == Included || status == Trimmed) && finalBytes > 0
    }
  }

  /** A missing limit is None; allowedTargets = [] allows every target. */
  datatype Policy = Policy(
    maxInjectionBytes: Option<int>, maxTotalBytes: Option<int>, allowedTargets: seq<Role>, trimMarker: string)

  predicate Over(limit: Option<int>, n: int) {
    limit.Some? && n > limit.value
  }

  function Exclude(inj: Injection, status: Status, reason: string): Decision {
    Decision(inj, status, ByteLength(inj.content), 0, reason)
  }

  /** The injection with its final content, and the policy's record of it in the metadata. */
  function Governed(inj: Injection, content: string, status: Status): Injection {
    inj.(content := content,
         metadata := inj.metadata["context_injection_policy" := J.JObj(map[
           "original_bytes" := J.JInt(ByteLength(inj.content)),
           "final_bytes" := J.JInt(ByteLength(content)),
           "status" := J.JStr(StatusText(status))])])
  }

  function Grant(inj: Injection, content: string, status: Status): Decision {
    Decision(Governed(inj, content, status), status, ByteLength(inj.content), ByteLength(content), "")
  }

  /** One round of the policy's loop, with `total` bytes granted so far. */
  function Decide(p: Policy, inj: Injection, total: nat): Decision {
    if p.allowedTargets != [] && inj.target !in p.allowedTargets then
      Exclude(inj, TargetDenied, "target_not_allowed")
    else if Strip(inj.content) == "" then
      Exclude(inj, Empty, "empty_content")
    else
      var long := Over(p.maxInjectionBytes, ByteLength(inj.content));
      var content :=
        if long then TrimTextToBytes(inj.content, p.maxInjectionBytes.value, p.trimMarker) else inj.content;
      var status := if long then Trimmed else Included;
      if !Over(p.maxTotalBytes, total + ByteLength(content)) then
        Grant(inj, content, status)
      else if p.maxTotalBytes.value - total <= 0 then
        Exclude(inj, TotalBudgetExceeded, "total_budget_exceeded")
      else
        Grant(inj, TrimTextToBytes(content, p.maxTotalBytes.value - total, p.trimMarker), Trimmed)
  }

  function DecideAll(p: Policy, injs: seq<Injection>, total: nat): (ds: seq<Decision>)
    ensures |ds| == |injs|
  {
    if injs == [] then []
    else
      var d := Decide(p, injs[0], total);
      [d] + DecideAll(p, injs[1..], total + d.finalBytes)
  }

  function Granted(ds: seq<Decision>): nat {
    if ds == [] then 0 else ds[0].finalBytes + Granted(ds[1..])
  }

  lemma DecideNext(p: Policy, injs: seq<Injection>, i: nat, total: nat)
    requires i < |injs|
    ensures var d := Decide(p, injs[i], total);
            DecideAll(p, injs[i..], total) == [d] + DecideAll(p, injs[i + 1..], total + d.finalBytes)
  {
    hide Decide;
    assert injs[i..][0] == injs[i] && injs[i..][1..] == injs[i + 1..];
  }

  /** `ContextInjectionPolicy.apply` */
  method Apply(p: Policy, injections: seq<Injection>) returns (decisions: seq<Decision>)
    ensures decisions == DecideAll(p, injections, 0)
    ensures |decisions| == |injections|
    ensures forall i :: 0 <= i < |decisions| ==> Rightly(p, injections[i], decisions[i], Granted(decisions[..i]))
  {
    hide Decide, DecideAll, WithinBudget, Rightly;
    AllRightly(p, injections);
    decisions := [];
    var totalBytes, i := 0, 0;
    NothingLeft(p, injections, totalBytes);
    while i < |injections|
      invariant i <= |injections| && 0 <= totalBytes
      invariant decisions + DecideAll(p, injections[i..], totalBytes) == DecideAll(p, injections, 0)
    {
      var d := ApplyOne(p, injections[i], totalBytes);
      DecideNext(p, injections, i, totalBytes);
      totalBytes := totalBytes + d.finalBytes;
      AppendAssociates(decisions, [d], DecideAll(p, injections[i + 1..], totalBytes));
      decisions := decisions + [d];
      i := i + 1;
    }
    NothingLeft(p, injections, totalBytes);
  }

  /** The body of that loop. */
  method ApplyOne(p: Policy, inj: Injection, totalBytes: nat) returns (d: Decision)
    ensures d == Decide(p, inj, totalBytes) && WithinBudget(p, inj, d, totalBytes) && Rightly(p, inj, d, totalBytes)
  {
    DecideWithinBudget(p, inj, totalBytes);
    DecideRightly(p, inj, totalBytes);
    hide WithinBudget, Rightly;
    hide Strip, TrimTextToBytes, Encode, Governed;
    var originalBytes := ByteLength(inj.content);
    if p.allowedTargets != [] && inj.target !in p.allowedTargets {
      return Decision(inj, TargetDenied, originalBytes, 0, "target_not_allowed");
    }
    if Strip(inj.content) == "" {
      return Decision(inj, Empty, originalBytes, 0, "empty_content");
    }
    var content, status := inj.content, Included;
    if p.maxInjectionBytes.Some? && originalBytes > p.maxInjectionBytes.value {
      content := TrimTextToBytes(content, p.maxInjectionBytes.value, p.trimMarker);
      status := Trimmed;
    }
    var finalBytes := ByteLength(content);
    if p.maxTotalBytes.Some? && totalBytes + finalBytes > p.maxTotalBytes.value {
      var remaining := Max(0, p.maxTotalBytes.value - totalBytes);
      if remaining <= 0 {
        return Decision(inj, TotalBudgetExceeded, originalBytes, 0, "total_budget_exceeded");
      }
      content := TrimTextToBytes(content, remaining, p.trimMarker);
      finalBytes := ByteLength(content);
      status := Trimmed;
    }
    d := Decision(Governed(inj, content, status), status, originalBytes, finalBytes, "");
  }

  lemma NothingLeft(p: Policy, injs: seq<Injection>, total: nat)
    ensures DecideAll(p, injs[|injs|..], total) == [] && injs[0..] == injs
  {
  }

  // ----- budgets

  /** What one decision promises, given the bytes granted before it. */
  ghost predicate WithinBudget(p: Policy, inj: Injection, d: Decision, before: nat) {
    && d.injection.(content := inj.content, metadata := inj.metadata) == inj
    && d.originalBytes == ByteLength(inj.content)
    && d.finalBytes <= d.originalBytes
    && (d.IsIncluded() ==> d.finalBytes == ByteLength(d.injection.content))
    && (p.maxInjectionBytes.Some? ==> d.finalBytes <= Max(0, p.maxInjectionBytes.value))
    && (p.maxTotalBytes.Some? && before <= Max(0, p.maxTotalBytes.value) ==>
          before + d.finalBytes <= Max(0, p.maxTotalBytes.value))
    && (d.status == Trimmed <==> (d.status == Included || d.status == Trimmed) && d.finalBytes < d.originalBytes)
    && (d.status == Included ==> d.injection.content == inj.content)
    && (d.status == TotalBudgetExceeded ==>
          p.maxTotalBytes.Some? && Max(0, p.maxTotalBytes.value) <= before)
  }

  lemma NotEmpty(s: string)
    requires Strip(s) != ""
    ensures ByteLength(s) > 0
  {
    StripBlank(s);
    assert s != "";
  }

  lemma DecideWithinBudget(p: Policy, inj: Injection, total: nat)
    ensures WithinBudget(p, inj, Decide(p, inj, total), total)
  {
    hide Strip, Encode, TrimTextToBytes;
    if Strip(inj.content) != "" {
      NotEmpty(inj.content);
      var long := Over(p.maxInjectionBytes, ByteLength(inj.content));
      var content := inj.content;
      if long {
        TrimFits(inj.content, p.maxInjectionBytes.value, p.trimMarker);
        content := TrimTextToBytes(inj.content, p.maxInjectionBytes.value, p.trimMarker);
      }
      if p.maxTotalBytes.Some? {
        TrimFits(content, p.maxTotalBytes.value - total, p.trimMarker);
      }
    }
  }

  predicate Admits(p: Policy, inj: Injection) {
    p.allowedTargets == [] || inj.target in p.allowedTargets
  }

  /**
    Which status an injection gets, with `before` bytes granted so far, and what is recorded with it. What is
    admitted is cut to the item limit first and to the rest of the total then.
    */
  ghost predicate Rightly(p: Policy, inj: Injection, d: Decision, before: nat) {
    var once := TrimWithin(inj.content, p.maxInjectionBytes, p.trimMarker);
    var overflows := p.maxTotalBytes.Some? && p.maxTotalBytes.value < before + ByteLength(once);
    && d.originalBytes == ByteLength(inj.content)
    && (d.status == TargetDenied <==> !Admits(p, inj))
    && (d.status == Empty <==> Admits(p, inj) && Blank(inj.content))
    && (d.status == TotalBudgetExceeded <==>
          Admits(p, inj) && !Blank(inj.content) && overflows && p.maxTotalBytes.value <= before)
    && (d.status == Included <==>
          && Admits(p, inj) && !Blank(inj.content) && !overflows
          && (p.maxInjectionBytes.Some? ==> ByteLength(inj.content) <= p.maxInjectionBytes.value))
    && (match d.status
        case TargetDenied => Refused(inj, d, "target_not_allowed")
        case Empty => Refused(inj, d, "empty_content")
        case TotalBudgetExceeded => Refused(inj, d, "total_budget_exceeded")
        case Included => Recorded(inj, d, inj.content, "included")
        case Trimmed => Recorded(inj, d, TrimWithin(once, RestOfTotal(p, before), p.trimMarker), "trimmed"))
  }

  /** Nothing is granted, the injection is left alone, and the reason is given. */
  predicate Refused(inj: Injection, d: Decision, reason: string) {
    d.injection == inj && d.finalBytes == 0 && d.excludedReason == reason
  }

  /** The injection has this content, and its metadata gained a record of three entries and kept the others. */
  ghost predicate Recorded(inj: Injection, d: Decision, content: string, status: string) {
    var before, after := inj.metadata, d.injection.metadata;
    && d.injection.(metadata := before) == inj.(content := content)
    && d.finalBytes == ByteLength(content) && d.excludedReason == ""
    && after.Keys == before.Keys + {"context_injection_policy"}
    && (forall k | k in before && k != "context_injection_policy" :: after[k] == before[k])
    && after["context_injection_policy"].JObj?
    && var record := after["context_injection_policy"].fields;
       && record.Keys == {"original_bytes", "final_bytes", "status"}
       && record["original_bytes"] == J.JInt(ByteLength(inj.content))
       && record["final_bytes"] == J.JInt(ByteLength(content))
       && record["status"] == J.JStr(status)
  }

  lemma GovernedIsRecorded(inj: Injection, content: string, status: Status)
    requires status == Included || status == Trimmed
    ensures Recorded(inj, Grant(inj, content, status), content, if status == Included then "included" else "trimmed")
  {
    hide ByteLength;
  }

  lemma DecideRightly(p: Policy, inj: Injection, total: nat)
    ensures Rightly(p, inj, Decide(p, inj, total), total)
  {
    hide Strip, ByteLength, Recorded, Grant, Blank;
    StripBlank(inj.content);
    if Admits(p, inj) && !Blank(inj.content) {
      var once := TrimWithin(inj.content, p.maxInjectionBytes, p.trimMarker);
      var long := Over(p.maxInjectionBytes, ByteLength(inj.content));
      FitsUntouched(inj.content, p.maxInjectionBytes, p.trimMarker);
      FitsUntouched(once, RestOfTotal(p, total), p.trimMarker);
      hide TrimWithin;
      var rest := TrimWithin(once, RestOfTotal(p, total), p.trimMarker);
      var status := if long || Over(p.maxTotalBytes, total + ByteLength(once)) then Trimmed else Included;
      DecideGrants(p, inj, total);
      GovernedIsRecorded(inj, rest, status);
      GrantIs(inj, rest, status);
      hide Decide;
    }
  }

  lemma FitsUntouched(text: string, limit: Option<int>, marker: string)
    ensures !Over(limit, ByteLength(text)) ==> TrimWithin(text, limit, marker) == text
  {
    hide Encode, TrimTextToBytes;
    if limit.Some? {
      TrimIdempotent(text, limit.value, marker);
    }
  }

  lemma GrantIs(inj: Injection, content: string, status: Status)
    ensures var d := Grant(inj, content, status);
            d.status == status && d.originalBytes == ByteLength(inj.content)
  {
    hide ByteLength;
  }

  /** Admitted content is refused when nothing remains of the total, and granted after both trims otherwise. */
  lemma DecideGrants(p: Policy, inj: Injection, total: nat)
    requires Admits(p, inj) && Strip(inj.content) != ""
    ensures var once := TrimWithin(inj.content, p.maxInjectionBytes, p.trimMarker);
            var long := Over(p.maxInjectionBytes, ByteLength(inj.content));
            var overflows := Over(p.maxTotalBytes, total + ByteLength(once));
            Decide(p, inj, total) ==
            if overflows && p.maxTotalBytes.value <= total
            then Exclude(inj, TotalBudgetExceeded, "total_budget_exceeded")
            else Grant(inj, TrimWithin(once, RestOfTotal(p, total), p.trimMarker),
                       if long || overflows then Trimmed else Included)
  {
    hide Strip, ByteLength, Grant, TrimTextToBytes;
    FitsUntouched(inj.content, p.maxInjectionBytes, p.trimMarker);
    FitsUntouched(TrimWithin(inj.content, p.maxInjectionBytes, p.trimMarker), RestOfTotal(p, total), p.trimMarker);
  }

  lemma {:induction false} DecisionAt(p: Policy, injs: seq<Injection>, total: nat, i: nat)
    requires i < |injs|
    ensures var ds := DecideAll(p, injs, total); ds[i] == Decide(p, injs[i], total + Granted(ds[..i]))
  {
    hide Decide;
    if i > 0 {
      var d := Decide(p, injs[0], total);
      var rest := DecideAll(p, injs[1..], total + d.finalBytes);
      DecisionAt(p, injs[1..], total + d.finalBytes, i - 1);
      GrantedCons(d, rest, i - 1);
      assert DecideAll(p, injs, total) == [d] + rest;
    }
  }

  /** Every decision of a run is the right one, given what was granted before it. */
  lemma AllRightly(p: Policy, injs: seq<Injection>)
    ensures var ds := DecideAll(p, injs, 0);
            forall i :: 0 <= i < |ds| ==> Rightly(p, injs[i], ds[i], Granted(ds[..i]))
  {
    hide Decide, DecideAll, Rightly;
    var ds := DecideAll(p, injs, 0);
    forall i | 0 <= i < |ds| ensures Rightly(p, injs[i], ds[i], Granted(ds[..i])) {
      DecisionAt(p, injs, 0, i);
      DecideRightly(p, injs[i], Granted(ds[..i]));
    }
  }

  /** The same of a whole run of decisions that starts with `total` bytes granted. */
  ghost predicate AllWithinBudget(p: Policy, injs: seq<Injection>, ds: seq<Decision>, total: nat) {
    && |ds| == |injs|
    && forall i :: 0 <= i < |ds| ==> WithinBudget(p, injs[i], ds[i], total + Granted(ds[..i]))
  }

  lemma EachWithinBudget(p: Policy, injs: seq<Injection>, total: nat)
    ensures AllWithinBudget(p, injs, DecideAll(p, injs, total), total)
  {
    hide Decide, DecideAll, WithinBudget;
    var ds := DecideAll(p, injs, total);
    forall i | 0 <= i < |ds| ensures WithinBudget(p, injs[i], ds[i], total + Granted(ds[..i])) {
      DecisionAt(p, injs, total, i);
      DecideWithinBudget(p, injs[i], total + Granted(ds[..i]));
    }
  }

  lemma GrantedCons(d: Decision, ds: seq<Decision>, n: nat)
    requires n <= |ds|
    ensures Granted(([d] + ds)[..n + 1]) == d.finalBytes + Granted(ds[..n])
  {
    assert ([d] + ds)[..n + 1] == [d] + ds[..n];
  }

  lemma {:induction false} TotalGrows(p: Policy, injs: seq<Injection>, ds: seq<Decision>, total: nat, n: nat)
    requires AllWithinBudget(p, injs, ds, total) && n <= |ds|
    requires p.maxTotalBytes.Some? && total <= Max(0, p.maxTotalBytes.value)
    ensures total + Granted(ds[..n]) <= Max(0, p.maxTotalBytes.value)
  {
    if n > 0 {
      TotalGrows(p, injs, ds, total, n - 1);
      GrantedAppend(ds[..n - 1], ds[n - 1]);
      assert ds[..n] == ds[..n - 1] + [ds[n - 1]];
    }
  }

  lemma {:induction false} GrantedAppend(ds: seq<Decision>, d: Decision)
    ensures Granted(ds + [d]) == Granted(ds) + d.finalBytes
  {
    if ds != [] {
      assert (ds + [d])[1..] == ds[1..] + [d];
      GrantedAppend(ds[1..], d);
    }
  }

  /**
    Every decision is about the injection in its own place, and each one, and all together, stay
    within the budgets. An injection is refused for the total only once the total is used up exactly.
    */
  lemma BudgetsHold(p: Policy, injs: seq<Injection>)
    ensures var ds := DecideAll(p, injs, 0);
            && AllWithinBudget(p, injs, ds, 0)
            && (p.maxTotalBytes.Some? ==> Granted(ds) <= Max(0, p.maxTotalBytes.value))
            && forall i :: 0 <= i < |ds| && ds[i].status == TotalBudgetExceeded ==>
                 p.maxTotalBytes.Some? && Granted(ds[..i]) == Max(0, p.maxTotalBytes.value)
  {
    hide Decide;
    var ds := DecideAll(p, injs, 0);
    EachWithinBudget(p, injs, 0);
    if p.maxTotalBytes.Some? {
      forall n | 0 <= n <= |ds| ensures Granted(ds[..n]) <= Max(0, p.maxTotalBytes.value) {
        TotalGrows(p, injs, ds, 0, n);
      }
      assert ds[..|ds|] == ds;
    }
  }

  // ----- independence and stability

  /** Later injections cannot change earlier decisions. */
  lemma {:induction false} DecisionsExtend(p: Policy, xs: seq<Injection>, ys: seq<Injection>, total: nat)
    ensures DecideAll(p, xs + ys, total) ==
            DecideAll(p, xs, total) + DecideAll(p, ys, total + Granted(DecideAll(p, xs, total)))
  {
    hide Decide;
    if xs == [] {
      assert xs + ys == ys;
    } else {
      var d := Decide(p, xs[0], total);
      assert (xs + ys)[0] == xs[0] && (xs + ys)[1..] == xs[1..] + ys;
      DecisionsExtend(p, xs[1..], ys, total + d.finalBytes);
      assert DecideAll(p, xs, total)[1..] == DecideAll(p, xs[1..], total + d.finalBytes);
    }
  }

  /** `tuple(d.injection for d in decisions if d.included)` */
  function IncludedInjections(ds: seq<Decision>): seq<Injection> {
    if ds == [] then []
    else (if ds[0].IsIncluded() then [ds[0].injection] else []) + IncludedInjections(ds[1..])
  }

  /** Unless it is blank, the injection is included in full. */
  predicate Stays(inj: Injection, d: Decision) {
    if Blank(inj.content) then d.status == Empty
    else d.status == Included && d.injection.content == inj.content && d.finalBytes == d.originalBytes
  }

  lemma DecideAgain(p: Policy, inj: Injection, total: nat, again: nat)
    requires Decide(p, inj, total).IsIncluded() && again <= total
    requires p.maxTotalBytes.Some? ==> total <= Max(0, p.maxTotalBytes.value)
    ensures var d := Decide(p, inj, total);
            var d2 := Decide(p, d.injection, again);
            d2.finalBytes <= d.finalBytes && Stays(d.injection, d2)
  {
    hide Strip, TrimTextToBytes, Encode;
    DecideWithinBudget(p, inj, total);
    StripBlank(Decide(p, inj, total).injection.content);
  }

  ghost predicate AllStay(injs: seq<Injection>, ds: seq<Decision>) {
    |ds| == |injs| && forall i :: 0 <= i < |injs| ==> Stays(injs[i], ds[i])
  }

  lemma AllStayCons(inj: Injection, d: Decision, injs: seq<Injection>, ds: seq<Decision>)
    requires Stays(inj, d) && AllStay(injs, ds)
    ensures AllStay([inj] + injs, [d] + ds)
  {
  }

  /**
    Feeding the included injections back through the policy changes nothing: whatever is not blank
    is included again with the same content. Blank content can only come from trimming.
    */
  lemma {:induction false} ReapplyKeeps(p: Policy, injs: seq<Injection>, total: nat, again: nat)
    requires again <= total
    requires p.maxTotalBytes.Some? ==> total <= Max(0, p.maxTotalBytes.value)
    ensures var once := IncludedInjections(DecideAll(p, injs, total));
            AllStay(once, DecideAll(p, once, again))
  {
    hide Decide, Stays, AllStay;
    if injs == [] {
      NothingStays();
    } else {
      var d := Decide(p, injs[0], total);
      var rest := DecideAll(p, injs[1..], total + d.finalBytes);
      var onceRest := IncludedInjections(rest);
      var ds := DecideAll(p, injs, total);
      assert ds[0] == d && ds[1..] == rest;
      DecideWithinBudget(p, injs[0], total);
      if d.IsIncluded() {
        DecideAgain(p, injs[0], total, again);
        var d2 := Decide(p, d.injection, again);
        var twiceRest := DecideAll(p, onceRest, again + d2.finalBytes);
        ReapplyKeeps(p, injs[1..], total + d.finalBytes, again + d2.finalBytes);
        AllStayCons(d.injection, d2, onceRest, twiceRest);
        assert IncludedInjections(ds) == [d.injection] + onceRest;
        assert DecideAll(p, [d.injection] + onceRest, again) == [d2] + twiceRest;
      } else {
        ReapplyKeeps(p, injs[1..], total + d.finalBytes, again);
        assert IncludedInjections(ds) == onceRest;
      }
    }
  }

  lemma NothingStays()
    ensures AllStay([], [])
  {
  }

  lemma SpaceXTrims()
    ensures ByteLength(" x") == 2 && ByteLength(" ") == 1
    ensures TrimTextToBytes(" x", 1, "...") == " "
  {
    assert Encode("x") == [0x78];
    assert Encode(" x") == [0x20, 0x78];
    assert Encode(" ") == [0x20];
    assert "..."[1..] == "..";
    assert ByteLength("...") == |EncodeChar('.')| + ByteLength("..");
    hide TrimTextToBytes, Encode;
    var k := TrimBelowMarker(" x", 1, "...");
    assert " x"[..1] == " " && " x"[..2] == " x" && " x"[..0] == "";
  }

  lemma SpaceXStrips()
    ensures Strip(" x") != "" && Strip(" ") == ""
  {
    hide Strip;
    StripBlank(" x");
    assert !IsSpace(" x"[1]);
    StripBlank(" ");
  }

  /** The blank case is real: a text that starts with white space can be cut down to just that. */
  lemma BlankAfterTrimming()
    ensures var p := Policy(Some(1), None, [], "...");
            var ds := DecideAll(p, [Injection("n", " x", Dynamic, "", 0, map[])], 0);
            var once := IncludedInjections(ds);
            && ds[0].status == Trimmed && |once| == 1 && Blank(once[0].content)
            && DecideAll(p, once, 0)[0].status == Empty
  {
    SpaceXTrims();
    SpaceXStrips();
    StripBlank(" ");
    hide TrimTextToBytes, Strip, Encode, Blank;
    var p := Policy(Some(1), None, [], "...");
    var d := Decide(p, Injection("n", " x", Dynamic, "", 0, map[]), 0);
    assert d.injection.content == " " && d.IsIncluded();
    assert DecideAll(p, [Injection("n", " x", Dynamic, "", 0, map[])], 0) == [d];
    assert IncludedInjections([d]) == [d.injection];
  }

  /** What is left of the total. */
  function RestOfTotal(p: Policy, total: nat): Option<int> {
    if p.maxTotalBytes.Some? then Some(p.maxTotalBytes.value - total) else None
  }

  /**
    What a caller can see beforehand: the target is allowed, and a content that is not blank is cut by the
    tighter limit, below the marker, to leading white space, and by no item limit above the marker.
    */
  ghost predicate CutToBlank(p: Policy, inj: Injection, total: nat) {
    var limit, size := Tighter(p.maxInjectionBytes, RestOfTotal(p, total)), ByteLength(inj.content);
    && Admits(p, inj) && !Blank(inj.content)
    && limit.Some? && 0 < limit.value < size && limit.value <= ByteLength(p.trimMarker)
    && (p.maxInjectionBytes.Some? && p.maxInjectionBytes.value < size ==>
          p.maxInjectionBytes.value <= ByteLength(p.trimMarker))
    && BlankPrefix(inj.content, limit.value)
  }

  /** Whatever the policy grants is the content after both trims. */
  lemma GrantedIsTrimmed(p: Policy, inj: Injection, total: nat)
    ensures var d := Decide(p, inj, total);
            var once := TrimWithin(inj.content, p.maxInjectionBytes, p.trimMarker);
            var r := TrimWithin(once, RestOfTotal(p, total), p.trimMarker);
            && (d.IsIncluded() <==> Admits(p, inj) && Strip(inj.content) != "" && r != "")
            && (d.IsIncluded() ==> d.injection.content == r)
  {
    hide Strip, Encode, ByteLength, TrimTextToBytes;
    if p.maxInjectionBytes.Some? {
      TrimIdempotent(inj.content, p.maxInjectionBytes.value, p.trimMarker);
    }
    var content := TrimWithin(inj.content, p.maxInjectionBytes, p.trimMarker);
    EmptyLength(content);
    EmptyLength(inj.content);
    if p.maxTotalBytes.Some? {
      var rest := p.maxTotalBytes.value - total;
      TrimIdempotent(content, rest, p.trimMarker);
      TrimFits(content, rest, p.trimMarker);
      EmptyLength(TrimTextToBytes(content, rest, p.trimMarker));
    }
  }

  /** What the policy includes is blank exactly when it cuts the content to leading white space. */
  lemma IncludedBlankIff(p: Policy, inj: Injection, total: nat)
    ensures var d := Decide(p, inj, total);
            d.IsIncluded() && Blank(d.injection.content) <==> CutToBlank(p, inj, total)
  {
    hide Decide, Strip, ByteLength, Blank, BlankPrefix, TrimWithin, Tighter;
    GrantedIsTrimmed(p, inj, total);
    StripBlank(inj.content);
    if !Blank(inj.content) {
      TwiceTrimmedToBlankIff(inj.content, p.maxInjectionBytes, RestOfTotal(p, total), p.trimMarker);
    }
  }

  // ----- the builder's order

  /** The sort key `(-priority, target.value, name)` */
  predicate Precedes(a: Injection, b: Injection) {
    if a.priority != b.priority then a.priority > b.priority
    else if RoleValue(a.target) != RoleValue(b.target) then StrLeq(RoleValue(a.target), RoleValue(b.target))
    else StrLeq(a.name, b.name)
  }

  function Order(): (Injection, Injection) -> bool {
    (a, b) => Precedes(a, b)
  }

  lemma OrderIsTotal()
    ensures TotalPreorder(Order())
  {
    StrLeqOrders();
    forall x, y ensures Order()(x, y) || Order()(y, x) {
    }
    forall x, y, z | Order()(x, y) && Order()(y, z) ensures Order()(x, z) {
    }
  }

  /** `_ordered_injections` */
  function Ordered(injs: seq<Injection>): seq<Injection> {
    Sort(Order(), injs)
  }

  /** The place of a bucket in the alphabetical order of their names. */
  function Place(r: Role): nat {
    match r
    case Dynamic => 0
    case Frozen => 1
    case HighStatic => 2
    case SemiDynamic1 => 3
    case SemiDynamic2 => 4
    case TimelineOpen => 5
  }

  lemma BucketsByName(a: Role, b: Role)
    ensures StrLeq(RoleValue(a), RoleValue(b)) <==> Place(a) <= Place(b)
  {
    Initial(a);
    Initial(b);
    SemiDynamicInOrder();
    StrLeqTotal(RoleValue(a), RoleValue(a));
    hide StrLeq, RoleValue;
    if RoleValue(a)[0] < RoleValue(b)[0] {
      StrLeqInitial(RoleValue(a), RoleValue(b));
    } else if RoleValue(b)[0] < RoleValue(a)[0] {
      StrLeqInitial(RoleValue(b), RoleValue(a));
    }
  }

  lemma Initial(r: Role)
    ensures RoleValue(r) != ""
    ensures RoleValue(r)[0] == match r
                               case Dynamic => 'd'
                               case Frozen => 'f'
                               case HighStatic => 'h'
                               case TimelineOpen => 't'
                               case _ => 's'
  {
  }

  lemma SemiDynamicInOrder()
    ensures StrLeq(RoleValue(SemiDynamic1), RoleValue(SemiDynamic2))
    ensures !StrLeq(RoleValue(SemiDynamic2), RoleValue(SemiDynamic1))
  {
    StrLeqAppend("semi_dynamic_", "1", "2");
    StrLeqAppend("semi_dynamic_", "2", "1");
    assert "semi_dynamic_" + "1" == "semi_dynamic_1" && "semi_dynamic_" + "2" == "semi_dynamic_2";
  }

  /** Higher priorities come first, then buckets by name, then injections by name; equals keep their order. */
  lemma OrderedByKey(injs: seq<Injection>, i: nat, j: nat)
    requires i < j < |injs|
    ensures |Ordered(injs)| == |injs|
    ensures var a, b := Ordered(injs)[i], Ordered(injs)[j];
            && a.priority >= b.priority
            && (a.priority == b.priority ==>
                  && Place(a.target) <= Place(b.target)
                  && (a.target == b.target ==> StrLeq(a.name, b.name)))
    ensures forall k :: Filter(Peers(Order(), k), Ordered(injs)) == Filter(Peers(Order(), k), injs)
  {
    hide Sort, Filter;
    OrderIsTotal();
    SortPermutes(Order(), injs);
    StableSortIsUnique(Order(), injs, Ordered(injs));
    assert Order()(Ordered(injs)[i], Ordered(injs)[j]);
    StrLeqOrders();
    BucketsByName(Ordered(injs)[i].target, Ordered(injs)[j].target);
  }

  function BuilderDecisions(p: Policy, injs: seq<Injection>): seq<Decision> {
    DecideAll(p, Ordered(injs), 0)
  }

  function AtLeast(priority: int): Injection -> bool {
    (inj: Injection) => inj.priority >= priority
  }

  function Below(priority: int): Injection -> bool {
    (inj: Injection) => inj.priority < priority
  }

  /**
    Wherever lower-priority injections sit in the list, and whatever they hold, the decisions on the
    others are what they would be without them.
    */
  lemma LowerPriorityNeverInterferes(p: Policy, injs: seq<Injection>, priority: int)
    ensures BuilderDecisions(p, Filter(AtLeast(priority), injs)) <= BuilderDecisions(p, injs)
  {
    var high, low := Filter(AtLeast(priority), injs), Filter(Below(priority), injs);
    OrderIsTotal();
    SortSplit(Order(), AtLeast(priority), Below(priority), injs);
    DecisionsExtend(p, Ordered(high), Ordered(low), 0);
  }

  // ----- the builder's buckets

  /** `ContextInjection.render` */
  function Render(inj: Injection): string {
    var body := Strip(inj.content);
    var source := if inj.source != "" then " source=" + inj.source else "";
    if body == "" then "" else "[context_injection:" + inj.name + source + "]\n" + body
  }

  /** The texts `_add_injections` adds to one bucket, in order. */
  function Section(injs: seq<Injection>, role: Role): seq<string> {
    if injs == [] then []
    else
      (if injs[0].target == role && Render(injs[0]) != "" then [Render(injs[0])] else [])
      + Section(injs[1..], role)
  }

  /** A bucket holds the texts of its own injections that are not blank, in order. */
  lemma {:induction false} SectionMeans(injs: seq<Injection>, role: Role)
    ensures Section(injs, role) ==
            Map((inj: Injection) => Render(inj),
                Filter((inj: Injection) => inj.target == role && !Blank(inj.content), injs))
  {
    hide Render, Blank;
    if injs != [] {
      SectionMeans(injs[1..], role);
      RenderBlank(injs[0]);
    }
  }

  /** A rendered injection is a heading line and the content between its outer white space. */
  lemma RenderMeans(inj: Injection) returns (i: nat, j: nat)
    requires !Blank(inj.content)
    ensures i < j <= |inj.content| && Blank(inj.content[..i]) && Blank(inj.content[j..])
    ensures !IsSpace(inj.content[i]) && !IsSpace(inj.content[j - 1])
    ensures Render(inj) == (if inj.source == "" then "[context_injection:" + inj.name + "]\n"
                            else "[context_injection:" + inj.name + " source=" + inj.source + "]\n")
                           + inj.content[i..j]
  {
    hide Blank, IsSpace, Strip;
    StripBlank(inj.content);
    i, j := StripSlices(inj.content);
    assert Strip(inj.content) == inj.content[i..j] != "";
  }

  function NonBlankRenders(injs: seq<Injection>): seq<string> {
    if injs == [] then []
    else (if Blank(injs[0].content) then [] else [Render(injs[0])]) + NonBlankRenders(injs[1..])
  }

  function SectionCount(injs: seq<Injection>, role: Role, text: string): nat {
    multiset(Section(injs, role))[text]
  }

  lemma {:induction false} SectionsCount(injs: seq<Injection>, text: string)
    ensures SectionCount(injs, HighStatic, text) + SectionCount(injs, Frozen, text)
            + SectionCount(injs, SemiDynamic1, text) + SectionCount(injs, SemiDynamic2, text)
            + SectionCount(injs, TimelineOpen, text) + SectionCount(injs, Dynamic, text)
            == multiset(NonBlankRenders(injs))[text]
  {
    hide Render, Section, Blank, SectionCount;
    NoSections(text);
    if injs != [] {
      SectionsCount(injs[1..], text);
      RenderBlank(injs[0]);
      SectionNext(injs, HighStatic, text);
      SectionNext(injs, Frozen, text);
      SectionNext(injs, SemiDynamic1, text);
      SectionNext(injs, SemiDynamic2, text);
      SectionNext(injs, TimelineOpen, text);
      SectionNext(injs, Dynamic, text);
    }
  }

  /** Every included injection that is not blank lands in exactly one of the six buckets. */
  lemma SectionsPartition(injs: seq<Injection>)
    ensures multiset(Section(injs, HighStatic)) + multiset(Section(injs, Frozen))
            + multiset(Section(injs, SemiDynamic1)) + multiset(Section(injs, SemiDynamic2))
            + multiset(Section(injs, TimelineOpen)) + multiset(Section(injs, Dynamic))
            == multiset(NonBlankRenders(injs))
  {
    hide Section, NonBlankRenders;
    forall text {
      SectionsCount(injs, text);
    }
  }

  lemma RenderBlank(inj: Injection)
    ensures Render(inj) == "" <==> Blank(inj.content)
  {
    StripBlank(inj.content);
  }

  lemma NoSections(text: string)
    ensures forall role :: SectionCount([], role, text) == 0
  {
  }

  lemma SectionNext(injs: seq<Injection>, role: Role, text: string)
    requires injs != []
    ensures SectionCount(injs, role, text)
            == (if injs[0].target == role && Render(injs[0]) == text != "" then 1 else 0)
               + SectionCount(injs[1..], role, text)
  {
    hide Render;
  }
}
