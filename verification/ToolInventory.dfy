/** The fixed tool inventory of a prompt: which enabled tools are listed within a byte budget. */
module ToolInventory {
  import opened Options
  import opened Sequences
  import opened StableSort
  import opened Text
  import opened Utf8
  import opened Greedy

  /** pinned is the truth of the metadata flags `fixed_inventory` and `core_inventory`. */
  datatype ToolSpec = ToolSpec(
    name: string, description: string, tags: seq<string>, aliases: seq<string>, enabled: bool, pinned: bool)

  /** The lines shown, and the number of tools the closing line reports as omitted. */
  datatype Inventory = Inventory(lines: seq<string>, omitted: nat)

  const PRIORITY: seq<string> := [
    "search_capabilities", "search_tools", "load_capability", "load_skill_resource", "query_mcp_servers",
    "query_mcp_tools", "read_file", "write_file", "modify_file", "find_file", "grep", "tree", "bash", "cmd",
    "exec", "web_search", "do_http_request", "batch_do_http_request"]

  const CORE_TAGS: seq<string> := ["core", "fixed", "stable", "base"]

  function Commas(xs: seq<string>): string {
    if xs == [] then "" else if |xs| == 1 then xs[0] else xs[0] + "," + Commas(xs[1..])
  }

  /** `_format_fixed_tool_inventory_line` */
  function Line(t: ToolSpec): string {
    StripRight(
      "- " + t.name
      + (if t.tags != [] then " tags=" + Commas(t.tags) else "")
      + (if t.aliases != [] then " aliases=" + Commas(t.aliases) else "")
      + (if t.description != "" then ": " + t.description else ""))
  }

  lemma NothingStripped(s: string)
    requires s != "" && !IsSpace(s[|s| - 1])
    ensures StripRight(s) == s
  {
  }

  /** A tool that has only a name is listed by it. */
  lemma PlainLine(t: ToolSpec)
    requires t.name != "" && !IsSpace(t.name[|t.name| - 1]) && t.tags == [] && t.aliases == [] && t.description == ""
    ensures Line(t) == "- " + t.name
  {
    var s := "- " + t.name + "" + "" + "";
    assert s == "- " + t.name;
    NothingStripped(s);
  }

  /** What else it has follows, lists with commas between their entries. */
  lemma FullLine(t: ToolSpec, tag: string, other: string, alias: string)
    requires t.description != "" && !IsSpace(t.description[|t.description| - 1])
    requires t.tags == [tag, other] && t.aliases == [alias]
    ensures Line(t) == "- " + t.name + " tags=" + tag + "," + other + " aliases=" + alias + ": " + t.description
  {
    assert [tag, other][1..] == [other];
    var tags, aliases := " tags=" + Commas(t.tags), " aliases=" + Commas(t.aliases);
    assert Commas(t.tags) == tag + "," + other;
    assert tags == " tags=" + tag + "," + other;
    var s := "- " + t.name + tags + aliases + (": " + t.description);
    assert s[|s| - 1] == t.description[|t.description| - 1];
    NothingStripped(s);
  }

  /** What a line takes up, with its line break. */
  function LineBytes(line: string): nat {
    ByteLength(line + "\n")
  }

  function Sizes(lines: seq<string>): (r: seq<nat>)
    ensures |r| == |lines|
  {
    if lines == [] then [] else [LineBytes(lines[0])] + Sizes(lines[1..])
  }

  function Lines(ts: seq<ToolSpec>): (r: seq<string>)
    ensures |r| == |ts|
  {
    if ts == [] then [] else [Line(ts[0])] + Lines(ts[1..])
  }

  // ----- which tools, in which order

  /** Names are compared after `str.casefold`, here `fold`; the priority names are their own folds. */
  predicate IsFixed(fold: string -> string, t: ToolSpec) {
    fold(t.name) in PRIORITY || t.pinned || exists tag | tag in t.tags :: fold(tag) in CORE_TAGS
  }

  function Fixed(fold: string -> string): ToolSpec -> bool {
    (t: ToolSpec) => IsFixed(fold, t)
  }

  function Unfixed(fold: string -> string): ToolSpec -> bool {
    (t: ToolSpec) => !IsFixed(fold, t)
  }

  function Enabled(): ToolSpec -> bool {
    (t: ToolSpec) => t.enabled
  }

  function IndexOf(names: seq<string>, name: string): nat {
    if names == [] || names[0] == name then 0 else 1 + IndexOf(names[1..], name)
  }

  predicate FoldedBefore(fold: string -> string, a: ToolSpec, b: ToolSpec) {
    StrLeq(fold(a.name), fold(b.name))
  }

  /** The place in the priority list, its length for other names, and then the name. */
  predicate PriorityBefore(fold: string -> string, a: ToolSpec, b: ToolSpec) {
    var i, j := IndexOf(PRIORITY, fold(a.name)), IndexOf(PRIORITY, fold(b.name));
    if i != j then i < j else FoldedBefore(fold, a, b)
  }

  function ByPriority(fold: string -> string): (ToolSpec, ToolSpec) -> bool {
    (a: ToolSpec, b: ToolSpec) => PriorityBefore(fold, a, b)
  }

  function ByName(fold: string -> string): (ToolSpec, ToolSpec) -> bool {
    (a: ToolSpec, b: ToolSpec) => FoldedBefore(fold, a, b)
  }

  /** Fixed tools if there are any; otherwise all of them when there are at most twenty. */
  function Ordered(fold: string -> string, specs: seq<ToolSpec>): seq<ToolSpec> {
    var fixed, remaining := Filter(Fixed(fold), specs), Filter(Unfixed(fold), specs);
    if fixed != [] then Sort(ByPriority(fold), fixed)
    else if |specs| <= 20 then Sort(ByName(fold), remaining)
    else []
  }

  lemma PriorityIsTotal(fold: string -> string)
    ensures TotalPreorder(ByPriority(fold))
  {
    StrLeqOrders();
    hide IndexOf;
    var leq := ByPriority(fold);
    forall x, y ensures leq(x, y) || leq(y, x) {
    }
    forall x, y, z | leq(x, y) && leq(y, z) ensures leq(x, z) {
    }
  }

  lemma {:induction false} IndexOfMeans(names: seq<string>, name: string)
    ensures var i := IndexOf(names, name);
            i <= |names| && (i < |names| <==> name in names) && (i < |names| ==> names[i] == name)
  {
    if names != [] && names[0] != name {
      IndexOfMeans(names[1..], name);
    }
  }

  /**
    Once there is a fixed tool only fixed tools are listed, all of them, and those with a priority name
    come first and in the order of the priority list.
    */
  lemma FixedToolsInOrder(fold: string -> string, specs: seq<ToolSpec>)
    requires exists t :: t in specs && IsFixed(fold, t)
    ensures var ordered := Ordered(fold, specs);
            && (forall t :: t in ordered <==> t in specs && IsFixed(fold, t))
            && multiset(ordered) == multiset(Filter(Fixed(fold), specs))
            && forall i, j :: 0 <= i < j < |ordered| ==>
                 var a, b := fold(ordered[i].name), fold(ordered[j].name);
                 && IndexOf(PRIORITY, a) <= IndexOf(PRIORITY, b)
                 && (IndexOf(PRIORITY, a) == IndexOf(PRIORITY, b) ==> StrLeq(a, b))
  {
    hide IsFixed, Sort, IndexOf, StrLeq;
    SortPermutes(ByPriority(fold), Filter(Fixed(fold), specs));
    var fixed := Filter(Fixed(fold), specs);
    var t :| t in specs && IsFixed(fold, t);
    assert t in fixed;
    SortMembers(ByPriority(fold), fixed);
    PriorityIsTotal(fold);
    SortSorts(ByPriority(fold), fixed);
    var ordered := Ordered(fold, specs);
    forall i, j | 0 <= i < j < |ordered|
      ensures var a, b := fold(ordered[i].name), fold(ordered[j].name);
              && IndexOf(PRIORITY, a) <= IndexOf(PRIORITY, b)
              && (IndexOf(PRIORITY, a) == IndexOf(PRIORITY, b) ==> StrLeq(a, b))
    {
      assert ByPriority(fold)(ordered[i], ordered[j]);
    }
  }

  /** Without a fixed tool, up to twenty tools are listed, all of them by name, and more are not listed at all. */
  lemma OtherToolsInOrder(fold: string -> string, specs: seq<ToolSpec>)
    requires forall t | t in specs :: !IsFixed(fold, t)
    ensures var ordered := Ordered(fold, specs);
            if |specs| > 20 then ordered == []
            else
              && multiset(ordered) == multiset(specs)
              && forall i, j :: 0 <= i < j < |ordered| ==> StrLeq(fold(ordered[i].name), fold(ordered[j].name))
  {
    hide IsFixed, StrLeq;
    FilterNone(Fixed(fold), specs);
    FilterAll(Unfixed(fold), specs);
    StrLeqOrders();
    SortPermutes(ByName(fold), specs);
    SortSorts(ByName(fold), specs);
    hide Sort;
    var ordered := Ordered(fold, specs);
    forall i, j | 0 <= i < j < |ordered| ensures StrLeq(fold(ordered[i].name), fold(ordered[j].name)) {
      assert |specs| <= 20 ==> ByName(fold)(ordered[i], ordered[j]);
    }
  }

  /** Three ways make a tool fixed: its name is on the list, a flag of its metadata, or one of its tags. */
  lemma FixedMeans(fold: string -> string, t: ToolSpec)
    ensures IsFixed(fold, t) <==>
            || t.pinned
            || (exists k :: 0 <= k < |PRIORITY| && PRIORITY[k] == fold(t.name))
            || (exists i :: 0 <= i < |t.tags| && fold(t.tags[i]) in {"core", "fixed", "stable", "base"})
  {
    hide PRIORITY;
    if tag :| tag in t.tags && fold(tag) in CORE_TAGS {
      var i :| 0 <= i < |t.tags| && t.tags[i] == tag;
    }
  }

  // ----- the budget

  function ByteCaps(budget: nat): Caps {
    Caps(None, if budget == 0 then None else Some(budget))
  }

  /** A first line over the budget stands alone; otherwise lines are chosen greedily. */
  function Fit(budget: nat, lines: seq<string>): Inventory {
    if lines != [] && budget > 0 && LineBytes(lines[0]) > budget then
      Inventory([lines[0]], |lines| - 1)
    else
      var verdicts := Choose(ByteCaps(budget), Sizes(lines), 0, 0);
      Inventory(PickedItems(lines, verdicts), |lines| - |PickedItems(lines, verdicts)|)
  }

  function Budget(maxTokens: int): nat {
    (if maxTokens < 0 then 0 else maxTokens) * 4
  }

  /** What the greedy choice still adds from the n-th line on, once `used` bytes are taken. */
  function Rest(budget: nat, all: seq<string>, n: nat, used: nat): seq<string>
    requires n <= |all|
  {
    PickedItems(all[n..], Choose(ByteCaps(budget), Sizes(all[n..]), 0, used))
  }

  /** The loop of `_render_fixed_tool_inventory` over the ordered tools. */
  method FitLines(budget: nat, ordered: seq<ToolSpec>, dynamicOmitted: nat) returns (r: Inventory)
    ensures var fit := Fit(budget, Lines(ordered));
            r == Inventory(fit.lines, dynamicOmitted + fit.omitted)
  {
    hide Line, LineBytes, Lines, Rest, Fit, Sizes, Choose, PickedItems;
    var all := Lines(ordered);
    var lines: seq<string>, used: nat, omitted: nat := [], 0, dynamicOmitted;
    var n := 0;
    FitIsRest(budget, all);
    while n < |ordered|
      invariant 0 <= n <= |ordered|
      invariant lines == [] <==> n == 0
      invariant n == 0 ==> used == 0
      invariant n > 0 && budget > 0 ==> LineBytes(all[0]) <= budget
      invariant omitted == dynamicOmitted + n - |lines|
      invariant Rest(budget, all, 0, 0) == lines + Rest(budget, all, n, used)
    {
      LineAt(ordered, n);
      var line := Line(ordered[n]);
      var bytes := LineBytes(line);
      RestNext(budget, all, n, used);
      if lines != [] && budget > 0 && used + bytes > budget {
        omitted := omitted + 1;
        n := n + 1;
        continue;
      }
      if lines == [] && budget > 0 && bytes > budget {
        lines := lines + [line];
        used := used + bytes;
        omitted := omitted + (|ordered| - 1);
        return Inventory(lines, omitted);
      }
      AppendAssociates(lines, [line], Rest(budget, all, n + 1, used + bytes));
      lines := lines + [line];
      used := used + bytes;
      n := n + 1;
    }
    RestEnds(budget, all, used);
    r := Inventory(lines, omitted);
  }

  lemma FitIsRest(budget: nat, all: seq<string>)
    ensures Fit(budget, all)
            == if all != [] && budget > 0 && LineBytes(all[0]) > budget then Inventory([all[0]], |all| - 1)
               else Inventory(Rest(budget, all, 0, 0), |all| - |Rest(budget, all, 0, 0)|)
  {
    assert all[0..] == all;
  }

  lemma RestEnds(budget: nat, all: seq<string>, used: nat)
    ensures Rest(budget, all, |all|, used) == []
  {
  }

  lemma {:induction false} LineAt(ts: seq<ToolSpec>, n: nat)
    requires n < |ts|
    ensures Lines(ts)[n] == Line(ts[n])
  {
    hide Line;
    if n > 0 {
      LineAt(ts[1..], n - 1);
    }
  }

  lemma RestNext(budget: nat, all: seq<string>, n: nat, used: nat)
    requires n < |all|
    ensures var bytes := LineBytes(all[n]);
            Rest(budget, all, n, used)
            == if budget > 0 && used + bytes > budget then Rest(budget, all, n + 1, used)
               else [all[n]] + Rest(budget, all, n + 1, used + bytes)
  {
    hide LineBytes;
    var lines := all[n..];
    assert lines[1..] == all[n + 1..];
    CountIsFree(ByteCaps(budget), Sizes(lines[1..]), 1, used + LineBytes(all[n]));
    assert forall xs: seq<string> :: [] + xs == xs;
  }

  lemma {:induction false} CountIsFree(caps: Caps, sizes: seq<nat>, n: nat, b: nat)
    requires caps.count.None?
    ensures Choose(caps, sizes, n, b) == Choose(caps, sizes, 0, b)
  {
    hide Judge;
    if sizes != [] {
      JudgeIgnoresCount(caps, sizes[0], n, b);
      if Judge(caps, sizes[0], n, b) == Picked {
        CountIsFree(caps, sizes[1..], n + 1, b + sizes[0]);
        CountIsFree(caps, sizes[1..], 1, b + sizes[0]);
      } else {
        CountIsFree(caps, sizes[1..], n, b);
      }
    }
  }

  lemma JudgeIgnoresCount(caps: Caps, size: nat, n: nat, b: nat)
    requires caps.count.None?
    ensures Judge(caps, size, n, b) == Judge(caps, size, 0, b)
  {
  }

  method SplitFixed(
    fold: string -> string, specs: seq<ToolSpec>) returns (fixed: seq<ToolSpec>, remaining: seq<ToolSpec>)
    ensures fixed == Filter(Fixed(fold), specs) && remaining == Filter(Unfixed(fold), specs)
  {
    hide IsFixed, Filter;
    fixed, remaining := [], [];
    var n := 0;
    assert specs[0..] == specs;
    while n < |specs|
      invariant 0 <= n <= |specs|
      invariant Filter(Fixed(fold), specs) == fixed + Filter(Fixed(fold), specs[n..])
      invariant Filter(Unfixed(fold), specs) == remaining + Filter(Unfixed(fold), specs[n..])
    {
      FilterNext(Fixed(fold), specs, n);
      FilterNext(Unfixed(fold), specs, n);
      if IsFixed(fold, specs[n]) {
        fixed := fixed + [specs[n]];
      } else {
        remaining := remaining + [specs[n]];
      }
      n := n + 1;
    }
    assert specs[n..] == [];
    FilterNone(Fixed(fold), specs[n..]);
    FilterNone(Unfixed(fold), specs[n..]);
  }

  lemma {:induction false} SplitAll(fold: string -> string, specs: seq<ToolSpec>)
    ensures |Filter(Fixed(fold), specs)| + |Filter(Unfixed(fold), specs)| == |specs|
  {
    hide IsFixed;
    if specs != [] {
      SplitAll(fold, specs[1..]);
    }
  }

  /** `_render_fixed_tool_inventory`, up to the joining of its lines. */
  method RenderInventory(fold: string -> string, tools: seq<ToolSpec>, maxTokens: int) returns (r: Inventory)
    ensures |r.lines| + r.omitted == |Filter(Enabled(), tools)|
    ensures var fit := Fit(Budget(maxTokens), Lines(Ordered(fold, Filter(Enabled(), tools))));
            r.lines == fit.lines
    ensures maxTokens <= 0 || TotalBytes(r.lines) <= 4 * maxTokens || |r.lines| == 1
  {
    hide Fit, Lines, Sort, Fixed, Unfixed, ByPriority, ByName, TotalBytes;
    ShownLinesFit(Budget(maxTokens), Lines(Ordered(fold, Filter(Enabled(), tools))));
    var specs := Filter(Enabled(), tools);
    if specs == [] {
      NothingToFit(fold, Budget(maxTokens));
      return Inventory([], 0);
    }
    var fixed, remaining := SplitFixed(fold, specs);
    SplitAll(fold, specs);
    var ordered, dynamicOmitted := [], |remaining|;
    if fixed != [] {
      SortPermutes(ByPriority(fold), fixed);
      ordered := Sort(ByPriority(fold), fixed);
    } else if |specs| <= 20 {
      SortPermutes(ByName(fold), remaining);
      ordered, dynamicOmitted := Sort(ByName(fold), remaining), 0;
    }
    FitAccounts(Budget(maxTokens), Lines(ordered));
    r := FitLines(Budget(maxTokens), ordered, dynamicOmitted);
  }

  lemma NothingToFit(fold: string -> string, budget: nat)
    ensures Fit(budget, Lines(Ordered(fold, []))) == Inventory([], 0)
  {
  }

  lemma FitAccounts(budget: nat, lines: seq<string>)
    ensures |Fit(budget, lines).lines| + Fit(budget, lines).omitted == |lines|
  {
  }

  // ----- what the budget means

  function TotalBytes(lines: seq<string>): nat {
    if lines == [] then 0 else LineBytes(lines[0]) + TotalBytes(lines[1..])
  }

  lemma {:induction false} PickedBytes(lines: seq<string>, vs: seq<Verdict>)
    requires |lines| == |vs|
    ensures TotalBytes(PickedItems(lines, vs)) == BytesOf(Sizes(lines), vs)
  {
    hide LineBytes;
    if lines != [] {
      PickedBytes(lines[1..], vs[1..]);
      var rest := PickedItems(lines[1..], vs[1..]);
      assert ([lines[0]] + rest)[1..] == rest && [] + rest == rest;
    }
  }

  /** The lines shown fit the budget, unless there is none or a single line is over it. */
  lemma ShownLinesFit(budget: nat, lines: seq<string>)
    ensures var shown := Fit(budget, lines).lines;
            budget == 0 || TotalBytes(shown) <= budget || (|shown| == 1 && shown == lines[..1])
  {
    hide LineBytes, Choose;
    var vs := Choose(ByteCaps(budget), Sizes(lines), 0, 0);
    ChoiceFits(ByteCaps(budget), Sizes(lines), 0, 0);
    PickedBytes(lines, vs);
  }

  /** A line and its line break. */
  lemma LineTakes(line: string)
    ensures LineBytes(line) == ByteLength(line) + 1
  {
    EncodeAppend(line, "\n");
  }

  /** When the first line fits, whatever line is left out would overflow the budget, at four bytes a token. */
  lemma OmittedLinesOverflow(maxTokens: int, lines: seq<string>, i: nat) returns (shown: bool)
    requires i < |lines|
    requires maxTokens <= 0 || LineBytes(lines[0]) <= 4 * maxTokens
    ensures shown ==> lines[i] in Fit(Budget(maxTokens), lines).lines
    ensures !shown ==>
              maxTokens > 0 && TotalBytes(Fit(Budget(maxTokens), lines).lines) + LineBytes(lines[i]) > 4 * maxTokens
  {
    hide LineBytes, Choose;
    var caps := ByteCaps(Budget(maxTokens));
    var vs := Choose(caps, Sizes(lines), 0, 0);
    RefusalsStand(caps, Sizes(lines), 0, 0, i);
    PickedBytes(lines, vs);
    SizeAt(lines, i);
    shown := vs[i] == Picked;
    if shown {
      PickedIsShown(lines, vs, i);
    }
  }

  lemma {:induction false} SizeAt(lines: seq<string>, i: nat)
    requires i < |lines|
    ensures Sizes(lines)[i] == LineBytes(lines[i])
  {
    hide LineBytes;
    if i > 0 {
      SizeAt(lines[1..], i - 1);
    }
  }

  lemma {:induction false} PickedIsShown(lines: seq<string>, vs: seq<Verdict>, i: nat)
    requires |lines| == |vs| && i < |lines| && vs[i] == Picked
    ensures lines[i] in PickedItems(lines, vs)
  {
    if i > 0 {
      PickedIsShown(lines[1..], vs[1..], i - 1);
    }
  }

  /** The lines that a choice, one bool per line, takes. */
  function Kept(lines: seq<string>, take: seq<bool>): seq<string>
    requires |lines| == |take|
  {
    if lines == [] then [] else (if take[0] then [lines[0]] else []) + Kept(lines[1..], take[1..])
  }

  lemma {:induction false} PickedAreKept(lines: seq<string>, vs: seq<Verdict>)
    requires |lines| == |vs|
    ensures PickedItems(lines, vs) == Kept(lines, Taken(vs))
  {
    if lines != [] {
      PickedAreKept(lines[1..], vs[1..]);
      assert Taken(vs)[1..] == Taken(vs[1..]);
    }
  }

  /**
    When the first line fits, the inventory shows the best set of lines within the budget: no choice
    that fits takes a line the inventory passed over without giving up one ordered before it.
    */
  lemma InventoryIsBest(budget: nat, lines: seq<string>) returns (best: seq<bool>)
    requires lines == [] || budget == 0 || LineBytes(lines[0]) <= budget
    ensures |best| == |lines| && Fit(budget, lines).lines == Kept(lines, best)
    ensures Feasible(ByteCaps(budget), Sizes(lines), best, 0, 0)
    ensures forall take :: Feasible(ByteCaps(budget), Sizes(lines), take, 0, 0) ==> NoBetter(take, best)
  {
    var vs := Choose(ByteCaps(budget), Sizes(lines), 0, 0);
    best := Taken(vs);
    PickedAreKept(lines, vs);
    GreedyIsBest(ByteCaps(budget), Sizes(lines), best);
  }
}
