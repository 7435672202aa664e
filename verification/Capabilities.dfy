/** Capability discovery and recall: the merged ranking of several sources, its limits, and its accounting. */
module Capabilities {
  import opened Numbers
  import opened Sequences
  import opened StableSort
  import opened Text

  datatype Item = Item(name: string, description: string)

  /** What one matcher of the catalog found for a query, best first. */
  datatype Source = Source(kind: string, items: seq<Item>)

  datatype Match = Match(kind: string, name: string, description: string, score: real)

  datatype Discovery = Discovery(matches: seq<Match>, omitted: nat)

  // ----- discovery

  /** `_score` */
  function RankScore(index: nat): real {
    1.0 / (index as real + 1.0)
  }

  function SourceMatches(s: Source): (r: seq<Match>)
    ensures |r| == |s.items|
  {
    seq(|s.items|, i requires 0 <= i < |s.items| =>
      Match(s.kind, s.items[i].name, s.items[i].description, RankScore(i)))
  }

  function AllMatches(sources: seq<Source>): seq<Match> {
    if sources == [] then [] else SourceMatches(sources[0]) + AllMatches(sources[1..])
  }

  /** The key `(-score, kind, name)`. */
  predicate Precedes(a: Match, b: Match) {
    if a.score != b.score then a.score > b.score
    else if a.kind != b.kind then StrLeq(a.kind, b.kind)
    else StrLeq(a.name, b.name)
  }

  function ByScore(): (Match, Match) -> bool {
    (a: Match, b: Match) => Precedes(a, b)
  }

  function Cap(limit: int, size: nat): nat {
    if limit < 0 then 0 else if limit < size then limit else size
  }

  function Merged(sources: seq<Source>): seq<Match> {
    Sort(ByScore(), AllMatches(sources))
  }

  /** `CapabilityCatalog.discover` */
  function Discover(sources: seq<Source>, limit: int): Discovery {
    var merged := Merged(sources);
    var shown := Cap(limit, |merged|);
    Discovery(merged[..shown], |merged| - shown)
  }

  lemma ByScoreIsTotal()
    ensures TotalPreorder(ByScore())
  {
    StrLeqOrders();
    var leq := ByScore();
    forall x, y ensures leq(x, y) || leq(y, x) {
    }
    forall x, y, z | leq(x, y) && leq(y, z) ensures leq(x, z) {
    }
  }

  /** Shown and omitted matches are all there are, and as many are shown as the limit allows. */
  lemma DiscoveryAccounts(sources: seq<Source>, limit: int)
    ensures var d := Discover(sources, limit);
            && |d.matches| + d.omitted == |AllMatches(sources)|
            && |d.matches| <= Max(0, limit) && (d.omitted > 0 ==> |d.matches| == Max(0, limit))
  {
    hide Precedes;
    SortPermutes(ByScore(), AllMatches(sources));
  }

  /** The item ranked i in its source scores one part in i + 1. */
  lemma RankScoreMeans(i: nat)
    ensures (i as real + 1.0) * RankScore(i) == 1.0
  {
  }

  /** The match stands for the item ranked i in this source. */
  predicate StandsFor(m: Match, s: Source, i: nat) {
    && i < |s.items| && m.kind == s.kind && m.name == s.items[i].name && m.description == s.items[i].description
    && (i as real + 1.0) * m.score == 1.0
  }

  lemma OneStandsFor(m: Match, s: Source, i: nat)
    requires i < |s.items|
    ensures StandsFor(m, s, i) <==> m == SourceMatches(s)[i]
  {
    RankScoreMeans(i);
    var n := i as real + 1.0;
    if n * m.score == 1.0 {
      assert n * (m.score - RankScore(i)) == 0.0;
    }
  }

  lemma SourceMatchesMean(s: Source, m: Match)
    ensures m in SourceMatches(s) <==> exists i :: StandsFor(m, s, i)
  {
    hide RankScore;
    forall i: nat | i < |s.items| ensures StandsFor(m, s, i) <==> m == SourceMatches(s)[i] {
      OneStandsFor(m, s, i);
    }
    hide SourceMatches;
    if i: nat :| StandsFor(m, s, i) {
      assert m == SourceMatches(s)[i];
    }
  }

  lemma {:induction false} AllMatchesMean(sources: seq<Source>, m: Match)
    ensures m in AllMatches(sources) <==> exists s, i :: 0 <= s < |sources| && StandsFor(m, sources[s], i)
  {
    hide SourceMatches, StandsFor;
    if sources != [] {
      AllMatchesMean(sources[1..], m);
      SourceMatchesMean(sources[0], m);
      if m in SourceMatches(sources[0]) {
        var i :| StandsFor(m, sources[0], i);
        assert 0 < |sources| && StandsFor(m, sources[0], i);
      }
      if s, i :| 0 <= s < |sources[1..]| && StandsFor(m, sources[1..][s], i) {
        assert StandsFor(m, sources[s + 1], i);
      }
      if s, i :| 0 <= s < |sources| && StandsFor(m, sources[s], i) {
        assert s > 0 ==> StandsFor(m, sources[1..][s - 1], i);
      }
    }
  }

  /** What is discovered stands for items of the sources, the better ranked first, then by kind and name. */
  lemma DiscoveredInOrder(sources: seq<Source>, limit: int)
    ensures var ms := Discover(sources, limit).matches;
            && (forall m | m in ms :: exists s, i :: 0 <= s < |sources| && StandsFor(m, sources[s], i))
            && forall i, j :: 0 <= i < j < |ms| ==>
                 && ms[i].score >= ms[j].score
                 && (ms[i].score == ms[j].score ==>
                       && StrLeq(ms[i].kind, ms[j].kind)
                       && (ms[i].kind == ms[j].kind ==> StrLeq(ms[i].name, ms[j].name)))
  {
    hide AllMatches, StandsFor;
    ByScoreIsTotal();
    StrLeqOrders();
    SortSorts(ByScore(), AllMatches(sources));
    SortMembers(ByScore(), AllMatches(sources));
    hide Sort, StrLeq;
    var ms := Discover(sources, limit).matches;
    assert forall m | m in ms :: m in Merged(sources);
    forall m | m in ms ensures exists s, i :: 0 <= s < |sources| && StandsFor(m, sources[s], i) {
      AllMatchesMean(sources, m);
    }
    forall i, j | 0 <= i < j < |ms|
      ensures ms[i].score >= ms[j].score
      ensures ms[i].score == ms[j].score ==>
                && StrLeq(ms[i].kind, ms[j].kind)
                && (ms[i].kind == ms[j].kind ==> StrLeq(ms[i].name, ms[j].name))
    {
      assert ByScore()(Merged(sources)[i], Merged(sources)[j]);
    }
  }

  lemma RankScoreFalls(i: nat, j: nat)
    requires i < j
    ensures RankScore(i) > RankScore(j) > 0.0
  {
    var a, b := i as real + 1.0, j as real + 1.0;
    InverseFalls(a, 1.0 / a, b, 1.0 / b);
  }

  lemma InverseFalls(a: real, x: real, b: real, y: real)
    requires 0.0 < a < b && x * a == 1.0 && y * b == 1.0
    ensures x > y > 0.0
  {
    assert y > 0.0;
    assert y * (b - a) > 0.0;
    assert (x - y) * a == y * (b - a);
  }

  lemma {:induction false} SourceMatchesAreFound(sources: seq<Source>, s: nat, i: nat)
    requires s < |sources| && i < |sources[s].items|
    ensures SourceMatches(sources[s])[i] in AllMatches(sources)
  {
    if s > 0 {
      SourceMatchesAreFound(sources[1..], s - 1, i);
    }
  }

  lemma MergedScoresFall(sources: seq<Source>)
    ensures var merged := Merged(sources); forall i, j :: 0 <= i < j < |merged| ==> merged[i].score >= merged[j].score
  {
    hide AllMatches, StrLeq;
    ByScoreIsTotal();
    SortSorts(ByScore(), AllMatches(sources));
    var merged := Merged(sources);
    forall i, j | 0 <= i < j < |merged| ensures merged[i].score >= merged[j].score {
      assert ByScore()(merged[i], merged[j]);
    }
  }

  lemma SortedHead(sources: seq<Source>, n: nat, x: Match, y: Match)
    requires n <= |Merged(sources)| && x in AllMatches(sources) && y in Merged(sources)[..n] && x.score > y.score
    ensures x in Merged(sources)[..n]
  {
    SortMembers(ByScore(), AllMatches(sources));
    MergedScoresFall(sources);
    var merged := Merged(sources);
    assert x in merged;
    hide *;
    var j :| 0 <= j < n && merged[..n][j] == y;
    var i :| 0 <= i < |merged| && merged[i] == x;
    assert i < n;
    assert merged[..n][i] == x;
  }

  /**
    Discovery is fair to its sources: when the item ranked i in one source is shown, every item ranked
    ahead of i in any other source is shown too.
    */
  lemma DiscoveryIsFair(sources: seq<Source>, limit: int, s: nat, i: nat, t: nat, j: nat)
    requires s < |sources| && i < |sources[s].items| && t < |sources| && j < |sources[t].items| && j < i
    requires SourceMatches(sources[s])[i] in Discover(sources, limit).matches
    ensures SourceMatches(sources[t])[j] in Discover(sources, limit).matches
  {
    hide AllMatches, Merged, RankScore;
    RankScoreFalls(j, i);
    SourceMatchesAreFound(sources, t, j);
    SortedHead(sources, Cap(limit, |Merged(sources)|), SourceMatches(sources[t])[j], SourceMatches(sources[s])[i]);
  }

  // ----- recall

  datatype RecallRequest = RecallRequest(
    limit: int, recentTools: seq<string>, failedTools: seq<string>, whitelist: seq<string>)

  /** `str.casefold` and `round(score, 6)`. */
  datatype Host = Host(fold: string -> string, round: real -> real)

  /** The folded names among xs that are not blank. */
  function Folded(h: Host, xs: seq<string>): set<string> {
    set x | x in xs && !Blank(x) :: h.fold(x)
  }

  predicate IsToolKind(kind: string) {
    kind == "tool" || kind == "mcp_tool"
  }

  predicate Barred(h: Host, q: RecallRequest, m: Match) {
    Folded(h, q.whitelist) != {} && IsToolKind(m.kind) && h.fold(m.name) !in Folded(h, q.whitelist)
  }

  function IsBarred(h: Host, q: RecallRequest): Match -> bool {
    (m: Match) => Barred(h, q, m)
  }

  predicate Recent(h: Host, q: RecallRequest, m: Match) {
    h.fold(m.name) in Folded(h, q.recentTools)
  }

  predicate HasFailed(h: Host, q: RecallRequest, m: Match) {
    h.fold(m.name) in Folded(h, q.failedTools)
  }

  function Adjustment(recent: bool, failed: bool): real {
    (if recent then 0.2 else 0.0) - (if failed then 0.35 else 0.0)
  }

  /** A match with its recall score and its place in the discovery. */
  datatype Candidate = Candidate(score: real, index: nat, found: Match)

  function Score(h: Host, q: RecallRequest, m: Match, index: nat): real {
    m.score + RankScore(index) + Adjustment(Recent(h, q, m), HasFailed(h, q, m))
  }

  function Candidates(h: Host, q: RecallRequest, ms: seq<Match>, index: nat): seq<Candidate> {
    if ms == [] then []
    else
      (if Barred(h, q, ms[0]) then [] else [Candidate(Score(h, q, ms[0], index), index, ms[0])])
      + Candidates(h, q, ms[1..], index + 1)
  }

  /** The key `(-score, name)`. */
  predicate Outscores(a: Candidate, b: Candidate) {
    if a.score != b.score then a.score > b.score else StrLeq(a.found.name, b.found.name)
  }

  function ByRecall(): (Candidate, Candidate) -> bool {
    (a: Candidate, b: Candidate) => Outscores(a, b)
  }

  function Boosted(h: Host, c: Candidate): Match {
    c.found.(score := h.round(c.score))
  }

  function AllBoosted(h: Host, cs: seq<Candidate>): (r: seq<Match>)
    ensures |r| == |cs|
    ensures forall i :: 0 <= i < |cs| ==>
              r[i].(score := cs[i].found.score) == cs[i].found && r[i].score == h.round(cs[i].score)
  {
    seq(|cs|, i requires 0 <= i < |cs| => Boosted(h, cs[i]))
  }

  /** Recall looks at three times as many matches as it shows, and at one at least. */
  function Window(limit: int): int {
    if limit <= 0 then 1 else 3 * limit
  }

  function Reranked(h: Host, q: RecallRequest, sources: seq<Source>): seq<Candidate> {
    Sort(ByRecall(), Candidates(h, q, Discover(sources, Window(q.limit)).matches, 0))
  }

  method ScoreMatches(h: Host, q: RecallRequest, ms: seq<Match>) returns (scored: seq<Candidate>)
    ensures scored == Candidates(h, q, ms, 0)
  {
    hide Candidates, Recent, HasFailed, RankScore, Adjustment, Folded, IsToolKind;
    scored := [];
    var whitelist := Folded(h, q.whitelist);
    var n := 0;
    assert ms[0..] == ms;
    while n < |ms|
      invariant 0 <= n <= |ms|
      invariant Candidates(h, q, ms, 0) == scored + Candidates(h, q, ms[n..], n)
    {
      CandidatesNext(h, q, ms, n);
      if !(whitelist != {} && IsToolKind(ms[n].kind) && h.fold(ms[n].name) !in whitelist) {
        var score := ms[n].score + RankScore(n) + Adjustment(Recent(h, q, ms[n]), HasFailed(h, q, ms[n]));
        AppendAssociates(scored, [Candidate(score, n, ms[n])], Candidates(h, q, ms[n + 1..], n + 1));
        scored := scored + [Candidate(score, n, ms[n])];
      }
      n := n + 1;
    }
    NoCandidates(h, q, ms);
  }

  lemma CandidatesNext(h: Host, q: RecallRequest, ms: seq<Match>, n: nat)
    requires n < |ms|
    ensures Candidates(h, q, ms[n..], n)
            == if Barred(h, q, ms[n]) then Candidates(h, q, ms[n + 1..], n + 1)
               else [Candidate(Score(h, q, ms[n], n), n, ms[n])] + Candidates(h, q, ms[n + 1..], n + 1)
  {
    hide Barred, Score;
    assert ms[n..][1..] == ms[n + 1..];
    var rest := Candidates(h, q, ms[n + 1..], n + 1);
    assert [] + rest == rest;
  }

  lemma NoCandidates(h: Host, q: RecallRequest, ms: seq<Match>)
    ensures Candidates(h, q, ms[|ms|..], |ms|) == []
  {
  }

  /** `CapabilityCatalog.recall` */
  method Recall(h: Host, q: RecallRequest, sources: seq<Source>) returns (matches: seq<Match>, omitted: nat)
    ensures var ranked := Reranked(h, q, sources);
            matches == AllBoosted(h, ranked[..Cap(q.limit, |ranked|)])
    ensures var d := Discover(sources, Window(q.limit));
            |matches| + omitted + |Filter(IsBarred(h, q), d.matches)| == |AllMatches(sources)|
    ensures forall m | m in matches :: !Barred(h, q, m)
    ensures |matches| <= Max(0, q.limit)
  {
    hide Discover, AllMatches, Sort, Barred, Candidates, ByRecall, Boosted;
    var d := Discover(sources, Window(q.limit));
    DiscoveryAccounts(sources, Window(q.limit));
    var scored := ScoreMatches(h, q, d.matches);
    CandidatesCount(h, q, d.matches, 0);
    var ranked := Sort(ByRecall(), scored);
    SortPermutes(ByRecall(), scored);
    matches := AllBoosted(h, ranked[..Cap(q.limit, |ranked|)]);
    omitted := |scored| - |matches| + d.omitted;
    ShownAreAllowed(h, q, d.matches, Cap(q.limit, |ranked|));
  }

  /** No shown tool is outside a whitelist. */
  lemma ShownAreAllowed(h: Host, q: RecallRequest, ms: seq<Match>, shown: nat)
    requires shown <= |Sort(ByRecall(), Candidates(h, q, ms, 0))|
    ensures forall m | m in AllBoosted(h, Sort(ByRecall(), Candidates(h, q, ms, 0))[..shown]) :: !Barred(h, q, m)
  {
    hide Candidates, Sort, ByRecall, Folded, IsToolKind;
    var scored := Candidates(h, q, ms, 0);
    var ranked := Sort(ByRecall(), scored);
    SortPermutes(ByRecall(), scored);
    CandidatesAllowed(h, q, ms, 0);
    var matches := AllBoosted(h, ranked[..shown]);
    forall m | m in matches ensures !Barred(h, q, m) {
      var i :| 0 <= i < |matches| && matches[i] == m;
      assert ranked[i] in multiset(ranked);
      assert ranked[i] in multiset(scored);
      assert !Barred(h, q, ranked[i].found);
    }
  }

  lemma {:induction false} CandidatesCount(h: Host, q: RecallRequest, ms: seq<Match>, index: nat)
    ensures |Candidates(h, q, ms, index)| + |Filter(IsBarred(h, q), ms)| == |ms|
  {
    hide Barred, Score;
    if ms != [] {
      CandidatesCount(h, q, ms[1..], index + 1);
    }
  }

  lemma {:induction false} CandidatesAllowed(h: Host, q: RecallRequest, ms: seq<Match>, index: nat)
    ensures forall c | c in Candidates(h, q, ms, index) :: !Barred(h, q, c.found)
  {
    hide Barred, Score;
    if ms != [] {
      CandidatesAllowed(h, q, ms[1..], index + 1);
    }
  }

  // ----- what recall considers

  /** One of the texts that are not blank has the name's fold. */
  ghost predicate Lists(h: Host, names: seq<string>, name: string) {
    exists i :: 0 <= i < |names| && !Blank(names[i]) && h.fold(names[i]) == h.fold(name)
  }

  /** A whitelist with a text that is not blank bars the tools, of the catalog or of a server, that it does not list. */
  lemma BarredMeans(h: Host, q: RecallRequest, m: Match)
    ensures Barred(h, q, m) <==>
            && (exists i :: 0 <= i < |q.whitelist| && !Blank(q.whitelist[i]))
            && (m.kind == "tool" || m.kind == "mcp_tool")
            && !Lists(h, q.whitelist, m.name)
  {
    hide Blank;
    var folded := Folded(h, q.whitelist);
    if i :| 0 <= i < |q.whitelist| && !Blank(q.whitelist[i]) {
      assert h.fold(q.whitelist[i]) in folded;
    }
    if w :| w in folded {
      var x :| x in q.whitelist && !Blank(x) && h.fold(x) == w;
    }
    FoldedMeans(h, q.whitelist, m.name);
  }

  lemma FoldedMeans(h: Host, names: seq<string>, name: string)
    ensures h.fold(name) in Folded(h, names) <==> Lists(h, names, name)
  {
    hide Blank;
    if h.fold(name) in Folded(h, names) {
      var x :| x in names && !Blank(x) && h.fold(x) == h.fold(name);
      var i :| 0 <= i < |names| && names[i] == x;
      assert !Blank(names[i]) && h.fold(names[i]) == h.fold(name);
    }
  }

  /** A recall score: the match's own, one part in its place, 0.2 more for a recent name, 0.35 less for a failed one. */
  lemma ScoreMeans(h: Host, q: RecallRequest, m: Match, index: nat)
    ensures var bonus := if Lists(h, q.recentTools, m.name) then 0.2 else 0.0;
            var malus := if Lists(h, q.failedTools, m.name) then 0.35 else 0.0;
            (index as real + 1.0) * (Score(h, q, m, index) - m.score - bonus + malus) == 1.0
  {
    hide Lists, RankScore;
    FoldedMeans(h, q.recentTools, m.name);
    FoldedMeans(h, q.failedTools, m.name);
    RankScoreMeans(index);
    assert Score(h, q, m, index) - m.score - Adjustment(Recent(h, q, m), HasFailed(h, q, m)) == RankScore(index);
  }

  function FoundOf(cs: seq<Candidate>): seq<Match> {
    Map((c: Candidate) => c.found, cs)
  }

  lemma {:induction false} CandidatesFound(h: Host, q: RecallRequest, ms: seq<Match>, index: nat)
    ensures FoundOf(Candidates(h, q, ms, index)) == Filter((m: Match) => !Barred(h, q, m), ms)
  {
    hide Barred, Score;
    if ms != [] {
      CandidatesFound(h, q, ms[1..], index + 1);
    }
  }

  /**
    Recall considers, of the best matches, three times as many as it may show and at least one, less those a
    whitelist bars, and orders them by their recall scores and then by name.
    */
  lemma RecallConsiders(h: Host, q: RecallRequest, sources: seq<Source>)
    ensures var best := Discover(sources, Max(Max(q.limit * 3, q.limit), 1)).matches;
            var ranked := Reranked(h, q, sources);
            && multiset(FoundOf(ranked)) == multiset(Filter((m: Match) => !Barred(h, q, m), best))
            && (forall c | c in ranked ::
                  c.index < |best| && best[c.index] == c.found && c.score == Score(h, q, c.found, c.index))
            && forall i, j :: 0 <= i < j < |ranked| ==>
                 && ranked[i].score >= ranked[j].score
                 && (ranked[i].score == ranked[j].score ==> StrLeq(ranked[i].found.name, ranked[j].found.name))
  {
    hide Discover, Barred, Score, Candidates;
    var ms := Discover(sources, Window(q.limit)).matches;
    var cs, ranked := Candidates(h, q, ms, 0), Reranked(h, q, sources);
    assert Window(q.limit) == Max(Max(q.limit * 3, q.limit), 1);
    ByRecallIsTotal();
    SortSorts(ByRecall(), cs);
    SortPermutes(ByRecall(), cs);
    SortMembers(ByRecall(), cs);
    hide Sort, StrLeq;
    CandidatesFound(h, q, ms, 0);
    CandidatesInPlace(h, q, ms, 0);
    MapPermutes((c: Candidate) => c.found, ranked, cs);
    forall i, j | 0 <= i < j < |ranked|
      ensures ranked[i].score >= ranked[j].score
      ensures ranked[i].score == ranked[j].score ==> StrLeq(ranked[i].found.name, ranked[j].found.name)
    {
      assert ByRecall()(ranked[i], ranked[j]);
    }
  }

  // ----- what recall may reorder

  lemma ByRecallIsTotal()
    ensures TotalPreorder(ByRecall())
  {
    StrLeqOrders();
    var leq := ByRecall();
    forall x, y ensures leq(x, y) || leq(y, x) {
    }
    forall x, y, z | leq(x, y) && leq(y, z) ensures leq(x, z) {
    }
  }

  ghost predicate Ascending(cs: seq<Candidate>) {
    forall i, j :: 0 <= i < j < |cs| ==> cs[i].index < cs[j].index
  }

  /** Candidates stand in discovery order, each with the score of its place. */
  ghost predicate InPlace(h: Host, q: RecallRequest, ms: seq<Match>, index: nat, cs: seq<Candidate>) {
    && (forall c | c in cs :: index <= c.index < index + |ms| && c.found == ms[c.index - index]
                              && c.score == Score(h, q, c.found, c.index))
    && Ascending(cs)
  }

  lemma {:induction false} CandidatesInPlace(h: Host, q: RecallRequest, ms: seq<Match>, index: nat)
    ensures InPlace(h, q, ms, index, Candidates(h, q, ms, index))
  {
    hide Barred, Score, InPlace;
    if ms == [] {
      NothingInPlace(h, q, index);
    } else {
      CandidatesInPlace(h, q, ms[1..], index + 1);
      var rest := Candidates(h, q, ms[1..], index + 1);
      PlaceNext(h, q, ms, index, rest);
      assert [] + rest == rest;
    }
  }

  lemma NothingInPlace(h: Host, q: RecallRequest, index: nat)
    ensures InPlace(h, q, [], index, [])
  {
  }

  lemma PlaceNext(h: Host, q: RecallRequest, ms: seq<Match>, index: nat, rest: seq<Candidate>)
    requires ms != [] && InPlace(h, q, ms[1..], index + 1, rest)
    ensures InPlace(h, q, ms, index, rest)
    ensures InPlace(h, q, ms, index, [Candidate(Score(h, q, ms[0], index), index, ms[0])] + rest)
  {
    hide Score;
    forall c | c in rest
      ensures index < c.index < index + |ms| && c.found == ms[c.index - index]
              && c.score == Score(h, q, c.found, c.index)
    {
      assert ms[1..][c.index - index - 1] == ms[c.index - index];
    }
    var cs := [Candidate(Score(h, q, ms[0], index), index, ms[0])] + rest;
    forall j | 0 < j < |cs| ensures cs[0].index < cs[j].index {
      assert cs[j] == rest[j - 1] && rest[j - 1] in rest;
    }
  }

  /** The candidates whose name is recent, or not, and failed, or not. */
  function Alike(h: Host, q: RecallRequest, recent: bool, failed: bool): Candidate -> bool {
    (c: Candidate) => Recent(h, q, c.found) == recent && HasFailed(h, q, c.found) == failed
  }

  lemma FilterKeepsPlaces(p: Candidate -> bool, cs: seq<Candidate>)
    requires Ascending(cs)
    ensures Ascending(Filter(p, cs))
  {
    var ahead := (a: Candidate, b: Candidate) => a.index < b.index;
    FilterSorted(ahead, p, cs);
    var kept := Filter(p, cs);
    assert forall i, j :: 0 <= i < j < |kept| ==> ahead(kept[i], kept[j]);
  }

  /** What its name adds to a match's score. */
  function Favour(h: Host, q: RecallRequest, m: Match): real {
    Adjustment(Recent(h, q, m), HasFailed(h, q, m))
  }

  lemma EarlierAndFavoured(h: Host, q: RecallRequest, ms: seq<Match>, a: Candidate, b: Candidate)
    requires forall i, j :: 0 <= i < j < |ms| ==> ms[i].score >= ms[j].score
    requires a.index < b.index < |ms| && a.found == ms[a.index] && b.found == ms[b.index]
    requires a.score == Score(h, q, a.found, a.index) && b.score == Score(h, q, b.found, b.index)
    requires Favour(h, q, a.found) >= Favour(h, q, b.found)
    ensures a.score > b.score
  {
    hide RankScore, Recent, HasFailed, Adjustment;
    RankScoreFalls(a.index, b.index);
  }

  lemma DiscoveredScoresFall(sources: seq<Source>, limit: int)
    ensures var ms := Discover(sources, limit).matches; forall i, j :: 0 <= i < j < |ms| ==> ms[i].score >= ms[j].score
  {
    hide Merged;
    MergedScoresFall(sources);
  }

  /**
    Recall only moves what is recent or has failed: candidates that are alike in both respects keep the
    order discovery gave them.
    */
  lemma RecallKeepsOrderAmongAlike(h: Host, q: RecallRequest, sources: seq<Source>, recent: bool, failed: bool)
    ensures var cs := Candidates(h, q, Discover(sources, Window(q.limit)).matches, 0);
            Filter(Alike(h, q, recent, failed), Reranked(h, q, sources)) == Filter(Alike(h, q, recent, failed), cs)
  {
    hide Discover, Candidates, Score, Recent, HasFailed, Sort, StrLeq;
    var ms := Discover(sources, Window(q.limit)).matches;
    var cs, p := Candidates(h, q, ms, 0), Alike(h, q, recent, failed);
    var same := Filter(p, cs);
    ByRecallIsTotal();
    FilterCommutesWithSort(ByRecall(), p, cs);
    CandidatesInPlace(h, q, ms, 0);
    FilterKeepsPlaces(p, cs);
    DiscoveredScoresFall(sources, Window(q.limit));
    forall i, j | 0 <= i < j < |same| ensures ByRecall()(same[i], same[j]) {
      assert same[i] in same && same[j] in same;
      EarlierAndFavoured(h, q, ms, same[i], same[j]);
    }
    SortOfSorted(ByRecall(), same);
  }

  /** Having failed weighs more than being recent. */
  predicate Favoured(h: Host, q: RecallRequest, a: Match, b: Match) {
    || (!HasFailed(h, q, a) && HasFailed(h, q, b))
    || (HasFailed(h, q, a) == HasFailed(h, q, b) && Recent(h, q, a) && !Recent(h, q, b))
  }

  lemma FavouredMeans(h: Host, q: RecallRequest, a: Match, b: Match)
    ensures Favoured(h, q, a, b) <==> Favour(h, q, a) > Favour(h, q, b)
  {
    hide Recent, HasFailed;
  }

  /**
    A candidate overtakes another that discovery put ahead of it only if the other has failed and it has
    not, or if both are alike in that and only it is recent.
    */
  lemma OvertakingNeedsFavour(h: Host, q: RecallRequest, sources: seq<Source>, i: nat, j: nat)
    requires i < j < |Reranked(h, q, sources)|
    requires Reranked(h, q, sources)[i].index > Reranked(h, q, sources)[j].index
    ensures Favoured(h, q, Reranked(h, q, sources)[i].found, Reranked(h, q, sources)[j].found)
  {
    hide Discover, Candidates, Score, Favour, Favoured, Sort, StrLeq;
    var ms := Discover(sources, Window(q.limit)).matches;
    var cs, ranked := Candidates(h, q, ms, 0), Reranked(h, q, sources);
    ByRecallIsTotal();
    SortSorts(ByRecall(), cs);
    SortPermutes(ByRecall(), cs);
    CandidatesInPlace(h, q, ms, 0);
    DiscoveredScoresFall(sources, Window(q.limit));
    assert ranked[i] in multiset(ranked) && ranked[j] in multiset(ranked);
    assert ranked[i] in cs && ranked[j] in cs;
    assert ByRecall()(ranked[i], ranked[j]);
    FavouredMeans(h, q, ranked[i].found, ranked[j].found);
    if Favour(h, q, ranked[j].found) >= Favour(h, q, ranked[i].found) {
      EarlierAndFavoured(h, q, ms, ranked[j], ranked[i]);
    }
  }

  /** A match without its score. */
  function Identity(m: Match): Match {
    m.(score := 0.0)
  }

  function Identities(ms: seq<Match>): (r: seq<Match>)
    ensures |r| == |ms| && forall i :: 0 <= i < |ms| ==> r[i] == Identity(ms[i])
  {
    seq(|ms|, i requires 0 <= i < |ms| => Identity(ms[i]))
  }

  /** With no recent tools, failures or whitelist, recall shows what discovery shows under the same limit. */
  lemma PlainRecallIsDiscovery(h: Host, q: RecallRequest, sources: seq<Source>)
    requires q.recentTools == [] && q.failedTools == [] && q.whitelist == []
    ensures var ranked := Reranked(h, q, sources);
            Identities(AllBoosted(h, ranked[..Cap(q.limit, |ranked|)]))
            == Identities(Discover(sources, q.limit).matches)
  {
    var ms := Discover(sources, Window(q.limit)).matches;
    var cs, p := Candidates(h, q, ms, 0), Alike(h, q, false, false);
    assert Folded(h, []) == {};
    forall c | c in cs + Reranked(h, q, sources) ensures p(c) {
    }
    PlainCandidates(h, q, ms);
    hide Sort, Candidates, Score, RankScore, Recent, HasFailed, Folded, Merged, Barred;
    RecallKeepsOrderAmongAlike(h, q, sources, false, false);
    FilterAll(p, cs);
    FilterAll(p, Reranked(h, q, sources));
    assert Discover(sources, q.limit).matches == ms[..Cap(q.limit, |ms|)];
  }

  lemma PlainCandidates(h: Host, q: RecallRequest, ms: seq<Match>)
    requires q.whitelist == []
    ensures var cs := Candidates(h, q, ms, 0); |cs| == |ms| && forall i :: 0 <= i < |cs| ==> cs[i].found == ms[i]
  {
    hide Score;
    CandidatesInPlace(h, q, ms, 0);
    CandidatesCount(h, q, ms, 0);
    assert Folded(h, []) == {};
    FilterNone(IsBarred(h, q), ms);
    hide Candidates, Barred;
    var cs := Candidates(h, q, ms, 0);
    IncreasingFills(cs, |ms|);
    forall i | 0 <= i < |cs| ensures cs[i].found == ms[i] {
      assert cs[i] in cs;
    }
  }

  /** As many increasing places as there are places are all of them. */
  lemma {:induction false} IncreasingFills(cs: seq<Candidate>, n: nat)
    requires |cs| == n
    requires forall i :: 0 <= i < n ==> cs[i] in cs && cs[i].index < n
    requires Ascending(cs)
    ensures forall i :: 0 <= i < n ==> cs[i].index == i
  {
    if n > 0 {
      var init := cs[..n - 1];
      forall i | 0 <= i < n - 1 ensures init[i] in init && init[i].index < n - 1 {
        assert cs[i].index < cs[n - 1].index;
      }
      IncreasingFills(init, n - 1);
      if n > 1 {
        assert init[n - 2].index == n - 2 && cs[n - 2].index < cs[n - 1].index;
      }
    }
  }
}
