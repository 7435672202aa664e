/** `rank_semantic_documents`: documents ranked by the similarity of their vectors to the query's. */
module SemanticRanking {
  import opened Sequences
  import opened StableSort
  import opened Text
  import opened Cosine

  datatype Document<T> = Document(text: string, name: string, priority: int, item: T)

  datatype Scored<T> = Scored(score: real, document: Document<T>)

  datatype Hit<T> = Hit(item: T, score: real, rank: nat)

  /** The key `(-score, -priority, name)`. */
  predicate Precedes<T>(a: Scored<T>, b: Scored<T>) {
    if a.score != b.score then a.score > b.score
    else if a.document.priority != b.document.priority then a.document.priority > b.document.priority
    else StrLeq(a.document.name, b.document.name)
  }

  function ByScore<T>(): (Scored<T>, Scored<T>) -> bool {
    (a: Scored<T>, b: Scored<T>) => Precedes(a, b)
  }

  /** The documents whose vector is similar to the query's, with their scores; `zip` stops at the shorter list. */
  function Scores<T>(sqrt: real -> real, query: Vector, docs: seq<Document<T>>, vectors: seq<Vector>): seq<Scored<T>> {
    if docs == [] || vectors == [] then []
    else
      var score := CosineSimilarity(sqrt, query, vectors[0]);
      (if score <= 0.0 then [] else [Scored(score, docs[0])]) + Scores(sqrt, query, docs[1..], vectors[1..])
  }

  function Hits<T>(scored: seq<Scored<T>>): (r: seq<Hit<T>>)
    ensures |r| == |scored|
  {
    seq(|scored|, i requires 0 <= i < |scored| => Hit(scored[i].document.item, scored[i].score, i + 1))
  }

  function Top<T>(xs: seq<T>, limit: int): seq<T> {
    if limit <= 0 then xs else Take(xs, limit)
  }

  function Ranking<T>(sqrt: real -> real, docs: seq<Document<T>>, vectors: seq<Vector>): seq<Scored<T>> {
    if |vectors| < 2 then [] else Sort(ByScore(), Scores(sqrt, vectors[0], docs, vectors[1..]))
  }

  /** The response's vectors are given; the first belongs to the query. */
  method Rank<T>(sqrt: real -> real, query: string, docs: seq<Document<T>>, vectors: seq<Vector>, limit: int)
    returns (hits: seq<Hit<T>>)
    ensures hits == if query == "" then [] else Hits(Top(Ranking(sqrt, docs, vectors), limit))
  {
    hide CosineSimilarity, Sort, Scores, Hits;
    if query == "" || docs == [] {
      NoDocuments<T>(sqrt, vectors);
      return [];
    }
    if |vectors| < 2 {
      return [];
    }
    var scored: seq<Scored<T>> := [];
    var n := 0;
    assert docs[0..] == docs;
    while n < |docs| && n < |vectors| - 1
      invariant 0 <= n <= |docs| && n <= |vectors| - 1
      invariant Scores(sqrt, vectors[0], docs, vectors[1..])
                == scored + Scores(sqrt, vectors[0], docs[n..], vectors[n + 1..])
    {
      ScoresNext(sqrt, vectors[0], docs, vectors[1..], n);
      assert vectors[1..][n..] == vectors[n + 1..] && vectors[1..][n + 1..] == vectors[n + 2..];
      var score := CosineSimilarity(sqrt, vectors[0], vectors[n + 1]);
      if score > 0.0 {
        AppendAssociates(scored, [Scored(score, docs[n])], Scores(sqrt, vectors[0], docs[n + 1..], vectors[n + 2..]));
        scored := scored + [Scored(score, docs[n])];
      }
      n := n + 1;
    }
    ScoresEnd(sqrt, vectors[0], docs[n..], vectors[n + 1..]);
    assert scored == Scores(sqrt, vectors[0], docs, vectors[1..]);
    var sorted := Sort(ByScore(), scored);
    assert sorted == Ranking(sqrt, docs, vectors);
    var last := if limit <= 0 then |sorted| else limit;
    var top := sorted[..if last < |sorted| then last else |sorted|];
    assert top == Top(sorted, limit);
    hits := Hits(top);
  }

  lemma ScoresNext<T>(sqrt: real -> real, query: Vector, docs: seq<Document<T>>, vectors: seq<Vector>, n: nat)
    requires n < |docs| && n < |vectors|
    ensures var score := CosineSimilarity(sqrt, query, vectors[n]);
            Scores(sqrt, query, docs[n..], vectors[n..])
            == (if score <= 0.0 then [] else [Scored(score, docs[n])])
               + Scores(sqrt, query, docs[n + 1..], vectors[n + 1..])
  {
    hide CosineSimilarity;
    assert docs[n..][1..] == docs[n + 1..] && vectors[n..][1..] == vectors[n + 1..];
  }

  lemma ScoresEnd<T>(sqrt: real -> real, query: Vector, docs: seq<Document<T>>, vectors: seq<Vector>)
    requires docs == [] || vectors == []
    ensures Scores(sqrt, query, docs, vectors) == []
  {
  }

  lemma NoDocuments<T>(sqrt: real -> real, vectors: seq<Vector>)
    ensures Ranking<T>(sqrt, [], vectors) == []
  {
  }

  lemma ByScoreIsTotal<T(!new)>()
    ensures TotalPreorder(ByScore<T>())
  {
    StrLeqOrders();
    var leq := ByScore<T>();
    forall x, y ensures leq(x, y) || leq(y, x) {
    }
    forall x, y, z | leq(x, y) && leq(y, z) ensures leq(x, z) {
    }
  }

  lemma {:induction false} ScoresAre<T>(sqrt: real -> real, query: Vector, docs: seq<Document<T>>, vectors: seq<Vector>)
    requires IsSqrt(sqrt)
    ensures forall x | x in Scores(sqrt, query, docs, vectors) :: 0.0 < x.score <= 1.0
    ensures forall x | x in Scores(sqrt, query, docs, vectors) ::
              exists i :: 0 <= i < |docs| && i < |vectors| && x.document == docs[i]
                          && x.score == CosineSimilarity(sqrt, query, vectors[i])
    ensures forall i | 0 <= i < |docs| && i < |vectors| ::
              CosineSimilarity(sqrt, query, vectors[i]) > 0.0 ==>
                Scored(CosineSimilarity(sqrt, query, vectors[i]), docs[i]) in Scores(sqrt, query, docs, vectors)
  {
    hide CosineSimilarity, IsSqrt;
    if docs != [] && vectors != [] {
      ScoresAre(sqrt, query, docs[1..], vectors[1..]);
      CosineBounds(sqrt, query, vectors[0]);
      var rest := Scores(sqrt, query, docs[1..], vectors[1..]);
      forall x | x in Scores(sqrt, query, docs, vectors)
        ensures exists i :: 0 <= i < |docs| && i < |vectors| && x.document == docs[i]
                            && x.score == CosineSimilarity(sqrt, query, vectors[i])
      {
        if x in rest {
          var i :| 0 <= i < |docs[1..]| && i < |vectors[1..]| && x.document == docs[1..][i]
                   && x.score == CosineSimilarity(sqrt, query, vectors[1..][i]);
          assert x.document == docs[i + 1] && vectors[1..][i] == vectors[i + 1];
        }
      }
      forall i | 0 <= i < |docs| && i < |vectors| && CosineSimilarity(sqrt, query, vectors[i]) > 0.0
        ensures Scored(CosineSimilarity(sqrt, query, vectors[i]), docs[i]) in Scores(sqrt, query, docs, vectors)
      {
        if i > 0 {
          assert docs[i] == docs[1..][i - 1] && vectors[i] == vectors[1..][i - 1];
        }
      }
    }
  }

  /** A better score first, then a higher priority, then the earlier name. */
  predicate InOrder<T>(a: Scored<T>, b: Scored<T>) {
    && a.score >= b.score
    && (a.score == b.score ==>
          && a.document.priority >= b.document.priority
          && (a.document.priority == b.document.priority ==> StrLeq(a.document.name, b.document.name)))
  }

  /**
    The full ranking: scores lie above 0 and at most at 1 and do not rise, ties fall to the priority and
    then the name, and a document is ranked exactly when its vector has a positive similarity to the query's.
    */
  lemma RankingMeans<T(!new)>(sqrt: real -> real, docs: seq<Document<T>>, vectors: seq<Vector>)
    requires IsSqrt(sqrt) && |vectors| >= 2
    ensures var r := Ranking(sqrt, docs, vectors);
            && (forall i, j :: 0 <= i < j < |r| ==> InOrder(r[i], r[j]))
            && Sorted(ByScore(), r)
            && (forall x | x in r :: 0.0 < x.score <= 1.0)
            && (forall x | x in r :: exists i :: 0 <= i < |docs| && i < |vectors| - 1 && x.document == docs[i]
                                                 && x.score == CosineSimilarity(sqrt, vectors[0], vectors[i + 1]))
            && (forall i | 0 <= i < |docs| && i < |vectors| - 1 ::
                  CosineSimilarity(sqrt, vectors[0], vectors[i + 1]) > 0.0 ==>
                    Scored(CosineSimilarity(sqrt, vectors[0], vectors[i + 1]), docs[i]) in r)
  {
    hide CosineSimilarity, IsSqrt, Precedes, Scores, Sort;
    var query, rest := vectors[0], vectors[1..];
    var scores := Scores(sqrt, query, docs, rest);
    ByScoreIsTotal<T>();
    SortSorts(ByScore<T>(), scores);
    ScoresAre(sqrt, query, docs, rest);
    assert forall i :: 0 <= i < |rest| ==> rest[i] == vectors[i + 1];
    var r := Ranking(sqrt, docs, vectors);
    SortPermutes(ByScore<T>(), scores);
    SortedScores(r);
    forall x ensures x in r <==> x in scores {
      assert x in multiset(r) <==> x in multiset(scores);
    }
    forall x | x in r
      ensures exists i :: 0 <= i < |docs| && i < |vectors| - 1 && x.document == docs[i]
                          && x.score == CosineSimilarity(sqrt, vectors[0], vectors[i + 1])
    {
      var i :| 0 <= i < |docs| && i < |rest| && x.document == docs[i]
               && x.score == CosineSimilarity(sqrt, query, rest[i]);
    }
  }

  lemma SortedScores<T>(r: seq<Scored<T>>)
    requires Sorted(ByScore<T>(), r)
    ensures forall i, j :: 0 <= i < j < |r| ==> InOrder(r[i], r[j])
  {
    hide StrLeq;
    forall i, j | 0 <= i < j < |r| ensures InOrder(r[i], r[j]) {
      assert ByScore<T>()(r[i], r[j]);
    }
  }

  /**
    The hits: they take the ranks from 1, are as many as the limit allows of what is ranked, and each stands
    for a document whose vector has a positive product with the query's over the slots they share.
    */
  lemma HitsMean<T(!new)>(sqrt: real -> real, docs: seq<Document<T>>, vectors: seq<Vector>, limit: int)
    requires IsSqrt(sqrt) && |vectors| >= 2
    ensures var ranked := Ranking(sqrt, docs, vectors);
            var hits := Hits(Top(ranked, limit));
            && |hits| == (if limit <= 0 || |ranked| < limit then |ranked| else limit)
            && (forall k :: 0 <= k < |hits| ==>
                  && hits[k].rank == k + 1 && hits[k].score == ranked[k].score
                  && hits[k].item == ranked[k].document.item)
            && (forall k :: 0 <= k < |ranked| ==>
                  exists i :: 0 <= i < |docs| && i < |vectors| - 1 && ranked[k].document == docs[i]
                              && Related(vectors[0], vectors[i + 1]))
            && (forall i | 0 <= i < |docs| && i < |vectors| - 1 && Related(vectors[0], vectors[i + 1]) ::
                  exists k :: 0 <= k < |ranked| && ranked[k].document == docs[i])
  {
    RankingMeans(sqrt, docs, vectors);
    hide CosineSimilarity, IsSqrt, Ranking, InOrder, Related;
    var ranked := Ranking(sqrt, docs, vectors);
    forall a, b ensures Related(a, b) <==> CosineSimilarity(sqrt, a, b) > 0.0 {
      RelatedMeans(sqrt, a, b);
    }
    forall k | 0 <= k < |ranked|
      ensures exists i :: 0 <= i < |docs| && i < |vectors| - 1 && ranked[k].document == docs[i]
                          && Related(vectors[0], vectors[i + 1])
    {
      assert ranked[k] in ranked;
    }
  }

  /** The product over the slots that both vectors have is positive. */
  predicate Related(a: Vector, b: Vector) {
    var n := if |a| < |b| then |a| else |b|;
    Dot(a[..n], b[..n]) > 0.0
  }

  lemma RelatedMeans(sqrt: real -> real, a: Vector, b: Vector)
    requires IsSqrt(sqrt)
    ensures Related(a, b) <==> CosineSimilarity(sqrt, a, b) > 0.0
  {
    hide CosineSimilarity, Dot;
    CosineSignOfPrefixes(sqrt, a, b);
  }

  // ----- only directions matter

  ghost predicate SameDirections(vs: seq<Vector>, ws: seq<Vector>) {
    |vs| == |ws| && forall i :: 0 <= i < |vs| ==> SameDirection(vs[i], ws[i])
  }

  lemma SimilarityOfDirections(sqrt: real -> real, v: Vector, v': Vector, w: Vector, w': Vector)
    requires IsSqrt(sqrt) && SameDirection(v, v') && SameDirection(w, w')
    ensures CosineSimilarity(sqrt, v, w) == CosineSimilarity(sqrt, v', w')
  {
    hide CosineSimilarity, IsSqrt, Scale;
    var k: real :| k > 0.0 && v == Scale(k, v');
    var m: real :| m > 0.0 && w == Scale(m, w');
    CosineIgnoresScale(sqrt, k, v', w);
    CosineBounds(sqrt, v', w);
    CosineIgnoresScale(sqrt, m, w', v');
    CosineBounds(sqrt, w', v');
  }

  lemma {:induction false} ScoresOfDirections<T>(
    sqrt: real -> real, q: Vector, q': Vector, docs: seq<Document<T>>, vs: seq<Vector>, ws: seq<Vector>)
    requires IsSqrt(sqrt) && SameDirection(q, q') && SameDirections(vs, ws)
    ensures Scores(sqrt, q, docs, vs) == Scores(sqrt, q', docs, ws)
  {
    hide CosineSimilarity, IsSqrt, SameDirection;
    if docs != [] && vs != [] {
      assert forall i :: 0 <= i < |vs[1..]| ==> vs[1..][i] == vs[i + 1] && ws[1..][i] == ws[i + 1];
      ScoresOfDirections(sqrt, q, q', docs[1..], vs[1..], ws[1..]);
      SimilarityOfDirections(sqrt, q, q', vs[0], ws[0]);
    }
  }

  /** Stretching the vectors, each by a positive factor of its own, changes neither the hits nor their scores. */
  lemma RankingIgnoresLengths<T>(sqrt: real -> real, docs: seq<Document<T>>, vs: seq<Vector>, ws: seq<Vector>)
    requires IsSqrt(sqrt) && SameDirections(vs, ws)
    ensures Ranking(sqrt, docs, vs) == Ranking(sqrt, docs, ws)
  {
    hide CosineSimilarity, IsSqrt, SameDirection, Sort;
    if |vs| >= 2 {
      assert forall i :: 0 <= i < |vs[1..]| ==> vs[1..][i] == vs[i + 1] && ws[1..][i] == ws[i + 1];
      ScoresOfDirections(sqrt, vs[0], ws[0], docs, vs[1..], ws[1..]);
    }
  }
}
