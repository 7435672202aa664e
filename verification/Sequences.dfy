/** Sequence idioms shared by the models: comprehensions with a filter, maps and sums. */
module Sequences {

  /** The subsequence of elements satisfying p, as in `tuple(x for x in xs if p(x))`. */
  function Filter<T>(p: T -> bool, xs: seq<T>): (r: seq<T>)
    ensures |r| <= |xs|
    ensures forall x | x in r :: x in xs && p(x)
    ensures forall x | x in xs :: p(x) ==> x in r
  {
    if xs == [] then []
    else if p(xs[0]) then [xs[0]] + Filter(p, xs[1..])
    else Filter(p, xs[1..])
  }

  function Map<S, T>(f: S -> T, xs: seq<S>): (r: seq<T>)
    ensures |r| == |xs|
    ensures forall i :: 0 <= i < |xs| ==> r[i] == f(xs[i])
  {
    seq(|xs|, i requires 0 <= i < |xs| => f(xs[i]))
  }

  /** The first n elements, or all when there are fewer. */
  function Take<T>(xs: seq<T>, n: nat): seq<T> {
    if |xs| <= n then xs else xs[..n]
  }

  /** What follows them. */
  function Drop<T>(xs: seq<T>, n: nat): seq<T> {
    if |xs| <= n then [] else xs[n..]
  }

  /** The first occurrence of each element, as in `tuple(dict.fromkeys(xs))`. */
  function Distinct<T(==)>(xs: seq<T>): (r: seq<T>)
    ensures forall x | x in r :: x in xs
    ensures forall x | x in xs :: x in r
    ensures forall i, j :: 0 <= i < j < |r| ==> r[i] != r[j]
  {
    if xs == [] then []
    else
      var rest := Distinct(xs[..|xs| - 1]);
      if xs[|xs| - 1] in rest then rest else rest + [xs[|xs| - 1]]
  }

  function Sum(ns: seq<nat>): nat {
    if ns == [] then 0 else ns[0] + Sum(ns[1..])
  }

  lemma AppendAssociates<T>(a: seq<T>, b: seq<T>, c: seq<T>)
    ensures a + (b + c) == (a + b) + c
  {
  }

  lemma {:induction false} FilterAppend<T>(p: T -> bool, xs: seq<T>, ys: seq<T>)
    ensures Filter(p, xs + ys) == Filter(p, xs) + Filter(p, ys)
  {
    if xs == [] {
      assert xs + ys == ys;
    } else {
      var rest := xs[1..] + ys;
      assert (xs + ys)[0] == xs[0] && (xs + ys)[1..] == rest;
      FilterAppend(p, xs[1..], ys);
      AppendAssociates([xs[0]], Filter(p, xs[1..]), Filter(p, ys));
    }
  }

  /** One step of a loop that filters xs from the front. */
  lemma FilterNext<T>(p: T -> bool, xs: seq<T>, n: nat)
    requires n < |xs|
    ensures Filter(p, xs[n..]) == (if p(xs[n]) then [xs[n]] else []) + Filter(p, xs[n + 1..])
  {
    assert xs[n..][1..] == xs[n + 1..];
  }

  lemma {:induction false} FilterAll<T>(p: T -> bool, xs: seq<T>)
    requires forall x :: x in xs ==> p(x)
    ensures Filter(p, xs) == xs
  {
    if xs != [] {
      FilterAll(p, xs[1..]);
    }
  }

  lemma {:induction false} FilterNone<T>(p: T -> bool, xs: seq<T>)
    requires forall x :: x in xs ==> !p(x)
    ensures Filter(p, xs) == []
  {
    if xs != [] {
      FilterNone(p, xs[1..]);
    }
  }

  /** A filter keeps every occurrence of what it keeps. */
  lemma {:induction false} FilterCounts<T>(p: T -> bool, xs: seq<T>, x: T)
    ensures multiset(Filter(p, xs))[x] == if p(x) then multiset(xs)[x] else 0
  {
    if xs != [] {
      FilterCounts(p, xs[1..], x);
      assert xs == [xs[0]] + xs[1..];
    }
  }

  lemma {:induction false} FilterFilter<T>(p: T -> bool, q: T -> bool, xs: seq<T>)
    requires forall x :: x in xs && p(x) ==> q(x)
    ensures Filter(p, Filter(q, xs)) == Filter(p, xs)
  {
    if xs != [] {
      FilterFilter(p, q, xs[1..]);
      if q(xs[0]) {
        assert Filter(q, xs)[0] == xs[0] && Filter(q, xs)[1..] == Filter(q, xs[1..]);
      }
    }
  }

  lemma {:induction false} FilterCongruent<T>(p: T -> bool, q: T -> bool, xs: seq<T>)
    requires forall x :: x in xs ==> p(x) == q(x)
    ensures Filter(p, xs) == Filter(q, xs)
  {
    if xs != [] {
      FilterCongruent(p, q, xs[1..]);
    }
  }

  lemma MapAppend<S, T>(f: S -> T, xs: seq<S>, ys: seq<S>)
    ensures Map(f, xs + ys) == Map(f, xs) + Map(f, ys)
  {
  }

  lemma {:induction false} SumAppend(xs: seq<nat>, ys: seq<nat>)
    ensures Sum(xs + ys) == Sum(xs) + Sum(ys)
  {
    if xs == [] {
      assert xs + ys == ys;
    } else {
      assert (xs + ys)[0] == xs[0] && (xs + ys)[1..] == xs[1..] + ys;
      SumAppend(xs[1..], ys);
    }
  }

  lemma MapAround<S, T>(f: S -> T, before: seq<S>, x: S, after: seq<S>)
    ensures multiset(Map(f, before + [x] + after)) == multiset{f(x)} + multiset(Map(f, before + after))
  {
    hide Map;
    var b, a := Map(f, before), Map(f, after);
    assert Map(f, before + after) == b + a;
    assert Map(f, before + [x] + after) == b + [f(x)] + a;
  }

  lemma MapCons<S, T>(f: S -> T, x: S, xs: seq<S>)
    ensures multiset(Map(f, [x] + xs)) == multiset{f(x)} + multiset(Map(f, xs))
  {
    assert Map(f, [x] + xs) == [f(x)] + Map(f, xs);
  }

  lemma TakeOut<T>(xs: seq<T>, x: T) returns (before: seq<T>, after: seq<T>)
    requires x in multiset(xs)
    ensures xs == before + [x] + after
    ensures multiset(before + after) == multiset(xs) - multiset{x}
  {
    var j :| 0 <= j < |xs| && xs[j] == x;
    before, after := xs[..j], xs[j + 1..];
    assert xs == before + [x] + after;
  }

  lemma TailCounts<T>(xs: seq<T>)
    requires xs != []
    ensures multiset(xs[1..]) == multiset(xs) - multiset{xs[0]}
    ensures multiset(xs) == multiset{xs[0]} + multiset(xs[1..])
  {
    assert xs == [xs[0]] + xs[1..];
  }

  /** Nothing is dropped exactly when nothing is repeated. */
  lemma {:induction false} DistinctLength<T>(xs: seq<T>)
    ensures |Distinct(xs)| <= |xs|
    ensures |Distinct(xs)| == |xs| <==> forall i, j :: 0 <= i < j < |xs| ==> xs[i] != xs[j]
    ensures |Distinct(xs)| == |xs| ==> Distinct(xs) == xs
  {
    if xs != [] {
      var init, last := xs[..|xs| - 1], xs[|xs| - 1];
      DistinctLength(init);
      assert xs == init + [last];
      if last in init {
        var i :| 0 <= i < |init| && init[i] == last;
        assert xs[i] == xs[|xs| - 1];
      } else {
        forall i, j | 0 <= i < j < |xs| && (forall a, b :: 0 <= a < b < |init| ==> init[a] != init[b])
          ensures xs[i] != xs[j]
        {
          assert xs[i] == init[i];
          assert j < |init| ==> xs[j] == init[j];
        }
        if forall i, j :: 0 <= i < j < |xs| ==> xs[i] != xs[j] {
          forall a, b | 0 <= a < b < |init| ensures init[a] != init[b] {
            assert xs[a] == init[a] && xs[b] == init[b];
          }
        }
      }
    }
  }

  lemma {:induction false} CardinalityOfCopies<T>(k: T, n: nat)
    ensures |multiset{}[k := n]| == n
  {
    if n > 0 {
      CardinalityOfCopies(k, n - 1);
      assert multiset{}[k := n] == multiset{}[k := n - 1] + multiset{k};
    } else {
      assert multiset{}[k := n] == multiset{};
    }
  }

  /** The copies of one element and the rest. */
  lemma Copies<T>(m: multiset<T>, k: T)
    ensures |m| == m[k] + |m[k := 0]|
  {
    var rest, ks := m[k := 0], multiset{}[k := m[k]];
    assert m == rest + ks;
    CardinalityOfCopies(k, m[k]);
  }

  /** No two elements share a key. */
  ghost predicate DistinctBy<S, K>(key: S -> K, xs: seq<S>) {
    forall i, j :: 0 <= i < j < |xs| ==> key(xs[i]) != key(xs[j])
  }

  lemma Twice<S>(xs: seq<S>, i: nat, j: nat)
    requires i < j < |xs| && xs[i] == xs[j]
    ensures multiset(xs)[xs[i]] >= 2
  {
    assert xs == xs[..i] + [xs[i]] + xs[i + 1..j] + [xs[j]] + xs[j + 1..];
  }

  lemma Once<S, K>(key: S -> K, xs: seq<S>, k: nat)
    requires DistinctBy(key, xs) && k < |xs|
    ensures multiset(xs)[xs[k]] == 1
  {
    assert xs == xs[..k] + [xs[k]] + xs[k + 1..];
    assert xs[k] !in xs[..k] && xs[k] !in xs[k + 1..];
  }

  lemma Different<S, K>(key: S -> K, xs: seq<S>, ys: seq<S>, i: nat, j: nat)
    requires DistinctBy(key, xs) && multiset(xs) == multiset(ys) && i < j < |ys|
    ensures key(ys[i]) != key(ys[j])
  {
    var a, b := ys[i], ys[j];
    assert a in multiset(ys) && b in multiset(ys);
    assert a in xs && b in xs;
    var k :| 0 <= k < |xs| && xs[k] == a;
    var m :| 0 <= m < |xs| && xs[m] == b;
    if key(a) == key(b) {
      assert k == m;
      Once(key, xs, k);
      Twice(ys, i, j);
    }
  }

  /** Reordering keeps keys distinct. */
  lemma DistinctPermutes<S, K>(key: S -> K, xs: seq<S>, ys: seq<S>)
    requires DistinctBy(key, xs) && multiset(xs) == multiset(ys)
    ensures DistinctBy(key, ys)
  {
    forall i, j | 0 <= i < j < |ys| ensures key(ys[i]) != key(ys[j]) {
      Different(key, xs, ys, i, j);
    }
  }

  /** Mapping respects multiset equality. */
  lemma {:induction false} MapPermutes<S, T>(f: S -> T, xs: seq<S>, ys: seq<S>)
    requires multiset(xs) == multiset(ys)
    ensures multiset(Map(f, xs)) == multiset(Map(f, ys))
  {
    hide Map;
    assert |multiset(xs)| == |multiset(ys)|;
    if xs != [] {
      var x := xs[0];
      assert xs == [x] + xs[1..];
      TailCounts(xs);
      var before, after := TakeOut(ys, x);
      MapPermutes(f, xs[1..], before + after);
      MapAround(f, before, x, after);
      MapCons(f, x, xs[1..]);
    }
  }
}
