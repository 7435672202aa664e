/** Python's `sorted`: the stable sort for a total preorder, and what makes it unique. */
module StableSort {
  import opened Sequences

  ghost predicate TotalPreorder<T(!new)>(leq: (T, T) -> bool) {
    && (forall x, y :: leq(x, y) || leq(y, x))
    && (forall x, y, z :: leq(x, y) && leq(y, z) ==> leq(x, z))
  }

  ghost predicate Sorted<T>(leq: (T, T) -> bool, xs: seq<T>) {
    forall i, j :: 0 <= i < j < |xs| ==> leq(xs[i], xs[j])
  }

  /** Whatever holds between the elements of a sequence in order holds between those a filter keeps. */
  lemma {:induction false} FilterSorted<T>(leq: (T, T) -> bool, p: T -> bool, xs: seq<T>)
    requires Sorted(leq, xs)
    ensures Sorted(leq, Filter(p, xs))
  {
    if xs != [] {
      FilterSorted(leq, p, xs[1..]);
      if p(xs[0]) {
        var rest := Filter(p, xs[1..]);
        forall j | 0 <= j < |rest| ensures leq(xs[0], rest[j]) {
          assert rest[j] in xs[1..];
          var i :| 1 <= i < |xs| && xs[i] == rest[j];
        }
      }
    }
  }

  /** Places x before the first element that is not smaller. */
  function Insert<T>(leq: (T, T) -> bool, x: T, xs: seq<T>): seq<T> {
    if xs == [] then [x]
    else if leq(x, xs[0]) then [x] + xs
    else [xs[0]] + Insert(leq, x, xs[1..])
  }

  function Sort<T>(leq: (T, T) -> bool, xs: seq<T>): seq<T> {
    if xs == [] then [] else Insert(leq, xs[0], Sort(leq, xs[1..]))
  }

  lemma {:induction false} InsertPermutes<T>(leq: (T, T) -> bool, x: T, xs: seq<T>)
    ensures multiset(Insert(leq, x, xs)) == multiset{x} + multiset(xs)
  {
    if xs != [] && !leq(x, xs[0]) {
      InsertPermutes(leq, x, xs[1..]);
      assert xs == [xs[0]] + xs[1..];
    }
  }

  /** Sorting loses and invents nothing. */
  lemma {:induction false} SortPermutes<T>(leq: (T, T) -> bool, xs: seq<T>)
    ensures multiset(Sort(leq, xs)) == multiset(xs)
    ensures |Sort(leq, xs)| == |xs|
  {
    if xs != [] {
      SortPermutes(leq, xs[1..]);
      InsertPermutes(leq, xs[0], Sort(leq, xs[1..]));
      assert xs == [xs[0]] + xs[1..];
    }
    assert |multiset(Sort(leq, xs))| == |multiset(xs)|;
  }

  lemma SortMembers<T>(leq: (T, T) -> bool, xs: seq<T>)
    ensures forall x :: x in Sort(leq, xs) <==> x in xs
  {
    SortPermutes(leq, xs);
    forall x ensures x in Sort(leq, xs) <==> x in xs {
      assert x in multiset(Sort(leq, xs)) <==> x in multiset(xs);
    }
  }

  lemma {:induction false} InsertSorted<T(!new)>(leq: (T, T) -> bool, x: T, xs: seq<T>)
    requires TotalPreorder(leq) && Sorted(leq, xs)
    ensures Sorted(leq, Insert(leq, x, xs))
  {
    if xs != [] && !leq(x, xs[0]) {
      var rest := Insert(leq, x, xs[1..]);
      InsertSorted(leq, x, xs[1..]);
      InsertPermutes(leq, x, xs[1..]);
      forall j | 0 <= j < |rest| ensures leq(xs[0], rest[j]) {
        assert rest[j] in multiset(rest);
        if rest[j] != x {
          assert rest[j] in xs[1..];
        }
      }
    }
  }

  lemma {:induction false} SortSorts<T(!new)>(leq: (T, T) -> bool, xs: seq<T>)
    requires TotalPreorder(leq)
    ensures Sorted(leq, Sort(leq, xs))
  {
    if xs != [] {
      SortSorts(leq, xs[1..]);
      InsertSorted(leq, xs[0], Sort(leq, xs[1..]));
    }
  }

  lemma {:induction false} SortOfSorted<T>(leq: (T, T) -> bool, xs: seq<T>)
    requires Sorted(leq, xs)
    ensures Sort(leq, xs) == xs
  {
    if xs != [] {
      SortOfSorted(leq, xs[1..]);
      if |xs| > 1 {
        assert leq(xs[0], xs[1]);
      }
    }
  }

  lemma {:induction false} FilterInsert<T(!new)>(leq: (T, T) -> bool, p: T -> bool, x: T, xs: seq<T>)
    requires TotalPreorder(leq) && Sorted(leq, xs)
    ensures Filter(p, Insert(leq, x, xs)) == if p(x) then Insert(leq, x, Filter(p, xs)) else Filter(p, xs)
  {
    if xs == [] {
    } else if leq(x, xs[0]) {
      assert ([x] + xs)[1..] == xs;
      var kept := Filter(p, xs);
      if kept != [] {
        assert kept[0] in xs;
        assert leq(x, kept[0]);
      }
    } else {
      FilterInsert(leq, p, x, xs[1..]);
      var rest := Insert(leq, x, xs[1..]);
      assert ([xs[0]] + rest)[1..] == rest;
      if p(xs[0]) {
        assert Filter(p, xs)[1..] == Filter(p, xs[1..]);
      }
    }
  }

  /** Stability: sorting commutes with taking any subset, so equal keys keep their order. */
  lemma {:induction false} FilterCommutesWithSort<T(!new)>(leq: (T, T) -> bool, p: T -> bool, xs: seq<T>)
    requires TotalPreorder(leq)
    ensures Filter(p, Sort(leq, xs)) == Sort(leq, Filter(p, xs))
  {
    if xs != [] {
      FilterCommutesWithSort(leq, p, xs[1..]);
      SortSorts(leq, xs[1..]);
      FilterInsert(leq, p, xs[0], Sort(leq, xs[1..]));
      if p(xs[0]) {
        assert Filter(p, xs)[1..] == Filter(p, xs[1..]);
      }
    }
  }

  /** A sorted sequence falls apart where p stops holding, when p holds only of smaller elements. */
  lemma {:induction false} SortedSplit<T>(leq: (T, T) -> bool, p: T -> bool, q: T -> bool, xs: seq<T>)
    requires Sorted(leq, xs)
    requires forall x :: x in xs ==> p(x) != q(x)
    requires forall x, y :: x in xs && y in xs && p(x) && !p(y) ==> !leq(y, x)
    ensures xs == Filter(p, xs) + Filter(q, xs)
  {
    if xs != [] {
      assert xs == [xs[0]] + xs[1..];
      if p(xs[0]) {
        SortedSplit(leq, p, q, xs[1..]);
      } else {
        forall x | x in xs ensures !p(x) && q(x) {
          var i :| 0 <= i < |xs| && xs[i] == x;
          assert i > 0 ==> leq(xs[0], xs[i]);
        }
        FilterAll(q, xs);
        FilterNone(p, xs);
      }
    }
  }

  /** Elements that all come first in the order are sorted on their own, ahead of the others. */
  lemma SortSplit<T(!new)>(leq: (T, T) -> bool, p: T -> bool, q: T -> bool, xs: seq<T>)
    requires TotalPreorder(leq)
    requires forall x :: x in xs ==> p(x) != q(x)
    requires forall x, y :: x in xs && y in xs && p(x) && !p(y) ==> !leq(y, x)
    ensures Sort(leq, xs) == Sort(leq, Filter(p, xs)) + Sort(leq, Filter(q, xs))
  {
    SortSorts(leq, xs);
    SortMembers(leq, xs);
    SortedSplit(leq, p, q, Sort(leq, xs));
    FilterCommutesWithSort(leq, p, xs);
    FilterCommutesWithSort(leq, q, xs);
  }

  /** Elements with the same key as k. */
  function Peers<T>(leq: (T, T) -> bool, k: T): T -> bool {
    x => leq(x, k) && leq(k, x)
  }

  lemma {:induction false} SortedByPeers<T(!new)>(leq: (T, T) -> bool, xs: seq<T>, ys: seq<T>)
    requires TotalPreorder(leq) && Sorted(leq, xs) && Sorted(leq, ys)
    requires forall k :: Filter(Peers(leq, k), xs) == Filter(Peers(leq, k), ys)
    ensures xs == ys
  {
    forall y | y in ys ensures y in xs {
      assert y in Filter(Peers(leq, y), ys);
    }
    if ys != [] {
      assert ys[0] in xs;
    }
    if xs != [] {
      var k := xs[0];
      assert k in Filter(Peers(leq, k), xs);
      assert k in ys && ys[0] in xs;
      assert leq(k, k) && leq(ys[0], ys[0]);
      assert leq(k, ys[0]) && leq(ys[0], k);
      assert Filter(Peers(leq, k), xs)[0] == k;
      assert Filter(Peers(leq, k), ys)[0] == ys[0];
      forall m ensures Filter(Peers(leq, m), xs[1..]) == Filter(Peers(leq, m), ys[1..]) {
        var f, g := Filter(Peers(leq, m), xs), Filter(Peers(leq, m), ys);
        assert f == g;
        if Peers(leq, m)(k) {
          assert f[1..] == Filter(Peers(leq, m), xs[1..]);
          assert g[1..] == Filter(Peers(leq, m), ys[1..]);
        }
      }
      SortedByPeers(leq, xs[1..], ys[1..]);
      assert xs == [xs[0]] + xs[1..] && ys == [ys[0]] + ys[1..];
    }
  }

  /** `Sort` is the only sequence that is sorted and keeps every key class in its original order. */
  lemma StableSortIsUnique<T(!new)>(leq: (T, T) -> bool, xs: seq<T>, ys: seq<T>)
    requires TotalPreorder(leq)
    ensures ys == Sort(leq, xs) <==>
            Sorted(leq, ys) && forall k :: Filter(Peers(leq, k), ys) == Filter(Peers(leq, k), xs)
  {
    SortSorts(leq, xs);
    forall k ensures Filter(Peers(leq, k), Sort(leq, xs)) == Filter(Peers(leq, k), xs) {
      var peers := Peers(leq, k);
      FilterCommutesWithSort(leq, peers, xs);
      var same := Filter(peers, xs);
      forall i, j | 0 <= i < j < |same| ensures leq(same[i], same[j]) {
        assert same[i] in same && same[j] in same;
        assert leq(same[i], k) && leq(k, same[j]);
      }
      SortOfSorted(leq, same);
    }
    if Sorted(leq, ys) && forall k :: Filter(Peers(leq, k), ys) == Filter(Peers(leq, k), xs) {
      SortedByPeers(leq, ys, Sort(leq, xs));
    }
  }

  /** Sorted permutations agree when no two different elements share a key. */
  lemma {:induction false} SortedPermutationsAgree<T(!new)>(leq: (T, T) -> bool, xs: seq<T>, ys: seq<T>)
    requires Sorted(leq, xs) && Sorted(leq, ys)
    requires multiset(xs) == multiset(ys)
    requires forall x, y :: x in xs && y in xs && leq(x, y) && leq(y, x) ==> x == y
    requires forall x :: x in xs ==> leq(x, x)
    ensures xs == ys
  {
    hide Sorted;
    assert |multiset(xs)| == |multiset(ys)|;
    if xs != [] {
      HeadsAgree(leq, xs, ys);
      TailCounts(xs);
      TailCounts(ys);
      TailSorted(leq, xs);
      TailSorted(leq, ys);
      TailMembers(xs);
      SortedPermutationsAgree(leq, xs[1..], ys[1..]);
      HeadAndTail(xs, ys);
    }
  }

  lemma TailMembers<T>(xs: seq<T>)
    requires xs != []
    ensures forall x :: x in xs[1..] ==> x in xs
  {
  }

  lemma HeadAndTail<T>(xs: seq<T>, ys: seq<T>)
    requires xs != [] && ys != [] && xs[0] == ys[0] && xs[1..] == ys[1..]
    ensures xs == ys
  {
    assert xs == [xs[0]] + xs[1..] && ys == [ys[0]] + ys[1..];
  }

  lemma TailSorted<T>(leq: (T, T) -> bool, xs: seq<T>)
    requires Sorted(leq, xs) && xs != []
    ensures Sorted(leq, xs[1..])
  {
  }

  lemma HeadsAgree<T(!new)>(leq: (T, T) -> bool, xs: seq<T>, ys: seq<T>)
    requires Sorted(leq, xs) && Sorted(leq, ys) && xs != [] && ys != []
    requires multiset(xs) == multiset(ys)
    requires forall x, y :: x in xs && y in xs && leq(x, y) && leq(y, x) ==> x == y
    requires forall x :: x in xs ==> leq(x, x)
    ensures xs[0] == ys[0]
  {
    assert xs[0] in multiset(ys) && ys[0] in multiset(xs);
    assert xs[0] in ys && ys[0] in xs;
    assert leq(xs[0], ys[0]) && leq(ys[0], xs[0]);
  }

  /** The i-th comes before everything in front of it, strictly, and is at least as early as all behind it. */
  ghost predicate FirstLeast<T>(leq: (T, T) -> bool, xs: seq<T>, i: nat) {
    && i < |xs|
    && (forall j :: 0 <= j < i ==> !leq(xs[j], xs[i]))
    && (forall j :: i <= j < |xs| ==> leq(xs[i], xs[j]))
  }

  /** A stable sort starts with the first of the least elements. */
  lemma {:induction false} SortStartsWithFirstLeast<T(!new)>(leq: (T, T) -> bool, xs: seq<T>) returns (i: nat)
    requires TotalPreorder(leq) && xs != []
    ensures FirstLeast(leq, xs, i) && Sort(leq, xs) != [] && Sort(leq, xs)[0] == xs[i]
  {
    assert leq(xs[0], xs[0]);
    if |xs| == 1 {
      i := 0;
    } else {
      var rest := xs[1..];
      var k := SortStartsWithFirstLeast(leq, rest);
      var least := rest[k];
      assert forall j :: 1 <= j < |xs| ==> xs[j] == rest[j - 1];
      forall j | 0 <= j < |rest| ensures leq(least, rest[j]) {
        assert j < k ==> leq(least, rest[j]);
      }
      i := if leq(xs[0], least) then 0 else k + 1;
    }
  }
}
