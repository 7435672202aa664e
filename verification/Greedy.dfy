/** The greedy choice under a count cap and a byte cap that material selection makes. */
module Greedy {
  import opened Options
  import opened Sequences

  datatype Verdict = Picked | CountFull | BytesFull

  /** The cap on the number of items and the cap on their bytes; None is no cap. */
  datatype Caps = Caps(count: Option<nat>, bytes: Option<nat>)

  predicate Fits(cap: Option<nat>, n: nat) {
    cap.None? || n <= cap.value
  }

  /** The verdict on an item of the given size once `n` items of `b` bytes are picked. */
  function Judge(caps: Caps, size: nat, n: nat, b: nat): Verdict {
    if !Fits(caps.count, n + 1) then CountFull
    else if !Fits(caps.bytes, b + size) then BytesFull
    else Picked
  }

  function Choose(caps: Caps, sizes: seq<nat>, n: nat, b: nat): (vs: seq<Verdict>)
    ensures |vs| == |sizes|
  {
    if sizes == [] then []
    else
      var v := Judge(caps, sizes[0], n, b);
      [v] + if v == Picked then Choose(caps, sizes[1..], n + 1, b + sizes[0]) else Choose(caps, sizes[1..], n, b)
  }

  function CountOf(vs: seq<Verdict>): (n: nat)
    ensures n <= |vs|
  {
    if vs == [] then 0 else (if vs[0] == Picked then 1 else 0) + CountOf(vs[1..])
  }

  function BytesOf(sizes: seq<nat>, vs: seq<Verdict>): nat
    requires |sizes| == |vs|
  {
    if vs == [] then 0 else (if vs[0] == Picked then sizes[0] else 0) + BytesOf(sizes[1..], vs[1..])
  }

  /** The choice respects both caps. */
  lemma {:induction false} ChoiceFits(caps: Caps, sizes: seq<nat>, n: nat, b: nat)
    requires Fits(caps.count, n) && Fits(caps.bytes, b)
    ensures var vs := Choose(caps, sizes, n, b);
            Fits(caps.count, n + CountOf(vs)) && Fits(caps.bytes, b + BytesOf(sizes, vs))
  {
    if sizes != [] {
      if Judge(caps, sizes[0], n, b) == Picked {
        ChoiceFits(caps, sizes[1..], n + 1, b + sizes[0]);
      } else {
        ChoiceFits(caps, sizes[1..], n, b);
      }
    }
  }

  /**
    Every refusal still holds against the final choice: an item refused for bytes would overflow the
    byte cap if it were added now, and one refused for the count sees the count exactly at its cap.
    */
  lemma {:induction false} RefusalsStand(caps: Caps, sizes: seq<nat>, n: nat, b: nat, i: nat)
    requires i < |sizes| && Fits(caps.count, n)
    ensures var vs := Choose(caps, sizes, n, b);
            && (vs[i] == BytesFull ==> !Fits(caps.bytes, b + BytesOf(sizes, vs) + sizes[i]))
            && (vs[i] == CountFull ==> caps.count == Some(n + CountOf(vs)))
  {
    var vs := Choose(caps, sizes, n, b);
    var v := Judge(caps, sizes[0], n, b);
    if i > 0 {
      if v == Picked {
        RefusalsStand(caps, sizes[1..], n + 1, b + sizes[0], i - 1);
      } else {
        RefusalsStand(caps, sizes[1..], n, b, i - 1);
      }
    } else if v == CountFull {
      FullStaysFull(caps, sizes, n, b);
    }
  }

  lemma {:induction false} FullStaysFull(caps: Caps, sizes: seq<nat>, n: nat, b: nat)
    requires caps.count == Some(n)
    ensures CountOf(Choose(caps, sizes, n, b)) == 0
  {
    if sizes != [] {
      FullStaysFull(caps, sizes[1..], n, b);
    }
  }

  /** Each verdict is the one on the item in its turn, with what was picked before it. */
  lemma {:induction false} JudgedInTurn(caps: Caps, sizes: seq<nat>, n: nat, b: nat, i: nat)
    requires i < |sizes|
    ensures var vs := Choose(caps, sizes, n, b);
            vs[i] == Judge(caps, sizes[i], n + CountOf(vs[..i]), b + BytesOf(sizes[..i], vs[..i]))
  {
    hide Judge, CountOf, BytesOf;
    var vs := Choose(caps, sizes, n, b);
    if i > 0 {
      if vs[0] == Picked {
        JudgedInTurn(caps, sizes[1..], n + 1, b + sizes[0], i - 1);
      } else {
        JudgedInTurn(caps, sizes[1..], n, b, i - 1);
      }
      PickedBefore(sizes, vs, i);
    } else {
      NothingBefore();
    }
  }

  lemma PickedBefore(sizes: seq<nat>, vs: seq<Verdict>, i: nat)
    requires |sizes| == |vs| && 0 < i <= |vs|
    ensures CountOf(vs[..i]) == (if vs[0] == Picked then 1 else 0) + CountOf(vs[1..][..i - 1])
    ensures BytesOf(sizes[..i], vs[..i])
            == (if vs[0] == Picked then sizes[0] else 0) + BytesOf(sizes[1..][..i - 1], vs[1..][..i - 1])
  {
    assert vs[..i][1..] == vs[1..][..i - 1] && sizes[..i][1..] == sizes[1..][..i - 1];
  }

  lemma NothingBefore()
    ensures CountOf([]) == 0 && BytesOf([], []) == 0
  {
  }

  /** Any other way to take items, in the same order, one bool per item. */
  ghost predicate Feasible(caps: Caps, sizes: seq<nat>, take: seq<bool>, n: nat, b: nat) {
    && |take| == |sizes|
    && Fits(caps.count, n + TakenCount(take)) && Fits(caps.bytes, b + TakenBytes(sizes, take))
  }

  function TakenCount(take: seq<bool>): nat {
    if take == [] then 0 else (if take[0] then 1 else 0) + TakenCount(take[1..])
  }

  function TakenBytes(sizes: seq<nat>, take: seq<bool>): nat
    requires |take| == |sizes|
  {
    if take == [] then 0 else (if take[0] then sizes[0] else 0) + TakenBytes(sizes[1..], take[1..])
  }

  function Taken(vs: seq<Verdict>): (r: seq<bool>)
    ensures |r| == |vs|
  {
    if vs == [] then [] else [vs[0] == Picked] + Taken(vs[1..])
  }

  /** Lexicographic order of choices: at the first difference, b takes the item and a does not. */
  predicate NoBetter(a: seq<bool>, b: seq<bool>)
    requires |a| == |b|
  {
    a == [] || (!a[0] && b[0]) || (a[0] == b[0] && NoBetter(a[1..], b[1..]))
  }

  lemma {:induction false} TakenAgrees(sizes: seq<nat>, vs: seq<Verdict>)
    requires |sizes| == |vs|
    ensures TakenCount(Taken(vs)) == CountOf(vs) && TakenBytes(sizes, Taken(vs)) == BytesOf(sizes, vs)
  {
    if vs != [] {
      TakenAgrees(sizes[1..], vs[1..]);
      assert Taken(vs)[1..] == Taken(vs[1..]);
    }
  }

  lemma {:induction false} BeatsAllOthers(caps: Caps, sizes: seq<nat>, n: nat, b: nat, take: seq<bool>)
    requires Feasible(caps, sizes, take, n, b)
    ensures NoBetter(take, Taken(Choose(caps, sizes, n, b)))
  {
    if sizes != [] {
      var vs := Choose(caps, sizes, n, b);
      assert Taken(vs)[1..] == Taken(vs[1..]);
      if vs[0] != Picked {
        assert !take[0];
        BeatsAllOthers(caps, sizes[1..], n, b, take[1..]);
      } else if take[0] {
        BeatsAllOthers(caps, sizes[1..], n + 1, b + sizes[0], take[1..]);
      }
    }
  }

  lemma {:induction false} NoBetterAntisymmetric(a: seq<bool>, b: seq<bool>)
    requires |a| == |b| && NoBetter(a, b) && NoBetter(b, a)
    ensures a == b
  {
    if a != [] {
      NoBetterAntisymmetric(a[1..], b[1..]);
      assert a == [a[0]] + a[1..] && b == [b[0]] + b[1..];
    }
  }

  /**
    The greedy choice is the best feasible one: it respects the caps, and taking a better-ranked
    item always counts for more than everything ranked behind it. No other choice is both.
    */
  lemma GreedyIsBest(caps: Caps, sizes: seq<nat>, best: seq<bool>)
    ensures best == Taken(Choose(caps, sizes, 0, 0)) <==>
            && Feasible(caps, sizes, best, 0, 0)
            && forall take :: Feasible(caps, sizes, take, 0, 0) ==> NoBetter(take, best)
  {
    var vs := Choose(caps, sizes, 0, 0);
    ChoiceFits(caps, sizes, 0, 0);
    TakenAgrees(sizes, vs);
    assert Feasible(caps, sizes, Taken(vs), 0, 0);
    forall take | Feasible(caps, sizes, take, 0, 0) ensures NoBetter(take, Taken(vs)) {
      BeatsAllOthers(caps, sizes, 0, 0, take);
    }
    if Feasible(caps, sizes, best, 0, 0) && forall take :: Feasible(caps, sizes, take, 0, 0) ==> NoBetter(take, best) {
      NoBetterAntisymmetric(best, Taken(vs));
    }
  }

  /** The items picked, in rank order. */
  function PickedItems<T>(items: seq<T>, vs: seq<Verdict>): (r: seq<T>)
    requires |items| == |vs|
    ensures |r| == CountOf(vs)
  {
    if vs == [] then []
    else (if vs[0] == Picked then [items[0]] else []) + PickedItems(items[1..], vs[1..])
  }

  lemma TakeNone<T>(k: nat)
    ensures Take<T>([], k) == []
    ensures forall xs: seq<T> :: Take(xs, 0) == []
  {
  }

  lemma TakeCons<T>(x: T, xs: seq<T>, k: nat)
    requires k > 0
    ensures Take([x] + xs, k) == [x] + Take(xs, k - 1)
  {
  }

  /** A count cap of m picks exactly the first m items that would be picked without it. */
  lemma {:induction false} CountCapTakesPrefix<T>(
    items: seq<T>, sizes: seq<nat>, bytes: Option<nat>, m: nat, n: nat, b: nat)
    requires |items| == |sizes| && n <= m
    ensures var free := PickedItems(items, Choose(Caps(None, bytes), sizes, n, b));
            var capped := PickedItems(items, Choose(Caps(Some(m), bytes), sizes, n, b));
            capped == Take(free, m - n)
  {
    hide Judge, Take;
    TakeNone<T>(m - n);
    if sizes != [] {
      JudgeUnderCap(sizes[0], bytes, m, n, b);
      if n == m {
        FullStaysFull(Caps(Some(m), bytes), sizes, n, b);
      } else if Judge(Caps(None, bytes), sizes[0], n, b) == Picked {
        CountCapTakesPrefix(items[1..], sizes[1..], bytes, m, n + 1, b + sizes[0]);
        var rest := Choose(Caps(None, bytes), sizes[1..], n + 1, b + sizes[0]);
        TakeCons(items[0], PickedItems(items[1..], rest), m - n);
      } else {
        CountCapTakesPrefix(items[1..], sizes[1..], bytes, m, n, b);
        var rest := Choose(Caps(None, bytes), sizes[1..], n, b);
        assert [] + PickedItems(items[1..], rest) == PickedItems(items[1..], rest);
      }
    }
  }

  lemma JudgeUnderCap(size: nat, bytes: Option<nat>, m: nat, n: nat, b: nat)
    requires n <= m
    ensures Judge(Caps(Some(m), bytes), size, n, b)
            == if n == m then CountFull else Judge(Caps(None, bytes), size, n, b)
  {
  }
}
