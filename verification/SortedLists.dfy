/**
 Sorted lists without repetitions over a total order: each finite set has exactly one.
 */
module SortedLists {

  ghost predicate TotalOrder<T(!new)>(le: (T, T) -> bool) {
    && (forall a, b :: le(a, b) || le(b, a))
    && (forall a, b :: le(a, b) && le(b, a) ==> a == b)
    && (forall a, b, c :: le(a, b) && le(b, c) ==> le(a, c))
  }

  predicate Sorted<T>(xs: seq<T>, le: (T, T) -> bool) {
    forall i, j :: 0 <= i < j < |xs| ==> le(xs[i], xs[j])
  }

  ghost predicate Distinct<T>(xs: seq<T>) {
    forall i, j :: 0 <= i < j < |xs| ==> xs[i] != xs[j]
  }

  ghost predicate IsNormal<T>(xs: seq<T>, le: (T, T) -> bool) {
    Sorted(xs, le) && Distinct(xs)
  }

  ghost function Elements<T>(xs: seq<T>): set<T> {
    set x | x in xs
  }

  lemma NormalTail<T>(xs: seq<T>, le: (T, T) -> bool)
    requires IsNormal(xs, le) && xs != []
    ensures IsNormal(xs[1..], le)
    ensures Elements(xs[1..]) == Elements(xs) - {xs[0]}
  {
    assert xs == [xs[0]] + xs[1..];
  }

  lemma NormalHeadsAgree<T(!new)>(xs: seq<T>, ys: seq<T>, le: (T, T) -> bool)
    requires TotalOrder(le) && IsNormal(xs, le) && IsNormal(ys, le)
    requires xs != [] && ys != [] && xs[0] in ys && ys[0] in xs
    ensures xs[0] == ys[0]
  {
    var i :| 0 <= i < |ys| && ys[i] == xs[0];
    var j :| 0 <= j < |xs| && xs[j] == ys[0];
    assert le(xs[0], ys[0]) && le(ys[0], xs[0]);
  }

  lemma EmptyElements<T>(xs: seq<T>)
    ensures xs == [] <==> Elements(xs) == {}
  {
    if xs != [] {
      assert xs[0] in Elements(xs);
    }
  }

  /** A finite set has one normal list. */
  lemma {:induction false} NormalFormIsUnique<T(!new)>(xs: seq<T>, ys: seq<T>, le: (T, T) -> bool)
    requires TotalOrder(le) && IsNormal(xs, le) && IsNormal(ys, le)
    requires Elements(xs) == Elements(ys)
    ensures xs == ys
  {
    EmptyElements(xs);
    EmptyElements(ys);
    if xs != [] && ys != [] {
      assert xs[0] in Elements(xs) && ys[0] in Elements(ys);
      NormalHeadsAgree(xs, ys, le);
      NormalTail(xs, le);
      NormalTail(ys, le);
      NormalFormIsUnique(xs[1..], ys[1..], le);
      assert xs == [xs[0]] + xs[1..] && ys == [ys[0]] + ys[1..];
    }
  }

  // ---------------------------------------------------------------------------
  // Insertion

  function Insert<T(==)>(x: T, xs: seq<T>, le: (T, T) -> bool): seq<T> {
    if xs == [] then [x]
    else if x == xs[0] then xs
    else if le(x, xs[0]) then [x] + xs
    else [xs[0]] + Insert(x, xs[1..], le)
  }

  lemma PrependKeepsNormal<T>(x: T, xs: seq<T>, le: (T, T) -> bool)
    requires IsNormal(xs, le)
    requires forall y :: y in xs ==> le(x, y) && y != x
    ensures IsNormal([x] + xs, le)
  {
  }

  lemma PrependElements<T>(x: T, xs: seq<T>)
    ensures Elements([x] + xs) == Elements(xs) + {x}
  {
  }

  lemma InsertBefore<T(!new)>(x: T, xs: seq<T>, le: (T, T) -> bool)
    requires TotalOrder(le) && IsNormal(xs, le)
    requires xs != [] && x != xs[0] && le(x, xs[0])
    ensures IsNormal([x] + xs, le)
  {
    forall y | y in xs ensures le(x, y) && y != x {
      assert y == xs[0] || le(xs[0], y);
    }
    PrependKeepsNormal(x, xs, le);
  }

  lemma InsertAfter<T(!new)>(x: T, xs: seq<T>, tail: seq<T>, le: (T, T) -> bool)
    requires TotalOrder(le) && IsNormal(xs, le) && IsNormal(tail, le)
    requires xs != [] && !le(x, xs[0])
    requires Elements(tail) == Elements(xs[1..]) + {x}
    ensures IsNormal([xs[0]] + tail, le)
    ensures Elements([xs[0]] + tail) == Elements(xs) + {x}
  {
    forall y | y in tail ensures le(xs[0], y) && y != xs[0] {
      assert y in Elements(tail);
      if y != x {
        var i :| 0 <= i < |xs[1..]| && xs[1..][i] == y;
        assert y == xs[i + 1];
      }
    }
    PrependKeepsNormal(xs[0], tail, le);
    PrependElements(xs[0], tail);
    NormalTail(xs, le);
  }

  lemma {:induction false} InsertKeepsNormal<T(!new)>(x: T, xs: seq<T>, le: (T, T) -> bool)
    requires TotalOrder(le) && IsNormal(xs, le)
    ensures IsNormal(Insert(x, xs, le), le)
    ensures Elements(Insert(x, xs, le)) == Elements(xs) + {x}
  {
    if xs == [] || x == xs[0] {
    } else if le(x, xs[0]) {
      InsertBefore(x, xs, le);
      PrependElements(x, xs);
    } else {
      NormalTail(xs, le);
      InsertKeepsNormal(x, xs[1..], le);
      InsertAfter(x, xs, Insert(x, xs[1..], le), le);
    }
  }

  // ---------------------------------------------------------------------------
  // Sorting and dropping repetitions

  method InsertSorted<T(!new)>(sorted: seq<T>, x: T, le: (T, T) -> bool) returns (more: seq<T>)
    requires TotalOrder(le) && Sorted(sorted, le)
    ensures Sorted(more, le)
    ensures multiset(more) == multiset(sorted) + multiset{x}
  {
    var k := |sorted|;
    while k > 0 && !le(sorted[k - 1], x)
      invariant 0 <= k <= |sorted|
      invariant forall j :: k <= j < |sorted| ==> le(x, sorted[j])
    {
      k := k - 1;
    }
    forall j | 0 <= j < k ensures le(sorted[j], x) {
      assert j == k - 1 || le(sorted[j], sorted[k - 1]);
    }
    SpliceKeepsSorted(sorted, x, k, le);
    more := sorted[..k] + [x] + sorted[k..];
  }

  lemma SpliceKeepsSorted<T>(sorted: seq<T>, x: T, k: nat, le: (T, T) -> bool)
    requires Sorted(sorted, le) && k <= |sorted|
    requires forall j :: 0 <= j < k ==> le(sorted[j], x)
    requires forall j :: k <= j < |sorted| ==> le(x, sorted[j])
    ensures Sorted(sorted[..k] + [x] + sorted[k..], le)
    ensures multiset(sorted[..k] + [x] + sorted[k..]) == multiset(sorted) + multiset{x}
  {
    assert sorted == sorted[..k] + sorted[k..];
    var more := sorted[..k] + [x] + sorted[k..];
    forall i, j | 0 <= i < j < |more| ensures le(more[i], more[j]) {
      assert more[i] == if i < k then sorted[i] else if i == k then x else sorted[i - 1];
      assert more[j] == if j < k then sorted[j] else if j == k then x else sorted[j - 1];
    }
  }

  method Sort<T(!new)>(xs: seq<T>, le: (T, T) -> bool) returns (sorted: seq<T>)
    requires TotalOrder(le)
    ensures Sorted(sorted, le)
    ensures multiset(sorted) == multiset(xs)
  {
    sorted := [];
    for k := 0 to |xs|
      invariant Sorted(sorted, le)
      invariant multiset(sorted) == multiset(xs[..k])
    {
      sorted := InsertSorted(sorted, xs[k], le);
      assert xs[..k + 1] == xs[..k] + [xs[k]];
    }
    assert xs[..|xs|] == xs;
  }

  lemma AppendKeepsNormal<T(!new)>(xs: seq<T>, k: nat, kept: seq<T>, le: (T, T) -> bool)
    requires TotalOrder(le) && Sorted(xs, le) && k < |xs| && IsNormal(kept, le)
    requires Elements(kept) == Elements(xs[..k])
    requires k == 0 || xs[k] != xs[k - 1]
    ensures IsNormal(kept + [xs[k]], le)
  {
    forall y | y in kept ensures le(y, xs[k]) && y != xs[k] {
      assert y in Elements(kept);
      var i :| 0 <= i < k && xs[..k][i] == y;
      assert i == k - 1 || le(xs[i], xs[k - 1]);
      assert le(xs[k - 1], xs[k]);
    }
  }

  lemma AppendElements<T>(xs: seq<T>, x: T)
    ensures Elements(xs + [x]) == Elements(xs) + {x}
  {
  }

  /** Drops every element equal to its predecessor. */
  method Dedup<T(==, !new)>(xs: seq<T>, ghost le: (T, T) -> bool) returns (kept: seq<T>)
    requires TotalOrder(le) && Sorted(xs, le)
    ensures IsNormal(kept, le)
    ensures Elements(kept) == Elements(xs)
  {
    kept := [];
    for k := 0 to |xs|
      invariant IsNormal(kept, le)
      invariant Elements(kept) == Elements(xs[..k])
    {
      assert xs[..k + 1] == xs[..k] + [xs[k]];
      if k == 0 || xs[k] != xs[k - 1] {
        AppendKeepsNormal(xs, k, kept, le);
        AppendElements(kept, xs[k]);
        kept := kept + [xs[k]];
      } else {
        assert xs[k] == xs[..k][k - 1];
      }
      AppendElements(xs[..k], xs[k]);
    }
    assert xs[..|xs|] == xs;
  }

  lemma SameElements<T>(xs: seq<T>, ys: seq<T>)
    requires multiset(xs) == multiset(ys)
    ensures Elements(xs) == Elements(ys)
  {
    forall x ensures x in xs <==> x in ys {
      assert x in xs <==> x in multiset(xs);
      assert x in ys <==> x in multiset(ys);
    }
  }
}
