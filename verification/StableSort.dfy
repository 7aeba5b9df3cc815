// A stable sort by a comparison, and what its result depends on.
module StableSort {

  ghost predicate TotalPreorder<T(!new)>(leq: (T, T) -> bool) {
    && (forall x, y :: leq(x, y) || leq(y, x))
    && (forall x, y, z :: leq(x, y) && leq(y, z) ==> leq(x, z))
  }

  /** Place x in front of the first element that it does not come after. */
  function Insert<T>(x: T, sorted: seq<T>, leq: (T, T) -> bool): seq<T> {
    if sorted == [] || leq(x, sorted[0]) then [x] + sorted
    else [sorted[0]] + Insert(x, sorted[1..], leq)
  }

  function Sort<T>(xs: seq<T>, leq: (T, T) -> bool): seq<T> {
    if xs == [] then [] else Insert(xs[0], Sort(xs[1..], leq), leq)
  }

  ghost predicate Sorted<T>(xs: seq<T>, leq: (T, T) -> bool) {
    forall i, j | 0 <= i < j < |xs| :: leq(xs[i], xs[j])
  }

  lemma HeadComesFirst<T(!new)>(x: T, sorted: seq<T>, rest: seq<T>, leq: (T, T) -> bool)
    requires sorted != [] && Sorted(sorted, leq) && leq(sorted[0], x)
    requires multiset(rest) == multiset(sorted[1..]) + multiset{x}
    ensures forall j | 0 <= j < |rest| :: leq(sorted[0], rest[j])
  {
    forall j | 0 <= j < |rest| ensures leq(sorted[0], rest[j]) {
      assert rest[j] in multiset(rest);
      if rest[j] != x {
        assert rest[j] in sorted[1..];
      }
    }
  }

  lemma {:induction false} InsertKeeps<T(!new)>(x: T, sorted: seq<T>, leq: (T, T) -> bool)
    requires TotalPreorder(leq) && Sorted(sorted, leq)
    ensures Sorted(Insert(x, sorted, leq), leq)
    ensures multiset(Insert(x, sorted, leq)) == multiset(sorted) + multiset{x}
  {
    if sorted != [] {
      assert sorted == [sorted[0]] + sorted[1..];
      if !leq(x, sorted[0]) {
        var rest := Insert(x, sorted[1..], leq);
        InsertKeeps(x, sorted[1..], leq);
        HeadComesFirst(x, sorted, rest, leq);
      }
    }
  }

  /** The result is in order and has exactly the elements of the input. */
  lemma {:induction false} SortSorts<T(!new)>(xs: seq<T>, leq: (T, T) -> bool)
    requires TotalPreorder(leq)
    ensures Sorted(Sort(xs, leq), leq) && multiset(Sort(xs, leq)) == multiset(xs)
    ensures |Sort(xs, leq)| == |xs|
  {
    if xs != [] {
      assert xs == [xs[0]] + xs[1..];
      SortSorts(xs[1..], leq);
      InsertKeeps(xs[0], Sort(xs[1..], leq), leq);
    }
    assert |multiset(Sort(xs, leq))| == |Sort(xs, leq)|;
  }

  /** Sorting what is in order already changes nothing. */
  lemma {:induction false} SortedIsFixed<T(!new)>(xs: seq<T>, leq: (T, T) -> bool)
    requires Sorted(xs, leq)
    ensures Sort(xs, leq) == xs
  {
    if xs != [] {
      SortedIsFixed(xs[1..], leq);
    }
  }

  // ---------- rearranging distinct elements ----------

  ghost predicate DistinctBy<T, K>(xs: seq<T>, key: T -> K) {
    forall i, j | 0 <= i < j < |xs| :: key(xs[i]) != key(xs[j])
  }

  lemma PermutationKeepsDistinct<T, K>(xs: seq<T>, ys: seq<T>, key: T -> K)
    requires multiset(xs) == multiset(ys) && DistinctBy(xs, key)
    ensures DistinctBy(ys, key)
  {
    forall i, j | 0 <= i < j < |ys| ensures key(ys[i]) != key(ys[j]) {
      if key(ys[i]) == key(ys[j]) {
        assert ys[i] in multiset(xs) && ys[j] in multiset(xs);
        var p :| 0 <= p < |xs| && xs[p] == ys[i];
        var q :| 0 <= q < |xs| && xs[q] == ys[j];
        assert p == q;
        CountsTwice(ys, i, j);
        CountsOnce(xs, p);
      }
    }
  }

  lemma CountsTwice<T>(ys: seq<T>, i: nat, j: nat)
    requires i < j < |ys| && ys[i] == ys[j]
    ensures multiset(ys)[ys[i]] >= 2
  {
    assert ys == ys[..i] + [ys[i]] + ys[i + 1..j] + [ys[j]] + ys[j + 1..];
  }

  lemma CountsOnce<T>(xs: seq<T>, p: nat)
    requires p < |xs| && forall q | 0 <= q < |xs| && q != p :: xs[q] != xs[p]
    ensures multiset(xs)[xs[p]] == 1
  {
    assert xs == xs[..p] + [xs[p]] + xs[p + 1..];
    assert xs[p] !in xs[..p] && xs[p] !in xs[p + 1..];
  }

  // ---------- the input order only matters among ties ----------

  predicate Tied<T>(x: T, y: T, leq: (T, T) -> bool) {
    leq(x, y) && leq(y, x)
  }

  /** The elements tied with k, in order. */
  function Ties<T>(xs: seq<T>, k: T, leq: (T, T) -> bool): seq<T> {
    if xs == [] then [] else (if Tied(xs[0], k, leq) then [xs[0]] else []) + Ties(xs[1..], k, leq)
  }

  lemma TiesOfCons<T>(x: T, rest: seq<T>, k: T, leq: (T, T) -> bool)
    ensures Ties([x] + rest, k, leq) == Ties([x], k, leq) + Ties(rest, k, leq)
  {
    assert ([x] + rest)[1..] == rest && [x][1..] == [];
  }

  lemma NotBothTied<T(!new)>(x: T, y: T, k: T, leq: (T, T) -> bool)
    requires TotalPreorder(leq) && !leq(x, y)
    ensures !(Tied(x, k, leq) && Tied(y, k, leq))
  {
  }

  lemma TiesPastHead<T>(x: T, sorted: seq<T>, rest: seq<T>, k: T, leq: (T, T) -> bool)
    requires sorted != [] && !(Tied(x, k, leq) && Tied(sorted[0], k, leq))
    requires Ties(rest, k, leq) == Ties([x], k, leq) + Ties(sorted[1..], k, leq)
    ensures Ties([sorted[0]] + rest, k, leq) == Ties([x], k, leq) + Ties(sorted, k, leq)
  {
    TiesOfCons(sorted[0], rest, k, leq);
    assert [x][1..] == [] && [sorted[0]][1..] == [];
  }

  lemma {:induction false} TiesOfInsert<T(!new)>(x: T, sorted: seq<T>, k: T, leq: (T, T) -> bool)
    requires TotalPreorder(leq) && Sorted(sorted, leq)
    ensures Ties(Insert(x, sorted, leq), k, leq) == Ties([x], k, leq) + Ties(sorted, k, leq)
  {
    if sorted == [] || leq(x, sorted[0]) {
      TiesOfCons(x, sorted, k, leq);
    } else {
      TailKeepsOrder(sorted, leq);
      TiesOfInsert(x, sorted[1..], k, leq);
      NotBothTied(x, sorted[0], k, leq);
      TiesPastHead(x, sorted, Insert(x, sorted[1..], leq), k, leq);
    }
  }

  /** Stability: tied elements keep the order they came in. */
  lemma {:induction false} SortIsStable<T(!new)>(xs: seq<T>, k: T, leq: (T, T) -> bool)
    requires TotalPreorder(leq)
    ensures Ties(Sort(xs, leq), k, leq) == Ties(xs, k, leq)
  {
    if xs != [] {
      var sorted := Sort(xs[1..], leq);
      assert Sorted(sorted, leq) by {
        SortSorts(xs[1..], leq);
      }
      SortIsStable(xs[1..], k, leq);
      TiesOfInsert(xs[0], sorted, k, leq);
      assert xs == [xs[0]] + xs[1..];
      TiesOfCons(xs[0], xs[1..], k, leq);
    }
  }

  lemma {:induction false} TiesOfConcat<T>(a: seq<T>, b: seq<T>, k: T, leq: (T, T) -> bool)
    ensures Ties(a + b, k, leq) == Ties(a, k, leq) + Ties(b, k, leq)
  {
    if a == [] {
      assert a + b == b;
    } else {
      var rest := a[1..];
      assert a == [a[0]] + rest && a + b == [a[0]] + (rest + b);
      TiesOfConcat(rest, b, k, leq);
      TiesOfCons(a[0], rest, k, leq);
      TiesOfCons(a[0], rest + b, k, leq);
    }
  }

  /** No two different elements are tied. */
  ghost predicate TieFree<T>(xs: seq<T>, leq: (T, T) -> bool) {
    forall i, j | 0 <= i < j < |xs| && Tied(xs[i], xs[j], leq) :: xs[i] == xs[j]
  }

  lemma SmallestIsFirst<T(!new)>(a: seq<T>, b: seq<T>, leq: (T, T) -> bool)
    requires TotalPreorder(leq) && Sorted(a, leq) && Sorted(b, leq) && multiset(a) == multiset(b)
    requires a != [] && b != [] && TieFree(a, leq)
    ensures a[0] == b[0]
  {
    assert b[0] in multiset(b) && a[0] in multiset(a);
    var i :| 0 <= i < |a| && a[i] == b[0];
    var j :| 0 <= j < |b| && b[j] == a[0];
    assert leq(a[0], a[i]) && leq(b[0], b[j]);
    assert Tied(a[0], a[i], leq);
  }

  lemma {:induction false} SortedIsUnique<T(!new)>(a: seq<T>, b: seq<T>, leq: (T, T) -> bool)
    requires TotalPreorder(leq) && Sorted(a, leq) && Sorted(b, leq) && multiset(a) == multiset(b)
    requires TieFree(a, leq)
    ensures a == b
  {
    assert |multiset(a)| == |a| && |multiset(b)| == |b|;
    if a != [] {
      SmallestIsFirst(a, b, leq);
      var x := a[0];
      assert a == [x] + a[1..] && b == [x] + b[1..];
      assert multiset(a) == multiset{x} + multiset(a[1..]) && multiset(b) == multiset{x} + multiset(b[1..]);
      assert multiset(a[1..]) == multiset(a) - multiset{x} && multiset(b[1..]) == multiset(b) - multiset{x};
      TailKeepsOrder(a, leq);
      TailKeepsOrder(b, leq);
      SortedIsUnique(a[1..], b[1..], leq);
    }
  }

  lemma TailKeepsOrder<T(!new)>(a: seq<T>, leq: (T, T) -> bool)
    requires a != [] && Sorted(a, leq)
    ensures Sorted(a[1..], leq) && (TieFree(a, leq) ==> TieFree(a[1..], leq))
  {
  }

  /** Every rearrangement of the input sorts to the same sequence if and only if no two different elements tie. */
  lemma SortIgnoresOrderIffTieFree<T(!new)>(xs: seq<T>, leq: (T, T) -> bool)
    requires TotalPreorder(leq)
    ensures TieFree(xs, leq) <==> forall ys | multiset(ys) == multiset(xs) :: Sort(ys, leq) == Sort(xs, leq)
  {
    if TieFree(xs, leq) {
      forall ys | multiset(ys) == multiset(xs) ensures Sort(ys, leq) == Sort(xs, leq) {
        TieFreeSortsTheSame(xs, ys, leq);
      }
    } else {
      var i, j :| 0 <= i < j < |xs| && Tied(xs[i], xs[j], leq) && xs[i] != xs[j];
      SwappedTieShows(xs, i, j, leq);
    }
  }

  lemma TieFreeSortsTheSame<T(!new)>(xs: seq<T>, ys: seq<T>, leq: (T, T) -> bool)
    requires TotalPreorder(leq) && TieFree(xs, leq) && multiset(ys) == multiset(xs)
    ensures Sort(ys, leq) == Sort(xs, leq)
  {
    SortSorts(xs, leq);
    SortSorts(ys, leq);
    TieFreeIsAboutElements(xs, Sort(xs, leq), leq);
    SortedIsUnique(Sort(xs, leq), Sort(ys, leq), leq);
  }

  lemma TieFreeIsAboutElements<T(!new)>(xs: seq<T>, ys: seq<T>, leq: (T, T) -> bool)
    requires TotalPreorder(leq) && TieFree(xs, leq) && multiset(xs) == multiset(ys)
    ensures TieFree(ys, leq)
  {
    forall p, q | 0 <= p < q < |ys| && Tied(ys[p], ys[q], leq) ensures ys[p] == ys[q] {
      assert ys[p] in multiset(xs) && ys[q] in multiset(xs);
      var i :| 0 <= i < |xs| && xs[i] == ys[p];
      var j :| 0 <= j < |xs| && xs[j] == ys[q];
    }
  }

  lemma TiesAfterPrefix<T(!new)>(front: seq<T>, x: T, back: seq<T>, k: T, leq: (T, T) -> bool)
    requires Tied(x, k, leq)
    ensures var at := |Ties(front, k, leq)|;
            at < |Ties(front + [x] + back, k, leq)| && Ties(front + [x] + back, k, leq)[at] == x
  {
    TiesOfConcat(front + [x], back, k, leq);
    TiesOfConcat(front, [x], k, leq);
    assert Ties([x], k, leq) == [x];
  }

  lemma SwapKeepsElements<T>(xs: seq<T>, i: nat, j: nat)
    requires i < j < |xs|
    ensures multiset(xs[i := xs[j]][j := xs[i]]) == multiset(xs)
  {
  }

  lemma SwappedTieShows<T(!new)>(xs: seq<T>, i: nat, j: nat, leq: (T, T) -> bool)
    requires TotalPreorder(leq) && i < j < |xs| && Tied(xs[i], xs[j], leq) && xs[i] != xs[j]
    ensures var ys := xs[i := xs[j]][j := xs[i]];
            multiset(ys) == multiset(xs) && Sort(ys, leq) != Sort(xs, leq)
  {
    var k := xs[i];
    var ys := xs[i := xs[j]][j := xs[i]];
    SwapKeepsElements(xs, i, j);
    assert xs[..i] + [xs[i]] + xs[i + 1..] == xs && xs[..i] + [xs[j]] + ys[i + 1..] == ys;
    TiesAfterPrefix(xs[..i], xs[i], xs[i + 1..], k, leq);
    TiesAfterPrefix(xs[..i], xs[j], ys[i + 1..], k, leq);
    SortIsStable(xs, k, leq);
    SortIsStable(ys, k, leq);
  }
}
