/** Lists without repetition, sorting by a comparison, and the greatest elements of a list. */
module Lists {

  ghost predicate Distinct<T>(s: seq<T>) {
    forall i, j | 0 <= i < j < |s| :: s[i] != s[j]
  }

  lemma {:induction false} DistinctCount<T>(s: seq<T>, x: T)
    requires Distinct(s)
    ensures multiset(s)[x] <= 1
  {
    if s != [] {
      assert s == s[..|s| - 1] + [s[|s| - 1]];
      DistinctCount(s[..|s| - 1], x);
    }
  }

  lemma TwiceCounted<T>(s: seq<T>, i: nat, j: nat)
    requires i < j < |s| && s[i] == s[j]
    ensures multiset(s)[s[i]] >= 2
  {
    assert s == s[..j] + s[j..];
    assert s[..j][i] in multiset(s[..j]) && s[j..][0] in multiset(s[j..]);
  }

  lemma PermutedDistinct<T>(a: seq<T>, b: seq<T>)
    requires Distinct(a) && multiset(a) == multiset(b)
    ensures Distinct(b)
  {
    forall i, j | 0 <= i < j < |b|
      ensures b[i] != b[j]
    {
      if b[i] == b[j] {
        TwiceCounted(b, i, j);
        DistinctCount(a, b[i]);
      }
    }
  }

  lemma PermutedMembers<T>(a: seq<T>, b: seq<T>)
    requires multiset(a) == multiset(b)
    ensures |a| == |b| && forall x :: x in a <==> x in b
  {
    assert |multiset(a)| == |multiset(b)|;
    assert forall x :: x in a <==> x in multiset(a);
    assert forall x :: x in b <==> x in multiset(b);
  }

  // ---------------------------------------------------------------- filtering and counting

  function Filter<T>(keep: T -> bool, s: seq<T>): seq<T> {
    if s == [] then []
    else Filter(keep, s[..|s| - 1]) + if keep(s[|s| - 1]) then [s[|s| - 1]] else []
  }

  lemma {:induction false} FilterSelects<T>(keep: T -> bool, s: seq<T>)
    ensures forall x :: x in Filter(keep, s) <==> x in s && keep(x)
    ensures Distinct(s) ==> Distinct(Filter(keep, s))
  {
    if s != [] {
      FilterSelects(keep, s[..|s| - 1]);
      assert s == s[..|s| - 1] + [s[|s| - 1]];
    }
  }

  lemma {:induction false} FilterAppend<T>(keep: T -> bool, a: seq<T>, b: seq<T>)
    ensures Filter(keep, a + b) == Filter(keep, a) + Filter(keep, b)
  {
    if b == [] {
      assert a + b == a;
    } else {
      assert (a + b)[..|a + b| - 1] == a + b[..|b| - 1];
      FilterAppend(keep, a, b[..|b| - 1]);
    }
  }

  lemma FilterOne<T>(keep: T -> bool, s: seq<T>, x: T)
    ensures Filter(keep, s + [x]) == Filter(keep, s) + if keep(x) then [x] else []
  {
    assert (s + [x])[..|s|] == s;
  }

  /** Filtering first by a weaker condition makes no difference. */
  lemma {:induction false} FilterFilter<T>(keep: T -> bool, weaker: T -> bool, s: seq<T>)
    requires forall x | x in s && keep(x) :: weaker(x)
    ensures Filter(keep, Filter(weaker, s)) == Filter(keep, s)
  {
    if s != [] {
      var (init, last) := (s[..|s| - 1], s[|s| - 1]);
      assert s == init + [last];
      FilterFilter(keep, weaker, init);
      FilterOne(keep, Filter(weaker, init), last);
      assert last in s;
      assert Filter(weaker, s) == if weaker(last) then Filter(weaker, init) + [last] else Filter(weaker, init);
    }
  }

  lemma {:induction false} FilterAgree<T>(a: T -> bool, b: T -> bool, s: seq<T>)
    requires forall x | x in s :: a(x) == b(x)
    ensures Filter(a, s) == Filter(b, s)
  {
    if s != [] {
      assert s == s[..|s| - 1] + [s[|s| - 1]];
      FilterAgree(a, b, s[..|s| - 1]);
    }
  }

  lemma {:induction false} FilterShorter<T>(keep: T -> bool, other: T -> bool, s: seq<T>)
    ensures |Filter(keep, Filter(other, s))| <= |Filter(keep, s)|
  {
    if s != [] {
      var (init, last) := (s[..|s| - 1], s[|s| - 1]);
      FilterShorter(keep, other, init);
      FilterOne(keep, Filter(other, init), last);
      assert Filter(other, s) == if other(last) then Filter(other, init) + [last] else Filter(other, init);
    }
  }

  /** A filter that every element, or no element, passes. */
  lemma {:induction false} FilterTrivial<T>(keep: T -> bool, s: seq<T>)
    ensures (forall x | x in s :: keep(x)) ==> Filter(keep, s) == s
    ensures (forall x | x in s :: !keep(x)) ==> Filter(keep, s) == []
  {
    if s != [] {
      var (init, last) := (s[..|s| - 1], s[|s| - 1]);
      assert s == init + [last];
      FilterTrivial(keep, init);
      assert last in s && forall x | x in init :: x in s;
    }
  }

  /** `t` holds exactly the elements of `s` that pass, as often as in `s` and in their order; `at` lists their
      places. */
  ghost predicate Picks<T>(keep: T -> bool, s: seq<T>, t: seq<T>, at: seq<nat>) {
    && |at| == |t|
    && (forall k | 0 <= k < |at| :: at[k] < |s| && t[k] == s[at[k]] && keep(t[k]))
    && (forall k, m | 0 <= k < m < |at| :: at[k] < at[m])
    && (forall i | 0 <= i < |s| && keep(s[i]) :: i in at)
  }

  ghost predicate Selects<T>(keep: T -> bool, s: seq<T>, t: seq<T>) {
    exists at :: Picks(keep, s, t, at)
  }

  lemma PicksLast<T>(keep: T -> bool, s: seq<T>, t: seq<T>, at: seq<nat>, last: T)
    requires Picks(keep, s, t, at) && keep(last)
    ensures Picks(keep, s + [last], t + [last], at + [|s|])
  {
    var (more, at') := (s + [last], at + [|s|]);
    forall i | 0 <= i < |more| && keep(more[i])
      ensures i in at'
    {
      if i == |s| {
        assert at'[|at|] == i;
      } else {
        assert more[i] == s[i] && i in at;
      }
    }
  }

  lemma PicksNotLast<T>(keep: T -> bool, s: seq<T>, t: seq<T>, at: seq<nat>, last: T)
    requires Picks(keep, s, t, at) && !keep(last)
    ensures Picks(keep, s + [last], t, at)
  {
    var more := s + [last];
    assert forall i | 0 <= i < |s| :: more[i] == s[i];
  }

  lemma {:induction false} FilterPicks<T>(keep: T -> bool, s: seq<T>) returns (at: seq<nat>)
    ensures Picks(keep, s, Filter(keep, s), at)
  {
    if s == [] {
      at := [];
    } else {
      var (init, last) := (s[..|s| - 1], s[|s| - 1]);
      assert s == init + [last];
      at := FilterPicks(keep, init);
      if keep(last) {
        PicksLast(keep, init, Filter(keep, init), at, last);
        at := at + [|init|];
      } else {
        PicksNotLast(keep, init, Filter(keep, init), at, last);
        assert Filter(keep, s) == Filter(keep, init);
      }
    }
  }

  function Not<T>(keep: T -> bool): T -> bool {
    (x: T) => !keep(x)
  }

  /** A list is split between a filter and its negation. */
  lemma {:induction false} FilterSplits<T>(keep: T -> bool, s: seq<T>)
    ensures multiset(Filter(keep, s)) + multiset(Filter(Not(keep), s)) == multiset(s)
  {
    if s != [] {
      var (init, last) := (s[..|s| - 1], s[|s| - 1]);
      FilterSplits(keep, init);
      assert s == init + [last];
      if keep(last) {
        assert Filter(keep, s) == Filter(keep, init) + [last] && Filter(Not(keep), s) == Filter(Not(keep), init);
      } else {
        assert Filter(keep, s) == Filter(keep, init) && Filter(Not(keep), s) == Filter(Not(keep), init) + [last];
      }
    }
  }

  /** Two lists without repetition and with the same members are equally long. */
  lemma {:induction false} SameLength<T>(a: seq<T>, b: seq<T>)
    requires Distinct(a) && Distinct(b) && forall x :: x in a <==> x in b
    ensures |a| == |b|
  {
    assert (set x | x in a) == (set x | x in b);
    SetSize(a);
    SetSize(b);
  }

  lemma {:induction false} SetSize<T>(a: seq<T>)
    requires Distinct(a)
    ensures |set x | x in a| == |a|
  {
    if a == [] {
      assert (set x | x in a) == {};
    } else {
      var (init, last) := (a[..|a| - 1], a[|a| - 1]);
      SetSize(init);
      assert (set x | x in a) == (set x | x in init) + {last};
    }
  }

  // ---------------------------------------------------------------- sorting

  ghost predicate TotalPreorder<T(!new)>(before: (T, T) -> bool) {
    && (forall a, b :: before(a, b) || before(b, a))
    && (forall a, b, c :: before(a, b) && before(b, c) ==> before(a, c))
  }

  ghost predicate Sorted<T>(before: (T, T) -> bool, s: seq<T>) {
    forall i, j | 0 <= i < j < |s| :: before(s[i], s[j])
  }

  function InsertBy<T>(before: (T, T) -> bool, x: T, s: seq<T>): seq<T> {
    if s == [] || before(x, s[0]) then [x] + s else [s[0]] + InsertBy(before, x, s[1..])
  }

  /** Sorts, keeping equal elements in their order. */
  function SortBy<T>(before: (T, T) -> bool, s: seq<T>): seq<T> {
    if s == [] then [] else InsertBy(before, s[0], SortBy(before, s[1..]))
  }

  lemma {:induction false} InsertPermutes<T>(before: (T, T) -> bool, x: T, s: seq<T>)
    ensures multiset(InsertBy(before, x, s)) == multiset(s) + multiset{x}
  {
    if s != [] && !before(x, s[0]) {
      InsertPermutes(before, x, s[1..]);
      assert s == [s[0]] + s[1..];
    }
  }

  lemma {:induction false} InsertSorts<T(!new)>(before: (T, T) -> bool, x: T, s: seq<T>)
    requires TotalPreorder(before) && Sorted(before, s)
    ensures Sorted(before, InsertBy(before, x, s))
  {
    if s != [] && !before(x, s[0]) {
      var rest := InsertBy(before, x, s[1..]);
      InsertSorts(before, x, s[1..]);
      InsertPermutes(before, x, s[1..]);
      forall k | 0 <= k < |rest|
        ensures before(s[0], rest[k])
      {
        assert rest[k] in multiset(s[1..]) + multiset{x};
      }
    }
  }

  lemma {:induction false} SortPermutes<T>(before: (T, T) -> bool, s: seq<T>)
    ensures multiset(SortBy(before, s)) == multiset(s)
  {
    if s != [] {
      SortPermutes(before, s[1..]);
      InsertPermutes(before, s[0], SortBy(before, s[1..]));
      assert s == [s[0]] + s[1..];
    }
  }

  lemma {:induction false} SortSorts<T(!new)>(before: (T, T) -> bool, s: seq<T>)
    requires TotalPreorder(before)
    ensures Sorted(before, SortBy(before, s))
  {
    if s != [] {
      SortSorts(before, s[1..]);
      InsertSorts(before, s[0], SortBy(before, s[1..]));
    }
  }

  lemma FilterFirst<T>(keep: T -> bool, x: T, s: seq<T>)
    ensures Filter(keep, [x] + s) == (if keep(x) then [x] else []) + Filter(keep, s)
  {
    FilterAppend(keep, [x], s);
    assert [x][..0] == [];
    assert Filter(keep, [x]) == if keep(x) then [x] else [];
  }

  lemma {:induction false} InsertStable<T>(before: (T, T) -> bool, keep: T -> bool, x: T, s: seq<T>)
    requires forall y | y in s && keep(x) && keep(y) :: before(x, y)
    ensures Filter(keep, InsertBy(before, x, s)) == (if keep(x) then [x] else []) + Filter(keep, s)
  {
    if s == [] || before(x, s[0]) {
      FilterFirst(keep, x, s);
    } else {
      var rest := InsertBy(before, x, s[1..]);
      assert s == [s[0]] + s[1..];
      InsertStable(before, keep, x, s[1..]);
      FilterFirst(keep, s[0], rest);
      FilterFirst(keep, s[0], s[1..]);
    }
  }

  /** Elements that are equal in the order keep their places among each other. */
  lemma {:induction false} SortStable<T(!new)>(before: (T, T) -> bool, keep: T -> bool, s: seq<T>)
    requires forall x, y | keep(x) && keep(y) :: before(x, y)
    ensures Filter(keep, SortBy(before, s)) == Filter(keep, s)
  {
    if s != [] {
      assert s == [s[0]] + s[1..];
      SortStable(before, keep, s[1..]);
      InsertStable(before, keep, s[0], SortBy(before, s[1..]));
      FilterFirst(keep, s[0], s[1..]);
    }
  }

  // ---------------------------------------------------------------- the first elements in an order

  function Take<T>(s: seq<T>, n: int): seq<T> {
    if n <= 0 then [] else if n >= |s| then s else s[..n]
  }

  /** `first` is sorted, holds qualifying elements of `all` once each, and none left out comes before one of them. */
  ghost predicate FirstOf<T(!new)>(before: (T, T) -> bool, keep: T -> bool, all: seq<T>, first: seq<T>) {
    && Distinct(first) && Sorted(before, first)
    && (forall x | x in first :: x in all && keep(x))
    && (forall x, p | x in all && keep(x) && x !in first && 0 <= p < |first| :: before(first[p], x))
  }

  /** The beginning of a sorted list of all qualifying elements. */
  lemma TakeIsFirst<T(!new)>(before: (T, T) -> bool, keep: T -> bool, all: seq<T>, sorted: seq<T>, n: int)
    requires Distinct(all) && Distinct(sorted) && Sorted(before, sorted)
    requires forall x :: x in sorted <==> x in all && keep(x)
    ensures FirstOf(before, keep, all, Take(sorted, n))
    ensures |sorted| == |Filter(keep, all)|
  {
    var first := Take(sorted, n);
    FilterSelects(keep, all);
    SameLength(sorted, Filter(keep, all));
    assert forall p | 0 <= p < |first| :: first[p] == sorted[p];
    assert forall p | 0 <= p < |first| :: sorted[p] in first;
    forall x, p | x in all && keep(x) && x !in first && 0 <= p < |first|
      ensures before(first[p], x)
    {
      assert x in sorted;
      var k :| 0 <= k < |sorted| && sorted[k] == x;
    }
  }
}
