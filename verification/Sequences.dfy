/** The array operations the source leans on: `filter`, and laws relating it to `+`, length and order. */
module Sequences {
  import opened Options

  /** `Array.prototype.filter`: the elements that satisfy `p`, in their order. */
  function Filter<T(!new)>(s: seq<T>, p: T -> bool): (r: seq<T>)
    ensures |r| <= |s|
    ensures forall x :: x in r <==> x in s && p(x)
  {
    if |s| == 0 then []
    else if p(s[0]) then [s[0]] + Filter(s[1..], p)
    else Filter(s[1..], p)
  }

  function Not<T>(p: T -> bool): T -> bool {
    x => !p(x)
  }

  ghost predicate Distinct<T>(s: seq<T>) {
    forall i, j :: 0 <= i < j < |s| ==> s[i] != s[j]
  }

  lemma {:induction false} FilterAppend<T(!new)>(a: seq<T>, b: seq<T>, p: T -> bool)
    ensures Filter(a + b, p) == Filter(a, p) + Filter(b, p)
  {
    if |a| == 0 {
      assert a + b == b;
    } else {
      assert (a + b)[1..] == a[1..] + b;
      FilterAppend(a[1..], b, p);
    }
  }

  lemma {:induction false} FilterSame<T(!new)>(s: seq<T>, p: T -> bool, q: T -> bool)
    requires forall x :: x in s ==> p(x) == q(x)
    ensures Filter(s, p) == Filter(s, q)
  {
    if |s| == 0 {
    } else {
      FilterSame(s[1..], p, q);
    }
  }

  lemma {:induction false} FilterAll<T(!new)>(s: seq<T>, p: T -> bool)
    requires forall x :: x in s ==> p(x)
    ensures Filter(s, p) == s
  {
    if |s| == 0 {
    } else {
      FilterAll(s[1..], p);
    }
  }

  lemma {:induction false} FilterNone<T(!new)>(s: seq<T>, p: T -> bool)
    requires forall x :: x in s ==> !p(x)
    ensures Filter(s, p) == []
  {
    if |s| == 0 {
    } else {
      FilterNone(s[1..], p);
    }
  }

  /** Filtering twice keeps what satisfies both. */
  lemma {:induction false} FilterTwice<T(!new)>(s: seq<T>, p: T -> bool, q: T -> bool, both: T -> bool)
    requires forall x :: x in s ==> both(x) == (p(x) && q(x))
    ensures Filter(Filter(s, p), q) == Filter(s, both)
  {
    if |s| == 0 {
    } else {
      FilterTwice(s[1..], p, q, both);
    }
  }

  /** A predicate and its negation split a sequence: nothing is lost and nothing is counted twice. */
  lemma {:induction false} FilterSplits<T(!new)>(s: seq<T>, p: T -> bool)
    ensures |s| == |Filter(s, p)| + |Filter(s, Not(p))|
    ensures multiset(s) == multiset(Filter(s, p)) + multiset(Filter(s, Not(p)))
  {
    if |s| == 0 {
    } else {
      FilterSplits(s[1..], p);
      assert s == [s[0]] + s[1..];
    }
  }

  /** Putting one more element in changes the result exactly when the element is kept. */
  lemma FilterInserted<T(!new)>(before: seq<T>, x: T, after: seq<T>, p: T -> bool)
    ensures |Filter(before + [x] + after, p)| == |Filter(before + after, p)| + (if p(x) then 1 else 0)
    ensures !p(x) ==> Filter(before + [x] + after, p) == Filter(before + after, p)
  {
    assert before + [x] + after == before + ([x] + after);
    FilterAppend(before, [x] + after, p);
    FilterAppend(before, after, p);
    assert ([x] + after)[1..] == after;
  }

  lemma {:induction false} FilterDistinct<T(!new)>(s: seq<T>, p: T -> bool)
    requires Distinct(s)
    ensures Distinct(Filter(s, p))
  {
    if |s| == 0 {
    } else {
      FilterDistinct(s[1..], p);
      assert s[0] !in s[1..];
    }
  }

  /** A sequence with no repeats is as long as its set of elements. */
  lemma {:induction false} DistinctSize<T>(s: seq<T>)
    requires Distinct(s)
    ensures |set x | x in s| == |s|
  {
    if |s| == 0 {
    } else {
      DistinctSize(s[1..]);
      assert (set x | x in s) == {s[0]} + (set x | x in s[1..]);
      assert s[0] !in s[1..];
    }
  }

  /** How often an element is kept depends only on how often it is there. */
  lemma {:induction false} FilterCounts<T(!new)>(s: seq<T>, p: T -> bool)
    ensures forall x :: multiset(Filter(s, p))[x] == if p(x) then multiset(s)[x] else 0
  {
    if |s| == 0 {
    } else {
      FilterCounts(s[1..], p);
      assert s == [s[0]] + s[1..];
    }
  }

  /** Reordering a sequence does not change how many of its elements are kept. */
  lemma FilterOfPermutation<T(!new)>(a: seq<T>, b: seq<T>, p: T -> bool)
    requires multiset(a) == multiset(b)
    ensures multiset(Filter(a, p)) == multiset(Filter(b, p)) && |Filter(a, p)| == |Filter(b, p)|
  {
    FilterCounts(a, p);
    FilterCounts(b, p);
    assert multiset(Filter(a, p)) == multiset(Filter(b, p));
    assert |Filter(a, p)| == |multiset(Filter(a, p))|;
    assert |Filter(b, p)| == |multiset(Filter(b, p))|;
  }

  /** The last place where `p` holds. */
  function LastIndex<T>(s: seq<T>, p: T -> bool): (at: Option<nat>)
    ensures at.None? ==> forall i :: 0 <= i < |s| ==> !p(s[i])
    ensures at.Some? ==> at.value < |s| && p(s[at.value]) && forall i :: at.value < i < |s| ==> !p(s[i])
  {
    if |s| == 0 then None
    else if p(s[|s| - 1]) then Some(|s| - 1)
    else LastIndex(s[..|s| - 1], p)
  }

  lemma LastIndexMore<T>(s: seq<T>, x: T, p: T -> bool)
    ensures LastIndex(s + [x], p) == if p(x) then Some(|s|) else LastIndex(s, p)
  {
    assert (s + [x])[..|s|] == s;
  }
}
