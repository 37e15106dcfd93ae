/**
 * `Array.prototype.sort` with a comparator. Since ECMAScript 2019 the sort is stable, and for a comparator that is
 * a total preorder that fixes the result completely: `StableSortUnique` says so, which is why any one stable
 * algorithm may stand for the engine's.
 */
module Sorting {
  import opened Sequences

  ghost predicate TotalPreorder<T(!new)>(le: (T, T) -> bool) {
    && (forall x, y :: le(x, y) || le(y, x))
    && (forall x, y, z :: le(x, y) && le(y, z) ==> le(x, z))
  }

  ghost predicate Sorted<T>(s: seq<T>, le: (T, T) -> bool) {
    forall i, j :: 0 <= i < j < |s| ==> le(s[i], s[j])
  }

  /** The elements the comparator calls equal to `x`. */
  function Tied<T>(le: (T, T) -> bool, x: T): T -> bool {
    y => le(x, y) && le(y, x)
  }

  /** What a stable sort promises: sorted, and every class of tied elements kept in its original order. */
  ghost predicate IsStableSortOf<T(!new)>(r: seq<T>, s: seq<T>, le: (T, T) -> bool) {
    && Sorted(r, le)
    && forall x :: Filter(r, Tied(le, x)) == Filter(s, Tied(le, x))
  }

  function Insert<T>(x: T, s: seq<T>, le: (T, T) -> bool): seq<T> {
    if |s| == 0 || le(x, s[0]) then [x] + s else [s[0]] + Insert(x, s[1..], le)
  }

  function StableSort<T>(s: seq<T>, le: (T, T) -> bool): seq<T> {
    if |s| == 0 then [] else Insert(s[0], StableSort(s[1..], le), le)
  }

  lemma {:induction false} InsertMultiset<T>(x: T, s: seq<T>, le: (T, T) -> bool)
    ensures multiset(Insert(x, s, le)) == multiset(s) + multiset{x}
  {
    if |s| == 0 || le(x, s[0]) {
    } else {
      InsertMultiset(x, s[1..], le);
      assert s == [s[0]] + s[1..];
    }
  }

  lemma {:induction false} InsertSorted<T(!new)>(x: T, s: seq<T>, le: (T, T) -> bool)
    requires TotalPreorder(le) && Sorted(s, le)
    ensures Sorted(Insert(x, s, le), le)
  {
    if |s| == 0 {
    } else if le(x, s[0]) {
      assert forall j :: 0 <= j < |s| ==> le(s[0], s[j]);
    } else {
      var rest := Insert(x, s[1..], le);
      InsertSorted(x, s[1..], le);
      InsertMultiset(x, s[1..], le);
      forall y | y in rest ensures le(s[0], y) {
        assert y in multiset(rest);
      }
    }
  }

  /** Inserting commutes with filtering. */
  lemma {:induction false} InsertFilter<T(!new)>(x: T, s: seq<T>, le: (T, T) -> bool, p: T -> bool)
    requires TotalPreorder(le) && Sorted(s, le)
    ensures Filter(Insert(x, s, le), p) == if p(x) then Insert(x, Filter(s, p), le) else Filter(s, p)
  {
    if |s| == 0 {
    } else if le(x, s[0]) {
      assert ([x] + s)[1..] == s;
      var kept := Filter(s, p);
      if |kept| > 0 {
        assert kept[0] in s && le(x, kept[0]);
      }
    } else {
      InsertFilter(x, s[1..], le, p);
      assert Insert(x, s, le)[1..] == Insert(x, s[1..], le);
    }
  }

  lemma {:induction false} StableSortSorts<T(!new)>(s: seq<T>, le: (T, T) -> bool)
    requires TotalPreorder(le)
    ensures Sorted(StableSort(s, le), le)
    ensures multiset(StableSort(s, le)) == multiset(s)
  {
    if |s| == 0 {
    } else {
      StableSortSorts(s[1..], le);
      InsertSorted(s[0], StableSort(s[1..], le), le);
      InsertMultiset(s[0], StableSort(s[1..], le), le);
      assert s == [s[0]] + s[1..];
    }
  }

  lemma StableSortMembers<T(!new)>(s: seq<T>, le: (T, T) -> bool)
    requires TotalPreorder(le)
    ensures |StableSort(s, le)| == |s|
    ensures forall x :: x in StableSort(s, le) <==> x in s
  {
    StableSortSorts(s, le);
    assert |multiset(StableSort(s, le))| == |multiset(s)|;
    forall x ensures x in StableSort(s, le) <==> x in s {
      assert x in multiset(StableSort(s, le)) <==> x in multiset(s);
    }
  }

  /** Filtering before or after the sort is the same thing. */
  lemma {:induction false} SortFilter<T(!new)>(s: seq<T>, le: (T, T) -> bool, p: T -> bool)
    requires TotalPreorder(le)
    ensures Filter(StableSort(s, le), p) == StableSort(Filter(s, p), le)
  {
    if |s| == 0 {
    } else {
      SortFilter(s[1..], le, p);
      StableSortSorts(s[1..], le);
      InsertFilter(s[0], StableSort(s[1..], le), le, p);
    }
  }

  lemma {:induction false} SortTied<T(!new)>(s: seq<T>, le: (T, T) -> bool)
    requires TotalPreorder(le)
    requires forall x, y :: x in s && y in s ==> le(x, y)
    ensures StableSort(s, le) == s
  {
    if |s| == 0 {
    } else {
      SortTied(s[1..], le);
      assert s == [s[0]] + s[1..];
    }
  }

  lemma StableSortIsStable<T(!new)>(s: seq<T>, le: (T, T) -> bool)
    requires TotalPreorder(le)
    ensures IsStableSortOf(StableSort(s, le), s, le)
  {
    StableSortSorts(s, le);
    forall x ensures Filter(StableSort(s, le), Tied(le, x)) == Filter(s, Tied(le, x)) {
      SortFilter(s, le, Tied(le, x));
      SortTied(Filter(s, Tied(le, x)), le);
    }
  }

  /** Two sorted sequences that agree on every class of tied elements are equal. */
  lemma {:induction false} SortedAgree<T(!new)>(r: seq<T>, t: seq<T>, le: (T, T) -> bool)
    requires TotalPreorder(le) && Sorted(r, le) && Sorted(t, le)
    requires forall x :: Filter(r, Tied(le, x)) == Filter(t, Tied(le, x))
    ensures r == t
  {
    if |r| == 0 {
      if |t| > 0 {
        assert false;
      }
    } else {
      var x := r[0];
      assert x in Filter(r, Tied(le, x));
      assert x in t;
      assert le(t[0], x);
      assert t[0] in Filter(t, Tied(le, t[0]));
      assert t[0] in r;
      assert le(x, t[0]);
      assert Filter(t, Tied(le, x))[0] == t[0];
      assert Filter(r, Tied(le, x))[0] == r[0];
      forall y ensures Filter(r[1..], Tied(le, y)) == Filter(t[1..], Tied(le, y)) {
        assert Filter(r, Tied(le, y)) == Filter(t, Tied(le, y));
        if Tied(le, y)(x) {
          assert Filter(r[1..], Tied(le, y)) == Filter(r, Tied(le, y))[1..];
          assert Filter(t[1..], Tied(le, y)) == Filter(t, Tied(le, y))[1..];
        }
      }
      SortedAgree(r[1..], t[1..], le);
      assert r == [r[0]] + r[1..];
      assert t == [t[0]] + t[1..];
    }
  }

  /** The result of a stable sort does not depend on the algorithm. */
  lemma StableSortUnique<T(!new)>(r: seq<T>, s: seq<T>, le: (T, T) -> bool)
    requires TotalPreorder(le)
    ensures IsStableSortOf(r, s, le) <==> r == StableSort(s, le)
  {
    StableSortIsStable(s, le);
    if IsStableSortOf(r, s, le) {
      SortedAgree(r, StableSort(s, le), le);
    }
  }

  ghost predicate Antisymmetric<T(!new)>(le: (T, T) -> bool) {
    forall x, y :: le(x, y) && le(y, x) ==> x == y
  }

  lemma AllTheSame<T(!new)>(a: seq<T>, b: seq<T>, x: T)
    requires |a| == |b| && (forall y :: y in a ==> y == x) && (forall y :: y in b ==> y == x)
    ensures a == b
  {
    forall i | 0 <= i < |a| ensures a[i] == b[i] {
      assert a[i] in a && b[i] in b;
    }
  }

  /** Where ties are equal the sort depends only on what is sorted, not on how it stood. */
  lemma SortOfPermutation<T(!new)>(a: seq<T>, b: seq<T>, le: (T, T) -> bool)
    requires TotalPreorder(le) && Antisymmetric(le)
    ensures StableSort(a, le) == StableSort(b, le) <==> multiset(a) == multiset(b)
  {
    StableSortSorts(a, le);
    StableSortSorts(b, le);
    if multiset(a) == multiset(b) {
      forall x ensures Filter(StableSort(a, le), Tied(le, x)) == Filter(StableSort(b, le), Tied(le, x)) {
        FilterOfPermutation(StableSort(a, le), StableSort(b, le), Tied(le, x));
        AllTheSame(Filter(StableSort(a, le), Tied(le, x)), Filter(StableSort(b, le), Tied(le, x)), x);
      }
      SortedAgree(StableSort(a, le), StableSort(b, le), le);
    }
  }

  // ----- The order of texts

  /** `sort` without a comparator: texts by their characters, a prefix first. */
  predicate AtMost(a: string, b: string) {
    |a| == 0 || (|b| > 0 && (a[0] < b[0] || (a[0] == b[0] && AtMost(a[1..], b[1..]))))
  }

  function TextOrder(): (string, string) -> bool {
    (a: string, b: string) => AtMost(a, b)
  }

  lemma {:induction false} AtMostIsTotal(a: string, b: string)
    ensures AtMost(a, b) || AtMost(b, a)
    ensures AtMost(a, b) && AtMost(b, a) ==> a == b
  {
    if |a| == 0 || |b| == 0 {
    } else {
      AtMostIsTotal(a[1..], b[1..]);
      assert a == [a[0]] + a[1..] && b == [b[0]] + b[1..];
    }
  }

  lemma {:induction false} AtMostIsTransitive(a: string, b: string, c: string)
    requires AtMost(a, b) && AtMost(b, c)
    ensures AtMost(a, c)
  {
    if |a| == 0 || a[0] < b[0] || b[0] < c[0] {
    } else {
      AtMostIsTransitive(a[1..], b[1..], c[1..]);
    }
  }

  lemma TextOrderIsTotal()
    ensures TotalPreorder(TextOrder()) && Antisymmetric(TextOrder())
  {
    var le := TextOrder();
    forall x, y ensures (le(x, y) || le(y, x)) && (le(x, y) && le(y, x) ==> x == y) {
      AtMostIsTotal(x, y);
    }
    forall x, y, z | le(x, y) && le(y, z) ensures le(x, z) {
      AtMostIsTransitive(x, y, z);
    }
  }
}
