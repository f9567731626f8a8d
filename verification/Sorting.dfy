/** The stable sort that the sources ask their libraries for (OrderBy, sort_by). */
module Sorting {
  import opened Common

  ghost predicate TotalPreorder<T(!new)>(le: (T, T) -> bool) {
    && (forall x, y :: le(x, y) || le(y, x))
    && (forall x, y, z :: le(x, y) && le(y, z) ==> le(x, z))
  }

  ghost predicate SortedBy<T>(xs: seq<T>, le: (T, T) -> bool) {
    forall i, j | 0 <= i < j < |xs| :: le(xs[i], xs[j])
  }

  function Insert<T>(x: T, xs: seq<T>, le: (T, T) -> bool): seq<T> {
    if xs == [] || le(x, xs[0]) then [x] + xs else [xs[0]] + Insert(x, xs[1..], le)
  }

  /** Equal elements keep their order, because each one is inserted before its equals. */
  function Sort<T>(xs: seq<T>, le: (T, T) -> bool): seq<T> {
    if xs == [] then [] else Insert(xs[0], Sort(xs[1..], le), le)
  }

  lemma {:induction false} InsertPermutes<T>(x: T, xs: seq<T>, le: (T, T) -> bool)
    ensures multiset(Insert(x, xs, le)) == multiset{x} + multiset(xs)
  {
    if xs != [] && !le(x, xs[0]) {
      InsertPermutes(x, xs[1..], le);
      assert xs == [xs[0]] + xs[1..];
    }
  }

  lemma {:induction false} InsertSorted<T(!new)>(x: T, xs: seq<T>, le: (T, T) -> bool)
    requires TotalPreorder(le) && SortedBy(xs, le)
    ensures SortedBy(Insert(x, xs, le), le)
  {
    if xs == [] {
    } else {
      if le(x, xs[0]) {
        forall j | 0 <= j < |xs| ensures le(x, xs[j]) {
          assert le(xs[0], xs[j]);
        }
      } else {
        var rest := Insert(x, xs[1..], le);
        InsertSorted(x, xs[1..], le);
        InsertPermutes(x, xs[1..], le);
        forall j | 0 <= j < |rest| ensures le(xs[0], rest[j]) {
          assert rest[j] in multiset(rest);
          if rest[j] != x {
            assert rest[j] in xs[1..];
          }
        }
      }
    }
  }

  /** Sorting rearranges and orders. */
  lemma {:induction false} SortCorrect<T(!new)>(xs: seq<T>, le: (T, T) -> bool)
    requires TotalPreorder(le)
    ensures multiset(Sort(xs, le)) == multiset(xs)
    ensures SortedBy(Sort(xs, le), le)
    ensures |Sort(xs, le)| == |xs|
  {
    if xs == [] {
    } else {
      SortCorrect(xs[1..], le);
      InsertPermutes(xs[0], Sort(xs[1..], le), le);
      InsertSorted(xs[0], Sort(xs[1..], le), le);
      assert xs == [xs[0]] + xs[1..];
      assert |multiset(Sort(xs, le))| == |multiset(xs)|;
    }
  }

  lemma {:induction false} SortMembers<T(!new)>(xs: seq<T>, le: (T, T) -> bool, x: T)
    requires TotalPreorder(le)
    ensures x in Sort(xs, le) <==> x in xs
  {
    SortCorrect(xs, le);
    assert x in xs <==> x in multiset(xs);
    assert x in Sort(xs, le) <==> x in multiset(Sort(xs, le));
  }

  /** The elements that an order does not tell apart from x, in their order. */
  function Ties<T>(xs: seq<T>, le: (T, T) -> bool, x: T): seq<T> {
    if xs == [] then [] else (if le(x, xs[0]) && le(xs[0], x) then [xs[0]] else []) + Ties(xs[1..], le, x)
  }

  lemma {:induction false} InsertKeepsTies<T(!new)>(y: T, xs: seq<T>, le: (T, T) -> bool, x: T)
    requires TotalPreorder(le)
    ensures Ties(Insert(y, xs, le), le, x) == Ties([y] + xs, le, x)
  {
    assert ([y] + xs)[1..] == xs;
    if xs != [] && !le(y, xs[0]) {
      InsertKeepsTies(y, xs[1..], le, x);
      assert ([y] + xs[1..])[1..] == xs[1..];
    }
  }

  /** The sort is stable. */
  lemma {:induction false} SortKeepsTies<T(!new)>(xs: seq<T>, le: (T, T) -> bool, x: T)
    requires TotalPreorder(le)
    ensures Ties(Sort(xs, le), le, x) == Ties(xs, le, x)
  {
    if xs == [] {
    } else {
      SortKeepsTies(xs[1..], le, x);
      InsertKeepsTies(xs[0], Sort(xs[1..], le), le, x);
      assert ([xs[0]] + Sort(xs[1..], le))[1..] == Sort(xs[1..], le);
    }
  }

  /** Any sum over the elements is a sum over the sorted elements. */
  function TotalOf<T>(xs: seq<T>, f: T -> nat): nat {
    if xs == [] then 0 else f(xs[0]) + TotalOf(xs[1..], f)
  }

  lemma {:induction false} InsertAdds<T>(x: T, xs: seq<T>, le: (T, T) -> bool, f: T -> nat)
    ensures TotalOf(Insert(x, xs, le), f) == f(x) + TotalOf(xs, f)
  {
    if xs == [] || le(x, xs[0]) {
      assert ([x] + xs)[1..] == xs;
    } else {
      InsertAdds(x, xs[1..], le, f);
    }
  }

  lemma {:induction false} SortKeepsTotal<T>(xs: seq<T>, le: (T, T) -> bool, f: T -> nat)
    ensures TotalOf(Sort(xs, le), f) == TotalOf(xs, f)
  {
    if xs == [] {
    } else {
      SortKeepsTotal(xs[1..], le, f);
      InsertAdds(xs[0], Sort(xs[1..], le), le, f);
    }
  }

  lemma {:induction false} TotalSplit<T>(xs: seq<T>, ys: seq<T>, f: T -> nat)
    ensures TotalOf(xs + ys, f) == TotalOf(xs, f) + TotalOf(ys, f)
  {
    if xs == [] {
      assert xs + ys == ys;
    } else {
      TotalSplit(xs[1..], ys, f);
      assert (xs + ys)[1..] == xs[1..] + ys;
    }
  }

  lemma {:induction false} CountTwice<T>(s: seq<T>, i: nat, j: nat)
    requires i < j < |s| && s[i] == s[j]
    ensures multiset(s)[s[i]] >= 2
  {
    assert s == s[..i] + [s[i]] + s[i + 1..j] + [s[j]] + s[j + 1..];
  }

  lemma {:induction false} CountOnce<T>(s: seq<T>, x: T)
    requires Distinct(s)
    ensures multiset(s)[x] <= 1
  {
    if s == [] {
    } else {
      CountOnce(s[1..], x);
      assert s == [s[0]] + s[1..];
    }
  }

  lemma SortDistinct<T(!new)>(xs: seq<T>, le: (T, T) -> bool)
    requires TotalPreorder(le) && Distinct(xs)
    ensures Distinct(Sort(xs, le))
  {
    var sorted := Sort(xs, le);
    SortCorrect(xs, le);
    forall i, j | 0 <= i < j < |sorted| ensures sorted[i] != sorted[j] {
      if sorted[i] == sorted[j] {
        CountTwice(sorted, i, j);
        CountOnce(xs, sorted[i]);
      }
    }
  }
}

/** Ordinal comparison of strings: unit by unit, a proper prefix first. */
module Ordinal {

  function Compare(a: string, b: string): int {
    if a == [] && b == [] then 0
    else if a == [] then -1
    else if b == [] then 1
    else if a[0] != b[0] then (if a[0] < b[0] then -1 else 1)
    else Compare(a[1..], b[1..])
  }

  predicate Le(a: string, b: string) {
    Compare(a, b) <= 0
  }

  lemma {:induction false} Antisymmetry(a: string, b: string)
    ensures Compare(a, b) == -Compare(b, a)
    ensures Compare(a, b) == 0 <==> a == b
    ensures -1 <= Compare(a, b) <= 1
  {
    if a != [] && b != [] {
      if a[0] == b[0] {
        Antisymmetry(a[1..], b[1..]);
        assert a == [a[0]] + a[1..] && b == [b[0]] + b[1..];
      }
    }
  }

  /** Before another string come its proper prefixes, and strings with a smaller character at the first difference. */
  ghost predicate Below(a: string, b: string) {
    a < b || exists k | 0 <= k < |a| && k < |b| :: a[..k] == b[..k] && a[k] < b[k]
  }

  lemma {:induction false} BelowStep(a: string, b: string)
    requires a != [] && b != []
    ensures Below(a, b) <==> a[0] < b[0] || (a[0] == b[0] && Below(a[1..], b[1..]))
  {
    if a[0] < b[0] {
      assert a[..0] == b[..0];
    } else if a[0] == b[0] {
      assert a == [a[0]] + a[1..] && b == [b[0]] + b[1..];
      forall k | 0 <= k < |a[1..]| && k < |b[1..]| && a[1..][..k] == b[1..][..k] && a[1..][k] < b[1..][k]
        ensures Below(a, b) {
        assert a[..k + 1] == [a[0]] + a[1..][..k] && b[..k + 1] == [b[0]] + b[1..][..k];
        assert a[k + 1] < b[k + 1];
      }
      forall k | 0 < k < |a| && k < |b| && a[..k] == b[..k] && a[k] < b[k] ensures Below(a[1..], b[1..]) {
        assert a[1..][..k - 1] == a[..k][1..] && b[1..][..k - 1] == b[..k][1..];
        assert a[1..][k - 1] < b[1..][k - 1];
      }
    } else {
      forall k | 0 < k < |a| && k < |b| ensures a[..k] != b[..k] {
        assert a[..k][0] == a[0] && b[..k][0] == b[0];
      }
    }
  }

  /** What the comparison loop computes, in both directions. */
  lemma {:induction false} CompareMeans(a: string, b: string)
    ensures Compare(a, b) < 0 <==>
              a < b || exists k :: 0 <= k < |a| && k < |b| && a[..k] == b[..k] && a[k] < b[k]
    ensures Compare(a, b) < 0 <==> Below(a, b)
    ensures Compare(a, b) > 0 <==> Below(b, a)
    ensures Compare(a, b) == 0 <==> a == b
  {
    if a == [] || b == [] {
    } else {
      BelowStep(a, b);
      BelowStep(b, a);
      if a[0] == b[0] {
        CompareMeans(a[1..], b[1..]);
        assert a == [a[0]] + a[1..] && b == [b[0]] + b[1..];
      }
    }
  }

  lemma {:induction false} Transitivity(a: string, b: string, c: string)
    requires Compare(a, b) <= 0 && Compare(b, c) <= 0
    ensures Compare(a, c) <= 0
    ensures Compare(a, b) < 0 || Compare(b, c) < 0 ==> Compare(a, c) < 0
  {
    if a != [] && b != [] && c != [] && a[0] == b[0] == c[0] {
      Transitivity(a[1..], b[1..], c[1..]);
    }
  }
}
