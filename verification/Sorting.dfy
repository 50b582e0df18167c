/**
 Stable sorting by a comparison function, as Go's sort.SliceStable promises it, and the
 fact the operator relies on: a stable sort is determined by the order of its input
 within each class of equivalent elements, and by nothing else.
 */
module Sorting {

  ghost predicate StrictWeakOrder<T(!new)>(less: (T, T) -> bool) {
    && (forall x, y :: less(x, y) ==> !less(y, x))
    && (forall x, y, z :: !less(x, y) && !less(y, z) ==> !less(x, z))
  }

  predicate Equivalent<T>(less: (T, T) -> bool, x: T, y: T) {
    !less(x, y) && !less(y, x)
  }

  ghost predicate Sorted<T>(less: (T, T) -> bool, s: seq<T>) {
    forall i, j :: 0 <= i < j < |s| ==> !less(s[j], s[i])
  }

  function Insert<T>(less: (T, T) -> bool, s: seq<T>, x: T): seq<T> {
    if s == [] || !less(x, s[|s| - 1]) then s + [x]
    else Insert(less, s[..|s| - 1], x) + [s[|s| - 1]]
  }

  function StableSort<T>(less: (T, T) -> bool, s: seq<T>): seq<T> {
    if s == [] then [] else Insert(less, StableSort(less, s[..|s| - 1]), s[|s| - 1])
  }

  /** The elements of `s` equivalent to `x`, in the order they have in `s`. */
  function Class<T>(less: (T, T) -> bool, s: seq<T>, x: T): seq<T> {
    if s == [] then []
    else
      var last := s[|s| - 1];
      Class(less, s[..|s| - 1], x) + (if Equivalent(less, last, x) then [last] else [])
  }

  lemma {:induction false} InsertContents<T>(less: (T, T) -> bool, s: seq<T>, x: T)
    ensures multiset(Insert(less, s, x)) == multiset(s) + multiset{x}
  {
    if s == [] || !less(x, s[|s| - 1]) {
    } else {
      assert s == s[..|s| - 1] + [s[|s| - 1]];
      InsertContents(less, s[..|s| - 1], x);
    }
  }

  lemma {:induction false} InsertSorted<T(!new)>(less: (T, T) -> bool, s: seq<T>, x: T)
    requires StrictWeakOrder(less) && Sorted(less, s)
    ensures Sorted(less, Insert(less, s, x))
  {
    if s == [] || !less(x, s[|s| - 1]) {
    } else {
      var init, last := s[..|s| - 1], s[|s| - 1];
      InsertSorted(less, init, x);
      InsertContents(less, init, x);
      var r := Insert(less, init, x);
      forall i | 0 <= i < |r| ensures !less(last, r[i]) {
        assert r[i] in multiset(r);
        assert r[i] == x || r[i] in multiset(init);
      }
    }
  }

  lemma {:induction false} InsertClass<T(!new)>(less: (T, T) -> bool, s: seq<T>, y: T, x: T)
    requires StrictWeakOrder(less)
    ensures Class(less, Insert(less, s, y), x) == Class(less, s + [y], x)
  {
    assert (s + [y])[..|s|] == s;
    if s == [] || !less(y, s[|s| - 1]) {
    } else {
      var init, last := s[..|s| - 1], s[|s| - 1];
      InsertClass(less, init, y, x);
      assert (init + [y])[..|init|] == init;
      var r := Insert(less, init, y);
      assert (r + [last])[..|r|] == r;
    }
  }

  /** What sort.SliceStable promises: sorted, a permutation, and stable within every class. */
  lemma {:induction false} StableSortCorrect<T(!new)>(less: (T, T) -> bool, s: seq<T>)
    requires StrictWeakOrder(less)
    ensures Sorted(less, StableSort(less, s))
    ensures multiset(StableSort(less, s)) == multiset(s)
    ensures forall x :: Class(less, StableSort(less, s), x) == Class(less, s, x)
  {
    if s != [] {
      var init, last := s[..|s| - 1], s[|s| - 1];
      var r := StableSort(less, init);
      StableSortCorrect(less, init);
      InsertSorted(less, r, last);
      InsertContents(less, r, last);
      assert s == init + [last];
      forall x ensures Class(less, StableSort(less, s), x) == Class(less, s, x) {
        InsertClass(less, r, last, x);
        assert (r + [last])[..|r|] == r;
      }
    }
  }

  lemma {:induction false} ClassConcat<T>(less: (T, T) -> bool, s: seq<T>, t: seq<T>, x: T)
    ensures Class(less, s + t, x) == Class(less, s, x) + Class(less, t, x)
  {
    if t == [] {
      assert s + t == s;
    } else {
      var init := t[..|t| - 1];
      assert (s + t)[..|s + t| - 1] == s + init;
      ClassConcat(less, s, init, x);
    }
  }

  lemma {:induction false} ClassMembers<T>(less: (T, T) -> bool, s: seq<T>, x: T)
    ensures forall y :: y in Class(less, s, x) <==> y in s && Equivalent(less, y, x)
  {
    if s != [] {
      ClassMembers(less, s[..|s| - 1], x);
      assert s == s[..|s| - 1] + [s[|s| - 1]];
    }
  }

  ghost predicate Distinct<T>(s: seq<T>) {
    forall i, j :: 0 <= i < j < |s| ==> s[i] != s[j]
  }

  lemma DistinctSnoc<T>(s: seq<T>, x: T)
    requires Distinct(s) && x !in s
    ensures Distinct(s + [x])
  {
  }

  lemma DistinctInit<T>(s: seq<T>)
    requires Distinct(s) && s != []
    ensures Distinct(s[..|s| - 1]) && s[|s| - 1] !in s[..|s| - 1]
    ensures forall x :: x in s <==> x in s[..|s| - 1] || x == s[|s| - 1]
  {
    assert s == s[..|s| - 1] + [s[|s| - 1]];
  }

  lemma FirstTwoAreMembers<T>(s: seq<T>)
    ensures |s| > 0 ==> s[0] in s
    ensures |s| > 1 ==> s[1] in s
  {
  }

  lemma {:induction false} ClassDistinct<T>(less: (T, T) -> bool, s: seq<T>, x: T)
    requires Distinct(s)
    ensures Distinct(Class(less, s, x))
  {
    if s != [] {
      var init, last := s[..|s| - 1], s[|s| - 1];
      ClassDistinct(less, init, x);
      ClassMembers(less, init, x);
      assert last !in init;
      DistinctSnoc(Class(less, init, x), last);
    }
  }

  /** Distinct sequences with the same members, all equal, are the same (and at most one long). */
  lemma SameSingleton<T(!new)>(s: seq<T>, t: seq<T>)
    requires Distinct(s) && Distinct(t)
    requires forall x :: x in s <==> x in t
    requires forall x, y :: x in s && y in s ==> x == y
    ensures s == t
  {
    FirstTwoAreMembers(s);
    FirstTwoAreMembers(t);
  }

  /** Two sorted sequences with the same classes are the same sequence. */
  lemma {:induction false} SortedIsDetermined<T(!new)>(less: (T, T) -> bool, a: seq<T>, b: seq<T>)
    requires StrictWeakOrder(less) && Sorted(less, a) && Sorted(less, b)
    requires forall x :: Class(less, a, x) == Class(less, b, x)
    ensures a == b
    decreases |a|
  {
    forall y ensures y in a <==> y in b {
      ClassMembers(less, a, y);
      ClassMembers(less, b, y);
    }
    if a == [] {
      FirstTwoAreMembers(b);
    } else {
      assert a[0] in b;
      var a', la := a[..|a| - 1], a[|a| - 1];
      var b', lb := b[..|b| - 1], b[|b| - 1];
      assert Equivalent(less, la, lb) by {
        assert la in b && lb in a;
      }
      SameLast(less, a, b);
      forall x ensures Class(less, a', x) == Class(less, b', x) {
        assert Class(less, a, x) == Class(less, b, x);
        ClassInit(less, a, x);
        ClassInit(less, b, x);
      }
      SortedIsDetermined(less, a', b');
      assert a == a' + [la] && b == b' + [lb];
    }
  }

  lemma SameLast<T(!new)>(less: (T, T) -> bool, a: seq<T>, b: seq<T>)
    requires StrictWeakOrder(less) && a != [] && b != [] && Equivalent(less, a[|a| - 1], b[|b| - 1])
    requires forall x :: Class(less, a, x) == Class(less, b, x)
    ensures a[|a| - 1] == b[|b| - 1]
  {
    var la, lb := a[|a| - 1], b[|b| - 1];
    var c, d := Class(less, a, la), Class(less, b, la);
    assert c == d;
    assert c[|c| - 1] == la && d[|d| - 1] == lb;
  }

  /** The class of all but the last element. */
  lemma ClassInit<T>(less: (T, T) -> bool, s: seq<T>, x: T)
    requires s != []
    ensures var c := Class(less, s, x);
      if Equivalent(less, s[|s| - 1], x) then c != [] && Class(less, s[..|s| - 1], x) == c[..|c| - 1]
      else Class(less, s[..|s| - 1], x) == c
  {
  }

  lemma ClassOfTwo<T>(less: (T, T) -> bool, c: T, d: T, x: T)
    requires Equivalent(less, c, x) && Equivalent(less, d, x)
    ensures Class(less, [c, d], x) == [c, d]
  {
    assert [c, d][..1] == [c] && [c][..0] == [];
    assert Class(less, [c], x) == [c];
  }

  /** Stable sorting forgets everything about its input but the order inside each class. */
  lemma SameClassesSameSort<T(!new)>(less: (T, T) -> bool, s: seq<T>, t: seq<T>)
    requires StrictWeakOrder(less)
    requires forall x :: Class(less, s, x) == Class(less, t, x)
    ensures StableSort(less, s) == StableSort(less, t)
  {
    StableSortCorrect(less, s);
    StableSortCorrect(less, t);
    SortedIsDetermined(less, StableSort(less, s), StableSort(less, t));
  }

  /** Lexicographic order on strings by code point, which for Go's UTF-8 strings is byte order. */
  predicate StringLess(a: string, b: string) {
    if b == [] then false
    else if a == [] then true
    else a[0] < b[0] || (a[0] == b[0] && StringLess(a[1..], b[1..]))
  }

  /** Equal to `b`, a prefix of it, or smaller at the first difference. */
  ghost predicate NotAbove(a: string, b: string) {
    a <= b || exists k :: 0 <= k < |a| && k < |b| && a[..k] == b[..k] && a[k] < b[k]
  }

  lemma {:induction false} StringLessMeans(a: string, b: string)
    ensures !StringLess(b, a) <==> NotAbove(a, b)
  {
    if a != [] && b != [] {
      StringLessMeans(a[1..], b[1..]);
      if a[0] == b[0] { SameFirst(a, b); }
      else if a[0] < b[0] { assert a[..0] == b[..0]; }
    }
  }

  lemma SameFirst(a: string, b: string)
    requires a != [] && b != [] && a[0] == b[0]
    ensures NotAbove(a, b) <==> NotAbove(a[1..], b[1..])
  {
    var c, d := a[1..], b[1..];
    assert a == [a[0]] + c && b == [b[0]] + d;
    if k :| 0 <= k < |a| && k < |b| && a[..k] == b[..k] && a[k] < b[k] {
      assert a[..k][1..] == c[..k - 1] && b[..k][1..] == d[..k - 1];
      assert c[..k - 1] == d[..k - 1] && c[k - 1] < d[k - 1];
    }
    if k :| 0 <= k < |c| && k < |d| && c[..k] == d[..k] && c[k] < d[k] {
      assert a[..k + 1] == [a[0]] + c[..k] && b[..k + 1] == [b[0]] + d[..k];
      assert a[k + 1] < b[k + 1];
    }
  }

  lemma {:induction false} StringLessAsymmetric(a: string, b: string)
    ensures StringLess(a, b) ==> !StringLess(b, a)
  {
    if a != [] && b != [] { StringLessAsymmetric(a[1..], b[1..]); }
  }

  lemma {:induction false} StringLessNegTransitive(a: string, b: string, c: string)
    ensures !StringLess(a, b) && !StringLess(b, c) ==> !StringLess(a, c)
  {
    if a != [] && b != [] && c != [] { StringLessNegTransitive(a[1..], b[1..], c[1..]); }
  }

  lemma {:induction false} StringLessTotal(a: string, b: string)
    ensures StringLess(a, b) || StringLess(b, a) || a == b
  {
    if a != [] && b != [] {
      StringLessTotal(a[1..], b[1..]);
      assert a == [a[0]] + a[1..] && b == [b[0]] + b[1..];
    }
  }

  lemma StringLessIsTotalOrder()
    ensures StrictWeakOrder(StringLess)
    ensures forall a, b :: Equivalent(StringLess, a, b) ==> a == b
  {
    forall a, b ensures StringLess(a, b) ==> !StringLess(b, a) { StringLessAsymmetric(a, b); }
    forall a, b, c ensures !StringLess(a, b) && !StringLess(b, c) ==> !StringLess(a, c) {
      StringLessNegTransitive(a, b, c);
    }
    forall a, b ensures Equivalent(StringLess, a, b) ==> a == b { StringLessTotal(a, b); }
  }

  lemma MiddleMultiset<T>(front: seq<T>, x: T, back: seq<T>)
    ensures multiset(front + [x] + back) == multiset(front + back) + multiset{x}
  {
  }

  lemma SnocMultiset<T>(s: seq<T>, x: T)
    ensures multiset(s + [x]) == multiset(s) + multiset{x}
  {
  }

  lemma DistinctPrefix<T>(s: seq<T>, x: T)
    ensures Distinct(s + [x]) <==> Distinct(s) && x !in s
  {
    var t := s + [x];
    if Distinct(t) {
      forall i, j | 0 <= i < j < |s| ensures s[i] != s[j] { assert t[i] != t[j]; }
      forall i | 0 <= i < |s| ensures s[i] != x { assert t[i] != t[|s|]; }
    }
    if Distinct(s) && x !in s { DistinctSnoc(s, x); }
  }

  /** Distinctness only depends on the multiset of elements. */
  lemma {:induction false} DistinctAsMultiset<T(!new)>(s: seq<T>)
    ensures Distinct(s) <==> forall x :: multiset(s)[x] <= 1
  {
    if s != [] {
      var init, last := s[..|s| - 1], s[|s| - 1];
      DistinctAsMultiset(init);
      assert s == init + [last];
      SnocMultiset(init, last);
      DistinctPrefix(init, last);
      assert forall x :: multiset(s)[x] == multiset(init)[x] + (if x == last then 1 else 0);
      assert last in init <==> multiset(init)[last] > 0;
    }
  }

  lemma SameMultisetSameMembers<T(!new)>(s: seq<T>, t: seq<T>)
    requires multiset(s) == multiset(t)
    ensures forall x :: x in s <==> x in t
  {
    assert forall x :: x in s <==> x in multiset(s);
    assert forall x :: x in t <==> x in multiset(t);
  }

  lemma StringClassesAgree(s: seq<string>, t: seq<string>, x: string)
    requires Distinct(s) && Distinct(t) && forall y :: y in s <==> y in t
    ensures Class(StringLess, s, x) == Class(StringLess, t, x)
  {
    ClassDistinct(StringLess, s, x);
    ClassDistinct(StringLess, t, x);
    ClassMembers(StringLess, s, x);
    ClassMembers(StringLess, t, x);
    forall y | y in Class(StringLess, s, x) || y in Class(StringLess, t, x) ensures y == x { StringLessTotal(y, x); }
    SameSingleton(Class(StringLess, s, x), Class(StringLess, t, x));
  }

  /** Strings in sorted order, each once, are determined by which strings they are. */
  lemma SortedStringsDetermined(s: seq<string>, t: seq<string>)
    requires Distinct(s) && Distinct(t) && forall x :: x in s <==> x in t
    ensures StableSort(StringLess, s) == StableSort(StringLess, t)
  {
    forall x ensures Class(StringLess, s, x) == Class(StringLess, t, x) { StringClassesAgree(s, t, x); }
    StringLessIsTotalOrder();
    SameClassesSameSort(StringLess, s, t);
  }

  lemma SortedStrings(s: seq<string>)
    ensures multiset(StableSort(StringLess, s)) == multiset(s)
    ensures forall x :: x in StableSort(StringLess, s) <==> x in s
    ensures Distinct(s) ==> Distinct(StableSort(StringLess, s))
  {
    StringLessIsTotalOrder();
    StableSortCorrect(StringLess, s);
    SameMultisetSameMembers(s, StableSort(StringLess, s));
    DistinctAsMultiset(s);
    DistinctAsMultiset(StableSort(StringLess, s));
  }

  lemma {:induction false} ClassMultiset<T>(less: (T, T) -> bool, s: seq<T>, x: T, y: T)
    ensures multiset(Class(less, s, x))[y] == if Equivalent(less, y, x) then multiset(s)[y] else 0
  {
    if s != [] {
      var init, last := s[..|s| - 1], s[|s| - 1];
      ClassMultiset(less, init, x, y);
      assert s == init + [last];
      SnocMultiset(init, last);
      SnocMultiset(Class(less, init, x), last);
    }
  }

  lemma {:induction false} ConstantMultiset<T(!new)>(s: seq<T>, y: T)
    requires forall z :: z in s ==> z == y
    ensures multiset(s)[y] == |s|
  {
    if s != [] {
      var init, last := s[..|s| - 1], s[|s| - 1];
      assert s == init + [last] && last in s;
      forall z | z in init ensures z == y { assert z in s; }
      ConstantMultiset(init, y);
      SnocMultiset(init, last);
    }
  }

  lemma SameConstant<T(!new)>(s: seq<T>, t: seq<T>)
    requires multiset(s) == multiset(t)
    requires forall x, y :: x in s && y in s ==> x == y
    ensures s == t
  {
    SameMultisetSameMembers(s, t);
    FirstTwoAreMembers(s);
    FirstTwoAreMembers(t);
    if s != [] {
      ConstantMultiset(s, s[0]);
      ConstantMultiset(t, s[0]);
      forall i | 0 <= i < |s| ensures s[i] == t[i] { assert s[i] in s && t[i] in t; }
    }
  }

  /** If equivalent elements are equal, sorting forgets the order of its input altogether. */
  lemma SortOfPermutation<T(!new)>(less: (T, T) -> bool, s: seq<T>, t: seq<T>)
    requires StrictWeakOrder(less) && multiset(s) == multiset(t)
    requires forall x, y :: x in s && y in s && Equivalent(less, x, y) ==> x == y
    ensures StableSort(less, s) == StableSort(less, t)
  {
    forall x ensures Class(less, s, x) == Class(less, t, x) { ClassOfPermutation(less, s, t, x); }
    SameClassesSameSort(less, s, t);
  }

  lemma ClassOfPermutation<T(!new)>(less: (T, T) -> bool, s: seq<T>, t: seq<T>, x: T)
    requires StrictWeakOrder(less) && multiset(s) == multiset(t)
    requires forall a, b :: a in s && b in s && Equivalent(less, a, b) ==> a == b
    ensures Class(less, s, x) == Class(less, t, x)
  {
    ClassMembers(less, s, x);
    var c, d := Class(less, s, x), Class(less, t, x);
    forall y ensures multiset(c)[y] == multiset(d)[y] {
      ClassMultiset(less, s, x, y);
      ClassMultiset(less, t, x, y);
    }
    assert multiset(c) == multiset(d);
    forall a, b | a in c && b in c ensures a == b { assert Equivalent(less, a, b); }
    SameConstant(c, d);
  }

  /** Swapping two equivalent, different elements is visible in the sorted result. */
  lemma SwapIsVisible<T(!new)>(less: (T, T) -> bool, a: T, b: T, rest: seq<T>)
    requires StrictWeakOrder(less) && Equivalent(less, a, b) && a != b
    ensures StableSort(less, [a, b] + rest) != StableSort(less, [b, a] + rest)
  {
    StableSortCorrect(less, [a, b] + rest);
    StableSortCorrect(less, [b, a] + rest);
    ClassOfPair(less, a, b, rest, a);
    ClassOfPair(less, b, a, rest, a);
    assert Class(less, [a, b] + rest, a)[0] == a;
    assert Class(less, [b, a] + rest, a)[0] == b;
  }

  lemma ClassOfPair<T>(less: (T, T) -> bool, a: T, b: T, rest: seq<T>, x: T)
    requires Equivalent(less, a, x) && Equivalent(less, b, x)
    ensures Class(less, [a, b] + rest, x) == [a, b] + Class(less, rest, x)
  {
    ClassConcat(less, [a, b], rest, x);
    ClassOfTwo(less, a, b, x);
  }
}
