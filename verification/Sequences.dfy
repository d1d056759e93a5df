/**
 * The lesser and the greater of two numbers, and sequences filtered in order or summed up.
 */
module Sequences {

  function Min(x: int, y: int): int {
    if x < y then x else y
  }

  function Max(x: int, y: int): int {
    if x < y then y else x
  }

  ghost predicate Distinct<T>(s: seq<T>) {
    forall i, j :: 0 <= i < j < |s| ==> s[i] != s[j]
  }

  lemma DistinctConcat<T>(a: seq<T>, b: seq<T>)
    requires Distinct(a) && Distinct(b) && forall x :: x in b ==> x !in a
    ensures Distinct(a + b)
  {
    var c := a + b;
    forall i, j | 0 <= i < j < |c|
      ensures c[i] != c[j]
    {
      if i < |a| <= j {
        assert c[j] in b && c[i] in a;
      }
    }
  }

  function RemoveAt<T>(s: seq<T>, i: nat): (r: seq<T>)
    requires i < |s|
    ensures |r| == |s| - 1
  {
    s[..i] + s[i + 1..]
  }

  function Filter<T>(s: seq<T>, keep: T -> bool): (r: seq<T>)
    ensures |r| <= |s|
  {
    if s == [] then []
    else
      var rest, last := Filter(s[..|s| - 1], keep), s[|s| - 1];
      if keep(last) then rest + [last] else rest
  }

  lemma SplitLast<T>(s: seq<T>)
    requires s != []
    ensures s == s[..|s| - 1] + [s[|s| - 1]]
  {
  }

  lemma SplitAround<T>(s: seq<T>, i: nat)
    requires i < |s|
    ensures s == s[..i] + [s[i]] + s[i + 1..]
  {
  }

  lemma AppendAssociates<T>(a: seq<T>, b: seq<T>, c: seq<T>)
    ensures (a + b) + c == a + (b + c)
  {
  }

  lemma {:induction false} FilterMember<T>(s: seq<T>, keep: T -> bool, x: T)
    ensures x in Filter(s, keep) <==> x in s && keep(x)
    decreases |s|
  {
    if s != [] {
      FilterMember(s[..|s| - 1], keep, x);
      SplitLast(s);
    }
  }

  lemma FilterSnoc<T>(s: seq<T>, x: T, keep: T -> bool)
    ensures Filter(s + [x], keep) == Filter(s, keep) + (if keep(x) then [x] else [])
  {
    assert (s + [x])[..|s|] == s;
  }

  lemma {:induction false} FilterConcat<T>(a: seq<T>, b: seq<T>, keep: T -> bool)
    ensures Filter(a + b, keep) == Filter(a, keep) + Filter(b, keep)
    decreases |b|
  {
    if b == [] {
      assert a + b == a;
    } else {
      FilterConcat(a, b[..|b| - 1], keep);
      FilterConcatSnoc(a, b[..|b| - 1], b[|b| - 1], keep);
      SplitLast(b);
    }
  }

  lemma FilterConcatSnoc<T>(a: seq<T>, b: seq<T>, x: T, keep: T -> bool)
    requires Filter(a + b, keep) == Filter(a, keep) + Filter(b, keep)
    ensures Filter(a + (b + [x]), keep) == Filter(a, keep) + Filter(b + [x], keep)
  {
    AppendAssociates(a, b, [x]);
    FilterSnoc(a + b, x, keep);
    FilterSnoc(b, x, keep);
    AppendAssociates(Filter(a, keep), Filter(b, keep), if keep(x) then [x] else []);
  }

  lemma {:induction false} FilterAll<T>(s: seq<T>, keep: T -> bool)
    requires forall i :: 0 <= i < |s| ==> keep(s[i])
    ensures Filter(s, keep) == s
    decreases |s|
  {
    if s != [] {
      FilterAll(s[..|s| - 1], keep);
      SplitLast(s);
    }
  }

  lemma {:induction false} FilterNone<T>(s: seq<T>, keep: T -> bool)
    requires forall i :: 0 <= i < |s| ==> !keep(s[i])
    ensures Filter(s, keep) == []
    decreases |s|
  {
    if s != [] {
      FilterNone(s[..|s| - 1], keep);
    }
  }

  lemma {:induction false} FilterSame<T>(s: seq<T>, p: T -> bool, q: T -> bool)
    requires forall i :: 0 <= i < |s| ==> (p(s[i]) <==> q(s[i]))
    ensures Filter(s, p) == Filter(s, q)
    decreases |s|
  {
    if s != [] {
      FilterSame(s[..|s| - 1], p, q);
    }
  }

  lemma {:induction false} FilterTwice<T(!new)>(s: seq<T>, p: T -> bool, q: T -> bool)
    requires forall e :: q(e) ==> p(e)
    ensures Filter(Filter(s, p), q) == Filter(s, q)
    decreases |s|
  {
    if s != [] {
      FilterTwice(s[..|s| - 1], p, q);
      FilterSnoc(Filter(s[..|s| - 1], p), s[|s| - 1], q);
    }
  }

  lemma {:induction false} FilterCount<T>(s: seq<T>, keep: T -> bool, x: T)
    ensures multiset(Filter(s, keep))[x] == if keep(x) then multiset(s)[x] else 0
    decreases |s|
  {
    if s != [] {
      FilterCount(s[..|s| - 1], keep, x);
      assert s == s[..|s| - 1] + [s[|s| - 1]];
    }
  }

  lemma Cut3<T>(m: seq<T>, a: seq<T>, b: seq<T>, c: seq<T>, keep: T -> bool)
    requires m == a + b + c
    ensures Filter(m, keep) == Filter(a, keep) + Filter(b, keep) + Filter(c, keep)
  {
    FilterConcat(a + b, c, keep);
    FilterConcat(a, b, keep);
  }

  /** The other elements, in order. */
  function Without<T(==,!new)>(s: seq<T>, x: T): (r: seq<T>)
    ensures forall y :: y in r <==> y in s && y != x
    ensures |r| <= |s|
  {
    if s == [] then []
    else
      var rest, last := Without(s[..|s| - 1], x), s[|s| - 1];
      if last == x then rest else rest + [last]
  }

  lemma {:induction false} WithoutDistinct<T(!new)>(s: seq<T>, x: T)
    ensures Distinct(s) ==> Distinct(Without(s, x)) && |Without(s, x)| == |s| - (if x in s then 1 else 0)
    decreases |s|
  {
    if s != [] && Distinct(s) {
      var front, last := s[..|s| - 1], s[|s| - 1];
      SplitLast(s);
      assert last !in front;
      WithoutDistinct(front, x);
    }
  }

  /** The sizes of all elements together. */
  function Total<T>(s: seq<T>, size: T -> int): int {
    if s == [] then 0 else Total(s[..|s| - 1], size) + size(s[|s| - 1])
  }

  lemma {:induction false} TotalConcat<T>(a: seq<T>, b: seq<T>, size: T -> int)
    ensures Total(a + b, size) == Total(a, size) + Total(b, size)
    decreases |b|
  {
    if b == [] {
      assert a + b == a;
    } else {
      TotalConcat(a, b[..|b| - 1], size);
      TotalSnoc(a + b[..|b| - 1], b[|b| - 1], size);
      assert a + b == (a + b[..|b| - 1]) + [b[|b| - 1]];
    }
  }

  lemma TotalSnoc<T>(s: seq<T>, x: T, size: T -> int)
    ensures Total(s + [x], size) == Total(s, size) + size(x)
  {
    assert (s + [x])[..|s|] == s;
  }
}
