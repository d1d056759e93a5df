/** The quadratic search over name pairs, for any pair test: collection, stable ranking, cut-off. */
module PairSearch {
  import opened Sorting

  datatype Candidate = Candidate(entity1: string, entity2: string, similarity: real, suggestedCanonical: string)

  datatype Test = Test(accept: (string, string) -> bool, make: (string, string) -> Candidate) {
    function Keep(a: string, b: string): seq<Candidate> {
      if accept(a, b) then [make(a, b)] else []
    }
  }

  /** The accepted pairs (i, q) with i < q < j, in order. */
  function Row(t: Test, names: seq<string>, i: nat, j: nat): seq<Candidate>
    requires i < j <= |names|
    decreases j
  {
    if j == i + 1 then [] else Row(t, names, i, j - 1) + t.Keep(names[i], names[j - 1])
  }

  /** The accepted pairs whose first member comes before position i. */
  function Rows(t: Test, names: seq<string>, i: nat): seq<Candidate>
    requires i <= |names|
  {
    if i == 0 then [] else Rows(t, names, i - 1) + Row(t, names, i - 1, |names|)
  }

  predicate AtLeast(a: Candidate, b: Candidate) {
    a.similarity >= b.similarity
  }

  function Top<T>(s: seq<T>, n: nat): seq<T> {
    if |s| <= n then s else s[..n]
  }

  function Best(t: Test, names: seq<string>, n: nat): seq<Candidate> {
    Top(Sort(Rows(t, names, |names|), AtLeast), n)
  }

  // ---- two tests that agree on the names find the same pairs

  ghost predicate KeepsSame(t: Test, u: Test, names: seq<string>) {
    forall a, b :: a in names && b in names ==> t.Keep(a, b) == u.Keep(a, b)
  }

  lemma {:induction false} RowAgrees(t: Test, u: Test, names: seq<string>, i: nat, j: nat)
    requires i < j <= |names|
    requires KeepsSame(t, u, names)
    ensures Row(t, names, i, j) == Row(u, names, i, j)
    decreases j
  {
    if j > i + 1 {
      RowAgrees(t, u, names, i, j - 1);
    }
  }

  lemma {:induction false} RowsAgree(t: Test, u: Test, names: seq<string>, i: nat)
    requires i <= |names|
    requires KeepsSame(t, u, names)
    ensures Rows(t, names, i) == Rows(u, names, i)
    decreases i
  {
    if i > 0 {
      RowsAgree(t, u, names, i - 1);
      RowAgrees(t, u, names, i - 1, |names|);
    }
  }

  // ---- what the search returns

  ghost predicate PairOf(t: Test, names: seq<string>, c: Candidate, i: nat, j: nat) {
    i < j < |names| && c in t.Keep(names[i], names[j])
  }

  ghost predicate InRows(t: Test, names: seq<string>, c: Candidate, i: nat) {
    exists p: nat, q: nat :: p < i && PairOf(t, names, c, p, q)
  }

  lemma {:induction false} RowHas(t: Test, names: seq<string>, i: nat, j: nat, c: Candidate, q: nat)
    requires i < j <= |names| && q < j && PairOf(t, names, c, i, q)
    ensures c in Row(t, names, i, j)
    decreases j
  {
    if q < j - 1 {
      RowHas(t, names, i, j - 1, c, q);
    }
  }

  lemma {:induction false} RowFrom(t: Test, names: seq<string>, i: nat, j: nat, c: Candidate) returns (q: nat)
    requires i < j <= |names| && c in Row(t, names, i, j)
    ensures q < j && PairOf(t, names, c, i, q)
    decreases j
  {
    if c in t.Keep(names[i], names[j - 1]) {
      q := j - 1;
    } else {
      q := RowFrom(t, names, i, j - 1, c);
    }
  }

  lemma {:induction false} RowsHave(t: Test, names: seq<string>, i: nat, c: Candidate, p: nat, q: nat)
    requires i <= |names| && p < i && PairOf(t, names, c, p, q)
    ensures c in Rows(t, names, i)
    decreases i
  {
    if p < i - 1 {
      RowsHave(t, names, i - 1, c, p, q);
    } else {
      RowHas(t, names, i - 1, |names|, c, q);
    }
    InAppend(Rows(t, names, i - 1), Row(t, names, i - 1, |names|), c);
  }

  lemma InAppend<T>(a: seq<T>, b: seq<T>, c: T)
    ensures c in a + b <==> c in a || c in b
  {
  }

  lemma {:induction false} RowsFrom(t: Test, names: seq<string>, i: nat, c: Candidate) returns (p: nat, q: nat)
    requires i <= |names| && c in Rows(t, names, i)
    ensures p < i && PairOf(t, names, c, p, q)
    decreases i
  {
    if c in Row(t, names, i - 1, |names|) {
      p := i - 1;
      q := RowFrom(t, names, i - 1, |names|, c);
    } else {
      p, q := RowsFrom(t, names, i - 1, c);
    }
  }

  lemma RowsMembers(t: Test, names: seq<string>, i: nat, c: Candidate)
    requires i <= |names|
    ensures c in Rows(t, names, i) <==> InRows(t, names, c, i)
  {
    if c in Rows(t, names, i) {
      var p, q := RowsFrom(t, names, i, c);
    }
    if InRows(t, names, c, i) {
      var p: nat, q: nat :| p < i && PairOf(t, names, c, p, q);
      RowsHave(t, names, i, c, p, q);
    }
  }

  lemma TopOfFalling(s: seq<Candidate>, n: nat, c: Candidate)
    requires Sorted(s, AtLeast) && c in s
    ensures
      var r := Top(s, n);
      && Sorted(r, AtLeast) && |r| <= n && (forall x :: x in r ==> x in s)
      && (c in r || (|r| == n && forall x :: x in r ==> x.similarity >= c.similarity))
  {
    var i :| 0 <= i < |s| && s[i] == c;
    var r := Top(s, n);
    if i < |r| {
      assert r[i] == c;
    }
  }

  /**
   * The result lists accepted pairs by falling similarity; an accepted pair is left out only
   * when the result is full of pairs at least as similar.
   */
  lemma BestIsTop(t: Test, names: seq<string>, n: nat, c: Candidate)
    requires InRows(t, names, c, |names|)
    ensures
      var r := Best(t, names, n);
      && Sorted(r, AtLeast) && |r| <= n
      && (forall x :: x in r ==> InRows(t, names, x, |names|))
      && (c in r || (|r| == n && forall x :: x in r ==> x.similarity >= c.similarity))
  {
    var all := Rows(t, names, |names|);
    SortSorted(all, AtLeast);
    RowsMembers(t, names, |names|, c);
    forall x
      ensures x in Sort(all, AtLeast) <==> InRows(t, names, x, |names|)
    {
      RowsMembers(t, names, |names|, x);
      SortMember(all, x);
    }
    TopOfFalling(Sort(all, AtLeast), n, c);
  }

  lemma SortMember(s: seq<Candidate>, c: Candidate)
    ensures c in Sort(s, AtLeast) <==> c in s
  {
    assert c in Sort(s, AtLeast) <==> c in multiset(Sort(s, AtLeast));
    assert c in s <==> c in multiset(s);
  }

  // With room for all accepted pairs every one of them is returned.
  lemma BestHasAll(t: Test, names: seq<string>, c: Candidate, i: nat, j: nat)
    requires PairOf(t, names, c, i, j)
    ensures c in Best(t, names, |Rows(t, names, |names|)|)
  {
    RowsHave(t, names, |names|, c, i, j);
    SortMember(Rows(t, names, |names|), c);
  }

  // What is returned is an accepted pair.
  lemma BestFrom(t: Test, names: seq<string>, n: nat, c: Candidate) returns (p: nat, q: nat)
    requires c in Best(t, names, n)
    ensures PairOf(t, names, c, p, q)
  {
    var all := Rows(t, names, |names|);
    assert c in Sort(all, AtLeast);
    SortMember(all, c);
    p, q := RowsFrom(t, names, |names|, c);
  }
}
