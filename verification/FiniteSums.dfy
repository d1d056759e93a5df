/** Sums of real-valued functions over finite sets, and the laws the graph proofs use. */
module FiniteSums {

  ghost function Sum<T(!new)>(f: T -> real, s: set<T>): real {
    if s == {} then 0.0 else
      var x :| x in s;
      f(x) + Sum(f, s - {x})
  }

  /** The sum does not depend on the order in which elements are picked. */
  lemma {:induction false} SumRemove<T(!new)>(f: T -> real, s: set<T>, y: T)
    requires y in s
    ensures Sum(f, s) == f(y) + Sum(f, s - {y})
    decreases s
  {
    var x :| x in s && Sum(f, s) == f(x) + Sum(f, s - {x});
    if x != y {
      SumRemove(f, s - {x}, y);
      SumRemove(f, s - {y}, x);
      assert s - {x} - {y} == s - {y} - {x};
    }
  }

  lemma SumInsert<T(!new)>(f: T -> real, s: set<T>, y: T)
    requires y !in s
    ensures Sum(f, s + {y}) == f(y) + Sum(f, s)
  {
    SumRemove(f, s + {y}, y);
    assert s + {y} - {y} == s;
  }

  lemma {:induction false} SumCongruent<T(!new)>(f: T -> real, h: T -> real, s: set<T>)
    requires forall x :: x in s ==> f(x) == h(x)
    ensures Sum(f, s) == Sum(h, s)
    decreases s
  {
    if s != {} {
      var x :| x in s;
      SumRemove(f, s, x);
      SumRemove(h, s, x);
      SumCongruent(f, h, s - {x});
    }
  }

  lemma {:induction false} SumZero<T(!new)>(f: T -> real, s: set<T>)
    requires forall x :: x in s ==> f(x) == 0.0
    ensures Sum(f, s) == 0.0
    decreases s
  {
    if s != {} {
      var x :| x in s;
      SumRemove(f, s, x);
      SumZero(f, s - {x});
    }
  }

  /** Elements on which the function vanishes may be dropped. */
  lemma {:induction false} SumSupport<T(!new)>(f: T -> real, s: set<T>, t: set<T>)
    requires s <= t
    requires forall x :: x in t - s ==> f(x) == 0.0
    ensures Sum(f, t) == Sum(f, s)
    decreases t
  {
    if t <= s {
      assert t == s;
    } else {
      var x :| x in t && x !in s;
      SumRemove(f, t, x);
      SumSupport(f, s, t - {x});
    }
  }

  ghost predicate IsScaled(c: real, a: real, b: real) {
    b == c * a
  }

  lemma {:induction false} SumScale<T(!new)>(f: T -> real, h: T -> real, c: real, s: set<T>)
    requires forall x :: x in s ==> IsScaled(c, f(x), h(x))
    ensures IsScaled(c, Sum(f, s), Sum(h, s))
    decreases s
  {
    if s != {} {
      var x :| x in s;
      SumRemove(f, s, x);
      SumRemove(h, s, x);
      SumScale(f, h, c, s - {x});
      ScaledAdd(c, f(x), h(x), Sum(f, s - {x}), Sum(h, s - {x}));
    }
  }

  lemma ScaledAdd(c: real, a: real, b: real, x: real, y: real)
    requires IsScaled(c, a, b) && IsScaled(c, x, y)
    ensures IsScaled(c, a + x, b + y)
  {
    Distribute(c, a, x);
  }

  lemma Distribute(c: real, a: real, b: real)
    ensures c * (a + b) == c * a + c * b
  {
  }

  lemma {:induction false} SumAdd<T(!new)>(f: T -> real, g: T -> real, h: T -> real, s: set<T>)
    requires forall x :: x in s ==> h(x) == f(x) + g(x)
    ensures Sum(h, s) == Sum(f, s) + Sum(g, s)
    decreases s
  {
    if s != {} {
      var x :| x in s;
      SumRemove(f, s, x);
      SumRemove(g, s, x);
      SumRemove(h, s, x);
      SumAdd(f, g, h, s - {x});
    }
  }

  lemma {:induction false} SumMonotone<T(!new)>(f: T -> real, h: T -> real, s: set<T>)
    requires forall x :: x in s ==> f(x) <= h(x)
    ensures Sum(f, s) <= Sum(h, s)
    decreases s
  {
    if s != {} {
      var x :| x in s;
      SumRemove(f, s, x);
      SumRemove(h, s, x);
      SumMonotone(f, h, s - {x});
    }
  }

  lemma {:induction false} SumNonNegative<T(!new)>(f: T -> real, s: set<T>)
    requires forall x :: x in s ==> 0.0 <= f(x)
    ensures 0.0 <= Sum(f, s)
    decreases s
  {
    if s != {} {
      var x :| x in s;
      SumRemove(f, s, x);
      SumNonNegative(f, s - {x});
    }
  }

  lemma {:induction false} SumAtMost<T(!new)>(f: T -> real, s: set<T>, hi: real)
    requires forall x :: x in s ==> f(x) <= hi
    ensures Sum(f, s) <= hi * (|s| as real)
    decreases s
  {
    if s != {} {
      var x :| x in s;
      SumRemove(f, s, x);
      SumAtMost(f, s - {x}, hi);
      OneMore(hi, |s - {x}|);
    }
  }

  /** Of two functions, one below the other, the sums agree exactly when the functions do. */
  lemma {:induction false} SumAgrees<T(!new)>(f: T -> real, h: T -> real, s: set<T>)
    requires forall x :: x in s ==> f(x) <= h(x)
    ensures Sum(f, s) == Sum(h, s) <==> forall x :: x in s ==> f(x) == h(x)
    decreases s
  {
    if s != {} {
      var x :| x in s;
      SumRemove(f, s, x);
      SumRemove(h, s, x);
      SumMonotone(f, h, s - {x});
      SumAgrees(f, h, s - {x});
    }
  }

  lemma {:induction false} SumConstant<T(!new)>(f: T -> real, s: set<T>, c: real)
    requires forall x :: x in s ==> f(x) == c
    ensures Sum(f, s) == c * (|s| as real)
    decreases s
  {
    if s != {} {
      var x :| x in s;
      SumRemove(f, s, x);
      SumConstant(f, s - {x}, c);
      OneMore(c, |s - {x}|);
    }
  }

  ghost function Constant<T(!new)>(c: real): T -> real {
    x => c
  }

  lemma OneMore(c: real, n: nat)
    ensures c * ((n + 1) as real) == c + c * (n as real)
  {
    Distribute(c, 1.0, n as real);
    assert (n + 1) as real == 1.0 + n as real;
  }

  // The row sum of a two-argument function, as a function of the row.
  ghost function Rows<A(!new), B(!new)>(f: (A, B) -> real, bs: set<B>): A -> real {
    a => Sum(Row(f, a), bs)
  }

  ghost function Row<A(!new), B(!new)>(f: (A, B) -> real, a: A): B -> real {
    b => f(a, b)
  }

  ghost function Flip<A(!new), B(!new)>(f: (A, B) -> real): (B, A) -> real {
    (b, a) => f(a, b)
  }

  /** Double sums may be exchanged. */
  lemma {:induction false} SumSwap<A(!new), B(!new)>(f: (A, B) -> real, s: set<A>, bs: set<B>)
    ensures Sum(Rows(f, bs), s) == Sum(Rows(Flip(f), s), bs)
    decreases s
  {
    if s == {} {
      SumZero(Rows(Flip(f), s), bs);
    } else {
      var a :| a in s;
      var s' := s - {a};
      SumRemove(Rows(f, bs), s, a);
      SumSwap(f, s', bs);
      forall b | b in bs
        ensures Rows(Flip(f), s)(b) == Row(f, a)(b) + Rows(Flip(f), s')(b)
      {
        SumRemove(Row(Flip(f), b), s, a);
      }
      SumAdd(Row(f, a), Rows(Flip(f), s'), Rows(Flip(f), s), bs);
    }
  }

  // ---- weighted matrices: a weight per row

  ghost function Weighted<A(!new), B(!new)>(weight: A -> real, f: (A, B) -> real): (A, B) -> real {
    (a, b) => weight(a) * f(a, b)
  }

  ghost function Column<A(!new), B(!new)>(f: (A, B) -> real, s: set<A>): B -> real {
    Rows(Flip(f), s)
  }

  lemma WeightedRow<A(!new), B(!new)>(weight: A -> real, f: (A, B) -> real, a: A, bs: set<B>)
    ensures Rows(Weighted(weight, f), bs)(a) == weight(a) * Rows(f, bs)(a)
  {
    forall b | b in bs
      ensures IsScaled(weight(a), Row(f, a)(b), Row(Weighted(weight, f), a)(b))
    {
    }
    SumScale(Row(f, a), Row(Weighted(weight, f), a), weight(a), bs);
  }

  /** If column t is the sum of the columns us in every row, so it is after weighting and summing. */
  lemma WeightedColumnSum<A(!new), B(!new)>(weight: A -> real, f: (A, B) -> real, s: set<A>, us: set<B>, t: B)
    requires forall a :: a in s ==> f(a, t) == Rows(f, us)(a)
    ensures Column(Weighted(weight, f), s)(t) == Sum(Column(Weighted(weight, f), s), us)
  {
    var h := Weighted(weight, f);
    SumSwap(h, s, us);
    forall a | a in s
      ensures Rows(h, us)(a) == Row(Flip(h), t)(a)
    {
      WeightedRow(weight, f, a, us);
    }
    SumCongruent(Rows(h, us), Row(Flip(h), t), s);
  }

  /** Scaling a column scales its weighted sum. */
  lemma WeightedColumnScale<A(!new), B(!new)>(
    weight: A -> real, f: (A, B) -> real, h: (A, B) -> real, s: set<A>, t: B, c: real
  )
    requires forall a :: a in s ==> h(a, t) == c * f(a, t)
    ensures Column(Weighted(weight, h), s)(t) == c * Column(Weighted(weight, f), s)(t)
  {
    var x, y := Row(Flip(Weighted(weight, f)), t), Row(Flip(Weighted(weight, h)), t);
    forall a | a in s
      ensures IsScaled(c, x(a), y(a))
    {
      Commute(weight(a), c, f(a, t));
    }
    SumScale(x, y, c, s);
  }

  lemma Commute(a: real, b: real, c: real)
    ensures a * (b * c) == b * (a * c)
  {
  }

  ghost function Shares<A(!new)>(weight: A -> real, below: A -> real): A -> real {
    a => weight(a) * (1.0 + below(a))
  }

  /** Summing weighted columns is weighting the row sums. */
  lemma WeightedTotal<A(!new), B(!new)>(
    weight: A -> real, f: (A, B) -> real, s: set<A>, ts: set<B>, below: A -> real
  )
    requires forall a :: a in s ==> Rows(f, ts)(a) == 1.0 + below(a)
    ensures Sum(Column(Weighted(weight, f), s), ts) == Sum(Shares(weight, below), s)
  {
    var h := Weighted(weight, f);
    SumSwap(h, s, ts);
    forall a | a in s
      ensures Rows(h, ts)(a) == Shares(weight, below)(a)
    {
      WeightedRow(weight, f, a, ts);
    }
    SumCongruent(Rows(h, ts), Shares(weight, below), s);
  }

  ghost predicate ProportionalAt<A(!new), B(!new)>(f: (A, B) -> real, h: (A, B) -> real, t: B, c: real) {
    forall x :: h(x, t) == c * f(x, t)
  }

  /** A recurrence along a column survives scaling that column. */
  lemma ScaledRecurrence<A(!new), B(!new)>(
    weight: A -> real, f: (A, B) -> real, h: (A, B) -> real, s: set<A>, a: A, t: B, c: real
  )
    requires ProportionalAt(f, h, t, c)
    requires f(a, t) == Column(Weighted(weight, f), s)(t)
    ensures h(a, t) == Column(Weighted(weight, h), s)(t)
  {
    WeightedColumnScale(weight, f, h, s, t, c);
  }

  lemma SumSingle<T(!new)>(f: T -> real, s: set<T>, x: T)
    requires x in s && forall y :: y in s && y != x ==> f(y) == 0.0
    ensures Sum(f, s) == f(x)
  {
    SumRemove(f, s, x);
    SumZero(f, s - {x});
  }

  // ---- sizes and quotients

  lemma {:induction false} SubsetSize<T>(a: set<T>, b: set<T>)
    requires a <= b
    ensures |a| <= |b|
    decreases b
  {
    if a != {} {
      var x :| x in a;
      SubsetSize(a - {x}, b - {x});
    }
  }

  lemma QuotientBounds(a: real, b: real)
    requires 0.0 <= a <= b && b > 0.0
    ensures 0.0 <= a / b <= 1.0
  {
    assert a / b * b == a;
  }
}
