/** Levenshtein distance (src/core/aliases.ts): the two-row table, and what the number it returns means. */
module EditDistance {
  import opened Sequences

  function Cost(a: string, b: string, i: nat, j: nat): nat
    requires 0 < i <= |a| && 0 < j <= |b|
  {
    if a[i - 1] == b[j - 1] then 0 else 1
  }

  /** The distance between the first i characters of a and the first j characters of b. */
  function Lev(a: string, b: string, i: nat, j: nat): (d: nat)
    requires i <= |a| && j <= |b|
    decreases i + j
  {
    if i == 0 then j
    else if j == 0 then i
    else Min(Min(Lev(a, b, i - 1, j) + 1, Lev(a, b, i, j - 1) + 1), Lev(a, b, i - 1, j - 1) + Cost(a, b, i, j))
  }

  function Distance(a: string, b: string): nat {
    Lev(a, b, |a|, |b|)
  }

  // ---- the two-row table

  ghost predicate RowOf(a: string, b: string, i: nat, row: array<int>, n: nat)
    requires i <= |a| && n <= |b| + 1 && n <= row.Length
    reads row
  {
    forall j :: 0 <= j < n ==> row[j] == Lev(a, b, i, j)
  }

  method FillRow(a: string, b: string, i: nat, prev: array<int>, curr: array<int>)
    requires 0 < i <= |a| && prev != curr && prev.Length == curr.Length == |b| + 1
    requires RowOf(a, b, i - 1, prev, |b| + 1)
    modifies curr
    ensures RowOf(a, b, i, curr, |b| + 1)
  {
    curr[0] := i;
    for j := 1 to |b| + 1
      invariant RowOf(a, b, i, curr, j)
      invariant RowOf(a, b, i - 1, prev, |b| + 1)
    {
      var cost := if a[i - 1] == b[j - 1] then 0 else 1;
      curr[j] := Min(Min(prev[j] + 1, curr[j - 1] + 1), prev[j - 1] + cost);
    }
  }

  method LevenshteinDistance(a: string, b: string) returns (d: nat)
    ensures d == Distance(a, b)
  {
    var m, n := |a|, |b|;
    var prev := new int[n + 1];
    var curr := new int[n + 1];
    for j := 0 to n + 1
      invariant RowOf(a, b, 0, prev, j)
    {
      prev[j] := j;
    }
    for i := 1 to m + 1
      invariant prev != curr && prev.Length == curr.Length == n + 1
      invariant fresh(prev) && fresh(curr)
      invariant RowOf(a, b, i - 1, prev, n + 1)
    {
      FillRow(a, b, i, prev, curr);
      prev, curr := curr, prev;
    }
    d := prev[n];
  }

  // ---- the distance is a metric

  // ---- tables as functions, known only by what each cell says

  type Grid = (int, int) -> int

  /** What one table cell says about its three neighbours. */
  lemma LevCases(a: string, b: string, i: nat, j: nat)
    requires 0 < i <= |a| && 0 < j <= |b|
    ensures Lev(a, b, i, j) <= Lev(a, b, i - 1, j) + 1
    ensures Lev(a, b, i, j) <= Lev(a, b, i, j - 1) + 1
    ensures Lev(a, b, i, j) <= Lev(a, b, i - 1, j - 1) + Cost(a, b, i, j)
    ensures Lev(a, b, i, j) == Lev(a, b, i - 1, j) + 1 || Lev(a, b, i, j) == Lev(a, b, i, j - 1) + 1
      || Lev(a, b, i, j) == Lev(a, b, i - 1, j - 1) + Cost(a, b, i, j)
  {
  }

  ghost predicate Cell(l: Grid, x: string, y: string, i: int, j: int)
    requires 0 < i <= |x| && 0 < j <= |y|
  {
    && l(i, j) <= l(i - 1, j) + 1 && l(i, j) <= l(i, j - 1) + 1 && l(i, j) <= l(i - 1, j - 1) + Cost(x, y, i, j)
    && (l(i, j) == l(i - 1, j) + 1 || l(i, j) == l(i, j - 1) + 1 || l(i, j) == l(i - 1, j - 1) + Cost(x, y, i, j))
  }

  ghost predicate Border(l: Grid, i: int, j: int) {
    l(i, j) == Max(i, j)
  }

  ghost predicate IsTable(l: Grid, x: string, y: string) {
    && (forall i, j {:trigger Cell(l, x, y, i, j)} :: 0 < i <= |x| && 0 < j <= |y| ==> Cell(l, x, y, i, j))
    && (forall i, j {:trigger Border(l, i, j)} ::
          0 <= i <= |x| && 0 <= j <= |y| && (i == 0 || j == 0) ==> Border(l, i, j))
  }

  ghost function TableOf(x: string, y: string): Grid {
    (i: int, j: int) => if 0 <= i <= |x| && 0 <= j <= |y| then Lev(x, y, i, j) else 0
  }

  lemma TableOfIsTable(x: string, y: string)
    ensures IsTable(TableOf(x, y), x, y)
  {
    var l := TableOf(x, y);
    forall i, j | 0 < i <= |x| && 0 < j <= |y|
      ensures Cell(l, x, y, i, j)
    {
      LevCases(x, y, i, j);
    }
  }

  /** | i - j | <= distance <= max(i, j). */
  lemma {:induction false} Bounds(l: Grid, x: string, y: string, i: nat, j: nat)
    requires IsTable(l, x, y) && i <= |x| && j <= |y|
    ensures i - j <= l(i, j) && j - i <= l(i, j) && l(i, j) <= Max(i, j)
    decreases i + j
  {
    if i == 0 || j == 0 {
      assert Border(l, i, j);
    } else {
      assert Cell(l, x, y, i, j);
      Bounds(l, x, y, i - 1, j);
      Bounds(l, x, y, i, j - 1);
      Bounds(l, x, y, i - 1, j - 1);
    }
  }

  /** | |a| - |b| | <= distance <= max(|a|, |b|). */
  lemma DistanceBounds(a: string, b: string)
    ensures Max(|a|, |b|) - Min(|a|, |b|) <= Distance(a, b) <= Max(|a|, |b|)
  {
    TableOfIsTable(a, b);
    Bounds(TableOf(a, b), a, b, |a|, |b|);
  }

  // Every way to reach a cell is mirrored.
  lemma {:induction false} MirrorAtMost(a: string, b: string, ab: Grid, ba: Grid, i: nat, j: nat)
    requires IsTable(ab, a, b) && IsTable(ba, b, a) && i <= |a| && j <= |b|
    ensures ba(j, i) <= ab(i, j)
    decreases i + j
  {
    if i == 0 || j == 0 {
      assert Border(ab, i, j) && Border(ba, j, i);
    } else {
      assert Cell(ab, a, b, i, j) && Cell(ba, b, a, j, i);
      if ab(i, j) == ab(i - 1, j) + 1 {
        MirrorAtMost(a, b, ab, ba, i - 1, j);
      } else if ab(i, j) == ab(i, j - 1) + 1 {
        MirrorAtMost(a, b, ab, ba, i, j - 1);
      } else {
        MirrorAtMost(a, b, ab, ba, i - 1, j - 1);
      }
    }
  }

  lemma {:induction false} ZeroMeansEqual(a: string, b: string, l: Grid, i: nat, j: nat)
    requires IsTable(l, a, b) && i <= |a| && j <= |b|
    ensures l(i, j) == 0 <==> a[..i] == b[..j]
    decreases i + j
  {
    Bounds(l, a, b, i, j);
    if i == 0 || j == 0 {
      assert |a[..i]| == i && |b[..j]| == j;
      assert i == j ==> a[..i] == [] == b[..j];
    } else {
      assert Cell(l, a, b, i, j);
      Bounds(l, a, b, i - 1, j);
      Bounds(l, a, b, i, j - 1);
      Bounds(l, a, b, i - 1, j - 1);
      ZeroMeansEqual(a, b, l, i - 1, j - 1);
      assert a[..i] == a[..i - 1] + [a[i - 1]];
      assert b[..j] == b[..j - 1] + [b[j - 1]];
      AppendEqual(a[..i - 1], a[i - 1], b[..j - 1], b[j - 1]);
    }
  }

  lemma AppendEqual(x: string, c: char, y: string, d: char)
    ensures x + [c] == y + [d] <==> x == y && c == d
  {
    if x + [c] == y + [d] {
      assert |x| == |y| && (x + [c])[|x|] == c && (y + [d])[|y|] == d;
      assert x == (x + [c])[..|x|] == (y + [d])[..|y|] == y;
    }
  }

  lemma {:induction false} Triangle(
    a: string, b: string, c: string, ab: Grid, bc: Grid, ac: Grid, i: nat, j: nat, k: nat
  )
    requires IsTable(ab, a, b) && IsTable(bc, b, c) && IsTable(ac, a, c)
    requires i <= |a| && j <= |b| && k <= |c|
    ensures ac(i, k) <= ab(i, j) + bc(j, k)
    decreases i + j + k
  {
    if i == 0 || j == 0 || k == 0 {
      Bounds(ab, a, b, i, j);
      Bounds(bc, b, c, j, k);
      Bounds(ac, a, c, i, k);
    } else {
      assert Cell(ab, a, b, i, j) && Cell(bc, b, c, j, k) && Cell(ac, a, c, i, k);
      if ab(i, j) == ab(i - 1, j) + 1 {
        Triangle(a, b, c, ab, bc, ac, i - 1, j, k);
      } else if bc(j, k) == bc(j, k - 1) + 1 {
        Triangle(a, b, c, ab, bc, ac, i, j, k - 1);
      } else if ab(i, j) == ab(i, j - 1) + 1 {
        Triangle(a, b, c, ab, bc, ac, i, j - 1, if bc(j, k) == bc(j - 1, k) + 1 then k else k - 1);
      } else {
        Triangle(a, b, c, ab, bc, ac, i - 1, j - 1, if bc(j, k) == bc(j - 1, k) + 1 then k else k - 1);
      }
    }
  }

  /** The distance is a metric on strings. */
  lemma DistanceIsMetric(a: string, b: string, c: string)
    ensures Distance(a, b) == 0 <==> a == b
    ensures Distance(a, b) == Distance(b, a)
    ensures Distance(a, c) <= Distance(a, b) + Distance(b, c)
  {
    TableOfIsTable(a, b);
    ZeroMeansEqual(a, b, TableOf(a, b), |a|, |b|);
    assert a[..|a|] == a && b[..|b|] == b;
    TableOfIsTable(b, a);
    MirrorAtMost(a, b, TableOf(a, b), TableOf(b, a), |a|, |b|);
    MirrorAtMost(b, a, TableOf(b, a), TableOf(a, b), |b|, |a|);
    TableOfIsTable(b, c);
    TableOfIsTable(a, c);
    Triangle(a, b, c, TableOf(a, b), TableOf(b, c), TableOf(a, c), |a|, |b|, |c|);
  }

  // ---- the distance is the least number of single-character edits

  ghost predicate InsertedAt(x: string, y: string, p: nat) {
    p <= |x| && |y| == |x| + 1 && y[..p] == x[..p] && y[p + 1..] == x[p..]
  }

  ghost predicate Inserted(x: string, y: string) {
    exists p: nat :: InsertedAt(x, y, p)
  }

  ghost predicate SubstitutedAt(x: string, y: string, p: nat) {
    p < |x| && |y| == |x| && y[..p] == x[..p] && y[p + 1..] == x[p + 1..]
  }

  ghost predicate Substituted(x: string, y: string) {
    exists p: nat :: SubstitutedAt(x, y, p)
  }

  /** y is x with one character inserted, deleted or replaced, anywhere. */
  ghost predicate OneEdit(x: string, y: string) {
    Inserted(x, y) || Inserted(y, x) || Substituted(x, y)
  }

  /** n single-character edits lead from x to y. */
  ghost predicate EditsTo(x: string, y: string, n: nat)
    decreases n
  {
    if n == 0 then x == y
    else exists z :: OneEdit(x, z) && EditsTo(z, y, n - 1)
  }

  lemma CommonPrefix(x: string, y: string, p: nat)
    requires p <= |x| && p <= |y| && x[..p] == y[..p]
    ensures Lev(x, y, p, p) == 0
  {
    TableOfIsTable(x, y);
    ZeroMeansEqual(x, y, TableOf(x, y), p, p);
  }

  lemma {:induction false} AfterInsert(x: string, y: string, p: nat, r: nat)
    requires InsertedAt(x, y, p) && p + r <= |x|
    ensures Lev(x, y, p + r, p + r + 1) <= 1
    decreases r
  {
    if r == 0 {
      CommonPrefix(x, y, p);
    } else {
      AfterInsert(x, y, p, r - 1);
      assert y[p + r] == y[p + 1..][r - 1] == x[p..][r - 1] == x[p + r - 1];
    }
  }

  lemma {:induction false} AfterSubstitute(x: string, y: string, p: nat, r: nat)
    requires SubstitutedAt(x, y, p) && p + 1 + r <= |x|
    ensures Lev(x, y, p + 1 + r, p + 1 + r) <= 1
    decreases r
  {
    if r == 0 {
      CommonPrefix(x, y, p);
    } else {
      AfterSubstitute(x, y, p, r - 1);
      assert y[p + r] == y[p + 1..][r - 1] == x[p + 1..][r - 1] == x[p + r];
    }
  }

  lemma OneEditDistance(x: string, y: string)
    requires OneEdit(x, y)
    ensures Distance(x, y) <= 1
  {
    if Inserted(x, y) {
      var p: nat :| InsertedAt(x, y, p);
      AfterInsert(x, y, p, |x| - p);
    } else if Inserted(y, x) {
      var p: nat :| InsertedAt(y, x, p);
      AfterInsert(y, x, p, |y| - p);
      DistanceIsMetric(x, y, y);
    } else {
      var p: nat :| SubstitutedAt(x, y, p);
      AfterSubstitute(x, y, p, |x| - p - 1);
    }
  }

  /** No sequence of edits is shorter than the distance. */
  lemma {:induction false} EditsAtLeastDistance(x: string, y: string, n: nat)
    requires EditsTo(x, y, n)
    ensures Distance(x, y) <= n
    decreases n
  {
    if n == 0 {
      DistanceIsMetric(x, y, y);
    } else {
      var z :| OneEdit(x, z) && EditsTo(z, y, n - 1);
      OneEditDistance(x, z);
      EditsAtLeastDistance(z, y, n - 1);
      DistanceIsMetric(x, z, y);
    }
  }

  lemma OneEditExtends(x: string, y: string, c: char)
    requires OneEdit(x, y)
    ensures OneEdit(x + [c], y + [c])
  {
    if Inserted(x, y) {
      var p: nat :| InsertedAt(x, y, p);
      InsertExtends(x, y, p, c);
    } else if Inserted(y, x) {
      var p: nat :| InsertedAt(y, x, p);
      InsertExtends(y, x, p, c);
    } else {
      var p: nat :| SubstitutedAt(x, y, p);
      assert (y + [c])[p + 1..] == y[p + 1..] + [c] == (x + [c])[p + 1..];
      assert (y + [c])[..p] == y[..p] && (x + [c])[..p] == x[..p];
      assert SubstitutedAt(x + [c], y + [c], p);
    }
  }

  lemma InsertExtends(x: string, y: string, p: nat, c: char)
    requires InsertedAt(x, y, p)
    ensures InsertedAt(x + [c], y + [c], p)
  {
    assert (y + [c])[p + 1..] == y[p + 1..] + [c] == (x + [c])[p..];
    assert (y + [c])[..p] == y[..p] && (x + [c])[..p] == x[..p];
  }

  lemma {:induction false} EditsExtend(x: string, y: string, n: nat, c: char)
    requires EditsTo(x, y, n)
    ensures EditsTo(x + [c], y + [c], n)
    decreases n
  {
    if n > 0 {
      var z :| OneEdit(x, z) && EditsTo(z, y, n - 1);
      OneEditExtends(x, z, c);
      EditsExtend(z, y, n - 1, c);
    }
  }

  lemma {:induction false} EditsThenEdit(x: string, y: string, z: string, n: nat)
    requires EditsTo(x, y, n) && OneEdit(y, z)
    ensures EditsTo(x, z, n + 1)
    decreases n
  {
    if n == 0 {
      assert EditsTo(z, z, 0);
    } else {
      var w :| OneEdit(x, w) && EditsTo(w, y, n - 1);
      EditsThenEdit(w, y, z, n - 1);
    }
  }

  lemma DropLast(x: string)
    requires |x| > 0
    ensures OneEdit(x, x[..|x| - 1]) && OneEdit(x[..|x| - 1], x)
  {
    assert InsertedAt(x[..|x| - 1], x, |x| - 1);
  }

  lemma ReplaceLast(x: string, c: char)
    requires |x| > 0
    ensures OneEdit(x, x[..|x| - 1] + [c])
  {
    assert SubstitutedAt(x, x[..|x| - 1] + [c], |x| - 1);
  }

  /** A sequence of edits as short as the distance exists. */
  lemma {:induction false} EditsWithin(a: string, b: string, l: Grid, i: nat, j: nat)
    requires IsTable(l, a, b) && i <= |a| && j <= |b|
    ensures l(i, j) >= 0 && EditsTo(a[..i], b[..j], l(i, j))
    decreases i + j, 1
  {
    Bounds(l, a, b, i, j);
    if i == 0 && j == 0 {
      assert a[..i] == b[..j];
    } else if j == 0 {
      assert Border(l, i, j) && Border(l, i - 1, j);
      EditsWithin(a, b, l, i - 1, j);
      DeleteFirst(a, b, i, j, l(i - 1, j));
    } else if i == 0 {
      assert Border(l, i, j) && Border(l, i, j - 1);
      EditsWithin(a, b, l, i, j - 1);
      InsertAtEnd(a, b, i, j, l(i, j - 1));
    } else {
      EditsInside(a, b, l, i, j);
    }
  }

  lemma {:induction false} EditsInside(a: string, b: string, l: Grid, i: nat, j: nat)
    requires IsTable(l, a, b) && 0 < i <= |a| && 0 < j <= |b|
    ensures l(i, j) >= 0 && EditsTo(a[..i], b[..j], l(i, j))
    decreases i + j, 0
  {
    assert Cell(l, a, b, i, j);
    Bounds(l, a, b, i, j);
    if l(i, j) == l(i - 1, j) + 1 {
      EditsWithin(a, b, l, i - 1, j);
      DeleteFirst(a, b, i, j, l(i - 1, j));
    } else if l(i, j) == l(i, j - 1) + 1 {
      EditsWithin(a, b, l, i, j - 1);
      InsertAtEnd(a, b, i, j, l(i, j - 1));
    } else {
      EditsWithin(a, b, l, i - 1, j - 1);
      DiagonalEdit(a, b, i, j, l(i - 1, j - 1));
    }
  }

  lemma DeleteFirst(a: string, b: string, i: nat, j: nat, n: nat)
    requires 0 < i <= |a| && j <= |b| && EditsTo(a[..i - 1], b[..j], n)
    ensures EditsTo(a[..i], b[..j], n + 1)
  {
    DropLast(a[..i]);
    assert a[..i][..i - 1] == a[..i - 1];
  }

  lemma InsertAtEnd(a: string, b: string, i: nat, j: nat, n: nat)
    requires i <= |a| && 0 < j <= |b| && EditsTo(a[..i], b[..j - 1], n)
    ensures EditsTo(a[..i], b[..j], n + 1)
  {
    DropLast(b[..j]);
    assert b[..j][..j - 1] == b[..j - 1];
    EditsThenEdit(a[..i], b[..j - 1], b[..j], n);
  }

  lemma DiagonalEdit(a: string, b: string, i: nat, j: nat, n: nat)
    requires 0 < i <= |a| && 0 < j <= |b| && EditsTo(a[..i - 1], b[..j - 1], n)
    ensures EditsTo(a[..i], b[..j], n + Cost(a, b, i, j))
  {
    var c := b[j - 1];
    EditsExtend(a[..i - 1], b[..j - 1], n, c);
    assert b[..j] == b[..j - 1] + [c];
    if Cost(a, b, i, j) == 0 {
      assert a[..i] == a[..i - 1] + [c];
    } else {
      ReplaceLast(a[..i], c);
      assert a[..i][..i - 1] == a[..i - 1];
    }
  }

  /** The distance is the least number of single-character edits from a to b. */
  lemma DistanceIsLeast(a: string, b: string)
    ensures EditsTo(a, b, Distance(a, b))
    ensures forall n: nat :: EditsTo(a, b, n) ==> Distance(a, b) <= n
  {
    TableOfIsTable(a, b);
    EditsWithin(a, b, TableOf(a, b), |a|, |b|);
    assert a[..|a|] == a && b[..|b|] == b;
    forall n: nat | EditsTo(a, b, n)
      ensures Distance(a, b) <= n
    {
      EditsAtLeastDistance(a, b, n);
    }
  }
}
