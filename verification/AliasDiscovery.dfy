/**
 * Alias discovery (src/core/aliases.ts): pairwise similarity of entity names behind a cheap
 * length-ratio filter. The filter compares raw lengths, the similarity compares normalised text.
 */
module AliasDiscovery {
  import opened Sequences
  import opened EditDistance
  import opened Sorting
  import opened PairSearch

  /** Case folding and white space, one code unit at a time. */
  datatype Folding = Folding(lower: char -> char, isSpace: char -> bool)

  /** Folding keeps white space white and is settled after one application. */
  ghost predicate Sensible(f: Folding) {
    && (forall c :: f.isSpace(f.lower(c)) <==> f.isSpace(c))
    && (forall c :: f.lower(f.lower(c)) == f.lower(c))
  }

  function Lower(f: Folding, s: string): (r: string)
    ensures |r| == |s| && forall i :: 0 <= i < |s| ==> r[i] == f.lower(s[i])
  {
    seq(|s|, i requires 0 <= i < |s| => f.lower(s[i]))
  }

  function TrimStart(f: Folding, s: string): (r: string)
    ensures |r| <= |s| && (r != [] ==> !f.isSpace(r[0]))
  {
    if s != [] && f.isSpace(s[0]) then TrimStart(f, s[1..]) else s
  }

  function TrimEnd(f: Folding, s: string): (r: string)
    ensures |r| <= |s| && (r != [] ==> !f.isSpace(r[|r| - 1]))
  {
    if s != [] && f.isSpace(s[|s| - 1]) then TrimEnd(f, s[..|s| - 1]) else s
  }

  function Trim(f: Folding, s: string): string {
    TrimEnd(f, TrimStart(f, s))
  }

  function Normalised(f: Folding, s: string): string {
    Trim(f, Lower(f, s))
  }

  // ---- similarity

  function Ratio(x: nat, y: nat): real
    requires Max(x, y) > 0
  {
    Min(x, y) as real / Max(x, y) as real
  }

  /** Similarity of two normalised texts. */
  function TextSimilarity(a: string, b: string): real {
    if a == b then 1.0
    else if a == [] || b == [] then 0.0
    else 1.0 - Distance(a, b) as real / Max(|a|, |b|) as real
  }

  function Similarity(f: Folding, a: string, b: string): real {
    TextSimilarity(Normalised(f, a), Normalised(f, b))
  }

  method NormalizedStringSimilarity(f: Folding, a: string, b: string) returns (r: real)
    ensures r == Similarity(f, a, b)
  {
    var na, nb := Normalised(f, a), Normalised(f, b);
    if na == nb {
      return 1.0;
    }
    if |na| == 0 || |nb| == 0 {
      return 0.0;
    }
    var maxLen := Max(|na|, |nb|);
    var dist := LevenshteinDistance(na, nb);
    return 1.0 - dist as real / maxLen as real;
  }

  lemma Divided(x: real, y: real, b: real)
    requires b > 0.0
    ensures x <= y <==> x / b <= y / b
    ensures (x + y) / b == x / b + y / b
    ensures b / b == 1.0
  {
    assert x / b * b == x && y / b * b == y;
  }

  /** Similarity lies in [0, 1], is symmetric, and is 1 exactly for equal texts. */
  lemma SimilarityRange(a: string, b: string)
    ensures 0.0 <= TextSimilarity(a, b) <= 1.0
    ensures TextSimilarity(a, b) == TextSimilarity(b, a)
    ensures TextSimilarity(a, b) == 1.0 <==> a == b
  {
    DistanceBounds(a, b);
    DistanceIsMetric(a, b, b);
    if a != b && a != [] && b != [] {
      var d, m := Distance(a, b) as real, Max(|a|, |b|) as real;
      Divided(0.0, d, m);
      Divided(d, m, m);
      Divided(d, 0.0, m);
    }
  }

  /** The similarity of two texts never exceeds the ratio of their lengths. */
  lemma SimilarityAtMostRatio(a: string, b: string)
    requires Max(|a|, |b|) > 0
    ensures TextSimilarity(a, b) <= Ratio(|a|, |b|)
  {
    DistanceBounds(a, b);
    var lo, hi := Min(|a|, |b|) as real, Max(|a|, |b|) as real;
    Divided(0.0, lo, hi);
    if a != b && a != [] && b != [] {
      var d := Distance(a, b) as real;
      Divided(lo, d, hi);
      Divided(hi, lo + d, hi);
    }
  }

  // ---- the filter

  /** The length-ratio test: true means the pair is skipped without computing its similarity. */
  predicate Filtered(a: string, b: string, threshold: real) {
    var maxLen := Max(|a|, |b|);
    maxLen > 0 && Min(|a|, |b|) as real / maxLen as real < threshold
  }

  predicate KeepsLength(f: Folding, s: string) {
    |Normalised(f, s)| == |s|
  }

  /** For names whose length survives normalisation, the filter only skips pairs below the threshold. */
  lemma FilterIsSafe(f: Folding, a: string, b: string, threshold: real)
    requires KeepsLength(f, a) && KeepsLength(f, b)
    requires Filtered(a, b, threshold)
    ensures Similarity(f, a, b) < threshold
  {
    SimilarityAtMostRatio(Normalised(f, a), Normalised(f, b));
  }

  // ---- exactly which names the filter may be trusted with

  predicate Trimmed(f: Folding, s: string) {
    s == [] || (!f.isSpace(s[0]) && !f.isSpace(s[|s| - 1]))
  }

  lemma TrimLength(f: Folding, s: string)
    ensures |Trim(f, s)| == |s| <==> Trimmed(f, s)
    ensures Trimmed(f, Trim(f, s))
  {
    var t := TrimStart(f, s);
    TrimEndIsPrefix(f, t);
    TrimStartShortens(f, s);
    TrimEndShortens(f, s);
  }

  lemma {:induction false} TrimEndIsPrefix(f: Folding, s: string)
    ensures TrimEnd(f, s) <= s
    decreases |s|
  {
    if s != [] && f.isSpace(s[|s| - 1]) {
      TrimEndIsPrefix(f, s[..|s| - 1]);
    }
  }

  lemma {:induction false} TrimStartMembers(f: Folding, s: string, c: char)
    ensures c in TrimStart(f, s) ==> c in s
    decreases |s|
  {
    if s != [] && f.isSpace(s[0]) {
      TrimStartMembers(f, s[1..], c);
    }
  }

  lemma TrimStartShortens(f: Folding, s: string)
    ensures if s != [] && f.isSpace(s[0]) then |TrimStart(f, s)| < |s| else TrimStart(f, s) == s
  {
  }

  lemma TrimEndShortens(f: Folding, s: string)
    ensures if s != [] && f.isSpace(s[|s| - 1]) then |TrimEnd(f, s)| < |s| else TrimEnd(f, s) == s
  {
  }

  lemma TrimmedKeepsLength(f: Folding, s: string)
    requires Sensible(f)
    ensures KeepsLength(f, s) <==> Trimmed(f, s)
    ensures Trimmed(f, Normalised(f, s))
  {
    var l := Lower(f, s);
    TrimLength(f, l);
    if l != [] {
      assert f.isSpace(l[0]) <==> f.isSpace(s[0]);
      assert f.isSpace(l[|l| - 1]) <==> f.isSpace(s[|s| - 1]);
    }
  }

  lemma NormalisedIsSettled(f: Folding, s: string)
    requires Sensible(f)
    ensures Normalised(f, Normalised(f, s)) == Normalised(f, s)
  {
    var r := Normalised(f, s);
    TrimmedKeepsLength(f, s);
    LowerIsSettled(f, s);
    TrimIsSettled(f, r);
  }

  lemma LowerIsSettled(f: Folding, s: string)
    requires Sensible(f)
    ensures Lower(f, Normalised(f, s)) == Normalised(f, s)
  {
    var l := Lower(f, s);
    var t := TrimStart(f, l);
    var r := TrimEnd(f, t);
    TrimEndIsPrefix(f, t);
    forall i | 0 <= i < |r|
      ensures f.lower(r[i]) == r[i]
    {
      var c := r[i];
      assert c == t[i] && c in t;
      TrimStartMembers(f, l, c);
      var k :| 0 <= k < |l| && l[k] == c;
      assert c == f.lower(s[k]);
    }
  }

  lemma TrimIsSettled(f: Folding, s: string)
    requires Trimmed(f, s)
    ensures Trim(f, s) == s
  {
  }

  /** The filter drops a pair although its similarity reaches the threshold. */
  predicate WronglyDropped(f: Folding, a: string, b: string, threshold: real) {
    && Lower(f, a) != Lower(f, b)
    && Filtered(a, b, threshold)
    && Similarity(f, a, b) >= threshold
  }

  predicate Blank(f: Folding, s: string) {
    Normalised(f, s) == ""
  }

  /** At no threshold does the filter drop a wanted pair of these two names. */
  ghost predicate PairTrusted(f: Folding, a: string, b: string) {
    forall threshold :: !WronglyDropped(f, a, b, threshold)
  }

  /** The filter never drops a wanted pair of this name and a non-empty, trimmed one. Names are never empty. */
  ghost predicate FilterTrusted(f: Folding, a: string) {
    forall b :: b != "" && Trimmed(f, b) ==> PairTrusted(f, a, b)
  }

  /** As above, with partners of nothing but white space as well. */
  ghost predicate FilterTrustedWithBlanks(f: Folding, a: string) {
    forall b :: b != "" && (Trimmed(f, b) || Blank(f, b)) ==> PairTrusted(f, a, b)
  }

  /** The filter is right about a pair exactly when its similarity is within the ratio of the raw lengths. */
  lemma PairTrustedIff(f: Folding, a: string, b: string)
    requires Max(|a|, |b|) > 0
    ensures PairTrusted(f, a, b) <==> Similarity(f, a, b) <= Ratio(|a|, |b|)
  {
    if Lower(f, a) == Lower(f, b) {
      Divided(|a| as real, |a| as real, |a| as real);
      assert Similarity(f, a, b) == 1.0;
    } else if PairTrusted(f, a, b) {
      assert !WronglyDropped(f, a, b, Similarity(f, a, b));
    }
  }

  /**
   * Of two names that are trimmed or nothing but white space, the filter is right, unless both are
   * white space of different length.
   */
  lemma CleanPairTrustedIff(f: Folding, a: string, b: string)
    requires Sensible(f) && (Trimmed(f, a) || Blank(f, a)) && (Trimmed(f, b) || Blank(f, b))
    ensures PairTrusted(f, a, b) <==> !(Blank(f, a) && Blank(f, b) && |a| != |b|)
  {
    TrimmedKeepsLength(f, a);
    TrimmedKeepsLength(f, b);
    if Max(|a|, |b|) > 0 {
      PairTrustedIff(f, a, b);
      RatioRange(|a|, |b|);
      if !Blank(f, a) && !Blank(f, b) {
        SimilarityAtMostRatio(Normalised(f, a), Normalised(f, b));
      }
    }
  }

  lemma RatioRange(x: nat, y: nat)
    requires Max(x, y) > 0
    ensures 0.0 <= Ratio(x, y) <= 1.0
    ensures Ratio(x, y) == 1.0 <==> x == y
  {
    var lo, hi := Min(x, y) as real, Max(x, y) as real;
    Divided(0.0, lo, hi);
    Divided(lo, hi, hi);
    Divided(hi, lo, hi);
  }

  /** An untrimmed name that is more than white space is cut off from its own normal form, of similarity 1. */
  lemma UntrimmedIsDropped(f: Folding, a: string)
    requires Sensible(f) && !Trimmed(f, a) && !Blank(f, a)
    ensures Trimmed(f, Normalised(f, a)) && WronglyDropped(f, a, Normalised(f, a), 1.0)
  {
    TrimmedKeepsLength(f, a);
    NormalisedIsSettled(f, a);
    RatioRange(|a|, |Normalised(f, a)|);
  }

  lemma {:induction false} BlankIsAllSpace(f: Folding, s: string)
    ensures Trim(f, s) == "" <==> AllSpace(f, s)
    decreases |s|
  {
    if s != "" && f.isSpace(s[0]) {
      BlankIsAllSpace(f, s[1..]);
      assert forall i :: 1 <= i < |s| ==> s[i] == s[1..][i - 1];
    } else if s != "" {
      TrimEndKeepsFirst(f, s);
    }
  }

  predicate AllSpace(f: Folding, s: string) {
    forall i :: 0 <= i < |s| ==> f.isSpace(s[i])
  }

  lemma {:induction false} TrimEndKeepsFirst(f: Folding, s: string)
    requires s != "" && !f.isSpace(s[0])
    ensures TrimEnd(f, s) != ""
    decreases |s|
  {
    if f.isSpace(s[|s| - 1]) {
      TrimEndKeepsFirst(f, s[..|s| - 1]);
    }
  }

  /** A name of white space alone is cut off from a longer such name, of similarity 1. */
  lemma BlankIsDropped(f: Folding, a: string)
    requires Sensible(f) && a != "" && Blank(f, a)
    ensures Blank(f, a + a) && WronglyDropped(f, a, a + a, 1.0)
  {
    BlankIsAllSpace(f, Lower(f, a));
    var l := Lower(f, a + a);
    forall i | 0 <= i < |l|
      ensures f.isSpace(l[i])
    {
      var k := if i < |a| then i else i - |a|;
      assert l[i] == f.lower(a[k]) == Lower(f, a)[k];
    }
    BlankIsAllSpace(f, l);
    RatioRange(|a|, |a + a|);
  }

  /**
   * Against trimmed partners the filter is right about a name exactly when the name is trimmed or nothing
   * but white space; against partners of white space as well, exactly when the name is trimmed.
   */
  lemma FilterTrustedIffTrimmed(f: Folding, a: string)
    requires Sensible(f)
    ensures FilterTrusted(f, a) <==> Trimmed(f, a) || Blank(f, a)
    ensures a != "" ==> (FilterTrustedWithBlanks(f, a) <==> Trimmed(f, a))
  {
    if Trimmed(f, a) || Blank(f, a) {
      forall b | b != "" && (Trimmed(f, b) || Blank(f, b))
        ensures PairTrusted(f, a, b) <==> !(Blank(f, a) && Blank(f, b) && |a| != |b|)
        ensures Trimmed(f, b) ==> !Blank(f, b)
      {
        TrimmedKeepsLength(f, b);
        CleanPairTrustedIff(f, a, b);
      }
      if a != "" && Blank(f, a) {
        TrimmedKeepsLength(f, a);
        BlankIsDropped(f, a);
        assert !PairTrusted(f, a, a + a);
      }
    } else {
      UntrimmedIsDropped(f, a);
      assert !PairTrusted(f, a, Normalised(f, a));
    }
  }

  // ---- pair keys

  /** Lexicographic order by code unit. */
  predicate Less(a: string, b: string) {
    b != [] && (a == [] || a[0] < b[0] || (a[0] == b[0] && Less(a[1..], b[1..])))
  }

  function PairKey(a: string, b: string): string {
    if Less(a, b) then a + "||" + b else b + "||" + a
  }

  lemma {:induction false} LessTotal(a: string, b: string)
    ensures Less(a, b) ==> !Less(b, a)
    ensures a != b ==> Less(a, b) || Less(b, a)
    decreases |a|
  {
    if a != [] && b != [] && a[0] == b[0] {
      LessTotal(a[1..], b[1..]);
      assert a == [a[0]] + a[1..] && b == [b[0]] + b[1..];
    }
  }

  lemma PairKeySymmetric(a: string, b: string)
    ensures PairKey(a, b) == PairKey(b, a)
  {
    LessTotal(a, b);
  }

  predicate SamePair(a: string, b: string, c: string, d: string) {
    (a == c && b == d) || (a == d && b == c)
  }

  /** A key reads, at position p, as the two names of a pair in order. */
  predicate ReadsAt(key: string, p: nat) {
    p + 2 <= |key| && key[p..p + 2] == "||" && !Less(key[p + 2..], key[..p])
  }

  function LowerOf(a: string, b: string): string {
    if Less(a, b) then a else b
  }

  /** The key has no other reading than the pair it was made from. */
  ghost predicate OneReading(a: string, b: string) {
    forall p: nat :: ReadsAt(PairKey(a, b), p) ==> p == |LowerOf(a, b)|
  }

  ghost predicate Identifies(a: string, b: string) {
    forall c, d :: PairKey(c, d) == PairKey(a, b) ==> SamePair(a, b, c, d)
  }

  lemma KeyParts(x: string, y: string)
    ensures (x + "||" + y)[..|x|] == x && (x + "||" + y)[|x|..|x| + 2] == "||" && (x + "||" + y)[|x| + 2..] == y
  {
  }

  // A pair's key reads as that pair where its lower name ends.
  lemma ReadsAsMade(c: string, d: string)
    ensures ReadsAt(PairKey(c, d), |LowerOf(c, d)|)
    ensures
      var key, p := PairKey(c, d), |LowerOf(c, d)|;
      SamePair(c, d, key[..p], key[p + 2..])
  {
    LessTotal(c, d);
    KeyParts(c, d);
    KeyParts(d, c);
  }

  // Every reading of a key is a pair that has this key.
  lemma ReadingHasKey(key: string, p: nat)
    requires ReadsAt(key, p)
    ensures PairKey(key[..p], key[p + 2..]) == key
  {
    var x, y := key[..p], key[p + 2..];
    assert key == x + key[p..p + 2] + y;
    LessTotal(x, y);
    if !Less(x, y) {
      assert x == y;
    }
  }

  lemma SamePairTransitive(a: string, b: string, u: string, v: string, x: string, y: string)
    requires SamePair(a, b, u, v) && SamePair(a, b, x, y)
    ensures SamePair(u, v, x, y)
  {
  }

  lemma OneReadingIdentifies(a: string, b: string)
    requires OneReading(a, b)
    ensures Identifies(a, b)
  {
    forall c, d | PairKey(c, d) == PairKey(a, b)
      ensures SamePair(a, b, c, d)
    {
      ReadsAsMade(a, b);
      ReadsAsMade(c, d);
      assert |LowerOf(c, d)| == |LowerOf(a, b)|;
    }
  }

  lemma IdentifiesOneReading(a: string, b: string)
    requires Identifies(a, b)
    ensures OneReading(a, b)
  {
    var key, q := PairKey(a, b), |LowerOf(a, b)|;
    forall p: nat | ReadsAt(key, p)
      ensures p == q
    {
      ReadsAsMade(a, b);
      ReadingHasKey(key, p);
      SamePairTransitive(a, b, key[..p], key[p + 2..], key[..q], key[q + 2..]);
      OtherSplitOtherPair(key, p, q);
    }
  }

  /** A key identifies its unordered pair exactly when it has no other reading. */
  lemma PairKeyInjective(a: string, b: string)
    ensures Identifies(a, b) <==> OneReading(a, b)
  {
    if OneReading(a, b) {
      OneReadingIdentifies(a, b);
    } else if Identifies(a, b) {
      IdentifiesOneReading(a, b);
    }
  }

  // Splitting a text at two places gives two different pairs.
  lemma OtherSplitOtherPair(key: string, p: nat, q: nat)
    requires ReadsAt(key, p) && ReadsAt(key, q) && SamePair(key[..p], key[p + 2..], key[..q], key[q + 2..])
    ensures p == q
  {
    if key[..p] == key[q + 2..] && key[p + 2..] == key[..q] {
      LessTotal(key[..p], key[p + 2..]);
    }
    assert |key[..p]| == p && |key[..q]| == q;
  }

  /** Names without a bar always give such a key. */
  lemma NoBarOneReading(a: string, b: string)
    requires '|' !in a && '|' !in b
    ensures OneReading(a, b)
  {
    var key, x, y := PairKey(a, b), LowerOf(a, b), if Less(a, b) then b else a;
    KeyParts(x, y);
    forall i | 0 <= i < |key| && i != |x| && i != |x| + 1
      ensures key[i] != '|'
    {
      NoBarAt(x, y, i);
    }
    forall p: nat | ReadsAt(key, p)
      ensures p == |x|
    {
      assert key[p] == key[p..p + 2][0] && key[p + 1] == key[p..p + 2][1];
    }
  }

  lemma NoBarAt(x: string, y: string, i: nat)
    requires '|' !in x && '|' !in y && i < |x + "||" + y| && i != |x| && i != |x| + 1
    ensures (x + "||" + y)[i] != '|'
  {
    if i < |x| {
      assert (x + "||" + y)[i] == x[i] && x[i] in x;
    } else {
      assert (x + "||" + y)[i] == y[i - |x| - 2] && y[i - |x| - 2] in y;
    }
  }

  /** With bars in names, two different pairs can share a key. */
  lemma PairKeyCollision()
    ensures PairKey("a", "b||c") == PairKey("a||b", "c")
    ensures PairKey("a|", "b") == PairKey("a", "|b")
  {
    assert "a" + "||" + "b||c" == "a||b" + "||" + "c";
    assert Less("a", "b||c") && Less("a||b", "c");
    assert "a|" + "||" + "b" == "a" + "||" + "|b";
    assert Less("a|", "b") && Less("a", "|b");
  }

  // ---- the search over pairs

  datatype Options = Options(folding: Folding, threshold: real, known: set<string>)

  function ChooseSuggestedCanonical(f: Folding, a: string, b: string): string {
    if |a| != |b| then if |a| > |b| then a else b
    else if Less(Lower(f, a), Lower(f, b)) then a else b
  }

  predicate Skipped(o: Options, a: string, b: string) {
    var la, lb := Lower(o.folding, a), Lower(o.folding, b);
    la == lb || PairKey(la, lb) in o.known
  }

  predicate Accepts(o: Options, filter: bool, a: string, b: string) {
    && !Skipped(o, a, b)
    && !(filter && Filtered(a, b, o.threshold))
    && Similarity(o.folding, a, b) >= o.threshold
  }

  function CandidateOf(o: Options, a: string, b: string): Candidate {
    Candidate(a, b, Similarity(o.folding, a, b), ChooseSuggestedCanonical(o.folding, a, b))
  }

  /** The pair test and the record it produces, with or without the length-ratio filter. */
  function PairTest(o: Options, filter: bool): Test {
    Test((a, b) => Accepts(o, filter, a, b), (a, b) => CandidateOf(o, a, b))
  }

  function Discovered(o: Options, filter: bool, names: seq<string>, maxCandidates: nat): seq<Candidate> {
    Best(PairTest(o, filter), names, maxCandidates)
  }

  // The test gives, for this pair, what the loop body is meant to compute.
  ghost predicate Implements(o: Options, test: Test, a: string, b: string) {
    test.Keep(a, b) == if Accepts(o, true, a, b) then [CandidateOf(o, a, b)] else []
  }

  ghost predicate Implemented(o: Options, test: Test) {
    forall a, b {:trigger Implements(o, test, a, b)} :: Implements(o, test, a, b)
  }

  method DiscoverAliasCandidates(
    o: Options, entityNames: seq<string>, maxCandidates: nat, maxEntities: nat
  ) returns (result: seq<Candidate>)
    ensures result ==
      if |entityNames| < 2 then [] else Discovered(o, true, Top(entityNames, maxEntities), maxCandidates)
  {
    if |entityNames| < 2 {
      return [];
    }
    var names := Top(entityNames, maxEntities);
    PairTestImplemented(o);
    var candidates := CollectPairs(o, PairTest(o, true), names);
    result := Top(Sort(candidates, AtLeast), maxCandidates);
  }

  lemma PairTestImplemented(o: Options)
    ensures Implemented(o, PairTest(o, true))
  {
  }

  /** The outer loop. */
  method CollectPairs(o: Options, ghost test: Test, names: seq<string>) returns (candidates: seq<Candidate>)
    requires Implemented(o, test)
    ensures candidates == Rows(test, names, |names|)
  {
    candidates := [];
    for i := 0 to |names|
      invariant candidates == Rows(test, names, i)
    {
      candidates := ComparePairs(o, test, names, i, candidates);
    }
  }

  /** The inner loop: name i against every later name. */
  method ComparePairs(o: Options, ghost test: Test, names: seq<string>, i: nat, before: seq<Candidate>)
    returns (candidates: seq<Candidate>)
    requires i < |names| && Implemented(o, test)
    ensures candidates == before + Row(test, names, i, |names|)
  {
    candidates := before;
    for j := i + 1 to |names|
      invariant candidates == before + Row(test, names, i, j)
    {
      ghost var was := candidates;
      candidates := ConsiderPair(o, test, names[i], names[j], candidates);
      RowGrows(test, names, i, j, before, was, candidates);
    }
  }

  lemma RowGrows(
    t: Test, names: seq<string>, i: nat, j: nat, before: seq<Candidate>, was: seq<Candidate>, now: seq<Candidate>
  )
    requires i < j < |names|
    requires was == before + Row(t, names, i, j) && now == was + t.Keep(names[i], names[j])
    ensures now == before + Row(t, names, i, j + 1)
  {
  }

  /** One turn of the inner loop. */
  method ConsiderPair(o: Options, ghost test: Test, a: string, b: string, before: seq<Candidate>)
    returns (candidates: seq<Candidate>)
    requires Implements(o, test, a, b)
    ensures candidates == before + test.Keep(a, b)
  {
    candidates := before;
    if Lower(o.folding, a) == Lower(o.folding, b) {
      return;
    }
    if PairKey(Lower(o.folding, a), Lower(o.folding, b)) in o.known {
      return;
    }
    var maxLen := Max(|a|, |b|);
    if maxLen > 0 && Min(|a|, |b|) as real / maxLen as real < o.threshold {
      return;
    }
    var similarity := NormalizedStringSimilarity(o.folding, a, b);
    if similarity >= o.threshold {
      candidates := candidates + [Candidate(a, b, similarity, ChooseSuggestedCanonical(o.folding, a, b))];
    }
  }

  /** With every threshold, every set of known pairs and every cut, the filter changes nothing about the result. */
  ghost predicate FilterHarmless(f: Folding, names: seq<string>) {
    forall o: Options, n: nat :: o.folding == f ==> Discovered(o, true, names, n) == Discovered(o, false, names, n)
  }

  ghost predicate AllPairsTrusted(f: Folding, names: seq<string>) {
    forall i, j :: 0 <= i < j < |names| ==> PairTrusted(f, names[i], names[j])
  }

  lemma TestsAgree(o: Options, a: string, b: string)
    requires PairTrusted(o.folding, a, b)
    ensures PairTest(o, true).Keep(a, b) == PairTest(o, false).Keep(a, b)
  {
    assert !WronglyDropped(o.folding, a, b, o.threshold);
  }

  lemma TrustSymmetric(f: Folding, a: string, b: string)
    requires PairTrusted(f, a, b)
    ensures PairTrusted(f, b, a)
  {
    forall threshold
      ensures !WronglyDropped(f, b, a, threshold)
    {
      assert !WronglyDropped(f, a, b, threshold);
      SimilarityRange(Normalised(f, a), Normalised(f, b));
    }
  }

  lemma TrustedIsHarmless(o: Options, names: seq<string>, n: nat)
    requires AllPairsTrusted(o.folding, names)
    ensures Discovered(o, true, names, n) == Discovered(o, false, names, n)
  {
    forall a, b | a in names && b in names
      ensures PairTest(o, true).Keep(a, b) == PairTest(o, false).Keep(a, b)
    {
      var i :| 0 <= i < |names| && names[i] == a;
      var j :| 0 <= j < |names| && names[j] == b;
      if i < j {
        TestsAgree(o, a, b);
      } else if j < i {
        TrustSymmetric(o.folding, b, a);
        TestsAgree(o, a, b);
      }
    }
    RowsAgree(PairTest(o, true), PairTest(o, false), names, |names|);
  }

  // A wrongly dropped pair is missing from the filtered search.
  lemma DroppedIsMissing(o: Options, names: seq<string>, n: nat, a: string, b: string)
    requires WronglyDropped(o.folding, a, b, o.threshold)
    ensures CandidateOf(o, a, b) !in Discovered(o, true, names, n)
  {
    var c := CandidateOf(o, a, b);
    if c in Discovered(o, true, names, n) {
      var p, q := BestFrom(PairTest(o, true), names, n, c);
      KeptIsAccepted(o, true, names[p], names[q], c);
    }
  }

  lemma KeptIsAccepted(o: Options, filter: bool, a: string, b: string, c: Candidate)
    requires c in PairTest(o, filter).Keep(a, b)
    ensures Accepts(o, filter, a, b) && a == c.entity1 && b == c.entity2
  {
  }

  // The search without the filter finds it, when there is room.
  lemma DroppedIsFound(o: Options, names: seq<string>, i: nat, j: nat) returns (n: nat)
    requires i < j < |names| && WronglyDropped(o.folding, names[i], names[j], o.threshold) && o.known == {}
    ensures CandidateOf(o, names[i], names[j]) in Discovered(o, false, names, n)
  {
    var test := PairTest(o, false);
    n := |Rows(test, names, |names|)|;
    assert Accepts(o, false, names[i], names[j]);
    BestHasAll(test, names, CandidateOf(o, names[i], names[j]), i, j);
  }

  lemma DroppedIsHarm(f: Folding, names: seq<string>, i: nat, j: nat, threshold: real)
    requires i < j < |names| && WronglyDropped(f, names[i], names[j], threshold)
    ensures !FilterHarmless(f, names)
  {
    var o := Options(f, threshold, {});
    var n := DroppedIsFound(o, names, i, j);
    DroppedIsMissing(o, names, n, names[i], names[j]);
  }

  /** Filtered and unfiltered search return the same, whatever the options, exactly when every pair is trusted. */
  lemma FilterHarmlessIff(f: Folding, names: seq<string>)
    ensures FilterHarmless(f, names) <==> AllPairsTrusted(f, names)
  {
    if AllPairsTrusted(f, names) {
      forall o: Options, n: nat | o.folding == f
        ensures Discovered(o, true, names, n) == Discovered(o, false, names, n)
      {
        TrustedIsHarmless(o, names, n);
      }
    } else {
      var i, j :| 0 <= i < j < |names| && !PairTrusted(f, names[i], names[j]);
      var threshold :| WronglyDropped(f, names[i], names[j], threshold);
      DroppedIsHarm(f, names, i, j, threshold);
    }
  }

  /**
   * For names that are trimmed or nothing but white space, the filtered search returns exactly what the
   * unfiltered one does if and only if those of white space all have one length.
   */
  lemma FilteredSearchAgrees(f: Folding, names: seq<string>)
    requires Sensible(f) && forall i :: 0 <= i < |names| ==> Trimmed(f, names[i]) || Blank(f, names[i])
    ensures FilterHarmless(f, names) <==>
      forall i, j :: 0 <= i < j < |names| && Blank(f, names[i]) && Blank(f, names[j]) ==> |names[i]| == |names[j]|
  {
    FilterHarmlessIff(f, names);
    forall i, j | 0 <= i < j < |names|
      ensures PairTrusted(f, names[i], names[j]) <==>
        !(Blank(f, names[i]) && Blank(f, names[j]) && |names[i]| != |names[j]|)
    {
      CleanPairTrustedIff(f, names[i], names[j]);
    }
  }

  /**
   * The suggested name is the longer one, and of two of one length the one that is lower in lower case;
   * unless the two differ in case only, it does not depend on their order.
   */
  lemma CanonicalIsLonger(f: Folding, a: string, b: string)
    ensures
      var r := ChooseSuggestedCanonical(f, a, b);
      && r in {a, b} && |r| == Max(|a|, |b|)
      && (|a| == |b| ==> !Less(Lower(f, a), Lower(f, r)) && !Less(Lower(f, b), Lower(f, r)))
      && (Lower(f, a) != Lower(f, b) ==> r == ChooseSuggestedCanonical(f, b, a))
  {
    LessTotal(Lower(f, a), Lower(f, b));
    LessTotal(Lower(f, a), Lower(f, a));
    LessTotal(Lower(f, b), Lower(f, b));
  }

  /** What a candidate says: two of the names, not known as aliases, similar enough, and the longer of them. */
  lemma CandidateMeaning(o: Options, filter: bool, names: seq<string>, n: nat, c: Candidate)
    returns (i: nat, j: nat)
    requires c in Discovered(o, filter, names, n)
    ensures i < j < |names| && c.entity1 == names[i] && c.entity2 == names[j]
    ensures Lower(o.folding, c.entity1) != Lower(o.folding, c.entity2)
    ensures PairKey(Lower(o.folding, c.entity1), Lower(o.folding, c.entity2)) !in o.known
    ensures c.similarity == Similarity(o.folding, c.entity1, c.entity2) >= o.threshold
    ensures c.suggestedCanonical in {c.entity1, c.entity2}
    ensures |c.suggestedCanonical| == Max(|c.entity1|, |c.entity2|)
  {
    i, j := BestFrom(PairTest(o, filter), names, n, c);
    KeptIsAccepted(o, filter, names[i], names[j], c);
    CanonicalIsLonger(o.folding, c.entity1, c.entity2);
  }

  /** And every such pair is found, when there is room for all and the filter does not drop it. */
  lemma PairIsFound(o: Options, filter: bool, names: seq<string>, i: nat, j: nat) returns (c: Candidate, n: nat)
    requires i < j < |names| && Lower(o.folding, names[i]) != Lower(o.folding, names[j])
    requires PairKey(Lower(o.folding, names[i]), Lower(o.folding, names[j])) !in o.known
    requires Similarity(o.folding, names[i], names[j]) >= o.threshold
    requires filter ==> !Filtered(names[i], names[j], o.threshold)
    ensures c in Discovered(o, filter, names, n) && c.entity1 == names[i] && c.entity2 == names[j]
  {
    var test := PairTest(o, filter);
    c, n := CandidateOf(o, names[i], names[j]), |Rows(test, names, |names|)|;
    PairIsKept(o, filter, names[i], names[j]);
    BestHasAll(test, names, c, i, j);
  }

  lemma PairIsKept(o: Options, filter: bool, a: string, b: string)
    requires Accepts(o, filter, a, b)
    ensures PairTest(o, filter).Keep(a, b) == [CandidateOf(o, a, b)]
  {
  }
}
