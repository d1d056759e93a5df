/**
 * Cached and batched embedding (src/embeddings/resilience.ts): a bounded cache in front of a
 * generator that embeds each text on its own.
 */
module EmbeddingCache {
  import opened Sequences

  datatype Vector = Vector(values: seq<real>)

  const EMPTY := Vector([])

  // ---- generators

  function MapTexts(f: string -> Vector, texts: seq<string>): (r: seq<Vector>)
    ensures |r| == |texts| && forall i :: 0 <= i < |r| ==> r[i] == f(texts[i])
  {
    seq(|texts|, i requires 0 <= i < |texts| => f(texts[i]))
  }

  lemma MapConcat(f: string -> Vector, a: seq<string>, b: seq<string>)
    ensures MapTexts(f, a + b) == MapTexts(f, a) + MapTexts(f, b)
  {
  }

  /** A generator whose vector for a text does not depend on the other texts. */
  ghost predicate Pointwise(generator: seq<string> -> seq<Vector>, f: string -> Vector) {
    forall texts :: generator(texts) == MapTexts(f, texts)
  }

  /** Batches of any size give what one call would have given. */
  method BatchedGenerate(
    generator: seq<string> -> seq<Vector>, ghost f: string -> Vector, inputs: seq<string>, batchSize: int
  ) returns (output: seq<Vector>)
    requires Pointwise(generator, f)
    ensures output == MapTexts(f, inputs)
  {
    if |inputs| == 0 {
      return [];
    }
    if batchSize <= 0 {
      return generator(inputs);
    }
    output := [];
    var index := 0;
    while index < |inputs|
      invariant 0 <= index && output == MapTexts(f, inputs[..if index <= |inputs| then index else |inputs|])
      decreases |inputs| - index
    {
      var end := if index + batchSize <= |inputs| then index + batchSize else |inputs|;
      var batch := inputs[index..end];
      assert generator(batch) == MapTexts(f, batch);
      output := output + generator(batch);
      MapConcat(f, inputs[..index], batch);
      assert inputs[..end] == inputs[..index] + batch;
      index := index + batchSize;
    }
    assert inputs[..|inputs|] == inputs;
  }

  // ---- the cache as a value, oldest text first

  datatype Cache = Cache(keys: seq<string>, vectors: map<string, Vector>)

  ghost predicate CacheOk(c: Cache, f: string -> Vector) {
    && Distinct(c.keys) && (forall k :: k in c.keys <==> k in c.vectors)
    && (forall k :: k in c.vectors ==> c.vectors[k] == f(k))
  }

  /** Drops the oldest texts until the cache is small enough, stopping at an empty text. */
  function Evict(c: Cache, maxEntries: int): Cache
    decreases |c.keys|
  {
    if |c.keys| <= maxEntries || c.keys == [] || c.keys[0] == "" then c
    else Evict(Cache(c.keys[1..], c.vectors - {c.keys[0]}), maxEntries)
  }

  function Touch(c: Cache, text: string, vector: Vector, maxEntries: int): Cache {
    Evict(Cache(Without(c.keys, text) + [text], c.vectors[text := vector]), maxEntries)
  }

  /** The texts that are not cached, each once, in order of appearance. */
  function Missing(c: Cache, texts: seq<string>): seq<string> {
    if texts == [] then []
    else
      var rest, last := Missing(c, texts[..|texts| - 1]), texts[|texts| - 1];
      if last in c.vectors || last in rest then rest else rest + [last]
  }

  function Insert(c: Cache, texts: seq<string>, generated: seq<Vector>, maxEntries: int): Cache {
    if texts == [] then c
    else
      var n := |texts| - 1;
      var before := Insert(c, texts[..n], generated, maxEntries);
      if n < |generated| then Touch(before, texts[n], generated[n], maxEntries) else before
  }

  function ReadOne(c: Cache, text: string, maxEntries: int): Cache {
    if text in c.vectors then Touch(c, text, c.vectors[text], maxEntries) else c
  }

  function ReadAll(c: Cache, texts: seq<string>, maxEntries: int): Cache {
    if texts == [] then c
    else ReadOne(ReadAll(c, texts[..|texts| - 1], maxEntries), texts[|texts| - 1], maxEntries)
  }

  function Answer(c: Cache, text: string): Vector {
    if text in c.vectors then c.vectors[text] else EMPTY
  }

  /** What a text reads after the texts before it have been read. */
  function AnswerAt(c: Cache, texts: seq<string>, i: nat, maxEntries: int): Vector
    requires i < |texts|
  {
    Answer(ReadAll(c, texts[..i], maxEntries), texts[i])
  }

  /** The cache after its misses have been generated. */
  function Filled(c: Cache, generator: seq<string> -> seq<Vector>, texts: seq<string>, maxEntries: int): Cache {
    var missing := Missing(c, texts);
    if missing == [] then c else Insert(c, missing, generator(missing), maxEntries)
  }

  // ---- the generator with a cache

  class CachedGenerator {
    const generator: seq<string> -> seq<Vector>
    const maxEntries: int
    var keys: seq<string>
    var vectors: map<string, Vector>

    ghost function Value(): Cache
      reads this
    {
      Cache(keys, vectors)
    }

    constructor (generator: seq<string> -> seq<Vector>, maxEntries: int)
      ensures this.generator == generator && this.maxEntries == maxEntries && Value() == Cache([], map[])
    {
      this.generator, this.maxEntries := generator, maxEntries;
      keys, vectors := [], map[];
    }

    method TouchText(text: string, vector: Vector)
      modifies this
      ensures Value() == Touch(old(Value()), text, vector, maxEntries)
    {
      keys := Without(keys, text) + [text];
      vectors := vectors[text := vector];
      while |keys| > maxEntries
        invariant Evict(Value(), maxEntries) == Touch(old(Value()), text, vector, maxEntries)
        decreases |keys|
      {
        if keys == [] || keys[0] == "" {
          break;
        }
        var oldestKey := keys[0];
        keys := keys[1..];
        vectors := vectors - {oldestKey};
      }
    }

    /** Finds the distinct misses in order. */
    method FindMissing(texts: seq<string>) returns (missing: seq<string>)
      ensures missing == Missing(Value(), texts)
    {
      missing := [];
      for i := 0 to |texts|
        invariant missing == Missing(Value(), texts[..i])
      {
        assert texts[..i + 1][..i] == texts[..i];
        if texts[i] !in vectors && texts[i] !in missing {
          missing := missing + [texts[i]];
        }
      }
      assert texts[..|texts|] == texts;
    }

    method InsertAll(missing: seq<string>, generated: seq<Vector>)
      modifies this
      ensures Value() == Insert(old(Value()), missing, generated, maxEntries)
    {
      for i := 0 to |missing|
        invariant Value() == Insert(old(Value()), missing[..i], generated, maxEntries)
      {
        assert missing[..i + 1][..i] == missing[..i];
        if i < |generated| {
          TouchText(missing[i], generated[i]);
        }
      }
      assert missing[..|missing|] == missing;
    }

    method ReadTexts(texts: seq<string>) returns (out: seq<Vector>)
      modifies this
      ensures Value() == ReadAll(old(Value()), texts, maxEntries) && |out| == |texts|
      ensures forall i :: 0 <= i < |texts| ==> out[i] == AnswerAt(old(Value()), texts, i, maxEntries)
    {
      out := [];
      for i := 0 to |texts|
        invariant Value() == ReadAll(old(Value()), texts[..i], maxEntries) && |out| == i
        invariant forall j :: 0 <= j < i ==> out[j] == AnswerAt(old(Value()), texts, j, maxEntries)
      {
        assert texts[..i + 1][..i] == texts[..i];
        if texts[i] in vectors {
          out := out + [vectors[texts[i]]];
          TouchText(texts[i], vectors[texts[i]]);
        } else {
          out := out + [EMPTY];
        }
      }
      assert texts[..|texts|] == texts;
    }

    /** One call: generate the misses, then read every text. */
    method Generate(texts: seq<string>) returns (out: seq<Vector>)
      modifies this
      ensures
        var filled := Filled(old(Value()), generator, texts, maxEntries);
        && Value() == ReadAll(filled, texts, maxEntries) && |out| == |texts|
        && forall i :: 0 <= i < |texts| ==> out[i] == AnswerAt(filled, texts, i, maxEntries)
    {
      var missing := FindMissing(texts);
      if |missing| > 0 {
        var generated := generator(missing);
        InsertAll(missing, generated);
      }
      out := ReadTexts(texts);
    }
  }

  // ---- the answers are the generator's

  lemma {:induction false} EvictOk(c: Cache, f: string -> Vector, maxEntries: int)
    requires CacheOk(c, f)
    ensures CacheOk(Evict(c, maxEntries), f)
    ensures |c.keys| <= maxEntries ==> Evict(c, maxEntries) == c
    decreases |c.keys|
  {
    if !(|c.keys| <= maxEntries || c.keys == [] || c.keys[0] == "") {
      var next := Cache(c.keys[1..], c.vectors - {c.keys[0]});
      forall k
        ensures k in next.keys <==> k in next.vectors
      {
        assert c.keys == [c.keys[0]] + next.keys;
        assert k in c.keys <==> k in c.vectors;
      }
      EvictOk(next, f, maxEntries);
    }
  }

  lemma TouchOk(c: Cache, f: string -> Vector, text: string, maxEntries: int)
    requires CacheOk(c, f)
    ensures CacheOk(Touch(c, text, f(text), maxEntries), f)
    ensures
      var size := |c.keys| + (if text in c.vectors then 0 else 1);
      size <= maxEntries ==>
        Touch(c, text, f(text), maxEntries).vectors.Keys == c.vectors.Keys + {text}
        && |Touch(c, text, f(text), maxEntries).keys| == size
  {
    WithoutDistinct(c.keys, text);
    var next := Cache(Without(c.keys, text) + [text], c.vectors[text := f(text)]);
    assert CacheOk(next, f);
    EvictOk(next, f, maxEntries);
  }

  lemma {:induction false} InsertOk(
    c: Cache, f: string -> Vector, texts: seq<string>, generated: seq<Vector>, maxEntries: int
  )
    requires CacheOk(c, f) && |texts| <= |generated|
    requires forall i :: 0 <= i < |texts| ==> generated[i] == f(texts[i])
    ensures CacheOk(Insert(c, texts, generated, maxEntries), f)
    decreases |texts|
  {
    if texts != [] {
      var front := texts[..|texts| - 1];
      InsertOk(c, f, front, generated, maxEntries);
      TouchOk(Insert(c, front, generated, maxEntries), f, texts[|texts| - 1], maxEntries);
    }
  }

  lemma FilledOk(
    c: Cache, generator: seq<string> -> seq<Vector>, f: string -> Vector, texts: seq<string>, maxEntries: int
  )
    requires CacheOk(c, f) && Pointwise(generator, f)
    ensures CacheOk(Filled(c, generator, texts, maxEntries), f)
  {
    InsertOk(c, f, Missing(c, texts), MapTexts(f, Missing(c, texts)), maxEntries);
  }

  lemma {:induction false} ReadAllKeepsOk(c: Cache, f: string -> Vector, texts: seq<string>, maxEntries: int)
    requires CacheOk(c, f)
    ensures CacheOk(ReadAll(c, texts, maxEntries), f)
    decreases |texts|
  {
    if texts != [] {
      var front, last := texts[..|texts| - 1], texts[|texts| - 1];
      ReadAllKeepsOk(c, f, front, maxEntries);
      if last in ReadAll(c, front, maxEntries).vectors {
        TouchOk(ReadAll(c, front, maxEntries), f, last, maxEntries);
      }
    }
  }

  /** Whatever was cached before, an answer is the generator's vector or empty, and the cache stays sound. */
  lemma AnswersAreSound(
    c: Cache, generator: seq<string> -> seq<Vector>, f: string -> Vector, texts: seq<string>, maxEntries: int, i: nat
  )
    requires CacheOk(c, f) && Pointwise(generator, f) && i < |texts|
    ensures
      var filled := Filled(c, generator, texts, maxEntries);
      && CacheOk(ReadAll(filled, texts, maxEntries), f)
      && AnswerAt(filled, texts, i, maxEntries) in {f(texts[i]), EMPTY}
  {
    var filled := Filled(c, generator, texts, maxEntries);
    FilledOk(c, generator, f, texts, maxEntries);
    ReadAllKeepsOk(filled, f, texts, maxEntries);
    ReadAllKeepsOk(filled, f, texts[..i], maxEntries);
  }

  // ---- least recently used

  function Suffix(s: seq<string>, n: int): (r: seq<string>)
    ensures |r| <= |s|
  {
    if n <= 0 then [] else if |s| <= n then s else s[|s| - n..]
  }

  /** The distinct texts touched so far, in the order of their last touch. */
  function Recent(history: seq<string>): seq<string> {
    if history == [] then []
    else Without(Recent(history[..|history| - 1]), history[|history| - 1]) + [history[|history| - 1]]
  }

  /** The place of the empty text, counted from the newest. */
  function FromNewest(r: seq<string>): (d: nat)
    requires "" in r
    ensures 1 <= d <= |r| && r[|r| - d] == ""
  {
    if r[|r| - 1] == "" then 1 else FromNewest(r[..|r| - 1]) + 1
  }

  /** How many of the texts a cache may hold: eviction never passes an empty text. */
  function Kept(r: seq<string>, maxEntries: int): int {
    if "" in r && FromNewest(r) > maxEntries then FromNewest(r) else maxEntries
  }

  /** The cache holds the most recently touched texts, and any down to an empty one. */
  ghost predicate HoldsRecent(c: Cache, history: seq<string>, maxEntries: int) {
    c.keys == Suffix(Recent(history), Kept(Recent(history), maxEntries))
  }

  lemma {:induction false} RecentDistinct(history: seq<string>)
    ensures Distinct(Recent(history))
    ensures forall t :: t in Recent(history) <==> t in history
    decreases |history|
  {
    if history != [] {
      var front, last := history[..|history| - 1], history[|history| - 1];
      SplitLast(history);
      RecentDistinct(front);
      WithoutDistinct(Recent(front), last);
    }
  }

  lemma {:induction false} WithoutConcat(a: seq<string>, b: seq<string>, k: string)
    ensures Without(a + b, k) == Without(a, k) + Without(b, k)
    decreases |b|
  {
    if b == [] {
      assert a + b == a;
    } else {
      WithoutConcat(a, b[..|b| - 1], k);
      WithoutConcatSnoc(a, b[..|b| - 1], b[|b| - 1], k);
      SplitLast(b);
    }
  }

  lemma WithoutConcatSnoc(a: seq<string>, b: seq<string>, x: string, k: string)
    requires Without(a + b, k) == Without(a, k) + Without(b, k)
    ensures Without(a + (b + [x]), k) == Without(a, k) + Without(b + [x], k)
  {
    AppendAssociates(a, b, [x]);
    WithoutSnoc(a + b, x, k);
    WithoutSnoc(b, x, k);
    AppendAssociates(Without(a, k), Without(b, k), if x == k then [] else [x]);
  }

  lemma WithoutSnoc(s: seq<string>, x: string, k: string)
    ensures Without(s + [x], k) == Without(s, k) + (if x == k then [] else [x])
  {
    assert (s + [x])[..|s|] == s;
  }

  lemma {:induction false} WithoutAbsent(s: seq<string>, k: string)
    requires k !in s
    ensures Without(s, k) == s
    decreases |s|
  {
    if s != [] {
      WithoutAbsent(s[..|s| - 1], k);
      SplitLast(s);
    }
  }

  lemma {:induction false} FromNewestTail(a: seq<string>, b: seq<string>)
    requires "" in b
    ensures FromNewest(a + b) == FromNewest(b)
    decreases |b|
  {
    if b[|b| - 1] != "" {
      SplitLast(b);
      FromNewestTail(a, b[..|b| - 1]);
      assert (a + b)[..|a + b| - 1] == a + b[..|b| - 1];
    }
  }

  lemma {:induction false} EvictKeys(c: Cache, maxEntries: int)
    requires Distinct(c.keys)
    ensures Evict(c, maxEntries).keys == Suffix(c.keys, Kept(c.keys, maxEntries))
    decreases |c.keys|
  {
    if c.keys != [] {
      var first, rest := c.keys[0], c.keys[1..];
      assert c.keys == [first] + rest;
      if "" in rest {
        FromNewestTail([first], rest);
      }
      if |c.keys| > maxEntries && first != "" {
        EvictKeys(Cache(rest, c.vectors - {first}), maxEntries);
        SuffixOfRest(c.keys, Kept(c.keys, maxEntries));
      } else if first == "" {
        OnlyFirst(c.keys);
      }
    }
  }

  lemma OnlyFirst(keys: seq<string>)
    requires Distinct(keys) && keys != [] && keys[0] == ""
    ensures FromNewest(keys) == |keys|
  {
  }

  lemma SuffixOfRest(s: seq<string>, n: int)
    requires s != [] && |s| > n
    ensures Suffix(s[1..], n) == Suffix(s, n)
  {
  }

  lemma SuffixOfConcat(a: seq<string>, b: seq<string>, n: int)
    requires n <= |b|
    ensures Suffix(a + b, n) == Suffix(b, n)
  {
  }

  // Two lists with one tail keep the same of it, if the tail holds the empty text and is long enough.
  lemma KeptOfTail(a: seq<string>, b: seq<string>, maxEntries: int)
    requires "" in a ==> "" in b
    requires a == [] || maxEntries <= |b|
    ensures Suffix(b, Kept(b, maxEntries)) == Suffix(a + b, Kept(a + b, maxEntries))
  {
    if "" in b {
      FromNewestTail(a, b);
    }
    if a == [] {
      assert a + b == b;
    } else {
      SuffixOfConcat(a, b, Kept(b, maxEntries));
    }
  }

  lemma KeepsEmptyText(r: seq<string>, maxEntries: int)
    requires "" in r
    ensures "" in Suffix(r, Kept(r, maxEntries))
  {
    var d, kept := FromNewest(r), Suffix(r, Kept(r, maxEntries));
    assert kept[|kept| - d] == r[|r| - d];
  }

  // What is left out of a suffix, without t, followed by the suffix without t and then t.
  lemma TouchedParts(r: seq<string>, n: int, t: string) returns (past: seq<string>)
    ensures r == past + Suffix(r, n) && (past == [] || |Suffix(r, n)| >= n)
    ensures Without(r, t) + [t] == Without(past, t) + (Without(Suffix(r, n), t) + [t])
  {
    var k := Suffix(r, n);
    past := r[..|r| - |k|];
    assert r == past + k;
    WithoutConcat(past, k, t);
    AppendAssociates(Without(past, t), Without(k, t), [t]);
  }

  /** A touch keeps the cache the kept part of an ever more recent list. */
  lemma TouchSuffix(c: Cache, r: seq<string>, text: string, vector: Vector, maxEntries: int)
    requires Distinct(r) && c.keys == Suffix(r, Kept(r, maxEntries))
    ensures
      var next := Without(r, text) + [text];
      Touch(c, text, vector, maxEntries).keys == Suffix(next, Kept(next, maxEntries))
  {
    var past := TouchedParts(r, Kept(r, maxEntries), text);
    var front, kept := Without(past, text), Without(c.keys, text) + [text];
    SuffixDistinct(r, Kept(r, maxEntries));
    MovedToEnd(c.keys, text);
    EmptyTextStays(r, past, c.keys, text, maxEntries);
    KeptOfTail(front, kept, maxEntries);
    EvictKeys(Cache(kept, c.vectors[text := vector]), maxEntries);
  }

  lemma MovedToEnd(keys: seq<string>, text: string)
    requires Distinct(keys)
    ensures Distinct(Without(keys, text) + [text]) && |Without(keys, text) + [text]| >= |keys|
  {
    WithoutDistinct(keys, text);
  }

  lemma EmptyTextStays(r: seq<string>, past: seq<string>, keys: seq<string>, text: string, maxEntries: int)
    requires r == past + keys && keys == Suffix(r, Kept(r, maxEntries))
    ensures "" in Without(past, text) ==> "" in Without(keys, text) + [text]
  {
    if "" in past {
      assert "" in r;
      KeepsEmptyText(r, maxEntries);
    }
  }

  lemma SuffixDistinct(s: seq<string>, n: int)
    requires Distinct(s)
    ensures Distinct(Suffix(s, n))
  {
  }

  /** A touch keeps the cache holding the most recent texts. */
  lemma TouchKeepsRecent(c: Cache, history: seq<string>, text: string, vector: Vector, maxEntries: int)
    requires HoldsRecent(c, history, maxEntries)
    ensures HoldsRecent(Touch(c, text, vector, maxEntries), history + [text], maxEntries)
  {
    RecentDistinct(history);
    assert (history + [text])[..|history|] == history;
    TouchSuffix(c, Recent(history), text, vector, maxEntries);
  }

  /** The texts one call touches: its misses, then what it finds. */
  function Touched(c: Cache, generator: seq<string> -> seq<Vector>, texts: seq<string>, maxEntries: int): seq<string> {
    Missing(c, texts) + Found(Filled(c, generator, texts, maxEntries), texts, maxEntries)
  }

  function Found(c: Cache, texts: seq<string>, maxEntries: int): seq<string> {
    if texts == [] then []
    else
      var front, last := texts[..|texts| - 1], texts[|texts| - 1];
      Found(c, front, maxEntries) + if last in ReadAll(c, front, maxEntries).vectors then [last] else []
  }

  lemma InsertKeepsRecent(
    c: Cache, history: seq<string>, texts: seq<string>, generated: seq<Vector>, maxEntries: int
  )
    requires HoldsRecent(c, history, maxEntries) && |generated| == |texts|
    ensures HoldsRecent(Insert(c, texts, generated, maxEntries), history + texts, maxEntries)
  {
    InsertSomeKeepsRecent(c, history, texts, generated, maxEntries, |texts|);
    assert texts[..|texts|] == texts;
  }

  lemma {:induction false} InsertSomeKeepsRecent(
    c: Cache, history: seq<string>, texts: seq<string>, generated: seq<Vector>, maxEntries: int, n: nat
  )
    requires HoldsRecent(c, history, maxEntries) && |generated| == |texts|
    requires n <= |texts|
    ensures HoldsRecent(Insert(c, texts[..n], generated, maxEntries), history + texts[..n], maxEntries)
  {
    if n > 0 {
      InsertSomeKeepsRecent(c, history, texts, generated, maxEntries, n - 1);
      NextPrefix(history, texts, n - 1);
      InsertOneKeepsRecent(c, history + texts[..n - 1], texts[..n - 1], texts[n - 1], generated, maxEntries);
    } else {
      assert history + texts[..0] == history;
    }
  }

  lemma NextPrefix(history: seq<string>, texts: seq<string>, n: nat)
    requires n < |texts|
    ensures texts[..n + 1] == texts[..n] + [texts[n]]
    ensures history + texts[..n + 1] == (history + texts[..n]) + [texts[n]]
  {
  }

  lemma InsertOneKeepsRecent(
    c: Cache, history: seq<string>, before: seq<string>, text: string, generated: seq<Vector>, maxEntries: int
  )
    requires HoldsRecent(Insert(c, before, generated, maxEntries), history, maxEntries)
    requires |before| < |generated|
    ensures HoldsRecent(Insert(c, before + [text], generated, maxEntries), history + [text], maxEntries)
  {
    assert (before + [text])[..|before|] == before;
    TouchKeepsRecent(Insert(c, before, generated, maxEntries), history, text, generated[|before|], maxEntries);
  }

  lemma {:induction false} ReadKeepsRecent(c: Cache, history: seq<string>, texts: seq<string>, maxEntries: int)
    requires HoldsRecent(c, history, maxEntries)
    ensures HoldsRecent(ReadAll(c, texts, maxEntries), history + Found(c, texts, maxEntries), maxEntries)
    decreases |texts|
  {
    if texts == [] {
      assert history + [] == history;
    } else {
      var front, last := texts[..|texts| - 1], texts[|texts| - 1];
      ReadKeepsRecent(c, history, front, maxEntries);
      ReadOneKeepsRecent(ReadAll(c, front, maxEntries), history + Found(c, front, maxEntries), last, maxEntries);
      AppendAssociates(
        history, Found(c, front, maxEntries), if last in ReadAll(c, front, maxEntries).vectors then [last] else []);
    }
  }

  lemma ReadOneKeepsRecent(c: Cache, history: seq<string>, text: string, maxEntries: int)
    requires HoldsRecent(c, history, maxEntries)
    ensures HoldsRecent(
      ReadOne(c, text, maxEntries), history + (if text in c.vectors then [text] else []), maxEntries)
  {
    if text in c.vectors {
      TouchKeepsRecent(c, history, text, c.vectors[text], maxEntries);
    } else {
      assert history + [] == history;
    }
  }

  lemma {:induction false} MissingMembers(c: Cache, texts: seq<string>)
    ensures Distinct(Missing(c, texts))
    ensures forall t :: t in Missing(c, texts) <==> t in texts && t !in c.vectors
    decreases |texts|
  {
    if texts != [] {
      MissingMembers(c, texts[..|texts| - 1]);
      SplitLast(texts);
    }
  }

  /** Over any calls the cache holds exactly the most recently touched texts, as many as are kept. */
  lemma CallKeepsRecent(
    c: Cache, generator: seq<string> -> seq<Vector>, f: string -> Vector, history: seq<string>, texts: seq<string>,
    maxEntries: int
  )
    requires HoldsRecent(c, history, maxEntries) && Pointwise(generator, f)
    ensures
      var after := ReadAll(Filled(c, generator, texts, maxEntries), texts, maxEntries);
      HoldsRecent(after, history + Touched(c, generator, texts, maxEntries), maxEntries)
  {
    var missing := Missing(c, texts);
    var filled := Filled(c, generator, texts, maxEntries);
    FillKeepsRecent(c, generator, f, history, texts, maxEntries);
    AppendAssociates(history, missing, Found(filled, texts, maxEntries));
    ReadMore(filled, history + missing, texts, maxEntries, history + (missing + Found(filled, texts, maxEntries)));
  }

  lemma ReadMore(filled: Cache, before: seq<string>, texts: seq<string>, maxEntries: int, after: seq<string>)
    requires HoldsRecent(filled, before, maxEntries)
    requires after == before + Found(filled, texts, maxEntries)
    ensures HoldsRecent(ReadAll(filled, texts, maxEntries), after, maxEntries)
  {
    ReadKeepsRecent(filled, before, texts, maxEntries);
  }

  lemma FillKeepsRecent(
    c: Cache, generator: seq<string> -> seq<Vector>, f: string -> Vector, history: seq<string>, texts: seq<string>,
    maxEntries: int
  )
    requires HoldsRecent(c, history, maxEntries) && Pointwise(generator, f)
    ensures HoldsRecent(Filled(c, generator, texts, maxEntries), history + Missing(c, texts), maxEntries)
  {
    var missing := Missing(c, texts);
    if missing != [] {
      InsertKeepsRecent(c, history, missing, generator(missing), maxEntries);
    } else {
      assert history + missing == history;
    }
  }

  lemma NewCacheHoldsRecent(f: string -> Vector, maxEntries: int)
    ensures CacheOk(Cache([], map[]), f) && HoldsRecent(Cache([], map[]), [], maxEntries)
  {
  }

  /**
   * The cache stays within its bound exactly when no empty text was touched, or fewer than maxEntries
   * different texts since.
   */
  lemma BoundKeptIff(c: Cache, history: seq<string>, maxEntries: nat)
    requires HoldsRecent(c, history, maxEntries)
    ensures "" in Recent(history) <==> "" in history
    ensures |c.keys| <= maxEntries <==> "" !in Recent(history) || FromNewest(Recent(history)) <= maxEntries
  {
    RecentDistinct(history);
  }

  /** After one empty text the cache grows by every further text, whatever its bound. */
  lemma EmptyTextBlocksEviction(texts: seq<string>, generated: seq<Vector>, maxEntries: int)
    requires Distinct(texts) && "" !in texts && |generated| == |texts| + 1
    ensures Insert(Cache([], map[]), [""] + texts, generated, maxEntries).keys == [""] + texts
  {
    var all := [""] + texts;
    DistinctConcat([""], texts);
    assert [] + all == all;
    InsertKeys(Cache([], map[]), all, generated, maxEntries);
    OnlyFirst(all);
  }

  // ---- exactly when every answer is the generator's

  // Reading touches what is cached, so it evicts nothing from a cache within its bound, or behind an
  // empty text that is not read itself.
  ghost predicate ReadsQuietly(c: Cache, texts: seq<string>, maxEntries: int) {
    |c.keys| <= maxEntries || c.keys == [] || (c.keys[0] == "" && "" !in texts)
  }

  lemma {:induction false} ReadAllStays(c: Cache, f: string -> Vector, texts: seq<string>, n: nat, maxEntries: int)
    requires CacheOk(c, f) && ReadsQuietly(c, texts, maxEntries) && n <= |texts|
    ensures
      var r := ReadAll(c, texts[..n], maxEntries);
      CacheOk(r, f) && r.vectors.Keys == c.vectors.Keys && ReadsQuietly(r, texts, maxEntries)
  {
    if n > 0 {
      ReadAllStays(c, f, texts, n - 1, maxEntries);
      assert texts[..n][..n - 1] == texts[..n - 1];
      ReadOneStays(ReadAll(c, texts[..n - 1], maxEntries), f, texts[n - 1], texts, maxEntries);
    }
  }

  lemma ReadOneStays(c: Cache, f: string -> Vector, text: string, texts: seq<string>, maxEntries: int)
    requires CacheOk(c, f) && ReadsQuietly(c, texts, maxEntries) && text in texts
    ensures CacheOk(ReadOne(c, text, maxEntries), f)
    ensures ReadOne(c, text, maxEntries).vectors.Keys == c.vectors.Keys
    ensures ReadsQuietly(ReadOne(c, text, maxEntries), texts, maxEntries)
  {
    if text in c.vectors {
      TouchOk(c, f, text, maxEntries);
      WithoutDistinct(c.keys, text);
      if |c.keys| > maxEntries {
        var rest := c.keys[1..];
        assert c.keys == [""] + rest;
        WithoutConcat([""], rest, text);
        WithoutAbsent([""], text);
        assert (Without(c.keys, text) + [text])[0] == "";
      }
    }
  }

  lemma LastIsNew(s: seq<string>, x: string)
    requires Distinct(s + [x])
    ensures Distinct(s) && x !in s
  {
    var longer := s + [x];
    forall i | 0 <= i < |s|
      ensures s[i] != x && longer[i] == s[i]
    {
      assert longer[i] != longer[|s|];
    }
  }

  /** Inserting new texts keeps what is kept of the old ones followed by them. */
  lemma {:induction false} InsertKeys(c: Cache, texts: seq<string>, generated: seq<Vector>, maxEntries: int)
    requires Distinct(c.keys + texts) && |texts| <= |generated|
    requires c.keys == Suffix(c.keys, Kept(c.keys, maxEntries))
    ensures
      var all := c.keys + texts;
      Insert(c, texts, generated, maxEntries).keys == Suffix(all, Kept(all, maxEntries))
    decreases |texts|
  {
    if texts == [] {
      assert c.keys + [] == c.keys;
    } else {
      var front, last := texts[..|texts| - 1], texts[|texts| - 1];
      var before := c.keys + front;
      assert c.keys + texts == before + [last];
      LastIsNew(before, last);
      InsertKeys(c, front, generated, maxEntries);
      TouchSuffix(Insert(c, front, generated, maxEntries), before, last, generated[|texts| - 1], maxEntries);
      WithoutAbsent(before, last);
    }
  }

  /** What is cached once the misses of a call have been inserted, oldest first. */
  function AfterMisses(c: Cache, texts: seq<string>, maxEntries: int): seq<string> {
    var all := c.keys + Missing(c, texts);
    Suffix(all, Kept(all, maxEntries))
  }

  lemma FilledKeys(
    c: Cache, generator: seq<string> -> seq<Vector>, f: string -> Vector, texts: seq<string>, maxEntries: int
  )
    requires CacheOk(c, f) && Pointwise(generator, f) && c.keys == Suffix(c.keys, Kept(c.keys, maxEntries))
    ensures Filled(c, generator, texts, maxEntries).keys == AfterMisses(c, texts, maxEntries)
  {
    var missing := Missing(c, texts);
    MissingMembers(c, texts);
    if missing == [] {
      assert c.keys + missing == c.keys;
    } else {
      DistinctConcat(c.keys, missing);
      InsertKeys(c, missing, generator(missing), maxEntries);
    }
  }

  lemma AnswerIsCached(
    c: Cache, generator: seq<string> -> seq<Vector>, f: string -> Vector, texts: seq<string>, maxEntries: int, i: nat
  )
    requires CacheOk(c, f) && Pointwise(generator, f) && i < |texts|
    requires ReadsQuietly(Filled(c, generator, texts, maxEntries), texts, maxEntries)
    ensures
      var filled := Filled(c, generator, texts, maxEntries);
      AnswerAt(filled, texts, i, maxEntries) == if texts[i] in filled.keys then f(texts[i]) else EMPTY
  {
    var filled := Filled(c, generator, texts, maxEntries);
    FilledOk(c, generator, f, texts, maxEntries);
    ReadAllStays(filled, f, texts, i, maxEntries);
    var before := ReadAll(filled, texts[..i], maxEntries);
    assert texts[i] in before.vectors.Keys <==> texts[i] in filled.vectors.Keys;
  }

  /** A cache that holds the most recent texts keeps all it holds. */
  lemma RecentIsSettled(c: Cache, history: seq<string>, maxEntries: int)
    requires HoldsRecent(c, history, maxEntries)
    ensures c.keys == Suffix(c.keys, Kept(c.keys, maxEntries))
  {
    var r := Recent(history);
    var past := r[..|r| - |c.keys|];
    assert r == past + c.keys;
    if "" in past {
      assert "" in r;
      KeepsEmptyText(r, maxEntries);
    }
    KeptOfTail(past, c.keys, maxEntries);
  }

  /** What is cached when text i is read, if all before it were found. */
  function ReadyAt(c: Cache, texts: seq<string>, i: nat, maxEntries: int): seq<string>
    requires i <= |texts|
  {
    var r := Recent(c.keys + Missing(c, texts) + texts[..i]);
    Suffix(r, Kept(r, maxEntries))
  }

  ghost predicate ReadyBefore(c: Cache, texts: seq<string>, n: nat, maxEntries: int)
    requires n <= |texts|
  {
    forall j :: 0 <= j < n ==> IsReady(c, texts, j, maxEntries)
  }

  predicate IsReady(c: Cache, texts: seq<string>, j: nat, maxEntries: int)
    requires j < |texts|
  {
    texts[j] in ReadyAt(c, texts, j, maxEntries)
  }

  lemma {:induction false} RecentOfDistinct(history: seq<string>)
    requires Distinct(history)
    ensures Recent(history) == history
    decreases |history|
  {
    if history != [] {
      var front, last := history[..|history| - 1], history[|history| - 1];
      SplitLast(history);
      RecentOfDistinct(front);
      WithoutAbsent(front, last);
    }
  }

  lemma ReadyAtStart(c: Cache, f: string -> Vector, texts: seq<string>, maxEntries: int)
    requires CacheOk(c, f)
    ensures ReadyAt(c, texts, 0, maxEntries) == AfterMisses(c, texts, maxEntries)
  {
    var all := c.keys + Missing(c, texts);
    MissingMembers(c, texts);
    DistinctConcat(c.keys, Missing(c, texts));
    RecentOfDistinct(all);
    assert all + texts[..0] == all;
  }

  lemma ReadyNext(c: Cache, now: Cache, texts: seq<string>, i: nat, maxEntries: int)
    requires i < |texts| && now.keys == ReadyAt(c, texts, i, maxEntries) && texts[i] in now.vectors
    ensures ReadOne(now, texts[i], maxEntries).keys == ReadyAt(c, texts, i + 1, maxEntries)
  {
    var history := c.keys + Missing(c, texts) + texts[..i];
    assert c.keys + Missing(c, texts) + texts[..i + 1] == history + [texts[i]];
    assert (history + [texts[i]])[..|history|] == history;
    RecentDistinct(history);
    TouchSuffix(now, Recent(history), texts[i], now.vectors[texts[i]], maxEntries);
  }

  lemma {:induction false} ReadyIsCached(
    c: Cache, generator: seq<string> -> seq<Vector>, f: string -> Vector, texts: seq<string>, maxEntries: int, n: nat
  )
    requires CacheOk(c, f) && Pointwise(generator, f) && c.keys == Suffix(c.keys, Kept(c.keys, maxEntries))
    requires n <= |texts| && ReadyBefore(c, texts, n, maxEntries)
    ensures
      var now := ReadAll(Filled(c, generator, texts, maxEntries), texts[..n], maxEntries);
      CacheOk(now, f) && now.keys == ReadyAt(c, texts, n, maxEntries)
  {
    var filled := Filled(c, generator, texts, maxEntries);
    FilledOk(c, generator, f, texts, maxEntries);
    ReadAllKeepsOk(filled, f, texts[..n], maxEntries);
    if n == 0 {
      FilledKeys(c, generator, f, texts, maxEntries);
      ReadyAtStart(c, f, texts, maxEntries);
    } else {
      ReadyIsCached(c, generator, f, texts, maxEntries, n - 1);
      assert texts[..n][..n - 1] == texts[..n - 1] && IsReady(c, texts, n - 1, maxEntries);
      ReadyNext(c, ReadAll(filled, texts[..n - 1], maxEntries), texts, n - 1, maxEntries);
    }
  }

  ghost predicate AnsweredBefore(
    c: Cache, generator: seq<string> -> seq<Vector>, f: string -> Vector, texts: seq<string>, maxEntries: int, n: nat
  )
    requires n <= |texts|
  {
    forall j :: 0 <= j < n ==> IsAnswered(c, generator, f, texts, maxEntries, j)
  }

  predicate IsAnswered(
    c: Cache, generator: seq<string> -> seq<Vector>, f: string -> Vector, texts: seq<string>, maxEntries: int, j: nat
  )
    requires j < |texts|
  {
    AnswerAt(Filled(c, generator, texts, maxEntries), texts, j, maxEntries) == f(texts[j])
  }

  lemma AnsweredIfReady(
    c: Cache, generator: seq<string> -> seq<Vector>, f: string -> Vector, texts: seq<string>, maxEntries: int, j: nat
  )
    requires j < |texts| && CacheOk(c, f) && Pointwise(generator, f) && f(texts[j]) != EMPTY
    requires c.keys == Suffix(c.keys, Kept(c.keys, maxEntries))
    requires ReadyBefore(c, texts, j, maxEntries)
    ensures IsAnswered(c, generator, f, texts, maxEntries, j) <==> IsReady(c, texts, j, maxEntries)
  {
    ReadyIsCached(c, generator, f, texts, maxEntries, j);
  }

  lemma {:induction false} ReadyIfAnswered(
    c: Cache, generator: seq<string> -> seq<Vector>, f: string -> Vector, texts: seq<string>, maxEntries: int, n: nat
  )
    requires CacheOk(c, f) && Pointwise(generator, f) && forall t :: f(t) != EMPTY
    requires c.keys == Suffix(c.keys, Kept(c.keys, maxEntries)) && n <= |texts|
    requires AnsweredBefore(c, generator, f, texts, maxEntries, n)
    ensures ReadyBefore(c, texts, n, maxEntries)
  {
    if n > 0 {
      ReadyIfAnswered(c, generator, f, texts, maxEntries, n - 1);
      AnsweredIfReady(c, generator, f, texts, maxEntries, n - 1);
      assert IsAnswered(c, generator, f, texts, maxEntries, n - 1);
    }
  }

  lemma AllReadyAnswered(
    c: Cache, generator: seq<string> -> seq<Vector>, f: string -> Vector, texts: seq<string>, maxEntries: int, n: nat
  )
    requires CacheOk(c, f) && Pointwise(generator, f) && forall t :: f(t) != EMPTY
    requires c.keys == Suffix(c.keys, Kept(c.keys, maxEntries)) && n <= |texts|
    requires ReadyBefore(c, texts, n, maxEntries)
    ensures AnsweredBefore(c, generator, f, texts, maxEntries, n)
  {
    forall j | 0 <= j < n
      ensures IsAnswered(c, generator, f, texts, maxEntries, j)
    {
      AnsweredIfReady(c, generator, f, texts, maxEntries, j);
      assert IsReady(c, texts, j, maxEntries);
    }
  }

  /**
   * The first n answers of a call are the generator's exactly when each text is cached when its turn
   * comes: among what is kept of the cached texts, the misses and the texts read before it.
   */
  lemma AnsweredIffReady(
    c: Cache, generator: seq<string> -> seq<Vector>, f: string -> Vector, texts: seq<string>, maxEntries: int, n: nat
  )
    requires CacheOk(c, f) && Pointwise(generator, f) && forall t :: f(t) != EMPTY
    requires c.keys == Suffix(c.keys, Kept(c.keys, maxEntries)) && n <= |texts|
    ensures AnsweredBefore(c, generator, f, texts, maxEntries, n) <==> ReadyBefore(c, texts, n, maxEntries)
  {
    if AnsweredBefore(c, generator, f, texts, maxEntries, n) {
      ReadyIfAnswered(c, generator, f, texts, maxEntries, n);
    } else if ReadyBefore(c, texts, n, maxEntries) {
      AllReadyAnswered(c, generator, f, texts, maxEntries, n);
    }
  }

  /**
   * All answers of a call are the generator's exactly when each text asked for is among those cached
   * after the misses: the newest maxEntries of the cached texts followed by the misses.
   */
  lemma AllAnsweredIff(
    c: Cache, generator: seq<string> -> seq<Vector>, f: string -> Vector, texts: seq<string>, maxEntries: int
  )
    requires CacheOk(c, f) && Pointwise(generator, f) && forall t :: f(t) != EMPTY
    requires c.keys == Suffix(c.keys, Kept(c.keys, maxEntries))
    requires |AfterMisses(c, texts, maxEntries)| <= maxEntries || "" !in texts
    ensures
      var filled := Filled(c, generator, texts, maxEntries);
      (forall i :: 0 <= i < |texts| ==> AnswerAt(filled, texts, i, maxEntries) == f(texts[i])) <==>
      (forall i :: 0 <= i < |texts| ==> texts[i] in AfterMisses(c, texts, maxEntries))
  {
    var filled := Filled(c, generator, texts, maxEntries);
    FilledKeys(c, generator, f, texts, maxEntries);
    FilledOk(c, generator, f, texts, maxEntries);
    OverfullStartsEmpty(c.keys + Missing(c, texts), maxEntries);
    forall i | 0 <= i < |texts|
      ensures AnswerAt(filled, texts, i, maxEntries) == f(texts[i]) <==> texts[i] in AfterMisses(c, texts, maxEntries)
    {
      AnswerIsCached(c, generator, f, texts, maxEntries, i);
    }
  }

  // More than maxEntries are kept only behind an empty text.
  lemma OverfullStartsEmpty(r: seq<string>, maxEntries: int)
    ensures
      var k := Suffix(r, Kept(r, maxEntries));
      |k| <= maxEntries || k == [] || k[0] == ""
  {
  }

  /** If the cached texts and the misses fit together, every answer is the generator's. */
  lemma RoomForAll(
    c: Cache, generator: seq<string> -> seq<Vector>, f: string -> Vector, texts: seq<string>, maxEntries: int, i: nat
  )
    requires CacheOk(c, f) && Pointwise(generator, f) && i < |texts|
    requires |c.keys| + |Missing(c, texts)| <= maxEntries
    ensures AnswerAt(Filled(c, generator, texts, maxEntries), texts, i, maxEntries) == f(texts[i])
  {
    FilledKeys(c, generator, f, texts, maxEntries);
    MissingMembers(c, texts);
    AnswerIsCached(c, generator, f, texts, maxEntries, i);
  }

  /** Room for the texts of one call is not enough: a cached one can be evicted before it is read. */
  lemma HitEvictedByMiss(f: string -> Vector)
    ensures
      var c := Cache(["a", "b"], map["a" := f("a"), "b" := f("b")]);
      var generator := (texts: seq<string>) => MapTexts(f, texts);
      AnswerAt(Filled(c, generator, ["a", "c"], 2), ["a", "c"], 0, 2) == EMPTY
  {
    var c := Cache(["a", "b"], map["a" := f("a"), "b" := f("b")]);
    var generator := (texts: seq<string>) => MapTexts(f, texts);
    var texts := ["a", "c"];
    assert texts[..1] == ["a"] && ["a"][..0] == [];
    assert Missing(c, ["a"]) == [];
    assert Missing(c, texts) == ["c"];
    var all := c.keys + Missing(c, texts);
    assert all == ["a", "b", "c"] && Suffix(all, 2) == ["b", "c"];
    FilledKeys(c, generator, f, texts, 2);
    AnswerIsCached(c, generator, f, texts, 2, 0);
  }
}
