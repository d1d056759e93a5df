/**
 * The balanced-JSON scanner (src/core/playbook.ts): one pass, aware of strings and escapes, that
 * counts only the outer kind of bracket. The texts it is meant to recover are those of the JSON
 * grammar (sections 4, 5 and 7 of RFC 8259), given here as concrete syntax trees.
 */
module BalancedJson {
  import opened Wrappers

  // ---- JSON texts

  /** One element of a string literal: a plain character, a two-character escape, or \uXXXX. */
  datatype Unit = Plain(c: char) | Escape(c: char) | Hex(h1: char, h2: char, h3: char, h4: char)

  /** A JSON text with its white space: numbers, true, false and null are scalars. */
  datatype Json =
    | Scalar(text: string)
    | Text(units: seq<Unit>)
    | Array(pad: string, items: Items)
    | Object(pad: string, members: Members)

  datatype Items = NoItems | Item(before: string, value: Json, after: string, rest: Items)

  datatype Members =
    | NoMembers
    | Member(before: string, name: seq<Unit>, beforeColon: string, afterColon: string, value: Json, after: string,
             rest: Members)

  /** Characters that mean nothing to the scanner outside strings; scalars and white space hold no others. */
  predicate Inert(s: string) {
    forall c :: c in s ==> c != '"' && c != '{' && c != '}' && c != '[' && c != ']'
  }

  predicate ValidUnit(u: Unit) {
    match u
    case Plain(c) => c != '"' && c != '\\'
    case Escape(_) => true
    case Hex(a, b, c, d) => forall x :: x in [a, b, c, d] ==> x != '"' && x != '\\'
  }

  predicate ValidUnits(us: seq<Unit>) {
    forall u :: u in us ==> ValidUnit(u)
  }

  predicate Valid(v: Json) {
    match v
    case Scalar(t) => Inert(t)
    case Text(us) => ValidUnits(us)
    case Array(pad, items) => Inert(pad) && ValidItems(items)
    case Object(pad, members) => Inert(pad) && ValidMembers(members)
  }

  predicate ValidItems(items: Items) {
    match items
    case NoItems => true
    case Item(before, v, after, rest) => Inert(before) && Valid(v) && Inert(after) && ValidItems(rest)
  }

  predicate ValidMembers(members: Members) {
    match members
    case NoMembers => true
    case Member(before, name, b, a, v, after, rest) =>
      Inert(before) && ValidUnits(name) && Inert(b) && Inert(a) && Valid(v) && Inert(after) && ValidMembers(rest)
  }

  // ---- printing

  function PrintUnit(u: Unit): string {
    match u
    case Plain(c) => [c]
    case Escape(c) => ['\\', c]
    case Hex(a, b, c, d) => ['\\', 'u', a, b, c, d]
  }

  function PrintUnits(us: seq<Unit>): string {
    if us == [] then "" else PrintUnit(us[0]) + PrintUnits(us[1..])
  }

  function Quoted(us: seq<Unit>): string {
    "\"" + PrintUnits(us) + "\""
  }

  function Print(v: Json): string {
    match v
    case Scalar(t) => t
    case Text(us) => Quoted(us)
    case Array(pad, items) => "[" + (pad + PrintItems(items, true)) + "]"
    case Object(pad, members) => "{" + (pad + PrintMembers(members, true)) + "}"
  }

  function Separator(first: bool): string {
    if first then "" else ","
  }

  function PrintItems(items: Items, first: bool): string {
    match items
    case NoItems => ""
    case Item(before, v, after, rest) =>
      (Separator(first) + before) + (Print(v) + (after + PrintItems(rest, false)))
  }

  function PrintMembers(members: Members, first: bool): string {
    match members
    case NoMembers => ""
    case Member(before, name, b, a, v, after, rest) =>
      (Separator(first) + before) + (Quoted(name) + ((b + ":" + a) + (Print(v) + (after + PrintMembers(rest, false)))))
  }

  /** A string as it is printed: with a bracket, an escaped quote and a code in it. */
  lemma PrintedText()
    ensures
      var v := Text([Plain('}'), Escape('"'), Hex('0', '0', 'e', '9')]);
      Valid(v) && Print(v) == "\"}\\\"\\u00e9\""
  {
    PrintOfThree(Plain('}'), Escape('"'), Hex('0', '0', 'e', '9'));
  }

  /** Each item but the first is printed after a comma. */
  lemma PrintedItem(b: string, v: Json, a: string, rest: Items, first: bool)
    ensures PrintItems(Item(b, v, a, rest), first) ==
      (if first then "" else ",") + b + Print(v) + a + PrintItems(rest, false)
  {
    var separator := if first then "" else ",";
    JoinFour(separator + b, Print(v), a, PrintItems(rest, false));
  }

  /** Each member but the first is printed after a comma, with its name in quotes and a colon before its value. */
  lemma PrintedMember(
    b: string, name: seq<Unit>, c: string, d: string, v: Json, a: string, rest: Members, first: bool
  )
    ensures PrintMembers(Member(b, name, c, d, v, a, rest), first) ==
      (if first then "" else ",") + b + ("\"" + PrintUnits(name) + "\"") + (c + ":" + d) + Print(v) + a
      + PrintMembers(rest, false)
  {
    var separator, quoted := if first then "" else ",", "\"" + PrintUnits(name) + "\"";
    var tail := PrintMembers(rest, false);
    JoinFour(c + ":" + d, Print(v), a, tail);
    JoinFour(separator + b, quoted, c + ":" + d, Print(v) + (a + tail));
    JoinFour(separator + b + quoted + (c + ":" + d), Print(v), a, tail);
  }

  lemma JoinFour(a: string, b: string, c: string, d: string)
    ensures a + (b + (c + d)) == a + b + c + d
  {
  }

  lemma PrintOfOne(u: Unit)
    ensures PrintUnits([u]) == PrintUnit(u)
  {
    assert [u][1..] == [];
  }

  lemma PrintOfThree(a: Unit, b: Unit, c: Unit)
    ensures PrintUnits([a, b, c]) == PrintUnit(a) + PrintUnit(b) + PrintUnit(c)
  {
    PrintOfOne(c);
    assert [a, b, c][1..] == [b, c] && [b, c][1..] == [c];
    assert PrintUnits([b, c]) == PrintUnit(b) + PrintUnit(c);
  }

  // ---- the scanner as a machine

  datatype Brackets = Brackets(opening: char, closing: char)

  const CURLY := Brackets('{', '}')
  const SQUARE := Brackets('[', ']')

  datatype Scan = Scan(depth: int, inString: bool, escaped: bool)

  /** What scanning a text leads to: still going, or finished after so many characters. */
  datatype Fed = Going(state: Scan) | Done(count: nat)

  predicate Finishes(k: Brackets, st: Scan, c: char) {
    !st.inString && c != '"' && c != k.opening && c == k.closing && st.depth - 1 == 0
  }

  function Step(k: Brackets, st: Scan, c: char): Scan {
    if st.inString then
      if st.escaped then st.(escaped := false)
      else if c == '\\' then st.(escaped := true)
      else if c == '"' then st.(inString := false)
      else st
    else if c == '"' then st.(inString := true)
    else if c == k.opening then st.(depth := st.depth + 1)
    else if c == k.closing then st.(depth := st.depth - 1)
    else st
  }

  function Shift(r: Fed, n: nat): Fed {
    match r
    case Going(st) => Going(st)
    case Done(m) => Done(m + n)
  }

  function Feed(k: Brackets, st: Scan, s: string): (r: Fed)
    ensures r.Done? ==> r.count <= |s|
    decreases |s|
  {
    if s == [] then Going(st)
    else if Finishes(k, st, s[0]) then Done(1)
    else Shift(Feed(k, Step(k, st, s[0]), s[1..]), 1)
  }

  /** Position of the first bracket, or the length of the text. */
  function FirstBracket(text: string): (i: nat)
    ensures i <= |text|
    ensures i < |text| ==> text[i] == '{' || text[i] == '['
    ensures forall j :: 0 <= j < i ==> text[j] != '{' && text[j] != '['
  {
    if text == [] || text[0] == '{' || text[0] == '[' then 0 else 1 + FirstBracket(text[1..])
  }

  function KindOf(c: char): Brackets {
    if c == '{' then CURLY else SQUARE
  }

  const START := Scan(0, false, false)

  /** The part of a text that a finished scan has covered. */
  function Covered(r: Fed, text: string): Option<string> {
    if r.Done? && r.count <= |text| then Some(text[..r.count]) else None
  }

  /** The scanner's result. */
  function Extract(text: string): Option<string> {
    var i := FirstBracket(text);
    if i == |text| then None else Covered(Feed(KindOf(text[i]), START, text[i..]), text[i..])
  }

  lemma FirstBracketAt(text: string, i: nat)
    requires i <= |text| && (i < |text| ==> text[i] == '{' || text[i] == '[')
    requires forall j :: 0 <= j < i ==> text[j] != '{' && text[j] != '['
    ensures FirstBracket(text) == i
  {
  }

  method ExtractBalancedJson(text: string) returns (r: Option<string>)
    ensures r == Extract(text)
  {
    var startIndex := -1;
    var k := SQUARE;
    var i := 0;
    while i < |text|
      invariant 0 <= i <= |text| && startIndex == -1
      invariant forall j :: 0 <= j < i ==> text[j] != '{' && text[j] != '['
    {
      if text[i] == '{' || text[i] == '[' {
        startIndex := i;
        k := if text[i] == '{' then Brackets('{', '}') else Brackets('[', ']');
        break;
      }
      i := i + 1;
    }
    FirstBracketAt(text, i);
    if startIndex == -1 {
      return None;
    }
    r := ScanFrom(text, startIndex, k);
  }

  /** The second loop: from the first bracket to the one that closes it. */
  method ScanFrom(text: string, startIndex: nat, k: Brackets) returns (r: Option<string>)
    requires startIndex <= |text|
    ensures r == Covered(Feed(k, START, text[startIndex..]), text[startIndex..])
  {
    var depth, inString, escaped := 0, false, false;
    var i := startIndex;
    while i < |text|
      invariant startIndex <= i <= |text|
      invariant Feed(k, START, text[startIndex..]) ==
        Shift(Feed(k, Scan(depth, inString, escaped), text[i..]), i - startIndex)
    {
      var c := text[i];
      ghost var st := Scan(depth, inString, escaped);
      assert text[i..][0] == c && text[i..][1..] == text[i + 1..];
      if inString {
        if escaped {
          escaped := false;
        } else if c == '\\' {
          escaped := true;
        } else if c == '"' {
          inString := false;
        }
      } else if c == '"' {
        inString := true;
      } else if c == k.opening {
        depth := depth + 1;
      } else if c == k.closing {
        depth := depth - 1;
        if depth == 0 {
          assert text[startIndex..][..i + 1 - startIndex] == text[startIndex..i + 1];
          return Some(text[startIndex..i + 1]);
        }
      }
      assert Scan(depth, inString, escaped) == Step(k, st, c);
      i := i + 1;
    }
    r := None;
  }

  // ---- feeding pieces

  /** Going on with b after a scan of n characters. */
  function Continue(k: Brackets, r: Fed, b: string, n: nat): Fed {
    if r.Done? then r else Shift(Feed(k, r.state, b), n)
  }

  lemma {:induction false} FeedConcat(k: Brackets, st: Scan, a: string, b: string)
    ensures Feed(k, st, a + b) == Continue(k, Feed(k, st, a), b, |a|)
    decreases |a|
  {
    if a == [] {
      assert a + b == b;
    } else {
      assert (a + b)[0] == a[0] && (a + b)[1..] == a[1..] + b;
      FeedConcat(k, Step(k, st, a[0]), a[1..], b);
    }
  }

  // The text leaves the scanner where it was: outside strings, at depth d.
  ghost predicate Neutral(k: Brackets, d: int, s: string) {
    Feed(k, Scan(d, false, false), s) == Going(Scan(d, false, false))
  }

  lemma NeutralConcat(k: Brackets, d: int, a: string, b: string)
    requires Neutral(k, d, a) && Neutral(k, d, b)
    ensures Neutral(k, d, a + b)
  {
    FeedConcat(k, Scan(d, false, false), a, b);
  }

  predicate IsKind(k: Brackets) {
    k == CURLY || k == SQUARE
  }

  lemma {:induction false} InertNeutral(k: Brackets, d: int, s: string)
    requires IsKind(k) && Inert(s)
    ensures Neutral(k, d, s)
    decreases |s|
  {
    if s != [] {
      assert s[0] in s;
      assert forall c :: c in s[1..] ==> c in s;
      InertNeutral(k, d, s[1..]);
    }
  }

  lemma {:induction false} UnitsStayInString(k: Brackets, d: int, us: seq<Unit>)
    requires ValidUnits(us)
    ensures Feed(k, Scan(d, true, false), PrintUnits(us)) == Going(Scan(d, true, false))
    decreases |us|
  {
    if us != [] {
      UnitStaysInString(k, d, us[0]);
      UnitsStayInString(k, d, us[1..]);
      FeedConcat(k, Scan(d, true, false), PrintUnit(us[0]), PrintUnits(us[1..]));
    }
  }

  lemma {:induction false} PlainInString(k: Brackets, d: int, s: string)
    requires forall c :: c in s ==> c != '"' && c != '\\'
    ensures Feed(k, Scan(d, true, false), s) == Going(Scan(d, true, false))
    decreases |s|
  {
    if s != [] {
      assert s[0] in s;
      assert forall c :: c in s[1..] ==> c in s;
      PlainInString(k, d, s[1..]);
    }
  }

  lemma EscapeInString(k: Brackets, d: int, c: char)
    ensures Feed(k, Scan(d, true, false), ['\\', c]) == Going(Scan(d, true, false))
  {
    assert ['\\', c][1..] == [c];
    assert Feed(k, Scan(d, true, true), [c]) == Going(Scan(d, true, false));
  }

  lemma UnitStaysInString(k: Brackets, d: int, u: Unit)
    requires ValidUnit(u)
    ensures Feed(k, Scan(d, true, false), PrintUnit(u)) == Going(Scan(d, true, false))
  {
    match u
    case Plain(c) => PlainInString(k, d, [c]);
    case Escape(c) => EscapeInString(k, d, c);
    case Hex(h1, h2, h3, h4) =>
      EscapeInString(k, d, 'u');
      PlainInString(k, d, [h1, h2, h3, h4]);
      FeedConcat(k, Scan(d, true, false), ['\\', 'u'], [h1, h2, h3, h4]);
      assert ['\\', 'u'] + [h1, h2, h3, h4] == PrintUnit(u);
  }

  lemma QuotedNeutral(k: Brackets, d: int, us: seq<Unit>)
    requires IsKind(k) && ValidUnits(us)
    ensures Neutral(k, d, Quoted(us))
  {
    var out, inside := Scan(d, false, false), Scan(d, true, false);
    UnitsStayInString(k, d, us);
    assert Feed(k, out, "\"") == Going(inside);
    assert Feed(k, inside, "\"") == Going(out);
    FeedConcat(k, out, "\"", PrintUnits(us));
    FeedConcat(k, out, "\"" + PrintUnits(us), "\"");
  }

  /** A bracketed body at depth d >= 1 is neutral when its inside is neutral one level deeper and at d. */
  lemma BracketedNeutral(k: Brackets, own: Brackets, d: int, body: string)
    requires IsKind(k) && IsKind(own) && d >= 1
    requires Neutral(k, d, body) && Neutral(k, d + 1, body)
    ensures Neutral(k, d, [own.opening] + body + [own.closing])
  {
    var st := Scan(d, false, false);
    var inner := if k == own then Scan(d + 1, false, false) else st;
    assert Feed(k, st, [own.opening]) == Going(inner);
    assert Feed(k, inner, [own.closing]) == Going(st);
    FeedConcat(k, st, [own.opening], body);
    FeedConcat(k, st, [own.opening] + body, [own.closing]);
  }

  lemma SeparatorInert(first: bool, before: string)
    requires Inert(before)
    ensures Inert(Separator(first) + before)
  {
  }

  /** Any value inside an open bracket leaves the scanner's depth unchanged. */
  lemma {:induction false} ValueNeutral(k: Brackets, d: int, v: Json)
    requires IsKind(k) && d >= 1 && Valid(v)
    ensures Neutral(k, d, Print(v))
    decreases v, 1
  {
    match v
    case Scalar(t) => InertNeutral(k, d, t);
    case Text(us) => QuotedNeutral(k, d, us);
    case Array(pad, items) =>
      ArrayBodyNeutral(k, d, pad, items);
      ArrayBodyNeutral(k, d + 1, pad, items);
      BracketedNeutral(k, SQUARE, d, pad + PrintItems(items, true));
    case Object(pad, members) =>
      ObjectBodyNeutral(k, d, pad, members);
      ObjectBodyNeutral(k, d + 1, pad, members);
      BracketedNeutral(k, CURLY, d, pad + PrintMembers(members, true));
  }

  lemma {:induction false} ArrayBodyNeutral(k: Brackets, d: int, pad: string, items: Items)
    requires IsKind(k) && d >= 1 && Inert(pad) && ValidItems(items)
    ensures Neutral(k, d, pad + PrintItems(items, true))
    decreases items, 1
  {
    InertNeutral(k, d, pad);
    ItemsNeutral(k, d, items, true);
    NeutralConcat(k, d, pad, PrintItems(items, true));
  }

  lemma {:induction false} ObjectBodyNeutral(k: Brackets, d: int, pad: string, members: Members)
    requires IsKind(k) && d >= 1 && Inert(pad) && ValidMembers(members)
    ensures Neutral(k, d, pad + PrintMembers(members, true))
    decreases members, 1
  {
    InertNeutral(k, d, pad);
    MembersNeutral(k, d, members, true);
    NeutralConcat(k, d, pad, PrintMembers(members, true));
  }

  lemma {:induction false} ItemsNeutral(k: Brackets, d: int, items: Items, first: bool)
    requires IsKind(k) && d >= 1 && ValidItems(items)
    ensures Neutral(k, d, PrintItems(items, first))
    decreases items, 0
  {
    match items
    case NoItems =>
    case Item(before, v, after, rest) =>
      ItemsNeutral(k, d, rest, false);
      ValueNeutral(k, d, v);
      InertNeutral(k, d, after);
      SeparatorInert(first, before);
      InertNeutral(k, d, Separator(first) + before);
      NeutralConcat(k, d, after, PrintItems(rest, false));
      NeutralConcat(k, d, Print(v), after + PrintItems(rest, false));
      NeutralConcat(k, d, Separator(first) + before, Print(v) + (after + PrintItems(rest, false)));
  }

  lemma {:induction false} MembersNeutral(k: Brackets, d: int, members: Members, first: bool)
    requires IsKind(k) && d >= 1 && ValidMembers(members)
    ensures Neutral(k, d, PrintMembers(members, first))
    decreases members, 0
  {
    match members
    case NoMembers =>
    case Member(before, name, b, a, v, after, rest) =>
      MembersNeutral(k, d, rest, false);
      ValueNeutral(k, d, v);
      QuotedNeutral(k, d, name);
      InertNeutral(k, d, after);
      SeparatorInert(first, before);
      InertNeutral(k, d, Separator(first) + before);
      InertNeutral(k, d, b + ":" + a);
      var tail := after + PrintMembers(rest, false);
      NeutralConcat(k, d, after, PrintMembers(rest, false));
      NeutralConcat(k, d, Print(v), tail);
      NeutralConcat(k, d, b + ":" + a, Print(v) + tail);
      NeutralConcat(k, d, Quoted(name), (b + ":" + a) + (Print(v) + tail));
      NeutralConcat(k, d, Separator(first) + before, Quoted(name) + ((b + ":" + a) + (Print(v) + tail)));
  }

  // ---- the scanner inverts the printer

  predicate IsContainer(v: Json) {
    v.Array? || v.Object?
  }

  lemma BodyThenClose(k: Brackets, body: string)
    requires IsKind(k) && Neutral(k, 1, body)
    ensures Feed(k, START, [k.opening] + body) == Going(Scan(1, false, false))
    ensures Feed(k, START, [k.opening] + body + [k.closing]) == Done(|body| + 2)
  {
    var open := Scan(1, false, false);
    assert Feed(k, START, [k.opening]) == Going(open);
    assert Feed(k, open, [k.closing]) == Done(1);
    FeedConcat(k, START, [k.opening], body);
    FeedConcat(k, START, [k.opening] + body, [k.closing]);
  }

  /** Scanning an object or array from its opening bracket ends exactly at its last character. */
  lemma ContainerFed(v: Json)
    requires IsContainer(v) && Valid(v)
    ensures Print(v) != [] && Print(v)[0] in "{["
    ensures Feed(KindOf(Print(v)[0]), START, Print(v)) == Done(|Print(v)|)
  {
    match v
    case Array(pad, items) =>
      ArrayBodyNeutral(SQUARE, 1, pad, items);
      BodyThenClose(SQUARE, pad + PrintItems(items, true));
    case Object(pad, members) =>
      ObjectBodyNeutral(CURLY, 1, pad, members);
      BodyThenClose(CURLY, pad + PrintMembers(members, true));
  }

  predicate NoBracket(s: string) {
    forall c :: c in s ==> c != '{' && c != '['
  }

  lemma StartsAfterPrefix(prefix: string, rest: string)
    requires NoBracket(prefix) && rest != [] && rest[0] in "{["
    ensures FirstBracket(prefix + rest) == |prefix|
    ensures (prefix + rest)[|prefix|..] == rest && (prefix + rest)[|prefix|] == rest[0]
  {
    var text := prefix + rest;
    assert forall j :: 0 <= j < |prefix| ==> text[j] in prefix;
    FirstBracketAt(text, |prefix|);
  }

  /**
   * Whatever surrounds it, the scanner recovers exactly the object or array that was printed,
   * provided no bracket comes before it.
   */
  lemma ScannerInvertsPrinter(prefix: string, v: Json, suffix: string)
    requires NoBracket(prefix) && IsContainer(v) && Valid(v)
    ensures Extract(prefix + Print(v) + suffix) == Some(Print(v))
  {
    var rest := Print(v) + suffix;
    ContainerFed(v);
    assert rest[0] == Print(v)[0];
    assert prefix + Print(v) + suffix == prefix + rest;
    StartsAfterPrefix(prefix, rest);
    FeedConcat(KindOf(rest[0]), START, Print(v), suffix);
    assert rest[..|Print(v)|] == Print(v);
  }

  /** A text cut off before its last bracket yields nothing: the scanner never stops early. */
  lemma TruncatedYieldsNothing(prefix: string, v: Json, n: nat)
    requires NoBracket(prefix) && IsContainer(v) && Valid(v) && n < |Print(v)|
    ensures Extract(prefix + Print(v)[..n]) == None
  {
    var whole, part := Print(v), Print(v)[..n];
    ContainerFed(v);
    if n == 0 {
      assert prefix + part == prefix;
      assert forall j :: 0 <= j < |prefix| ==> prefix[j] in prefix;
      FirstBracketAt(prefix, |prefix|);
    } else {
      assert part[0] == whole[0];
      StartsAfterPrefix(prefix, part);
      assert whole == part + whole[n..];
      FeedConcat(KindOf(whole[0]), START, part, whole[n..]);
    }
  }

  // ---- brackets of the other kind

  predicate IsOther(k: Brackets, c: char) {
    if k == CURLY then c == '[' || c == ']' else c == '{' || c == '}'
  }

  // The same end of the scan, one character later.
  function OneLater(r: Fed): Fed {
    match r
    case Going(st) => Going(st)
    case Done(n) => Done(n + 1)
  }

  /** A bracket of the other kind put into a text, not straight after a backslash, only shifts the end. */
  lemma OtherKindFeeds(k: Brackets, st: Scan, a: string, c: char, b: string)
    requires IsKind(k) && IsOther(k, c) && Feed(k, st, a).Going? && !Feed(k, st, a).state.escaped
    ensures Feed(k, st, a + ([c] + b)) == OneLater(Feed(k, st, a + b))
  {
    var now := Feed(k, st, a).state;
    assert Feed(k, now, [c]) == Going(now);
    FeedConcat(k, st, a, [c] + b);
    FeedConcat(k, now, [c], b);
    FeedConcat(k, st, a, b);
  }

  /**
   * Once a value has been opened, brackets of the other kind never matter, in strings or out: with one
   * put in the scanner finds the same value, with the bracket in it, or nothing as before.
   */
  lemma OtherKindIgnored(prefix: string, a: string, c: char, b: string)
    requires NoBracket(prefix) && a != [] && a[0] in "{[" && IsOther(KindOf(a[0]), c)
    requires Feed(KindOf(a[0]), START, a).Going? && !Feed(KindOf(a[0]), START, a).state.escaped
    ensures
      var r, longer := Extract(prefix + (a + b)), Extract(prefix + (a + ([c] + b)));
      if r == None then longer == None else a <= r.value && longer == Some(a + ([c] + r.value[|a|..]))
  {
    var k := KindOf(a[0]);
    assert (a + b)[0] == a[0] && (a + ([c] + b))[0] == a[0];
    ExtractAfter(prefix, a + b);
    ExtractAfter(prefix, a + ([c] + b));
    OtherKindFeeds(k, START, a, c, b);
    EndsAfter(k, a, b);
    CoversOneMore(Feed(k, START, a + b), a, c, b);
  }

  lemma ExtractAfter(prefix: string, rest: string)
    requires NoBracket(prefix) && rest != [] && rest[0] in "{["
    ensures Extract(prefix + rest) == Covered(Feed(KindOf(rest[0]), START, rest), rest)
  {
    StartsAfterPrefix(prefix, rest);
  }

  lemma EndsAfter(k: Brackets, a: string, b: string)
    requires Feed(k, START, a).Going?
    ensures Feed(k, START, a + b).Done? ==> |a| <= Feed(k, START, a + b).count <= |a| + |b|
  {
    FeedConcat(k, START, a, b);
  }

  lemma CoversOneMore(end: Fed, a: string, c: char, b: string)
    requires end.Done? ==> |a| <= end.count <= |a| + |b|
    ensures
      var r, longer := Covered(end, a + b), Covered(OneLater(end), a + ([c] + b));
      if r == None then longer == None else a <= r.value && longer == Some(a + ([c] + r.value[|a|..]))
  {
    if end.Done? {
      assert (a + ([c] + b))[..end.count + 1] == a + ([c] + (a + b)[..end.count][|a|..]);
    }
  }

  /** So the scanner accepts a text that is not JSON. */
  lemma MismatchAccepted()
    ensures Extract("{]}") == Some("{]}")
  {
    assert Feed(CURLY, START, "{") == Going(Scan(1, false, false));
    assert Feed(CURLY, Scan(1, false, false), "}") == Done(1);
    FeedConcat(CURLY, START, "{", "}");
    ExtractAfter("", "{}");
    assert "{" + "}" == "{}" && "" + "{}" == "{}" && "{}"[..2] == "{}";
    OtherKindIgnored("", "{", ']', "}");
    assert "{}"[|"{"|..] == "}" && "{" + ("]" + "}") == "{]}" && "" + "{]}" == "{]}" && [']'] == "]";
  }
}
