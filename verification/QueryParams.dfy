/**
 The two query-string parsers: metadata/src/fcgi_util.cc, which looks for "name=", and
 blockcache/http_helper.cpp, which looks for the bare name.
 */
module QueryParams {
  import opened Basics

  // ---------------------------------------------------- std::string::find

  predicate Occurs(s: string, pat: string, i: int) {
    0 <= i && i + |pat| <= |s| && forall d | 0 <= d < |pat| :: s[i + d] == pat[d]
  }

  /** The first occurrence at or after `from`, or -1 for npos. */
  function FindFrom(s: string, pat: string, from: nat): (r: int)
    ensures r == -1 || from <= r <= |s| - |pat|
    decreases |s| - from
  {
    if from + |pat| > |s| then -1
    else if Occurs(s, pat, from) then from
    else FindFrom(s, pat, from + 1)
  }

  /** What both parsers do once the name is found at p; npos + 1 is 0. */
  function ValueAfter(s: string, p: nat): string {
    var valuePos := FindFrom(s, "=", p) + 1;
    var nextParam := FindFrom(s, "&", valuePos);
    if nextParam == -1 then s[valuePos..] else s[valuePos..nextParam]
  }

  /** metadata/src/fcgi_util.cc */
  function GetQueryParam(query: string, param: string): Option<string> {
    var p := FindFrom(query, param + "=", 0);
    if p == -1 then None else Some(ValueAfter(query, p))
  }

  /** blockcache/http_helper.cpp */
  function GetCacheParam(query: string, param: string): Option<string> {
    var p := FindFrom(query, param, 0);
    if p == -1 then None else Some(ValueAfter(query, p))
  }

  // -------------------------------------------------------- query strings

  datatype Pair = Pair(key: string, value: string)

  predicate Plain(x: string) {
    '=' !in x && '&' !in x
  }

  predicate PlainPair(pair: Pair) {
    Plain(pair.key) && Plain(pair.value)
  }

  predicate AllPlain(pairs: seq<Pair>) {
    forall i | 0 <= i < |pairs| :: PlainPair(pairs[i])
  }

  /** k=v&k=v... */
  function Render(pairs: seq<Pair>): string {
    if pairs == [] then ""
    else if |pairs| == 1 then pairs[0].key + "=" + pairs[0].value
    else pairs[0].key + "=" + pairs[0].value + "&" + Render(pairs[1..])
  }

  predicate EndsIn(key: string, param: string) {
    Occurs(key, param, |key| - |param|)
  }

  predicate Contains(s: string, part: string) {
    FindFrom(s, part, 0) != -1
  }

  /** The value of the first pair whose key ends in the name. */
  function FirstEndingIn(pairs: seq<Pair>, param: string): Option<string> {
    if pairs == [] then None
    else if EndsIn(pairs[0].key, param) then Some(pairs[0].value)
    else FirstEndingIn(pairs[1..], param)
  }

  /**
   What the bare name finds.  A name inside a key gives that key's value; a name inside a value
   gives the value of the next pair, and in the last value gives `first`, the text up to the
   first '&'.
  */
  function FirstMentioning(pairs: seq<Pair>, first: string, param: string): Option<string> {
    if pairs == [] then None
    else if Contains(pairs[0].key, param) then Some(pairs[0].value)
    else if Contains(pairs[0].value, param) then Some(if |pairs| > 1 then pairs[1].value else first)
    else FirstMentioning(pairs[1..], first, param)
  }

  // ---------------------------------------------------------- finding things

  ghost predicate NoneWithin(s: string, pat: string, from: int, to: int) {
    forall i | from <= i < to :: !Occurs(s, pat, i)
  }

  /** What is found is the least position, or there is none. */
  lemma {:induction false} FindIsFirst(s: string, pat: string, from: nat)
    ensures var r := FindFrom(s, pat, from);
      if r == -1 then NoneWithin(s, pat, from, |s| + 1) else Occurs(s, pat, r) && NoneWithin(s, pat, from, r)
    decreases |s| - from
  {
    if from + |pat| <= |s| && !Occurs(s, pat, from) {
      FindIsFirst(s, pat, from + 1);
    }
  }

  lemma FirstIsFound(s: string, pat: string, from: nat, r: int)
    requires if r == -1 then NoneWithin(s, pat, from, |s| + 1)
             else from <= r && Occurs(s, pat, r) && NoneWithin(s, pat, from, r)
    ensures FindFrom(s, pat, from) == r
  {
    FindIsFirst(s, pat, from);
  }

  ghost predicate Lacks(s: string, c: char, from: int, to: int)
    requires 0 <= from && to <= |s|
  {
    forall i | from <= i < to :: s[i] != c
  }

  /** One character: r is where it stands, or the end. */
  lemma FindChar(s: string, c: char, from: nat, r: nat)
    requires from <= r <= |s| && Lacks(s, c, from, r) && (r < |s| ==> s[r] == c)
    ensures FindFrom(s, [c], from) == if r < |s| then r else -1
  {
    forall i | from <= i < r
      ensures !Occurs(s, [c], i)
    {
      assert s[i + 0] != [c][0];
    }
    FirstIsFound(s, [c], from, if r < |s| then r else -1);
  }

  /** The '=' is at e and the value reaches to end. */
  lemma ValueIs(s: string, p: nat, e: nat, end: nat)
    requires p <= e < end <= |s|
    requires s[e] == '=' && Lacks(s, '=', p, e)
    requires Lacks(s, '&', e + 1, end) && (end < |s| ==> s[end] == '&')
    ensures ValueAfter(s, p) == s[e + 1..end]
  {
    assert FindFrom(s, "=", p) == e by {
      FindChar(s, '=', p, e);
    }
    assert FindFrom(s, "&", e + 1) == if end < |s| then end else -1 by {
      FindChar(s, '&', e + 1, end);
    }
  }

  /** Behind the last '=' every reading gives the same text. */
  lemma ValueAtEnd(s: string, p: nat)
    requires p <= |s| && Lacks(s, '=', p, |s|)
    ensures ValueAfter(s, p) == ValueAfter(s, |s|)
  {
    FindChar(s, '=', p, |s|);
    FindChar(s, '=', |s|, |s|);
  }

  /** Inside a part the whole string reads like the part. */
  lemma WithinPart(s: string, b: nat, part: string, pat: string, i: nat)
    requires Occurs(s, part, b) && b <= i && i + |pat| <= b + |part|
    ensures Occurs(s, pat, i) <==> Occurs(part, pat, i - b)
  {
    forall d | 0 <= d < |pat|
      ensures s[i + d] == pat[d] <==> part[i - b + d] == pat[d]
    {
      assert s[b + (i - b + d)] == part[i - b + d];
    }
  }

  // ------------------------------------------------- the pairs of a string

  function ValuePos(b: nat, pair: Pair): nat {
    b + |pair.key| + 1
  }

  function EndOf(b: nat, pair: Pair): nat {
    ValuePos(b, pair) + |pair.value|
  }

  predicate PairAt(s: string, b: nat, pair: Pair) {
    && Occurs(s, pair.key, b) && Occurs(s, pair.value, ValuePos(b, pair))
    && s[b + |pair.key|] == '='
    && (EndOf(b, pair) < |s| ==> s[EndOf(b, pair)] == '&')
  }

  predicate Spells(s: string, b: nat, pairs: seq<Pair>)
    decreases |pairs|
  {
    if pairs == [] then b >= |s|
    else
      && PairAt(s, b, pairs[0])
      && (|pairs| == 1 <==> EndOf(b, pairs[0]) == |s|)
      && Spells(s, EndOf(b, pairs[0]) + 1, pairs[1..])
  }

  /** The text up to the second pair. */
  function Head(before: string, pair: Pair): string {
    before + pair.key + "=" + pair.value + "&"
  }

  lemma RenderTail(s: string, before: string, pairs: seq<Pair>)
    requires pairs != [] && s == before + Render(pairs)
    ensures |pairs| == 1 ==> |s| == EndOf(|before|, pairs[0])
    ensures |pairs| > 1 ==> s == Head(before, pairs[0]) + Render(pairs[1..])
    ensures |Head(before, pairs[0])| == EndOf(|before|, pairs[0]) + 1
  {
    var text := pairs[0].key + "=" + pairs[0].value;
    if |pairs| == 1 {
      assert Render(pairs) == text;
    } else {
      assert Render(pairs) == text + "&" + Render(pairs[1..]);
      Reassociate(before, text, Render(pairs[1..]));
      assert before + text + "&" == Head(before, pairs[0]);
    }
  }

  lemma Reassociate(before: string, text: string, rest: string)
    ensures before + (text + "&" + rest) == before + text + "&" + rest
  {
  }

  lemma SpellsFirst(s: string, b: nat, pairs: seq<Pair>)
    requires pairs != [] && PairAt(s, b, pairs[0])
    requires |pairs| == 1 <==> EndOf(b, pairs[0]) == |s|
    requires |pairs| > 1 ==> Spells(s, EndOf(b, pairs[0]) + 1, pairs[1..])
    ensures Spells(s, b, pairs)
  {
  }

  lemma {:induction false} RenderSpells(s: string, before: string, pairs: seq<Pair>)
    requires s == before + Render(pairs)
    ensures Spells(s, |before|, pairs)
    decreases |pairs|
  {
    if pairs != [] {
      HeadIsPair(s, before, pairs);
      RenderTail(s, before, pairs);
      if |pairs| > 1 {
        RenderSpells(s, Head(before, pairs[0]), pairs[1..]);
      }
      SpellsFirst(s, |before|, pairs);
    }
  }

  lemma HeadIsPair(s: string, before: string, pairs: seq<Pair>)
    requires pairs != [] && s == before + Render(pairs)
    ensures PairAt(s, |before|, pairs[0])
  {
    var k, v, rest := pairs[0].key, pairs[0].value, if |pairs| == 1 then "" else "&" + Render(pairs[1..]);
    assert Render(pairs) == k + "=" + v + rest;
    Flatten(before, k, v, rest);
    PartsOccur(before, k, v, rest);
  }

  lemma Flatten(before: string, k: string, v: string, rest: string)
    ensures before + (k + "=" + v + rest) == before + k + "=" + v + rest
  {
  }

  lemma MiddleOccurs(a: string, part: string, c: string)
    ensures Occurs(a + part + c, part, |a|)
  {
    forall d | 0 <= d < |part|
      ensures (a + part + c)[|a| + d] == part[d]
    {
    }
  }

  lemma PartsOccur(before: string, k: string, v: string, rest: string)
    requires rest == "" || rest[0] == '&'
    ensures PairAt(before + k + "=" + v + rest, |before|, Pair(k, v))
  {
    var s := before + k + "=" + v + rest;
    assert Occurs(s, k, |before|) by {
      MiddleOccurs(before, k, "=" + v + rest);
      assert s == before + k + ("=" + v + rest);
    }
    MiddleOccurs(before + k + "=", v, rest);
  }

  /** The only '=' of a pair is the one in the middle, and it has no '&'. */
  lemma PairChars(s: string, b: nat, pair: Pair)
    requires PairAt(s, b, pair) && PlainPair(pair)
    ensures Lacks(s, '=', b, b + |pair.key|) && Lacks(s, '&', b, EndOf(b, pair))
    ensures Lacks(s, '=', ValuePos(b, pair), EndOf(b, pair))
  {
    forall i | b <= i < b + |pair.key|
      ensures s[i] != '=' && s[i] != '&'
    {
      assert s[b + (i - b)] == pair.key[i - b];
    }
    var p := ValuePos(b, pair);
    forall i | p <= i < EndOf(b, pair)
      ensures s[i] != '=' && s[i] != '&'
    {
      assert s[p + (i - p)] == pair.value[i - p];
    }
  }

  lemma OccursAsSlice(s: string, b: nat, part: string)
    requires Occurs(s, part, b)
    ensures s[b..b + |part|] == part
  {
  }

  /** From such a position the pair's '=' comes next, and its value reaches to its end. */
  lemma PairLacks(s: string, b: nat, pair: Pair, p: nat)
    requires PairAt(s, b, pair) && PlainPair(pair) && p <= b + |pair.key| && Lacks(s, '=', p, b)
    ensures Lacks(s, '=', p, b + |pair.key|) && Lacks(s, '&', ValuePos(b, pair), EndOf(b, pair))
  {
    PairChars(s, b, pair);
  }

  /** From the key, or from before it with no '=' in between, the value read is that pair's. */
  lemma ValueOfPair(s: string, b: nat, pair: Pair, p: nat)
    requires PairAt(s, b, pair) && PlainPair(pair) && p <= b + |pair.key| && Lacks(s, '=', p, b)
    ensures ValueAfter(s, p) == pair.value
  {
    PairLacks(s, b, pair, p);
    ValueIs(s, p, b + |pair.key|, EndOf(b, pair));
    OccursAsSlice(s, ValuePos(b, pair), pair.value);
  }

  // -------------------------------------------- the metadata server's parser

  lemma Differs(s: string, pat: string, i: nat, d: nat)
    requires d < |pat| && i + d < |s| && s[i + d] != pat[d]
    ensures !Occurs(s, pat, i)
  {
  }

  lemma WithEquals(s: string, param: string, i: nat)
    ensures Occurs(s, param + "=", i) <==> Occurs(s, param, i) && i + |param| < |s| && s[i + |param|] == '='
  {
    var pat := param + "=";
    assert pat[|param|] == '=' && forall d | 0 <= d < |param| :: pat[d] == param[d];
    if Occurs(s, pat, i) {
      assert s[i + |param|] == pat[|param|];
      assert forall d | 0 <= d < |param| :: s[i + d] == pat[d] == param[d];
    }
  }

  /** "param=" does not start in a pair whose key does not end in param. */
  lemma NotInPair(s: string, b: nat, pair: Pair, param: string, i: nat)
    requires PairAt(s, b, pair) && PlainPair(pair) && Plain(param) && !EndsIn(pair.key, param)
    requires b <= i <= EndOf(b, pair)
    ensures !Occurs(s, param + "=", i)
  {
    var e, end, j := b + |pair.key|, EndOf(b, pair), i + |param|;
    PairChars(s, b, pair);
    WithEquals(s, param, i);
    if j == e {
      WithinPart(s, b, pair.key, param, i);
    } else if i <= e < j && e < |s| {
      Differs(s, param + "=", i, e - i);
    } else if i <= end < j && end < |s| {
      Differs(s, param + "=", i, end - i);
    }
  }

  lemma SkipPair(s: string, b: nat, pair: Pair, param: string)
    requires PairAt(s, b, pair) && PlainPair(pair) && Plain(param) && !EndsIn(pair.key, param)
    requires NoneWithin(s, param + "=", 0, b)
    ensures NoneWithin(s, param + "=", 0, EndOf(b, pair) + 1)
  {
    forall i | b <= i <= EndOf(b, pair)
      ensures !Occurs(s, param + "=", i)
    {
      NotInPair(s, b, pair, param, i);
    }
  }

  /** The position of a name that ends the key. */
  function KeyEnd(b: nat, pair: Pair, param: string): (at: nat)
    requires EndsIn(pair.key, param)
    ensures b <= at && at + |param| == b + |pair.key|
  {
    b + |pair.key| - |param|
  }

  lemma AtKeyEnd(s: string, b: nat, pair: Pair, param: string)
    requires PairAt(s, b, pair) && PlainPair(pair) && EndsIn(pair.key, param)
    ensures var at := KeyEnd(b, pair, param);
      Occurs(s, param + "=", at) && at + |param| <= |s| && Lacks(s, '=', b, at + |param|)
  {
    var at := KeyEnd(b, pair, param);
    WithinPart(s, b, pair.key, param, at);
    WithEquals(s, param, at);
    PairChars(s, b, pair);
  }

  lemma FoundAtKeyEnd(s: string, b: nat, pair: Pair, param: string)
    requires PairAt(s, b, pair) && PlainPair(pair) && EndsIn(pair.key, param)
    requires NoneWithin(s, param + "=", 0, b)
    ensures FindFrom(s, param + "=", 0) == KeyEnd(b, pair, param)
  {
    var at := KeyEnd(b, pair, param);
    AtKeyEnd(s, b, pair, param);
    NotBeforeEquals(s, param, b, at);
    FirstIsFound(s, param + "=", 0, at);
  }

  lemma NotBeforeEquals(s: string, param: string, b: nat, at: nat)
    requires b <= at && at + |param| <= |s| && Lacks(s, '=', b, at + |param|)
    requires NoneWithin(s, param + "=", 0, b)
    ensures NoneWithin(s, param + "=", 0, at)
  {
    forall i | b <= i < at
      ensures !Occurs(s, param + "=", i)
    {
      WithEquals(s, param, i);
    }
  }

  lemma NameInKey(s: string, b: nat, pair: Pair, param: string)
    requires PairAt(s, b, pair) && PlainPair(pair) && EndsIn(pair.key, param)
    requires NoneWithin(s, param + "=", 0, b)
    ensures GetQueryParam(s, param) == Some(pair.value)
  {
    FoundAtKeyEnd(s, b, pair, param);
    ValueOfPair(s, b, pair, KeyEnd(b, pair, param));
  }

  lemma {:induction false} MetadataParserFrom(s: string, b: nat, pairs: seq<Pair>, param: string)
    requires Spells(s, b, pairs) && AllPlain(pairs) && Plain(param)
    requires NoneWithin(s, param + "=", 0, b)
    ensures GetQueryParam(s, param) == FirstEndingIn(pairs, param)
    decreases |pairs|
  {
    if pairs == [] {
      FirstIsFound(s, param + "=", 0, -1);
    } else if EndsIn(pairs[0].key, param) {
      NameInKey(s, b, pairs[0], param);
    } else {
      SkipPair(s, b, pairs[0], param);
      MetadataParserFrom(s, EndOf(b, pairs[0]) + 1, pairs[1..], param);
    }
  }

  /**
   Exactly what the metadata parser returns, on every query string whose parts are free of
   '=' and '&'.
  */
  lemma MetadataParserExact(pairs: seq<Pair>, param: string)
    requires AllPlain(pairs) && Plain(param)
    ensures GetQueryParam(Render(pairs), param) == FirstEndingIn(pairs, param)
  {
    assert "" + Render(pairs) == Render(pairs);
    RenderSpells(Render(pairs), "", pairs);
    MetadataParserFrom(Render(pairs), 0, pairs, param);
  }

  lemma FirstOfTwo(a: Pair, b: Pair, param: string)
    ensures FirstEndingIn([a, b], param) ==
            if EndsIn(a.key, param) then Some(a.value) else if EndsIn(b.key, param) then Some(b.value) else None
  {
    assert [a, b][1..] == [b] && FirstEndingIn([b][1..], param) == None;
    assert FirstEndingIn([b], param) == if EndsIn(b.key, param) then Some(b.value) else None;
  }

  /** The second of two parameters is missed exactly when its name ends the first key. */
  lemma TwoKeys(a: Pair, b: Pair)
    requires PlainPair(a) && PlainPair(b)
    ensures GetQueryParam(Render([a, b]), a.key) == Some(a.value)
    ensures GetQueryParam(Render([a, b]), b.key) == Some(if EndsIn(a.key, b.key) then a.value else b.value)
  {
    MetadataParserExact([a, b], a.key);
    FirstOfTwo(a, b, a.key);
    MetadataParserExact([a, b], b.key);
    FirstOfTwo(a, b, b.key);
  }

  /** A parser finds both values of a two-parameter request, in either order. */
  predicate ReadEitherWay(get: (string, string) -> Option<string>, a: Pair, b: Pair) {
    && get(Render([a, b]), a.key) == get(Render([b, a]), a.key) == Some(a.value)
    && get(Render([a, b]), b.key) == get(Render([b, a]), b.key) == Some(b.value)
  }

  lemma EitherOrder(a: Pair, b: Pair)
    requires PlainPair(a) && PlainPair(b) && !EndsIn(a.key, b.key) && !EndsIn(b.key, a.key)
    ensures ReadEitherWay(GetQueryParam, a, b)
  {
    TwoKeys(a, b);
    TwoKeys(b, a);
  }

  /** The names the handlers ask for together; neither ends the other. */
  lemma HandlerNames()
    ensures Plain("user_id") && Plain("file_name") && Plain("max_hashes")
    ensures !EndsIn("user_id", "file_name") && !EndsIn("file_name", "user_id")
    ensures !EndsIn("user_id", "max_hashes") && !EndsIn("max_hashes", "user_id")
  {
    Differs("file_name", "user_id", 2, 0);
    Differs("max_hashes", "user_id", 3, 0);
  }

  /** The handlers read both their parameters whichever comes first. */
  lemma BlockListRequest(user: string, file: string)
    requires Plain(user) && Plain(file)
    ensures ReadEitherWay(GetQueryParam, Pair("user_id", user), Pair("file_name", file))
  {
    HandlerNames();
    EitherOrder(Pair("user_id", user), Pair("file_name", file));
  }

  lemma RecentHashesRequest(user: string, count: string)
    requires Plain(user) && Plain(count)
    ensures ReadEitherWay(GetQueryParam, Pair("user_id", user), Pair("max_hashes", count))
  {
    HandlerNames();
    EitherOrder(Pair("user_id", user), Pair("max_hashes", count));
  }

  // ------------------------------------------------------ the cache's parser

  /** A plain name occurs in a pair only inside the key or inside the value. */
  lemma InKeyOrValue(s: string, b: nat, pair: Pair, param: string, i: nat)
    requires PairAt(s, b, pair) && Plain(param) && param != "" && b <= i <= EndOf(b, pair)
    ensures Occurs(s, param, i) <==> Occurs(pair.key, param, i - b) || Occurs(pair.value, param, i - ValuePos(b, pair))
  {
    var e, end, j := b + |pair.key|, EndOf(b, pair), i + |param|;
    if j <= e {
      WithinPart(s, b, pair.key, param, i);
    } else if i <= e {
      Differs(s, param, i, e - i);
    } else if j <= end {
      WithinPart(s, e + 1, pair.value, param, i);
    } else if end < |s| {
      Differs(s, param, i, end - i);
    }
  }

  /** The first mention, p characters into the pair at b, is the one found. */
  lemma FirstMention(s: string, b: nat, pair: Pair, param: string, p: nat)
    requires PairAt(s, b, pair) && Plain(param) && param != "" && p <= EndOf(0, pair)
    requires NoneWithin(s, param, 0, b)
    requires Occurs(pair.key, param, p) || Occurs(pair.value, param, p - ValuePos(0, pair))
    requires NoneWithin(pair.key, param, 0, p) && NoneWithin(pair.value, param, 0, p - ValuePos(0, pair))
    ensures FindFrom(s, param, 0) == b + p
  {
    InKeyOrValue(s, b, pair, param, b + p);
    forall i | b <= i < b + p
      ensures !Occurs(s, param, i)
    {
      InKeyOrValue(s, b, pair, param, i);
    }
    FirstIsFound(s, param, 0, b + p);
  }

  lemma LocatedInKey(s: string, b: nat, pair: Pair, param: string)
    requires PairAt(s, b, pair) && PlainPair(pair) && Plain(param) && param != ""
    requires NoneWithin(s, param, 0, b) && Contains(pair.key, param)
    ensures FindFrom(s, param, 0) == b + FindFrom(pair.key, param, 0)
  {
    FindIsFirst(pair.key, param, 0);
    FirstMention(s, b, pair, param, FindFrom(pair.key, param, 0));
  }

  lemma MentionedInKey(s: string, b: nat, pair: Pair, param: string)
    requires PairAt(s, b, pair) && PlainPair(pair) && Plain(param) && param != ""
    requires NoneWithin(s, param, 0, b) && Contains(pair.key, param)
    ensures GetCacheParam(s, param) == Some(pair.value)
  {
    var p := b + FindFrom(pair.key, param, 0);
    LocatedInKey(s, b, pair, param);
    ValueOfPair(s, b, pair, p);
    FoundAt(s, param, p);
  }

  lemma LocatedInValue(s: string, b: nat, pair: Pair, param: string)
    requires PairAt(s, b, pair) && PlainPair(pair) && Plain(param) && param != ""
    requires NoneWithin(s, param, 0, b) && !Contains(pair.key, param) && Contains(pair.value, param)
    ensures FindFrom(s, param, 0) == ValuePos(b, pair) + FindFrom(pair.value, param, 0)
  {
    FindIsFirst(pair.key, param, 0);
    FindIsFirst(pair.value, param, 0);
    FirstMention(s, b, pair, param, ValuePos(0, pair) + FindFrom(pair.value, param, 0));
  }

  /** From inside a value the next '=' is the next pair's. */
  lemma MentionedInValue(s: string, b: nat, pair: Pair, next: Pair, param: string)
    requires PairAt(s, b, pair) && PlainPair(pair) && PairAt(s, EndOf(b, pair) + 1, next) && PlainPair(next)
    requires Plain(param) && param != ""
    requires NoneWithin(s, param, 0, b) && !Contains(pair.key, param) && Contains(pair.value, param)
    ensures GetCacheParam(s, param) == Some(next.value)
  {
    var p := ValuePos(b, pair) + FindFrom(pair.value, param, 0);
    LocatedInValue(s, b, pair, param);
    FoundAt(s, param, p);
    ReadNextPair(s, b, pair, next, p);
  }

  /** After the last '=' there is none. */
  lemma MentionedInLastValue(s: string, b: nat, pair: Pair, param: string)
    requires PairAt(s, b, pair) && PlainPair(pair) && EndOf(b, pair) == |s|
    requires Plain(param) && param != ""
    requires NoneWithin(s, param, 0, b) && !Contains(pair.key, param) && Contains(pair.value, param)
    ensures GetCacheParam(s, param) == Some(ValueAfter(s, |s|))
  {
    var p := ValuePos(b, pair) + FindFrom(pair.value, param, 0);
    LocatedInValue(s, b, pair, param);
    FoundAt(s, param, p);
    ReadTheEnd(s, b, pair, p);
  }

  lemma NextPairAt(s: string, b: nat, pairs: seq<Pair>)
    requires Spells(s, b, pairs) && |pairs| > 1
    ensures PairAt(s, EndOf(b, pairs[0]) + 1, pairs[1])
  {
    assert Spells(s, EndOf(b, pairs[0]) + 1, pairs[1..]) && pairs[1..][0] == pairs[1];
  }

  lemma FoundAt(s: string, param: string, p: nat)
    requires FindFrom(s, param, 0) == p
    ensures GetCacheParam(s, param) == Some(ValueAfter(s, p))
  {
  }

  lemma ReadNextPair(s: string, b: nat, pair: Pair, next: Pair, p: nat)
    requires PairAt(s, b, pair) && PlainPair(pair) && ValuePos(b, pair) <= p <= EndOf(b, pair)
    requires PairAt(s, EndOf(b, pair) + 1, next) && PlainPair(next)
    ensures ValueAfter(s, p) == next.value
  {
    PairChars(s, b, pair);
    ValueOfPair(s, EndOf(b, pair) + 1, next, p);
  }

  lemma ReadTheEnd(s: string, b: nat, pair: Pair, p: nat)
    requires PairAt(s, b, pair) && PlainPair(pair) && ValuePos(b, pair) <= p <= EndOf(b, pair) == |s|
    ensures ValueAfter(s, p) == ValueAfter(s, |s|)
  {
    PairChars(s, b, pair);
    ValueAtEnd(s, p);
  }

  lemma NotMentioned(s: string, b: nat, pair: Pair, param: string)
    requires PairAt(s, b, pair) && PlainPair(pair) && Plain(param) && param != ""
    requires NoneWithin(s, param, 0, b) && !Contains(pair.key, param) && !Contains(pair.value, param)
    ensures NoneWithin(s, param, 0, EndOf(b, pair) + 1)
  {
    FindIsFirst(pair.key, param, 0);
    FindIsFirst(pair.value, param, 0);
    forall i | b <= i <= EndOf(b, pair)
      ensures !Occurs(s, param, i)
    {
      InKeyOrValue(s, b, pair, param, i);
    }
  }

  lemma {:induction false} CacheParserFrom(s: string, b: nat, pairs: seq<Pair>, param: string)
    requires Spells(s, b, pairs) && AllPlain(pairs) && Plain(param) && param != ""
    requires NoneWithin(s, param, 0, b)
    ensures GetCacheParam(s, param) == FirstMentioning(pairs, ValueAfter(s, |s|), param)
    decreases |pairs|
  {
    if pairs == [] {
      FirstIsFound(s, param, 0, -1);
    } else if Contains(pairs[0].key, param) {
      MentionedInKey(s, b, pairs[0], param);
    } else if Contains(pairs[0].value, param) {
      if |pairs| > 1 {
        NextPairAt(s, b, pairs);
        MentionedInValue(s, b, pairs[0], pairs[1], param);
      } else {
        MentionedInLastValue(s, b, pairs[0], param);
      }
    } else {
      NotMentioned(s, b, pairs[0], param);
      CacheParserFrom(s, EndOf(b, pairs[0]) + 1, pairs[1..], param);
    }
  }

  /**
   Exactly what the cache's parser returns, on every query string whose parts are free of '='
   and '&'.
  */
  lemma CacheParserExact(pairs: seq<Pair>, param: string)
    requires AllPlain(pairs) && Plain(param) && param != ""
    ensures GetCacheParam(Render(pairs), param) ==
            FirstMentioning(pairs, if pairs == [] then "" else Render([pairs[0]]), param)
  {
    assert "" + Render(pairs) == Render(pairs);
    RenderSpells(Render(pairs), "", pairs);
    CacheParserFrom(Render(pairs), 0, pairs, param);
    if pairs != [] {
      FirstText(pairs);
    }
  }

  lemma FirstText(pairs: seq<Pair>)
    requires AllPlain(pairs) && pairs != []
    ensures ValueAfter(Render(pairs), |Render(pairs)|) == Render([pairs[0]])
  {
    var s, end := Render(pairs), EndOf(0, pairs[0]);
    assert PairAt(s, 0, pairs[0]) by {
      HeadIsPair(s, "", pairs);
    }
    FirstSegment(s, pairs[0]);
    assert s[..end] == Render([pairs[0]]) by {
      assert s[..end] == pairs[0].key + "=" + pairs[0].value;
    }
  }

  lemma FirstSegment(s: string, pair: Pair)
    requires PairAt(s, 0, pair) && PlainPair(pair)
    ensures ValueAfter(s, |s|) == s[..EndOf(0, pair)]
  {
    var end := EndOf(0, pair);
    PairChars(s, 0, pair);
    FindChar(s, '=', |s|, |s|);
    FindChar(s, '&', 0, end);
    assert s[0..end] == s[..end] && (end == |s| ==> s[0..] == s[..end]);
  }

  /**
   With two parameters only the keys matter: a name found in the first value leads to the second
   value, which is the right one.
  */
  lemma TwoNames(a: Pair, b: Pair)
    requires PlainPair(a) && PlainPair(b) && a.key != "" && b.key != ""
    ensures GetCacheParam(Render([a, b]), a.key) == Some(a.value)
    ensures GetCacheParam(Render([a, b]), b.key) == Some(if Contains(a.key, b.key) then a.value else b.value)
  {
    assert [a, b][1..] == [b];
    CacheParserExact([a, b], a.key);
    CacheParserExact([a, b], b.key);
  }

  lemma CacheNames()
    ensures Plain("hash") && Plain("user") && !Contains("hash", "user") && !Contains("user", "hash")
  {
    Differs("hash", "user", 0, 0);
    Differs("user", "hash", 0, 0);
  }

  /**
   The request the client sends to a cache is read correctly in either order, for every hash
   and user free of '=' and '&' -- even when one of them contains the name of a parameter.
  */
  lemma CacheRequest(hash: string, user: string)
    requires Plain(hash) && Plain(user)
    ensures ReadEitherWay(GetCacheParam, Pair("hash", hash), Pair("user", user))
  {
    CacheNames();
    TwoNames(Pair("hash", hash), Pair("user", user));
    TwoNames(Pair("user", user), Pair("hash", hash));
  }

  /** A request without the parameter is refused exactly when the name is not in the value either. */
  lemma CacheParserMisreads(pair: Pair, param: string)
    requires PlainPair(pair) && Plain(param) && param != "" && !Contains(pair.key, param)
    ensures GetCacheParam(Render([pair]), param) ==
            if Contains(pair.value, param) then Some(pair.key + "=" + pair.value) else None
  {
    CacheParserExact([pair], param);
  }
}
