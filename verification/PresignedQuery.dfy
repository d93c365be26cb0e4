/** The query string of a presigned request. It is parsed into a map, filtered and rendered again before it is brought
    into canonical form; this module says when that is the canonical form of the query itself. */
module PresignedQuery {

  import opened CanonicalQuery
  import opened MachineWords
  import opened Options
  import opened Sequences
  import opened Sorting
  import opened Splitting

  type Values = map<Bytes, seq<Bytes>>

  const Semicolon: Byte := 59

  // ---- parsing, as the standard library does it ----

  /** The parser drops a parameter that has a semicolon or whose key or value does not decode. */
  predicate Parses(param: Bytes) {
    var key := Before(param, Equals);
    && Semicolon !in param
    && Unescape(Query, key).Some?
    && (|key| < |param| ==> Unescape(Query, param[|key| + 1..]).Some?)
  }

  function ParsedPairs(param: Bytes): seq<Pair> {
    if Parses(param) then ParamPairs(param) else []
  }

  /** A parameter is read as its two halves decoded, unless it has a semicolon or one of them does not decode. */
  lemma ParameterIsRead(key: Bytes, value: Bytes)
    requires Equals !in key
    ensures var (k, v) := (Unescape(Query, key), Unescape(Query, value));
            ParsedPairs(key + [Equals] + value) ==
            if Semicolon in key || Semicolon in value || k.None? || v.None? then [] else [Pair(k.value, v.value)]
  {
    BeforeStops(key, Equals, value);
    assert (key + [Equals] + value)[|key| + 1..] == value;
  }

  function ValuesOf(values: Values, key: Bytes): seq<Bytes> {
    if key in values then values[key] else []
  }

  function Added(values: Values, p: Pair): Values {
    values[p.key := ValuesOf(values, p.key) + [p.value]]
  }

  /** The map of some pairs: every key with its values in order. */
  function Gathered(pairs: seq<Pair>): Values {
    if pairs == [] then map[] else Added(Gathered(pairs[..|pairs| - 1]), pairs[|pairs| - 1])
  }

  function Parsed(query: Bytes): Values {
    Gathered(FlatMap(ParsedPairs, Split(query, Ampersand)))
  }

  // ---- leaving keys out ----

  /** A pair, unless its key is left out. */
  function KeptPair(excluded: set<Bytes>): Pair -> seq<Pair> {
    (p: Pair) => if p.key in excluded then [] else [p]
  }

  function KeptPairs(excluded: set<Bytes>, pairs: seq<Pair>): seq<Pair> {
    FlatMap(KeptPair(excluded), pairs)
  }

  /** A parameter, unless its key is left out. */
  function KeptParam(excluded: set<Bytes>): Bytes -> seq<Bytes> {
    (p: Bytes) => if p != [] && DecodedPair(p).key in excluded then [] else [p]
  }

  /** A query string without the parameters of some keys. */
  function Stripped(query: Bytes, excluded: set<Bytes>): Bytes {
    Join(FlatMap(KeptParam(excluded), Split(query, Ampersand)), Ampersand)
  }

  // ---- the map holds the pairs ----

  lemma {:induction false} FlatMapSame<A, B>(f: A -> seq<B>, g: A -> seq<B>, s: seq<A>)
    requires forall x | x in s :: f(x) == g(x)
    ensures FlatMap(f, s) == FlatMap(g, s)
  {
    if s != [] {
      assert s[|s| - 1] in s;
      FlatMapSame(f, g, s[..|s| - 1]);
    }
  }

  /** In a sequence without repetition an element stands at one place. */
  lemma OnePlace<T>(s: seq<T>, x: T) returns (k: nat)
    requires x in s && multiset(s)[x] == 1
    ensures k < |s| && s[k] == x && x !in s[..k] && x !in s[k + 1..]
  {
    k :| 0 <= k < |s| && s[k] == x;
    SplitAround(s, k);
    OnlyAround(s[..k], x, s[k + 1..]);
  }

  lemma OnlyAround<T>(a: seq<T>, x: T, b: seq<T>)
    requires multiset(a + [x] + b)[x] == 1
    ensures x !in a && x !in b
  {
    assert multiset(a + [x] + b) == multiset(a) + multiset{x} + multiset(b);
    assert x !in multiset(a) && x !in multiset(b);
  }

  lemma EntriesAdded(values: Values, excluded: set<Bytes>, p: Pair)
    ensures Entries(Added(values, p), excluded)(p.key) == Entries(values, excluded)(p.key) + KeptPair(excluded)(p)
  {
    var vs := ValuesOf(values, p.key);
    assert Map(v => Pair(p.key, v), vs + [p.value]) == Map(v => Pair(p.key, v), vs) + [p];
  }

  /** One more pair in the map is one more pair listed, unless its key is left out. */
  lemma ListedGrows(values: Values, excluded: set<Bytes>, order: seq<Bytes>, p: Pair)
    requires p.key in order && multiset(order)[p.key] == 1
    ensures multiset(Listed(Added(values, p), excluded, order))
         == multiset(Listed(values, excluded, order)) + multiset(KeptPair(excluded)(p))
  {
    var k := OnePlace(order, p.key);
    SplitAround(order, k);
    ListedGrowsAround(values, excluded, order[..k], p, order[k + 1..]);
  }

  lemma ListedGrowsAround(values: Values, excluded: set<Bytes>, a: seq<Bytes>, p: Pair, b: seq<Bytes>)
    requires p.key !in a && p.key !in b
    ensures multiset(Listed(Added(values, p), excluded, a + [p.key] + b))
         == multiset(Listed(values, excluded, a + [p.key] + b)) + multiset(KeptPair(excluded)(p))
  {
    var f, g := Entries(values, excluded), Entries(Added(values, p), excluded);
    FlatMapAround(f, a, p.key, b);
    FlatMapAround(g, a, p.key, b);
    FlatMapSame(f, g, a);
    FlatMapSame(f, g, b);
    EntriesAdded(values, excluded, p);
    MiddleGrows(FlatMap(f, a), f(p.key), KeptPair(excluded)(p), FlatMap(f, b));
  }

  lemma MiddleGrows<T>(a: seq<T>, b: seq<T>, more: seq<T>, c: seq<T>)
    ensures multiset(a + (b + more) + c) == multiset(a + b + c) + multiset(more)
  {
  }

  ghost predicate ListsOnce(order: seq<Bytes>, pairs: seq<Pair>) {
    forall i | 0 <= i < |pairs| :: pairs[i].key in order && multiset(order)[pairs[i].key] == 1
  }

  lemma {:induction false} GatheredLists(pairs: seq<Pair>, excluded: set<Bytes>, order: seq<Bytes>)
    requires ListsOnce(order, pairs)
    ensures multiset(Listed(Gathered(pairs), excluded, order)) == multiset(KeptPairs(excluded, pairs))
  {
    if pairs == [] {
      NothingListed(excluded, order);
    } else {
      var front, last := pairs[..|pairs| - 1], pairs[|pairs| - 1];
      GatheredLists(front, excluded, order);
      ListedGrows(Gathered(front), excluded, order, last);
    }
  }

  lemma {:induction false} NothingListed(excluded: set<Bytes>, order: seq<Bytes>)
    ensures Listed(map[], excluded, order) == []
  {
    if order != [] { NothingListed(excluded, order[..|order| - 1]); }
  }

  lemma {:induction false} GatheredKeys(pairs: seq<Pair>, i: nat)
    requires i < |pairs|
    ensures pairs[i].key in Gathered(pairs)
  {
    if i < |pairs| - 1 { GatheredKeys(pairs[..|pairs| - 1], i); }
  }

  lemma OrderListsOnce(pairs: seq<Pair>, order: seq<Bytes>)
    requires IsOrder(Gathered(pairs), order)
    ensures ListsOnce(order, pairs)
  {
    forall i | 0 <= i < |pairs| ensures pairs[i].key in order && multiset(order)[pairs[i].key] == 1 {
      GatheredKeys(pairs, i);
      assert pairs[i].key in multiset(order);
    }
  }

  /** Whatever the walking order, the filtered query has the pairs that were parsed and are not left out. */
  lemma FilteredHasParsed(query: Bytes, excluded: set<Bytes>, order: seq<Bytes>)
    requires IsOrder(Parsed(query), order)
    ensures multiset(DecodedPairs(Filtered(Parsed(query), excluded, order)))
         == multiset(KeptPairs(excluded, FlatMap(ParsedPairs, Split(query, Ampersand))))
  {
    var pairs := FlatMap(ParsedPairs, Split(query, Ampersand));
    OrderListsOnce(pairs, order);
    GatheredLists(pairs, excluded, order);
    FilteredKeepsPairs(Parsed(query), excluded, order);
  }

  // ---- the query without the keys that are left out ----

  lemma {:induction false} SplitAvoids(s: Bytes, c: Byte)
    ensures Avoid(Split(s, c), c)
    decreases |s|
  {
    var first := Before(s, c);
    if |first| < |s| { SplitAvoids(s[|first| + 1..], c); }
  }

  lemma {:induction false} KeptParamsAvoid(excluded: set<Bytes>, params: seq<Bytes>, c: Byte)
    requires Avoid(params, c)
    ensures Avoid(FlatMap(KeptParam(excluded), params), c)
  {
    if params != [] { KeptParamsAvoid(excluded, params[..|params| - 1], c); }
  }

  lemma KeptOne(excluded: set<Bytes>, param: Bytes)
    ensures FlatMap(ParamPairs, KeptParam(excluded)(param)) == KeptPairs(excluded, ParamPairs(param))
  {
    FlatMapOne(ParamPairs, param);
    if param != [] { FlatMapOne(KeptPair(excluded), DecodedPair(param)); }
  }

  lemma {:induction false} KeptParamsPairs(excluded: set<Bytes>, params: seq<Bytes>)
    ensures FlatMap(ParamPairs, FlatMap(KeptParam(excluded), params))
         == KeptPairs(excluded, FlatMap(ParamPairs, params))
  {
    if params != [] {
      var front, last := params[..|params| - 1], params[|params| - 1];
      KeptParamsPairs(excluded, front);
      KeptOne(excluded, last);
      FlatMapAppend(ParamPairs, FlatMap(KeptParam(excluded), front), KeptParam(excluded)(last));
      FlatMapAppend(KeptPair(excluded), FlatMap(ParamPairs, front), ParamPairs(last));
    }
  }

  lemma StrippedPairs(query: Bytes, excluded: set<Bytes>)
    ensures DecodedPairs(Stripped(query, excluded)) == KeptPairs(excluded, DecodedPairs(query))
  {
    var params := Split(query, Ampersand);
    var kept := FlatMap(KeptParam(excluded), params);
    SplitAvoids(query, Ampersand);
    KeptParamsAvoid(excluded, params, Ampersand);
    KeptParamsPairs(excluded, params);
    if kept == [] {
      FlatMapOne(ParamPairs, []);
    } else {
      SplitJoin(kept, Ampersand);
    }
  }

  // ---- when the parser loses nothing that is signed ----

  /** Every parameter is empty, parsed or left out anyway. */
  ghost predicate LosesNothing(excluded: set<Bytes>, params: seq<Bytes>) {
    forall i | 0 <= i < |params| :: params[i] == [] || Parses(params[i]) || DecodedPair(params[i]).key in excluded
  }

  lemma KeptOfParam(excluded: set<Bytes>, param: Bytes)
    ensures param == [] || Parses(param) || DecodedPair(param).key in excluded ==>
              KeptPairs(excluded, ParsedPairs(param)) == KeptPairs(excluded, ParamPairs(param))
    ensures !(param == [] || Parses(param) || DecodedPair(param).key in excluded) ==>
              KeptPairs(excluded, ParsedPairs(param)) == [] && |KeptPairs(excluded, ParamPairs(param))| == 1
    ensures |KeptPairs(excluded, ParsedPairs(param))| <= |KeptPairs(excluded, ParamPairs(param))|
  {
    if param != [] { FlatMapOne(KeptPair(excluded), DecodedPair(param)); }
  }

  lemma {:induction false} ParsedPairsKept(excluded: set<Bytes>, params: seq<Bytes>)
    ensures LosesNothing(excluded, params) ==>
              KeptPairs(excluded, FlatMap(ParsedPairs, params)) == KeptPairs(excluded, FlatMap(ParamPairs, params))
    ensures !LosesNothing(excluded, params) ==>
              |KeptPairs(excluded, FlatMap(ParsedPairs, params))| < |KeptPairs(excluded, FlatMap(ParamPairs, params))|
  {
    if params != [] {
      var front, last := params[..|params| - 1], params[|params| - 1];
      ParsedPairsKept(excluded, front);
      KeptOfParam(excluded, last);
      FlatMapAppend(KeptPair(excluded), FlatMap(ParsedPairs, front), ParsedPairs(last));
      FlatMapAppend(KeptPair(excluded), FlatMap(ParamPairs, front), ParamPairs(last));
      LosesNothingPush(excluded, params);
    }
  }

  lemma LosesNothingPush(excluded: set<Bytes>, params: seq<Bytes>)
    requires params != []
    ensures LosesNothing(excluded, params)
       <==> && LosesNothing(excluded, params[..|params| - 1])
            && LosesNothing(excluded, [params[|params| - 1]])
  {
    var front, last := params[..|params| - 1], params[|params| - 1];
    if LosesNothing(excluded, front) && LosesNothing(excluded, [last]) {
      forall i | 0 <= i < |params|
        ensures params[i] == [] || Parses(params[i]) || DecodedPair(params[i]).key in excluded
      {
        assert params[i] == if i < |front| then front[i] else [last][0];
      }
    }
    if LosesNothing(excluded, params) {
      assert [last][0] == params[|params| - 1];
    }
  }

  /** The canonical form that a presigned request is checked against is that of its own query without the excluded
      parameters, in every walking order of the map, if and only if the parser drops none of the others. */
  lemma PresignedFormExactlyWhenNothingLost(query: Bytes, excluded: set<Bytes>, order: seq<Bytes>)
    requires IsOrder(Parsed(query), order)
    ensures Canonical(Filtered(Parsed(query), excluded, order)) == Canonical(Stripped(query, excluded))
       <==> LosesNothing(excluded, Split(query, Ampersand))
  {
    var params := Split(query, Ampersand);
    var parsed, all := KeptPairs(excluded, FlatMap(ParsedPairs, params)), KeptPairs(excluded, DecodedPairs(query));
    FilteredHasParsed(query, excluded, order);
    StrippedPairs(query, excluded);
    ParsedPairsKept(excluded, params);
    SameFormIffSamePairs(Filtered(Parsed(query), excluded, order), Stripped(query, excluded));
    assert |multiset(parsed)| == |parsed| && |multiset(all)| == |all|;
  }

  /** A lone semicolon is a parameter of the canonical form of a query, and is gone from that of a presigned one. */
  lemma SemicolonIsLost(order: seq<Bytes>)
    requires IsOrder(Parsed([Semicolon]), order)
    ensures Canonical(Filtered(Parsed([Semicolon]), {}, order)) != Canonical(Stripped([Semicolon], {}))
  {
    PresignedFormExactlyWhenNothingLost([Semicolon], {}, order);
    SplitStep([Semicolon], Ampersand, []);
    SemicolonIsDropped([[Semicolon]]);
  }

  lemma SemicolonIsDropped(params: seq<Bytes>)
    requires params == [[Semicolon]]
    ensures !LosesNothing({}, params)
  {
    assert Semicolon in params[0];
  }
}
