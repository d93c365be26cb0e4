/** The canonical query string and path that a request signature covers: percent-decoding, percent-encoding as in
    section 2.1 of RFC 3986, and sorting. Strings are byte sequences. */
module CanonicalQuery {

  import opened Options
  import opened MachineWords
  import opened Sequences
  import opened Sorting
  import opened Splitting

  type Bytes = seq<Byte>

  datatype Pair = Pair(key: Bytes, value: Bytes)

  /** What is escaped: a query component, or one segment of a path. */
  datatype Mode = Query | Segment

  const Space: Byte := 32
  const Percent: Byte := 37
  const Ampersand: Byte := 38
  const Plus: Byte := 43
  const Slash: Byte := 47
  const Equals: Byte := 61

  // ---- percent-encoding ----

  predicate Unreserved(c: Byte) {
    48 <= c <= 57 || 65 <= c <= 90 || 97 <= c <= 122 || c == 45 || c == 46 || c == 95 || c == 126
  }

  /** Bytes that stand for themselves; a path segment also keeps "$", "&", "+", ":", "=" and "@". */
  predicate Kept(mode: Mode, c: Byte) {
    Unreserved(c) || (mode == Segment && (c == 36 || c == 38 || c == 43 || c == 58 || c == 61 || c == 64))
  }

  function Digit(n: int): Byte
    requires 0 <= n < 16
  {
    if n < 10 then 48 + n else 55 + n
  }

  predicate IsDigit(c: Byte) {
    48 <= c <= 57 || 65 <= c <= 70 || 97 <= c <= 102
  }

  function DigitValue(c: Byte): (n: int)
    requires IsDigit(c)
    ensures 0 <= n < 16
  {
    if c <= 57 then c - 48 else if c <= 70 then c - 55 else c - 87
  }

  function EscapeByte(mode: Mode, c: Byte): Bytes {
    if Kept(mode, c) then [c]
    else if mode == Query && c == Space then [Plus]
    else [Percent, Digit(c / 16), Digit(c % 16)]
  }

  function Escape(mode: Mode, s: Bytes): Bytes {
    if s == [] then [] else EscapeByte(mode, s[0]) + Escape(mode, s[1..])
  }

  /** Decoding fails on a percent sign that two hexadecimal digits do not follow. */
  function Unescape(mode: Mode, s: Bytes): Option<Bytes> {
    if s == [] then Some([])
    else if s[0] == Percent then
      if |s| < 3 || !IsDigit(s[1]) || !IsDigit(s[2]) then None
      else Push(DigitValue(s[1]) * 16 + DigitValue(s[2]), Unescape(mode, s[3..]))
    else Push(if mode == Query && s[0] == Plus then Space else s[0], Unescape(mode, s[1..]))
  }

  function Push(c: Byte, rest: Option<Bytes>): Option<Bytes> {
    if rest.None? then None else Some([c] + rest.value)
  }

  /** What the code works with: the decoded form, or the text itself when it does not decode. */
  function Decoded(mode: Mode, s: Bytes): Bytes {
    var r := Unescape(mode, s);
    if r.Some? then r.value else s
  }

  lemma UnescapeByte(mode: Mode, c: Byte, rest: Bytes)
    ensures Unescape(mode, EscapeByte(mode, c) + rest) == Push(c, Unescape(mode, rest))
  {
    var e := EscapeByte(mode, c) + rest;
    if |EscapeByte(mode, c)| == 1 {
      assert e[1..] == rest;
    } else {
      assert e[3..] == rest && e[1] == Digit(c / 16) && e[2] == Digit(c % 16);
    }
  }

  /** Decoding undoes encoding. */
  lemma {:induction false} UnescapeEscape(mode: Mode, s: Bytes)
    ensures Unescape(mode, Escape(mode, s)) == Some(s)
  {
    if s != [] {
      UnescapeEscape(mode, s[1..]);
      UnescapeByte(mode, s[0], Escape(mode, s[1..]));
      assert s == [s[0]] + s[1..];
    }
  }

  /** Encoding never yields a separator. */
  lemma {:induction false} EscapeAvoids(mode: Mode, s: Bytes, c: Byte)
    requires c == Slash || (mode == Query && (c == Ampersand || c == Equals))
    ensures c !in Escape(mode, s)
  {
    if s != [] {
      EscapeAvoids(mode, s[1..], c);
    }
  }

  // ---- order ----

  /** Bytewise lexicographic order. */
  predicate Leq(a: Bytes, b: Bytes) {
    a == [] || (b != [] && (a[0] < b[0] || (a[0] == b[0] && Leq(a[1..], b[1..]))))
  }

  lemma {:induction false} LeqTotal(a: Bytes, b: Bytes)
    ensures Leq(a, b) || Leq(b, a)
    ensures Leq(a, b) && Leq(b, a) ==> a == b
  {
    if a != [] && b != [] {
      LeqTotal(a[1..], b[1..]);
      assert a == [a[0]] + a[1..] && b == [b[0]] + b[1..];
    }
  }

  lemma {:induction false} LeqTransitive(a: Bytes, b: Bytes, c: Bytes)
    ensures Leq(a, b) && Leq(b, c) ==> Leq(a, c)
  {
    if a != [] && b != [] && c != [] {
      LeqTransitive(a[1..], b[1..], c[1..]);
    }
  }

  /** Keys first, values among equal keys. */
  predicate PairLeq(a: Pair, b: Pair) {
    if a.key != b.key then Leq(a.key, b.key) else Leq(a.value, b.value)
  }

  lemma LeqIsTotalOrder()
    ensures TotalOrder(Leq)
  {
    forall a, b ensures Leq(a, b) || Leq(b, a) { LeqTotal(a, b); }
    forall a, b | Leq(a, b) && Leq(b, a) ensures a == b { LeqTotal(a, b); }
    forall a, b, c | Leq(a, b) && Leq(b, c) ensures Leq(a, c) { LeqTransitive(a, b, c); }
  }

  lemma PairLeqTotal(a: Pair, b: Pair)
    ensures PairLeq(a, b) || PairLeq(b, a)
    ensures PairLeq(a, b) && PairLeq(b, a) ==> a == b
  {
    LeqTotal(a.key, b.key);
    LeqTotal(a.value, b.value);
  }

  lemma PairLeqTransitive(a: Pair, b: Pair, c: Pair)
    requires PairLeq(a, b) && PairLeq(b, c)
    ensures PairLeq(a, c)
  {
    LeqTransitive(a.key, b.key, c.key);
    LeqTransitive(a.value, b.value, c.value);
    LeqTotal(a.key, b.key);
  }

  lemma PairLeqIsTotalOrder()
    ensures TotalOrder(PairLeq)
  {
    forall a, b ensures PairLeq(a, b) || PairLeq(b, a) { PairLeqTotal(a, b); }
    forall a, b | PairLeq(a, b) && PairLeq(b, a) ensures a == b { PairLeqTotal(a, b); }
    forall a, b, c | PairLeq(a, b) && PairLeq(b, c) ensures PairLeq(a, c) { PairLeqTransitive(a, b, c); }
  }

  // ---- canonical query strings ----

  /** The decoded key and value of a parameter, split at its first equals sign. */
  function DecodedPair(param: Bytes): Pair {
    var key := Before(param, Equals);
    Pair(Decoded(Query, key), if |key| < |param| then Decoded(Query, param[|key| + 1..]) else [])
  }

  /** Empty parameters are skipped. */
  function ParamPairs(param: Bytes): seq<Pair> {
    if param == [] then [] else [DecodedPair(param)]
  }

  /** The decoded pairs of a query string, in order. */
  function DecodedPairs(query: Bytes): seq<Pair> {
    FlatMap(ParamPairs, Split(query, Ampersand))
  }

  function Encoded(p: Pair): Pair {
    Pair(Escape(Query, p.key), Escape(Query, p.value))
  }

  function Text(p: Pair): Bytes {
    p.key + [Equals] + p.value
  }

  function Render(pairs: seq<Pair>): Bytes {
    Join(Map(Text, pairs), Ampersand)
  }

  /** The canonical form of a query string. */
  function Canonical(query: Bytes): Bytes {
    Render(Sort(PairLeq, Map(Encoded, DecodedPairs(query))))
  }

  lemma TextReadsBack(p: Pair)
    ensures ParamPairs(Text(Encoded(p))) == [p] && Ampersand !in Text(Encoded(p))
  {
    var e := Encoded(p);
    EscapeAvoids(Query, p.key, Equals);
    EscapeAvoids(Query, p.key, Ampersand);
    EscapeAvoids(Query, p.value, Ampersand);
    BeforeStops(e.key, Equals, e.value);
    assert Text(e)[|e.key| + 1..] == e.value;
    UnescapeEscape(Query, p.key);
    UnescapeEscape(Query, p.value);
  }

  /** The parameters that encode some pairs. */
  function Texts(pairs: seq<Pair>): seq<Bytes> {
    Map(Text, Map(Encoded, pairs))
  }

  lemma TextsPush(pairs: seq<Pair>, p: Pair)
    ensures Texts(pairs + [p]) == Texts(pairs) + [Text(Encoded(p))]
  {
  }

  lemma {:induction false} TextsReadBack(pairs: seq<Pair>)
    ensures FlatMap(ParamPairs, Texts(pairs)) == pairs
  {
    if pairs != [] {
      var front, last := pairs[..|pairs| - 1], pairs[|pairs| - 1];
      assert pairs == front + [last];
      TextsReadBack(front);
      TextsPush(front, last);
      FlatMapPush(ParamPairs, Texts(front), Text(Encoded(last)));
      TextReadsBack(last);
    }
  }

  lemma TextsAvoid(pairs: seq<Pair>)
    ensures Avoid(Texts(pairs), Ampersand)
  {
    forall i | 0 <= i < |pairs| ensures Ampersand !in Texts(pairs)[i] {
      TextReadsBack(pairs[i]);
    }
  }

  /** Reading a rendered list of encoded pairs gives the pairs back. */
  lemma RenderReadsBack(pairs: seq<Pair>)
    ensures DecodedPairs(Render(Map(Encoded, pairs))) == pairs
  {
    TextsReadBack(pairs);
    TextsAvoid(pairs);
    var texts := Texts(pairs);
    if pairs == [] {
      FlatMapOne(ParamPairs, []);
    } else {
      SplitJoin(texts, Ampersand);
    }
  }

  function Read(p: Pair): Pair {
    Pair(Decoded(Query, p.key), Decoded(Query, p.value))
  }

  lemma ReadEncoded(p: Pair)
    ensures Read(Encoded(p)) == p
  {
    UnescapeEscape(Query, p.key);
    UnescapeEscape(Query, p.value);
  }

  /** The sorted encoded pairs are the encodings of the same decoded pairs in some order. */
  lemma SortedAreEncodings(pairs: seq<Pair>)
    ensures var sorted := Sort(PairLeq, Map(Encoded, pairs));
            Map(Encoded, Map(Read, sorted)) == sorted && multiset(Map(Read, sorted)) == multiset(pairs)
  {
    var encoded := Map(Encoded, pairs);
    var sorted := Sort(PairLeq, encoded);
    SortElements(PairLeq, encoded);
    forall i | 0 <= i < |sorted| ensures Encoded(Read(sorted[i])) == sorted[i] {
      assert sorted[i] in multiset(encoded);
      var k :| 0 <= k < |encoded| && encoded[k] == sorted[i];
      ReadEncoded(pairs[k]);
    }
    MapPermutation(Read, encoded, sorted);
    forall i | 0 <= i < |pairs| ensures Map(Read, encoded)[i] == pairs[i] {
      ReadEncoded(pairs[i]);
    }
    assert Map(Read, encoded) == pairs;
  }

  /** The canonical form decodes to the same pairs, counted with repetition, and encodes them in order. */
  lemma CanonicalKeepsPairs(query: Bytes)
    ensures multiset(DecodedPairs(Canonical(query))) == multiset(DecodedPairs(query))
    ensures Map(Encoded, DecodedPairs(Canonical(query))) == Sort(PairLeq, Map(Encoded, DecodedPairs(query)))
  {
    var pairs := DecodedPairs(query);
    SortedAreEncodings(pairs);
    RenderReadsBack(Map(Read, Sort(PairLeq, Map(Encoded, pairs))));
  }

  /** Two query strings have one canonical form exactly when they decode to the same pairs. */
  lemma SameFormIffSamePairs(a: Bytes, b: Bytes)
    ensures Canonical(a) == Canonical(b) <==> multiset(DecodedPairs(a)) == multiset(DecodedPairs(b))
  {
    if multiset(DecodedPairs(a)) == multiset(DecodedPairs(b)) {
      MapPermutation(Encoded, DecodedPairs(a), DecodedPairs(b));
      PairLeqIsTotalOrder();
      SortPermutation(PairLeq, Map(Encoded, DecodedPairs(a)), Map(Encoded, DecodedPairs(b)));
    } else {
      CanonicalKeepsPairs(a);
      CanonicalKeepsPairs(b);
    }
  }

  lemma CanonicalIsIdempotent(query: Bytes)
    ensures Canonical(Canonical(query)) == Canonical(query)
  {
    CanonicalKeepsPairs(query);
    SameFormIffSamePairs(Canonical(query), query);
  }

  /** The order of the parameters does not matter. */
  lemma ParameterOrderIsIrrelevant(a: Bytes, b: Bytes)
    requires multiset(Split(a, Ampersand)) == multiset(Split(b, Ampersand))
    ensures Canonical(a) == Canonical(b)
  {
    FlatMapPermutation(ParamPairs, Split(a, Ampersand), Split(b, Ampersand));
    SameFormIffSamePairs(a, b);
  }

  lemma CollectPush(params: seq<Bytes>, p: Bytes)
    ensures Map(Encoded, FlatMap(ParamPairs, params + [p]))
         == Map(Encoded, FlatMap(ParamPairs, params)) + if p == [] then [] else [Encoded(DecodedPair(p))]
  {
    FlatMapPush(ParamPairs, params, p);
  }

  /** Decodes and encodes again every parameter that is not empty. */
  method CollectPairs(params: seq<Bytes>) returns (pairs: seq<Pair>)
    ensures pairs == Map(Encoded, FlatMap(ParamPairs, params))
  {
    pairs := [];
    for i := 0 to |params|
      invariant pairs == Map(Encoded, FlatMap(ParamPairs, params[..i]))
    {
      CollectPush(params[..i], params[i]);
      FirstsPlusOne(params, i);
      if params[i] != [] {
        pairs := pairs + [Encoded(DecodedPair(params[i]))];
      }
    }
    assert params[..|params|] == params;
  }

  method RenderPairs(pairs: seq<Pair>) returns (r: Bytes)
    ensures r == Render(pairs)
  {
    var encoded := [];
    for i := 0 to |pairs|
      invariant encoded == Map(Text, pairs[..i])
    {
      encoded := encoded + [Text(pairs[i])];
    }
    assert pairs[..|pairs|] == pairs;
    return Join(encoded, Ampersand);
  }

  lemma CanonicalOfEmpty()
    ensures Canonical([]) == []
  {
    FlatMapOne(ParamPairs, []);
    assert DecodedPairs([]) == [];
  }

  /** The canonical query string, computed as the code does: collect the encoded pairs, sort them, render them. */
  method GetCanonicalQueryString(rawQuery: Bytes) returns (r: Bytes)
    ensures r == Canonical(rawQuery)
  {
    if rawQuery == [] {
      CanonicalOfEmpty();
      return [];
    }
    var pairs := CollectPairs(Split(rawQuery, Ampersand));
    r := RenderPairs(Sort(PairLeq, pairs));
  }

  // ---- presigned requests ----

  /** The pairs of one key of a parsed query, unless it is left out of the signature. */
  function Entries(values: map<Bytes, seq<Bytes>>, excluded: set<Bytes>): Bytes -> seq<Pair> {
    key => if key in excluded || key !in values then [] else Map(v => Pair(key, v), values[key])
  }

  /** A sequence that lists every key once: an order in which a map may be walked. */
  ghost predicate IsOrder(values: map<Bytes, seq<Bytes>>, order: seq<Bytes>) {
    multiset(order) == multiset(values.Keys)
  }

  /** The pairs of a parsed query, in the order its keys are walked. */
  function Listed(values: map<Bytes, seq<Bytes>>, excluded: set<Bytes>, order: seq<Bytes>): seq<Pair> {
    FlatMap(Entries(values, excluded), order)
  }

  function Filtered(values: map<Bytes, seq<Bytes>>, excluded: set<Bytes>, order: seq<Bytes>): Bytes {
    Join(Sort(Leq, Texts(Listed(values, excluded, order))), Ampersand)
  }

  /** The filtered query does not depend on the order in which the map is walked. */
  lemma MapOrderIsIrrelevant(values: map<Bytes, seq<Bytes>>, excluded: set<Bytes>, a: seq<Bytes>, b: seq<Bytes>)
    requires IsOrder(values, a) && IsOrder(values, b)
    ensures Filtered(values, excluded, a) == Filtered(values, excluded, b)
  {
    var p, q := Listed(values, excluded, a), Listed(values, excluded, b);
    FlatMapPermutation(Entries(values, excluded), a, b);
    MapPermutation(Encoded, p, q);
    MapPermutation(Text, Map(Encoded, p), Map(Encoded, q));
    LeqIsTotalOrder();
    SortPermutation(Leq, Texts(p), Texts(q));
  }

  /** The filtered query decodes to the listed pairs, and canonicalising it a second time changes nothing. */
  lemma FilteredKeepsPairs(values: map<Bytes, seq<Bytes>>, excluded: set<Bytes>, order: seq<Bytes>)
    ensures multiset(DecodedPairs(Filtered(values, excluded, order))) == multiset(Listed(values, excluded, order))
    ensures Canonical(Canonical(Filtered(values, excluded, order))) == Canonical(Filtered(values, excluded, order))
  {
    var pairs := Listed(values, excluded, order);
    var texts := Texts(pairs);
    var sorted := Sort(Leq, texts);
    SortElements(Leq, texts);
    TextsReadBack(pairs);
    TextsAvoid(pairs);
    FlatMapPermutation(ParamPairs, texts, sorted);
    forall i | 0 <= i < |sorted| ensures Ampersand !in sorted[i] {
      assert sorted[i] in multiset(texts);
      assert sorted[i] in texts;
    }
    if sorted == [] {
      FlatMapOne(ParamPairs, []);
    } else {
      SplitJoin(sorted, Ampersand);
    }
    CanonicalIsIdempotent(Filtered(values, excluded, order));
  }

  lemma TextsAppend(a: seq<Pair>, b: seq<Pair>)
    ensures Texts(a + b) == Texts(a) + Texts(b)
  {
  }

  lemma ListedPush(values: map<Bytes, seq<Bytes>>, excluded: set<Bytes>, order: seq<Bytes>, key: Bytes)
    ensures Texts(Listed(values, excluded, order + [key]))
         == Texts(Listed(values, excluded, order)) + Texts(Entries(values, excluded)(key))
  {
    FlatMapPush(Entries(values, excluded), order, key);
    TextsAppend(Listed(values, excluded, order), Entries(values, excluded)(key));
  }

  /** The loops of the code, walking the map in a given order. */
  method FilterQueryParams(values: map<Bytes, seq<Bytes>>, excluded: set<Bytes>, order: seq<Bytes>) returns (r: Bytes)
    requires IsOrder(values, order)
    ensures r == Filtered(values, excluded, order)
  {
    var pairs := [];
    for i := 0 to |order|
      invariant pairs == Texts(Listed(values, excluded, order[..i]))
    {
      var key := order[i];
      ListedPush(values, excluded, order[..i], key);
      assert order[..i + 1] == order[..i] + [key];
      if key in excluded {
        continue;
      }
      assert key in multiset(order);
      var texts := TextsOf(key, values[key]);
      pairs := pairs + texts;
    }
    assert order[..|order|] == order;
    return Join(Sort(Leq, pairs), Ampersand);
  }

  method TextsOf(key: Bytes, vs: seq<Bytes>) returns (texts: seq<Bytes>)
    ensures texts == Texts(Map(v => Pair(key, v), vs))
  {
    texts := [];
    for i := 0 to |vs|
      invariant texts == Texts(Map(v => Pair(key, v), vs[..i]))
    {
      texts := texts + [Escape(Query, key) + [Equals] + Escape(Query, vs[i])];
    }
    assert vs[..|vs|] == vs;
  }

  // ---- canonical paths ----

  /** A path with a slash in front. */
  function Rooted(path: Bytes): Bytes {
    if path != [] && path[0] == Slash then path else [Slash] + path
  }

  function EscapeSegment(s: Bytes): Bytes {
    Escape(Segment, s)
  }

  /** A path with its segments encoded and its slashes kept. */
  function EncodedPath(path: Bytes): Bytes {
    Join(Map(EscapeSegment, Split(path, Slash)), Slash)
  }

  /** The path a signature covers. */
  function CanonicalUri(path: Bytes): Bytes {
    Rooted(EncodedPath(Decoded(Segment, if path == [] then [Slash] else path)))
  }

  /** The path a request means. */
  function MeantPath(path: Bytes): Bytes {
    Rooted(Decoded(Segment, path))
  }

  lemma PushOn(c: Byte, s: Bytes, tail: Bytes)
    ensures Push(c, Some(s + tail)) == Some([c] + s + tail)
  {
    assert [c] + (s + tail) == [c] + s + tail;
  }

  lemma EscapeStep(mode: Mode, s: Bytes, rest: Bytes)
    requires s != []
    ensures Escape(mode, s) + rest == EscapeByte(mode, s[0]) + (Escape(mode, s[1..]) + rest)
  {
  }

  lemma {:induction false} UnescapeAfter(mode: Mode, s: Bytes, rest: Bytes, tail: Bytes)
    requires Unescape(mode, rest) == Some(tail)
    ensures Unescape(mode, Escape(mode, s) + rest) == Some(s + tail)
  {
    if s == [] {
      assert Escape(mode, s) + rest == rest && s + tail == tail;
    } else {
      UnescapeAfter(mode, s[1..], rest, tail);
      EscapeStep(mode, s, rest);
      UnescapeByte(mode, s[0], Escape(mode, s[1..]) + rest);
      PushOn(s[0], s[1..], tail);
      assert [s[0]] + s[1..] == s;
    }
  }

  lemma SlashDecodes(rest: Bytes)
    ensures Unescape(Segment, [Slash] + rest) == Push(Slash, Unescape(Segment, rest))
  {
    assert ([Slash] + rest)[1..] == rest;
  }

  lemma JoinStep(parts: seq<Bytes>)
    requires |parts| > 1
    ensures Join(parts, Slash) == parts[0] + ([Slash] + Join(parts[1..], Slash))
  {
  }

  lemma {:induction false} JoinedDecodes(parts: seq<Bytes>)
    ensures Unescape(Segment, Join(Map(EscapeSegment, parts), Slash)) == Some(Join(parts, Slash))
  {
    if |parts| == 1 {
      UnescapeEscape(Segment, parts[0]);
    } else if |parts| > 1 {
      JoinedDecodes(parts[1..]);
      var escaped := Map(EscapeSegment, parts);
      assert escaped[1..] == Map(EscapeSegment, parts[1..]);
      SlashDecodes(Join(escaped[1..], Slash));
      UnescapeAfter(Segment, parts[0], [Slash] + Join(escaped[1..], Slash), [Slash] + Join(parts[1..], Slash));
      JoinStep(parts);
      JoinStep(escaped);
    }
  }

  lemma EncodedPathDecodes(path: Bytes)
    ensures Unescape(Segment, EncodedPath(path)) == Some(path)
  {
    JoinedDecodes(Split(path, Slash));
    JoinSplit(path, Slash);
  }

  lemma SlashStays(path: Bytes)
    ensures EncodedPath([Slash] + path) == [Slash] + EncodedPath(path)
  {
    SplitStep([], Slash, path);
    assert [Slash] + path == [] + [Slash] + path;
    var parts := Split(path, Slash);
    assert Map(EscapeSegment, [[]] + parts) == [[]] + Map(EscapeSegment, parts);
    assert ([[]] + Map(EscapeSegment, parts))[1..] == Map(EscapeSegment, parts);
  }

  lemma NoSlashComes(path: Bytes)
    requires path == [] || path[0] != Slash
    ensures EncodedPath(path) == [] || EncodedPath(path)[0] != Slash
  {
    var parts := Split(path, Slash);
    if path != [] {
      EscapeAvoids(Segment, parts[0], Slash);
      assert parts[0][0] == path[0];
    }
  }

  /** The canonical path is the encoding of the path meant. */
  lemma CanonicalUriEncodes(path: Bytes)
    ensures CanonicalUri(path) == EncodedPath(MeantPath(path))
  {
    var d := Decoded(Segment, if path == [] then [Slash] else path);
    SlashDecodes([]);
    assert [Slash] + [] == [Slash] && Rooted(d) == MeantPath(path);
    if d != [] && d[0] == Slash {
      assert d == [Slash] + d[1..];
      SlashStays(d[1..]);
    } else {
      NoSlashComes(d);
      SlashStays(d);
    }
  }

  /** Two paths have one canonical form exactly when they mean the same path. */
  lemma SameUriIffSamePath(a: Bytes, b: Bytes)
    ensures CanonicalUri(a) == CanonicalUri(b) <==> MeantPath(a) == MeantPath(b)
  {
    CanonicalUriEncodes(a);
    CanonicalUriEncodes(b);
    EncodedPathDecodes(MeantPath(a));
    EncodedPathDecodes(MeantPath(b));
  }

  lemma CanonicalUriIsIdempotent(path: Bytes)
    ensures CanonicalUri(CanonicalUri(path)) == CanonicalUri(path)
  {
    CanonicalUriEncodes(path);
    EncodedPathDecodes(MeantPath(path));
    SameUriIffSamePath(CanonicalUri(path), path);
  }
}
