/** What the canonical form of a query looks like on the wire: the order of its parameters and the bytes in it. */
module CanonicalForm {

  import opened CanonicalQuery
  import opened MachineWords
  import opened Options
  import opened Sorting
  import opened Splitting

  // ---- order ----

  /** The first place where two byte strings differ, with the smaller byte in the first. */
  ghost predicate SmallerAt(a: Bytes, b: Bytes, k: nat) {
    k < |a| && k < |b| && a[..k] == b[..k] && a[k] < b[k]
  }

  /** Dictionary order: a beginning comes first, and otherwise the first difference decides. */
  ghost predicate Ascends(a: Bytes, b: Bytes) {
    a <= b || exists k :: SmallerAt(a, b, k)
  }

  lemma SmallerLater(a: Bytes, b: Bytes, k: nat)
    requires a != [] && b != [] && a[0] == b[0]
    ensures SmallerAt(a, b, k + 1) <==> SmallerAt(a[1..], b[1..], k)
  {
    if k < |a[1..]| && k < |b[1..]| {
      assert a[..k + 1] == [a[0]] + a[1..][..k] && b[..k + 1] == [b[0]] + b[1..][..k];
      assert a[..k + 1][1..] == a[1..][..k] && b[..k + 1][1..] == b[1..][..k];
    }
  }

  lemma PrefixLater(a: Bytes, b: Bytes)
    requires a != [] && b != [] && a[0] == b[0]
    ensures a <= b <==> a[1..] <= b[1..]
  {
    assert a == [a[0]] + a[1..] && b == [b[0]] + b[1..];
  }

  lemma AscendsLater(a: Bytes, b: Bytes)
    requires a != [] && b != [] && a[0] == b[0]
    ensures Ascends(a, b) <==> Ascends(a[1..], b[1..])
  {
    PrefixLater(a, b);
    if k: nat :| SmallerAt(a, b, k) {
      assert k > 0;
      SmallerLater(a, b, k - 1);
    }
    if k: nat :| SmallerAt(a[1..], b[1..], k) {
      SmallerLater(a, b, k);
      assert SmallerAt(a, b, k + 1);
    }
  }

  lemma FirstByteDecides(a: Bytes, b: Bytes)
    requires a != [] && b != [] && a[0] != b[0]
    ensures Ascends(a, b) <==> a[0] < b[0]
  {
    if a[0] < b[0] {
      assert a[..0] == b[..0];
      assert SmallerAt(a, b, 0);
    }
    if k: nat :| SmallerAt(a, b, k) {
      if k > 0 { assert a[..k][0] == b[..k][0]; }
    }
  }

  /** The comparison of byte strings is dictionary order. */
  lemma {:induction false} LeqIsDictionaryOrder(a: Bytes, b: Bytes)
    ensures Leq(a, b) <==> Ascends(a, b)
  {
    if a != [] && b != [] {
      if a[0] == b[0] {
        LeqIsDictionaryOrder(a[1..], b[1..]);
        AscendsLater(a, b);
      } else {
        FirstByteDecides(a, b);
      }
    }
  }

  /** A parameter as it is written, split at its first equals sign. */
  function Written(param: Bytes): Pair {
    var key := Before(param, Equals);
    Pair(key, if |key| < |param| then param[|key| + 1..] else [])
  }

  /** Parameters ascend by key, and those of one key by value. */
  ghost predicate PairAscends(p: Pair, q: Pair) {
    if p.key != q.key then Ascends(p.key, q.key) else Ascends(p.value, q.value)
  }

  lemma WrittenText(p: Pair)
    ensures Written(Text(Encoded(p))) == Encoded(p)
  {
    var e := Encoded(p);
    EscapeAvoids(Query, p.key, Equals);
    BeforeStops(e.key, Equals, e.value);
    assert Text(e)[|e.key| + 1..] == e.value;
  }

  lemma SplitCanonical(query: Bytes)
    requires DecodedPairs(query) != []
    ensures Split(Canonical(query), Ampersand) == Map(Text, Sort(PairLeq, Map(Encoded, DecodedPairs(query))))
  {
    var sorted := Sort(PairLeq, Map(Encoded, DecodedPairs(query)));
    SortedAreEncodings(DecodedPairs(query));
    var pairs := Map(Read, sorted);
    assert |pairs| > 0 by {
      assert |multiset(pairs)| == |pairs| && |multiset(DecodedPairs(query))| == |DecodedPairs(query)|;
    }
    TextsAvoid(pairs);
    SplitJoin(Texts(pairs), Ampersand);
  }

  /** The parameters of a canonical query are written in ascending order, keys first and values among equal keys. */
  lemma CanonicalAscends(query: Bytes, i: nat, j: nat)
    requires i < j < |Split(Canonical(query), Ampersand)|
    ensures PairAscends(Written(Split(Canonical(query), Ampersand)[i]), Written(Split(Canonical(query), Ampersand)[j]))
  {
    var pairs := DecodedPairs(query);
    if pairs == [] {
      CanonicalOfNothing(query);
      assert false;
    } else {
      var sorted := Sort(PairLeq, Map(Encoded, pairs));
      SplitCanonical(query);
      PairLeqIsTotalOrder();
      SortSorts(PairLeq, Map(Encoded, pairs));
      assert PairLeq(sorted[i], sorted[j]);
      SortedAreEncodings(pairs);
      WrittenText(Read(sorted[i]));
      WrittenText(Read(sorted[j]));
      LeqIsDictionaryOrder(sorted[i].key, sorted[j].key);
      LeqIsDictionaryOrder(sorted[i].value, sorted[j].value);
    }
  }

  lemma CanonicalOfNothing(query: Bytes)
    requires DecodedPairs(query) == []
    ensures Split(Canonical(query), Ampersand) == [[]]
  {
    assert Canonical(query) == [];
  }

  /** The parameters of a filtered query ascend as whole texts. */
  lemma FilteredAscends(values: map<Bytes, seq<Bytes>>, excluded: set<Bytes>, order: seq<Bytes>, i: nat, j: nat)
    requires i < j < |Split(Filtered(values, excluded, order), Ampersand)|
    ensures var params := Split(Filtered(values, excluded, order), Ampersand); Ascends(params[i], params[j])
  {
    var texts := Texts(Listed(values, excluded, order));
    var sorted := Sort(Leq, texts);
    if texts == [] {
      FilteredOfNothing(values, excluded, order);
      assert false;
    } else {
      SortedAvoids(Listed(values, excluded, order));
      SplitJoin(sorted, Ampersand);
      LeqIsTotalOrder();
      SortSorts(Leq, texts);
      assert Leq(sorted[i], sorted[j]);
      LeqIsDictionaryOrder(sorted[i], sorted[j]);
    }
  }

  lemma FilteredOfNothing(values: map<Bytes, seq<Bytes>>, excluded: set<Bytes>, order: seq<Bytes>)
    requires Texts(Listed(values, excluded, order)) == []
    ensures Split(Filtered(values, excluded, order), Ampersand) == [[]]
  {
    assert Filtered(values, excluded, order) == [];
  }

  lemma SortedAvoids(pairs: seq<Pair>)
    ensures Avoid(Sort(Leq, Texts(pairs)), Ampersand) && |Sort(Leq, Texts(pairs))| == |pairs|
  {
    var texts := Texts(pairs);
    var sorted := Sort(Leq, texts);
    SortElements(Leq, texts);
    TextsAvoid(pairs);
    assert |multiset(sorted)| == |sorted| && |multiset(texts)| == |texts|;
    forall i | 0 <= i < |sorted| ensures Ampersand !in sorted[i] {
      assert sorted[i] in multiset(texts);
      assert sorted[i] in texts;
    }
  }

  // ---- bytes ----

  /** The unreserved characters of section 2.3 of RFC 3986. */
  predicate IsUnreserved(c: char) {
    'A' <= c <= 'Z' || 'a' <= c <= 'z' || '0' <= c <= '9' || c in "-_.~"
  }

  /** What stands for itself: the unreserved characters, and a few more in a path segment. */
  lemma KeptAre(c: Byte)
    ensures Kept(Query, c) <==> IsUnreserved(c as char)
    ensures Kept(Segment, c) <==> IsUnreserved(c as char) || c as char in "$&+=:@"
  {
  }

  predicate IsUpperDigit(c: Byte) {
    c as char in "0123456789ABCDEF"
  }

  /** A byte is written as itself, as a plus sign for a space in a query, or as a percent sign and two upper-case
      hexadecimal digits, and nothing else is. */
  lemma EscapedByte(mode: Mode, c: Byte)
    ensures var e := EscapeByte(mode, c);
            || (e == [c] && Kept(mode, c))
            || (e == [Plus] && mode == Query && c == Space)
            || (|e| == 3 && e[0] == Percent && IsUpperDigit(e[1]) && IsUpperDigit(e[2])
                && !Kept(mode, c) && !(mode == Query && c == Space))
  {
  }

  /** Digits are read in either case. */
  lemma DigitsOfEitherCase(n: nat)
    requires n < 16
    ensures IsDigit(Digit(n)) && DigitValue(Digit(n)) == n
    ensures n >= 10 ==> IsDigit(Digit(n) + 32) && DigitValue(Digit(n) + 32) == n
  {
  }

  /** Encoded text: bytes that stand for themselves, plus signs in a query, and percent signs with two upper-case
      hexadecimal digits. */
  ghost predicate WellEscaped(mode: Mode, s: Bytes) {
    || s == []
    || ((Kept(mode, s[0]) || (mode == Query && s[0] == Plus)) && WellEscaped(mode, s[1..]))
    || (|s| >= 3 && s[0] == Percent && IsUpperDigit(s[1]) && IsUpperDigit(s[2]) && WellEscaped(mode, s[3..]))
  }

  lemma {:induction false} EscapeIsWellEscaped(mode: Mode, s: Bytes)
    ensures WellEscaped(mode, Escape(mode, s))
  {
    if s != [] {
      EscapeIsWellEscaped(mode, s[1..]);
      EscapedByte(mode, s[0]);
      var e, rest := EscapeByte(mode, s[0]), Escape(mode, s[1..]);
      if |e| == 1 {
        assert (e + rest)[1..] == rest;
      } else {
        assert (e + rest)[3..] == rest;
      }
    }
  }

  /** Keys and values of a canonical query are encoded that way. */
  lemma CanonicalIsWellEscaped(query: Bytes, i: nat)
    requires i < |Split(Canonical(query), Ampersand)|
    ensures var p := Written(Split(Canonical(query), Ampersand)[i]);
            WellEscaped(Query, p.key) && WellEscaped(Query, p.value)
  {
    var pairs := DecodedPairs(query);
    if pairs == [] {
      CanonicalOfNothing(query);
    } else {
      var sorted := Sort(PairLeq, Map(Encoded, pairs));
      SplitCanonical(query);
      SortedAreEncodings(pairs);
      WrittenText(Read(sorted[i]));
      EscapeIsWellEscaped(Query, Read(sorted[i]).key);
      EscapeIsWellEscaped(Query, Read(sorted[i]).value);
    }
  }
}
