/** Splitting a text at a separator and joining it again. */
module Splitting {

  /** What comes before the first separator, or everything. */
  function Before<T(==)>(s: seq<T>, c: T): (p: seq<T>)
    ensures p <= s && c !in p
    ensures |p| < |s| ==> s[|p|] == c
  {
    if s == [] || s[0] == c then [] else [s[0]] + Before(s[1..], c)
  }

  function Split<T(==)>(s: seq<T>, c: T): (parts: seq<seq<T>>)
    ensures parts != []
  {
    var first := Before(s, c);
    if |first| == |s| then [first] else [first] + Split(s[|first| + 1..], c)
  }

  function Join<T>(parts: seq<seq<T>>, c: T): seq<T> {
    if parts == [] then [] else if |parts| == 1 then parts[0] else parts[0] + [c] + Join(parts[1..], c)
  }

  lemma {:induction false} BeforeStops<T>(a: seq<T>, c: T, b: seq<T>)
    requires c !in a
    ensures Before(a + [c] + b, c) == a && Before(a, c) == a
  {
    if a == [] {
      assert (a + [c] + b)[0] == c;
    } else {
      BeforeStops(a[1..], c, b);
      assert (a + [c] + b)[1..] == a[1..] + [c] + b;
    }
  }

  lemma SplitStep<T>(a: seq<T>, c: T, b: seq<T>)
    requires c !in a
    ensures Split(a, c) == [a]
    ensures Split(a + [c] + b, c) == [a] + Split(b, c)
  {
    BeforeStops(a, c, b);
    assert (a + [c] + b)[|a| + 1..] == b;
  }

  ghost predicate Avoid<T>(parts: seq<seq<T>>, c: T) {
    forall i | 0 <= i < |parts| :: c !in parts[i]
  }

  /** Splitting undoes joining. */
  lemma {:induction false} SplitJoin<T>(parts: seq<seq<T>>, c: T)
    requires parts != [] && Avoid(parts, c)
    ensures Split(Join(parts, c), c) == parts
  {
    var rest := parts[1..];
    assert parts == [parts[0]] + rest;
    SplitStep(parts[0], c, Join(rest, c));
    if rest != [] {
      SplitJoin(rest, c);
    }
  }

  lemma JoinFirst<T>(a: seq<T>, rest: seq<seq<T>>, c: T)
    requires rest != []
    ensures Join([a] + rest, c) == a + [c] + Join(rest, c)
  {
    assert ([a] + rest)[1..] == rest;
  }

  /** A text with a separator is its first part, the separator, and the rest. */
  lemma FirstPart<T>(s: seq<T>, c: T, rest: seq<T>)
    requires |Before(s, c)| < |s| && rest == s[|Before(s, c)| + 1..]
    ensures s == Before(s, c) + [c] + rest && Split(s, c) == [Before(s, c)] + Split(rest, c)
  {
  }

  /** Joining undoes splitting. */
  lemma {:induction false} JoinSplit<T>(s: seq<T>, c: T)
    ensures Join(Split(s, c), c) == s
  {
    var first := Before(s, c);
    if |first| < |s| {
      var rest := s[|first| + 1..];
      FirstPart(s, c, rest);
      JoinSplit(rest, c);
      JoinFirst(first, Split(rest, c), c);
    }
  }

  lemma RegroupParts<T>(a: seq<T>, b: seq<T>, d: seq<T>, c: T)
    ensures a + [c] + b + [c] + d == a + [c] + (b + [c] + d)
  {
  }

  lemma RegroupLast<T>(a: seq<T>, b: seq<seq<T>>, d: seq<T>)
    ensures [a] + (b + [d]) == [a] + b + [d]
  {
  }

  /** A last part can be split off. */
  lemma {:induction false} SplitPush<T>(s: seq<T>, c: T, last: seq<T>)
    requires c !in last
    ensures Split(s + [c] + last, c) == Split(s, c) + [last]
  {
    var first := Before(s, c);
    SplitStep(last, c, []);
    if |first| == |s| {
      SplitStep(s, c, last);
    } else {
      var rest := s[|first| + 1..];
      FirstPart(s, c, rest);
      SplitPush(rest, c, last);
      RegroupParts(first, rest, last, c);
      SplitStep(first, c, rest + [c] + last);
      RegroupLast(first, Split(rest, c), last);
    }
  }
}
