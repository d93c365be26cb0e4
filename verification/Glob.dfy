/** The wildcard matcher used for actions, resources, principals and StringLike conditions. */
module Glob {

  /** The glob relation: '*' stands for any run of bytes, '?' for one byte. */
  ghost predicate Matches(p: string, s: string)
    decreases |p|
  {
    if p == "" then s == ""
    else if p[0] == '*' then exists k | 0 <= k <= |s| :: Matches(p[1..], s[k..])
    else s != "" && (p[0] == '?' || p[0] == s[0]) && Matches(p[1..], s[1..])
  }

  /** The relation between the rest of the pattern from `i` and the rest of the string from `j`. */
  ghost predicate MatchesFrom(p: string, s: string, i: nat, j: nat)
    requires i <= |p| && j <= |s|
  {
    Matches(p[i..], s[j..])
  }

  /** Some restart position at or after `j` lets the pattern from `i` match. */
  ghost predicate MatchesLater(p: string, s: string, i: nat, j: nat)
    requires i <= |p|
  {
    exists k | j <= k <= |s| :: MatchesFrom(p, s, i, k)
  }

  /** One byte of the pattern accepts one byte of the string without being a registered star. */
  predicate Accepts(c: char, b: char) {
    c == b || c == '?'
  }

  function SkipStars(p: string, i: nat): (r: nat)
    requires i <= |p|
    ensures i <= r <= |p|
    ensures forall k | i <= k < r :: p[k] == '*'
    ensures r < |p| ==> p[r] != '*'
    decreases |p| - i
  {
    if i < |p| && p[i] == '*' then SkipStars(p, i + 1) else i
  }

  /** The outcome of the matcher's loop from a given configuration of its four indices. */
  predicate Outcome(p: string, s: string, pi: nat, si: nat, star: int, restart: nat)
    requires -1 <= star < pi <= |p| && restart <= si <= |s|
    decreases |p| - star, |s| - restart, |s| - si
  {
    if si == |s| then SkipStars(p, pi) == |p|
    else if pi < |p| && Accepts(p[pi], s[si]) then Outcome(p, s, pi + 1, si + 1, star, restart)
    else if pi < |p| && p[pi] == '*' then Outcome(p, s, pi + 1, si, pi, si)
    else if star != -1 then Outcome(p, s, star + 1, restart + 1, star, restart + 1)
    else false
  }

  /** What the matcher answers, as a function. */
  predicate Answer(p: string, s: string) {
    Outcome(p, s, 0, 0, -1, 0)
  }

  /** The matcher itself: two cursors, and only the latest star to fall back to. */
  method GlobMatch(pattern: string, str: string) returns (matched: bool)
    ensures matched == Answer(pattern, str)
    ensures matched ==> Matches(pattern, str)
    ensures '*' !in str ==> (matched <==> Matches(pattern, str))
  {
    var pi, si := 0, 0;
    var starIdx := -1;
    var matchIdx := 0;
    Sound(pattern, str);
    if '*' !in str { Complete(pattern, str); }
    while si < |str|
      invariant -1 <= starIdx < pi <= |pattern| && matchIdx <= si <= |str|
      invariant Answer(pattern, str) == Outcome(pattern, str, pi, si, starIdx, matchIdx)
      decreases |pattern| - starIdx, |str| - matchIdx, |str| - si
    {
      if pi < |pattern| && (pattern[pi] == str[si] || pattern[pi] == '?') {
        pi := pi + 1;
        si := si + 1;
      } else if pi < |pattern| && pattern[pi] == '*' {
        starIdx := pi;
        matchIdx := si;
        pi := pi + 1;
      } else if starIdx != -1 {
        pi := starIdx + 1;
        matchIdx := matchIdx + 1;
        si := matchIdx;
      } else {
        return false;
      }
    }
    while pi < |pattern| && pattern[pi] == '*'
      invariant pi <= |pattern|
      invariant Answer(pattern, str) == (SkipStars(pattern, pi) == |pattern|)
    {
      pi := pi + 1;
    }
    return pi == |pattern|;
  }

  // ---- stepping lemmas for the relation ----

  lemma StarStep(p: string, s: string, i: nat, j: nat)
    requires i < |p| && j <= |s| && p[i] == '*'
    ensures MatchesFrom(p, s, i, j) <==> MatchesLater(p, s, i + 1, j)
  {
    assert p[i..][1..] == p[i + 1..];
    if MatchesFrom(p, s, i, j) {
      var k :| 0 <= k <= |s[j..]| && Matches(p[i..][1..], s[j..][k..]);
      assert s[j..][k..] == s[j + k..];
      assert MatchesFrom(p, s, i + 1, j + k);
    }
    if MatchesLater(p, s, i + 1, j) {
      var k :| j <= k <= |s| && MatchesFrom(p, s, i + 1, k);
      assert s[j..][k - j..] == s[k..];
    }
  }

  lemma ByteStep(p: string, s: string, i: nat, j: nat)
    requires i < |p| && j < |s| && p[i] != '*'
    ensures MatchesFrom(p, s, i, j) <==> Accepts(p[i], s[j]) && MatchesFrom(p, s, i + 1, j + 1)
  {
    assert p[i..][1..] == p[i + 1..] && s[j..][1..] == s[j + 1..];
  }

  /** Accepting a byte is sound even when both bytes are '*'. */
  lemma AcceptStep(p: string, s: string, i: nat, j: nat)
    requires i < |p| && j < |s| && Accepts(p[i], s[j]) && MatchesFrom(p, s, i + 1, j + 1)
    ensures MatchesFrom(p, s, i, j)
  {
    if p[i] == '*' {
      StarStep(p, s, i, j);
    } else {
      ByteStep(p, s, i, j);
    }
  }

  lemma {:induction false} EndStep(p: string, s: string, i: nat)
    requires i <= |p|
    ensures MatchesFrom(p, s, i, |s|) <==> SkipStars(p, i) == |p|
    decreases |p| - i
  {
    if i < |p| && p[i] == '*' {
      StarStep(p, s, i, |s|);
      EndStep(p, s, i + 1);
    }
  }

  // ---- soundness, for every string ----

  lemma {:induction false} SoundFrom(p: string, s: string, pi: nat, si: nat, star: int, restart: nat)
    requires -1 <= star < pi <= |p| && restart <= si <= |s|
    requires Outcome(p, s, pi, si, star, restart)
    ensures MatchesFrom(p, s, pi, si) || (star != -1 && MatchesLater(p, s, star + 1, restart))
    decreases |p| - star, |s| - restart, |s| - si
  {
    if si == |s| {
      EndStep(p, s, pi);
    } else if pi < |p| && Accepts(p[pi], s[si]) {
      SoundFrom(p, s, pi + 1, si + 1, star, restart);
      if MatchesFrom(p, s, pi + 1, si + 1) { AcceptStep(p, s, pi, si); }
    } else if pi < |p| && p[pi] == '*' {
      SoundFrom(p, s, pi + 1, si, pi, si);
      StarStep(p, s, pi, si);
    } else {
      SoundFrom(p, s, star + 1, restart + 1, star, restart + 1);
    }
  }

  /** A positive answer is right for every pattern and every string. */
  lemma Sound(p: string, s: string)
    ensures Answer(p, s) ==> Matches(p, s)
  {
    assert p[0..] == p && s[0..] == s;
    if Answer(p, s) { SoundFrom(p, s, 0, 0, -1, 0); }
  }

  // ---- completeness, for strings without '*' ----

  /** A star-free stretch of pattern consumes exactly its own length. */
  lemma {:induction false} StretchStep(p: string, s: string, i: nat, j: nat, n: nat)
    requires i + n <= |p| && j <= |s|
    requires forall k | i <= k < i + n :: p[k] != '*'
    requires MatchesFrom(p, s, i, j)
    ensures j + n <= |s| && MatchesFrom(p, s, i + n, j + n)
    decreases n
  {
    if n > 0 {
      assert j < |s| by {
        if j == |s| { EndStep(p, s, i); }
      }
      ByteStep(p, s, i, j);
      StretchStep(p, s, i + 1, j + 1, n - 1);
    }
  }

  /** What the loop remembers: since the last star the cursors moved in step over star-free pattern. */
  ghost predicate InStep(p: string, s: string, pi: nat, si: nat, star: int, restart: nat) {
    && -1 <= star < pi + 1
    && pi <= |p| && restart <= si <= |s|
    && (star == -1 ==> restart == 0)
    && pi - (star + 1) == si - restart
    && (forall k | star < k < pi :: p[k] != '*')
    && (MatchesFrom(p, s, star + 1, restart) <==> MatchesFrom(p, s, pi, si))
  }

  /** What is still open: a match from the current cursors, or from a later restart of the last star. */
  ghost predicate Open(p: string, s: string, star: int, restart: nat)
    requires -1 <= star < |p| && restart <= |s|
  {
    if star == -1 then MatchesFrom(p, s, 0, 0) else MatchesLater(p, s, star + 1, restart)
  }

  /** Dropping the older star loses nothing: any match from it gives one from the newer star. */
  lemma NewerStarSuffices(p: string, s: string, pi: nat, si: nat, star: int, restart: nat)
    requires InStep(p, s, pi, si, star, restart) && star < pi < |p| && p[pi] == '*'
    requires Open(p, s, star, restart)
    ensures MatchesLater(p, s, pi + 1, si)
  {
    var k :| restart <= k <= |s| && MatchesFrom(p, s, star + 1, k);
    StretchStep(p, s, star + 1, k, pi - (star + 1));
    var k' := k + (pi - (star + 1));
    StarStep(p, s, pi, k');
    var m :| k' <= m <= |s| && MatchesFrom(p, s, pi + 1, m);
  }

  lemma {:induction false} CompleteFrom(p: string, s: string, pi: nat, si: nat, star: int, restart: nat)
    requires '*' !in s
    requires star < pi && InStep(p, s, pi, si, star, restart) && star < |p|
    requires Open(p, s, star, restart)
    ensures Outcome(p, s, pi, si, star, restart)
    decreases |p| - star, |s| - restart, |s| - si
  {
    if si == |s| {
      if MatchesFrom(p, s, pi, si) {
        EndStep(p, s, pi);
      } else {
        var k :| restart <= k <= |s| && MatchesFrom(p, s, star + 1, k);
        StretchStep(p, s, star + 1, k, pi - (star + 1));
        assert false;
      }
    } else if pi < |p| && Accepts(p[pi], s[si]) {
      ByteStep(p, s, pi, si);
      CompleteFrom(p, s, pi + 1, si + 1, star, restart);
    } else if pi < |p| && p[pi] == '*' {
      NewerStarSuffices(p, s, pi, si, star, restart);
      CompleteFrom(p, s, pi + 1, si, pi, si);
    } else {
      assert !MatchesFrom(p, s, pi, si) by {
        if pi < |p| { ByteStep(p, s, pi, si); }
      }
      var k :| restart <= k <= |s| && MatchesFrom(p, s, star + 1, k);
      assert k != restart;
      CompleteFrom(p, s, star + 1, restart + 1, star, restart + 1);
    }
  }

  lemma Complete(p: string, s: string)
    requires '*' !in s
    ensures Answer(p, s) <==> Matches(p, s)
  {
    assert p[0..] == p && s[0..] == s;
    Sound(p, s);
    if Matches(p, s) {
      if p == "" {
      } else {
        CompleteFrom(p, s, 0, 0, -1, 0);
      }
    }
  }

  // ---- the completeness condition is exact ----

  /** The index of the last '*' of a string. */
  function LastStar(s: string): (n: nat)
    requires '*' in s
    ensures n < |s| && s[n] == '*' && '*' !in s[n + 1..]
  {
    if s[|s| - 1] == '*' then |s| - 1
    else
      var n := LastStar(s[..|s| - 1]);
      assert s[n + 1..] == s[..|s| - 1][n + 1..] + [s[|s| - 1]];
      n
  }

  /** A pattern on which the matcher answers wrongly: the string with '?' after its last '*'. */
  function Misjudged(s: string): (p: string)
    requires '*' in s
  {
    var n := LastStar(s);
    s[..n] + "*?" + s[n + 1..]
  }

  /** It is the string with its last star doubled up as a star and a question mark. */
  lemma MisjudgedBytes(s: string, k: nat)
    requires '*' in s && k < |s|
    ensures |Misjudged(s)| == |s| + 1
    ensures k < LastStar(s) ==> Misjudged(s)[k] == s[k]
    ensures k == LastStar(s) ==> Misjudged(s)[k] == '*' && Misjudged(s)[k + 1] == '?'
    ensures k > LastStar(s) ==> Misjudged(s)[k + 1] == s[k]
  {
  }

  lemma {:induction false} MisjudgedTailMatches(s: string, k: nat)
    requires '*' in s && LastStar(s) < k <= |s|
    ensures |Misjudged(s)| == |s| + 1 && MatchesFrom(Misjudged(s), s, k + 1, k)
    decreases |s| - k
  {
    if k < |s| {
      MisjudgedBytes(s, k);
      MisjudgedTailMatches(s, k + 1);
      AcceptStep(Misjudged(s), s, k + 1, k);
    }
  }

  lemma {:induction false} MisjudgedMatchesFrom(s: string, k: nat)
    requires '*' in s && k <= LastStar(s)
    ensures |Misjudged(s)| == |s| + 1 && MatchesFrom(Misjudged(s), s, k, k)
    decreases |s| - k
  {
    var p := Misjudged(s);
    MisjudgedBytes(s, k);
    if k == LastStar(s) {
      MisjudgedTailMatches(s, k + 1);
      AcceptStep(p, s, k + 1, k);
      StarStep(p, s, k, k);
    } else {
      MisjudgedMatchesFrom(s, k + 1);
      AcceptStep(p, s, k, k);
    }
  }

  lemma {:induction false} MisjudgedRejectedFrom(s: string, k: nat)
    requires '*' in s && k <= |s|
    ensures !Outcome(Misjudged(s), s, k, k, -1, 0)
    decreases |s| - k
  {
    var p := Misjudged(s);
    if k < |s| && Accepts(p[k], s[k]) {
      MisjudgedRejectedFrom(s, k + 1);
    }
  }

  /** The matcher decides the relation for every pattern exactly when the string has no '*'. */
  lemma CompleteExactlyWithoutStars(s: string)
    ensures (forall p :: Answer(p, s) <==> Matches(p, s)) <==> '*' !in s
  {
    if '*' in s {
      var p := Misjudged(s);
      assert p[0..] == p && s[0..] == s;
      MisjudgedMatchesFrom(s, 0);
      MisjudgedRejectedFrom(s, 0);
      assert Answer(p, s) != Matches(p, s);
    } else {
      forall p ensures Answer(p, s) <==> Matches(p, s) { Complete(p, s); }
    }
  }

  // ---- literal patterns ----

  predicate Literal(p: string) {
    '*' !in p && '?' !in p
  }

  lemma {:induction false} LiteralThen(q: string, rest: string, s: string)
    requires Literal(q)
    ensures Matches(q + rest, s) <==> q <= s && Matches(rest, s[|q|..])
    decreases |q|
  {
    if q == "" {
      assert q + rest == rest && s[0..] == s;
    } else {
      assert (q + rest)[1..] == q[1..] + rest;
      if s != "" {
        LiteralThen(q[1..], rest, s[1..]);
        assert q == [q[0]] + q[1..] && s == [s[0]] + s[1..];
        if q <= s { assert s[1..][|q[1..]|..] == s[|q|..]; }
      }
    }
  }

  /** A pattern without wildcards matches itself and nothing else. */
  lemma LiteralIsEquality(p: string, s: string)
    requires Literal(p)
    ensures Matches(p, s) <==> p == s
  {
    assert p + "" == p;
    LiteralThen(p, "", s);
    if p <= s {
      assert s == p + s[|p|..];
    }
  }

  lemma StarMatchesAll(s: string)
    ensures Matches("*", s)
  {
    assert s[|s|..] == "" && Matches("*"[1..], s[|s|..]);
  }

  lemma {:induction false} MatchesItself(p: string)
    ensures Matches(p, p)
  {
    if p != "" {
      MatchesItself(p[1..]);
      assert p[0..] == p && MatchesFrom(p, p, 1, 1);
      AcceptStep(p, p, 0, 0);
    }
  }
}
