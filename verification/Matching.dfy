/** Action and resource patterns of a policy statement, and what they mean as globs. */
module Matching {
  import opened Glob
  import opened Strings
  import opened Sequences

  // ---- actions and resources ----

  const AnyOfService := ":*"

  predicate MatchAction(fold: CaseFold, pattern: string, action: string) {
    if pattern == "*" then true
    else
      var p, a := Folded(fold, pattern), Folded(fold, action);
      if p == a then true
      else if HasSuffix(p, AnyOfService) then p[..|p| - 2] + ":" <= a
      else if '*' in p || '?' in p then Answer(p, a)
      else false
  }

  predicate MatchResource(pattern: string, resource: string) {
    || pattern == "*"
    || pattern == resource
    || (('*' in pattern || '?' in pattern) && Answer(pattern, resource))
  }

  /** Resource matching is the glob relation, up to the matcher's own limits on strings with '*'. */
  lemma ResourceMatchIsGlob(pattern: string, resource: string)
    ensures MatchResource(pattern, resource) ==> Matches(pattern, resource)
    ensures '*' !in resource ==> (MatchResource(pattern, resource) <==> Matches(pattern, resource))
  {
    StarMatchesAll(resource);
    MatchesItself(pattern);
    Sound(pattern, resource);
    if '*' !in resource { Complete(pattern, resource); }
    if Literal(pattern) { LiteralIsEquality(pattern, resource); }
  }

  /** A "service:*" pattern whose service part itself has a wildcard. */
  predicate WildService(pattern: string) {
    HasSuffix(pattern, AnyOfService) && !Literal(pattern[..|pattern| - 2])
  }

  ghost predicate ActionMatchIsGlobFor(fold: CaseFold, pattern: string, action: string) {
    MatchAction(fold, pattern, action) <==> Matches(Folded(fold, pattern), Folded(fold, action))
  }

  /** What a wildcard byte may stand for: '*' for nothing, '?' for one letter. */
  function StandIn(c: char): string {
    if c == '*' then "" else if c == '?' then "x" else [c]
  }

  /** An action that a service part with wildcards stands for. */
  function Instance(service: string): string {
    if service == "" then "" else StandIn(service[0]) + Instance(service[1..])
  }

  lemma {:induction false} InstanceIsLiteral(service: string)
    ensures Literal(Instance(service))
  {
    if service != "" {
      InstanceIsLiteral(service[1..]);
    }
  }

  lemma {:induction false} InstanceOfParts(a: string, b: string)
    ensures Instance(a + b) == Instance(a) + Instance(b)
  {
    if a == "" {
      assert a + b == b;
    } else {
      InstanceOfParts(a[1..], b);
      assert (a + b)[0] == a[0] && (a + b)[1..] == a[1..] + b;
      Regroup(StandIn(a[0]), Instance(a[1..]), Instance(b));
    }
  }

  lemma {:induction false} InstanceOfLiteral(s: string)
    requires Literal(s)
    ensures Instance(s) == s
  {
    if s != "" {
      InstanceOfLiteral(s[1..]);
      assert s == [s[0]] + s[1..];
    }
  }

  // ---- folding ----

  lemma {:induction false} FoldedParts(fold: CaseFold, a: string, b: string)
    ensures Folded(fold, a + b) == Folded(fold, a) + Folded(fold, b)
  {
    if a == "" {
      assert a + b == b;
    } else {
      FoldedParts(fold, a[1..], b);
      assert (a + b)[0] == a[0] && (a + b)[1..] == a[1..] + b;
      Regroup(fold(a[0]), Folded(fold, a[1..]), Folded(fold, b));
    }
  }

  lemma FoldedOne(fold: CaseFold, c: char)
    ensures Folded(fold, [c]) == fold(c)
  {
    assert fold(c) + Folded(fold, [c][1..]) == fold(c);
  }

  /** Folding keeps marks as they are and makes no new ones. */
  lemma {:induction false} FoldedMarks(fold: CaseFold, s: string, m: char)
    requires IsMark(m)
    ensures m in Folded(fold, s) <==> m in s
  {
    if s != "" {
      FoldedMarks(fold, s[1..], m);
      assert s == [s[0]] + s[1..];
    }
  }

  lemma FoldedLast(fold: CaseFold, s: string, m: char)
    requires IsMark(m)
    ensures (Folded(fold, s) != "" && Folded(fold, s)[|Folded(fold, s)| - 1] == m) <==> s != "" && s[|s| - 1] == m
  {
    if s != "" {
      var front, c := s[..|s| - 1], s[|s| - 1];
      assert s == front + [c];
      FoldedParts(fold, front, [c]);
      FoldedOne(fold, c);
      assert Folded(fold, s)[|Folded(fold, s)| - 1] == fold(c)[|fold(c)| - 1];
    }
  }

  /** Standing in for the wildcards and folding can be done in either order. */
  lemma {:induction false} FoldedInstance(fold: CaseFold, service: string)
    ensures Folded(fold, Instance(service)) == Instance(Folded(fold, service))
  {
    if service != "" {
      var c, rest := service[0], service[1..];
      FoldedInstance(fold, rest);
      FoldedParts(fold, StandIn(c), Instance(rest));
      InstanceOfParts(fold(c), Folded(fold, rest));
      FoldedStandIn(fold, c);
    }
  }

  lemma FoldedStandIn(fold: CaseFold, c: char)
    ensures Folded(fold, StandIn(c)) == Instance(fold(c))
  {
    if c == '*' || c == '?' {
      assert fold(c) == [c];
      FoldedOne(fold, 'x');
      assert Instance([c]) == StandIn(c) + Instance([c][1..]) == StandIn(c);
    } else {
      FoldedOne(fold, c);
      InstanceOfLiteral(fold(c));
    }
  }

  lemma StandInMatches(c: char, p: string, s: string)
    requires Matches(p, s)
    ensures Matches([c] + p, StandIn(c) + s)
  {
    var p', s' := [c] + p, StandIn(c) + s;
    assert p'[1..] == p;
    if c == '*' {
      assert s'[0..] == s;
    } else {
      assert s'[1..] == s;
    }
  }

  lemma {:induction false} InstanceMatches(service: string, tail: string, s: string)
    requires Matches(tail, s)
    ensures Matches(service + tail, Instance(service) + s)
    decreases |service|
  {
    if service == "" {
      assert service + tail == tail && Instance(service) + s == s;
    } else {
      InstanceMatches(service[1..], tail, s);
      StandInMatches(service[0], service[1..] + tail, Instance(service[1..]) + s);
      Regroup([service[0]], service[1..], tail);
      Regroup(StandIn(service[0]), Instance(service[1..]), s);
      assert service == [service[0]] + service[1..];
    }
  }

  lemma LiteralServiceStar(service: string, a: string)
    requires Literal(service)
    ensures Matches(service + ":*", a) <==> service + ":" <= a
  {
    var q := service + ":";
    assert service + ":*" == q + "*";
    LiteralThen(q, "*", a);
    if q <= a { StarMatchesAll(a[|q|..]); }
  }

  lemma WildServiceStar(service: string)
    requires !Literal(service)
    ensures Matches(service + ":*", Instance(service) + ":")
    ensures !(service + ":" <= Instance(service) + ":")
  {
    LiteralServiceStar("", ":");
    assert "" + ":*" == ":*" && "" + ":" == ":";
    InstanceMatches(service, ":*", ":");
    var i :| 0 <= i < |service| && (service[i] == '*' || service[i] == '?');
    assert (service + ":")[i] == service[i];
    InstanceIsLiteral(service);
    assert Literal(Instance(service) + ":");
  }

  lemma FoldedLiteral(fold: CaseFold, s: string)
    ensures Literal(Folded(fold, s)) <==> Literal(s)
  {
    FoldedMarks(fold, s, '*');
    FoldedMarks(fold, s, '?');
  }

  lemma EndsInService(s: string)
    ensures HasSuffix(s, AnyOfService)
       <==> |s| >= 2 && s[|s| - 1] == '*' && s[|s| - 2] == ':'
    ensures HasSuffix(s, AnyOfService) ==> s == s[..|s| - 2] + ":*"
  {
    if |s| >= 2 {
      assert s[|s| - 2..] == [s[|s| - 2], s[|s| - 1]];
    }
  }

  lemma FoldedService(fold: CaseFold, service: string)
    ensures Folded(fold, service + ":*") == Folded(fold, service) + ":*"
  {
    FoldedParts(fold, service, ":*");
    assert ":*" == ":" + "*";
    FoldedParts(fold, ":", "*");
    FoldedOne(fold, ':');
    FoldedOne(fold, '*');
  }

  /** A folded pattern ends in ":*" exactly when the pattern does. */
  lemma FoldedEndsInService(fold: CaseFold, pattern: string)
    ensures HasSuffix(Folded(fold, pattern), AnyOfService) <==> HasSuffix(pattern, AnyOfService)
  {
    EndsInService(pattern);
    EndsInService(Folded(fold, pattern));
    if HasSuffix(pattern, AnyOfService) {
      FoldedService(fold, pattern[..|pattern| - 2]);
    } else if HasSuffix(Folded(fold, pattern), AnyOfService) {
      FoldedLast(fold, pattern, '*');
      StarComesOff(fold, pattern);
      FoldedLast(fold, pattern[..|pattern| - 1], ':');
    }
  }

  lemma StarComesOff(fold: CaseFold, s: string)
    requires s != "" && s[|s| - 1] == '*'
    ensures Folded(fold, s) == Folded(fold, s[..|s| - 1]) + "*"
  {
    assert s == s[..|s| - 1] + "*";
    FoldedParts(fold, s[..|s| - 1], "*");
    FoldedOne(fold, '*');
  }

  lemma WildServiceMisses(fold: CaseFold, pattern: string)
    requires WildService(pattern)
    ensures exists a :: '*' !in a && !ActionMatchIsGlobFor(fold, pattern, a)
  {
    var service := pattern[..|pattern| - 2];
    EndsInService(pattern);
    FoldedService(fold, service);
    FoldedEndsInService(fold, pattern);
    FoldedLiteral(fold, service);
    WildServiceStar(Folded(fold, service));
    InstanceIsLiteral(service);
    InstanceIsFolded(fold, service);
    assert '*' !in Instance(service) + ":" && !ActionMatchIsGlobFor(fold, pattern, Instance(service) + ":");
  }

  lemma InstanceIsFolded(fold: CaseFold, service: string)
    ensures Folded(fold, Instance(service) + ":") == Instance(Folded(fold, service)) + ":"
  {
    FoldedInstance(fold, service);
    FoldedParts(fold, Instance(service), ":");
    FoldedOne(fold, ':');
  }

  lemma TameServiceIsGlob(fold: CaseFold, pattern: string, action: string)
    requires !WildService(pattern) && '*' !in action
    ensures ActionMatchIsGlobFor(fold, pattern, action)
  {
    var p, a := Folded(fold, pattern), Folded(fold, action);
    FoldedMarks(fold, action, '*');
    if pattern == "*" {
      FoldedOne(fold, '*');
      StarMatchesAll(a);
    } else if p == a {
      MatchesItself(p);
    } else if HasSuffix(p, AnyOfService) {
      FoldedEndsInService(fold, pattern);
      EndsInService(pattern);
      var service := pattern[..|pattern| - 2];
      FoldedService(fold, service);
      FoldedLiteral(fold, service);
      LiteralServiceStar(Folded(fold, service), a);
    } else if '*' in p || '?' in p {
      Complete(p, a);
    } else {
      LiteralIsEquality(p, a);
    }
  }

  /** Action matching is case-folded globbing on star-free actions, except exactly for patterns "service:*"
      with a wildcard in the service: there the service is compared byte by byte. */
  lemma ActionMatchIsGlobExactlyForTameServices(fold: CaseFold, pattern: string)
    ensures (forall a | '*' !in a :: ActionMatchIsGlobFor(fold, pattern, a)) <==> !WildService(pattern)
  {
    if WildService(pattern) {
      WildServiceMisses(fold, pattern);
    } else {
      forall a | '*' !in a ensures ActionMatchIsGlobFor(fold, pattern, a) { TameServiceIsGlob(fold, pattern, a); }
    }
  }
}
