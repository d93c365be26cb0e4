/** What one policy statement says, apart from how its matcher is written: lists of patterns and their complements,
    principals and conditions. */
module Statements {
  import opened Options
  import opened Glob
  import opened Matching
  import opened Policy
  import opened Strings

  /** One of the patterns matches the folded action as a glob. */
  ghost predicate ActionIn(fold: CaseFold, patterns: seq<string>, action: string) {
    exists i | 0 <= i < |patterns| :: Matches(Folded(fold, patterns[i]), Folded(fold, action))
  }

  ghost predicate ResourceIn(patterns: seq<string>, resource: string) {
    exists i | 0 <= i < |patterns| :: Matches(patterns[i], resource)
  }

  /** No pattern is of the kind whose service part is compared byte by byte. */
  ghost predicate Tame(patterns: seq<string>) {
    forall i | 0 <= i < |patterns| :: !WildService(patterns[i])
  }

  lemma ActionMatchesInGlobs(fold: CaseFold, patterns: seq<string>, action: string)
    requires Tame(patterns) && '*' !in action
    ensures ActionMatches(fold, patterns, action) <==> ActionIn(fold, patterns, action)
  {
    forall i | 0 <= i < |patterns| ensures ActionMatchIsGlobFor(fold, patterns[i], action) {
      TameServiceIsGlob(fold, patterns[i], action);
    }
  }

  lemma ResourceMatchesInGlobs(patterns: seq<string>, resource: string)
    requires '*' !in resource
    ensures ResourceMatches(patterns, resource) <==> ResourceIn(patterns, resource)
  {
    forall i | 0 <= i < |patterns| ensures MatchResource(patterns[i], resource) <==> Matches(patterns[i], resource) {
      ResourceMatchIsGlob(patterns[i], resource);
    }
  }

  // ---- actions ----

  function ForActions(s: Statement, patterns: seq<string>): Statement {
    s.(action := patterns, notAction := [])
  }

  function ForOtherActions(s: Statement, patterns: seq<string>): Statement {
    s.(action := [], notAction := patterns)
  }

  /** The statement applies to the request if its action is left open. */
  ghost predicate FitsButAction(s: Statement, req: Request) {
    Applies(ForActions(s, ["*"]), req)
  }

  lemma AnyAction(req: Request)
    ensures ActionMatches(req.fold, ["*"], req.action)
  {
    assert MatchAction(req.fold, ["*"][0], req.action);
  }

  /** A list of actions covers exactly the actions that one of its patterns matches as a glob. */
  lemma ListedActions(s: Statement, req: Request, patterns: seq<string>)
    requires Tame(patterns) && '*' !in req.action
    ensures Applies(ForActions(s, patterns), req)
       <==> FitsButAction(s, req) && ActionIn(req.fold, patterns, req.action)
  {
    ActionMatchesInGlobs(req.fold, patterns, req.action);
    AnyAction(req);
  }

  /** A statement for some actions and the same statement for all others split the requests it otherwise fits. */
  lemma OtherActionsAreTheRest(s: Statement, req: Request, patterns: seq<string>)
    requires patterns != []
    ensures FitsButAction(s, req) ==>
              (Applies(ForOtherActions(s, patterns), req) <==> !Applies(ForActions(s, patterns), req))
    ensures !FitsButAction(s, req) ==>
              !Applies(ForOtherActions(s, patterns), req) && !Applies(ForActions(s, patterns), req)
  {
    AnyAction(req);
  }

  /** With both lists a statement applies where either does, and without any nowhere. */
  lemma BothActionLists(s: Statement, req: Request)
    ensures Applies(s, req) <==> Applies(ForActions(s, s.action), req) || Applies(ForOtherActions(s, s.notAction), req)
    ensures !Applies(ForActions(s, []), req)
  {
  }

  // ---- resources ----

  function ForResources(s: Statement, patterns: seq<string>): Statement {
    s.(resource := patterns, notResource := [])
  }

  function ForOtherResources(s: Statement, patterns: seq<string>): Statement {
    s.(resource := [], notResource := patterns)
  }

  ghost predicate FitsButResource(s: Statement, req: Request) {
    Applies(ForResources(s, ["*"]), req)
  }

  lemma AnyResource(req: Request)
    ensures ResourceMatches(["*"], req.resource)
  {
    assert MatchResource(["*"][0], req.resource);
  }

  lemma ListedResources(s: Statement, req: Request, patterns: seq<string>)
    requires '*' !in req.resource
    ensures Applies(ForResources(s, patterns), req)
       <==> FitsButResource(s, req) && ResourceIn(patterns, req.resource)
  {
    ResourceMatchesInGlobs(patterns, req.resource);
    AnyResource(req);
  }

  lemma OtherResourcesAreTheRest(s: Statement, req: Request, patterns: seq<string>)
    requires patterns != []
    ensures FitsButResource(s, req) ==>
              (Applies(ForOtherResources(s, patterns), req) <==> !Applies(ForResources(s, patterns), req))
    ensures !FitsButResource(s, req) ==>
              !Applies(ForOtherResources(s, patterns), req) && !Applies(ForResources(s, patterns), req)
  {
    AnyResource(req);
  }

  lemma BothResourceLists(s: Statement, req: Request)
    ensures Applies(s, req)
       <==> Applies(ForResources(s, s.resource), req) || Applies(ForOtherResources(s, s.notResource), req)
    ensures !Applies(ForResources(s, []), req)
  {
  }

  // ---- principals and conditions ----

  /** A principal names a requester: by a star, by name, by a pattern for its ARN, or by saying nothing at all. */
  ghost predicate Names(p: Principal, requester: string) {
    || (p.aws == [] && p.service == [] && p.federated == [])
    || "*" in p.aws
    || requester in p.aws
    || (ARNPrefix <= requester && ResourceIn(p.aws, requester))
  }

  lemma PrincipalMatchesNames(p: Principal, requester: string)
    requires '*' !in requester
    ensures PrincipalMatches(p, requester) <==> Names(p, requester)
  {
    forall i | 0 <= i < |p.aws| ensures Answer(p.aws[i], requester) <==> Matches(p.aws[i], requester) {
      Complete(p.aws[i], requester);
    }
  }

  /** A principal only restricts: to the requesters it names. */
  lemma PrincipalRestricts(s: Statement, req: Request)
    requires '*' !in req.principal
    ensures Applies(s, req)
       <==> Applies(s.(principal := None), req) && (s.principal.Some? ==> Names(s.principal.value, req.principal))
  {
    if s.principal.Some? {
      PrincipalMatchesNames(s.principal.value, req.principal);
    }
  }

  /** Conditions only restrict: to requests of which all of them hold. */
  lemma ConditionsRestrict(s: Statement, req: Request)
    ensures Applies(s, req) <==> Applies(s.(condition := []), req) && forall c | c in s.condition :: req.holds(c)
  {
    if forall c | c in s.condition :: req.holds(c) {
      assert forall i | 0 <= i < |s.condition| :: s.condition[i] in s.condition;
    }
  }

  // ---- put together ----

  /** A request without a star in it, so that the matcher is exact on it. */
  ghost predicate StarFree(req: Request) {
    '*' !in req.action && '*' !in req.resource && '*' !in req.principal
  }

  /** A list of patterns and a list of exceptions select: what the first covers, and what the second does not. */
  ghost predicate Selects(listed: bool, hasOthers: bool, excepted: bool) {
    listed || (hasOthers && !excepted)
  }

  /** What a statement selects, in terms of globs. */
  lemma AppliesInGlobs(s: Statement, req: Request)
    requires StarFree(req) && Tame(s.action) && Tame(s.notAction)
    ensures Applies(s, req)
       <==> && Selects(ActionIn(req.fold, s.action, req.action), s.notAction != [],
                       ActionIn(req.fold, s.notAction, req.action))
            && Selects(ResourceIn(s.resource, req.resource), s.notResource != [],
                       ResourceIn(s.notResource, req.resource))
            && (s.principal.Some? ==> Names(s.principal.value, req.principal))
            && (forall c | c in s.condition :: req.holds(c))
  {
    ActionMatchesInGlobs(req.fold, s.action, req.action);
    ActionMatchesInGlobs(req.fold, s.notAction, req.action);
    ResourceMatchesInGlobs(s.resource, req.resource);
    ResourceMatchesInGlobs(s.notResource, req.resource);
    PrincipalRestricts(s, req);
    ConditionsRestrict(s, req);
  }

  /** A user whose only policy allows everything but some actions may do exactly the others. */
  lemma EverythingBut(store: Store, user: User, req: Request, patterns: seq<string>)
    requires '*' !in req.action && Tame(patterns) && patterns != []
    requires IdentityStatements(store, Some(user)) == {ForOtherActions(AllowAll, patterns)}
    requires ResourceStatements(store, req) == {} && user.boundary == ""
    ensures UserVerdict(store, Some(user), req)
         == if ActionIn(req.fold, patterns, req.action) then ImplicitDeny else Allow
  {
    var s := ForOtherActions(AllowAll, patterns);
    assert ForActions(AllowAll, ["*"]) == AllowAll;
    AllowAllHits(req);
    ListedActions(AllowAll, req, patterns);
    OtherActionsAreTheRest(AllowAll, req, patterns);
    assert Hits(s, EffectAllow, req) <==> !ActionIn(req.fold, patterns, req.action);
    assert !Hits(s, EffectDeny, req);
  }

  // ---- buckets ----

  lemma {:induction false} UpToSlashStops(b: string, rest: string)
    requires '/' !in b
    ensures UpToSlash(b) == b && UpToSlash(b + "/" + rest) == b
  {
    if b != "" {
      UpToSlashStops(b[1..], rest);
      assert (b + "/" + rest)[1..] == b[1..] + "/" + rest;
    }
  }

  /** The bucket policy consulted is that of the bucket an S3 resource is in, with or without a key; for any other
      resource none is. */
  lemma BucketOfResource(b: string, key: string, other: string)
    requires '/' !in b && !(S3Prefix <= other)
    ensures BucketOf(S3Prefix + b) == b && BucketOf(S3Prefix + b + "/" + key) == b && BucketOf(other) == ""
  {
    UpToSlashStops(b, key);
    assert (S3Prefix + b)[|S3Prefix|..] == b;
    assert (S3Prefix + b + "/" + key)[|S3Prefix|..] == b + "/" + key;
  }
}
