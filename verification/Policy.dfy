/** IAM policy evaluation: the layered decision over SCP, identity, boundary and resource policies. */
module Policy {
  import opened Options
  import opened Sequences
  import opened Glob
  import opened Matching
  import opened Strings

  datatype Condition = Condition(operator: string, key: string, expected: string)

  datatype Principal = Principal(aws: seq<string>, service: seq<string>, federated: seq<string>)

  datatype Statement = Statement(
    sid: string,
    effect: string,
    action: seq<string>,
    notAction: seq<string>,
    resource: seq<string>,
    notResource: seq<string>,
    principal: Option<Principal>,
    condition: seq<Condition>
  )

  datatype PolicyDocument = PolicyDocument(id: string, statement: seq<Statement>)

  datatype User = User(
    groups: seq<string>,
    attached: seq<string>,
    inline: seq<PolicyDocument>,
    boundary: string
  )

  datatype Store = Store(
    scp: Option<PolicyDocument>,
    users: map<string, User>,
    groups: map<string, seq<string>>,
    policies: map<string, PolicyDocument>,
    bucketPolicies: map<string, PolicyDocument>
  )

  /** A request; `fold` lower-cases actions, and `holds` says which conditions its context satisfies. */
  datatype Request = Request(principal: string, action: string, resource: string, fold: CaseFold,
                             holds: Condition -> bool)

  datatype Decision = Deny | Allow | ImplicitDeny

  datatype EvalResult = EvalResult(
    decision: Decision,
    matchedBy: string,
    policyType: string,
    policyName: string
  )

  const EffectAllow := "Allow"
  const EffectDeny := "Deny"
  const ARNPrefix := "arn:cipherlake:"
  const S3Prefix := ARNPrefix + "s3" + ":::"

  // ---- one statement ----

  predicate ActionMatches(fold: CaseFold, patterns: seq<string>, action: string) {
    exists i | 0 <= i < |patterns| :: MatchAction(fold, patterns[i], action)
  }

  predicate ResourceMatches(patterns: seq<string>, resource: string) {
    exists i | 0 <= i < |patterns| :: MatchResource(patterns[i], resource)
  }

  predicate PrincipalMatches(p: Principal, requester: string) {
    || (exists i | 0 <= i < |p.aws| ::
          || p.aws[i] == "*"
          || p.aws[i] == requester
          || (ARNPrefix <= requester && Answer(p.aws[i], requester)))
    || (p.aws == [] && p.service == [] && p.federated == [])
  }

  /** The statement matcher: a non-empty exclusion list stands in when the inclusion list does not match. */
  predicate Applies(s: Statement, req: Request) {
    && (|| ActionMatches(req.fold, s.action, req.action)
        || (s.notAction != [] && !ActionMatches(req.fold, s.notAction, req.action)))
    && (|| ResourceMatches(s.resource, req.resource)
        || (s.notResource != [] && !ResourceMatches(s.notResource, req.resource)))
    && (s.principal.Some? ==> PrincipalMatches(s.principal.value, req.principal))
    && (forall i | 0 <= i < |s.condition| :: req.holds(s.condition[i]))
  }

  predicate Hits(s: Statement, effect: string, req: Request) {
    s.effect == effect && Applies(s, req)
  }

  // ---- the declarative decision ----

  ghost function StatementsOf(docs: seq<PolicyDocument>): set<Statement> {
    set i, j | 0 <= i < |docs| && 0 <= j < |docs[i].statement| :: docs[i].statement[j]
  }

  ghost predicate SomeHit(stmts: set<Statement>, effect: string, req: Request) {
    exists s | s in stmts :: Hits(s, effect, req)
  }

  ghost predicate Permits(stmts: set<Statement>, req: Request) {
    SomeHit(stmts, EffectAllow, req) && !SomeHit(stmts, EffectDeny, req)
  }

  /** The statements reachable from a user: inline, attached, and attached to a group of theirs. */
  ghost function IdentityStatements(store: Store, user: Option<User>): set<Statement> {
    if user.None? then {}
    else StatementsOf(user.value.inline) + NamedStatements(store, IdentityNames(store, user.value))
  }

  ghost function IdentityNames(store: Store, u: User): set<string> {
    Elements(u.attached) + GroupNames(store, u.groups)
  }

  ghost function Elements(names: seq<string>): set<string> {
    set n | n in names
  }

  /** The names attached to the groups of a list that exist. */
  ghost function GroupNames(store: Store, groups: seq<string>): set<string> {
    set g, n | g in groups && g in store.groups && n in store.groups[g] :: n
  }

  ghost function NamedStatements(store: Store, names: set<string>): set<Statement> {
    set n, s | n in names && n in store.policies && s in store.policies[n].statement :: s
  }

  function BucketOf(resource: string): string {
    if S3Prefix <= resource then UpToSlash(resource[|S3Prefix|..]) else ""
  }

  function UpToSlash(s: string): (r: string)
    ensures '/' !in r
    ensures r == s || r + "/" <= s
  {
    if s == "" || s[0] == '/' then ""
    else [s[0]] + UpToSlash(s[1..])
  }

  ghost function ResourceStatements(store: Store, req: Request): set<Statement> {
    var b := BucketOf(req.resource);
    if b != "" && b in store.bucketPolicies then StatementsOf([store.bucketPolicies[b]]) else {}
  }

  /** A boundary that is unset or does not resolve imposes nothing. */
  ghost predicate WithinBoundary(store: Store, user: Option<User>, req: Request) {
    user.Some? && user.value.boundary != "" && user.value.boundary in store.policies ==>
      Permits(StatementsOf([store.policies[user.value.boundary]]), req)
  }

  ghost predicate WithinSCP(store: Store, req: Request) {
    store.scp.Some? ==> Permits(StatementsOf([store.scp.value]), req)
  }

  /** The decision below the SCP gate, over sets of statements. */
  ghost function LayeredVerdict(identity: set<Statement>, resource: set<Statement>, bounded: bool,
                                req: Request): Decision
  {
    if SomeHit(identity + resource, EffectDeny, req) then Deny
    else if SomeHit(identity, EffectAllow, req) then if bounded then Allow else Deny
    else if SomeHit(resource, EffectAllow, req) then Allow
    else ImplicitDeny
  }

  ghost function UserVerdict(store: Store, user: Option<User>, req: Request): Decision {
    LayeredVerdict(IdentityStatements(store, user), ResourceStatements(store, req), WithinBoundary(store, user, req),
                   req)
  }

  function UserOf(store: Store, req: Request): Option<User> {
    if req.principal in store.users then Some(store.users[req.principal]) else None
  }

  ghost function Verdict(store: Option<Store>, req: Request): Decision {
    if store.None? then ImplicitDeny
    else if !WithinSCP(store.value, req) then Deny
    else UserVerdict(store.value, UserOf(store.value, req), req)
  }

  // ---- the evaluators ----

  lemma StatementsOfAppend(docs: seq<PolicyDocument>, more: seq<PolicyDocument>)
    ensures StatementsOf(docs + more) == StatementsOf(docs) + StatementsOf(more)
  {
    var all := docs + more;
    forall s | s in StatementsOf(docs) + StatementsOf(more) ensures s in StatementsOf(all) {
      if s in StatementsOf(docs) {
        var i, j :| 0 <= i < |docs| && 0 <= j < |docs[i].statement| && docs[i].statement[j] == s;
        assert all[i].statement[j] == s;
      } else {
        var i, j :| 0 <= i < |more| && 0 <= j < |more[i].statement| && more[i].statement[j] == s;
        assert all[|docs| + i].statement[j] == s;
      }
    }
  }

  /** The first statement of a list with an effect that applies. */
  ghost predicate IsFirstIn(stmts: seq<Statement>, s: Statement, effect: string, req: Request) {
    && Hits(s, effect, req)
    && exists j | 0 <= j < |stmts| :: stmts[j] == s && forall k | 0 <= k < j :: !Hits(stmts[k], effect, req)
  }

  /** Searches documents in order, and their statements in order, for the first one with an effect that applies. */
  method FirstHit(docs: seq<PolicyDocument>, effect: string, req: Request) returns (hit: Option<(nat, Statement)>)
    ensures hit.Some? <==> SomeHit(StatementsOf(docs), effect, req)
    ensures hit.Some? ==>
              && hit.value.0 < |docs|
              && IsFirstIn(docs[hit.value.0].statement, hit.value.1, effect, req)
              && !SomeHit(StatementsOf(docs[..hit.value.0]), effect, req)
  {
    for i := 0 to |docs|
      invariant !SomeHit(StatementsOf(docs[..i]), effect, req)
    {
      for j := 0 to |docs[i].statement|
        invariant forall k | 0 <= k < j :: !Hits(docs[i].statement[k], effect, req)
      {
        var stmt := docs[i].statement[j];
        if stmt.effect == effect && Applies(stmt, req) {
          assert docs[i].statement[j] in StatementsOf(docs);
          return Some((i, stmt));
        }
      }
      assert docs[..i + 1] == docs[..i] + [docs[i]];
      StatementsOfAppend(docs[..i], [docs[i]]);
    }
    assert docs[..|docs|] == docs;
    return None;
  }

  /** Where a collected document came from: one of the user's own, or a managed policy under one of some names. */
  ghost predicate Provenance(store: Store, own: seq<PolicyDocument>, named: set<string>, doc: PolicyDocument,
                             name: string)
  {
    || (doc in own && name == doc.id)
    || (name in named && name in store.policies && doc == store.policies[name])
  }

  ghost predicate Collected(store: Store, own: seq<PolicyDocument>, named: set<string>, docs: seq<PolicyDocument>,
                            names: seq<string>)
  {
    && |docs| == |names|
    && forall i | 0 <= i < |docs| :: Provenance(store, own, named, docs[i], names[i])
  }

  lemma NamedStatementsGrow(store: Store, names: set<string>, n: string)
    ensures NamedStatements(store, names + {n}) ==
            NamedStatements(store, names) + (if n in store.policies then StatementsOf([store.policies[n]]) else {})
  {
    if n in store.policies { StatementsOfOne(store.policies[n]); }
  }

  lemma StatementsOfOne(d: PolicyDocument)
    ensures StatementsOf([d]) == set s | s in d.statement
  {
    forall s | s in d.statement ensures s in StatementsOf([d]) {
      InDocument([d], 0, s);
    }
  }

  /** Resolves policy names and appends those that exist. */
  method AppendNamed(store: Store, ghost own: seq<PolicyDocument>, ghost named: set<string>, wanted: seq<string>,
                     docs0: seq<PolicyDocument>, names0: seq<string>)
    returns (docs: seq<PolicyDocument>, names: seq<string>)
    requires Collected(store, own, named, docs0, names0) && Elements(wanted) <= named
    ensures Collected(store, own, named, docs, names)
    ensures StatementsOf(docs) == StatementsOf(docs0) + NamedStatements(store, Elements(wanted))
  {
    docs, names := docs0, names0;
    for i := 0 to |wanted|
      invariant Collected(store, own, named, docs, names)
      invariant StatementsOf(docs) == StatementsOf(docs0) + NamedStatements(store, Elements(wanted[..i]))
    {
      NamedStatementsGrow(store, Elements(wanted[..i]), wanted[i]);
      assert Elements(wanted[..i + 1]) == Elements(wanted[..i]) + {wanted[i]};
      assert wanted[i] in Elements(wanted);
      if wanted[i] in store.policies {
        StatementsOfAppend(docs, [store.policies[wanted[i]]]);
        docs := docs + [store.policies[wanted[i]]];
        names := names + [wanted[i]];
      }
    }
    assert wanted[..|wanted|] == wanted;
  }

  lemma NamedStatementsUnion(store: Store, a: set<string>, b: set<string>)
    ensures NamedStatements(store, a + b) == NamedStatements(store, a) + NamedStatements(store, b)
  {
  }

  lemma GroupNamesHave(store: Store, groups: seq<string>, i: nat)
    requires i < |groups| && groups[i] in store.groups
    ensures Elements(store.groups[groups[i]]) <= GroupNames(store, groups)
  {
  }

  function OwnDocuments(user: Option<User>): seq<PolicyDocument> {
    if user.Some? then user.value.inline else []
  }

  ghost function OwnNames(store: Store, user: Option<User>): set<string> {
    if user.Some? then IdentityNames(store, user.value) else {}
  }

  /** The inline documents, each named by its own id. */
  method CollectInline(store: Store, u: User, ghost named: set<string>)
    returns (docs: seq<PolicyDocument>, names: seq<string>)
    ensures Collected(store, u.inline, named, docs, names) && docs == u.inline
  {
    docs, names := [], [];
    for i := 0 to |u.inline|
      invariant docs == u.inline[..i]
      invariant Collected(store, u.inline, named, docs, names)
    {
      docs := docs + [u.inline[i]];
      names := names + [u.inline[i].id];
    }
  }

  lemma GroupNamesPush(store: Store, groups: seq<string>, g: string)
    ensures GroupNames(store, groups + [g])
         == GroupNames(store, groups) + if g in store.groups then Elements(store.groups[g]) else {}
  {
  }

  /** What the first groups contribute, on top of some names. */
  lemma GroupStatements(store: Store, have: set<string>, groups: seq<string>, g: string)
    requires g in store.groups
    ensures NamedStatements(store, have + GroupNames(store, groups + [g]))
         == NamedStatements(store, have + GroupNames(store, groups)) + NamedStatements(store, Elements(store.groups[g]))
  {
    var before, wanted := GroupNames(store, groups), Elements(store.groups[g]);
    GroupNamesPush(store, groups, g);
    assert have + (before + wanted) == (have + before) + wanted;
    NamedStatementsUnion(store, have + before, wanted);
  }

  /** The documents attached to the groups, on top of those collected so far. */
  method CollectGroups(store: Store, u: User, ghost have: set<string>, docs0: seq<PolicyDocument>, names0: seq<string>)
    returns (docs: seq<PolicyDocument>, names: seq<string>)
    requires Collected(store, u.inline, IdentityNames(store, u), docs0, names0)
    requires StatementsOf(docs0) == StatementsOf(u.inline) + NamedStatements(store, have)
    ensures Collected(store, u.inline, IdentityNames(store, u), docs, names)
    ensures StatementsOf(docs) == StatementsOf(u.inline) + NamedStatements(store, have + GroupNames(store, u.groups))
  {
    docs, names := docs0, names0;
    assert have + GroupNames(store, u.groups[..0]) == have;
    for i := 0 to |u.groups|
      invariant Collected(store, u.inline, IdentityNames(store, u), docs, names)
      invariant StatementsOf(docs)
             == StatementsOf(u.inline) + NamedStatements(store, have + GroupNames(store, u.groups[..i]))
    {
      FirstsPlusOne(u.groups, i);
      if u.groups[i] in store.groups {
        GroupNamesHave(store, u.groups, i);
        GroupStatements(store, have, u.groups[..i], u.groups[i]);
        docs, names := AppendNamed(store, u.inline, IdentityNames(store, u), store.groups[u.groups[i]], docs, names);
      } else {
        GroupNamesPush(store, u.groups[..i], u.groups[i]);
        assert GroupNames(store, u.groups[..i]) + {} == GroupNames(store, u.groups[..i]);
      }
    }
    assert u.groups[..|u.groups|] == u.groups;
  }

  /** Collects every identity document of a user, with its policy name. */
  method CollectIdentity(store: Store, user: Option<User>) returns (docs: seq<PolicyDocument>, names: seq<string>)
    ensures Collected(store, OwnDocuments(user), OwnNames(store, user), docs, names)
    ensures StatementsOf(docs) == IdentityStatements(store, user)
  {
    docs, names := [], [];
    if user.Some? {
      var u := user.value;
      docs, names := CollectInline(store, u, IdentityNames(store, u));
      docs, names := AppendNamed(store, u.inline, IdentityNames(store, u), u.attached, docs, names);
      docs, names := CollectGroups(store, u, Elements(u.attached), docs, names);
    }
  }

  method CollectResource(store: Store, req: Request) returns (docs: seq<PolicyDocument>)
    ensures StatementsOf(docs) == ResourceStatements(store, req)
  {
    docs := [];
    var bucket := BucketOf(req.resource);
    if bucket != "" && bucket in store.bucketPolicies {
      docs := [store.bucketPolicies[bucket]];
    }
  }

  /** A gate that does not let a request through names its first denying statement, or nothing if none denies. */
  ghost predicate NamesDenier(doc: PolicyDocument, req: Request, matchedBy: string) {
    if SomeHit(StatementsOf([doc]), EffectDeny, req)
    then exists s :: IsFirstIn(doc.statement, s, EffectDeny, req) && s.sid == matchedBy
    else matchedBy == ""
  }

  /** A gate document allows when some Allow applies and no Deny does; a Deny is looked for first. */
  method EvaluateGate(doc: PolicyDocument, req: Request) returns (r: EvalResult)
    ensures r.decision.Allow? <==> Permits(StatementsOf([doc]), req)
    ensures r.decision.Deny? <==> SomeHit(StatementsOf([doc]), EffectDeny, req)
    ensures !r.decision.Allow? ==> NamesDenier(doc, req, r.matchedBy)
  {
    var deny := FirstHit([doc], EffectDeny, req);
    if deny.Some? {
      assert [doc][deny.value.0] == doc;
      return EvalResult(Deny, deny.value.1.sid, "", "");
    }
    var allow := FirstHit([doc], EffectAllow, req);
    if allow.Some? {
      return EvalResult(Allow, allow.value.1.sid, "", "");
    }
    return EvalResult(ImplicitDeny, "", "", "");
  }

  /** A result blames a real statement, in a layer of the right kind. */
  ghost predicate Justified(r: EvalResult, store: Store, user: Option<User>, req: Request) {
    var identity, resource := IdentityStatements(store, user), ResourceStatements(store, req);
    match r.decision
    case ImplicitDeny => r == EvalResult(ImplicitDeny, "", "", "")
    case Deny =>
      || (r.policyType == "scp" && !WithinSCP(store, req) && NamesDenier(store.scp.value, req, r.matchedBy))
      || (r.policyType == "identity" &&
          exists s | s in identity + resource :: Hits(s, EffectDeny, req) && s.sid == r.matchedBy)
      || (r.policyType == "boundary" && user.Some? && r.policyName == user.value.boundary &&
          SomeHit(identity, EffectAllow, req) && !WithinBoundary(store, user, req) &&
          NamesDenier(store.policies[r.policyName], req, r.matchedBy))
    case Allow =>
      || (r.policyType == "identity" && WithinBoundary(store, user, req) &&
          exists d: PolicyDocument, s | s in d.statement ::
            && s in identity && Hits(s, EffectAllow, req) && s.sid == r.matchedBy
            && Provenance(store, OwnDocuments(user), OwnNames(store, user), d, r.policyName))
      || (r.policyType == "resource" &&
          exists s | s in resource :: Hits(s, EffectAllow, req) && s.sid == r.matchedBy)
  }

  /** The evaluation for a given user, without the SCP gate. */
  method EvaluateWithBoundary(store: Store, req: Request, user: Option<User>) returns (r: EvalResult)
    ensures r.decision == UserVerdict(store, user, req)
    ensures Justified(r, store, user, req) && r.policyType != "scp"
  {
    var identity, names := CollectIdentity(store, user);
    var resource := CollectResource(store, req);
    StatementsOfAppend(identity, resource);
    var deny := FirstHit(identity + resource, EffectDeny, req);
    if deny.Some? {
      InDocument(identity + resource, deny.value.0, deny.value.1);
      return EvalResult(Deny, deny.value.1.sid, "identity", "");
    }
    var allow := FirstHit(identity, EffectAllow, req);
    if allow.Some? {
      if user.Some? && user.value.boundary != "" && user.value.boundary in store.policies {
        var gate := EvaluateGate(store.policies[user.value.boundary], req);
        if !gate.decision.Allow? {
          return EvalResult(Deny, gate.matchedBy, "boundary", user.value.boundary);
        }
      }
      InDocument(identity, allow.value.0, allow.value.1);
      assert Provenance(store, OwnDocuments(user), OwnNames(store, user), identity[allow.value.0],
                        names[allow.value.0]);
      return EvalResult(Allow, allow.value.1.sid, "identity", names[allow.value.0]);
    }
    allow := FirstHit(resource, EffectAllow, req);
    if allow.Some? {
      InDocument(resource, allow.value.0, allow.value.1);
      return EvalResult(Allow, allow.value.1.sid, "resource", "");
    }
    return EvalResult(ImplicitDeny, "", "", "");
  }

  lemma InDocument(docs: seq<PolicyDocument>, i: nat, s: Statement)
    requires i < |docs| && s in docs[i].statement
    ensures s in StatementsOf(docs)
  {
    var j :| 0 <= j < |docs[i].statement| && docs[i].statement[j] == s;
  }

  /** The full evaluation: the SCP gate, then the user named by the request. */
  method Evaluate(store: Option<Store>, req: Request) returns (r: EvalResult)
    ensures r.decision == Verdict(store, req)
    ensures store.None? ==> r == EvalResult(ImplicitDeny, "", "", "")
    ensures store.Some? ==> Justified(r, store.value, UserOf(store.value, req), req)
  {
    if store.Some? && store.value.scp.Some? {
      var gate := EvaluateGate(store.value.scp.value, req);
      if gate.decision.Deny? {
        return gate.(policyType := "scp");
      }
      if !gate.decision.Allow? {
        return EvalResult(Deny, "", "scp", "");
      }
    }
    if store.None? {
      return EvalResult(ImplicitDeny, "", "", "");
    }
    var user := if req.principal in store.value.users then Some(store.value.users[req.principal]) else None;
    r := EvaluateWithBoundary(store.value, req, user);
  }

  // ---- temporary credentials ----

  ghost function RoleStatements(store: Store, rolePolicies: seq<string>): set<Statement> {
    NamedStatements(store, Elements(rolePolicies))
  }

  ghost function SessionStatements(session: Option<PolicyDocument>): set<Statement> {
    if session.Some? then StatementsOf([session.value]) else {}
  }

  /** The decision for temporary credentials: the layered formula over the union, with no boundary. */
  ghost function SessionVerdict(store: Store, req: Request, rolePolicies: seq<string>, session: Option<PolicyDocument>):
    Decision
  {
    LayeredVerdict(RoleStatements(store, rolePolicies) + SessionStatements(session), ResourceStatements(store, req),
                   true, req)
  }

  /** A result for temporary credentials blames a real statement, in a layer of the right kind. */
  ghost predicate JustifiedBy(r: EvalResult, identity: set<Statement>, resource: set<Statement>, req: Request) {
    && r.policyName == ""
    && match r.decision
       case ImplicitDeny => r.matchedBy == "" && r.policyType == ""
       case Deny => r.policyType == "identity" && Blames(identity + resource, EffectDeny, req, r.matchedBy)
       case Allow =>
         || (r.policyType == "identity" && Blames(identity, EffectAllow, req, r.matchedBy))
         || (r.policyType == "resource" && Blames(resource, EffectAllow, req, r.matchedBy)
             && !SomeHit(identity, EffectAllow, req))
  }

  ghost predicate Blames(stmts: set<Statement>, effect: string, req: Request, sid: string) {
    exists s | s in stmts :: Hits(s, effect, req) && s.sid == sid
  }

  /** Temporary credentials: the session policy joins the role's documents, and no boundary is consulted. */
  method EvaluateWithTempCreds(store: Store, req: Request, rolePolicies: seq<string>, session: Option<PolicyDocument>)
    returns (r: EvalResult)
    ensures r.decision == SessionVerdict(store, req, rolePolicies, session)
    ensures JustifiedBy(r, RoleStatements(store, rolePolicies) + SessionStatements(session),
                        ResourceStatements(store, req), req)
  {
    var identity, _ := AppendNamed(store, [], Elements(rolePolicies), rolePolicies, [], []);
    if session.Some? {
      StatementsOfAppend(identity, [session.value]);
      identity := identity + [session.value];
    }
    var resource := CollectResource(store, req);
    r := EvaluateDocuments(identity, resource, req);
  }

  /** The three passes over documents: any Deny, then an identity Allow, then a resource Allow. */
  method EvaluateDocuments(identity: seq<PolicyDocument>, resource: seq<PolicyDocument>, req: Request)
    returns (r: EvalResult)
    ensures r.decision == LayeredVerdict(StatementsOf(identity), StatementsOf(resource), true, req)
    ensures JustifiedBy(r, StatementsOf(identity), StatementsOf(resource), req)
  {
    StatementsOfAppend(identity, resource);
    var hit := FirstHit(identity + resource, EffectDeny, req);
    if hit.Some? {
      InDocument(identity + resource, hit.value.0, hit.value.1);
      return EvalResult(Deny, hit.value.1.sid, "identity", "");
    }
    hit := FirstHit(identity, EffectAllow, req);
    if hit.Some? {
      InDocument(identity, hit.value.0, hit.value.1);
      return EvalResult(Allow, hit.value.1.sid, "identity", "");
    }
    hit := FirstHit(resource, EffectAllow, req);
    if hit.Some? {
      InDocument(resource, hit.value.0, hit.value.1);
      return EvalResult(Allow, hit.value.1.sid, "resource", "");
    }
    return EvalResult(ImplicitDeny, "", "", "");
  }

  /** What scoping down means: a session policy can only take away, so both the role and the session policy have to
      allow. */
  ghost function ScopedVerdict(store: Store, req: Request, rolePolicies: seq<string>, session: PolicyDocument):
    Decision
  {
    var role, scope := RoleStatements(store, rolePolicies), SessionStatements(Some(session));
    var resource := ResourceStatements(store, req);
    if SomeHit(role + scope + resource, EffectDeny, req) then Deny
    else if SomeHit(role, EffectAllow, req) && SomeHit(scope, EffectAllow, req) then Allow
    else if SomeHit(resource, EffectAllow, req) then Allow
    else ImplicitDeny
  }

  /** Something decides the request before role and session policy are weighed against each other. */
  ghost predicate DecidedElsewhere(store: Store, req: Request, rolePolicies: seq<string>, session: PolicyDocument) {
    || SomeHit(RoleStatements(store, rolePolicies) + SessionStatements(Some(session)) + ResourceStatements(store, req),
               EffectDeny, req)
    || SomeHit(ResourceStatements(store, req), EffectAllow, req)
  }

  lemma SomeHitOfUnion(a: set<Statement>, b: set<Statement>, effect: string, req: Request)
    ensures SomeHit(a + b, effect, req) <==> SomeHit(a, effect, req) || SomeHit(b, effect, req)
  {
  }

  /** A session policy scopes the role down exactly when the request is decided elsewhere or role and session policy
      agree on whether to allow it. */
  lemma ScopesDownExactlyWhenAgreed(store: Store, req: Request, rolePolicies: seq<string>, session: PolicyDocument)
    ensures SessionVerdict(store, req, rolePolicies, Some(session)) == ScopedVerdict(store, req, rolePolicies, session)
       <==> || DecidedElsewhere(store, req, rolePolicies, session)
            || (SomeHit(RoleStatements(store, rolePolicies), EffectAllow, req)
                <==> SomeHit(SessionStatements(Some(session)), EffectAllow, req))
  {
    SomeHitOfUnion(RoleStatements(store, rolePolicies), SessionStatements(Some(session)), EffectAllow, req);
  }

  /** A statement that allows everything. */
  const AllowAll := Statement("", EffectAllow, ["*"], [], ["*"], [], None, [])

  lemma AllowAllHits(req: Request)
    ensures Hits(AllowAll, EffectAllow, req)
  {
    assert MatchAction(req.fold, AllowAll.action[0], req.action);
    assert MatchResource(AllowAll.resource[0], req.resource);
  }

  /** Credentials of a role without policies may do anything once a session policy says so, unless a bucket policy has
      its say. */
  lemma SessionPolicyWidens(store: Store, req: Request, id: string)
    requires ResourceStatements(store, req) == {}
    ensures var session := PolicyDocument(id, [AllowAll]);
            && SessionVerdict(store, req, [], Some(session)) == Allow
            && SessionVerdict(store, req, [], None) == ImplicitDeny
            && ScopedVerdict(store, req, [], session) == ImplicitDeny
  {
    var session := PolicyDocument(id, [AllowAll]);
    AllowAllHits(req);
    StatementsOfOne(session);
    assert session.statement[0] == AllowAll;
    assert RoleStatements(store, []) == {};
  }

  // ---- order does not matter ----

  ghost predicate SameUpToOrder(d: PolicyDocument, d': PolicyDocument) {
    multiset(d.statement) == multiset(d'.statement)
  }

  /** The documents in another order, each with its statements in another order. */
  ghost predicate ReorderedDocuments(ds: seq<PolicyDocument>, ds': seq<PolicyDocument>) {
    exists mid: seq<PolicyDocument> ::
      && multiset(mid) == multiset(ds)
      && |mid| == |ds'|
      && forall i | 0 <= i < |mid| :: SameUpToOrder(mid[i], ds'[i])
  }

  ghost predicate ReorderedUser(u: User, u': User) {
    && multiset(u.groups) == multiset(u'.groups)
    && multiset(u.attached) == multiset(u'.attached)
    && ReorderedDocuments(u.inline, u'.inline)
    && u.boundary == u'.boundary
  }

  ghost predicate ReorderedPolicies(m: map<string, PolicyDocument>, m': map<string, PolicyDocument>) {
    && m.Keys == m'.Keys
    && forall n | n in m :: SameUpToOrder(m[n], m'[n])
  }

  /** The same store with statements, documents, attachments and groups listed in another order. */
  ghost predicate Reordered(t: Store, t': Store) {
    && t.scp.Some? == t'.scp.Some?
    && (t.scp.Some? ==> SameUpToOrder(t.scp.value, t'.scp.value))
    && t.users.Keys == t'.users.Keys
    && (forall n | n in t.users :: ReorderedUser(t.users[n], t'.users[n]))
    && t.groups.Keys == t'.groups.Keys
    && (forall n | n in t.groups :: multiset(t.groups[n]) == multiset(t'.groups[n]))
    && ReorderedPolicies(t.policies, t'.policies)
    && ReorderedPolicies(t.bucketPolicies, t'.bucketPolicies)
  }

  lemma SameMultisetSameElements<T>(a: seq<T>, b: seq<T>)
    requires multiset(a) == multiset(b)
    ensures forall x :: x in a <==> x in b
  {
    forall x ensures x in a <==> x in b {
      assert x in a <==> x in multiset(a);
      assert x in b <==> x in multiset(b);
    }
  }

  lemma SameDocumentSameStatements(d: PolicyDocument, d': PolicyDocument)
    requires SameUpToOrder(d, d')
    ensures StatementsOf([d]) == StatementsOf([d'])
  {
    StatementsOfOne(d);
    StatementsOfOne(d');
    SameMultisetSameElements(d.statement, d'.statement);
  }

  lemma PermutedDocumentsWithin(ds: seq<PolicyDocument>, ds': seq<PolicyDocument>)
    requires forall d :: d in ds ==> d in ds'
    ensures StatementsOf(ds) <= StatementsOf(ds')
  {
    forall s | s in StatementsOf(ds) ensures s in StatementsOf(ds') {
      var i, j :| 0 <= i < |ds| && 0 <= j < |ds[i].statement| && ds[i].statement[j] == s;
      assert ds[i] in ds';
      var i' :| 0 <= i' < |ds'| && ds'[i'] == ds[i];
      InDocument(ds', i', s);
    }
  }

  lemma PairedDocumentsWithin(ds: seq<PolicyDocument>, ds': seq<PolicyDocument>)
    requires |ds| == |ds'|
    requires forall i | 0 <= i < |ds| :: SameUpToOrder(ds[i], ds'[i])
    ensures StatementsOf(ds) <= StatementsOf(ds')
  {
    forall s | s in StatementsOf(ds) ensures s in StatementsOf(ds') {
      var i, j :| 0 <= i < |ds| && 0 <= j < |ds[i].statement| && ds[i].statement[j] == s;
      SameMultisetSameElements(ds[i].statement, ds'[i].statement);
      InDocument(ds', i, s);
    }
  }

  lemma ReorderedDocumentsSameStatements(ds: seq<PolicyDocument>, ds': seq<PolicyDocument>)
    requires ReorderedDocuments(ds, ds')
    ensures StatementsOf(ds) == StatementsOf(ds')
  {
    var mid: seq<PolicyDocument> :|
      && multiset(mid) == multiset(ds)
      && |mid| == |ds'|
      && forall i | 0 <= i < |mid| :: SameUpToOrder(mid[i], ds'[i]);
    SameMultisetSameElements(mid, ds);
    PermutedDocumentsWithin(mid, ds);
    PermutedDocumentsWithin(ds, mid);
    PairedDocumentsWithin(mid, ds');
    PairedDocumentsWithin(ds', mid);
  }

  lemma ReorderedNamesWithin(t: Store, t': Store, names: set<string>)
    requires ReorderedPolicies(t.policies, t'.policies)
    ensures NamedStatements(t, names) <= NamedStatements(t', names)
  {
    forall s | s in NamedStatements(t, names) ensures s in NamedStatements(t', names) {
      var n :| n in names && n in t.policies && s in t.policies[n].statement;
      SameMultisetSameElements(t.policies[n].statement, t'.policies[n].statement);
    }
  }

  lemma ReorderedGroupsWithin(t: Store, t': Store, gs: seq<string>, gs': seq<string>)
    requires t.groups.Keys == t'.groups.Keys
    requires forall n | n in t.groups :: multiset(t.groups[n]) == multiset(t'.groups[n])
    requires multiset(gs) == multiset(gs')
    ensures GroupNames(t, gs) <= GroupNames(t', gs')
  {
    SameMultisetSameElements(gs, gs');
    forall n | n in GroupNames(t, gs) ensures n in GroupNames(t', gs') {
      var g :| g in gs && g in t.groups && n in t.groups[g];
      SameMultisetSameElements(t.groups[g], t'.groups[g]);
    }
  }

  lemma ReorderedUserSameStatements(t: Store, t': Store, u: User, u': User)
    requires Reordered(t, t') && ReorderedUser(u, u')
    ensures IdentityStatements(t, Some(u)) == IdentityStatements(t', Some(u'))
  {
    ReorderedDocumentsSameStatements(u.inline, u'.inline);
    SameMultisetSameElements(u.attached, u'.attached);
    ReorderedGroupsWithin(t, t', u.groups, u'.groups);
    ReorderedGroupsWithin(t', t, u'.groups, u.groups);
    assert IdentityNames(t, u) == IdentityNames(t', u');
    ReorderedNamesWithin(t, t', IdentityNames(t, u));
    ReorderedNamesWithin(t', t, IdentityNames(t, u));
  }

  lemma ReorderedBoundary(t: Store, t': Store, u: User, u': User, req: Request)
    requires Reordered(t, t') && u.boundary == u'.boundary
    ensures WithinBoundary(t, Some(u), req) == WithinBoundary(t', Some(u'), req)
  {
    if u.boundary in t.policies { SameDocumentSameStatements(t.policies[u.boundary], t'.policies[u.boundary]); }
  }

  lemma ReorderedGates(t: Store, t': Store, req: Request)
    requires Reordered(t, t')
    ensures WithinSCP(t, req) == WithinSCP(t', req)
    ensures ResourceStatements(t, req) == ResourceStatements(t', req)
  {
    if t.scp.Some? { SameDocumentSameStatements(t.scp.value, t'.scp.value); }
    var b := BucketOf(req.resource);
    if b in t.bucketPolicies { SameDocumentSameStatements(t.bucketPolicies[b], t'.bucketPolicies[b]); }
  }

  /** The decision does not depend on the order of statements, documents, attachments or groups. */
  lemma OrderIsIrrelevant(t: Store, t': Store, req: Request)
    requires Reordered(t, t')
    ensures Verdict(Some(t), req) == Verdict(Some(t'), req)
  {
    ReorderedGates(t, t', req);
    if req.principal in t.users {
      var u, u' := t.users[req.principal], t'.users[req.principal];
      ReorderedUserSameStatements(t, t', u, u');
      ReorderedBoundary(t, t', u, u', req);
    }
  }
}
