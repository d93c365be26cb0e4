/** Hook chains around an S3 operation: what is planned, and what happens when the plan is carried out flat. */
module Hooks {

  import opened Options
  import opened Sequences
  import opened Sorting

  datatype Hook = Hook(
    plugin: string,
    handler: string,
    operation: string,
    hookType: string,
    priority: int,
    condition: string,
    onFailure: string
  )

  datatype HookContext = HookContext(
    operation: string,
    phase: string,
    bucket: string,
    key: string,
    verb: string,
    user: string,
    status: int,
    headers: map<string, string>,
    body: string
  )

  /** An unspecified action is handled like `Continue`. */
  datatype Action = Continue | Abort | Modify

  datatype Response = Response(
    action: Action,
    status: int,
    headers: map<string, string>,
    body: string,
    modified: Option<HookContext>
  )

  datatype HookResult = HookResult(action: Action, status: int, headers: map<string, string>, body: string)

  // ---- classifying and sorting ----

  function OfType(hooks: seq<Hook>, kind: string): seq<Hook> {
    if hooks == [] then []
    else (if hooks[0].hookType == kind then [hooks[0]] else []) + OfType(hooks[1..], kind)
  }

  lemma {:induction false} OfTypeAppend(a: seq<Hook>, b: seq<Hook>, kind: string)
    ensures OfType(a + b, kind) == OfType(a, kind) + OfType(b, kind)
  {
    if a == [] {
      assert a + b == b;
    } else {
      OfTypeAppend(a[1..], b, kind);
      assert (a + b)[0] == a[0] && (a + b)[1..] == a[1..] + b;
      Regroup(if a[0].hookType == kind then [a[0]] else [], OfType(a[1..], kind), OfType(b, kind));
    }
  }

  lemma OfTypeOne(h: Hook, kind: string)
    ensures OfType([h], kind) == if h.hookType == kind then [h] else []
  {
    assert OfType([h][1..], kind) == [];
  }

  /** Classifying keeps the hooks of a type where they stand in the list, and drops the others. */
  lemma OfTypeKeepsOrder(a: seq<Hook>, h: Hook, b: seq<Hook>, kind: string)
    ensures OfType(a + [h] + b, kind) == OfType(a, kind) + (if h.hookType == kind then [h] else []) + OfType(b, kind)
  {
    OfTypeAppend(a + [h], b, kind);
    OfTypeAppend(a, [h], kind);
    OfTypeOne(h, kind);
  }

  /** A hook of the type is there as often as in the list. */
  lemma {:induction false} OfTypeCount(hooks: seq<Hook>, kind: string, h: Hook)
    ensures multiset(OfType(hooks, kind))[h] == if h.hookType == kind then multiset(hooks)[h] else 0
  {
    if hooks != [] {
      OfTypeCount(hooks[1..], kind, h);
      CountFirst(hooks, h);
      CountAppend(if hooks[0].hookType == kind then [hooks[0]] else [], OfType(hooks[1..], kind), h);
    }
  }

  lemma CountFirst<T>(s: seq<T>, x: T)
    requires s != []
    ensures multiset(s)[x] == multiset(s[1..])[x] + if s[0] == x then 1 else 0
  {
    assert s == [s[0]] + s[1..];
  }

  lemma CountAppend<T>(a: seq<T>, b: seq<T>, x: T)
    ensures multiset(a + b)[x] == multiset(a)[x] + multiset(b)[x]
  {
  }

  predicate HigherFirst(a: Hook, b: Hook) {
    a.priority >= b.priority
  }

  /** The hooks of one type by descending priority. */
  function Layer(hooks: seq<Hook>, kind: string): seq<Hook> {
    Sort(HigherFirst, OfType(hooks, kind))
  }

  lemma HigherFirstIsPreorder()
    ensures TotalPreorder(HigherFirst)
  {
  }

  /** Sorting keeps the hooks, orders them by descending priority, and keeps equal priorities in list order. */
  lemma PrioritySortIsStable(hooks: seq<Hook>, h: Hook)
    ensures Sorted(HigherFirst, Sort(HigherFirst, hooks)) && multiset(Sort(HigherFirst, hooks)) == multiset(hooks)
    ensures AllAlike(HigherFirst, Sort(HigherFirst, hooks), h) == AllAlike(HigherFirst, hooks, h)
  {
    HigherFirstIsPreorder();
    SortSorts(HigherFirst, hooks);
    SortElements(HigherFirst, hooks);
    SortIsStable(HigherFirst, hooks, h);
  }

  // ---- the plan ----

  datatype Phase = Before | AroundBefore | AroundAfter | After

  datatype Item = Visit(hook: Hook, phase: Phase) | RunInner

  function Visits(hooks: seq<Hook>, phase: Phase, matches: Hook -> bool): seq<Item> {
    if hooks == [] then []
    else (if matches(hooks[0]) then [Visit(hooks[0], phase)] else []) + Visits(hooks[1..], phase, matches)
  }

  function Reverse<T>(s: seq<T>): seq<T> {
    if s == [] then [] else Reverse(s[1..]) + [s[0]]
  }

  /** The well-nested order: before, around on the way in, the operation, around on the way out, after. */
  function Plan(hooks: seq<Hook>, matches: Hook -> bool): seq<Item> {
    var before, around, after := Layer(hooks, "before"), Layer(hooks, "around"), Layer(hooks, "after");
    Visits(before, Before, matches) + Onion(around, matches) + Visits(Reverse(after), After, matches)
  }

  function Onion(around: seq<Hook>, matches: Hook -> bool): seq<Item> {
    Visits(around, AroundBefore, matches) + [RunInner] + Reverse(Visits(around, AroundAfter, matches))
  }

  // ---- the order the comments give ----

  predicate LowerFirst(a: Hook, b: Hook) {
    a.priority <= b.priority
  }

  ghost predicate SamePriority(hooks: seq<Hook>) {
    forall g, h | g in hooks && h in hooks :: g.priority == h.priority
  }

  lemma BothWaysExactlyWhenEqual(s: seq<Hook>)
    requires Sorted(HigherFirst, s)
    ensures Sorted(LowerFirst, s) <==> SamePriority(s)
  {
    if Sorted(LowerFirst, s) {
      forall g, h | g in s && h in s ensures g.priority == h.priority {
        var i :| 0 <= i < |s| && s[i] == g;
        var j :| 0 <= j < |s| && s[j] == h;
        if i < j {
          assert LowerFirst(s[i], s[j]) && HigherFirst(s[i], s[j]);
        } else if j < i {
          assert LowerFirst(s[j], s[i]) && HigherFirst(s[j], s[i]);
        }
      }
    }
  }

  lemma {:induction false} ReverseLength<T>(s: seq<T>)
    ensures |Reverse(s)| == |s|
  {
    if s != [] { ReverseLength(s[1..]); }
  }

  lemma {:induction false} ReverseAt<T>(s: seq<T>, k: nat)
    requires k < |s|
    ensures |Reverse(s)| == |s| && Reverse(s)[k] == s[|s| - 1 - k]
  {
    ReverseLength(s);
    ReverseLength(s[1..]);
    if k < |s| - 1 { ReverseAt(s[1..], k); }
  }

  lemma ReverseSorted(s: seq<Hook>)
    ensures Sorted(HigherFirst, Reverse(s)) <==> Sorted(LowerFirst, s)
  {
    var r, n := Reverse(s), |s|;
    ReverseLength(s);
    if Sorted(HigherFirst, r) {
      forall i, j | 0 <= i < j < n ensures LowerFirst(s[i], s[j]) {
        ReverseAt(s, n - 1 - i);
        ReverseAt(s, n - 1 - j);
        assert HigherFirst(r[n - 1 - j], r[n - 1 - i]);
      }
    }
    if Sorted(LowerFirst, s) {
      forall i, j | 0 <= i < j < n ensures HigherFirst(r[i], r[j]) {
        ReverseAt(s, i);
        ReverseAt(s, j);
        assert LowerFirst(s[n - 1 - j], s[n - 1 - i]);
      }
    }
  }

  lemma LayerIsSorted(hooks: seq<Hook>, kind: string)
    ensures Sorted(HigherFirst, Layer(hooks, kind))
    ensures SamePriority(Layer(hooks, kind)) <==> SamePriority(OfType(hooks, kind))
  {
    HigherFirstIsPreorder();
    SortSorts(HigherFirst, OfType(hooks, kind));
    SortElements(HigherFirst, OfType(hooks, kind));
    forall h ensures h in Layer(hooks, kind) <==> h in OfType(hooks, kind) {
      assert h in Layer(hooks, kind) <==> h in multiset(Layer(hooks, kind));
      assert h in OfType(hooks, kind) <==> h in multiset(OfType(hooks, kind));
    }
  }

  /** Before hooks run by ascending priority, and after hooks by descending priority, exactly when the hooks of that
      type all have the same priority. */
  lemma CommentedOrderExactlyWhenEqual(hooks: seq<Hook>)
    ensures Sorted(LowerFirst, Layer(hooks, "before")) <==> SamePriority(OfType(hooks, "before"))
    ensures Sorted(HigherFirst, Reverse(Layer(hooks, "after"))) <==> SamePriority(OfType(hooks, "after"))
  {
    LayerIsSorted(hooks, "before");
    BothWaysExactlyWhenEqual(Layer(hooks, "before"));
    LayerIsSorted(hooks, "after");
    BothWaysExactlyWhenEqual(Layer(hooks, "after"));
    ReverseSorted(Layer(hooks, "after"));
  }

  // ---- the world outside ----

  datatype LoaderReply = Replied(response: Response) | CallFailed

  datatype InnerReply = InnerReply(result: HookResult) | InnerFailed

  /** What happened at one item: a hook answered (`contacted` if the loader was called, `genuine` if the answer
      is the loader's own), a hook failed the chain, or the operation ran. */
  datatype Event =
    | Answered(hook: Hook, phase: Phase, ctx: HookContext, contacted: bool, genuine: bool, response: Response)
    | Refused(hook: Hook, phase: Phase, ctx: HookContext, contacted: bool)
    | Ran(ctx: HookContext, reply: InnerReply)

  /** Everything a chain depends on; answers may depend on all that happened before. The breaker is open while
      the clock reads less than `openUntil`. */
  datatype World = World(
    matches: Hook -> bool,
    reply: (seq<Event>, Hook, HookContext) -> LoaderReply,
    inner: (seq<Event>, HookContext) -> InnerReply,
    now: seq<Event> -> int,
    openUntil: Option<int>,
    critical: set<string>
  )

  predicate BreakerOpen(world: World, trace: seq<Event>) {
    world.openUntil.Some? && world.now(trace) < world.openUntil.value
  }

  const Synthetic := Response(Continue, 0, map[], "", None)

  /** The failure policy: critical operations refuse; otherwise the hook's own policy decides. */
  function OnFailure(world: World, h: Hook, phase: Phase, ctx: HookContext, contacted: bool): Event {
    if h.operation in world.critical then Refused(h, phase, ctx, contacted)
    else if h.onFailure == "" || h.onFailure == "allow" || h.onFailure == "log_and_allow"
    then Answered(h, phase, ctx, contacted, false, Synthetic)
    else Refused(h, phase, ctx, contacted)
  }

  function Invoke(world: World, trace: seq<Event>, h: Hook, phase: Phase, ctx: HookContext): Event {
    if BreakerOpen(world, trace) then OnFailure(world, h, phase, ctx, false)
    else
      match world.reply(trace, h, ctx)
      case Replied(r) => Answered(h, phase, ctx, true, true, r)
      case CallFailed => OnFailure(world, h, phase, ctx, true)
  }

  // ---- contexts and results ----

  function OrElse(s: string, t: string): string {
    if s != "" then s else t
  }

  function ApplyContext(base: HookContext, patch: Option<HookContext>): HookContext {
    match patch
    case None => base
    case Some(p) =>
      base.(bucket := OrElse(p.bucket, base.bucket),
            key := OrElse(p.key, base.key),
            verb := OrElse(p.verb, base.verb),
            headers := base.headers + p.headers,
            body := OrElse(p.body, base.body),
            status := if p.status != 0 then p.status else base.status)
  }

  function ApplyResult(r: HookResult, patch: Option<HookContext>): HookResult {
    match patch
    case None => r
    case Some(p) =>
      r.(status := if p.status != 0 then p.status else r.status,
         headers := if p.headers != map[] then p.headers else r.headers,
         body := OrElse(p.body, r.body))
  }

  /** The context shown to a hook on the way out: the result, labelled with the original request. */
  function ResultContext(r: HookResult, req: HookContext, phase: string): HookContext {
    HookContext(req.operation, phase, req.bucket, req.key, req.verb, req.user, r.status, r.headers, r.body)
  }

  function AbortResult(r: Response): HookResult {
    HookResult(Abort, r.status, r.headers, r.body)
  }

  function PhaseName(p: Phase): string {
    match p
    case Before => "before"
    case AroundBefore => "around_before"
    case AroundAfter => "around_after"
    case After => "after"
  }

  predicate OnWayIn(p: Phase) {
    p.Before? || p.AroundBefore?
  }

  /** A patch that says nothing. */
  const NoPatch := HookContext("", "", "", "", "", "", 0, map[], "")

  /** What a hook sends back changes a context only where it says something, never the caller; the last word wins. */
  lemma ContextPatches(base: HookContext, p: HookContext, q: HookContext)
    ensures ApplyContext(base, None) == ApplyContext(base, Some(NoPatch)) == base
    ensures var r := ApplyContext(base, Some(p));
            && r.operation == base.operation && r.user == base.user && r.phase == base.phase
            && ApplyContext(r, Some(p)) == r
            && (forall k | k in p.headers :: k in r.headers && r.headers[k] == p.headers[k])
            && (forall k | k in base.headers && k !in p.headers :: k in r.headers && r.headers[k] == base.headers[k])
    ensures q.bucket != "" && q.key != "" && q.verb != "" && q.body != "" && q.status != 0 ==>
              var r := ApplyContext(ApplyContext(base, Some(p)), Some(q));
              r.bucket == q.bucket && r.key == q.key && r.verb == q.verb && r.body == q.body && r.status == q.status
  {
    assert base.headers + p.headers + p.headers == base.headers + p.headers;
    assert base.headers + map[] == base.headers;
  }

  /** The same of a result, whose action no hook changes that way. */
  lemma ResultPatches(result: HookResult, p: HookContext, q: HookContext)
    ensures ApplyResult(result, None) == ApplyResult(result, Some(NoPatch)) == result
    ensures ApplyResult(result, Some(p)).action == result.action
    ensures ApplyResult(ApplyResult(result, Some(p)), Some(p)) == ApplyResult(result, Some(p))
    ensures q.body != "" && q.status != 0 && q.headers != map[] ==>
              var r := ApplyResult(ApplyResult(result, Some(p)), Some(q));
              r.body == q.body && r.status == q.status && r.headers == q.headers
  {
  }

  /** Showing a result and taking it back as a patch gives the result again; so does taking it back as a patch of any
      other result, where it is not empty, and what an abort says is the result. */
  lemma ShownAndTakenBack(result: HookResult, other: HookResult, req: HookContext, phase: string)
    ensures ApplyResult(result, Some(ResultContext(result, req, phase))) == result
    ensures ResultContext(result, req, phase).phase == phase
    ensures result.status != 0 && result.headers != map[] && result.body != "" ==>
              ApplyResult(other, Some(ResultContext(result, req, phase))) == result.(action := other.action)
    ensures result.action.Abort? ==>
              forall m :: AbortResult(Response(Abort, result.status, result.headers, result.body, m)) == result
  {
  }

  // ---- carrying out a plan, flat ----

  datatype Outcome = Error | Result(result: HookResult)

  /** A chain in progress, or ended with an outcome. `result` means something once the operation ran. */
  datatype Chain = Chain(trace: seq<Event>, ctx: HookContext, result: HookResult, ended: Option<Outcome>)

  function Visited(world: World, req: HookContext, c: Chain, h: Hook, phase: Phase): Chain {
    var shown := if OnWayIn(phase) then c.ctx.(phase := PhaseName(phase))
                 else ResultContext(c.result, req, PhaseName(phase));
    var e := Invoke(world, c.trace, h, phase, shown);
    var c' := c.(trace := c.trace + [e]);
    match e
    case Answered(_, _, _, _, _, r) =>
      if r.action.Abort? then c'.(ended := Some(Result(AbortResult(r))))
      else if OnWayIn(phase) then c'.(ctx := if r.action.Modify? then ApplyContext(shown, r.modified) else shown)
      else c'.(result := if r.action.Modify? then ApplyResult(c.result, r.modified) else c.result)
    case _ => c'.(ended := Some(Error))
  }

  function InnerRun(world: World, c: Chain): Chain {
    var reply := world.inner(c.trace, c.ctx);
    var c' := c.(trace := c.trace + [Ran(c.ctx, reply)]);
    match reply
    case InnerReply(r) => c'.(result := r, ended := if r.action.Abort? then Some(Result(r)) else None)
    case InnerFailed => c'.(ended := Some(Error))
  }

  function Carry(world: World, req: HookContext, c: Chain, item: Item): Chain {
    match item
    case Visit(h, p) => Visited(world, req, c, h, p)
    case RunInner => InnerRun(world, c)
  }

  /** One item after the other until the plan or the chain ends. */
  function CarryOut(world: World, req: HookContext, c: Chain, plan: seq<Item>): Chain
    decreases |plan|
  {
    if plan == [] || c.ended.Some? then c
    else CarryOut(world, req, Carry(world, req, c, plan[0]), plan[1..])
  }

  function OutcomeOf(c: Chain): Outcome {
    if c.ended.Some? then c.ended.value else Result(c.result)
  }

  const NoResult := HookResult(Continue, 0, map[], "")

  function Start(req: HookContext): Chain {
    Chain([], req, NoResult, None)
  }

  lemma {:induction false} CarryOutAppend(world: World, req: HookContext, c: Chain, a: seq<Item>, b: seq<Item>)
    ensures CarryOut(world, req, c, a + b) == CarryOut(world, req, CarryOut(world, req, c, a), b)
    decreases |a|
  {
    if a == [] {
      assert a + b == b;
    } else if c.ended.None? {
      assert (a + b)[1..] == a[1..] + b;
      CarryOutAppend(world, req, Carry(world, req, c, a[0]), a[1..], b);
    }
  }

  // ---- what every chain keeps ----

  function ItemOf(e: Event): Item {
    if e.Ran? then RunInner else Visit(e.hook, e.phase)
  }

  predicate Stops(e: Event) {
    match e
    case Answered(_, _, _, _, _, r) => r.action.Abort?
    case Refused(_, _, _, _) => true
    case Ran(_, reply) => reply.InnerFailed? || reply.result.action.Abort?
  }

  /** A trace follows a plan: item by item, with nothing after an event that stops the chain, and stopped short
      only by such an event. */
  ghost predicate Follows(trace: seq<Event>, plan: seq<Item>, ended: bool) {
    && |trace| <= |plan|
    && (forall i | 0 <= i < |trace| :: ItemOf(trace[i]) == plan[i])
    && (forall i | 0 <= i < |trace| - 1 :: !Stops(trace[i]))
    && (ended ==> trace != [] && Stops(trace[|trace| - 1]))
    && (!ended ==> |trace| == |plan| && (trace != [] ==> !Stops(trace[|trace| - 1])))
  }

  lemma CarryOne(world: World, req: HookContext, c: Chain, item: Item) returns (e: Event)
    requires c.ended.None?
    ensures Carry(world, req, c, item).trace == c.trace + [e] && ItemOf(e) == item
    ensures Stops(e) <==> Carry(world, req, c, item).ended.Some?
  {
    var c' := Carry(world, req, c, item);
    e := c'.trace[|c.trace|];
  }

  lemma RestStartsWith<T>(s: seq<T>, first: seq<T>, x: T)
    requires first + [x] <= s
    ensures first <= s && s[|first|..] == [x] + s[|first| + 1..]
  {
  }

  lemma FollowsOneMore(e: Event, rest: seq<Event>, plan: seq<Item>, ended: bool)
    requires plan != [] && ItemOf(e) == plan[0] && !Stops(e) && Follows(rest, plan[1..], ended)
    ensures Follows([e] + rest, plan, ended)
  {
  }

  /** The trace of a chain follows its plan. */
  lemma {:induction false} TraceFollowsPlan(world: World, req: HookContext, c: Chain, plan: seq<Item>)
    requires c.ended.None?
    ensures var c' := CarryOut(world, req, c, plan);
            && c.trace <= c'.trace
            && Follows(c'.trace[|c.trace|..], plan, c'.ended.Some?)
    decreases |plan|
  {
    var c' := CarryOut(world, req, c, plan);
    if plan != [] {
      var e := CarryOne(world, req, c, plan[0]);
      var next := Carry(world, req, c, plan[0]);
      if next.ended.None? {
        TraceFollowsPlan(world, req, next, plan[1..]);
        RestStartsWith(c'.trace, c.trace, e);
        FollowsOneMore(e, c'.trace[|next.trace|..], plan, c'.ended.Some?);
      } else {
        assert c' == next && c'.trace[|c.trace|..] == [e];
      }
    }
  }

  // The operation occurs once in a plan.

  lemma {:induction false} VisitsOnly(hooks: seq<Hook>, phase: Phase, matches: Hook -> bool)
    ensures RunInner !in Visits(hooks, phase, matches)
  {
    if hooks != [] { VisitsOnly(hooks[1..], phase, matches); }
  }

  lemma {:induction false} ReverseElements<T>(s: seq<T>)
    ensures forall x :: x in Reverse(s) <==> x in s
  {
    if s != [] {
      ReverseElements(s[1..]);
      assert s == [s[0]] + s[1..];
    }
  }

  function WayIn(hooks: seq<Hook>, matches: Hook -> bool): seq<Item> {
    Visits(Layer(hooks, "before"), Before, matches) + Visits(Layer(hooks, "around"), AroundBefore, matches)
  }

  function WayOut(hooks: seq<Hook>, matches: Hook -> bool): seq<Item> {
    Reverse(Visits(Layer(hooks, "around"), AroundAfter, matches))
    + Visits(Reverse(Layer(hooks, "after")), After, matches)
  }

  // Every listed hook that matches has its place in the plan.

  lemma {:induction false} VisitsCount(hooks: seq<Hook>, phase: Phase, matches: Hook -> bool, h: Hook, p: Phase)
    ensures multiset(Visits(hooks, phase, matches))[Visit(h, p)] ==
            if p == phase && matches(h) then multiset(hooks)[h] else 0
  {
    if hooks != [] {
      VisitsCount(hooks[1..], phase, matches, h, p);
      CountFirst(hooks, h);
      var first := if matches(hooks[0]) then [Visit(hooks[0], phase)] else [];
      CountAppend(first, Visits(hooks[1..], phase, matches), Visit(h, p));
    }
  }

  lemma {:induction false} ReverseCount<T>(s: seq<T>, x: T)
    ensures multiset(Reverse(s))[x] == multiset(s)[x]
  {
    if s != [] {
      ReverseCount(s[1..], x);
      CountFirst(s, x);
      CountAppend(Reverse(s[1..]), [s[0]], x);
    }
  }

  lemma LayerCount(hooks: seq<Hook>, kind: string, h: Hook)
    ensures multiset(Layer(hooks, kind))[h] == if h.hookType == kind then multiset(hooks)[h] else 0
  {
    SortElements(HigherFirst, OfType(hooks, kind));
    OfTypeCount(hooks, kind, h);
  }

  /** The type of the hooks that are visited in a phase. */
  function TypeOf(p: Phase): string {
    match p
    case Before => "before"
    case AroundBefore => "around"
    case AroundAfter => "around"
    case After => "after"
  }

  /** How often a hook is visited in a phase: as often as it is listed, if it is of the phase's type and matches. */
  function Due(hooks: seq<Hook>, matches: Hook -> bool, h: Hook, p: Phase): nat {
    if h.hookType == TypeOf(p) && matches(h) then multiset(hooks)[h] else 0
  }

  lemma WayInHasAll(hooks: seq<Hook>, matches: Hook -> bool, h: Hook, p: Phase)
    ensures multiset(WayIn(hooks, matches))[Visit(h, p)] == if OnWayIn(p) then Due(hooks, matches, h, p) else 0
  {
    var before, around := Layer(hooks, "before"), Layer(hooks, "around");
    CountAppend(Visits(before, Before, matches), Visits(around, AroundBefore, matches), Visit(h, p));
    VisitsCount(before, Before, matches, h, p);
    VisitsCount(around, AroundBefore, matches, h, p);
    LayerCount(hooks, "before", h);
    LayerCount(hooks, "around", h);
  }

  lemma WayOutHasAll(hooks: seq<Hook>, matches: Hook -> bool, h: Hook, p: Phase)
    ensures multiset(WayOut(hooks, matches))[Visit(h, p)] == if OnWayIn(p) then 0 else Due(hooks, matches, h, p)
  {
    var around, after := Layer(hooks, "around"), Layer(hooks, "after");
    CountAppend(Reverse(Visits(around, AroundAfter, matches)), Visits(Reverse(after), After, matches), Visit(h, p));
    ReverseCount(Visits(around, AroundAfter, matches), Visit(h, p));
    VisitsCount(around, AroundAfter, matches, h, p);
    VisitsCount(Reverse(after), After, matches, h, p);
    ReverseCount(after, h);
    LayerCount(hooks, "around", h);
    LayerCount(hooks, "after", h);
  }

  /** The plan visits every listed hook that matches, in the phases of its type, as often as it is listed, and visits
      nothing else. */
  lemma EveryHookIsPlanned(hooks: seq<Hook>, matches: Hook -> bool, h: Hook, p: Phase)
    ensures multiset(Plan(hooks, matches))[Visit(h, p)] == Due(hooks, matches, h, p)
  {
    PlanSplits(hooks, matches);
    CountAppend(WayIn(hooks, matches) + [RunInner], WayOut(hooks, matches), Visit(h, p));
    CountAppend(WayIn(hooks, matches), [RunInner], Visit(h, p));
    WayInHasAll(hooks, matches, h, p);
    WayOutHasAll(hooks, matches, h, p);
  }

  /** The visits of a trace. */
  function ItemsOf(t: seq<Event>): (items: seq<Item>)
    ensures |items| == |t| && forall i | 0 <= i < |t| :: items[i] == ItemOf(t[i])
  {
    seq(|t|, i requires 0 <= i < |t| => ItemOf(t[i]))
  }

  /** A chain that nothing ended visited every listed hook that matches, as often as it is listed. */
  lemma UnendedChainVisitsAll(world: World, hooks: seq<Hook>, req: HookContext, h: Hook, p: Phase)
    requires CarryOut(world, req, Start(req), Plan(hooks, world.matches)).ended.None?
    ensures var t := CarryOut(world, req, Start(req), Plan(hooks, world.matches)).trace;
            multiset(ItemsOf(t))[Visit(h, p)] == Due(hooks, world.matches, h, p)
  {
    var plan := Plan(hooks, world.matches);
    var t := CarryOut(world, req, Start(req), plan).trace;
    TraceFollowsPlan(world, req, Start(req), plan);
    assert t[0..] == t;
    assert ItemsOf(t) == plan;
    EveryHookIsPlanned(hooks, world.matches, h, p);
  }

  lemma RegroupAround<T>(a: seq<T>, b: seq<T>, x: seq<T>, c: seq<T>, d: seq<T>)
    ensures a + (b + x + c) + d == a + b + x + (c + d)
  {
  }

  lemma PlanSplits(hooks: seq<Hook>, matches: Hook -> bool)
    ensures Plan(hooks, matches) == WayIn(hooks, matches) + [RunInner] + WayOut(hooks, matches)
  {
    var before, around, after := Layer(hooks, "before"), Layer(hooks, "around"), Layer(hooks, "after");
    RegroupAround(Visits(before, Before, matches), Visits(around, AroundBefore, matches), [RunInner],
                  Reverse(Visits(around, AroundAfter, matches)), Visits(Reverse(after), After, matches));
  }

  lemma OneRunInPlan(hooks: seq<Hook>, matches: Hook -> bool)
    ensures RunInner !in WayIn(hooks, matches) && RunInner !in WayOut(hooks, matches)
  {
    var before, around, after := Layer(hooks, "before"), Layer(hooks, "around"), Layer(hooks, "after");
    VisitsOnly(before, Before, matches);
    VisitsOnly(around, AroundBefore, matches);
    VisitsOnly(around, AroundAfter, matches);
    VisitsOnly(Reverse(after), After, matches);
    ReverseElements(Visits(around, AroundAfter, matches));
  }

  /** The operation runs at most once, at its place in the plan: after every planned way-in hook, each of which
      let the chain go on. */
  lemma InnerRunsOnce(world: World, hooks: seq<Hook>, req: HookContext, i: nat, j: nat)
    requires var t := CarryOut(world, req, Start(req), Plan(hooks, world.matches)).trace;
             i < |t| && j < |t| && t[i].Ran? && t[j].Ran?
    ensures i == j == |WayIn(hooks, world.matches)|
  {
    var plan := Plan(hooks, world.matches);
    PlanSplits(hooks, world.matches);
    OneRunInPlan(hooks, world.matches);
    TraceFollowsPlan(world, req, Start(req), plan);
    var t := CarryOut(world, req, Start(req), plan).trace;
    assert t[0..] == t;
    assert ItemOf(t[i]) == plan[i] && ItemOf(t[j]) == plan[j];
    UniqueMiddle(WayIn(hooks, world.matches), RunInner, WayOut(hooks, world.matches), i);
    UniqueMiddle(WayIn(hooks, world.matches), RunInner, WayOut(hooks, world.matches), j);
  }

  lemma UniqueMiddle(a: seq<Item>, x: Item, b: seq<Item>, k: nat)
    requires x !in a && x !in b && k < |a + [x] + b| && (a + [x] + b)[k] == x
    ensures k == |a|
  {
  }

  // ---- what every event of a chain satisfies ----

  /** What the loader says when it is asked, and nothing while the breaker is open. */
  function Heard(world: World, trace: seq<Event>, h: Hook, ctx: HookContext): Option<Response> {
    if BreakerOpen(world, trace) || world.reply(trace, h, ctx).CallFailed? then None
    else Some(world.reply(trace, h, ctx).response)
  }

  /** A hook whose failure lets the chain go on. */
  predicate Tolerated(world: World, h: Hook) {
    h.operation !in world.critical && h.onFailure in {"", "allow", "log_and_allow"}
  }

  /** A hook's event is what the loader said, if it said anything; otherwise the hook's failure is tolerated or ends the
      chain. */
  ghost predicate Faithful(world: World, trace: seq<Event>, e: Event)
    requires !e.Ran?
  {
    var heard := Heard(world, trace, e.hook, e.ctx);
    && (e.contacted <==> !BreakerOpen(world, trace))
    && (heard.Some? ==> e.Answered? && e.genuine && e.response == heard.value)
    && (heard.None? ==> (e.Answered? <==> Tolerated(world, e.hook)))
    && (heard.None? && e.Answered? ==> !e.genuine && e.response.action.Continue?)
  }

  /** An event as the chain makes it: it is faithful to the loader or to the operation, an answer that is not the
      loader's own is never given for a critical operation, and the request's operation and user are shown unchanged;
      on the way out so are its bucket, key and method. */
  ghost predicate Proper(world: World, req: HookContext, trace: seq<Event>, e: Event) {
    && (if e.Ran? then e.reply == world.inner(trace, e.ctx) else Faithful(world, trace, e))
    && e.ctx.operation == req.operation
    && e.ctx.user == req.user
    && (!e.Ran? ==>
          && (e.contacted <==> (world.openUntil.Some? ==> world.openUntil.value <= world.now(trace)))
          && (!OnWayIn(e.phase) ==> e.ctx.bucket == req.bucket && e.ctx.key == req.key && e.ctx.verb == req.verb))
    && (e.Answered? ==> (e.genuine ==> e.contacted) && (!e.genuine ==> e.hook.operation !in world.critical))
  }

  ghost predicate AllProper(world: World, req: HookContext, trace: seq<Event>) {
    forall i | 0 <= i < |trace| :: Proper(world, req, trace[..i], trace[i])
  }

  lemma InvokeIsProper(world: World, req: HookContext, trace: seq<Event>, h: Hook, phase: Phase, shown: HookContext)
    requires shown.operation == req.operation && shown.user == req.user
    requires !OnWayIn(phase) ==> shown.bucket == req.bucket && shown.key == req.key && shown.verb == req.verb
    ensures Proper(world, req, trace, Invoke(world, trace, h, phase, shown))
    ensures Invoke(world, trace, h, phase, shown).ctx == shown
  {
  }

  ghost predicate SameCaller(ctx: HookContext, req: HookContext) {
    ctx.operation == req.operation && ctx.user == req.user
  }

  lemma VisitIsProper(world: World, req: HookContext, c: Chain, h: Hook, phase: Phase)
    requires SameCaller(c.ctx, req)
    ensures var c' := Visited(world, req, c, h, phase);
            exists e :: c'.trace == c.trace + [e] && Proper(world, req, c.trace, e) && SameCaller(c'.ctx, req)
  {
    var shown := if OnWayIn(phase) then c.ctx.(phase := PhaseName(phase))
                 else ResultContext(c.result, req, PhaseName(phase));
    InvokeIsProper(world, req, c.trace, h, phase, shown);
    var e := Invoke(world, c.trace, h, phase, shown);
    var c' := Visited(world, req, c, h, phase);
    assert c'.trace == c.trace + [e];
    assert SameCaller(c'.ctx, req);
  }

  lemma CarryIsProper(world: World, req: HookContext, c: Chain, item: Item)
    requires SameCaller(c.ctx, req)
    ensures var c' := Carry(world, req, c, item);
            exists e :: c'.trace == c.trace + [e] && Proper(world, req, c.trace, e) && SameCaller(c'.ctx, req)
  {
    match item
    case Visit(h, phase) => VisitIsProper(world, req, c, h, phase);
    case RunInner =>
      var e := Ran(c.ctx, world.inner(c.trace, c.ctx));
      assert InnerRun(world, c).trace == c.trace + [e] && Proper(world, req, c.trace, e);
  }

  lemma {:induction false} EventsAreProper(world: World, req: HookContext, c: Chain, plan: seq<Item>)
    requires AllProper(world, req, c.trace) && SameCaller(c.ctx, req)
    ensures AllProper(world, req, CarryOut(world, req, c, plan).trace)
    decreases |plan|
  {
    if plan != [] && c.ended.None? {
      var c' := Carry(world, req, c, plan[0]);
      CarryIsProper(world, req, c, plan[0]);
      forall i | 0 <= i < |c'.trace| ensures Proper(world, req, c'.trace[..i], c'.trace[i]) {
        if i < |c.trace| {
          assert c'.trace[..i] == c.trace[..i] && c'.trace[i] == c.trace[i];
          assert Proper(world, req, c.trace[..i], c.trace[i]);
        }
      }
      EventsAreProper(world, req, c', plan[1..]);
    }
  }

  /** A hook was visited, answered by the loader itself, and did not abort. */
  predicate CameThrough(e: Event, item: Item) {
    ItemOf(e) == item && e.Answered? && e.genuine && !e.response.action.Abort?
  }

  /** The operation ran, after everything on the way in came through. */
  ghost predicate Cleared(trace: seq<Event>, way: seq<Item>) {
    |way| < |trace| && trace[|way|].Ran? && forall k | 0 <= k < |way| :: CameThrough(trace[k], way[k])
  }

  /** Before the event at `r`, a hook was answered by the loader itself and did not abort. */
  ghost predicate CameThroughBefore(trace: seq<Event>, r: nat, h: Hook)
    requires r <= |trace|
  {
    exists k, p | 0 <= k < r :: CameThrough(trace[k], Visit(h, p))
  }

  /** A hook that must have its say before the operation. */
  predicate Guards(h: Hook, matches: Hook -> bool) {
    matches(h) && (h.hookType == "before" || h.hookType == "around")
  }

  /** The operation ran only after every listed hook with a say came through. */
  ghost predicate ClearedByAll(trace: seq<Event>, hooks: seq<Hook>, matches: Hook -> bool) {
    exists r | 0 <= r < |trace| ::
      trace[r].Ran? && forall h | h in hooks && Guards(h, matches) :: CameThroughBefore(trace, r, h)
  }

  lemma GuardInWayIn(hooks: seq<Hook>, matches: Hook -> bool, h: Hook) returns (k: nat, p: Phase)
    requires h in hooks && Guards(h, matches)
    ensures k < |WayIn(hooks, matches)| && WayIn(hooks, matches)[k] == Visit(h, p)
  {
    p := if h.hookType == "before" then Before else AroundBefore;
    WayInHasAll(hooks, matches, h, p);
    assert h in multiset(hooks);
    assert Visit(h, p) in multiset(WayIn(hooks, matches));
    k :| 0 <= k < |WayIn(hooks, matches)| && WayIn(hooks, matches)[k] == Visit(h, p);
  }

  lemma ClearedMeansAll(trace: seq<Event>, hooks: seq<Hook>, matches: Hook -> bool)
    requires Cleared(trace, WayIn(hooks, matches))
    ensures ClearedByAll(trace, hooks, matches)
  {
    var r := |WayIn(hooks, matches)|;
    forall h | h in hooks && Guards(h, matches) ensures CameThroughBefore(trace, r, h) {
      var k, p := GuardInWayIn(hooks, matches, h);
      assert CameThrough(trace[k], Visit(h, p));
    }
  }

  ghost predicate AllFor(hooks: seq<Hook>, operations: set<string>) {
    forall h | h in hooks :: h.operation in operations
  }

  ghost predicate HasRun(trace: seq<Event>) {
    exists i | 0 <= i < |trace| :: trace[i].Ran?
  }

  lemma WayInPassed(world: World, hooks: seq<Hook>, req: HookContext, t: seq<Event>, k: nat)
    requires AllFor(hooks, world.critical) && k < |WayIn(hooks, world.matches)| && k < |t| - 1
    requires Follows(t, Plan(hooks, world.matches), false) || Follows(t, Plan(hooks, world.matches), true)
    requires AllProper(world, req, t)
    ensures CameThrough(t[k], WayIn(hooks, world.matches)[k])
  {
    PlanSplits(hooks, world.matches);
    WayInHooks(hooks, world.matches, k);
    assert Proper(world, req, t[..k], t[k]) && !Stops(t[k]);
  }

  /** Fail closed: with every hook on a critical operation, if the operation ran then every listed before and around
      hook that matches was answered by the loader itself, and did not abort, before the operation. */
  lemma FailsClosed(world: World, hooks: seq<Hook>, req: HookContext, t: seq<Event>)
    requires AllFor(hooks, world.critical)
    requires t == CarryOut(world, req, Start(req), Plan(hooks, world.matches)).trace
    ensures HasRun(t) ==> Cleared(t, WayIn(hooks, world.matches)) && ClearedByAll(t, hooks, world.matches)
  {
    if i :| 0 <= i < |t| && t[i].Ran? {
      InnerRunsOnce(world, hooks, req, i, i);
      TraceFollowsPlan(world, req, Start(req), Plan(hooks, world.matches));
      EventsAreProper(world, req, Start(req), Plan(hooks, world.matches));
      assert t[0..] == t;
      forall k | 0 <= k < i ensures CameThrough(t[k], WayIn(hooks, world.matches)[k]) {
        WayInPassed(world, hooks, req, t, k);
      }
      ClearedMeansAll(t, hooks, world.matches);
    }
  }

  lemma {:induction false} VisitsHooks(hooks: seq<Hook>, phase: Phase, matches: Hook -> bool, k: nat)
    requires k < |Visits(hooks, phase, matches)|
    ensures Visits(hooks, phase, matches)[k].Visit? && Visits(hooks, phase, matches)[k].hook in hooks
  {
    var head := if matches(hooks[0]) then [Visit(hooks[0], phase)] else [];
    if k >= |head| { VisitsHooks(hooks[1..], phase, matches, k - |head|); }
  }

  lemma {:induction false} OfTypeHooks(hooks: seq<Hook>, kind: string)
    ensures forall h | h in OfType(hooks, kind) :: h in hooks
  {
    if hooks != [] { OfTypeHooks(hooks[1..], kind); }
  }

  lemma SortedHooks(hooks: seq<Hook>, kind: string)
    ensures forall h | h in Layer(hooks, kind) :: h in hooks
  {
    OfTypeHooks(hooks, kind);
    SortElements(HigherFirst, OfType(hooks, kind));
    forall h | h in Layer(hooks, kind) ensures h in hooks {
      assert h in multiset(Layer(hooks, kind));
    }
  }

  lemma WayInHooks(hooks: seq<Hook>, matches: Hook -> bool, k: nat)
    requires k < |WayIn(hooks, matches)|
    ensures WayIn(hooks, matches)[k].Visit? && WayIn(hooks, matches)[k].hook in hooks
  {
    var before, around := Layer(hooks, "before"), Layer(hooks, "around");
    SortedHooks(hooks, "before");
    SortedHooks(hooks, "around");
    var n := |Visits(before, Before, matches)|;
    if k < n { VisitsHooks(before, Before, matches, k); } else { VisitsHooks(around, AroundBefore, matches, k - n); }
  }
}
