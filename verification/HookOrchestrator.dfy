/** The hook orchestrator: a loop of before hooks, a recursive onion, a loop of after hooks, and a breaker. */
module HookOrchestrator {
  import opened Options
  import opened Sequences
  import opened Hooks

  /** An outcome that ends the chain where it arises. */
  predicate Final(o: Outcome) {
    o.Error? || o.result.action.Abort?
  }

  /** What a part of the chain leaves: its trace, and an outcome that is final exactly when the chain ended. */
  ghost predicate Matches(c: Chain, trace: seq<Event>, o: Outcome) {
    trace == c.trace && o == OutcomeOf(c) && (Final(o) <==> c.ended.Some?)
  }

  lemma {:induction false} VisitsAppend(a: seq<Hook>, b: seq<Hook>, phase: Phase, matches: Hook -> bool)
    ensures Visits(a + b, phase, matches) == Visits(a, phase, matches) + Visits(b, phase, matches)
  {
    if a == [] {
      assert a + b == b;
    } else {
      VisitsAppend(a[1..], b, phase, matches);
      FirstAndRest(a, b);
      VisitsFirst(a[0], a[1..] + b, phase, matches);
      Regroup(if matches(a[0]) then [Visit(a[0], phase)] else [], Visits(a[1..], phase, matches),
              Visits(b, phase, matches));
    }
  }

  lemma VisitsFirst(h: Hook, rest: seq<Hook>, phase: Phase, matches: Hook -> bool)
    ensures Visits([h] + rest, phase, matches)
         == (if matches(h) then [Visit(h, phase)] else []) + Visits(rest, phase, matches)
  {
    assert ([h] + rest)[1..] == rest;
  }

  lemma VisitsOne(h: Hook, phase: Phase, matches: Hook -> bool)
    ensures Visits([h], phase, matches) == if matches(h) then [Visit(h, phase)] else []
  {
    assert Visits([h][1..], phase, matches) == [];
  }

  /** The onion peels: its outermost layer is the first visit and the last. */
  lemma OnionPeels(around: seq<Hook>, matches: Hook -> bool)
    requires around != []
    ensures Onion(around, matches) ==
            if matches(around[0])
            then [Visit(around[0], AroundBefore)] + Onion(around[1..], matches) + [Visit(around[0], AroundAfter)]
            else Onion(around[1..], matches)
  {
    var vs := Visits(around[1..], AroundAfter, matches);
    if matches(around[0]) {
      assert Visits(around, AroundAfter, matches) == [Visit(around[0], AroundAfter)] + vs;
      assert ([Visit(around[0], AroundAfter)] + vs)[1..] == vs;
    } else {
      assert Visits(around, AroundAfter, matches) == vs;
    }
  }

  lemma CarryOutOne(world: World, req: HookContext, c: Chain, item: Item)
    requires c.ended.None?
    ensures CarryOut(world, req, c, [item]) == Carry(world, req, c, item)
  {
    assert CarryOut(world, req, Carry(world, req, c, item), [item][1..]) == Carry(world, req, c, item);
  }

  /** One more hook in the list is one more item carried out, if it matches. */
  lemma NextVisit(world: World, req: HookContext, hooks: seq<Hook>, i: nat, phase: Phase)
    requires i < |hooks|
    requires CarryOut(world, req, Start(req), Visits(hooks[..i], phase, world.matches)).ended.None?
    ensures var c := CarryOut(world, req, Start(req), Visits(hooks[..i], phase, world.matches));
            CarryOut(world, req, Start(req), Visits(hooks[..i + 1], phase, world.matches))
            == if world.matches(hooks[i]) then Carry(world, req, c, Visit(hooks[i], phase)) else c
  {
    var vs := Visits(hooks[..i], phase, world.matches);
    FirstsPlusOne(hooks, i);
    VisitsAppend(hooks[..i], [hooks[i]], phase, world.matches);
    VisitsOne(hooks[i], phase, world.matches);
    CarryOutAppend(world, req, Start(req), vs, Visits([hooks[i]], phase, world.matches));
    if world.matches(hooks[i]) {
      CarryOutOne(world, req, CarryOut(world, req, Start(req), vs), Visit(hooks[i], phase));
    }
  }

  /** The before loop. */
  method RunBefore(world: World, req: HookContext, before: seq<Hook>)
    returns (o: Option<Outcome>, trace: seq<Event>, ctx: HookContext)
    ensures var c := CarryOut(world, req, Start(req), Visits(before, Before, world.matches));
            o == c.ended && trace == c.trace && (o.None? ==> ctx == c.ctx && c.result == NoResult)
  {
    trace, ctx := [], req;
    ghost var c := Start(req);
    for i := 0 to |before|
      invariant c == CarryOut(world, req, Start(req), Visits(before[..i], Before, world.matches))
      invariant c == Chain(trace, ctx, NoResult, None)
    {
      var h := before[i];
      NextVisit(world, req, before, i, Before);
      if !world.matches(h) {
        continue;
      }
      ghost var c' := Carry(world, req, c, Visit(h, Before));
      ctx := ctx.(phase := "before");
      var e := Invoke(world, trace, h, Before, ctx);
      trace := trace + [e];
      if !e.Answered? {
        EndedEarly(world, req, before, i, Before);
        return Some(Error), trace, ctx;
      }
      if e.response.action.Abort? {
        EndedEarly(world, req, before, i, Before);
        return Some(Result(AbortResult(e.response))), trace, ctx;
      }
      if e.response.action.Modify? {
        ctx := ApplyContext(ctx, e.response.modified);
      }
      c := c';
    }
    assert before[..|before|] == before;
    return None, trace, ctx;
  }

  /** What ends a chain inside a list of visits is its end for the whole list. */
  lemma EndedEarly(world: World, req: HookContext, hooks: seq<Hook>, i: nat, phase: Phase)
    requires i < |hooks|
    ensures var c := CarryOut(world, req, Start(req), Visits(hooks[..i + 1], phase, world.matches));
            c.ended.Some? ==> CarryOut(world, req, Start(req), Visits(hooks, phase, world.matches)) == c
  {
    assert hooks == hooks[..i + 1] + hooks[i + 1..];
    VisitsAppend(hooks[..i + 1], hooks[i + 1..], phase, world.matches);
    CarryOutAppend(world, req, Start(req), Visits(hooks[..i + 1], phase, world.matches),
                   Visits(hooks[i + 1..], phase, world.matches));
  }

  /** The onion: each layer visits its hook, recurses, and visits it again with the inner result. */
  method AroundInner(world: World, req: HookContext, around: seq<Hook>, layer: nat, before: seq<Event>,
                     hookCtx: HookContext)
    returns (o: Outcome, trace: seq<Event>)
    requires layer <= |around|
    ensures Matches(CarryOut(world, req, Chain(before, hookCtx, NoResult, None), Onion(around[layer..], world.matches)),
                    trace, o)
    decreases |around| - layer
  {
    ghost var c0 := Chain(before, hookCtx, NoResult, None);
    if layer == |around| {
      assert Onion(around[layer..], world.matches) == [RunInner];
      CarryOutOne(world, req, c0, RunInner);
      var reply := world.inner(before, hookCtx);
      trace := before + [Ran(hookCtx, reply)];
      o := if reply.InnerFailed? then Error else Result(reply.result);
      return;
    }
    var h := around[layer];
    OnionPeels(around[layer..], world.matches);
    assert around[layer..][1..] == around[layer + 1..];
    if !world.matches(h) {
      o, trace := AroundInner(world, req, around, layer + 1, before, hookCtx);
      return;
    }
    ghost var into, out := [Visit(h, AroundBefore)], [Visit(h, AroundAfter)];
    ghost var core := Onion(around[layer + 1..], world.matches);
    CarryOutAppend(world, req, c0, into + core, out);
    CarryOutAppend(world, req, c0, into, core);
    CarryOutOne(world, req, c0, into[0]);
    var ctx := hookCtx.(phase := "around_before");
    var e := Invoke(world, before, h, AroundBefore, ctx);
    trace := before + [e];
    if !e.Answered? {
      return Error, trace;
    }
    if e.response.action.Abort? {
      return Result(AbortResult(e.response)), trace;
    }
    if e.response.action.Modify? {
      ctx := ApplyContext(ctx, e.response.modified);
    }
    o, trace := AroundInner(world, req, around, layer + 1, trace, ctx);
    if o.Error? || o.result.action.Abort? {
      return;
    }
    ghost var c2 := CarryOut(world, req, c0, into + core);
    CarryOutOne(world, req, c2, out[0]);
    e := Invoke(world, trace, h, AroundAfter, ResultContext(o.result, req, "around_after"));
    trace := trace + [e];
    if !e.Answered? {
      return Error, trace;
    }
    if e.response.action.Abort? {
      return Result(AbortResult(e.response)), trace;
    }
    if e.response.action.Modify? {
      o := Result(ApplyResult(o.result, e.response.modified));
    }
  }

  /** The visits of the after loop, from the end of its list down to index `i`. */
  ghost function AfterVisits(after: seq<Hook>, i: nat, matches: Hook -> bool): seq<Item>
    requires i <= |after|
  {
    Visits(Reverse(after[i..]), After, matches)
  }

  lemma OneMoreAfter(after: seq<Hook>, i: nat, matches: Hook -> bool)
    requires i < |after|
    ensures AfterVisits(after, i, matches) ==
            AfterVisits(after, i + 1, matches) + if matches(after[i]) then [Visit(after[i], After)] else []
  {
    assert after[i..] == [after[i]] + after[i + 1..];
    assert Reverse(after[i..]) == Reverse(after[i + 1..]) + [after[i]];
    VisitsAppend(Reverse(after[i + 1..]), [after[i]], After, matches);
    VisitsOne(after[i], After, matches);
  }

  lemma {:induction false} AfterEndedEarly(world: World, req: HookContext, c0: Chain, after: seq<Hook>, i: nat)
    requires i <= |after| && CarryOut(world, req, c0, AfterVisits(after, i, world.matches)).ended.Some?
    ensures CarryOut(world, req, c0, AfterVisits(after, 0, world.matches)) ==
            CarryOut(world, req, c0, AfterVisits(after, i, world.matches))
  {
    if i > 0 {
      OneMoreAfter(after, i - 1, world.matches);
      var more := if world.matches(after[i - 1]) then [Visit(after[i - 1], After)] else [];
      CarryOutAppend(world, req, c0, AfterVisits(after, i, world.matches), more);
      AfterEndedEarly(world, req, c0, after, i - 1);
    }
  }

  /** The after loop, from the end of the sorted list to its start. */
  method RunAfter(world: World, req: HookContext, after: seq<Hook>, before: seq<Event>, result0: HookResult,
                  ghost ctx: HookContext)
    returns (o: Outcome, trace: seq<Event>)
    requires !result0.action.Abort?
    ensures Matches(CarryOut(world, req, Chain(before, ctx, result0, None),
                             Visits(Reverse(after), After, world.matches)), trace, o)
  {
    ghost var c0 := Chain(before, ctx, result0, None);
    var result := result0;
    trace := before;
    assert after[0..] == after;
    var i := |after|;
    while i > 0
      invariant 0 <= i <= |after| && !result.action.Abort?
      invariant CarryOut(world, req, c0, AfterVisits(after, i, world.matches)) == Chain(trace, ctx, result, None)
    {
      i := i - 1;
      var h := after[i];
      ghost var c := Chain(trace, ctx, result, None);
      OneMoreAfter(after, i, world.matches);
      ghost var more := if world.matches(h) then [Visit(h, After)] else [];
      CarryOutAppend(world, req, c0, AfterVisits(after, i + 1, world.matches), more);
      if !world.matches(h) {
        continue;
      }
      CarryOutOne(world, req, c, Visit(h, After));
      var e := Invoke(world, trace, h, After, ResultContext(result, req, "after"));
      trace := trace + [e];
      if !e.Answered? {
        AfterEndedEarly(world, req, c0, after, i);
        return Error, trace;
      }
      if e.response.action.Abort? {
        AfterEndedEarly(world, req, c0, after, i);
        return Result(AbortResult(e.response)), trace;
      }
      if e.response.action.Modify? {
        result := ApplyResult(result, e.response.modified);
      }
    }
    o := Result(result);
  }

  /** The three parts together carry out the plan. */
  method RunChain(world: World, req: HookContext, hooks: seq<Hook>) returns (o: Outcome, trace: seq<Event>)
    ensures Matches(CarryOut(world, req, Start(req), Plan(hooks, world.matches)), trace, o)
  {
    var before, around, after := Layer(hooks, "before"), Layer(hooks, "around"), Layer(hooks, "after");
    ghost var p1, p2 := Visits(before, Before, world.matches), Onion(around, world.matches);
    ghost var p3 := Visits(Reverse(after), After, world.matches);
    CarryOutAppend(world, req, Start(req), p1 + p2, p3);
    CarryOutAppend(world, req, Start(req), p1, p2);
    var ended, trace1, ctx := RunBefore(world, req, before);
    trace := trace1;
    if ended.Some? {
      BeforeEndIsFinal(world, req, before);
      return ended.value, trace;
    }
    assert around[0..] == around;
    o, trace := AroundInner(world, req, around, 0, trace, ctx);
    if o.Error? || o.result.action.Abort? {
      return;
    }
    ghost var c2 := CarryOut(world, req, Start(req), p1 + p2);
    o, trace := RunAfter(world, req, after, trace, o.result, c2.ctx);
  }

  /** Only an error or an abort ends a chain among its visits. */
  lemma {:induction false} EndIsFinal(world: World, req: HookContext, c: Chain, plan: seq<Item>)
    requires c.ended.None?
    ensures var c' := CarryOut(world, req, c, plan); c'.ended.Some? ==> Final(c'.ended.value)
    decreases |plan|
  {
    if plan != [] {
      var c' := Carry(world, req, c, plan[0]);
      if c'.ended.None? { EndIsFinal(world, req, c', plan[1..]); }
    }
  }

  lemma BeforeEndIsFinal(world: World, req: HookContext, before: seq<Hook>)
    ensures var c := CarryOut(world, req, Start(req), Visits(before, Before, world.matches));
            c.ended.Some? ==> Final(c.ended.value)
  {
    EndIsFinal(world, req, Start(req), Visits(before, Before, world.matches));
  }

  // ---- the breaker, and whole requests ----

  datatype ListReply = Listed(hooks: seq<Hook>) | ListTimedOut | ListFailed

  /** The timeouts at the end of a history of list calls: those since the last other reply. */
  function TrailingTimeouts(history: seq<bool>): nat {
    if history == [] || !history[|history| - 1] then 0 else TrailingTimeouts(history[..|history| - 1]) + 1
  }

  class HookOrchestrator {
    const hasClient: bool
    const threshold: int
    const pause: int
    const critical: set<string>
    var failures: int
    var openUntil: Option<int>
    ghost var history: seq<bool>   // one entry per list call made: did it time out?

    /** The breaker has been opened only by at least `threshold` timeouts in a row. */
    ghost predicate Valid()
      reads this
    {
      && threshold >= 1
      && failures == TrailingTimeouts(history)
      && (openUntil.Some? ==> failures >= threshold)
    }

    constructor (hasClient: bool, threshold: int, pause: int, critical: set<string>)
      ensures Valid() && failures == 0 && openUntil.None? && history == []
      ensures this.hasClient == hasClient && this.critical == critical
      ensures this.threshold == if threshold > 0 then threshold else 5
    {
      this.hasClient, this.critical := hasClient, critical;
      this.threshold := if threshold > 0 then threshold else 5;
      this.pause := if pause > 0 then pause else 30_000_000_000;
      failures, openUntil, history := 0, None, [];
    }

    /** Asks the loader for hooks unless the breaker is open at `now`; `later` is the clock after the call. */
    method ListHooks(now: int, reply: ListReply, later: int) returns (r: ListReply, ghost called: bool)
      requires Valid()
      modifies this
      ensures Valid()
      ensures called <==> !(old(openUntil).Some? && now < old(openUntil).value)
      ensures !called ==> r == ListFailed && history == old(history)
      ensures !called ==> failures == old(failures) && openUntil == old(openUntil)
      ensures called ==> r == reply && history == old(history) + [reply.ListTimedOut?]
      ensures called && !reply.ListTimedOut? ==> openUntil.None?
      ensures called && reply.ListTimedOut? ==>
                openUntil == if TrailingTimeouts(history) >= threshold then Some(later + pause) else old(openUntil)
    {
      if openUntil.Some? && now < openUntil.value {
        return ListFailed, false;
      }
      history := history + [reply.ListTimedOut?];
      assert history[..|history| - 1] == old(history);
      if reply.ListTimedOut? {
        failures := failures + 1;
        if failures >= threshold {
          openUntil := Some(later + pause);
        }
      } else if failures > 0 {
        failures := 0;
        openUntil := None;
      }
      return reply, true;
    }

    /** One request. With a loader and a critical operation, the operation runs only if the hooks were listed and, when
        all of them are for critical operations, only after each listed before and around hook that matches got a
        genuine reply that was no abort. */
    method Execute(operation: string, req: HookContext, listNow: int, reply: ListReply, listLater: int, world0: World)
      returns (o: Outcome, trace: seq<Event>, ghost listed: bool, ghost world: World)
      requires Valid()
      modifies this
      ensures Valid()
      ensures world == world0.(openUntil := openUntil, critical := critical)
      ensures listed ==> hasClient && reply.Listed? && !(old(openUntil).Some? && listNow < old(openUntil).value)
      ensures hasClient && !listed && operation in critical ==> o == Error && trace == []
      ensures !hasClient || (!listed && operation !in critical) ==> InnerOnly(world, req, o, trace)
      ensures listed ==> Matches(CarryOut(world, req, Start(req), Plan(reply.hooks, world.matches)), trace, o)
      ensures hasClient && operation in critical && HasRun(trace) ==>
                && listed
                && (AllFor(reply.hooks, critical) ==>
                      && Cleared(trace, WayIn(reply.hooks, world.matches))
                      && ClearedByAll(trace, reply.hooks, world.matches))
    {
      o, trace, listed, world := Dispatch(operation, req, listNow, reply, listLater, world0);
      if listed && AllFor(reply.hooks, critical) {
        FailsClosed(world, reply.hooks, req, trace);
      }
    }

    /** Lists the hooks and runs the chain; the world's breaker state is the one left by listing them. */
    method Dispatch(operation: string, req: HookContext, listNow: int, reply: ListReply, listLater: int, world0: World)
      returns (o: Outcome, trace: seq<Event>, ghost listed: bool, ghost world: World)
      requires Valid()
      modifies this
      ensures Valid()
      ensures world == world0.(openUntil := openUntil, critical := critical)
      ensures listed ==> hasClient && reply.Listed? && !(old(openUntil).Some? && listNow < old(openUntil).value)
      ensures hasClient && !listed && operation in critical ==> o == Error && trace == []
      ensures !hasClient || (!listed && operation !in critical) ==> InnerOnly(world, req, o, trace)
      ensures listed ==> Matches(CarryOut(world, req, Start(req), Plan(reply.hooks, world.matches)), trace, o)
    {
      listed := false;
      world := world0.(openUntil := openUntil, critical := critical);
      if !hasClient {
        o, trace := RunInnerOnly(world0, req);
        return;
      }
      var r, _ := ListHooks(listNow, reply, listLater);
      var w := world0.(openUntil := openUntil, critical := critical);
      world := w;
      if !r.Listed? {
        if operation in critical {
          return Error, [], false, world;
        }
        o, trace := RunInnerOnly(w, req);
        return;
      }
      listed := true;
      if |r.hooks| == 0 {
        PlanOfNothing(w.matches);
        CarryOutOne(w, req, Start(req), RunInner);
        o, trace := RunInnerOnly(w, req);
        return;
      }
      o, trace := RunChain(w, req, r.hooks);
    }
  }

  /** The operation without any hook. */
  ghost predicate InnerOnly(world: World, req: HookContext, o: Outcome, trace: seq<Event>) {
    var reply := world.inner([], req);
    && trace == [Ran(req, reply)]
    && o == if reply.InnerFailed? then Error else Result(reply.result)
  }

  method RunInnerOnly(world: World, req: HookContext) returns (o: Outcome, trace: seq<Event>)
    ensures InnerOnly(world, req, o, trace)
  {
    var reply := world.inner([], req);
    trace := [Ran(req, reply)];
    o := if reply.InnerFailed? then Error else Result(reply.result);
  }

  lemma PlanOfNothing(matches: Hook -> bool)
    ensures Plan([], matches) == [RunInner]
  {
    assert OfType([], "before") == OfType([], "around") == OfType([], "after") == [];
  }
}
