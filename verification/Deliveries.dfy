/** What subscribers are promised over whole runs of the event bus: which rules an event is for, that a completed drain
    sent it to all of them, and what became of a delivery that was given up. */
module Deliveries {
  import opened Options
  import opened DeadLetters
  import opened EventBus
  import opened EventBusProofs
  import opened Glob
  import opened Matching
  import opened Sequences
  import opened Strings

  // ---- which rules an event is for ----

  /** An event type pattern is a glob: a type, or a family of types. */
  lemma TypeMatchIsGlob(family: string, eventType: string)
    requires Literal(family)
    ensures TypeMatches(family, eventType) <==> Glob.Matches(family, eventType)
    ensures TypeMatches(family + ":*", eventType) <==> Glob.Matches(family + ":*", eventType)
  {
    LiteralIsEquality(family, eventType);
    LiteralServiceStar(family, eventType);
    EndsInService(family);
    EndsInService(family + ":*");
    assert (family + ":*")[..|family + ":*"| - 1] == family + ":";
    if eventType == family + ":*" { assert family + ":" <= eventType; }
  }

  /** A rule without prefix and suffix matches by type alone; each of them only restricts. */
  lemma PrefixAndSuffixRestrict(r: Rule, e: Event)
    ensures RuleMatches(r, e)
       <==> RuleMatches(r.(prefix := "", suffix := ""), e) && r.prefix <= e.key && HasSuffix(e.key, r.suffix)
    ensures RuleMatches(r.(prefix := "", suffix := ""), e)
       <==> exists p | p in r.events :: TypeMatches(p, e.eventType)
  {
    if exists p | p in r.events :: TypeMatches(p, e.eventType) {
      var p :| p in r.events && TypeMatches(p, e.eventType);
      var i :| 0 <= i < |r.events| && r.events[i] == p;
      assert TypeMatches(r.events[i], e.eventType);
    }
  }

  lemma {:induction false} MatchingAppend(a: seq<Rule>, b: seq<Rule>, e: Event)
    ensures EventBus.Matching(a + b, e) == EventBus.Matching(a, e) + EventBus.Matching(b, e)
  {
    if a == [] {
      assert a + b == b;
    } else {
      MatchingAppend(a[1..], b, e);
      assert (a + b)[0] == a[0] && (a + b)[1..] == a[1..] + b;
      Regroup(if RuleMatches(a[0], e) then [a[0]] else [], EventBus.Matching(a[1..], e), EventBus.Matching(b, e));
    }
  }

  /** Every matching rule is kept, and no other. */
  lemma {:induction false} MatchingKeeps(rules: seq<Rule>, e: Event, r: Rule)
    ensures r in EventBus.Matching(rules, e) <==> r in rules && RuleMatches(r, e)
  {
    if rules != [] {
      MatchingKeeps(rules[1..], e, r);
      assert rules == [rules[0]] + rules[1..];
    }
  }

  /** A rule that an event is for: subscribed under its bucket or under "*", and matching. */
  ghost predicate Wanted(subs: Subscriptions, e: Event, r: Rule) {
    && RuleMatches(r, e)
    && ((e.bucket in subs && r in subs[e.bucket]) || ("*" in subs && r in subs["*"]))
  }

  /** Whichever order the subscriptions are visited in, the rules found are exactly those the event is for. */
  lemma RuleListIsWanted(subs: Subscriptions, e: Event, rules: seq<Rule>, r: Rule)
    requires IsRuleList(subs, e, rules)
    ensures r in rules <==> Wanted(subs, e, r)
  {
    if e.bucket in subs { MatchingKeeps(subs[e.bucket], e, r); }
    if "*" in subs { MatchingKeeps(subs["*"], e, r); }
  }

  /** Both orders happen: those of the bucket first, or those of "*". */
  lemma EitherOrderHappens(subs: Subscriptions, e: Event)
    requires e.bucket in subs && "*" in subs && e.bucket != "*"
    ensures IsRuleList(subs, e, EventBus.Matching(subs[e.bucket] + subs["*"], e))
    ensures IsRuleList(subs, e, EventBus.Matching(subs["*"] + subs[e.bucket], e))
  {
    MatchingAppend(subs[e.bucket], subs["*"], e);
    MatchingAppend(subs["*"], subs[e.bucket], e);
  }

  /** Without numbers of its own a bus has 16 workers and sends a delivery at most three times. */
  lemma Defaults(numWorkers: int, maxRetries: int)
    ensures numWorkers <= 0 ==> EventBus.Init(numWorkers, maxRetries) == EventBus.Init(16, maxRetries)
    ensures maxRetries <= 0 ==> EventBus.Init(numWorkers, maxRetries) == EventBus.Init(numWorkers, 3)
    ensures numWorkers > 0 ==> |EventBus.Init(numWorkers, maxRetries).flow.workers| == numWorkers
  {
  }

  /** Unsubscribing takes out exactly the rules with the id. */
  lemma {:induction false} WithoutRuleKeeps(rules: seq<Rule>, id: string, r: Rule)
    ensures r in WithoutRule(rules, id) <==> r in rules && r.id != id
  {
    if rules != [] {
      WithoutRuleKeeps(rules[1..], id, r);
      assert rules == [rules[0]] + rules[1..];
    }
  }

  /** Workers are chosen by the FNV-1a hash with 32 bits: offset basis, a published value, and the workers of both. */
  lemma HashIsFnv1a()
    ensures Fnv1a("", 2166136261) == 0x811c_9dc5 && Fnv1a("a", 2166136261) == 0xe40c_292c
    ensures WorkerOf("", 16) == 5 && WorkerOf("a", 16) == 12
  {
    assert "a"[1..] == "";
    assert ('a' as int % 256) as bv32 == 97;
    assert ((2166136261 as bv32) ^ 97) * 16777619 == 0xe40c_292c;
  }

  // ---- routing, in runs ----

  /** Step `k` of a run routed a ticket to some rules. */
  ghost predicate RoutedAt(b: Bus, s: Step, t: nat, rules: seq<Rule>) {
    && s == Route(rules) && b.flow.hand == Received(t) && t < |b.flow.accepted|
    && IsRuleList(b.subs, b.flow.accepted[t], rules)
  }

  /** The rules of a ticket, once they are decided. */
  ghost function DecidedRules(f: Flow, t: nat): Option<seq<Rule>> {
    if t in f.unmatched then Some([]) else if t in f.plan then Some(f.plan[t]) else None
  }

  lemma RoutingStep(b: Bus, s: Step, t: nat, rules: seq<Rule>)
    requires BusInv(b) && EventBus.Enabled(b, s) && DecidedRules(EventBus.Do(b, s).flow, t) == Some(rules)
    ensures DecidedRules(b.flow, t) == Some(rules) || RoutedAt(b, s, t, rules)
  {
  }

  lemma AcceptedGrows(b: Bus, s: Step)
    requires EventBus.Enabled(b, s)
    ensures b.flow.accepted <= EventBus.Do(b, s).flow.accepted
  {
  }

  lemma PrefixStep(a: seq<Event>, b: seq<Event>, c: seq<Event>)
    requires a <= b && b <= c
    ensures a <= c
  {
  }

  /** Whatever rules a ticket has in a state of a run, an earlier step gave it, and those were the rules its event was
      for at that time. */
  lemma {:induction false} RulesHaveOrigin(numWorkers: int, maxRetries: int, states: seq<Bus>, steps: seq<Step>, i: nat,
                                           t: nat, rules: seq<Rule>)
    returns (k: nat)
    requires IsRun(numWorkers, maxRetries, states, steps) && i < |states|
    requires DecidedRules(states[i].flow, t) == Some(rules)
    ensures k < i && RoutedAt(states[k], steps[k], t, rules) && states[k].flow.accepted <= states[i].flow.accepted
  {
    if i == 0 {
      assert false;
    } else {
      RunKeepsInv(numWorkers, maxRetries, states, steps, i - 1);
      RoutingStep(states[i - 1], steps[i - 1], t, rules);
      AcceptedGrows(states[i - 1], steps[i - 1]);
      if DecidedRules(states[i - 1].flow, t) == Some(rules) {
        k := RulesHaveOrigin(numWorkers, maxRetries, states, steps, i - 1, t, rules);
        PrefixStep(states[k].flow.accepted, states[i - 1].flow.accepted, states[i].flow.accepted);
      } else {
        k := i - 1;
      }
    }
  }

  /** A rule of a ticket was sent: a webhook under one of its places, and other destinations need no sending. */
  ghost predicate SentTo(b: Bus, t: nat, r: Rule) {
    r.destination == Webhook ==>
      t in b.flow.plan && exists x | 0 <= x < |b.flow.plan[t]| :: b.flow.plan[t][x] == r && Job(t, x) in b.dlq.sent
  }

  lemma DealtWithIsSent(b: Bus, t: nat, rules: seq<Rule>, r: Rule)
    requires DealtWith(b, t) && DecidedRules(b.flow, t) == Some(rules) && r in rules
    ensures SentTo(b, t, r)
  {
    if r.destination == Webhook {
      var x :| 0 <= x < |b.flow.plan[t]| && b.flow.plan[t][x] == r;
      assert b.flow.plan[t][x].destination == Webhook;
    }
  }

  /** When the drain counter of a run is zero, every event accepted so far was routed, and was sent to every webhook
      that was subscribed to it when it was routed: none of the rules is missing. */
  lemma DrainedMeansSentToAll(numWorkers: int, maxRetries: int, states: seq<Bus>, steps: seq<Step>, i: nat, t: nat)
    returns (k: nat)
    requires IsRun(numWorkers, maxRetries, states, steps) && i < |states|
    requires states[i].flow.drain == 0 && t < |states[i].flow.accepted|
    ensures k < i && states[k].flow.accepted <= states[i].flow.accepted && t < |states[k].flow.accepted|
    ensures steps[k].Route? && RoutedAt(states[k], steps[k], t, steps[k].rules)
    ensures forall r | Wanted(states[k].subs, states[i].flow.accepted[t], r) :: SentTo(states[i], t, r)
  {
    var b := states[i];
    RunKeepsInv(numWorkers, maxRetries, states, steps, i);
    DealtWithWhenIdle(b, t);
    var rules := RulesWhenDealtWith(b, t);
    k := RulesHaveOrigin(numWorkers, maxRetries, states, steps, i, t, rules);
    forall r | Wanted(states[k].subs, b.flow.accepted[t], r) ensures SentTo(b, t, r) {
      RuleListIsWanted(states[k].subs, states[k].flow.accepted[t], rules, r);
      DealtWithIsSent(b, t, rules, r);
    }
  }

  lemma RulesWhenDealtWith(b: Bus, t: nat) returns (rules: seq<Rule>)
    requires DealtWith(b, t)
    ensures DecidedRules(b.flow, t) == Some(rules)
  {
    rules := if t in b.flow.unmatched then [] else b.flow.plan[t];
  }

  // ---- deliveries given up, in runs ----

  /** What a step of the bus does to the dead-letter queue. */
  function QueueStepOf(b: Bus, s: Step): Option<QueueStep>
    requires EventBus.Enabled(b, s)
  {
    match s
    case Try(w, success) =>
      var d := b.flow.workers[w].busy.value;
      var j := Job(d.delivery.ticket, d.next);
      if d.delivery.rules[d.next].destination != Webhook then None
      else Some(if success then FirstSucceeded(j) else FirstFailed(j))
    case Retry(d) => Some(d)
    case SignalRetries => Some(SignalStop)
    case _ => None
  }

  /** A queue after a step, or after none. */
  ghost predicate Follows(q: Queue, step: Option<QueueStep>, q': Queue) {
    match step
    case None => q' == q
    case Some(d) => DeadLetters.Enabled(q, d) && IsFirst(q, d) && q' == DeadLetters.Do(q, d)
  }

  lemma TryFollows(b: Bus, s: Step)
    requires BusInv(b) && EventBus.Enabled(b, s) && s.Try?
    ensures Follows(b.dlq, QueueStepOf(b, s), EventBus.Do(b, s).dlq)
  {
    NextRuleIsNew(b.flow, s.w, b.dlq.sent.Keys);
  }

  lemma QueueFollows(b: Bus, s: Step)
    requires BusInv(b) && EventBus.Enabled(b, s)
    ensures Follows(b.dlq, QueueStepOf(b, s), EventBus.Do(b, s).dlq)
  {
    if s.Try? {
      TryFollows(b, s);
    }
  }

  /** The step fails a delivery that was sent as often as allowed, or that finds the retry channel full. */
  ghost predicate GivesUp(b: Bus, s: Step, j: Job) {
    && EventBus.Enabled(b, s) && QueueStepOf(b, s).Some? && FailedBy(b.dlq, QueueStepOf(b, s).value) == Some(j)
    && (Sends(b.dlq, j) + 1 >= b.dlq.maxRetries || |b.dlq.retryCh| >= RetryCapacity)
  }

  ghost predicate Dead(b: Bus, j: Job) {
    Has(b.dlq.dead, j)
  }

  lemma DeadStep(b: Bus, s: Step, j: Job)
    requires BusInv(b) && EventBus.Enabled(b, s)
    ensures Dead(EventBus.Do(b, s), j) <==> Dead(b, j) || GivesUp(b, s, j)
  {
    QueueFollows(b, s);
    match QueueStepOf(b, s)
    case None =>
    case Some(d) => DiesExactlyWhenSpent(b.dlq, d, j);
  }

  /** Each step accounts for who is dead after it. */
  ghost predicate Accounted(states: seq<Bus>, steps: seq<Step>, j: Job) {
    && |states| == |steps| + 1 && !Dead(states[0], j)
    && forall k | 0 <= k < |steps| :: Dead(states[k + 1], j) <==> Dead(states[k], j) || GivesUp(states[k], steps[k], j)
  }

  lemma RunIsAccounted(numWorkers: int, maxRetries: int, states: seq<Bus>, steps: seq<Step>, j: Job)
    requires IsRun(numWorkers, maxRetries, states, steps)
    ensures Accounted(states, steps, j)
  {
    forall k | 0 <= k < |steps|
      ensures Dead(states[k + 1], j) <==> Dead(states[k], j) || GivesUp(states[k], steps[k], j)
    {
      RunKeepsInv(numWorkers, maxRetries, states, steps, k);
      DeadStep(states[k], steps[k], j);
    }
  }

  lemma {:induction false} DeadByAccount(states: seq<Bus>, steps: seq<Step>, i: nat, j: Job)
    requires Accounted(states, steps, j) && i < |states|
    ensures Dead(states[i], j) <==> exists k | 0 <= k < i :: GivesUp(states[k], steps[k], j)
  {
    if i > 0 {
      DeadByAccount(states, steps, i - 1, j);
      assert Dead(states[i - 1 + 1], j) <==> Dead(states[i - 1], j) || GivesUp(states[i - 1], steps[i - 1], j);
    }
  }

  /** In every run, a delivery is dead exactly when it failed after it was sent as often as allowed, or when the retry
      channel was full. */
  lemma DeadExactlyWhenGivenUp(numWorkers: int, maxRetries: int, states: seq<Bus>, steps: seq<Step>, i: nat, j: Job)
    requires IsRun(numWorkers, maxRetries, states, steps) && i < |states|
    ensures Has(states[i].dlq.dead, j) <==> exists k | 0 <= k < i :: GivesUp(states[k], steps[k], j)
  {
    RunIsAccounted(numWorkers, maxRetries, states, steps, j);
    DeadByAccount(states, steps, i, j);
  }
}
