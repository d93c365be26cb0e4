/** The event bus as a transition system: publishers, one dispatcher, key-sharded workers, staged shutdown. */
module EventBus {
  import opened Options
  import opened DeadLetters
  import opened Strings

  datatype Event = Event(eventType: string, bucket: string, key: string)

  datatype Rule = Rule(id: string, events: seq<string>, prefix: string, suffix: string, destination: string)

  // ---- rule matching ----

  predicate TypeMatches(pattern: string, eventType: string) {
    || pattern == eventType
    || (HasSuffix(pattern, ":*") && pattern[..|pattern| - 1] <= eventType)
  }

  predicate RuleMatches(r: Rule, e: Event) {
    && (exists i | 0 <= i < |r.events| :: TypeMatches(r.events[i], e.eventType))
    && (r.prefix != "" ==> r.prefix <= e.key)
    && (r.suffix != "" ==> HasSuffix(e.key, r.suffix))
  }

  function Matching(rules: seq<Rule>, e: Event): seq<Rule> {
    if rules == [] then []
    else (if RuleMatches(rules[0], e) then [rules[0]] else []) + Matching(rules[1..], e)
  }

  type Subscriptions = map<string, seq<Rule>>

  function Under(subs: Subscriptions, bucket: string, e: Event): seq<Rule> {
    if bucket in subs then Matching(subs[bucket], e) else []
  }

  /** The possible rule lists: the event's own bucket and "*", visited in either order. */
  predicate IsRuleList(subs: Subscriptions, e: Event, rules: seq<Rule>) {
    if e.bucket == "*" then rules == Under(subs, "*", e)
    else
      || rules == Under(subs, "*", e) + Under(subs, e.bucket, e)
      || rules == Under(subs, e.bucket, e) + Under(subs, "*", e)
  }

  // ---- sharding ----

  function Fnv1a(key: string, h: bv32): bv32 {
    if key == "" then h else Fnv1a(key[1..], (h ^ (key[0] as int % 256) as bv32) * 16777619)
  }

  function WorkerOf(key: string, workers: nat): (w: nat)
    requires workers > 0
    ensures w < workers
  {
    (Fnv1a(key, 2166136261) as int) % workers
  }

  // ---- state ----

  /** An accepted event is known by its ticket: its place in the order of entry into the event channel. */
  datatype Delivery = Delivery(ticket: nat, rules: seq<Rule>)

  /** What the dispatcher has in hand: nothing, a received event, or a delivery waiting for room. */
  datatype Hand = Empty | Received(ticket: nat) | Sending(delivery: Delivery)

  /** A delivery in progress: the rules before `next` have been tried. */
  datatype InFlight = InFlight(delivery: Delivery, next: nat)

  /** `started` is the history of tickets whose delivery this worker began, in order. */
  datatype Worker = Worker(queue: seq<Delivery>, busy: Option<InFlight>, started: seq<nat>)

  /** The events on their way: being published, in the event channel, in the dispatcher's hand, in a worker's
      queue, being delivered. `drain` is the counter that shutdown waits on. The history says which events
      were accepted, which found no rule, and which rules the others are for. */
  datatype Flow = Flow(
    publishing: nat,
    eventCh: seq<nat>,
    hand: Hand,
    workers: seq<Worker>,
    drain: int,
    accepted: seq<Event>,
    unmatched: set<nat>,
    plan: map<nat, seq<Rule>>
  )

  datatype Dispatcher = Looping | DrainingChannel | DispatcherExited

  datatype Stage = Running | AwaitDispatcher | AwaitDrain | StopWorker(i: nat) | StopRetries

  /** How far shutdown is. */
  datatype Control = Control(dispatcher: Dispatcher, stage: Stage, signalled: set<nat>, exited: set<nat>)

  datatype Bus = Bus(subs: Subscriptions, flow: Flow, control: Control, dlq: Queue)

  const EventCapacity := 4096
  const WorkerCapacity := 256
  const Webhook := "webhook"

  function Init(numWorkers: int, maxRetries: int): Bus {
    var n := if numWorkers <= 0 then 16 else numWorkers;
    Bus(map[],
        Flow(0, [], Empty, seq(n, _ => Worker([], None, [])), 0, [], {}, map[]),
        Control(Looping, Running, {}, {}),
        DeadLetters.Init(maxRetries))
  }

  // ---- steps ----

  datatype Step =
    | Subscribe(bucket: string, rule: Rule)
    | Unsubscribe(bucket: string, id: string)
    | PublishBegin
    | PublishSend(event: Event)
    | PublishDrop
    | Receive
    | Route(rules: seq<Rule>)
    | HandOver
    | Begin(w: nat)
    | Try(w: nat, success: bool)
    | Finish(w: nat)
    | Retry(dlqStep: QueueStep)
    | Stop
    | DispatcherSeesStop
    | DispatcherExit
    | DispatcherGone
    | Drained(timeout: bool)
    | SignalWorker
    | WorkerExit(w: nat)
    | WorkerGone
    | SignalRetries

  predicate IsRetryLoopStep(s: QueueStep) {
    s.Take? || s.RetrySucceeded? || s.RetryFailed? || s.Abandon? || s.Exit?
  }

  predicate Enabled(b: Bus, s: Step) {
    var f, c := b.flow, b.control;
    match s
    case Subscribe(_, _) => true
    case Unsubscribe(_, _) => true
    case PublishBegin => true
    case PublishSend(_) => f.publishing > 0 && |f.eventCh| < EventCapacity
    case PublishDrop => f.publishing > 0
    case Receive => f.hand.Empty? && f.eventCh != [] && !c.dispatcher.DispatcherExited?
    case Route(rules) =>
      f.hand.Received? && f.hand.ticket < |f.accepted| && IsRuleList(b.subs, f.accepted[f.hand.ticket], rules)
    case HandOver => CanSend(f) && |f.workers[Target(f)].queue| < WorkerCapacity
    case Begin(w) => w < |f.workers| && w !in c.exited && f.workers[w].busy.None? && f.workers[w].queue != []
    case Try(w, _) => w < |f.workers| && f.workers[w].busy.Some? && !IsDone(f.workers[w].busy.value)
    case Finish(w) => w < |f.workers| && f.workers[w].busy.Some? && IsDone(f.workers[w].busy.value)
    case Retry(d) => IsRetryLoopStep(d) && DeadLetters.Enabled(b.dlq, d)
    case Stop => c.stage.Running?
    case DispatcherSeesStop => !c.stage.Running? && c.dispatcher.Looping? && f.hand.Empty?
    case DispatcherExit => c.dispatcher.DrainingChannel? && f.hand.Empty? && f.eventCh == []
    case DispatcherGone => c.stage.AwaitDispatcher? && c.dispatcher.DispatcherExited?
    case Drained(timeout) => c.stage.AwaitDrain? && (timeout || f.drain == 0)
    case SignalWorker => c.stage.StopWorker? && c.stage.i < |f.workers|
    case WorkerExit(w) => w < |f.workers| && w in c.signalled && f.workers[w].busy.None?
    case WorkerGone => c.stage.StopWorker? && c.stage.i < |f.workers| && c.stage.i in c.exited
    case SignalRetries => c.stage.StopWorker? && c.stage.i >= |f.workers|
  }

  predicate CanSend(f: Flow) {
    f.hand.Sending? && f.hand.delivery.ticket < |f.accepted| && |f.workers| > 0
  }

  /** The worker a delivery in the dispatcher's hand goes to. */
  function Target(f: Flow): (w: nat)
    requires CanSend(f)
    ensures w < |f.workers|
  {
    WorkerOf(f.accepted[f.hand.delivery.ticket].key, |f.workers|)
  }

  predicate IsDone(d: InFlight) {
    d.next >= |d.delivery.rules|
  }

  // What each step does to the events on their way.

  function Accept(f: Flow, e: Event): Flow
    requires f.publishing > 0
  {
    f.(publishing := f.publishing - 1, eventCh := f.eventCh + [|f.accepted|], accepted := f.accepted + [e])
  }

  function TakeIn(f: Flow): Flow
    requires f.eventCh != []
  {
    f.(hand := Received(f.eventCh[0]), eventCh := f.eventCh[1..])
  }

  function RouteTo(f: Flow, rules: seq<Rule>): Flow
    requires f.hand.Received?
  {
    if rules == [] then f.(hand := Empty, drain := f.drain - 1, unmatched := f.unmatched + {f.hand.ticket})
    else f.(hand := Sending(Delivery(f.hand.ticket, rules)), plan := f.plan[f.hand.ticket := rules])
  }

  function PutOnQueue(f: Flow): Flow
    requires CanSend(f)
  {
    var w := Target(f);
    f.(hand := Empty, workers := f.workers[w := f.workers[w].(queue := f.workers[w].queue + [f.hand.delivery])])
  }

  function BeginDelivery(f: Flow, w: nat): Flow
    requires w < |f.workers| && f.workers[w].queue != []
  {
    var wk := f.workers[w];
    var d := wk.queue[0];
    f.(workers := f.workers[w := Worker(wk.queue[1..], Some(InFlight(d, 0)), wk.started + [d.ticket])])
  }

  function Advance(f: Flow, w: nat): Flow
    requires w < |f.workers| && f.workers[w].busy.Some?
  {
    var d := f.workers[w].busy.value;
    f.(workers := f.workers[w := f.workers[w].(busy := Some(d.(next := d.next + 1)))])
  }

  function FinishDelivery(f: Flow, w: nat): Flow
    requires w < |f.workers|
  {
    f.(workers := f.workers[w := f.workers[w].(busy := None)], drain := f.drain - 1)
  }

  /** The report to the dead-letter queue of one rule's first attempt: only webhooks are sent. */
  function Report(q: Queue, d: InFlight, success: bool): Queue
    requires !IsDone(d)
  {
    var j := Job(d.delivery.ticket, d.next);
    if d.delivery.rules[d.next].destination != Webhook then q
    else DeadLetters.Do(q, if success then FirstSucceeded(j) else FirstFailed(j))
  }

  function Do(b: Bus, s: Step): Bus
    requires Enabled(b, s)
  {
    var f, c := b.flow, b.control;
    match s
    case Subscribe(k, r) => b.(subs := b.subs[k := (if k in b.subs then b.subs[k] else []) + [r]])
    case Unsubscribe(k, id) =>
      if k in b.subs then b.(subs := b.subs[k := WithoutRule(b.subs[k], id)]) else b
    case PublishBegin => b.(flow := f.(publishing := f.publishing + 1, drain := f.drain + 1))
    case PublishSend(e) => b.(flow := Accept(f, e))
    case PublishDrop => b.(flow := f.(publishing := f.publishing - 1, drain := f.drain - 1))
    case Receive => b.(flow := TakeIn(f))
    case Route(rules) => b.(flow := RouteTo(f, rules))
    case HandOver => b.(flow := PutOnQueue(f))
    case Begin(w) => b.(flow := BeginDelivery(f, w))
    case Try(w, success) => b.(flow := Advance(f, w), dlq := Report(b.dlq, f.workers[w].busy.value, success))
    case Finish(w) => b.(flow := FinishDelivery(f, w))
    case Retry(d) => b.(dlq := DeadLetters.Do(b.dlq, d))
    case Stop => b.(control := c.(stage := AwaitDispatcher))
    case DispatcherSeesStop => b.(control := c.(dispatcher := DrainingChannel))
    case DispatcherExit => b.(control := c.(dispatcher := DispatcherExited))
    case DispatcherGone => b.(control := c.(stage := AwaitDrain))
    case Drained(_) => b.(control := c.(stage := StopWorker(0)))
    case SignalWorker => b.(control := c.(signalled := c.signalled + {c.stage.i}))
    case WorkerExit(w) => b.(control := c.(exited := c.exited + {w}))
    case WorkerGone => b.(control := c.(stage := StopWorker(c.stage.i + 1)))
    case SignalRetries => b.(control := c.(stage := StopRetries), dlq := DeadLetters.Do(b.dlq, SignalStop))
  }

  function WithoutRule(rules: seq<Rule>, id: string): seq<Rule> {
    if rules == [] then []
    else (if rules[0].id == id then [] else [rules[0]]) + WithoutRule(rules[1..], id)
  }
}
