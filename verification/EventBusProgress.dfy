/** Why draining ends: the bus is never stuck with work to do, and it cannot work forever. */
module EventBusProgress {
  import opened DeadLetters
  import opened EventBus
  import opened EventBusProofs
  import opened EventBusShutdown
  import opened Options

  /** The steps that bring events nearer to their webhooks. */
  predicate IsWork(s: Step) {
    s.PublishSend? || s.Receive? || s.Route? || s.HandOver? || s.Begin? || s.Try? || s.Finish?
  }

  // ---- work only goes on for so long ----

  /** What is left to do before every event is routed. */
  function ToRoute(f: Flow): nat {
    3 * f.publishing + 2 * |f.eventCh| + if f.hand.Received? then 1 else 0
  }

  function QueueWork(ds: seq<Delivery>): nat {
    if ds == [] then 0 else |ds[0].rules| + 2 + QueueWork(ds[1..])
  }

  function BusyWork(d: Option<InFlight>): nat {
    if d.None? then 0
    else if IsDone(d.value) then 1
    else |d.value.delivery.rules| - d.value.next + 1
  }

  function WorkOf(wk: Worker): nat {
    QueueWork(wk.queue) + BusyWork(wk.busy)
  }

  function Work(ws: seq<Worker>): nat {
    if ws == [] then 0 else Work(ws[..|ws| - 1]) + WorkOf(ws[|ws| - 1])
  }

  /** What is left to do for the events that are routed. */
  function ToDeliver(f: Flow): nat {
    Work(f.workers) + if f.hand.Sending? then |f.hand.delivery.rules| + 3 else 0
  }

  lemma {:induction false} QueueWorkPush(ds: seq<Delivery>, d: Delivery)
    ensures QueueWork(ds + [d]) == QueueWork(ds) + |d.rules| + 2
  {
    if ds == [] {
      assert ds + [d] == [d];
    } else {
      QueueWorkPush(ds[1..], d);
      assert (ds + [d])[1..] == ds[1..] + [d];
    }
  }

  lemma {:induction false} WorkUpdate(ws: seq<Worker>, w: nat, wk: Worker)
    requires w < |ws|
    ensures Work(ws[w := wk]) == Work(ws) - WorkOf(ws[w]) + WorkOf(wk)
  {
    var n := |ws| - 1;
    if w == n {
      assert ws[w := wk][..n] == ws[..n];
    } else {
      WorkUpdate(ws[..n], w, wk);
      assert ws[w := wk][..n] == ws[..n][w := wk];
    }
  }

  /** Less is left: fewer events to route, or as many and less to deliver. */
  ghost predicate LessLeft(f: Flow, f': Flow) {
    ToRoute(f') < ToRoute(f) || (ToRoute(f') == ToRoute(f) && ToDeliver(f') < ToDeliver(f))
  }

  lemma HandOverLeavesLess(f: Flow)
    requires CanSend(f)
    ensures LessLeft(f, PutOnQueue(f))
  {
    var w := Target(f);
    var wk := f.workers[w];
    QueueWorkPush(wk.queue, f.hand.delivery);
    WorkUpdate(f.workers, w, wk.(queue := wk.queue + [f.hand.delivery]));
  }

  lemma BeginLeavesLess(f: Flow, w: nat)
    requires w < |f.workers| && f.workers[w].queue != [] && f.workers[w].busy.None?
    ensures LessLeft(f, BeginDelivery(f, w))
  {
    WorkUpdate(f.workers, w, BeginDelivery(f, w).workers[w]);
  }

  lemma TryLeavesLess(f: Flow, w: nat)
    requires w < |f.workers| && f.workers[w].busy.Some? && !IsDone(f.workers[w].busy.value)
    ensures LessLeft(f, Advance(f, w))
  {
    WorkUpdate(f.workers, w, Advance(f, w).workers[w]);
  }

  lemma FinishLeavesLess(f: Flow, w: nat)
    requires w < |f.workers| && f.workers[w].busy.Some? && IsDone(f.workers[w].busy.value)
    ensures LessLeft(f, FinishDelivery(f, w))
  {
    WorkUpdate(f.workers, w, FinishDelivery(f, w).workers[w]);
  }

  /** Every step of work leaves less to do. */
  lemma WorkLeavesLess(b: Bus, s: Step)
    requires EventBus.Enabled(b, s) && IsWork(s)
    ensures LessLeft(b.flow, EventBus.Do(b, s).flow)
  {
    match s
    case HandOver => HandOverLeavesLess(b.flow);
    case Begin(w) => BeginLeavesLess(b.flow, w);
    case Try(w, _) => TryLeavesLess(b.flow, w);
    case Finish(w) => FinishLeavesLess(b.flow, w);
    case _ =>
  }

  /** An endless behaviour of the bus, from any state. */
  ghost predicate IsEndless(states: nat -> Bus, steps: nat -> Step) {
    forall k: nat :: EventBus.Enabled(states(k), steps(k)) && states(k + 1) == EventBus.Do(states(k), steps(k))
  }

  /** No behaviour works forever: again and again something else happens. */
  lemma {:induction false} NoEndlessWork(states: nat -> Bus, steps: nat -> Step, k: nat) returns (j: nat)
    requires IsEndless(states, steps)
    ensures j >= k && !IsWork(steps(j))
    decreases ToRoute(states(k).flow), ToDeliver(states(k).flow)
  {
    j := k;
    if IsWork(steps(k)) {
      WorkLeavesLess(states(k), steps(k));
      j := NoEndlessWork(states, steps, k + 1);
    }
  }

  // ---- and it is possible while there is work ----

  /** No worker is told to stop before the wait for the drain counter is over. */
  ghost predicate WorkersStay(c: Control) {
    && c.exited <= c.signalled
    && (c.signalled != {} ==> c.stage.StopWorker? || c.stage.StopRetries?)
  }

  lemma WorkersStayStep(b: Bus, s: Step)
    requires EventBus.Enabled(b, s) && WorkersStay(b.control)
    ensures WorkersStay(EventBus.Do(b, s).control)
  {
  }

  lemma {:induction false} WorkersStayOn(numWorkers: int, maxRetries: int, states: seq<Bus>, steps: seq<Step>, i: nat)
    requires IsRun(numWorkers, maxRetries, states, steps) && i < |states|
    ensures WorkersStay(states[i].control)
  {
    if i > 0 {
      WorkersStayOn(numWorkers, maxRetries, states, steps, i - 1);
      WorkersStayStep(states[i - 1], steps[i - 1]);
    }
  }

  /** All workers are there, and so is the dispatcher if it is still needed. */
  ghost predicate CanDrain(b: Bus) {
    && BusInv(b) && b.control.exited == {}
    && (b.control.dispatcher.DispatcherExited? ==> b.flow.publishing == 0 && b.flow.eventCh == [])
  }

  /** A worker with anything to do can do it. */
  lemma WorkerCanGoOn(b: Bus, w: nat) returns (s: Step)
    requires b.control.exited == {} && w < |b.flow.workers| && LoadOf(b.flow.workers[w]) > 0
    ensures EventBus.Enabled(b, s) && IsWork(s)
  {
    var busy := b.flow.workers[w].busy;
    s := if busy.None? then Begin(w) else if IsDone(busy.value) then Finish(w) else Try(w, true);
  }

  lemma {:induction false} SomeLoad(ws: seq<Worker>) returns (w: nat)
    requires Load(ws) > 0
    ensures w < |ws| && LoadOf(ws[w]) > 0
  {
    var n := |ws| - 1;
    if LoadOf(ws[n]) > 0 {
      w := n;
    } else {
      w := SomeLoad(ws[..n]);
    }
  }

  lemma DispatcherCanGoOn(b: Bus) returns (s: Step)
    requires CanDrain(b) && !b.flow.hand.Empty?
    ensures EventBus.Enabled(b, s) && IsWork(s)
  {
    var f := b.flow;
    assert Contiguous(f);
    if f.hand.Received? {
      var e := f.accepted[f.hand.ticket];
      var own := Under(b.subs, e.bucket, e);
      s := Route(if e.bucket == "*" then own else Under(b.subs, "*", e) + own);
    } else if |f.workers[Target(f)].queue| < WorkerCapacity {
      s := HandOver;
    } else {
      s := WorkerCanGoOn(b, Target(f));
    }
  }

  /** With work left, some step of it can be taken. */
  lemma NeverStuck(b: Bus, e: Event) returns (s: Step)
    requires CanDrain(b) && b.flow.drain > 0
    ensures EventBus.Enabled(b, s) && IsWork(s)
  {
    assert DrainExact(b.flow);
    if !b.flow.hand.Empty? {
      s := DispatcherCanGoOn(b);
    } else if b.flow.eventCh != [] {
      s := Receive;
    } else if b.flow.publishing > 0 {
      s := PublishSend(e);
    } else {
      var w := SomeLoad(b.flow.workers);
      s := WorkerCanGoOn(b, w);
    }
  }

  lemma WorkKeepsCanDrain(b: Bus, s: Step)
    requires CanDrain(b) && EventBus.Enabled(b, s) && IsWork(s)
    ensures CanDrain(EventBus.Do(b, s)) && EventBus.Do(b, s).control == b.control
  {
    BusStepKeepsInv(b, s);
  }

  // ---- so the drain completes ----

  /** Steps that can be taken one after the other. */
  ghost predicate Goes(b: Bus, steps: seq<Step>)
    decreases |steps|
  {
    steps == [] || (EventBus.Enabled(b, steps[0]) && Goes(EventBus.Do(b, steps[0]), steps[1..]))
  }

  ghost function After(b: Bus, steps: seq<Step>): Bus
    requires Goes(b, steps)
    decreases |steps|
  {
    if steps == [] then b else After(EventBus.Do(b, steps[0]), steps[1..])
  }

  lemma GoesFirst(b: Bus, s: Step, more: seq<Step>)
    requires EventBus.Enabled(b, s) && Goes(EventBus.Do(b, s), more)
    ensures Goes(b, [s] + more) && After(b, [s] + more) == After(EventBus.Do(b, s), more)
  {
    assert ([s] + more)[1..] == more;
  }

  lemma {:induction false} GoesOn(b: Bus, steps: seq<Step>, more: seq<Step>)
    requires Goes(b, steps) && Goes(After(b, steps), more)
    ensures Goes(b, steps + more) && After(b, steps + more) == After(After(b, steps), more)
    decreases |steps|
  {
    if steps == [] {
      assert steps + more == more;
    } else {
      GoesOn(EventBus.Do(b, steps[0]), steps[1..], more);
      assert (steps + more)[1..] == steps[1..] + more;
    }
  }

  lemma {:induction false} WorkDrains(b: Bus, e: Event) returns (steps: seq<Step>)
    requires CanDrain(b)
    ensures Goes(b, steps) && (forall s | s in steps :: IsWork(s)) && After(b, steps).flow.drain == 0
    ensures BusInv(After(b, steps)) && After(b, steps).control == b.control
    decreases ToRoute(b.flow), ToDeliver(b.flow)
  {
    DrainedMeansDealtWith(b);
    if b.flow.drain == 0 {
      steps := [];
    } else {
      var s := NeverStuck(b, e);
      WorkLeavesLess(b, s);
      WorkKeepsCanDrain(b, s);
      var more := WorkDrains(EventBus.Do(b, s), e);
      GoesFirst(b, s, more);
      steps := [s] + more;
    }
  }

  /** Nothing is stranded, and nothing is about to be by a publisher that the dispatcher did not wait for. */
  ghost predicate NoneTooLate(b: Bus) {
    !Stranded(b) && (b.control.dispatcher.DispatcherExited? ==> b.flow.publishing == 0)
  }

  /** In every run, until the workers are told to stop: unless an event is stranded or about to be, the bus can work on
      without dropping anything until the drain counter is zero, and then every accepted event was dealt with. */
  lemma DrainCompletes(numWorkers: int, maxRetries: int, states: seq<Bus>, steps: seq<Step>, i: nat, e: Event)
    returns (more: seq<Step>)
    requires IsRun(numWorkers, maxRetries, states, steps) && i < |states| && NoneTooLate(states[i])
    requires !states[i].control.stage.StopWorker? && !states[i].control.stage.StopRetries?
    ensures Goes(states[i], more) && forall s | s in more :: IsWork(s)
    ensures var b := After(states[i], more);
            b.flow.drain == 0 && forall t | 0 <= t < |b.flow.accepted| :: DealtWith(b, t)
  {
    RunKeepsInv(numWorkers, maxRetries, states, steps, i);
    WorkersStayOn(numWorkers, maxRetries, states, steps, i);
    more := WorkDrains(states[i], e);
    DrainedMeansDealtWith(After(states[i], more));
  }

  // ---- and so does the shutdown ----

  /** Nothing is on its way. */
  ghost predicate Idle(f: Flow) {
    f.hand.Empty? && f.eventCh == [] && forall w | 0 <= w < |f.workers| :: f.workers[w].busy.None?
  }

  lemma DrainedIsIdle(b: Bus)
    requires BusInv(b) && b.flow.drain == 0
    ensures Idle(b.flow)
  {
    assert DrainExact(b.flow);
    LoadZero(b.flow.workers);
  }

  /** How far the shutdown has to go with some workers. */
  function StopsLeft(c: Control, workers: nat): nat {
    match c.stage
    case Running => 3 * workers + 6
    case AwaitDispatcher =>
      3 * workers + 3 + (if c.dispatcher.Looping? then 2 else if c.dispatcher.DrainingChannel? then 1 else 0)
    case AwaitDrain => 3 * workers + 2
    case StopWorker(i) =>
      if i >= workers then 1
      else 3 * (workers - i) + 1 - (if i in c.signalled then 1 else 0) - (if i in c.exited then 1 else 0)
    case StopRetries => 0
  }

  lemma ShutdownGoesOn(b: Bus) returns (s: Step)
    requires Idle(b.flow) && b.flow.drain == 0 && !b.control.stage.StopRetries?
    ensures EventBus.Enabled(b, s) && EventBus.Do(b, s).flow == b.flow && s != Drained(true)
    ensures StopsLeft(EventBus.Do(b, s).control, |b.flow.workers|) < StopsLeft(b.control, |b.flow.workers|)
  {
    var c := b.control;
    match c.stage
    case Running => s := Stop;
    case AwaitDispatcher =>
      s := if c.dispatcher.Looping? then DispatcherSeesStop
           else if c.dispatcher.DrainingChannel? then DispatcherExit
           else DispatcherGone;
    case AwaitDrain => s := Drained(false);
    case StopWorker(i) =>
      s := if i >= |b.flow.workers| then SignalRetries
           else if i in c.exited then WorkerGone
           else if i in c.signalled then WorkerExit(i)
           else SignalWorker;
  }

  lemma {:induction false} IdleShutsDown(b: Bus) returns (steps: seq<Step>)
    requires Idle(b.flow) && b.flow.drain == 0
    ensures Goes(b, steps) && After(b, steps).control.stage.StopRetries? && After(b, steps).flow == b.flow
    ensures Drained(true) !in steps
    decreases StopsLeft(b.control, |b.flow.workers|)
  {
    if b.control.stage.StopRetries? {
      steps := [];
    } else {
      var s := ShutdownGoesOn(b);
      var more := IdleShutsDown(EventBus.Do(b, s));
      GoesFirst(b, s, more);
      steps := [s] + more;
    }
  }

  /** In every run, until the workers are told to stop: unless an event is stranded or about to be, the bus can be shut
      down to the end, by way of an empty drain counter. */
  lemma ShutdownCompletes(numWorkers: int, maxRetries: int, states: seq<Bus>, steps: seq<Step>, i: nat, e: Event)
    returns (more: seq<Step>)
    requires IsRun(numWorkers, maxRetries, states, steps) && i < |states| && NoneTooLate(states[i])
    requires !states[i].control.stage.StopWorker? && !states[i].control.stage.StopRetries?
    ensures Goes(states[i], more) && Drained(true) !in more
    ensures var b := After(states[i], more); b.control.stage.StopRetries? && b.flow.drain == 0
  {
    RunKeepsInv(numWorkers, maxRetries, states, steps, i);
    WorkersStayOn(numWorkers, maxRetries, states, steps, i);
    var work := WorkDrains(states[i], e);
    DrainedIsIdle(After(states[i], work));
    var stop := IdleShutsDown(After(states[i], work));
    GoesOn(states[i], work, stop);
    more := work + stop;
  }
}
