/** Events that come too late: a publisher may still send after the dispatcher has drained the channel and gone. */
module EventBusShutdown {
  import opened DeadLetters
  import opened EventBus
  import opened EventBusProofs
  import opened Options

  /** The channel holds events and nobody is left to receive them. */
  ghost predicate Stranded(b: Bus) {
    b.control.dispatcher.DispatcherExited? && b.flow.eventCh != []
  }

  /** A publisher sends after the dispatcher has exited. */
  ghost predicate TooLate(b: Bus, s: Step) {
    s.PublishSend? && b.control.dispatcher.DispatcherExited?
  }

  lemma DispatcherStaysAway(b: Bus, s: Step)
    requires EventBus.Enabled(b, s) && b.control.dispatcher.DispatcherExited?
    ensures EventBus.Do(b, s).control.dispatcher.DispatcherExited?
    ensures b.flow.eventCh <= EventBus.Do(b, s).flow.eventCh
  {
  }

  /** A step leaves stranded events behind exactly when there were some already or it sends one too late. */
  lemma StrandsExactlyWhenTooLate(b: Bus, s: Step)
    requires EventBus.Enabled(b, s)
    ensures Stranded(EventBus.Do(b, s)) <==> Stranded(b) || TooLate(b, s)
  {
    if b.control.dispatcher.DispatcherExited? {
      DispatcherStaysAway(b, s);
    }
  }

  /** In every run, events are stranded exactly when one was sent after the dispatcher had exited: whatever was sent
      before that was received. */
  lemma {:induction false} StrandedExactlyAfterLateSend(numWorkers: int, maxRetries: int, states: seq<Bus>,
                                                        steps: seq<Step>, i: nat)
    requires IsRun(numWorkers, maxRetries, states, steps) && i < |states|
    ensures Stranded(states[i]) <==> exists j | 0 <= j < i :: TooLate(states[j], steps[j])
  {
    if i > 0 {
      StrandedExactlyAfterLateSend(numWorkers, maxRetries, states, steps, i - 1);
      StrandsExactlyWhenTooLate(states[i - 1], steps[i - 1]);
    }
  }

  lemma BegunIsDecided(f: Flow, t: nat, w: nat)
    requires FlowInv(f) && w < |f.workers| && t in f.workers[w].started
    ensures t < Decided(f)
  {
    assert t in Lane(f, w);
    assert InOrder(f, w);
    ForWorkerElements(Routed(Decided(f), f.unmatched), f, w);
    assert t in Routed(Decided(f), f.unmatched);
  }

  lemma InChannelIsNotBegun(f: Flow, t: nat, w: nat)
    requires FlowInv(f) && t in f.eventCh && w < |f.workers|
    ensures t !in f.workers[w].started
  {
    if t in f.workers[w].started {
      BegunIsDecided(f, t, w);
    }
  }

  lemma PrefixOfPrefix<T>(a: seq<T>, b: seq<T>, c: seq<T>)
    requires a <= b && b <= c
    ensures a <= c
  {
  }

  /** Nobody is left to receive, and the channel starts with some tickets. */
  ghost predicate Holds(b: Bus, ch: seq<nat>) {
    Stranded(b) && ch <= b.flow.eventCh
  }

  lemma HoldsStep(b: Bus, s: Step, ch: seq<nat>)
    requires EventBus.Enabled(b, s) && Holds(b, ch)
    ensures Holds(EventBus.Do(b, s), ch)
  {
    DispatcherStaysAway(b, s);
    PrefixOfPrefix(ch, b.flow.eventCh, EventBus.Do(b, s).flow.eventCh);
  }

  lemma HoldsNext(numWorkers: int, maxRetries: int, states: seq<Bus>, steps: seq<Step>, k: nat, ch: seq<nat>)
    requires IsRun(numWorkers, maxRetries, states, steps) && k < |steps| && Holds(states[k], ch)
    ensures Holds(states[k + 1], ch)
  {
    HoldsStep(states[k], steps[k], ch);
  }

  ghost predicate Carries(states: seq<Bus>, ch: seq<nat>) {
    forall k | 0 <= k < |states| - 1 :: Holds(states[k], ch) ==> Holds(states[k + 1], ch)
  }

  lemma RunCarries(numWorkers: int, maxRetries: int, states: seq<Bus>, steps: seq<Step>, ch: seq<nat>)
    requires IsRun(numWorkers, maxRetries, states, steps)
    ensures Carries(states, ch)
  {
    forall k | 0 <= k < |states| - 1 && Holds(states[k], ch) ensures Holds(states[k + 1], ch) {
      HoldsNext(numWorkers, maxRetries, states, steps, k, ch);
    }
  }

  lemma {:induction false} HoldsOn(states: seq<Bus>, i: nat, j: nat, ch: seq<nat>)
    requires Carries(states, ch) && i <= j < |states| && Holds(states[i], ch)
    ensures Holds(states[j], ch)
  {
    if i < j {
      HoldsOn(states, i, j - 1, ch);
      assert Holds(states[j - 1], ch) ==> Holds(states[j - 1 + 1], ch);
    }
  }

  /** A stranded event is never delivered, in no continuation of the run, and from then on the drain counter is never
      zero: only the timeout ends the wait for it. */
  lemma StrandedForever(numWorkers: int, maxRetries: int, states: seq<Bus>, steps: seq<Step>, i: nat, j: nat, t: nat)
    requires IsRun(numWorkers, maxRetries, states, steps) && i <= j < |states|
    requires Stranded(states[i]) && t in states[i].flow.eventCh
    ensures forall w | 0 <= w < |states[j].flow.workers| :: t !in states[j].flow.workers[w].started
    ensures t !in states[j].flow.unmatched
    ensures states[j].flow.drain > 0 && !EventBus.Enabled(states[j], Drained(false))
  {
    RunCarries(numWorkers, maxRetries, states, steps, states[i].flow.eventCh);
    HoldsOn(states, i, j, states[i].flow.eventCh);
    RunKeepsInv(numWorkers, maxRetries, states, steps, j);
    var f := states[j].flow;
    assert t in f.eventCh;
    forall w | 0 <= w < |f.workers| ensures t !in f.workers[w].started {
      InChannelIsNotBegun(f, t, w);
    }
  }

  // ---- it happens ----

  /** A publisher begins, the bus is stopped and drained, and only then is the event sent. */
  function LateSteps(e: Event): seq<Step> {
    [PublishBegin, Stop, DispatcherSeesStop, DispatcherExit, PublishSend(e)]
  }

  function LateState(b: Bus, k: nat, e: Event): Bus {
    var begun := b.(flow := b.flow.(publishing := b.flow.publishing + 1, drain := b.flow.drain + 1));
    var stopped := b.control.(stage := AwaitDispatcher);
    if k == 0 then b
    else if k == 1 then begun
    else if k == 2 then begun.(control := stopped)
    else if k == 3 then begun.(control := stopped.(dispatcher := DrainingChannel))
    else if k == 4 then begun.(control := stopped.(dispatcher := DispatcherExited))
    else begun.(control := stopped.(dispatcher := DispatcherExited), flow := Accept(begun.flow, e))
  }

  function LateStates(b: Bus, e: Event): seq<Bus> {
    seq(6, k requires 0 <= k < 6 => LateState(b, k, e))
  }

  lemma LateStep(numWorkers: int, maxRetries: int, e: Event, k: nat)
    requires k < 5
    ensures var b := EventBus.Init(numWorkers, maxRetries);
            && EventBus.Enabled(LateState(b, k, e), LateSteps(e)[k])
            && LateState(b, k + 1, e) == EventBus.Do(LateState(b, k, e), LateSteps(e)[k])
  {
  }

  /** That is a run of every bus, with every event, and it ends with the event stranded. */
  lemma LateSendHappens(numWorkers: int, maxRetries: int, e: Event)
    ensures var states := LateStates(EventBus.Init(numWorkers, maxRetries), e);
            IsRun(numWorkers, maxRetries, states, LateSteps(e)) && Stranded(states[5]) && states[5].flow.accepted == [e]
  {
    forall k: nat | k < 5
      ensures var b := EventBus.Init(numWorkers, maxRetries);
              && EventBus.Enabled(LateState(b, k, e), LateSteps(e)[k])
              && LateState(b, k + 1, e) == EventBus.Do(LateState(b, k, e), LateSteps(e)[k])
    {
      LateStep(numWorkers, maxRetries, e, k);
    }
  }
}
