/** What every run of the event bus keeps: per-key order, the drain counter, and the fate of every event. */
module EventBusProofs {
  import opened Options
  import opened DeadLetters
  import opened EventBus

  // ---- tickets ----

  ghost predicate Increasing(ts: seq<nat>) {
    forall i, j | 0 <= i < j < |ts| :: ts[i] < ts[j]
  }

  /** The tickets below `m` that found a rule, in order. */
  function Routed(m: nat, unmatched: set<nat>): (ts: seq<nat>)
    ensures forall i | 0 <= i < |ts| :: ts[i] < m && ts[i] !in unmatched
    ensures Increasing(ts)
  {
    if m == 0 then [] else Routed(m - 1, unmatched) + if m - 1 in unmatched then [] else [m - 1]
  }

  lemma {:induction false} RoutedHas(m: nat, unmatched: set<nat>, t: nat)
    requires t < m && t !in unmatched
    ensures t in Routed(m, unmatched)
  {
    if t < m - 1 { RoutedHas(m - 1, unmatched, t); }
  }

  /** A later ticket without a rule changes nothing about the earlier ones. */
  lemma {:induction false} RoutedIgnoresLater(m: nat, unmatched: set<nat>, t: nat)
    requires m <= t
    ensures Routed(m, unmatched + {t}) == Routed(m, unmatched)
  {
    if m > 0 { RoutedIgnoresLater(m - 1, unmatched, t); }
  }

  predicate GoesTo(f: Flow, t: nat, w: nat) {
    t < |f.accepted| && |f.workers| > 0 && WorkerOf(f.accepted[t].key, |f.workers|) == w
  }

  /** The tickets of a list that are sharded to a worker. */
  function ForWorker(ts: seq<nat>, f: Flow, w: nat): seq<nat> {
    if ts == [] then []
    else ForWorker(ts[..|ts| - 1], f, w) + if GoesTo(f, ts[|ts| - 1], w) then [ts[|ts| - 1]] else []
  }

  lemma ForWorkerPush(ts: seq<nat>, t: nat, f: Flow, w: nat)
    ensures ForWorker(ts + [t], f, w) == ForWorker(ts, f, w) + if GoesTo(f, t, w) then [t] else []
  {
    assert (ts + [t])[..|ts|] == ts;
  }

  /** Sharding depends only on the keys of the tickets concerned. */
  lemma {:induction false} ForWorkerSame(ts: seq<nat>, f: Flow, f': Flow, w: nat)
    requires forall i | 0 <= i < |ts| :: GoesTo(f, ts[i], w) == GoesTo(f', ts[i], w)
    ensures ForWorker(ts, f, w) == ForWorker(ts, f', w)
  {
    if ts != [] { ForWorkerSame(ts[..|ts| - 1], f, f', w); }
  }

  lemma {:induction false} ForWorkerElements(ts: seq<nat>, f: Flow, w: nat)
    ensures forall t :: t in ForWorker(ts, f, w) <==> t in ts && GoesTo(f, t, w)
  {
    if ts != [] {
      ForWorkerElements(ts[..|ts| - 1], f, w);
      assert ts == ts[..|ts| - 1] + [ts[|ts| - 1]];
    }
  }

  lemma {:induction false} ForWorkerIncreasing(ts: seq<nat>, f: Flow, w: nat)
    requires Increasing(ts)
    ensures Increasing(ForWorker(ts, f, w))
  {
    if ts != [] {
      var n := |ts| - 1;
      ForWorkerIncreasing(ts[..n], f, w);
      ForWorkerElements(ts[..n], f, w);
      var r := ForWorker(ts[..n], f, w);
      forall i | 0 <= i < |r| ensures r[i] < ts[n] {
        assert r[i] in ts[..n];
      }
      var r' := ForWorker(ts, f, w);
      assert r' == r || r' == r + [ts[n]];
    }
  }

  function Tickets(ds: seq<Delivery>): (ts: seq<nat>)
    ensures |ts| == |ds| && forall i | 0 <= i < |ds| :: ts[i] == ds[i].ticket
  {
    seq(|ds|, i requires 0 <= i < |ds| => ds[i].ticket)
  }

  // ---- invariants of the flow ----

  /** How many tickets the dispatcher has received, and how many of those it has dealt with. */
  function ReceivedCount(f: Flow): int {
    |f.accepted| - |f.eventCh|
  }

  function Decided(f: Flow): int {
    ReceivedCount(f) - if f.hand.Empty? then 0 else 1
  }

  /** The channel holds the latest tickets without a gap; the one in hand came just before them. */
  ghost predicate Contiguous(f: Flow) {
    && |f.workers| > 0
    && 0 <= Decided(f)
    && (forall i | 0 <= i < |f.eventCh| :: f.eventCh[i] == ReceivedCount(f) + i)
    && (f.hand.Received? ==> f.hand.ticket == Decided(f))
    && (f.hand.Sending? ==> f.hand.delivery.ticket == Decided(f))
    && (forall t | t in f.unmatched :: t < Decided(f))
  }

  /** What was begun or queued at a worker. */
  function Lane(f: Flow, w: nat): seq<nat>
    requires w < |f.workers|
  {
    f.workers[w].started + Tickets(f.workers[w].queue)
  }

  /** What the dispatcher has routed to a worker. */
  ghost function Share(f: Flow, w: nat): seq<nat>
    requires 0 <= Decided(f)
  {
    ForWorker(Routed(Decided(f), f.unmatched), f, w)
  }

  /** What a worker began and has queued is, in order, what was routed to it. */
  ghost predicate InOrder(f: Flow, w: nat)
    requires w < |f.workers| && 0 <= Decided(f)
  {
    Lane(f, w) == Share(f, w)
  }

  ghost predicate AllInOrder(f: Flow)
    requires 0 <= Decided(f)
  {
    forall w | 0 <= w < |f.workers| :: InOrder(f, w)
  }

  function LoadOf(wk: Worker): nat {
    |wk.queue| + if wk.busy.Some? then 1 else 0
  }

  function Load(ws: seq<Worker>): nat {
    if ws == [] then 0 else Load(ws[..|ws| - 1]) + LoadOf(ws[|ws| - 1])
  }

  /** The drain counter counts exactly the events on their way. */
  ghost predicate DrainExact(f: Flow) {
    f.drain == f.publishing + |f.eventCh| + (if f.hand.Empty? then 0 else 1) + Load(f.workers)
  }

  ghost predicate FlowInv(f: Flow) {
    Contiguous(f) && AllInOrder(f) && DrainExact(f)
  }

  lemma {:induction false} LoadUpdate(ws: seq<Worker>, w: nat, wk: Worker)
    requires w < |ws|
    ensures Load(ws[w := wk]) == Load(ws) - LoadOf(ws[w]) + LoadOf(wk)
  {
    var n := |ws| - 1;
    if w == n {
      assert ws[w := wk][..n] == ws[..n];
    } else {
      LoadUpdate(ws[..n], w, wk);
      assert ws[w := wk][..n] == ws[..n][w := wk];
    }
  }

  lemma {:induction false} LoadZero(ws: seq<Worker>)
    requires Load(ws) == 0
    ensures forall w | 0 <= w < |ws| :: ws[w].queue == [] && ws[w].busy.None?
  {
    if ws != [] { LoadZero(ws[..|ws| - 1]); }
  }

  /** Sharding of tickets already accepted is not affected by another acceptance or by worker updates. */
  lemma SameShare(f: Flow, f': Flow, w: nat)
    requires |f'.workers| == |f.workers| && f.accepted <= f'.accepted && 0 <= Decided(f) <= |f.accepted|
    requires Decided(f') == Decided(f) && f'.unmatched == f.unmatched
    ensures Share(f', w) == Share(f, w)
  {
    ForWorkerSame(Routed(Decided(f), f.unmatched), f, f', w);
  }

  /** A step that decides no ticket keeps the order if it keeps what is begun or queued at each worker. */
  lemma SameLanesKeepOrder(f: Flow, f': Flow)
    requires |f'.workers| == |f.workers| && f.accepted <= f'.accepted && 0 <= Decided(f) <= |f.accepted|
    requires Decided(f') == Decided(f) && f'.unmatched == f.unmatched
    requires AllInOrder(f)
    requires forall w | 0 <= w < |f.workers| :: Lane(f', w) == Lane(f, w)
    ensures AllInOrder(f')
  {
    forall w | 0 <= w < |f'.workers| ensures InOrder(f', w) {
      assert InOrder(f, w);
      SameShare(f, f', w);
    }
  }

  lemma AcceptKeeps(f: Flow, e: Event)
    requires FlowInv(f) && f.publishing > 0
    ensures FlowInv(Accept(f, e))
  {
    SameLanesKeepOrder(f, Accept(f, e));
  }

  lemma TakeInKeeps(f: Flow)
    requires FlowInv(f) && f.hand.Empty? && f.eventCh != []
    ensures FlowInv(TakeIn(f))
  {
    SameLanesKeepOrder(f, TakeIn(f));
  }

  lemma RoutedSkips(m: nat, unmatched: set<nat>)
    requires m !in unmatched
    ensures Routed(m + 1, unmatched + {m}) == Routed(m, unmatched)
  {
    RoutedIgnoresLater(m, unmatched, m);
  }

  lemma RoutedGrows(m: nat, unmatched: set<nat>)
    requires m !in unmatched
    ensures Routed(m + 1, unmatched) == Routed(m, unmatched) + [m]
  {
  }

  /** What a ticket adds to the share of a worker. */
  function Part(f: Flow, t: nat, w: nat): seq<nat> {
    if GoesTo(f, t, w) then [t] else []
  }

  /** The next ticket has been decided. */
  ghost predicate OneDecided(f: Flow, f': Flow) {
    && |f'.workers| == |f.workers| && f'.accepted == f.accepted
    && 0 <= Decided(f) && Decided(f') == Decided(f) + 1 && Decided(f) !in f.unmatched
  }

  /** Deciding the next ticket without a rule leaves every share alone. */
  lemma ShareStays(f: Flow, f': Flow, w: nat)
    requires OneDecided(f, f') && f'.unmatched == f.unmatched + {Decided(f)}
    ensures Share(f', w) == Share(f, w)
  {
    RoutedSkips(Decided(f), f.unmatched);
    ForWorkerSame(Routed(Decided(f), f.unmatched), f, f', w);
  }

  lemma ForWorkerGrows(ts: seq<nat>, t: nat, f: Flow, f': Flow, w: nat)
    requires |f'.workers| == |f.workers| && f'.accepted == f.accepted
    ensures ForWorker(ts + [t], f', w) == ForWorker(ts, f, w) + Part(f, t, w)
  {
    ForWorkerSame(ts, f, f', w);
    ForWorkerPush(ts, t, f', w);
  }

  /** Deciding the next ticket with a rule adds it to its worker's share. */
  lemma ShareGrows(f: Flow, f': Flow, w: nat)
    requires OneDecided(f, f') && f'.unmatched == f.unmatched
    ensures Share(f', w) == Share(f, w) + Part(f, Decided(f), w)
  {
    RoutedGrows(Decided(f), f.unmatched);
    ForWorkerGrows(Routed(Decided(f), f.unmatched), Decided(f), f, f', w);
  }

  lemma UnmatchedKeepsOrder(f: Flow)
    requires FlowInv(f) && f.hand.Received?
    ensures AllInOrder(RouteTo(f, []))
  {
    var f' := RouteTo(f, []);
    forall w | 0 <= w < |f'.workers| ensures InOrder(f', w) {
      assert InOrder(f, w);
      ShareStays(f, f', w);
      assert Lane(f', w) == Lane(f, w);
    }
  }

  lemma RouteToKeeps(f: Flow, rules: seq<Rule>)
    requires FlowInv(f) && f.hand.Received?
    ensures FlowInv(RouteTo(f, rules))
  {
    if rules == [] {
      UnmatchedKeepsOrder(f);
    } else {
      SameLanesKeepOrder(f, RouteTo(f, rules));
    }
  }

  /** The ticket in hand joins the lane of its worker. */
  lemma LaneGrows(f: Flow, w: nat)
    requires CanSend(f) && w < |f.workers|
    ensures Lane(PutOnQueue(f), w) == Lane(f, w) + Part(f, f.hand.delivery.ticket, w)
  {
    var f', t := PutOnQueue(f), f.hand.delivery.ticket;
    if w == Target(f) {
      assert Tickets(f'.workers[w].queue) == Tickets(f.workers[w].queue) + [t];
    }
  }

  lemma HandIsNext(f: Flow)
    requires Contiguous(f) && CanSend(f)
    ensures f.hand.delivery.ticket == Decided(f)
    ensures OneDecided(f, PutOnQueue(f)) && PutOnQueue(f).unmatched == f.unmatched
  {
  }

  lemma SameTails(a: seq<nat>, b: seq<nat>, c: seq<nat>, d: seq<nat>, tail: seq<nat>)
    requires a == b && c == a + tail && d == b + tail
    ensures c == d
  {
  }

  lemma PutOnQueueKeepsOrder(f: Flow, w: nat)
    requires Contiguous(f) && CanSend(f) && w < |f.workers| && InOrder(f, w)
    ensures 0 <= Decided(PutOnQueue(f)) && InOrder(PutOnQueue(f), w)
  {
    var f' := PutOnQueue(f);
    HandIsNext(f);
    LaneGrows(f, w);
    ShareGrows(f, f', w);
    SameTails(Lane(f, w), Share(f, w), Lane(f', w), Share(f', w), Part(f, Decided(f), w));
  }

  lemma PutOnQueueKeeps(f: Flow)
    requires FlowInv(f) && CanSend(f)
    ensures FlowInv(PutOnQueue(f))
  {
    var f', w0 := PutOnQueue(f), Target(f);
    LoadUpdate(f.workers, w0, f'.workers[w0]);
    forall w | 0 <= w < |f'.workers| ensures InOrder(f', w) {
      assert InOrder(f, w);
      PutOnQueueKeepsOrder(f, w);
    }
  }

  lemma BeginDeliveryKeeps(f: Flow, w: nat)
    requires FlowInv(f) && w < |f.workers| && f.workers[w].queue != [] && f.workers[w].busy.None?
    ensures FlowInv(BeginDelivery(f, w))
  {
    var f' := BeginDelivery(f, w);
    LoadUpdate(f.workers, w, f'.workers[w]);
    BeginKeepsLane(f, w);
    SameLanesKeepOrder(f, f');
  }

  lemma BeginKeepsLane(f: Flow, w: nat)
    requires w < |f.workers| && f.workers[w].queue != []
    ensures Lane(BeginDelivery(f, w), w) == Lane(f, w)
  {
    var q, started := f.workers[w].queue, f.workers[w].started;
    assert Tickets(q) == [q[0].ticket] + Tickets(q[1..]);
    assert started + ([q[0].ticket] + Tickets(q[1..])) == started + [q[0].ticket] + Tickets(q[1..]);
  }

  lemma AdvanceKeeps(f: Flow, w: nat)
    requires FlowInv(f) && w < |f.workers| && f.workers[w].busy.Some?
    ensures FlowInv(Advance(f, w))
  {
    var f' := Advance(f, w);
    LoadUpdate(f.workers, w, f'.workers[w]);
    SameLanesKeepOrder(f, f');
  }

  lemma FinishDeliveryKeeps(f: Flow, w: nat)
    requires FlowInv(f) && w < |f.workers| && f.workers[w].busy.Some?
    ensures FlowInv(FinishDelivery(f, w))
  {
    var f' := FinishDelivery(f, w);
    LoadUpdate(f.workers, w, f'.workers[w]);
    SameLanesKeepOrder(f, f');
  }

  // ---- plans and jobs ----

  ghost predicate Planned(f: Flow, d: Delivery) {
    d.ticket in f.plan && f.plan[d.ticket] == d.rules
  }

  ghost predicate WorkerPlanned(f: Flow, wk: Worker) {
    && (forall i | 0 <= i < |wk.queue| :: Planned(f, wk.queue[i]))
    && (forall i | 0 <= i < |wk.started| :: wk.started[i] in f.plan)
    && (wk.busy.Some? ==>
          && Planned(f, wk.busy.value.delivery)
          && wk.busy.value.next <= |wk.busy.value.delivery.rules|
          && wk.started != [] && wk.started[|wk.started| - 1] == wk.busy.value.delivery.ticket)
  }

  /** Every delivery carries the rules its event was routed with. */
  ghost predicate PlanInv(f: Flow) {
    && (f.hand.Sending? ==> Planned(f, f.hand.delivery))
    && (forall w | 0 <= w < |f.workers| :: WorkerPlanned(f, f.workers[w]))
    && (forall t | t in f.plan :: t < Decided(f) || (f.hand.Sending? && t == Decided(f)))
  }

  /** How many rules of a begun ticket have been tried. */
  function Tried(f: Flow, wk: Worker, t: nat): nat
    requires t in f.plan
  {
    if wk.busy.Some? && wk.busy.value.delivery.ticket == t then wk.busy.value.next else |f.plan[t]|
  }

  /** Every webhook rule tried has been sent. */
  ghost predicate AllSent(f: Flow, sent: set<Job>, wk: Worker, t: nat) {
    t in f.plan ==>
      forall i | 0 <= i < Tried(f, wk, t) && i < |f.plan[t]| ::
        f.plan[t][i].destination == Webhook ==> Job(t, i) in sent
  }

  /** Every send is for a rule that a worker has tried. */
  ghost predicate Begun(f: Flow, j: Job) {
    exists w | 0 <= w < |f.workers| :: GoesTo(f, j.ticket, w) && BegunAt(f.workers[w], j)
  }

  ghost predicate BegunAt(wk: Worker, j: Job) {
    && j.ticket in wk.started
    && (wk.busy.Some? && wk.busy.value.delivery.ticket == j.ticket ==> j.rule < wk.busy.value.next)
  }

  ghost predicate WorkerSent(f: Flow, sent: set<Job>, wk: Worker) {
    forall i | 0 <= i < |wk.started| :: AllSent(f, sent, wk, wk.started[i])
  }

  ghost predicate JobInv(f: Flow, sent: set<Job>) {
    && (forall w | 0 <= w < |f.workers| :: WorkerSent(f, sent, f.workers[w]))
    && (forall j | j in sent :: Begun(f, j))
  }

  /** What a worker's lane holds is sharded to it, and each ticket once. */
  lemma LaneFacts(f: Flow, w: nat)
    requires FlowInv(f) && w < |f.workers|
    ensures Increasing(Lane(f, w))
    ensures forall t | t in Lane(f, w) :: GoesTo(f, t, w) && t < Decided(f) && t !in f.unmatched
  {
    assert InOrder(f, w);
    ForWorkerIncreasing(Routed(Decided(f), f.unmatched), f, w);
    ForWorkerElements(Routed(Decided(f), f.unmatched), f, w);
  }

  /** The head of a queue was not begun before. */
  lemma HeadIsNew(f: Flow, w: nat)
    requires FlowInv(f) && w < |f.workers| && f.workers[w].queue != []
    ensures f.workers[w].queue[0].ticket !in f.workers[w].started
    ensures GoesTo(f, f.workers[w].queue[0].ticket, w)
  {
    LaneFacts(f, w);
    var wk := f.workers[w];
    assert Lane(f, w)[|wk.started|] == wk.queue[0].ticket;
    forall i | 0 <= i < |wk.started| ensures wk.started[i] != wk.queue[0].ticket {
      assert Lane(f, w)[i] == wk.started[i];
    }
  }

  /** Updates that leave workers alone, or add only plans of new tickets, keep both. */
  lemma WorkersUntouchedKeep(f: Flow, f': Flow, sent: set<Job>)
    requires FlowInv(f) && PlanInv(f) && JobInv(f, sent)
    requires f'.workers == f.workers && f.accepted <= f'.accepted
    requires forall t | t in f.plan :: t in f'.plan && f'.plan[t] == f.plan[t]
    ensures forall w | 0 <= w < |f'.workers| :: WorkerPlanned(f', f'.workers[w])
    ensures JobInv(f', sent)
  {
    forall w | 0 <= w < |f'.workers| ensures WorkerPlanned(f', f'.workers[w]) && WorkerSent(f', sent, f'.workers[w]) {
      assert WorkerPlanned(f, f.workers[w]) && WorkerSent(f, sent, f.workers[w]);
    }
    forall j | j in sent ensures Begun(f', j) {
      var w :| 0 <= w < |f.workers| && GoesTo(f, j.ticket, w) && BegunAt(f.workers[w], j);
      assert GoesTo(f', j.ticket, w) && BegunAt(f'.workers[w], j);
    }
  }

  /** A change of one worker that keeps its own facts, and every send begun, keeps both. */
  lemma OneWorkerKeeps(f: Flow, f': Flow, sent: set<Job>, sent': set<Job>, w0: nat)
    requires FlowInv(f) && PlanInv(f) && JobInv(f, sent) && w0 < |f.workers| == |f'.workers|
    requires f'.accepted == f.accepted && f'.plan == f.plan
    requires forall w | 0 <= w < |f.workers| && w != w0 :: f'.workers[w] == f.workers[w]
    requires sent <= sent'
    requires WorkerPlanned(f', f'.workers[w0]) && WorkerSent(f', sent', f'.workers[w0])
    requires forall j | j in sent && GoesTo(f, j.ticket, w0) && BegunAt(f.workers[w0], j) :: BegunAt(f'.workers[w0], j)
    requires forall j | j in sent' - sent :: GoesTo(f, j.ticket, w0) && BegunAt(f'.workers[w0], j)
    ensures forall w | 0 <= w < |f'.workers| :: WorkerPlanned(f', f'.workers[w])
    ensures JobInv(f', sent')
  {
    forall w | 0 <= w < |f'.workers| ensures WorkerPlanned(f', f'.workers[w]) && WorkerSent(f', sent', f'.workers[w]) {
      if w != w0 {
        assert WorkerPlanned(f, f.workers[w]) && WorkerSent(f, sent, f.workers[w]);
        forall i | 0 <= i < |f.workers[w].started| ensures AllSent(f', sent', f'.workers[w], f.workers[w].started[i]) {
          assert AllSent(f, sent, f.workers[w], f.workers[w].started[i]);
        }
      }
    }
    forall j | j in sent' ensures Begun(f', j) {
      if j in sent {
        var w :| 0 <= w < |f.workers| && GoesTo(f, j.ticket, w) && BegunAt(f.workers[w], j);
        assert GoesTo(f', j.ticket, w) && BegunAt(f'.workers[w], j);
      } else {
        assert GoesTo(f', j.ticket, w0) && BegunAt(f'.workers[w0], j);
      }
    }
  }

  lemma BeginKeepsJobs(f: Flow, w: nat, sent: set<Job>)
    requires FlowInv(f) && PlanInv(f) && JobInv(f, sent)
    requires w < |f.workers| && f.workers[w].queue != [] && f.workers[w].busy.None?
    ensures PlanInv(BeginDelivery(f, w)) && JobInv(BeginDelivery(f, w), sent)
  {
    var f', wk := BeginDelivery(f, w), f.workers[w];
    var wk' := f'.workers[w];
    HeadIsNew(f, w);
    assert WorkerPlanned(f, wk) && WorkerSent(f, sent, wk);
    assert Planned(f, wk.queue[0]);
    forall i | 0 <= i < |wk'.started| ensures AllSent(f', sent, wk', wk'.started[i]) {
      if i < |wk.started| {
        assert AllSent(f, sent, wk, wk.started[i]);
      }
    }
    OneWorkerKeeps(f, f', sent, sent, w);
  }

  lemma FinishKeepsJobs(f: Flow, w: nat, sent: set<Job>)
    requires FlowInv(f) && PlanInv(f) && JobInv(f, sent)
    requires w < |f.workers| && f.workers[w].busy.Some? && IsDone(f.workers[w].busy.value)
    ensures PlanInv(FinishDelivery(f, w)) && JobInv(FinishDelivery(f, w), sent)
  {
    var f', wk := FinishDelivery(f, w), f.workers[w];
    assert WorkerPlanned(f, wk) && WorkerSent(f, sent, wk);
    forall i | 0 <= i < |wk.started| ensures AllSent(f', sent, f'.workers[w], wk.started[i]) {
      assert AllSent(f, sent, wk, wk.started[i]);
    }
    OneWorkerKeeps(f, f', sent, sent, w);
  }

  /** The rule a worker tries next was never sent before. */
  lemma NextRuleIsNew(f: Flow, w: nat, sent: set<Job>)
    requires FlowInv(f) && PlanInv(f) && JobInv(f, sent) && w < |f.workers| && f.workers[w].busy.Some?
    ensures var d := f.workers[w].busy.value;
            && Job(d.delivery.ticket, d.next) !in sent
            && d.delivery.ticket in f.workers[w].started && GoesTo(f, d.delivery.ticket, w)
  {
    var wk := f.workers[w];
    var d := wk.busy.value;
    assert WorkerPlanned(f, wk);
    LaneFacts(f, w);
    assert Lane(f, w)[|wk.started| - 1] == d.delivery.ticket;
    assert d.delivery.ticket in Lane(f, w);
  }

  lemma TryKeepsJobs(f: Flow, w: nat, sent: set<Job>)
    requires FlowInv(f) && PlanInv(f) && JobInv(f, sent)
    requires w < |f.workers| && f.workers[w].busy.Some? && !IsDone(f.workers[w].busy.value)
    ensures var d := f.workers[w].busy.value;
            var sent' := if d.delivery.rules[d.next].destination == Webhook
                         then sent + {Job(d.delivery.ticket, d.next)} else sent;
            PlanInv(Advance(f, w)) && JobInv(Advance(f, w), sent')
  {
    var f', wk := Advance(f, w), f.workers[w];
    var d, wk' := wk.busy.value, f'.workers[w];
    var sent' := if d.delivery.rules[d.next].destination == Webhook
                 then sent + {Job(d.delivery.ticket, d.next)} else sent;
    NextRuleIsNew(f, w, sent);
    assert WorkerPlanned(f, wk) && WorkerSent(f, sent, wk);
    forall i | 0 <= i < |wk.started| ensures AllSent(f', sent', wk', wk.started[i]) {
      assert AllSent(f, sent, wk, wk.started[i]);
    }
    OneWorkerKeeps(f, f', sent, sent', w);
  }

  // ---- shutdown ----

  ghost predicate ControlInv(f: Flow, c: Control, q: Queue) {
    && (c.dispatcher.DispatcherExited? ==> f.hand.Empty?)
    && (c.stage.AwaitDrain? || c.stage.StopWorker? || c.stage.StopRetries? ==> c.dispatcher.DispatcherExited?)
    && (forall w | w in c.exited && w < |f.workers| :: f.workers[w].busy.None?)
    && (c.stage.StopWorker? ==> forall w | 0 <= w < |f.workers| && w < c.stage.i :: w in c.exited)
    && (c.stage.StopRetries? ==> forall w | 0 <= w < |f.workers| :: w in c.exited)
    && (q.stopSignalled ==> c.stage.StopRetries?)
    && (q.exited ==> q.stopSignalled)
  }

  ghost predicate BusInv(b: Bus) {
    && FlowInv(b.flow)
    && PlanInv(b.flow)
    && JobInv(b.flow, b.dlq.sent.Keys)
    && ControlInv(b.flow, b.control, b.dlq)
    && Inv(b.dlq)
  }

  lemma {:induction false} NewLoad(ws: seq<Worker>)
    requires forall w | 0 <= w < |ws| :: ws[w] == Worker([], None, [])
    ensures Load(ws) == 0
  {
    if ws != [] { NewLoad(ws[..|ws| - 1]); }
  }

  lemma InitInv(numWorkers: int, maxRetries: int)
    ensures BusInv(EventBus.Init(numWorkers, maxRetries))
  {
    var b := EventBus.Init(numWorkers, maxRetries);
    NewLoad(b.flow.workers);
    forall w | 0 <= w < |b.flow.workers| ensures InOrder(b.flow, w) {
      assert Tickets(b.flow.workers[w].queue) == [];
      assert Routed(0, b.flow.unmatched) == [];
    }
    forall j ensures InOnePlace(b.dlq, None, j) { }
  }

  lemma PublishKeepsInv(b: Bus, s: Step)
    requires BusInv(b) && EventBus.Enabled(b, s) && (s.PublishBegin? || s.PublishSend? || s.PublishDrop?)
    ensures BusInv(EventBus.Do(b, s))
  {
    var f, f' := b.flow, EventBus.Do(b, s).flow;
    if s.PublishSend? { AcceptKeeps(f, s.event); } else { SameLanesKeepOrder(f, f'); }
    WorkersUntouchedKeep(f, f', b.dlq.sent.Keys);
  }

  lemma DispatchKeepsInv(b: Bus, s: Step)
    requires BusInv(b) && EventBus.Enabled(b, s) && (s.Receive? || s.Route?)
    ensures BusInv(EventBus.Do(b, s))
  {
    var f, f' := b.flow, EventBus.Do(b, s).flow;
    if s.Receive? { TakeInKeeps(f); } else { RouteToKeeps(f, s.rules); }
    WorkersUntouchedKeep(f, f', b.dlq.sent.Keys);
  }

  lemma HandOverKeepsInv(b: Bus)
    requires BusInv(b) && EventBus.Enabled(b, HandOver)
    ensures BusInv(EventBus.Do(b, HandOver))
  {
    var f := b.flow;
    var f', w := PutOnQueue(f), Target(f);
    PutOnQueueKeeps(f);
    assert WorkerPlanned(f, f.workers[w]) && WorkerSent(f, b.dlq.sent.Keys, f.workers[w]);
    forall i | 0 <= i < |f.workers[w].started|
      ensures AllSent(f', b.dlq.sent.Keys, f'.workers[w], f.workers[w].started[i])
    {
      assert AllSent(f, b.dlq.sent.Keys, f.workers[w], f.workers[w].started[i]);
    }
    OneWorkerKeeps(f, f', b.dlq.sent.Keys, b.dlq.sent.Keys, w);
  }

  lemma WorkKeepsInv(b: Bus, s: Step)
    requires BusInv(b) && EventBus.Enabled(b, s) && (s.Begin? || s.Finish?)
    ensures BusInv(EventBus.Do(b, s))
  {
    if s.Begin? {
      BeginDeliveryKeeps(b.flow, s.w);
      BeginKeepsJobs(b.flow, s.w, b.dlq.sent.Keys);
    } else {
      FinishDeliveryKeeps(b.flow, s.w);
      FinishKeepsJobs(b.flow, s.w, b.dlq.sent.Keys);
    }
  }

  lemma ReportKeepsInv(q: Queue, d: InFlight, success: bool)
    requires Inv(q) && !IsDone(d) && Job(d.delivery.ticket, d.next) !in q.sent
    ensures Inv(Report(q, d, success))
    ensures Report(q, d, success).sent.Keys ==
            q.sent.Keys
            + if d.delivery.rules[d.next].destination == Webhook then {Job(d.delivery.ticket, d.next)} else {}
    ensures Report(q, d, success).stopSignalled == q.stopSignalled
    ensures Report(q, d, success).exited ==> q.exited || q.stopSignalled
  {
    var j := Job(d.delivery.ticket, d.next);
    var step := if success then FirstSucceeded(j) else FirstFailed(j);
    StepKeepsInv(q, step);
    StepEffects(q, step);
  }

  /** A first attempt is for a delivery never sent before. */
  lemma TryKeepsInv(b: Bus, s: Step)
    requires BusInv(b) && EventBus.Enabled(b, s) && s.Try?
    ensures BusInv(EventBus.Do(b, s))
  {
    var d := b.flow.workers[s.w].busy.value;
    AdvanceKeeps(b.flow, s.w);
    NextRuleIsNew(b.flow, s.w, b.dlq.sent.Keys);
    TryKeepsJobs(b.flow, s.w, b.dlq.sent.Keys);
    ReportKeepsInv(b.dlq, d, s.success);
    assert ControlInv(Advance(b.flow, s.w), b.control, Report(b.dlq, d, s.success));
  }

  lemma RetryControl(b: Bus, step: QueueStep)
    requires ControlInv(b.flow, b.control, b.dlq) && AllTracked(b.dlq) && DeadLetters.Enabled(b.dlq, step)
             && IsRetryLoopStep(step)
    ensures ControlInv(b.flow, b.control, DeadLetters.Do(b.dlq, step))
    ensures DeadLetters.Do(b.dlq, step).sent.Keys == b.dlq.sent.Keys
  {
    StepEffects(b.dlq, step);
  }

  lemma RetryKeepsInv(b: Bus, s: Step)
    requires BusInv(b) && EventBus.Enabled(b, s) && s.Retry?
    ensures BusInv(EventBus.Do(b, s))
  {
    StepKeepsInv(b.dlq, s.dlqStep);
    RetryControl(b, s.dlqStep);
  }

  lemma SignalKeepsInv(b: Bus)
    requires BusInv(b) && EventBus.Enabled(b, SignalRetries)
    ensures BusInv(EventBus.Do(b, SignalRetries))
  {
    StepKeepsInv(b.dlq, SignalStop);
    var b' := EventBus.Do(b, SignalRetries);
    assert ControlInv(b'.flow, b'.control, b'.dlq);
  }

  predicate IsControlStep(s: Step) {
    || s.Subscribe? || s.Unsubscribe? || s.Stop? || s.DispatcherSeesStop? || s.DispatcherExit? || s.DispatcherGone?
    || s.Drained? || s.SignalWorker? || s.WorkerExit? || s.WorkerGone?
  }

  lemma ControlStepKeepsInv(b: Bus, s: Step)
    requires BusInv(b) && EventBus.Enabled(b, s) && IsControlStep(s)
    ensures BusInv(EventBus.Do(b, s))
  {
    var b' := EventBus.Do(b, s);
    assert b'.flow == b.flow && b'.dlq == b.dlq;
    assert ControlInv(b'.flow, b'.control, b'.dlq);
  }

  /** Every step of the bus keeps the invariant. */
  lemma BusStepKeepsInv(b: Bus, s: Step)
    requires BusInv(b) && EventBus.Enabled(b, s)
    ensures BusInv(EventBus.Do(b, s))
  {
    match s
    case PublishBegin => PublishKeepsInv(b, s);
    case PublishSend(_) => PublishKeepsInv(b, s);
    case PublishDrop => PublishKeepsInv(b, s);
    case Receive => DispatchKeepsInv(b, s);
    case Route(_) => DispatchKeepsInv(b, s);
    case HandOver => HandOverKeepsInv(b);
    case Begin(_) => WorkKeepsInv(b, s);
    case Finish(_) => WorkKeepsInv(b, s);
    case Try(_, _) => TryKeepsInv(b, s);
    case Retry(_) => RetryKeepsInv(b, s);
    case SignalRetries => SignalKeepsInv(b);
    case _ => ControlStepKeepsInv(b, s);
  }

  /** A run: from the initial state, one enabled step after another, in any interleaving. */
  ghost predicate IsRun(numWorkers: int, maxRetries: int, states: seq<Bus>, steps: seq<Step>) {
    && |states| == |steps| + 1
    && states[0] == EventBus.Init(numWorkers, maxRetries)
    && forall i | 0 <= i < |steps| ::
         EventBus.Enabled(states[i], steps[i]) && states[i + 1] == EventBus.Do(states[i], steps[i])
  }

  lemma {:induction false} RunKeepsInv(numWorkers: int, maxRetries: int, states: seq<Bus>, steps: seq<Step>, i: nat)
    requires IsRun(numWorkers, maxRetries, states, steps) && i < |states|
    ensures BusInv(states[i])
  {
    if i == 0 {
      InitInv(numWorkers, maxRetries);
    } else {
      RunKeepsInv(numWorkers, maxRetries, states, steps, i - 1);
      BusStepKeepsInv(states[i - 1], steps[i - 1]);
    }
  }

  // ---- the theorems ----

  /** The tickets of a list whose event has a key. */
  function ForKey(ts: seq<nat>, f: Flow, key: string): seq<nat> {
    if ts == [] then []
    else ForKey(ts[..|ts| - 1], f, key) + if HasKey(f, ts[|ts| - 1], key) then [ts[|ts| - 1]] else []
  }

  predicate HasKey(f: Flow, t: nat, key: string) {
    t < |f.accepted| && f.accepted[t].key == key
  }

  lemma {:induction false} ForKeyAppend(a: seq<nat>, b: seq<nat>, f: Flow, key: string)
    ensures ForKey(a + b, f, key) == ForKey(a, f, key) + ForKey(b, f, key)
  {
    if b == [] {
      assert a + b == a;
    } else {
      ForKeyAppend(a, b[..|b| - 1], f, key);
      assert (a + b)[..|a + b| - 1] == a + b[..|b| - 1];
    }
  }

  /** All events of a key go to one worker, so nothing of the key is lost by looking at that worker only. */
  lemma {:induction false} ForKeyInShare(ts: seq<nat>, f: Flow, key: string)
    requires |f.workers| > 0
    ensures ForKey(ForWorker(ts, f, WorkerOf(key, |f.workers|)), f, key) == ForKey(ts, f, key)
  {
    if ts != [] {
      var rest, t, w := ts[..|ts| - 1], ts[|ts| - 1], WorkerOf(key, |f.workers|);
      ForKeyInShare(rest, f, key);
      assert HasKey(f, t, key) ==> GoesTo(f, t, w);
      var r := ForWorker(rest, f, w);
      ForKeyPush(r, t, f, key);
      assert r + [] == r;
    }
  }

  lemma ForKeyPush(ts: seq<nat>, t: nat, f: Flow, key: string)
    ensures ForKey(ts + [t], f, key) == ForKey(ts, f, key) + if HasKey(f, t, key) then [t] else []
  {
    assert (ts + [t])[..|ts|] == ts;
  }

  function InHand(f: Flow): seq<nat> {
    match f.hand
    case Empty => []
    case Received(t) => [t]
    case Sending(d) => [d.ticket]
  }

  lemma {:induction false} RoutedTail(f: Flow, k: nat)
    requires Contiguous(f) && k <= |f.eventCh|
    ensures Routed(ReceivedCount(f) + k, f.unmatched) == Routed(Decided(f), f.unmatched) + InHand(f) + f.eventCh[..k]
  {
    if k > 0 {
      RoutedTail(f, k - 1);
      assert f.eventCh[..k] == f.eventCh[..k - 1] + [f.eventCh[k - 1]];
    } else {
      assert f.eventCh[..0] == [];
    }
  }

  /** For each key, what was begun, what is queued at its worker, what the dispatcher holds and what is in the
      channel spell out the accepted order of the key's events, minus those without a matching rule. */
  lemma KeyOrder(f: Flow, key: string)
    requires FlowInv(f)
    ensures var wk := f.workers[WorkerOf(key, |f.workers|)];
            ForKey(wk.started, f, key) + ForKey(Tickets(wk.queue), f, key) + ForKey(InHand(f), f, key)
            + ForKey(f.eventCh, f, key)
            == ForKey(Routed(|f.accepted|, f.unmatched), f, key)
  {
    LaneOfKey(f, key);
    RestOfKey(f, key);
  }

  lemma LaneOfKey(f: Flow, key: string)
    requires FlowInv(f)
    ensures var wk := f.workers[WorkerOf(key, |f.workers|)];
            ForKey(wk.started, f, key) + ForKey(Tickets(wk.queue), f, key)
            == ForKey(Routed(Decided(f), f.unmatched), f, key)
  {
    var w := WorkerOf(key, |f.workers|);
    assert InOrder(f, w);
    ForKeyAppend(f.workers[w].started, Tickets(f.workers[w].queue), f, key);
    ForKeyInShare(Routed(Decided(f), f.unmatched), f, key);
  }

  lemma RestOfKey(f: Flow, key: string)
    requires Contiguous(f)
    ensures ForKey(Routed(|f.accepted|, f.unmatched), f, key) ==
            ForKey(Routed(Decided(f), f.unmatched), f, key) + ForKey(InHand(f), f, key) + ForKey(f.eventCh, f, key)
  {
    var routed := Routed(Decided(f), f.unmatched);
    RoutedTail(f, |f.eventCh|);
    assert f.eventCh[..|f.eventCh|] == f.eventCh;
    ForKeyAppend(routed + InHand(f), f.eventCh, f, key);
    ForKeyAppend(routed, InHand(f), f, key);
  }

  /** An event accepted so far was dealt with: no rule matched it, or a worker finished it and every webhook
      among its rules was sent. */
  ghost predicate DealtWith(b: Bus, t: nat) {
    || t in b.flow.unmatched
    || exists w | 0 <= w < |b.flow.workers| ::
         && t in b.flow.workers[w].started && b.flow.workers[w].busy.None? && t in b.flow.plan
         && forall i | 0 <= i < |b.flow.plan[t]| :: b.flow.plan[t][i].destination == Webhook ==> Job(t, i) in b.dlq.sent
  }

  lemma BegunWhenIdle(f: Flow, t: nat)
    requires FlowInv(f) && f.drain == 0 && t < |f.accepted| && t !in f.unmatched
    ensures var w := WorkerOf(f.accepted[t].key, |f.workers|); t in f.workers[w].started && f.workers[w].busy.None?
  {
    var w := WorkerOf(f.accepted[t].key, |f.workers|);
    LoadZero(f.workers);
    RoutedHas(Decided(f), f.unmatched, t);
    ForWorkerElements(Routed(Decided(f), f.unmatched), f, w);
    assert InOrder(f, w);
    assert Tickets(f.workers[w].queue) == [];
    assert Lane(f, w) == f.workers[w].started;
  }

  lemma DealtWithWhenIdle(b: Bus, t: nat)
    requires BusInv(b) && b.flow.drain == 0 && t < |b.flow.accepted|
    ensures DealtWith(b, t)
  {
    var f := b.flow;
    if t !in f.unmatched {
      BegunWhenIdle(f, t);
      var wk := f.workers[WorkerOf(f.accepted[t].key, |f.workers|)];
      var i :| 0 <= i < |wk.started| && wk.started[i] == t;
      assert WorkerPlanned(f, wk) && WorkerSent(f, b.dlq.sent.Keys, wk);
      assert AllSent(f, b.dlq.sent.Keys, wk, wk.started[i]);
    }
  }

  /** The counter is never negative, and when it is zero nothing is on its way: every event accepted so far
      was dealt with. */
  lemma DrainedMeansDealtWith(b: Bus)
    requires BusInv(b)
    ensures b.flow.drain >= 0
    ensures b.flow.drain == 0 ==> forall t | 0 <= t < |b.flow.accepted| :: DealtWith(b, t)
  {
    if b.flow.drain == 0 {
      forall t | 0 <= t < |b.flow.accepted| ensures DealtWith(b, t) {
        DealtWithWhenIdle(b, t);
      }
    }
  }

  /** Once the retry loop is told to stop, no worker delivers any more, so no first attempt reaches the queue. */
  lemma NoReportAfterRetriesStop(b: Bus, w: nat, success: bool)
    requires BusInv(b) && b.dlq.stopSignalled
    ensures !EventBus.Enabled(b, Try(w, success)) && !EventBus.Enabled(b, Begin(w))
  {
  }

  /** In every state of every run: per key, deliveries began in accepted order; the drain counter counts the
      events on their way; at zero every accepted event was dealt with; each webhook delivery sent so far is in
      exactly one place and was sent at most `maxRetries` times. */
  lemma EveryRun(numWorkers: int, maxRetries: int, states: seq<Bus>, steps: seq<Step>, i: nat, key: string, j: Job)
    requires IsRun(numWorkers, maxRetries, states, steps) && i < |states|
    ensures var f := states[i].flow;
            && |f.workers| > 0
            && ForKey(f.workers[WorkerOf(key, |f.workers|)].started, f, key)
               <= ForKey(Routed(|f.accepted|, f.unmatched), f, key)
            && DrainExact(f)
            && (f.drain == 0 ==> forall t | 0 <= t < |f.accepted| :: DealtWith(states[i], t))
    ensures Places(states[i].dlq, j) == if j in states[i].dlq.sent then 1 else 0
    ensures Sends(states[i].dlq, j) <= states[i].dlq.maxRetries
  {
    RunKeepsInv(numWorkers, maxRetries, states, steps, i);
    var b := states[i];
    KeyOrder(b.flow, key);
    DrainedMeansDealtWith(b);
    assert OnePlace(b.dlq, None) && Bounded(b.dlq);
    assert InOnePlace(b.dlq, None, j);
  }
}
