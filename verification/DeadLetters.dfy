/** The dead-letter queue: bounded retries with capped exponential backoff, as a transition system. */
module DeadLetters {
  import opened Options
  import opened MachineWords

  /** One webhook delivery: the accepted event, by its place in the accepted order, and the index of the rule. */
  datatype Job = Job(ticket: nat, rule: nat)

  datatype Entry = Entry(job: Job, attempts: nat)

  const RetryCapacity := 1000

  /** `sent` counts the sends of each delivery so far, the first attempt included. */
  datatype Queue = Queue(
    maxRetries: nat,
    retryCh: seq<Entry>,
    retrying: Option<Entry>,
    succeeded: seq<Job>,
    dead: seq<Entry>,
    abandoned: seq<Entry>,
    sent: map<Job, nat>,
    stopSignalled: bool,
    exited: bool
  )

  function Init(maxRetries: int): Queue {
    Queue(if maxRetries <= 0 then 3 else maxRetries, [], None, [], [], [], map[], false, false)
  }

  /** Retried while attempts remain and the channel has room; otherwise written to the dead-letter directory. */
  function Enqueue(q: Queue, e: Entry): Queue {
    if e.attempts < q.maxRetries && |q.retryCh| < RetryCapacity
    then q.(retryCh := q.retryCh + [e])
    else q.(dead := q.dead + [e])
  }

  datatype QueueStep =
    | FirstSucceeded(job: Job)
    | FirstFailed(job: Job)
    | Take
    | RetrySucceeded
    | RetryFailed
    | SignalStop
    | Abandon
    | Exit

  predicate Enabled(q: Queue, step: QueueStep) {
    match step
    case FirstSucceeded(_) => true
    case FirstFailed(_) => true
    case Take => !q.exited && q.retrying.None? && q.retryCh != []
    case RetrySucceeded => q.retrying.Some?
    case RetryFailed => q.retrying.Some?
    case SignalStop => true
    case Abandon => q.stopSignalled && q.retrying.Some?
    case Exit => q.stopSignalled && q.retrying.None?
  }

  /** A first attempt is for a delivery not sent before; the bus guarantees it. */
  predicate IsFirst(q: Queue, step: QueueStep) {
    step.FirstSucceeded? || step.FirstFailed? ==> step.job !in q.sent
  }

  /** The queue once the entry being retried was sent again and is in hand. */
  function SentAgain(q: Queue): Queue
    requires q.retrying.Some?
  {
    q.(sent := q.sent[q.retrying.value.job := q.retrying.value.attempts + 1], retrying := None)
  }

  function Do(q: Queue, step: QueueStep): Queue
    requires Enabled(q, step)
  {
    match step
    case FirstSucceeded(j) => q.(sent := q.sent[j := 1], succeeded := q.succeeded + [j])
    case FirstFailed(j) => Enqueue(q.(sent := q.sent[j := 1]), Entry(j, 1))
    case Take => q.(retryCh := q.retryCh[1..], retrying := Some(q.retryCh[0]))
    case RetrySucceeded => SentAgain(q).(succeeded := SentAgain(q).succeeded + [q.retrying.value.job])
    case RetryFailed => Enqueue(SentAgain(q), Entry(q.retrying.value.job, q.retrying.value.attempts + 1))
    case SignalStop => q.(stopSignalled := true)
    case Abandon => q.(abandoned := q.abandoned + [q.retrying.value], retrying := None, exited := true)
    case Exit => q.(exited := true)
  }

  // ---- every delivery is in exactly one place ----

  function Count(es: seq<Entry>, j: Job): nat {
    if es == [] then 0 else Count(es[..|es| - 1], j) + if es[|es| - 1].job == j then 1 else 0
  }

  function CountDone(js: seq<Job>, j: Job): nat {
    if js == [] then 0 else CountDone(js[..|js| - 1], j) + if js[|js| - 1] == j then 1 else 0
  }

  /** How often a delivery occurs in the places it can be in after its first attempt. */
  function Places(q: Queue, j: Job): nat {
    CountDone(q.succeeded, j) + Count(q.dead, j) + Count(q.retryCh, j) + Count(q.abandoned, j)
    + if q.retrying.Some? && q.retrying.value.job == j then 1 else 0
  }

  /** An entry knows how often its delivery was sent. */
  predicate Tracked(q: Queue, e: Entry) {
    e.job in q.sent && q.sent[e.job] == e.attempts
  }

  ghost predicate Bounded(q: Queue) {
    && q.maxRetries >= 1
    && (forall j | j in q.sent :: 1 <= q.sent[j] <= q.maxRetries)
    && |q.retryCh| <= RetryCapacity
    && (q.exited ==> q.retrying.None?)
  }

  ghost predicate AllTracked(q: Queue) {
    && (forall i | 0 <= i < |q.retryCh| :: Tracked(q, q.retryCh[i]) && q.retryCh[i].attempts < q.maxRetries)
    && (q.retrying.Some? ==> Tracked(q, q.retrying.value) && q.retrying.value.attempts < q.maxRetries)
    && (forall i | 0 <= i < |q.dead| :: Tracked(q, q.dead[i]))
  }

  predicate InOnePlace(q: Queue, hand: Option<Job>, j: Job) {
    Places(q, j) + (if hand == Some(j) then 1 else 0) == if j in q.sent then 1 else 0
  }

  /** Each delivery sent so far is in exactly one place (a delivery `hand` may be between two places), and no
      other delivery is in any. */
  ghost predicate OnePlace(q: Queue, hand: Option<Job>) {
    forall j :: InOnePlace(q, hand, j)
  }

  ghost predicate InvBut(q: Queue, hand: Option<Job>) {
    Bounded(q) && AllTracked(q) && OnePlace(q, hand)
  }

  ghost predicate Inv(q: Queue) {
    InvBut(q, None)
  }

  lemma CountPush(es: seq<Entry>, e: Entry, j: Job)
    ensures Count(es + [e], j) == Count(es, j) + if e.job == j then 1 else 0
  {
    assert (es + [e])[..|es|] == es;
  }

  lemma CountDonePush(js: seq<Job>, d: Job, j: Job)
    ensures CountDone(js + [d], j) == CountDone(js, j) + if d == j then 1 else 0
  {
    assert (js + [d])[..|js|] == js;
  }

  lemma {:induction false} CountPop(es: seq<Entry>, j: Job)
    requires es != []
    ensures Count(es, j) == Count(es[1..], j) + if es[0].job == j then 1 else 0
  {
    if |es| > 1 {
      CountPop(es[..|es| - 1], j);
      assert es[..|es| - 1][1..] == es[1..][..|es| - 2];
    } else {
      assert es[..0] == [] && es[1..] == [];
    }
  }

  lemma {:induction false} CountMember(es: seq<Entry>, i: nat)
    requires i < |es|
    ensures Count(es, es[i].job) > 0
  {
    if i < |es| - 1 { CountMember(es[..|es| - 1], i); }
  }

  lemma RequeueKeepsPlace(q: Queue, e: Entry, j: Job)
    requires InOnePlace(q, Some(e.job), j)
    ensures InOnePlace(q.(retryCh := q.retryCh + [e]), None, j)
  {
    CountPush(q.retryCh, e, j);
  }

  lemma RequeueKeepsInv(q: Queue, e: Entry)
    requires InvBut(q, Some(e.job)) && Tracked(q, e) && e.attempts < q.maxRetries && |q.retryCh| < RetryCapacity
    ensures Inv(q.(retryCh := q.retryCh + [e]))
  {
    var q' := q.(retryCh := q.retryCh + [e]);
    forall j ensures InOnePlace(q', None, j) {
      RequeueKeepsPlace(q, e, j);
    }
    assert forall i | 0 <= i < |q.retryCh| :: Tracked(q', q.retryCh[i]);
    assert forall i | 0 <= i < |q.dead| :: Tracked(q, q.dead[i]);
  }

  lemma BuryKeepsPlace(q: Queue, e: Entry, j: Job)
    requires InOnePlace(q, Some(e.job), j)
    ensures InOnePlace(q.(dead := q.dead + [e]), None, j)
  {
    CountPush(q.dead, e, j);
  }

  lemma BuryKeepsInv(q: Queue, e: Entry)
    requires InvBut(q, Some(e.job)) && Tracked(q, e)
    ensures Inv(q.(dead := q.dead + [e]))
  {
    var q' := q.(dead := q.dead + [e]);
    forall j ensures InOnePlace(q', None, j) {
      BuryKeepsPlace(q, e, j);
    }
    assert forall i | 0 <= i < |q.dead| :: Tracked(q, q.dead[i]);
  }

  lemma EnqueueKeepsInv(q: Queue, e: Entry)
    requires InvBut(q, Some(e.job)) && Tracked(q, e)
    ensures Inv(Enqueue(q, e))
  {
    if e.attempts < q.maxRetries && |q.retryCh| < RetryCapacity {
      RequeueKeepsInv(q, e);
    } else {
      BuryKeepsInv(q, e);
    }
  }

  /** A delivery in hand is in no list, so counting one more send for it leaves every entry tracked. */
  lemma InHandIsNowhere(q: Queue, j: Job)
    requires OnePlace(q, Some(j))
    ensures forall i | 0 <= i < |q.retryCh| :: q.retryCh[i].job != j
    ensures forall i | 0 <= i < |q.dead| :: q.dead[i].job != j
    ensures q.retrying.Some? ==> q.retrying.value.job != j
  {
    assert InOnePlace(q, Some(j), j);
    forall i | 0 <= i < |q.retryCh| ensures q.retryCh[i].job != j { CountMember(q.retryCh, i); }
    forall i | 0 <= i < |q.dead| ensures q.dead[i].job != j { CountMember(q.dead, i); }
  }

  lemma FirstAttemptKeepsPlace(q: Queue, j: Job, k: Job)
    requires InOnePlace(q, None, k) && j !in q.sent
    ensures InOnePlace(q.(sent := q.sent[j := 1]), Some(j), k)
  {
  }

  lemma FirstAttemptKeepsInv(q: Queue, j: Job)
    requires Inv(q) && j !in q.sent
    ensures InvBut(q.(sent := q.sent[j := 1]), Some(j))
  {
    var q' := q.(sent := q.sent[j := 1]);
    forall k ensures InOnePlace(q', Some(j), k) {
      FirstAttemptKeepsPlace(q, j, k);
    }
    InHandIsNowhere(q', j);
  }

  lemma RetryKeepsPlace(q: Queue, k: Job)
    requires q.retrying.Some? && InOnePlace(q, None, k)
    ensures InOnePlace(SentAgain(q), Some(q.retrying.value.job), k)
  {
  }

  lemma RetryKeepsInv(q: Queue)
    requires Inv(q) && q.retrying.Some?
    ensures InvBut(SentAgain(q), Some(q.retrying.value.job))
  {
    var j := q.retrying.value.job;
    forall k ensures InOnePlace(SentAgain(q), Some(j), k) {
      RetryKeepsPlace(q, k);
    }
    InHandIsNowhere(SentAgain(q), j);
  }

  lemma SucceedKeepsPlace(q: Queue, d: Job, j: Job)
    requires InOnePlace(q, Some(d), j)
    ensures InOnePlace(q.(succeeded := q.succeeded + [d]), None, j)
  {
    CountDonePush(q.succeeded, d, j);
  }

  lemma SucceedKeepsInv(q: Queue, d: Job)
    requires InvBut(q, Some(d))
    ensures Inv(q.(succeeded := q.succeeded + [d]))
  {
    forall j ensures InOnePlace(q.(succeeded := q.succeeded + [d]), None, j) {
      SucceedKeepsPlace(q, d, j);
    }
  }

  lemma TakeKeepsPlace(q: Queue, j: Job)
    requires InOnePlace(q, None, j) && Enabled(q, Take)
    ensures InOnePlace(Do(q, Take), None, j)
  {
    CountPop(q.retryCh, j);
  }

  lemma TakeKeepsInv(q: Queue)
    requires Inv(q) && Enabled(q, Take)
    ensures Inv(Do(q, Take))
  {
    forall j ensures InOnePlace(Do(q, Take), None, j) {
      TakeKeepsPlace(q, j);
    }
  }

  lemma AbandonKeepsPlace(q: Queue, j: Job)
    requires InOnePlace(q, None, j) && Enabled(q, Abandon)
    ensures InOnePlace(Do(q, Abandon), None, j)
  {
    var e := q.retrying.value;
    CountPush(q.abandoned, e, j);
    assert Do(q, Abandon) == q.(abandoned := q.abandoned + [e], retrying := None, exited := true);
    assert Places(Do(q, Abandon), j) == Places(q, j);
  }

  lemma AbandonKeepsInv(q: Queue)
    requires Inv(q) && Enabled(q, Abandon)
    ensures Inv(Do(q, Abandon))
  {
    forall j ensures InOnePlace(Do(q, Abandon), None, j) {
      AbandonKeepsPlace(q, j);
    }
  }

  lemma FlagsKeepInv(q: Queue, signalled: bool, exited: bool)
    requires Inv(q) && (exited ==> q.retrying.None?)
    ensures Inv(q.(stopSignalled := signalled, exited := exited))
  {
    var q' := q.(stopSignalled := signalled, exited := exited);
    forall j ensures InOnePlace(q', None, j) {
      assert InOnePlace(q, None, j);
    }
  }

  lemma FirstKeepsInv(q: Queue, j: Job)
    requires Inv(q) && j !in q.sent
    ensures Inv(Do(q, FirstSucceeded(j))) && Inv(Do(q, FirstFailed(j)))
  {
    var mid := q.(sent := q.sent[j := 1]);
    FirstAttemptKeepsInv(q, j);
    SucceedKeepsInv(mid, j);
    EnqueueKeepsInv(mid, Entry(j, 1));
  }

  lemma RetrySucceededKeepsInv(q: Queue)
    requires Inv(q) && q.retrying.Some?
    ensures Inv(Do(q, RetrySucceeded))
  {
    RetryKeepsInv(q);
    SucceedKeepsInv(SentAgain(q), q.retrying.value.job);
  }

  lemma RetryFailedKeepsInv(q: Queue)
    requires Inv(q) && q.retrying.Some?
    ensures Inv(Do(q, RetryFailed))
  {
    RetryKeepsInv(q);
    EnqueueKeepsInv(SentAgain(q), Entry(q.retrying.value.job, q.retrying.value.attempts + 1));
  }

  /** Every step keeps the invariant. */
  lemma StepKeepsInv(q: Queue, step: QueueStep)
    requires Inv(q) && Enabled(q, step) && IsFirst(q, step)
    ensures Inv(Do(q, step))
  {
    match step
    case FirstSucceeded(j) => FirstKeepsInv(q, j);
    case FirstFailed(j) => FirstKeepsInv(q, j);
    case Take => TakeKeepsInv(q);
    case RetrySucceeded => RetrySucceededKeepsInv(q);
    case RetryFailed => RetryFailedKeepsInv(q);
    case SignalStop => FlagsKeepInv(q, true, q.exited);
    case Abandon => AbandonKeepsInv(q);
    case Exit => FlagsKeepInv(q, q.stopSignalled, true);
  }

  /** What a step adds to the deliveries sent, and when the loop's flags change. */
  lemma StepEffects(q: Queue, step: QueueStep)
    requires AllTracked(q) && Enabled(q, step)
    ensures Do(q, step).sent.Keys ==
            q.sent.Keys + if step.FirstSucceeded? || step.FirstFailed? then {step.job} else {}
    ensures Do(q, step).stopSignalled == (q.stopSignalled || step.SignalStop?)
    ensures Do(q, step).exited ==> q.exited || q.stopSignalled
  {
  }

  // ---- sends ----

  function Sends(q: Queue, j: Job): nat {
    if j in q.sent then q.sent[j] else 0
  }

  /** The delivery a step sends, if it sends one. */
  function SentBy(q: Queue, step: QueueStep): Option<Job> {
    match step
    case FirstSucceeded(j) => Some(j)
    case FirstFailed(j) => Some(j)
    case RetrySucceeded => if q.retrying.Some? then Some(q.retrying.value.job) else None
    case RetryFailed => if q.retrying.Some? then Some(q.retrying.value.job) else None
    case _ => None
  }

  lemma SendsStep(q: Queue, step: QueueStep, j: Job)
    requires AllTracked(q) && Enabled(q, step) && IsFirst(q, step)
    ensures Sends(Do(q, step), j) == Sends(q, j) + if SentBy(q, step) == Some(j) then 1 else 0
  {
  }

  /** The count of a delivery goes up by one exactly when it is sent; it is never sent more than `maxRetries`
      times, so a delivery that used them up is never retried. */
  lemma SendsAreCounted(q: Queue, step: QueueStep, j: Job)
    requires Inv(q) && Enabled(q, step) && IsFirst(q, step)
    ensures Sends(Do(q, step), j) == Sends(q, j) + if SentBy(q, step) == Some(j) then 1 else 0
    ensures Sends(Do(q, step), j) <= q.maxRetries
    ensures Sends(q, j) == q.maxRetries ==> SentBy(q, step) != Some(j)
  {
    SendsStep(q, step, j);
    var q' := Do(q, step);
    assert Bounded(q') by { StepKeepsInv(q, step); }
    assert q'.maxRetries == q.maxRetries;
  }

  // ---- where a failed delivery goes ----

  /** The delivery a step fails, if it fails one. */
  function FailedBy(q: Queue, step: QueueStep): Option<Job> {
    match step
    case FirstFailed(j) => Some(j)
    case RetryFailed => if q.retrying.Some? then Some(q.retrying.value.job) else None
    case _ => None
  }

  /** A delivery may be tried again: it was sent less often than allowed, and the channel has room. */
  predicate MayRetry(q: Queue, sends: nat) {
    sends < q.maxRetries && |q.retryCh| < RetryCapacity
  }

  /** A failed delivery goes to the end of the retry channel exactly when it may be tried again, and to the end of the
      dead letters otherwise; nothing else moves. */
  lemma FailedGoesOn(q: Queue, step: QueueStep, j: Job)
    requires Inv(q) && Enabled(q, step) && IsFirst(q, step) && FailedBy(q, step) == Some(j)
    ensures var (q', e) := (Do(q, step), Entry(j, Sends(q, j) + 1));
            && q'.succeeded == q.succeeded && q'.abandoned == q.abandoned
            && q'.retrying == (if step.RetryFailed? then None else q.retrying)
            && if MayRetry(q, Sends(q, j) + 1) then q'.retryCh == q.retryCh + [e] && q'.dead == q.dead
               else q'.dead == q.dead + [e] && q'.retryCh == q.retryCh
  {
  }

  /** The delivery a step gets through, if it does. */
  function SucceededBy(q: Queue, step: QueueStep): Option<Job> {
    match step
    case FirstSucceeded(j) => Some(j)
    case RetrySucceeded => if q.retrying.Some? then Some(q.retrying.value.job) else None
    case _ => None
  }

  ghost predicate Has(es: seq<Entry>, j: Job) {
    exists i | 0 <= i < |es| :: es[i].job == j
  }

  lemma HasPush(es: seq<Entry>, e: Entry, j: Job)
    ensures Has(es + [e], j) <==> Has(es, j) || e.job == j
  {
    if Has(es, j) {
      var i :| 0 <= i < |es| && es[i].job == j;
      assert (es + [e])[i].job == j;
    }
    if e.job == j {
      assert (es + [e])[|es|].job == j;
    }
  }

  /** A step makes a delivery dead exactly when it fails it and it may not be tried again; the dead stay dead. */
  lemma DiesExactlyWhenSpent(q: Queue, step: QueueStep, j: Job)
    requires Inv(q) && Enabled(q, step) && IsFirst(q, step)
    ensures Has(Do(q, step).dead, j)
       <==> Has(q.dead, j) || (FailedBy(q, step) == Some(j) && !MayRetry(q, Sends(q, j) + 1))
  {
    match FailedBy(q, step)
    case Some(d) =>
      FailedGoesOn(q, step, d);
      HasPush(q.dead, Entry(d, Sends(q, d) + 1), j);
    case None =>
  }

  /** A delivery is done exactly when some step got it through. */
  lemma DoneExactlyWhenThrough(q: Queue, step: QueueStep, j: Job)
    requires Enabled(q, step)
    ensures j in Do(q, step).succeeded <==> j in q.succeeded || SucceededBy(q, step) == Some(j)
  {
  }

  /** The retry loop takes entries in the order they were queued, and gives one up only when told to stop. */
  lemma RetriesInOrder(q: Queue, step: QueueStep)
    requires Enabled(q, step)
    ensures step.Take? ==> q.retryCh == [Do(q, step).retrying.value] + Do(q, step).retryCh
    ensures q.retrying.Some? && Do(q, step).retrying != q.retrying ==>
              SucceededBy(q, step).Some? || FailedBy(q, step).Some? || (step.Abandon? && q.stopSignalled)
    ensures Do(q, step).abandoned != q.abandoned ==>
              q.stopSignalled && Do(q, step).abandoned == q.abandoned + [q.retrying.value]
  {
  }

  // ---- backoff ----

  const Millisecond := 1_000_000
  const BackoffCap: Int64 := 16_000_000_000

  function Pow2(n: nat): (p: nat)
    ensures p >= 1
  {
    if n == 0 then 1 else 2 * Pow2(n - 1)
  }

  function Min(a: int, b: int): int {
    if a <= b then a else b
  }

  /** A word doubled `n` times, wrapping each time. */
  function Doubled(x: Int64, n: nat): Int64 {
    if n == 0 then x else WrapSigned(2 * Doubled(x, n - 1))
  }

  /** What the code waits before a retry, for a base of `ns` nanoseconds that may not fit a word. */
  function Delay(ns: int, attempts: nat): int {
    Min(WrapSigned(ns * Pow2(attempts)), BackoffCap)
  }

  /** The delay before a retry: the base in nanoseconds, doubled once per attempt, all in wrapping arithmetic, and then
      capped. */
  method Backoff(baseMs: Int64, attempts: nat) returns (delay: int)
    ensures delay == Delay(baseMs * Millisecond, attempts)
  {
    var backoff := WrapSigned(baseMs * Millisecond);
    ghost var base := backoff;
    for i := 0 to attempts
      invariant backoff == Doubled(base, i)
    {
      backoff := WrapSigned(2 * backoff);
    }
    DoubledIsWrapped(baseMs * Millisecond, attempts);
    delay := if backoff > BackoffCap then BackoffCap else backoff;
  }

  /** Wrapping the base and again at every doubling is the same as wrapping the product once. */
  lemma {:induction false} DoubledIsWrapped(x: int, n: nat)
    ensures Doubled(WrapSigned(x), n) == WrapSigned(x * Pow2(n))
  {
    if n > 0 {
      DoubledIsWrapped(x, n - 1);
      DoubleWrapped(x * Pow2(n - 1));
      DoubleProduct(x, Pow2(n - 1));
    }
  }

  lemma DoubleProduct(x: int, p: nat)
    ensures 2 * (x * p) == x * (2 * p)
  {
  }

  lemma DoubleWrapped(x: int)
    ensures WrapSigned(2 * WrapSigned(x)) == WrapSigned(2 * x)
  {
    var k := x / TwoTo64;
    assert x == k * TwoTo64 + ToUnsigned(x);
    if ToUnsigned(x) < TwoTo63 {
      assert 2 * x == 2 * WrapSigned(x) + (2 * k) * TwoTo64;
      SameModulo(2 * WrapSigned(x), 2 * k);
    } else {
      assert 2 * x == 2 * WrapSigned(x) + (2 * k + 2) * TwoTo64;
      SameModulo(2 * WrapSigned(x), 2 * k + 2);
    }
  }

  lemma SameModulo(x: int, k: int)
    ensures ToUnsigned(x + k * TwoTo64) == ToUnsigned(x)
  {
  }

  /** What was meant: the base doubled once per attempt, and at most 16 seconds. */
  ghost predicate RightDelay(ns: int, attempts: nat) {
    Delay(ns, attempts) == Min(ns * Pow2(attempts), BackoffCap)
  }

  predicate WrapsToCap(ns: int, attempts: nat) {
    WrapSigned(ns * Pow2(attempts)) >= BackoffCap
  }

  lemma SmallStays(p: int)
    requires 0 <= p < TwoTo63
    ensures WrapSigned(p) == p
  {
  }

  lemma PowerIsPositive(ns: int, a: nat)
    requires ns > 0
    ensures ns * Pow2(a) >= ns
  {
    assert ns * (Pow2(a) - 1) >= 0;
    assert ns * Pow2(a) == ns * (Pow2(a) - 1) + ns;
  }

  /** One delay is right exactly when the product fits a word or wraps to at least the cap. */
  lemma DelayRightExactly(ns: int, a: nat)
    requires ns > 0
    ensures RightDelay(ns, a) <==> ns * Pow2(a) < TwoTo63 || WrapsToCap(ns, a)
  {
    PowerIsPositive(ns, a);
    if ns * Pow2(a) < TwoTo63 {
      SmallStays(ns * Pow2(a));
    }
  }

  /** The first product that leaves the signed range wraps to a negative delay. */
  lemma {:induction false} FirstOverflow(ns: int, n: nat) returns (a: nat)
    requires 0 < ns < TwoTo63 && ns * Pow2(n) >= TwoTo63
    ensures 1 <= a <= n && !RightDelay(ns, a)
  {
    var p := ns * Pow2(n - 1);
    if p >= TwoTo63 {
      a := FirstOverflow(ns, n - 1);
    } else {
      a := n;
      DoubleProduct(ns, Pow2(n - 1));
      PowerIsPositive(ns, n - 1);
      WrapsNegative(2 * p);
      DelayRightExactly(ns, n);
    }
  }

  lemma WrapsNegative(p: int)
    requires TwoTo63 <= p < TwoTo64
    ensures WrapSigned(p) < 0
  {
  }

  lemma {:induction false} ProductGrows(ns: int, a: nat, b: nat)
    requires ns > 0 && a <= b
    ensures ns * Pow2(a) <= ns * Pow2(b)
    decreases b - a
  {
    if a < b {
      ProductGrows(ns, a, b - 1);
      DoubleProduct(ns, Pow2(b - 1));
      PowerIsPositive(ns, b - 1);
    }
  }

  /** When a base fits a word, every retry waits min(base * 2^attempts, 16 s) exactly if the largest product fits too. A
      base that does not fit has wrapped already, and every delay is right exactly if every product wraps to at least
      the cap. */
  lemma DelaysRightExactlyWithoutOverflow(baseMs: Int64, maxRetries: nat)
    requires baseMs > 0 && maxRetries >= 1
    ensures var ns := baseMs * Millisecond;
            (forall a | 1 <= a < maxRetries :: RightDelay(ns, a)) <==>
              if ns < TwoTo63 then ns * Pow2(maxRetries - 1) < TwoTo63
              else forall a | 1 <= a < maxRetries :: WrapsToCap(ns, a)
  {
    var ns := baseMs * Millisecond;
    if ns < TwoTo63 {
      BaseThatFits(ns, maxRetries);
    } else {
      BaseThatWraps(ns, maxRetries);
    }
  }

  lemma BaseThatFits(ns: int, maxRetries: nat)
    requires 0 < ns < TwoTo63 && maxRetries >= 1
    ensures (forall a | 1 <= a < maxRetries :: RightDelay(ns, a)) <==> ns * Pow2(maxRetries - 1) < TwoTo63
  {
    if ns * Pow2(maxRetries - 1) < TwoTo63 {
      forall a | 1 <= a < maxRetries ensures RightDelay(ns, a) {
        ProductGrows(ns, a, maxRetries - 1);
        DelayRightExactly(ns, a);
      }
    } else {
      var a := FirstOverflow(ns, maxRetries - 1);
    }
  }

  lemma BaseThatWraps(ns: int, maxRetries: nat)
    requires ns >= TwoTo63
    ensures (forall a | 1 <= a < maxRetries :: RightDelay(ns, a))
       <==> (forall a | 1 <= a < maxRetries :: WrapsToCap(ns, a))
  {
    forall a | 1 <= a < maxRetries ensures RightDelay(ns, a) <==> WrapsToCap(ns, a) {
      DelayRightExactly(ns, a);
      PowerIsPositive(ns, a);
    }
  }

  /** Some 584 years of base wrap to less than a millisecond: the first retry comes after 896768 ns instead of 16 s. */
  lemma WrappedBase()
    ensures Delay(18446744073710 * Millisecond, 1) == 896768 && !RightDelay(18446744073710 * Millisecond, 1)
  {
    assert Pow2(1) == 2;
    assert 18446744073710 * Millisecond * 2 == 896768 + 2 * TwoTo64;
    SameModulo(896768, 2);
  }

  lemma PowerOf16()
    ensures Pow2(16) == 0x1_0000
  {
    assert Pow2(4) == 16;
    PowerSplits(4, 4);
    PowerSplits(8, 8);
  }

  lemma PowerOf32()
    ensures Pow2(32) == 0x1_0000_0000
  {
    PowerOf16();
    PowerSplits(16, 16);
  }

  lemma PowerOf64()
    ensures Pow2(64) == TwoTo64
  {
    PowerOf32();
    PowerSplits(32, 32);
  }

  lemma {:induction false} PowerSplits(a: nat, b: nat)
    ensures Pow2(a + b) == Pow2(a) * Pow2(b)
  {
    if b > 0 {
      PowerSplits(a, b - 1);
      DoubleProduct(Pow2(a), Pow2(b - 1));
    }
  }

  lemma WrapsToZero(ns: int)
    ensures WrapSigned(ns * TwoTo64) == 0
  {
    SameModulo(0, ns);
  }

  /** No base survives 64 doublings: the delay is then zero. */
  lemma SixtyFourAttemptsAreTooMany(ns: int)
    requires ns > 0
    ensures Delay(ns, 64) == 0 && !RightDelay(ns, 64)
  {
    PowerOf64();
    WrapsToZero(ns);
    PowerIsPositive(ns, 64);
  }
}
