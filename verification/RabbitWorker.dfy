/** Batch workers on a RabbitMQ task queue: every result is published before its delivery is acknowledged.
    The broker and any number of workers, as one transition system. */
module RabbitWorker {
  import opened Sequences

  datatype Config = Config(batchSize: nat)

  /** Where a worker is in its batch. `Publishing` and `Failing` count the results published so far. */
  datatype Phase =
    | Collecting
    | Publishing(done: nat)
    | Acking
    | Failing(done: nat)
    | AckingFailed(done: nat)

  /** A worker's batch; its first `acked` deliveries are acknowledged. */
  datatype Worker = Worker(phase: Phase, batch: seq<nat>, acked: nat)

  datatype Published = Published(task: nat, ok: bool)

  datatype State = State(enqueued: nat, queue: seq<nat>, workers: seq<Worker>, results: seq<Published>, acked: seq<nat>)

  /** `Raise` is any exception in the service, the action submission, the publishing, the zip or the metric;
      `Crash` ends the connection and returns what is not acknowledged to the queue. */
  datatype Event =
    | Enqueue
    | Get(w: nat)
    | Start(w: nat)
    | PublishOk(w: nat)
    | AllPublished(w: nat)
    | Ack(w: nat)
    | BatchDone(w: nat)
    | Raise(w: nat)
    | PublishFailed(w: nat)
    | AckFailed(w: nat)
    | FailedDone(w: nat)
    | Crash(w: nat)

  const FRESH: Worker := Worker(Collecting, [], 0)

  function Initial(workers: nat): State {
    State(0, [], seq(workers, _ => FRESH), [], [])
  }

  predicate Enabled(cfg: Config, s: State, e: Event) {
    match e
    case Enqueue => true
    case Get(w) => w < |s.workers| && s.workers[w].phase == Collecting && |s.workers[w].batch| < cfg.batchSize && s.queue != []
    case Start(w) =>
      && w < |s.workers| && s.workers[w].phase == Collecting && s.workers[w].batch != []
      && (s.queue == [] || |s.workers[w].batch| >= cfg.batchSize)
    case PublishOk(w) => w < |s.workers| && s.workers[w].phase.Publishing? && s.workers[w].phase.done < |s.workers[w].batch|
    case AllPublished(w) => w < |s.workers| && s.workers[w].phase.Publishing? && s.workers[w].phase.done == |s.workers[w].batch|
    case Ack(w) => w < |s.workers| && s.workers[w].phase == Acking && s.workers[w].acked < |s.workers[w].batch|
    case BatchDone(w) => w < |s.workers| && s.workers[w].phase == Acking && s.workers[w].acked == |s.workers[w].batch|
    case Raise(w) => w < |s.workers| && (s.workers[w].phase.Publishing? || s.workers[w].phase == Acking)
    case PublishFailed(w) => w < |s.workers| && s.workers[w].phase.Failing? && s.workers[w].phase.done < |s.workers[w].batch|
    // acknowledging a delivery for the second time closes the channel, which is a crash
    case AckFailed(w) => w < |s.workers| && s.workers[w].phase.AckingFailed? && s.workers[w].phase.done == s.workers[w].acked
    case FailedDone(w) => w < |s.workers| && s.workers[w].phase.Failing? && s.workers[w].phase.done == |s.workers[w].batch|
    case Crash(w) => w < |s.workers|
  }

  /** What every reachable worker satisfies, whatever was published. */
  predicate Shaped(w: Worker) {
    && w.acked <= |w.batch|
    && match w.phase
       case Collecting => w.acked == 0
       case Publishing(done) => w.acked == 0 && done <= |w.batch|
       case Acking => true
       case Failing(done) => done <= w.acked
       case AckingFailed(done) => done <= w.acked && done < |w.batch|
  }

  predicate AllShaped(s: State) {
    forall i :: 0 <= i < |s.workers| ==> Shaped(s.workers[i])
  }

  /** The deliveries a worker has not acknowledged. */
  function Unacked(w: Worker): seq<nat> {
    if w.acked <= |w.batch| then w.batch[w.acked..] else []
  }

  function WithWorker(s: State, w: nat, worker: Worker): State
    requires w < |s.workers|
  {
    s.(workers := s.workers[w := worker])
  }

  function Acknowledged(s: State, w: nat, phase: Phase): State
    requires w < |s.workers| && s.workers[w].acked < |s.workers[w].batch|
  {
    var worker := s.workers[w];
    WithWorker(s, w, worker.(phase := phase, acked := worker.acked + 1)).(acked := s.acked + [worker.batch[worker.acked]])
  }

  function Next(cfg: Config, s: State, e: Event): State
    requires Enabled(cfg, s, e) && AllShaped(s)
  {
    match e
    case Enqueue => s.(enqueued := s.enqueued + 1, queue := s.queue + [s.enqueued])
    case Get(w) =>
      WithWorker(s, w, s.workers[w].(batch := s.workers[w].batch + [s.queue[0]])).(queue := s.queue[1..])
    case Start(w) => WithWorker(s, w, s.workers[w].(phase := Publishing(0)))
    case PublishOk(w) =>
      var worker := s.workers[w];
      WithWorker(s, w, worker.(phase := Publishing(worker.phase.done + 1)))
        .(results := s.results + [Published(worker.batch[worker.phase.done], true)])
    case AllPublished(w) => WithWorker(s, w, s.workers[w].(phase := Acking))
    case Ack(w) => Acknowledged(s, w, Acking)
    case BatchDone(w) => WithWorker(s, w, FRESH)
    case Raise(w) => WithWorker(s, w, s.workers[w].(phase := Failing(0)))
    case PublishFailed(w) =>
      var worker := s.workers[w];
      WithWorker(s, w, worker.(phase := AckingFailed(worker.phase.done)))
        .(results := s.results + [Published(worker.batch[worker.phase.done], false)])
    case AckFailed(w) => Acknowledged(s, w, Failing(s.workers[w].phase.done + 1))
    case FailedDone(w) => WithWorker(s, w, FRESH)
    case Crash(w) => WithWorker(s, w, FRESH).(queue := Unacked(s.workers[w]) + s.queue)
  }

  lemma ShapedStep(cfg: Config, s: State, e: Event)
    requires Enabled(cfg, s, e) && AllShaped(s)
    ensures AllShaped(Next(cfg, s, e))
  {
  }

  /** A disabled event does nothing. */
  function Apply(cfg: Config, s: State, e: Event): (r: State)
    requires AllShaped(s)
    ensures AllShaped(r)
  {
    if Enabled(cfg, s, e) then
      ShapedStep(cfg, s, e);
      Next(cfg, s, e)
    else s
  }

  function Run(cfg: Config, s: State, events: seq<Event>): (r: State)
    requires AllShaped(s)
    ensures AllShaped(r)
  {
    if events == [] then s else Apply(cfg, Run(cfg, s, events[..|events| - 1]), events[|events| - 1])
  }

  // ---------------------------------------------------------------- no task is lost

  type Count = nat -> int

  function Is(t: nat): Count {
    (u: nat) => if u == t then 1 else 0
  }

  /** How often a task occurs in a batch from position `i` on. */
  function CountFrom(batch: seq<nat>, i: nat, t: nat): nat
    decreases |batch| - i
  {
    if i >= |batch| then 0 else CountFrom(batch, i + 1, t) + (if batch[i] == t then 1 else 0)
  }

  lemma {:induction false} CountFromAppend(batch: seq<nat>, x: nat, i: nat, t: nat)
    requires i <= |batch|
    ensures CountFrom(batch + [x], i, t) == CountFrom(batch, i, t) + (if x == t then 1 else 0)
    decreases |batch| - i
  {
    if i < |batch| {
      CountFromAppend(batch, x, i + 1, t);
    }
  }

  lemma {:induction false} CountFromIsSum(batch: seq<nat>, i: nat, t: nat)
    requires i <= |batch|
    ensures SumOf(batch[i..], Is(t)) == CountFrom(batch, i, t)
    decreases |batch| - i
  {
    if i < |batch| {
      CountFromIsSum(batch, i + 1, t);
      SumConcat([batch[i]], batch[i + 1..], Is(t));
      SumAppend([], batch[i], Is(t));
      assert batch[i..] == [batch[i]] + batch[i + 1..] && [] + [batch[i]] == [batch[i]];
    }
  }

  lemma {:induction false} CountFromMembers(batch: seq<nat>, i: nat, t: nat)
    requires i <= |batch|
    ensures CountFrom(batch, i, t) == 0 <==> t !in batch[i..]
    decreases |batch| - i
  {
    if i < |batch| {
      CountFromMembers(batch, i + 1, t);
      assert batch[i..] == [batch[i]] + batch[i + 1..];
    }
  }

  function UnackedCount(t: nat): Worker -> int {
    (w: Worker) => CountFrom(w.batch, w.acked, t)
  }

  /** How often a task is on the queue, unacknowledged at a worker, or acknowledged. */
  function Places(s: State, t: nat): int {
    SumOf(s.queue, Is(t)) + SumOf(s.workers, UnackedCount(t)) + SumOf(s.acked, Is(t))
  }

  /** Every enqueued task is in exactly one of these places. */
  ghost predicate InOnePlace(s: State, t: nat) {
    Places(s, t) == if t < s.enqueued then 1 else 0
  }

  lemma WorkerUpdate(s: State, w: nat, worker: Worker, t: nat)
    requires w < |s.workers|
    ensures SumOf(s.workers[w := worker], UnackedCount(t))
      == SumOf(s.workers, UnackedCount(t)) - UnackedCount(t)(s.workers[w]) + UnackedCount(t)(worker)
  {
    SumUpdate(s.workers, w, worker, UnackedCount(t));
  }

  lemma SumFirst(ts: seq<nat>, f: Count)
    requires ts != []
    ensures SumOf(ts, f) == f(ts[0]) + SumOf(ts[1..], f)
  {
    SumRemove(ts, 0, f);
    assert RemoveAt(ts, 0) == ts[1..];
  }

  lemma PlacesOfGet(cfg: Config, s: State, w: nat, t: nat)
    requires Enabled(cfg, s, Get(w)) && AllShaped(s)
    ensures Places(Next(cfg, s, Get(w)), t) == Places(s, t)
  {
    var worker := s.workers[w];
    var after := worker.(batch := worker.batch + [s.queue[0]]);
    SumFirst(s.queue, Is(t));
    WorkerUpdate(s, w, after, t);
    CountFromAppend(worker.batch, s.queue[0], worker.acked, t);
  }

  lemma PlacesOfAck(s: State, w: nat, phase: Phase, t: nat)
    requires w < |s.workers| && s.workers[w].acked < |s.workers[w].batch|
    ensures Places(Acknowledged(s, w, phase), t) == Places(s, t)
  {
    var worker := s.workers[w];
    var after := worker.(phase := phase, acked := worker.acked + 1);
    WorkerUpdate(s, w, after, t);
    SumAppend(s.acked, worker.batch[worker.acked], Is(t));
  }

  /** A worker's place changes nothing as long as its unacknowledged deliveries stay. */
  lemma PlacesOfPhase(s: State, w: nat, worker: Worker, t: nat)
    requires w < |s.workers| && UnackedCount(t)(worker) == UnackedCount(t)(s.workers[w])
    ensures Places(WithWorker(s, w, worker), t) == Places(s, t)
  {
    WorkerUpdate(s, w, worker, t);
  }

  lemma PlacesOfCrash(cfg: Config, s: State, w: nat, t: nat)
    requires Enabled(cfg, s, Crash(w)) && AllShaped(s)
    ensures Places(Next(cfg, s, Crash(w)), t) == Places(s, t)
  {
    WorkerUpdate(s, w, FRESH, t);
    assert Shaped(s.workers[w]);
    CountFromIsSum(s.workers[w].batch, s.workers[w].acked, t);
    SumConcat(Unacked(s.workers[w]), s.queue, Is(t));
  }

  /** Publishing, changing phase and finishing a batch acknowledge nothing. */
  predicate KeepsDeliveries(e: Event) {
    e.Start? || e.PublishOk? || e.AllPublished? || e.BatchDone? || e.Raise? || e.PublishFailed? || e.FailedDone?
  }

  lemma PlacesOfQuiet(cfg: Config, s: State, e: Event, t: nat)
    requires Enabled(cfg, s, e) && AllShaped(s) && KeepsDeliveries(e)
    ensures Places(Next(cfg, s, e), t) == Places(s, t)
  {
    var s' := Next(cfg, s, e);
    assert Shaped(s.workers[e.w]);
    PlacesOfPhase(s, e.w, s'.workers[e.w], t);
    assert s'.workers == s.workers[e.w := s'.workers[e.w]];
  }

  lemma PlacesOfAckEvent(cfg: Config, s: State, w: nat, t: nat)
    requires Enabled(cfg, s, Ack(w)) && AllShaped(s)
    ensures Places(Next(cfg, s, Ack(w)), t) == Places(s, t)
  {
    PlacesOfAck(s, w, Acking, t);
  }

  lemma PlacesOfAckFailedEvent(cfg: Config, s: State, w: nat, t: nat)
    requires Enabled(cfg, s, AckFailed(w)) && AllShaped(s)
    ensures Places(Next(cfg, s, AckFailed(w)), t) == Places(s, t)
  {
    var next := Failing(s.workers[w].phase.done + 1);
    assert s.workers[w].acked < |s.workers[w].batch| by {
      assert Shaped(s.workers[w]);
    }
    PlacesOfAck(s, w, next, t);
    assert Next(cfg, s, AckFailed(w)) == Acknowledged(s, w, next);
  }

  lemma PlacesOfEnqueue(cfg: Config, s: State, t: nat)
    requires AllShaped(s)
    ensures Places(Next(cfg, s, Enqueue), t) == Places(s, t) + (if t == s.enqueued then 1 else 0)
  {
    SumAppend(s.queue, s.enqueued, Is(t));
  }

  lemma EnqueuedCount(cfg: Config, s: State, e: Event)
    requires Enabled(cfg, s, e) && AllShaped(s)
    ensures Next(cfg, s, e).enqueued == s.enqueued + (if e.Enqueue? then 1 else 0)
  {
  }

  lemma PlacesStep(cfg: Config, s: State, e: Event, t: nat)
    requires Enabled(cfg, s, e) && AllShaped(s)
    ensures Places(Next(cfg, s, e), t) == Places(s, t) + (if e.Enqueue? && t == s.enqueued then 1 else 0)
  {
    if KeepsDeliveries(e) {
      PlacesOfQuiet(cfg, s, e, t);
    } else {
      match e {
        case Enqueue => PlacesOfEnqueue(cfg, s, t);
        case Get(w) => PlacesOfGet(cfg, s, w, t);
        case Ack(w) => PlacesOfAckEvent(cfg, s, w, t);
        case AckFailed(w) => PlacesOfAckFailedEvent(cfg, s, w, t);
        case Crash(w) => PlacesOfCrash(cfg, s, w, t);
      }
    }
  }

  lemma OnePlaceStep(cfg: Config, s: State, e: Event, t: nat)
    requires Enabled(cfg, s, e) && AllShaped(s) && InOnePlace(s, t)
    ensures InOnePlace(Next(cfg, s, e), t)
  {
    PlacesStep(cfg, s, e, t);
    EnqueuedCount(cfg, s, e);
  }

  // ---------------------------------------------------------------- results before acknowledgements

  ghost predicate HasResult(results: seq<Published>, t: nat) {
    exists r :: r in results && r.task == t
  }

  /** How many of its deliveries, from the first, a worker knows to have a result. */
  function Covered(w: Worker): nat {
    match w.phase
    case Collecting => 0
    case Publishing(done) => done
    case Acking => |w.batch|
    case Failing(_) => w.acked
    case AckingFailed(done) => if done == w.acked then w.acked + 1 else w.acked
  }

  ghost predicate WorkerCovered(results: seq<Published>, w: Worker) {
    Covered(w) <= |w.batch| && forall i :: 0 <= i < Covered(w) ==> HasResult(results, w.batch[i])
  }

  ghost predicate ResultsFirst(s: State) {
    && (forall i :: 0 <= i < |s.workers| ==> WorkerCovered(s.results, s.workers[i]))
    && (forall i :: 0 <= i < |s.acked| ==> HasResult(s.results, s.acked[i]))
  }

  lemma MoreResults(results: seq<Published>, r: Published, t: nat)
    ensures HasResult(results, t) ==> HasResult(results + [r], t)
    ensures HasResult(results + [r], r.task)
  {
    if x :| x in results && x.task == t {
      assert x in results + [r];
    }
    assert r in results + [r];
  }

  /** Publishing keeps what is covered, and covers the next delivery. */
  lemma ResultsFirstOfPublish(s: State, w: nat, worker: Worker, r: Published)
    requires w < |s.workers| && ResultsFirst(s) && worker.batch == s.workers[w].batch
    requires Covered(worker) <= |worker.batch|
    requires forall i :: 0 <= i < Covered(worker) ==> i < Covered(s.workers[w]) || r.task == worker.batch[i]
    ensures ResultsFirst(WithWorker(s, w, worker).(results := s.results + [r]))
  {
    forall t: nat ensures HasResult(s.results, t) ==> HasResult(s.results + [r], t) {
      MoreResults(s.results, r, t);
    }
    MoreResults(s.results, r, r.task);
    var workers := s.workers[w := worker];
    forall i | 0 <= i < |workers| ensures WorkerCovered(s.results + [r], workers[i]) {
      assert WorkerCovered(s.results, s.workers[i]);
    }
  }

  lemma ResultsFirstStep(cfg: Config, s: State, e: Event)
    requires Enabled(cfg, s, e) && AllShaped(s) && ResultsFirst(s)
    ensures ResultsFirst(Next(cfg, s, e))
  {
    match e {
      case Enqueue =>
      case PublishOk(w) => ResultsFirstOfPublish(s, w, Next(cfg, s, e).workers[w], Published(s.workers[w].batch[s.workers[w].phase.done], true));
      case PublishFailed(w) =>
        ResultsFirstOfPublish(s, w, Next(cfg, s, e).workers[w], Published(s.workers[w].batch[s.workers[w].phase.done], false));
      case _ => ResultsFirstOfOthers(cfg, s, e);
    }
  }

  lemma ResultsFirstOfOthers(cfg: Config, s: State, e: Event)
    requires Enabled(cfg, s, e) && AllShaped(s) && ResultsFirst(s)
    requires !e.Enqueue? && !e.PublishOk? && !e.PublishFailed?
    ensures ResultsFirst(Next(cfg, s, e))
  {
    var s' := Next(cfg, s, e);
    assert Shaped(s.workers[e.w]) && WorkerCovered(s.results, s.workers[e.w]);
    assert WorkerCovered(s.results, s'.workers[e.w]);
    forall i | 0 <= i < |s'.workers| ensures WorkerCovered(s.results, s'.workers[i]) {
      assert WorkerCovered(s.results, s.workers[i]);
    }
  }

  // ---------------------------------------------------------------- every run

  ghost predicate Inv(s: State) {
    AllShaped(s) && ResultsFirst(s) && forall t: nat :: InOnePlace(s, t)
  }

  lemma InitialInv(workers: nat)
    ensures Inv(Initial(workers))
  {
    var s := Initial(workers);
    forall t: nat ensures InOnePlace(s, t) {
      SumZero(s.workers, UnackedCount(t));
    }
  }

  /** Whatever crashes and raises, results come before acknowledgements and no task gets lost. */
  lemma {:induction false} EveryRunKeepsInv(cfg: Config, workers: nat, events: seq<Event>)
    ensures Inv(Run(cfg, Initial(workers), events))
  {
    if events == [] {
      InitialInv(workers);
    } else {
      var n := |events| - 1;
      EveryRunKeepsInv(cfg, workers, events[..n]);
      var s := Run(cfg, Initial(workers), events[..n]);
      if Enabled(cfg, s, events[n]) {
        ResultsFirstStep(cfg, s, events[n]);
        forall t: nat ensures InOnePlace(Next(cfg, s, events[n]), t) {
          OnePlaceStep(cfg, s, events[n], t);
        }
      }
    }
  }

  /** Every enqueued task is on the queue, unacknowledged at a worker, or has a published result. */
  lemma NoTaskIsLost(cfg: Config, workers: nat, events: seq<Event>, t: nat)
    requires t < Run(cfg, Initial(workers), events).enqueued
    ensures var s := Run(cfg, Initial(workers), events);
      || t in s.queue
      || (exists w :: 0 <= w < |s.workers| && t in Unacked(s.workers[w]))
      || HasResult(s.results, t)
  {
    var s := Run(cfg, Initial(workers), events);
    EveryRunKeepsInv(cfg, workers, events);
    assert InOnePlace(s, t);
    if t in s.acked {
      var i :| 0 <= i < |s.acked| && s.acked[i] == t;
      assert HasResult(s.results, s.acked[i]);
    } else if t !in s.queue {
      NotIn(s.queue, t);
      NotIn(s.acked, t);
      if forall w :: 0 <= w < |s.workers| ==> t !in Unacked(s.workers[w]) {
        forall w | 0 <= w < |s.workers| ensures UnackedCount(t)(s.workers[w]) == 0 {
          assert Shaped(s.workers[w]);
          CountFromMembers(s.workers[w].batch, s.workers[w].acked, t);
        }
        SumZero(s.workers, UnackedCount(t));
      }
    }
  }

  lemma NotIn(ts: seq<nat>, t: nat)
    requires t !in ts
    ensures SumOf(ts, Is(t)) == 0
  {
    SumZero(ts, Is(t));
  }

  /** No delivery is acknowledged before a result for its task is published. */
  lemma AcknowledgedHasResult(cfg: Config, workers: nat, events: seq<Event>, t: nat)
    requires t in Run(cfg, Initial(workers), events).acked
    ensures HasResult(Run(cfg, Initial(workers), events).results, t)
  {
    var s := Run(cfg, Initial(workers), events);
    EveryRunKeepsInv(cfg, workers, events);
    var i :| 0 <= i < |s.acked| && s.acked[i] == t;
    assert HasResult(s.results, s.acked[i]);
  }

  // ---------------------------------------------------------------- how many results

  /** How many deliveries of its batch a worker has answered in this attempt. */
  function Done(w: Worker): nat {
    match w.phase
    case Collecting => 0
    case Publishing(done) => done
    case Acking => |w.batch|
    case Failing(done) => done
    case AckingFailed(done) => done + 1
  }

  function PendingCount(t: nat): Worker -> int {
    (w: Worker) => CountFrom(w.batch, Done(w), t)
  }

  function For(t: nat): Published -> int {
    (r: Published) => if r.task == t then 1 else 0
  }

  /** Results for a task, and places from which one will still come. */
  function Answers(s: State, t: nat): int {
    SumOf(s.queue, Is(t)) + SumOf(s.workers, PendingCount(t)) + SumOf(s.results, For(t))
  }

  /** What leaves every task to be answered once: a crash of a worker that has answered exactly what it has
      acknowledged, an exception before the first result of a batch, and every other event. */
  predicate Harmless(s: State, e: Event) {
    && (e.Crash? && e.w < |s.workers| ==> Done(s.workers[e.w]) == s.workers[e.w].acked)
    && (e.Raise? && e.w < |s.workers| ==> Done(s.workers[e.w]) == 0)
  }

  /** A worker acknowledges in step with its results, which a late exception ends. */
  predicate InStep(w: Worker) {
    match w.phase
    case Failing(done) => done == w.acked
    case AckingFailed(done) => done == w.acked
    case _ => true
  }

  predicate AllInStep(s: State) {
    forall i :: 0 <= i < |s.workers| ==> InStep(s.workers[i])
  }

  /** A task is still to be answered, or answered, once. */
  ghost predicate OneAnswer(s: State, t: nat) {
    Answers(s, t) == if t < s.enqueued then 1 else 0
  }

  ghost predicate Once(s: State) {
    AllInStep(s) && forall t: nat :: OneAnswer(s, t)
  }

  lemma PendingUpdate(s: State, w: nat, worker: Worker, t: nat)
    requires w < |s.workers|
    ensures SumOf(s.workers[w := worker], PendingCount(t))
      == SumOf(s.workers, PendingCount(t)) - PendingCount(t)(s.workers[w]) + PendingCount(t)(worker)
  {
    SumUpdate(s.workers, w, worker, PendingCount(t));
  }

  lemma AnswersOfGet(cfg: Config, s: State, w: nat, t: nat)
    requires Enabled(cfg, s, Get(w)) && AllShaped(s)
    ensures Answers(Next(cfg, s, Get(w)), t) == Answers(s, t)
  {
    var worker := s.workers[w];
    var after := worker.(batch := worker.batch + [s.queue[0]]);
    SumFirst(s.queue, Is(t));
    PendingUpdate(s, w, after, t);
    CountFromAppend(worker.batch, s.queue[0], 0, t);
  }

  /** Publishing the next pending delivery turns a pending answer into a result. */
  lemma AnswersOfPublish(s: State, w: nat, worker: Worker, r: Published, t: nat)
    requires w < |s.workers| && worker.batch == s.workers[w].batch && Done(s.workers[w]) < |worker.batch|
    requires Done(worker) == Done(s.workers[w]) + 1 && r.task == worker.batch[Done(s.workers[w])]
    ensures Answers(WithWorker(s, w, worker).(results := s.results + [r]), t) == Answers(s, t)
  {
    PendingUpdate(s, w, worker, t);
    SumAppend(s.results, r, For(t));
  }

  lemma AnswersOfOthers(s: State, w: nat, worker: Worker, acked: seq<nat>, t: nat)
    requires w < |s.workers| && PendingCount(t)(worker) == PendingCount(t)(s.workers[w])
    ensures Answers(WithWorker(s, w, worker).(acked := acked), t) == Answers(s, t)
  {
    PendingUpdate(s, w, worker, t);
  }

  lemma AnswersOfEnqueue(cfg: Config, s: State, t: nat)
    requires AllShaped(s)
    ensures Answers(Next(cfg, s, Enqueue), t) == Answers(s, t) + (if t == s.enqueued then 1 else 0)
  {
    SumAppend(s.queue, s.enqueued, Is(t));
  }

  lemma AnswersOfPublishOk(cfg: Config, s: State, w: nat, t: nat)
    requires Enabled(cfg, s, PublishOk(w)) && AllShaped(s)
    ensures Answers(Next(cfg, s, PublishOk(w)), t) == Answers(s, t)
  {
    var worker := s.workers[w];
    AnswersOfPublish(s, w, Next(cfg, s, PublishOk(w)).workers[w], Published(worker.batch[worker.phase.done], true), t);
  }

  lemma AnswersOfPublishFailed(cfg: Config, s: State, w: nat, t: nat)
    requires Enabled(cfg, s, PublishFailed(w)) && AllShaped(s)
    ensures Answers(Next(cfg, s, PublishFailed(w)), t) == Answers(s, t)
  {
    var worker := s.workers[w];
    AnswersOfPublish(s, w, Next(cfg, s, PublishFailed(w)).workers[w], Published(worker.batch[worker.phase.done], false), t);
  }

  /** Earlier positions only add occurrences, and the first of them adds one of its own. */
  lemma {:induction false} CountFromEarlier(batch: seq<nat>, i: nat, j: nat, t: nat)
    requires i <= j <= |batch|
    ensures CountFrom(batch, i, t) >= CountFrom(batch, j, t)
    ensures i < j && t == batch[i] ==> CountFrom(batch, i, t) > CountFrom(batch, j, t)
    decreases j - i
  {
    if i < j {
      CountFromEarlier(batch, i + 1, j, t);
    }
  }

  lemma AnswersOfCrash(cfg: Config, s: State, w: nat, t: nat)
    requires Enabled(cfg, s, Crash(w)) && AllShaped(s)
    ensures var worker := s.workers[w];
      Answers(Next(cfg, s, Crash(w)), t)
      == Answers(s, t) + CountFrom(worker.batch, worker.acked, t) - CountFrom(worker.batch, Done(worker), t)
  {
    assert Shaped(s.workers[w]);
    PendingUpdate(s, w, FRESH, t);
    CountFromIsSum(s.workers[w].batch, s.workers[w].acked, t);
    SumConcat(Unacked(s.workers[w]), s.queue, Is(t));
  }

  lemma AnswersOfRaise(cfg: Config, s: State, w: nat, t: nat)
    requires Enabled(cfg, s, Raise(w)) && AllShaped(s)
    ensures var worker := s.workers[w];
      Answers(Next(cfg, s, Raise(w)), t)
      == Answers(s, t) + CountFrom(worker.batch, 0, t) - CountFrom(worker.batch, Done(worker), t)
  {
    PendingUpdate(s, w, s.workers[w].(phase := Failing(0)), t);
  }

  lemma HarmlessStep(cfg: Config, s: State, e: Event, t: nat)
    requires Enabled(cfg, s, e) && AllShaped(s) && AllInStep(s) && Harmless(s, e)
    ensures Answers(Next(cfg, s, e), t) == Answers(s, t) + (if e.Enqueue? && t == s.enqueued then 1 else 0)
  {
    match e {
      case Enqueue => AnswersOfEnqueue(cfg, s, t);
      case Get(w) => AnswersOfGet(cfg, s, w, t);
      case PublishOk(w) => AnswersOfPublishOk(cfg, s, w, t);
      case PublishFailed(w) => AnswersOfPublishFailed(cfg, s, w, t);
      case Crash(w) => AnswersOfCrash(cfg, s, w, t);
      case Raise(w) => AnswersOfRaise(cfg, s, w, t);
      case _ => QuietStep(cfg, s, e, t);
    }
  }

  lemma QuietStep(cfg: Config, s: State, e: Event, t: nat)
    requires Enabled(cfg, s, e) && AllShaped(s) && AllInStep(s)
    requires e.Start? || e.AllPublished? || e.Ack? || e.BatchDone? || e.AckFailed? || e.FailedDone?
    ensures Answers(Next(cfg, s, e), t) == Answers(s, t)
  {
    var s' := Next(cfg, s, e);
    assert Shaped(s.workers[e.w]) && InStep(s.workers[e.w]);
    AnswersOfOthers(s, e.w, s'.workers[e.w], s'.acked, t);
    assert s' == WithWorker(s, e.w, s'.workers[e.w]).(acked := s'.acked);
  }

  lemma InStepStep(cfg: Config, s: State, e: Event)
    requires Enabled(cfg, s, e) && AllShaped(s) && Harmless(s, e) && AllInStep(s)
    ensures AllInStep(Next(cfg, s, e))
  {
    if e.Raise? {
      assert Shaped(s.workers[e.w]);
    }
  }

  lemma HarmlessKeepsOnce(cfg: Config, s: State, e: Event)
    requires Enabled(cfg, s, e) && AllShaped(s) && Harmless(s, e) && Once(s)
    ensures Once(Next(cfg, s, e))
  {
    InStepStep(cfg, s, e);
    EnqueuedCount(cfg, s, e);
    forall t: nat ensures OneAnswer(Next(cfg, s, e), t) {
      assert OneAnswer(s, t);
      HarmlessStep(cfg, s, e, t);
    }
  }

  /** Any other event makes some task due for one answer too many. */
  lemma HarmEndsOnce(cfg: Config, s: State, e: Event) returns (t: nat)
    requires Enabled(cfg, s, e) && AllShaped(s) && !Harmless(s, e) && Once(s)
    ensures !OneAnswer(Next(cfg, s, e), t)
  {
    var worker := s.workers[e.w];
    assert Shaped(worker) && InStep(worker);
    EnqueuedCount(cfg, s, e);
    if e.Crash? {
      t := worker.batch[worker.acked];
      CountFromEarlier(worker.batch, worker.acked, Done(worker), t);
      AnswersOfCrash(cfg, s, e.w, t);
    } else {
      t := worker.batch[0];
      CountFromEarlier(worker.batch, 0, Done(worker), t);
      AnswersOfRaise(cfg, s, e.w, t);
    }
    assert OneAnswer(s, t);
  }

  /** Exactly the harmless events leave every task to be answered once. */
  lemma OnceExactlyIfHarmless(cfg: Config, s: State, e: Event)
    requires Enabled(cfg, s, e) && AllShaped(s) && Once(s)
    ensures Once(Next(cfg, s, e)) <==> Harmless(s, e)
  {
    if Harmless(s, e) {
      HarmlessKeepsOnce(cfg, s, e);
    } else {
      var t := HarmEndsOnce(cfg, s, e);
    }
  }

  /** Every event of the run that happens is harmless where it happens. */
  predicate HarmlessRun(cfg: Config, s: State, events: seq<Event>)
    requires AllShaped(s)
  {
    if events == [] then true
    else
      var n := |events| - 1;
      var before := Run(cfg, s, events[..n]);
      HarmlessRun(cfg, s, events[..n]) && (Enabled(cfg, before, events[n]) ==> Harmless(before, events[n]))
  }

  lemma InitialOnce(workers: nat)
    ensures Once(Initial(workers))
  {
    var s0 := Initial(workers);
    forall t: nat ensures OneAnswer(s0, t) {
      SumZero(s0.workers, PendingCount(t));
    }
  }

  /** Every state of the run leaves each task to be answered once. */
  ghost predicate OnceThroughout(cfg: Config, s: State, events: seq<Event>)
    requires AllShaped(s)
  {
    if events == [] then Once(s)
    else OnceThroughout(cfg, s, events[..|events| - 1]) && Once(Run(cfg, s, events))
  }

  /** Every state of a run leaves each task to be answered once if and only if the run is harmless. */
  lemma {:induction false} OnceThroughoutIffHarmless(cfg: Config, workers: nat, events: seq<Event>)
    ensures OnceThroughout(cfg, Initial(workers), events) <==> HarmlessRun(cfg, Initial(workers), events)
    ensures HarmlessRun(cfg, Initial(workers), events) ==> Once(Run(cfg, Initial(workers), events))
  {
    InitialOnce(workers);
    if events != [] {
      var n := |events| - 1;
      OnceThroughoutIffHarmless(cfg, workers, events[..n]);
      LastStateIsOnce(cfg, Initial(workers), events[..n]);
      var s := Run(cfg, Initial(workers), events[..n]);
      if Once(s) && Enabled(cfg, s, events[n]) {
        OnceExactlyIfHarmless(cfg, s, events[n]);
      }
    }
  }

  lemma LastStateIsOnce(cfg: Config, s: State, events: seq<Event>)
    requires AllShaped(s)
    ensures OnceThroughout(cfg, s, events) ==> Once(Run(cfg, s, events))
  {
  }

  /** In a harmless run no task gets two results, and once the queue and the workers are empty every task has
      exactly one. */
  lemma HarmlessRunsAnswerOnce(cfg: Config, workers: nat, events: seq<Event>, t: nat)
    requires HarmlessRun(cfg, Initial(workers), events)
    ensures var s := Run(cfg, Initial(workers), events);
      && 0 <= SumOf(s.results, For(t)) <= 1
      && (t < s.enqueued && s.queue == [] && (forall w :: 0 <= w < |s.workers| ==> s.workers[w] == FRESH)
          ==> SumOf(s.results, For(t)) == 1)
  {
    var s := Run(cfg, Initial(workers), events);
    OnceThroughoutIffHarmless(cfg, workers, events);
    assert OneAnswer(s, t);
    SumNonNegative(s.queue, Is(t));
    SumNonNegative(s.results, For(t));
    SumNonNegative(s.workers, PendingCount(t));
    if forall w :: 0 <= w < |s.workers| ==> s.workers[w] == FRESH {
      SumZero(s.workers, PendingCount(t));
    }
  }

  // ---------------------------------------------------------------- where a second result comes from

  lemma RunAppend(cfg: Config, s: State, events: seq<Event>, e: Event)
    requires AllShaped(s)
    ensures Run(cfg, s, events + [e]) == Apply(cfg, Run(cfg, s, events), e)
  {
    assert (events + [e])[..|events|] == events;
  }

  /** An exception after the first result of a batch publishes a failure for a task already reported as done. */
  lemma LateExceptionAnswersTwice(cfg: Config, s: State, w: nat)
    requires AllShaped(s) && w < |s.workers| && s.workers[w].phase.Publishing? && s.workers[w].phase.done > 0
    requires forall i :: 0 <= i < s.workers[w].phase.done ==> Published(s.workers[w].batch[i], true) in s.results
    ensures var s' := Run(cfg, s, [Raise(w), PublishFailed(w)]);
      var t := s.workers[w].batch[0];
      Published(t, true) in s'.results && Published(t, false) in s'.results
  {
    RunAppend(cfg, s, [], Raise(w));
    RunAppend(cfg, s, [Raise(w)], PublishFailed(w));
    assert [] + [Raise(w)] == [Raise(w)] && [Raise(w)] + [PublishFailed(w)] == [Raise(w), PublishFailed(w)];
    assert Shaped(s.workers[w]);
    var s1 := Apply(cfg, s, Raise(w));
    var s2 := Apply(cfg, s1, PublishFailed(w));
    assert s2.results == s.results + [Published(s.workers[w].batch[0], false)];
    assert s2.results[|s.results|] == Published(s.workers[w].batch[0], false);
  }

  /** Nothing was ever taken from the queue. */
  predicate Untouched(s: State) {
    s.results == [] && forall w :: 0 <= w < |s.workers| ==> s.workers[w] == FRESH
  }

  lemma UntouchedStep(cfg: Config, s: State, e: Event)
    requires AllShaped(s) && Untouched(s) && (cfg.batchSize == 0 || s.workers == [])
    ensures Untouched(Apply(cfg, s, e)) && |Apply(cfg, s, e).workers| == |s.workers|
  {
  }

  lemma {:induction false} NothingIsTaken(cfg: Config, workers: nat, events: seq<Event>)
    requires cfg.batchSize == 0 || workers == 0
    ensures Untouched(Run(cfg, Initial(workers), events)) && |Run(cfg, Initial(workers), events).workers| == workers
  {
    if events != [] {
      var n := |events| - 1;
      NothingIsTaken(cfg, workers, events[..n]);
      UntouchedStep(cfg, Run(cfg, Initial(workers), events[..n]), events[n]);
    }
  }

  /** Some run leads here. */
  ghost predicate Reachable(cfg: Config, workers: nat, s: State) {
    exists events :: Run(cfg, Initial(workers), events) == s
  }

  lemma ReachNext(cfg: Config, workers: nat, s: State, e: Event)
    requires Reachable(cfg, workers, s) && AllShaped(s)
    ensures Reachable(cfg, workers, Apply(cfg, s, e))
  {
    var events :| Run(cfg, Initial(workers), events) == s;
    RunAppend(cfg, Initial(workers), events, e);
  }

  /** The first worker has published the result of its first task. */
  lemma FirstResultOut(cfg: Config, workers: nat) returns (s: State)
    requires cfg.batchSize > 0 && workers > 0
    ensures Reachable(cfg, workers, s) && AllShaped(s) && |s.workers| == workers
    ensures s.workers[0] == Worker(Publishing(1), [0], 0) && s.results == [Published(0, true)]
  {
    var s0 := Initial(workers);
    assert Run(cfg, s0, []) == s0;
    var s1 := Apply(cfg, s0, Enqueue);
    ReachNext(cfg, workers, s0, Enqueue);
    assert s1.queue == [0];
    var s2 := Apply(cfg, s1, Get(0));
    ReachNext(cfg, workers, s1, Get(0));
    assert s2.workers[0] == Worker(Collecting, [0], 0) && s2.queue == [];
    var s3 := Apply(cfg, s2, Start(0));
    ReachNext(cfg, workers, s2, Start(0));
    s := Apply(cfg, s3, PublishOk(0));
    ReachNext(cfg, workers, s3, PublishOk(0));
  }

  /** The exception, the failed result: two results for one task. */
  lemma SecondResultOut(cfg: Config, workers: nat) returns (s: State)
    requires cfg.batchSize > 0 && workers > 0
    ensures Reachable(cfg, workers, s) && s.results == [Published(0, true), Published(0, false)]
  {
    var s1 := FirstResultOut(cfg, workers);
    var s2 := Apply(cfg, s1, Raise(0));
    ReachNext(cfg, workers, s1, Raise(0));
    s := Apply(cfg, s2, PublishFailed(0));
    ReachNext(cfg, workers, s2, PublishFailed(0));
    assert s.results == [Published(0, true)] + [Published(0, false)];
  }

  /** A run with two results for one task exists exactly when workers take anything from the queue at all. */
  lemma SecondResultIsPossible(cfg: Config, workers: nat)
    ensures (exists s, t: nat :: Reachable(cfg, workers, s) && SumOf(s.results, For(t)) >= 2)
      <==> cfg.batchSize > 0 && workers > 0
  {
    if s, t: nat :| Reachable(cfg, workers, s) && SumOf(s.results, For(t)) >= 2 {
      var events :| Run(cfg, Initial(workers), events) == s;
      if cfg.batchSize == 0 || workers == 0 {
        NothingIsTaken(cfg, workers, events);
      }
    }
    if cfg.batchSize > 0 && workers > 0 {
      var s := SecondResultOut(cfg, workers);
      SumAppend([Published(0, true)], Published(0, false), For(0));
      SumAppend([], Published(0, true), For(0));
      assert [] + [Published(0, true)] == [Published(0, true)];
      assert [Published(0, true)] + [Published(0, false)] == s.results;
      assert SumOf(s.results, For(0)) == 2;
    }
  }
}
