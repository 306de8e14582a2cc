/** The worker pool over the moderation queue, as a transition system over its awaits: retries with
    backoff, dead letters, closing, draining and cancellation. */
module QueueWorker {
  import opened Sequences
  import opened ModerationQueue

  datatype Config = Config(maxSize: nat, maxAttempts: nat, backoff: bool)

  /** Where a worker is suspended. */
  datatype Phase =
    | Idle
    | Handling(task: Task)
    | Backoff(task: Task)
    | Putting(task: Task)
    | Stopped

  /** `offered` holds producers' tasks waiting for room; the other sequences are where tasks end up. */
  datatype State = State(
    q: Queue,
    published: nat,
    offered: seq<Task>,
    workers: seq<Phase>,
    stopping: bool,
    succeeded: seq<Task>,
    dropped: seq<Task>,
    cancelled: seq<Task>,
    lost: seq<Task>,
    withdrawn: seq<Task>)

  datatype Event =
    | Offer(priority: int, attempts: nat)
    | Admit(i: nat)
    | Withdraw(i: nat)
    | Consume(w: nat, i: nat)
    | Succeed(w: nat)
    | Fail(w: nat)
    | HandlerCancels(w: nat)
    | Wake(w: nat)
    | Republish(w: nat)
    | Close
    | Stop
    | CancelWorker(w: nat)

  function Initial(workers: nat): State {
    State(EMPTY, 0, [], seq(workers, _ => Idle), false, [], [], [], [], [])
  }

  predicate Holds(p: Phase) {
    p.Handling? || p.Backoff? || p.Putting?
  }

  /** Whether an event can happen in a state. */
  predicate Enabled(cfg: Config, s: State, e: Event) {
    match e
    case Offer(_, _) => !s.q.closed
    case Admit(i) => i < |s.offered| && !Full(s.q, cfg.maxSize)
    case Withdraw(i) => i < |s.offered|
    case Consume(w, i) => w < |s.workers| && s.workers[w] == Idle && !s.stopping && IsLeast(s.q.items, i)
    case Succeed(w) => w < |s.workers| && s.workers[w].Handling?
    case Fail(w) => w < |s.workers| && s.workers[w].Handling?
    case HandlerCancels(w) => w < |s.workers| && s.workers[w].Handling?
    case Wake(w) => w < |s.workers| && s.workers[w].Backoff?
    case Republish(w) => w < |s.workers| && s.workers[w].Putting? && !Full(s.q, cfg.maxSize)
    case Close => true
    case Stop => s.q.closed
    case CancelWorker(w) => w < |s.workers| && s.stopping && s.workers[w] != Stopped
  }

  function AtWorker(s: State, w: nat, q: Queue, p: Phase): State
    requires w < |s.workers|
  {
    s.(q := q, workers := s.workers[w := p])
  }

  /** The outcome of a failed handling: another attempt unless they are used up or the queue is closed. */
  function Failed(cfg: Config, s: State, w: nat): State
    requires w < |s.workers| && s.workers[w].Handling?
  {
    var attempted := s.workers[w].task.(attempts := s.workers[w].task.attempts + 1);
    if attempted.attempts < cfg.maxAttempts && !s.q.closed then
      if cfg.backoff then AtWorker(s, w, s.q, Backoff(attempted))
      else AtWorker(s, w, Numbered(s.q), Putting(attempted.(sequence := s.q.sequence)))
    else AtWorker(s, w, Done(Buried(s.q, attempted)), Idle)
  }

  /** After the backoff, publishing raises when the queue was closed meanwhile. */
  function Woken(s: State, w: nat): State
    requires w < |s.workers| && s.workers[w].Backoff?
  {
    var t := s.workers[w].task;
    if s.q.closed then AtWorker(s, w, Done(s.q), Idle).(dropped := s.dropped + [t])
    else AtWorker(s, w, Numbered(s.q), Putting(t.(sequence := s.q.sequence)))
  }

  function Next(cfg: Config, s: State, e: Event): State
    requires Enabled(cfg, s, e)
  {
    match e
    case Offer(priority, attempts) =>
      s.(q := Numbered(s.q), published := s.published + 1,
         offered := s.offered + [Task(s.published, priority, attempts, attempts, 0, s.q.sequence)])
    case Admit(i) => s.(q := PutItem(s.q, s.offered[i]), offered := RemoveAt(s.offered, i))
    case Withdraw(i) => s.(offered := RemoveAt(s.offered, i), withdrawn := s.withdrawn + [s.offered[i]])
    case Consume(w, i) =>
      var t := s.q.items[i];
      AtWorker(s, w, TakeItem(s.q, i), Handling(t.(handled := t.handled + 1)))
    case Succeed(w) => AtWorker(s, w, Done(s.q), Idle).(succeeded := s.succeeded + [s.workers[w].task])
    case Fail(w) => Failed(cfg, s, w)
    case HandlerCancels(w) => AtWorker(s, w, Done(s.q), Stopped).(lost := s.lost + [s.workers[w].task])
    case Wake(w) => Woken(s, w)
    case Republish(w) => AtWorker(s, w, Done(PutItem(s.q, s.workers[w].task)), Idle)
    case Close => s.(q := s.q.(closed := true))
    case Stop => s.(stopping := true)
    case CancelWorker(w) =>
      if Holds(s.workers[w])
      then AtWorker(s, w, Done(s.q), Stopped).(cancelled := s.cancelled + [s.workers[w].task])
      else AtWorker(s, w, s.q, Stopped)
  }

  /** A disabled event does nothing: a closed queue refuses an offer, a full one keeps its producer waiting. */
  function Apply(cfg: Config, s: State, e: Event): State {
    if Enabled(cfg, s, e) then Next(cfg, s, e) else s
  }

  function Run(cfg: Config, s: State, events: seq<Event>): State {
    if events == [] then s else Apply(cfg, Run(cfg, s, events[..|events| - 1]), events[|events| - 1])
  }

  // ---------------------------------------------------------------- weights

  /** A quantity of a task; every count below is the sum of one over the places tasks can be in. */
  type Weight = Task -> int

  function HeldWeight(p: Phase, f: Weight): int {
    if Holds(p) then f(p.task) else 0
  }

  function Held(f: Weight): Phase -> int {
    (p: Phase) => HeldWeight(p, f)
  }

  function InPut(f: Weight): Phase -> int {
    (p: Phase) => if p.Putting? then f(p.task) else 0
  }

  /** Tasks the pool still has to deal with: queued ones and those a worker holds. */
  function Live(s: State, f: Weight): int {
    SumOf(s.q.items, f) + SumOf(s.workers, Held(f))
  }

  function Settled(s: State, f: Weight): int {
    SumOf(s.succeeded, f) + SumOf(s.q.dead, f) + SumOf(s.dropped, f) + SumOf(s.cancelled, f)
    + SumOf(s.lost, f) + SumOf(s.withdrawn, f)
  }

  /** What an event adds to the live weight. */
  function Moved(cfg: Config, s: State, e: Event, f: Weight): int
    requires Enabled(cfg, s, e)
  {
    match e
    case Admit(i) => f(s.offered[i])
    case Consume(w, i) => f(s.q.items[i].(handled := s.q.items[i].handled + 1)) - f(s.q.items[i])
    case Republish(w) => 0
    case Succeed(w) => WorkerChange(cfg, s, e, w, f)
    case Fail(w) => WorkerChange(cfg, s, e, w, f)
    case HandlerCancels(w) => WorkerChange(cfg, s, e, w, f)
    case Wake(w) => WorkerChange(cfg, s, e, w, f)
    case CancelWorker(w) => WorkerChange(cfg, s, e, w, f)
    case _ => 0
  }

  function WorkerChange(cfg: Config, s: State, e: Event, w: nat, f: Weight): int
    requires Enabled(cfg, s, e) && w < |s.workers| == |Next(cfg, s, e).workers|
  {
    HeldWeight(Next(cfg, s, e).workers[w], f) - HeldWeight(s.workers[w], f)
  }

  lemma HeldUpdate(s: State, s': State, w: nat, f: Weight)
    requires w < |s.workers| == |s'.workers| && s'.workers == s.workers[w := s'.workers[w]]
    ensures SumOf(s'.workers, Held(f)) == SumOf(s.workers, Held(f)) - HeldWeight(s.workers[w], f) + HeldWeight(s'.workers[w], f)
  {
    SumUpdate(s.workers, w, s'.workers[w], Held(f));
  }

  lemma LiveOfWorker(cfg: Config, s: State, e: Event, w: nat, f: Weight)
    requires Enabled(cfg, s, e)
    requires e == Succeed(w) || e == Fail(w) || e == HandlerCancels(w) || e == Wake(w) || e == CancelWorker(w)
    ensures Live(Next(cfg, s, e), f) == Live(s, f) + Moved(cfg, s, e, f)
  {
    HeldUpdate(s, Next(cfg, s, e), w, f);
  }

  lemma LiveStep(cfg: Config, s: State, e: Event, f: Weight)
    requires Enabled(cfg, s, e)
    ensures Live(Next(cfg, s, e), f) == Live(s, f) + Moved(cfg, s, e, f)
  {
    match e {
      case Admit(i) => SumAppend(s.q.items, s.offered[i], f);
      case Consume(w, i) => SumRemove(s.q.items, i, f); HeldUpdate(s, Next(cfg, s, e), w, f);
      case Republish(w) => SumAppend(s.q.items, s.workers[w].task, f); HeldUpdate(s, Next(cfg, s, e), w, f);
      case Succeed(w) => LiveOfWorker(cfg, s, e, w, f);
      case Fail(w) => LiveOfWorker(cfg, s, e, w, f);
      case HandlerCancels(w) => LiveOfWorker(cfg, s, e, w, f);
      case Wake(w) => LiveOfWorker(cfg, s, e, w, f);
      case CancelWorker(w) => LiveOfWorker(cfg, s, e, w, f);
      case _ =>
    }
  }

  // ---------------------------------------------------------------- the unfinished count

  function One(): Weight {
    (t: Task) => 1
  }

  /** The count that `join` waits for is the number of queued and held tasks. */
  ghost predicate CountsUnfinished(s: State) {
    s.q.unfinished == Live(s, One())
  }

  lemma UnfinishedStep(cfg: Config, s: State, e: Event)
    requires Enabled(cfg, s, e) && CountsUnfinished(s)
    ensures CountsUnfinished(Next(cfg, s, e))
  {
    LiveStep(cfg, s, e, One());
    assert forall p :: HeldWeight(p, One()) == if Holds(p) then 1 else 0;
  }

  lemma {:induction false} SumOfOnes(ts: seq<Task>, n: nat)
    requires n <= |ts|
    ensures SumTo(ts, One(), n) == n
  {
    if n > 0 {
      SumOfOnes(ts, n - 1);
    }
  }

  /** `join` can return only when nothing is queued, handled, waiting for its backoff or for room. */
  lemma JoinMeansIdle(s: State)
    requires CountsUnfinished(s) && s.q.unfinished <= 0
    ensures s.q.items == [] && forall w :: 0 <= w < |s.workers| ==> !Holds(s.workers[w])
  {
    SumOfOnes(s.q.items, |s.q.items|);
    SumNonNegative(s.workers, Held(One()));
    forall w | 0 <= w < |s.workers| ensures !Holds(s.workers[w]) {
      assert Held(One())(s.workers[w]) == HeldWeight(s.workers[w], One()) <= 0;
    }
  }

  // ---------------------------------------------------------------- conservation

  function IdIs(id: nat): Weight {
    (t: Task) => if t.id == id then 1 else 0
  }

  function Everywhere(s: State, f: Weight): int {
    SumOf(s.offered, f) + Live(s, f) + Settled(s, f)
  }

  /** Every published task is in one place: waiting for room, queued, held by a worker, succeeded,
      dead-lettered, dropped, cancelled, lost with its worker, or withdrawn by its producer. */
  ghost predicate InOnePlace(s: State, id: nat) {
    Everywhere(s, IdIs(id)) == if id < s.published then 1 else 0
  }

  lemma OutsideStep(cfg: Config, s: State, e: Event, id: nat)
    requires Enabled(cfg, s, e) && (e.Offer? || e.Admit? || e.Withdraw?)
    ensures var s', f := Next(cfg, s, e), IdIs(id);
      SumOf(s'.offered, f) + Settled(s', f)
      == SumOf(s.offered, f) + Settled(s, f) - Moved(cfg, s, e, f) + (if e.Offer? && s.published == id then 1 else 0)
  {
    var f := IdIs(id);
    match e {
      case Offer(priority, attempts) => SumAppend(s.offered, Task(s.published, priority, attempts, attempts, 0, s.q.sequence), f);
      case Admit(i) => SumRemove(s.offered, i, f);
      case Withdraw(i) => SumRemove(s.offered, i, f); SumAppend(s.withdrawn, s.offered[i], f);
    }
  }

  lemma SettledStep(cfg: Config, s: State, e: Event, id: nat)
    requires Enabled(cfg, s, e) && !(e.Offer? || e.Admit? || e.Withdraw?)
    ensures var s', f := Next(cfg, s, e), IdIs(id);
      s'.offered == s.offered && Settled(s', f) == Settled(s, f) - Moved(cfg, s, e, f)
  {
    match e {
      case Succeed(w) => SumAppend(s.succeeded, s.workers[w].task, IdIs(id));
      case Fail(w) => SettledOfFail(cfg, s, w, id);
      case HandlerCancels(w) => SumAppend(s.lost, s.workers[w].task, IdIs(id));
      case Wake(w) => SettledOfWake(cfg, s, w, id);
      case CancelWorker(w) => SettledOfCancel(cfg, s, w, id);
      case _ =>
    }
  }

  lemma SettledOfFail(cfg: Config, s: State, w: nat, id: nat)
    requires w < |s.workers| && s.workers[w].Handling?
    ensures var s', f := Failed(cfg, s, w), IdIs(id);
      Settled(s', f) == Settled(s, f) - HeldWeight(s'.workers[w], f) + HeldWeight(s.workers[w], f)
  {
    var attempted := s.workers[w].task.(attempts := s.workers[w].task.attempts + 1);
    if attempted.attempts < cfg.maxAttempts && !s.q.closed {
      assert Failed(cfg, s, w).workers[w].task.id == attempted.id;
    } else {
      SumAppend(s.q.dead, attempted, IdIs(id));
      assert Failed(cfg, s, w).q.dead == s.q.dead + [attempted];
    }
  }

  lemma SettledOfWake(cfg: Config, s: State, w: nat, id: nat)
    requires w < |s.workers| && s.workers[w].Backoff?
    ensures var s', f := Woken(s, w), IdIs(id);
      Settled(s', f) == Settled(s, f) - HeldWeight(s'.workers[w], f) + HeldWeight(s.workers[w], f)
  {
    SumAppend(s.dropped, s.workers[w].task, IdIs(id));
  }

  lemma SettledOfCancel(cfg: Config, s: State, w: nat, id: nat)
    requires Enabled(cfg, s, CancelWorker(w))
    ensures var s', f := Next(cfg, s, CancelWorker(w)), IdIs(id);
      Settled(s', f) == Settled(s, f) - HeldWeight(s'.workers[w], f) + HeldWeight(s.workers[w], f)
  {
    if Holds(s.workers[w]) {
      SumAppend(s.cancelled, s.workers[w].task, IdIs(id));
    }
  }

  lemma ConservationStep(cfg: Config, s: State, e: Event, id: nat)
    requires Enabled(cfg, s, e) && InOnePlace(s, id)
    ensures InOnePlace(Next(cfg, s, e), id)
  {
    LiveStep(cfg, s, e, IdIs(id));
    if e.Offer? || e.Admit? || e.Withdraw? {
      OutsideStep(cfg, s, e, id);
    } else {
      SettledStep(cfg, s, e, id);
    }
  }

  // ---------------------------------------------------------------- places in line

  function SequenceIs(k: nat): Weight {
    (t: Task) => if t.sequence == k then 1 else 0
  }

  /** The tasks that are in line, or about to be, under a sequence number. */
  function InLine(s: State, k: nat): int {
    SumOf(s.offered, SequenceIs(k)) + SumOf(s.q.items, SequenceIs(k)) + SumOf(s.workers, InPut(SequenceIs(k)))
  }

  ghost predicate UniqueInLine(s: State, k: nat) {
    InLine(s, k) <= if k < s.q.sequence then 1 else 0
  }

  function PutWeight(p: Phase, f: Weight): int {
    if p.Putting? then f(p.task) else 0
  }

  lemma PutUpdate(s: State, s': State, w: nat, f: Weight)
    requires w < |s.workers| == |s'.workers| && s'.workers == s.workers[w := s'.workers[w]]
    ensures SumOf(s'.workers, InPut(f)) == SumOf(s.workers, InPut(f)) - PutWeight(s.workers[w], f) + PutWeight(s'.workers[w], f)
  {
    SumUpdate(s.workers, w, s'.workers[w], InPut(f));
  }

  lemma InLineOfWorker(cfg: Config, s: State, e: Event, w: nat, k: nat)
    requires Enabled(cfg, s, e) && UniqueInLine(s, k)
    requires e == Succeed(w) || e == Fail(w) || e == HandlerCancels(w) || e == Wake(w) || e == CancelWorker(w)
    ensures UniqueInLine(Next(cfg, s, e), k)
  {
    PutUpdate(s, Next(cfg, s, e), w, SequenceIs(k));
    SumNonNegative(s.workers, InPut(SequenceIs(k)));
  }

  lemma UniqueStep(cfg: Config, s: State, e: Event, k: nat)
    requires Enabled(cfg, s, e) && UniqueInLine(s, k)
    ensures UniqueInLine(Next(cfg, s, e), k)
  {
    var s', f := Next(cfg, s, e), SequenceIs(k);
    match e {
      case Offer(priority, attempts) => SumAppend(s.offered, Task(s.published, priority, attempts, attempts, 0, s.q.sequence), f);
      case Admit(i) => SumRemove(s.offered, i, f); SumAppend(s.q.items, s.offered[i], f);
      case Withdraw(i) => SumRemove(s.offered, i, f);
      case Consume(w, i) => SumRemove(s.q.items, i, f); PutUpdate(s, s', w, f);
      case Republish(w) => SumAppend(s.q.items, s.workers[w].task, f); PutUpdate(s, s', w, f);
      case Succeed(w) => InLineOfWorker(cfg, s, e, w, k);
      case Fail(w) => InLineOfWorker(cfg, s, e, w, k);
      case HandlerCancels(w) => InLineOfWorker(cfg, s, e, w, k);
      case Wake(w) => InLineOfWorker(cfg, s, e, w, k);
      case CancelWorker(w) => InLineOfWorker(cfg, s, e, w, k);
      case _ =>
    }
  }

  /** The heap never has to compare two tasks: no two queued tasks tie on priority and sequence, so one of
      any two is strictly first and the consumed one is the unique least. */
  lemma HeapOrderIsStrict(s: State, i: nat, j: nat)
    requires forall k :: UniqueInLine(s, k)
    requires i < j < |s.q.items|
    ensures Before(s.q.items[i], s.q.items[j]) || Before(s.q.items[j], s.q.items[i])
  {
    if s.q.items[i].sequence == s.q.items[j].sequence {
      var k := s.q.items[i].sequence;
      assert UniqueInLine(s, k);
      SumOfTwo(s.q.items, i, j, SequenceIs(k));
      SumNonNegative(s.offered, SequenceIs(k));
      SumNonNegative(s.workers, InPut(SequenceIs(k)));
    }
  }

  // ---------------------------------------------------------------- attempts

  /** A task between handlings: its attempts are those it came with plus one per handling, and it only comes
      back while attempts remain. */
  predicate Waiting(cfg: Config, t: Task) {
    t.attempts == t.first + t.handled && (t.handled > 0 ==> t.attempts < cfg.maxAttempts)
  }

  predicate InHand(cfg: Config, t: Task) {
    t.handled > 0 && t.attempts == t.first + t.handled - 1 && (t.handled > 1 ==> t.attempts < cfg.maxAttempts)
  }

  /** A dead letter: every attempt was used, or the queue was closed when it failed. */
  predicate DeadOk(cfg: Config, closed: bool, t: Task) {
    && t.handled > 0 && t.attempts == t.first + t.handled
    && (t.handled > 1 ==> t.attempts - 1 < cfg.maxAttempts)
    && (t.attempts >= cfg.maxAttempts || closed)
  }

  predicate PhaseOk(cfg: Config, p: Phase) {
    match p
    case Handling(t) => InHand(cfg, t)
    case Backoff(t) => Waiting(cfg, t) && t.handled > 0 && cfg.backoff
    case Putting(t) => Waiting(cfg, t) && t.handled > 0
    case _ => true
  }

  ghost predicate AttemptsOk(cfg: Config, s: State) {
    && (forall t :: t in s.offered ==> Waiting(cfg, t))
    && (forall t :: t in s.q.items ==> Waiting(cfg, t))
    && (forall p :: p in s.workers ==> PhaseOk(cfg, p))
  }

  ghost predicate OutcomesOk(cfg: Config, s: State) {
    && (forall t :: t in s.succeeded ==> InHand(cfg, t))
    && (forall t :: t in s.q.dead ==> DeadOk(cfg, s.q.closed, t))
    && (forall t :: t in s.dropped ==> Waiting(cfg, t) && t.handled > 0 && s.q.closed && cfg.backoff)
    && (forall t :: t in s.cancelled ==> (Waiting(cfg, t) || InHand(cfg, t)) && s.stopping)
    && (forall t :: t in s.lost ==> InHand(cfg, t))
    && (forall t :: t in s.withdrawn ==> Waiting(cfg, t))
  }

  ghost predicate AllWaiting(cfg: Config, ts: seq<Task>) {
    forall t :: t in ts ==> Waiting(cfg, t)
  }

  lemma WaitingWithout(cfg: Config, ts: seq<Task>, i: nat)
    requires i < |ts| && AllWaiting(cfg, ts)
    ensures AllWaiting(cfg, RemoveAt(ts, i)) && Waiting(cfg, ts[i])
  {
    assert ts[i] in ts;
  }

  /** A step of one worker keeps the attempts when it keeps those of its own task. */
  lemma AttemptsOfWorker(cfg: Config, s: State, s': State, w: nat)
    requires AttemptsOk(cfg, s) && s'.offered == s.offered && AllWaiting(cfg, s'.q.items)
    requires w < |s.workers| == |s'.workers| && s'.workers == s.workers[w := s'.workers[w]] && PhaseOk(cfg, s'.workers[w])
    ensures AttemptsOk(cfg, s')
  {
    forall p | p in s'.workers ensures PhaseOk(cfg, p) {
      var v :| 0 <= v < |s'.workers| && s'.workers[v] == p;
      assert v == w || p == s.workers[v];
      assert v != w ==> p in s.workers;
    }
  }

  predicate OfWorker(e: Event, w: nat) {
    || e == Succeed(w) || e == Fail(w) || e == HandlerCancels(w) || e == Wake(w) || e == Republish(w) || e == CancelWorker(w)
  }

  lemma PhaseAfter(cfg: Config, s: State, e: Event, w: nat)
    requires Enabled(cfg, s, e) && OfWorker(e, w) && PhaseOk(cfg, s.workers[w])
    ensures PhaseOk(cfg, Next(cfg, s, e).workers[w])
  {
  }

  lemma ItemsAfter(cfg: Config, s: State, e: Event, w: nat)
    requires Enabled(cfg, s, e) && OfWorker(e, w) && PhaseOk(cfg, s.workers[w]) && AllWaiting(cfg, s.q.items)
    ensures AllWaiting(cfg, Next(cfg, s, e).q.items) && Next(cfg, s, e).offered == s.offered
    ensures |Next(cfg, s, e).workers| == |s.workers| && Next(cfg, s, e).workers == s.workers[w := Next(cfg, s, e).workers[w]]
  {
  }

  lemma AttemptsOfEvent(cfg: Config, s: State, e: Event, w: nat)
    requires Enabled(cfg, s, e) && OfWorker(e, w) && AttemptsOk(cfg, s)
    ensures AttemptsOk(cfg, Next(cfg, s, e))
  {
    assert s.workers[w] in s.workers;
    ItemsAfter(cfg, s, e, w);
    PhaseAfter(cfg, s, e, w);
    AttemptsOfWorker(cfg, s, Next(cfg, s, e), w);
  }

  lemma AttemptsStep(cfg: Config, s: State, e: Event)
    requires Enabled(cfg, s, e) && AttemptsOk(cfg, s)
    ensures AttemptsOk(cfg, Next(cfg, s, e))
  {
    match e {
      case Admit(i) => WaitingWithout(cfg, s.offered, i);
      case Withdraw(i) => WaitingWithout(cfg, s.offered, i);
      case Consume(w, i) => WaitingWithout(cfg, s.q.items, i); AttemptsOfWorker(cfg, s, Next(cfg, s, e), w);
      case Succeed(w) => AttemptsOfEvent(cfg, s, e, w);
      case Fail(w) => AttemptsOfEvent(cfg, s, e, w);
      case HandlerCancels(w) => AttemptsOfEvent(cfg, s, e, w);
      case Wake(w) => AttemptsOfEvent(cfg, s, e, w);
      case Republish(w) => AttemptsOfEvent(cfg, s, e, w);
      case CancelWorker(w) => AttemptsOfEvent(cfg, s, e, w);
      case _ =>
    }
  }

  lemma OutcomesStep(cfg: Config, s: State, e: Event)
    requires Enabled(cfg, s, e) && AttemptsOk(cfg, s) && OutcomesOk(cfg, s)
    ensures OutcomesOk(cfg, Next(cfg, s, e))
  {
    forall w | 0 <= w < |s.workers| ensures PhaseOk(cfg, s.workers[w]) {
      assert s.workers[w] in s.workers;
    }
    match e {
      case Withdraw(i) => assert s.offered[i] in s.offered;
      case Succeed(w) => OutcomesOfSucceed(cfg, s, w);
      case Fail(w) => OutcomesOfFail(cfg, s, w);
      case HandlerCancels(w) => OutcomesOfHandler(cfg, s, w);
      case Wake(w) => OutcomesOfWake(cfg, s, w);
      case CancelWorker(w) => OutcomesOfCancel(cfg, s, w);
      case _ =>
    }
  }

  lemma OutcomesOfSucceed(cfg: Config, s: State, w: nat)
    requires Enabled(cfg, s, Succeed(w)) && PhaseOk(cfg, s.workers[w]) && OutcomesOk(cfg, s)
    ensures OutcomesOk(cfg, Next(cfg, s, Succeed(w)))
  {
  }

  lemma OutcomesOfFail(cfg: Config, s: State, w: nat)
    requires Enabled(cfg, s, Fail(w)) && PhaseOk(cfg, s.workers[w]) && OutcomesOk(cfg, s)
    ensures OutcomesOk(cfg, Next(cfg, s, Fail(w)))
  {
  }

  lemma OutcomesOfHandler(cfg: Config, s: State, w: nat)
    requires Enabled(cfg, s, HandlerCancels(w)) && PhaseOk(cfg, s.workers[w]) && OutcomesOk(cfg, s)
    ensures OutcomesOk(cfg, Next(cfg, s, HandlerCancels(w)))
  {
  }

  lemma OutcomesOfWake(cfg: Config, s: State, w: nat)
    requires Enabled(cfg, s, Wake(w)) && PhaseOk(cfg, s.workers[w]) && OutcomesOk(cfg, s)
    ensures OutcomesOk(cfg, Next(cfg, s, Wake(w)))
  {
  }

  lemma OutcomesOfCancel(cfg: Config, s: State, w: nat)
    requires Enabled(cfg, s, CancelWorker(w)) && PhaseOk(cfg, s.workers[w]) && OutcomesOk(cfg, s)
    ensures OutcomesOk(cfg, Next(cfg, s, CancelWorker(w)))
  {
  }

  /** No task is handled more often than its remaining attempts allow, and at least one handling is allowed. */
  lemma HandlingsAreBounded(cfg: Config, t: Task, closed: bool)
    requires Waiting(cfg, t) || InHand(cfg, t) || DeadOk(cfg, closed, t)
    ensures t.handled <= 1 || t.handled <= cfg.maxAttempts - t.first
  {
  }

  // ---------------------------------------------------------------- work

  /** The handlings a task may still get. */
  function TriesLeft(cfg: Config, attempts: nat): nat {
    if attempts < cfg.maxAttempts then cfg.maxAttempts - attempts else 1
  }

  function Tries(cfg: Config): Weight {
    (t: Task) => TriesLeft(cfg, t.attempts)
  }

  function Potential(cfg: Config, s: State): int {
    SumOf(s.offered, Tries(cfg)) + Live(s, Tries(cfg))
  }

  predicate FinishesHandling(e: Event) {
    e.Succeed? || e.Fail?
  }

  function Brought(cfg: Config, e: Event): nat {
    if e.Offer? then TriesLeft(cfg, e.attempts) else 0
  }

  lemma OfferedPotential(cfg: Config, s: State, e: Event)
    requires Enabled(cfg, s, e)
    ensures SumOf(Next(cfg, s, e).offered, Tries(cfg))
      <= SumOf(s.offered, Tries(cfg)) + Brought(cfg, e) - (if e.Admit? then TriesLeft(cfg, s.offered[e.i].attempts) else 0)
  {
    match e {
      case Offer(priority, attempts) =>
        SumAppend(s.offered, Task(s.published, priority, attempts, attempts, 0, s.q.sequence), Tries(cfg));
      case Admit(i) => SumRemove(s.offered, i, Tries(cfg));
      case Withdraw(i) => SumRemove(s.offered, i, Tries(cfg));
      case _ =>
    }
  }

  lemma MovedPotential(cfg: Config, s: State, e: Event)
    requires Enabled(cfg, s, e)
    ensures Moved(cfg, s, e, Tries(cfg))
      <= (if e.Admit? then TriesLeft(cfg, s.offered[e.i].attempts) else 0) - (if FinishesHandling(e) then 1 else 0)
  {
  }

  /** Every finished handling uses up potential; only a producer adds to it. */
  lemma PotentialStep(cfg: Config, s: State, e: Event)
    requires Enabled(cfg, s, e)
    ensures Potential(cfg, Next(cfg, s, e))
      <= Potential(cfg, s) + Brought(cfg, e) - (if FinishesHandling(e) then 1 else 0)
  {
    LiveStep(cfg, s, e, Tries(cfg));
    OfferedPotential(cfg, s, e);
    MovedPotential(cfg, s, e);
  }

  lemma {:induction false} PotentialNonNegative(cfg: Config, s: State)
    ensures Potential(cfg, s) >= 0
  {
    SumNonNegative(s.offered, Tries(cfg));
    SumNonNegative(s.q.items, Tries(cfg));
    SumNonNegative(s.workers, Held(Tries(cfg)));
  }

  // ---------------------------------------------------------------- every run

  ghost predicate Inv(cfg: Config, s: State) {
    && CountsUnfinished(s)
    && (forall id :: InOnePlace(s, id))
    && (forall k :: UniqueInLine(s, k))
    && AttemptsOk(cfg, s)
    && OutcomesOk(cfg, s)
    && (cfg.maxSize > 0 ==> |s.q.items| <= cfg.maxSize)
  }

  lemma InitialInv(cfg: Config, workers: nat)
    ensures Inv(cfg, Initial(workers))
  {
    var s := Initial(workers);
    SumZero(s.workers, Held(One()));
    forall id ensures InOnePlace(s, id) {
      SumZero(s.workers, Held(IdIs(id)));
    }
    forall k ensures UniqueInLine(s, k) {
      SumZero(s.workers, InPut(SequenceIs(k)));
    }
  }

  lemma StepKeepsInv(cfg: Config, s: State, e: Event)
    requires Inv(cfg, s)
    ensures Inv(cfg, Apply(cfg, s, e))
  {
    if Enabled(cfg, s, e) {
      UnfinishedStep(cfg, s, e);
      forall id ensures InOnePlace(Next(cfg, s, e), id) {
        ConservationStep(cfg, s, e, id);
      }
      forall k ensures UniqueInLine(Next(cfg, s, e), k) {
        UniqueStep(cfg, s, e, k);
      }
      AttemptsStep(cfg, s, e);
      OutcomesStep(cfg, s, e);
      CapacityStep(cfg, s, e);
    }
  }

  lemma CapacityStep(cfg: Config, s: State, e: Event)
    requires Enabled(cfg, s, e) && (cfg.maxSize > 0 ==> |s.q.items| <= cfg.maxSize)
    ensures cfg.maxSize > 0 ==> |Next(cfg, s, e).q.items| <= cfg.maxSize
  {
  }

  /** What every run of producers, workers, close, stop and cancellation keeps. */
  lemma {:induction false} EveryRunKeepsInv(cfg: Config, workers: nat, events: seq<Event>)
    ensures Inv(cfg, Run(cfg, Initial(workers), events))
  {
    if events == [] {
      InitialInv(cfg, workers);
    } else {
      var n := |events| - 1;
      EveryRunKeepsInv(cfg, workers, events[..n]);
      StepKeepsInv(cfg, Run(cfg, Initial(workers), events[..n]), events[n]);
    }
  }

  /** `join` never returns while a retry is pending or a task is queued, and when it returns with no
      producer waiting, every published task has been settled exactly once. Only a stop cancels tasks, and
      without a backoff and a close none was dropped. */
  lemma DrainSettlesEverything(cfg: Config, workers: nat, events: seq<Event>)
    ensures var s := Run(cfg, Initial(workers), events);
      && (s.q.items != [] || (exists w :: 0 <= w < |s.workers| && Holds(s.workers[w])) ==> s.q.unfinished > 0)
      && (s.q.unfinished <= 0 && s.offered == [] ==> forall id :: 0 <= id < s.published ==> Settled(s, IdIs(id)) == 1)
      && (!s.stopping ==> s.cancelled == [])
      && (!cfg.backoff || !s.q.closed ==> s.dropped == [])
  {
    var s := Run(cfg, Initial(workers), events);
    EveryRunKeepsInv(cfg, workers, events);
    if s.q.unfinished <= 0 {
      JoinMeansIdle(s);
      forall id | 0 <= id < s.published && s.offered == [] ensures Settled(s, IdIs(id)) == 1 {
        assert InOnePlace(s, id);
        SumZero(s.workers, Held(IdIs(id)));
      }
    }
    if s.cancelled != [] {
      assert s.cancelled[0] in s.cancelled;
    }
    if s.dropped != [] {
      assert s.dropped[0] in s.dropped;
    }
  }

  /** A stop reaches every worker that is still there: its task, if it holds one, is marked done and counted as cancelled. */
  lemma StopReachesWorkers(cfg: Config, s: State, w: nat)
    requires s.stopping && w < |s.workers| && s.workers[w] != Stopped
    ensures Enabled(cfg, s, CancelWorker(w)) && Next(cfg, s, CancelWorker(w)).workers == s.workers[w := Stopped]
    ensures Holds(s.workers[w]) ==>
      && Next(cfg, s, CancelWorker(w)).cancelled == s.cancelled + [s.workers[w].task]
      && Next(cfg, s, CancelWorker(w)).q.unfinished == s.q.unfinished - 1
  {
  }

  /** Where a task can be found. */
  ghost predicate Somewhere(s: State, t: Task) {
    || t in s.offered || t in s.q.items || (exists p :: p in s.workers && Holds(p) && p.task == t)
    || t in s.succeeded || t in s.q.dead || t in s.dropped || t in s.cancelled
    || t in s.lost || t in s.withdrawn
  }

  /** Wherever a task is, it was handled at most within its bound; a settled one was handled at least once, and a
      dead letter used all its attempts unless the queue was closed. */
  lemma SettledWithinAttempts(cfg: Config, workers: nat, events: seq<Event>, t: Task)
    requires Somewhere(Run(cfg, Initial(workers), events), t)
    ensures var s := Run(cfg, Initial(workers), events);
      && (t.handled <= 1 || t.handled <= cfg.maxAttempts - t.first)
      && (t in s.succeeded || t in s.q.dead || t in s.dropped || t in s.lost ==> t.handled >= 1)
      && (t in s.q.dead && !s.q.closed ==> t.first + t.handled >= cfg.maxAttempts)
  {
    var s := Run(cfg, Initial(workers), events);
    EveryRunKeepsInv(cfg, workers, events);
    HandlingsAreBoundedAnywhere(cfg, s, t);
  }

  lemma HandlingsAreBoundedAnywhere(cfg: Config, s: State, t: Task)
    requires AttemptsOk(cfg, s) && OutcomesOk(cfg, s) && Somewhere(s, t)
    ensures t.handled <= 1 || t.handled <= cfg.maxAttempts - t.first
  {
    if p :| p in s.workers && Holds(p) && p.task == t {
      assert PhaseOk(cfg, p);
    }
    HandlingsAreBounded(cfg, t, s.q.closed);
  }

  function Finished(cfg: Config, s: State, events: seq<Event>): nat {
    if events == [] then 0
    else
      var n := |events| - 1;
      Finished(cfg, s, events[..n])
      + (if Enabled(cfg, Run(cfg, s, events[..n]), events[n]) && FinishesHandling(events[n]) then 1 else 0)
  }

  /** What the accepted offers of a run bring in. */
  function Budget(cfg: Config, s: State, events: seq<Event>): nat {
    if events == [] then 0
    else
      var n := |events| - 1;
      var e := events[n];
      Budget(cfg, s, events[..n]) + (if Enabled(cfg, Run(cfg, s, events[..n]), e) then Brought(cfg, e) else 0)
  }

  /** Handlings are never finished more often than the published tasks allow in total, whatever the
      interleaving: with nothing new published, the remaining potential falls with every finished handling. */
  lemma {:induction false} WorkIsBounded(cfg: Config, workers: nat, events: seq<Event>)
    ensures var s := Initial(workers);
      && Potential(cfg, Run(cfg, s, events)) >= 0
      && Finished(cfg, s, events) + Potential(cfg, Run(cfg, s, events)) <= Budget(cfg, s, events)
  {
    var s := Initial(workers);
    PotentialNonNegative(cfg, Run(cfg, s, events));
    if events == [] {
      SumZero(s.workers, Held(Tries(cfg)));
    } else {
      var n := |events| - 1;
      WorkIsBounded(cfg, workers, events[..n]);
      if Enabled(cfg, Run(cfg, s, events[..n]), events[n]) {
        PotentialStep(cfg, Run(cfg, s, events[..n]), events[n]);
      }
    }
  }

  // ---------------------------------------------------------------- reachable states

  /** Some run leads here. */
  ghost predicate Reachable(cfg: Config, workers: nat, s: State) {
    exists events :: Run(cfg, Initial(workers), events) == s
  }

  lemma ReachNext(cfg: Config, workers: nat, s: State, e: Event)
    requires Reachable(cfg, workers, s)
    ensures Reachable(cfg, workers, Apply(cfg, s, e))
  {
    var events :| Run(cfg, Initial(workers), events) == s;
    assert (events + [e])[..|events|] == events;
    assert Run(cfg, Initial(workers), events + [e]) == Apply(cfg, s, e);
  }

  lemma ReachInitial(cfg: Config, workers: nat)
    ensures Reachable(cfg, workers, Initial(workers))
  {
    assert Run(cfg, Initial(workers), []) == Initial(workers);
  }

  lemma {:induction false} PoolSize(cfg: Config, workers: nat, events: seq<Event>)
    ensures |Run(cfg, Initial(workers), events).workers| == workers
  {
    if events != [] {
      PoolSize(cfg, workers, events[..|events| - 1]);
    }
  }

  // ---------------------------------------------------------------- tasks lost on close

  /** A task is dropped exactly when a worker wakes from its backoff to a closed queue. */
  lemma DroppedByLateWake(cfg: Config, s: State, e: Event)
    requires Enabled(cfg, s, e)
    ensures Next(cfg, s, e).dropped != s.dropped <==> e.Wake? && s.q.closed
    ensures e.Wake? && s.q.closed ==> Next(cfg, s, e).dropped == s.dropped + [s.workers[e.w].task]
  {
    if e.Wake? && s.q.closed {
      assert |s.dropped + [s.workers[e.w].task]| == |s.dropped| + 1;
    }
  }

  /** A worker in its backoff has been there since a failure on the open queue. */
  lemma {:induction false} BackoffSince(cfg: Config, workers: nat, events: seq<Event>, n: nat, w: nat) returns (i: nat)
    requires n <= |events| && w < |Run(cfg, Initial(workers), events[..n]).workers|
    requires Run(cfg, Initial(workers), events[..n]).workers[w].Backoff?
    ensures i < n && events[i] == Fail(w) && !Run(cfg, Initial(workers), events[..i]).q.closed
    ensures var s, since := Run(cfg, Initial(workers), events[..n]), Run(cfg, Initial(workers), events[..i + 1]);
      w < |since.workers| && since.workers[w] == s.workers[w]
  {
    var s := Run(cfg, Initial(workers), events[..n]);
    if n == 0 {
      assert false;
    } else {
      assert events[..n][..n - 1] == events[..n - 1];
      var before := Run(cfg, Initial(workers), events[..n - 1]);
      PoolSize(cfg, workers, events[..n - 1]);
      PoolSize(cfg, workers, events[..n]);
      BackoffStep(cfg, before, events[n - 1], w);
      if before.workers[w].Backoff? {
        i := BackoffSince(cfg, workers, events, n - 1, w);
      } else {
        i := n - 1;
      }
    }
  }

  lemma BackoffStep(cfg: Config, s: State, e: Event, w: nat)
    requires w < |s.workers| == |Apply(cfg, s, e).workers| && Apply(cfg, s, e).workers[w].Backoff?
    ensures if s.workers[w].Backoff? then Apply(cfg, s, e).workers[w] == s.workers[w] else e == Fail(w) && !s.q.closed
  {
  }

  lemma {:induction false} ClosedSince(cfg: Config, s: State, events: seq<Event>, i: nat, n: nat) returns (j: nat)
    requires i <= n <= |events| && !Run(cfg, s, events[..i]).q.closed && Run(cfg, s, events[..n]).q.closed
    ensures i <= j < n && events[j] == Close
  {
    if i == n {
      assert false;
    } else {
      assert events[..n][..n - 1] == events[..n - 1];
      if Run(cfg, s, events[..n - 1]).q.closed {
        j := ClosedSince(cfg, s, events, i, n - 1);
      } else {
        j := n - 1;
      }
    }
  }

  /** Whenever a run drops a task, a close came between that task's last failure and the end of its backoff. */
  lemma DropMeansCloseDuringBackoff(cfg: Config, workers: nat, events: seq<Event>, n: nat) returns (i: nat, j: nat)
    requires n < |events| && events[n].Wake? && Enabled(cfg, Run(cfg, Initial(workers), events[..n]), events[n])
    requires Run(cfg, Initial(workers), events[..n]).q.closed
    ensures i < j < n && events[i] == Fail(events[n].w) && events[j] == Close
    ensures var s, since := Run(cfg, Initial(workers), events[..n]), Run(cfg, Initial(workers), events[..i + 1]);
      events[n].w < |since.workers| && since.workers[events[n].w] == s.workers[events[n].w]
  {
    i := BackoffSince(cfg, workers, events, n, events[n].w);
    j := ClosedSince(cfg, Initial(workers), events, i, n);
  }

  lemma {:induction false} DropNeedsWorker(cfg: Config, events: seq<Event>)
    ensures Run(cfg, Initial(0), events).dropped == []
  {
    if events != [] {
      var n := |events| - 1;
      DropNeedsWorker(cfg, events[..n]);
      PoolSize(cfg, 0, events[..n]);
    }
  }

  lemma DropHappens(cfg: Config, workers: nat)
    requires cfg.backoff && cfg.maxAttempts > 1 && workers > 0
    ensures exists s :: Reachable(cfg, workers, s) && s.dropped != []
  {
    var s0 := Initial(workers);
    ReachInitial(cfg, workers);
    var s1 := Served(cfg, workers, s0, 0);
    var s2 := Apply(cfg, s1, Fail(0));
    ReachNext(cfg, workers, s1, Fail(0));
    var s3 := Apply(cfg, s2, Close);
    ReachNext(cfg, workers, s2, Close);
    ReachNext(cfg, workers, s3, Wake(0));
    DroppedByLateWake(cfg, s3, Wake(0));
  }

  /** A close during the backoff can drop a task exactly when there is a backoff, a second attempt and a worker. */
  lemma CloseDuringBackoffDrops(cfg: Config, workers: nat)
    ensures (exists s :: Reachable(cfg, workers, s) && s.dropped != [])
      <==> cfg.backoff && cfg.maxAttempts > 1 && workers > 0
  {
    if s :| Reachable(cfg, workers, s) && s.dropped != [] {
      var events :| Run(cfg, Initial(workers), events) == s;
      EveryRunKeepsInv(cfg, workers, events);
      assert s.dropped[0] in s.dropped;
      if workers == 0 {
        DropNeedsWorker(cfg, events);
      }
    }
    if cfg.backoff && cfg.maxAttempts > 1 && workers > 0 {
      DropHappens(cfg, workers);
    }
  }

  /** The first `k` workers handle fresh tasks, the others are idle, and nothing else is going on. */
  ghost predicate Busy(s: State, k: nat) {
    && k <= |s.workers| && s.offered == [] && !s.q.closed && !s.stopping
    && (forall w :: 0 <= w < k ==> s.workers[w].Handling? && s.workers[w].task.attempts == 0)
    && (forall w :: k <= w < |s.workers| ==> s.workers[w] == Idle)
  }

  /** One more task is admitted. */
  lemma Admitted(cfg: Config, workers: nat, s: State, k: nat) returns (s': State)
    requires Reachable(cfg, workers, s) && Busy(s, k) && !Full(s.q, cfg.maxSize)
    ensures Reachable(cfg, workers, s') && Busy(s', k) && s'.workers == s.workers && |s'.q.items| == |s.q.items| + 1
    ensures s'.q.items[|s.q.items|].attempts == 0
  {
    var s1 := Apply(cfg, s, Offer(0, 0));
    ReachNext(cfg, workers, s, Offer(0, 0));
    s' := Apply(cfg, s1, Admit(0));
    ReachNext(cfg, workers, s1, Admit(0));
    assert RemoveAt(s1.offered, 0) == [];
  }

  /** One more worker gets a fresh task. */
  lemma Served(cfg: Config, workers: nat, s: State, k: nat) returns (s': State)
    requires Reachable(cfg, workers, s) && Busy(s, k) && k < |s.workers| && s.q.items == []
    ensures Reachable(cfg, workers, s') && Busy(s', k + 1) && |s'.workers| == |s.workers| && s'.q.items == []
  {
    var s1 := Admitted(cfg, workers, s, k);
    assert IsLeast(s1.q.items, 0);
    s' := Apply(cfg, s1, Consume(k, 0));
    ReachNext(cfg, workers, s1, Consume(k, 0));
    assert RemoveAt(s1.q.items, 0) == [];
  }

  // ---------------------------------------------------------------- a full queue of retries

  /** Every worker waits for room in a full queue that only a worker could drain. */
  ghost predicate Stuck(cfg: Config, s: State) {
    && Full(s.q, cfg.maxSize)
    && s.workers != []
    && forall p :: p in s.workers ==> p.Putting?
  }

  /** Once stuck, nothing but cancelling a worker helps: no further event changes the queue's length or its
      unfinished count, so a drain can only time out. */
  lemma {:induction false} StuckUntilCancelled(cfg: Config, s: State, events: seq<Event>)
    requires Stuck(cfg, s) && forall i :: 0 <= i < |events| ==> !events[i].CancelWorker?
    ensures Stuck(cfg, Run(cfg, s, events))
    ensures Run(cfg, s, events).q.unfinished == s.q.unfinished && Run(cfg, s, events).q.items == s.q.items
  {
    if events != [] {
      var n := |events| - 1;
      StuckUntilCancelled(cfg, s, events[..n]);
      StuckStep(cfg, Run(cfg, s, events[..n]), events[n]);
    }
  }

  lemma StuckStep(cfg: Config, s: State, e: Event)
    requires Stuck(cfg, s) && !e.CancelWorker?
    ensures var s' := Apply(cfg, s, e);
      Stuck(cfg, s') && s'.q.unfinished == s.q.unfinished && s'.q.items == s.q.items
  {
    forall w | 0 <= w < |s.workers| ensures s.workers[w].Putting? {
      assert s.workers[w] in s.workers;
    }
  }

  lemma {:induction false} AllServed(cfg: Config, workers: nat, s: State, k: nat) returns (s': State)
    requires Reachable(cfg, workers, s) && Busy(s, k) && s.q.items == []
    ensures Reachable(cfg, workers, s') && Busy(s', |s'.workers|) && |s'.workers| == |s.workers| && s'.q.items == []
    decreases |s.workers| - k
  {
    if k == |s.workers| {
      s' := s;
    } else {
      var s1 := Served(cfg, workers, s, k);
      s' := AllServed(cfg, workers, s1, k + 1);
    }
  }

  lemma {:induction false} Filled(cfg: Config, workers: nat, s: State) returns (s': State)
    requires Reachable(cfg, workers, s) && Busy(s, |s.workers|) && cfg.maxSize > 0 && |s.q.items| <= cfg.maxSize
    ensures Reachable(cfg, workers, s') && Busy(s', |s'.workers|) && |s'.workers| == |s.workers| && Full(s'.q, cfg.maxSize)
    decreases cfg.maxSize - |s.q.items|
  {
    if Full(s.q, cfg.maxSize) {
      s' := s;
    } else {
      var s1 := Admitted(cfg, workers, s, |s.workers|);
      s' := Filled(cfg, workers, s1);
    }
  }

  /** The first `k` workers wait for room, the others still handle fresh tasks. */
  ghost predicate Retrying(s: State, k: nat) {
    && k <= |s.workers| && !s.q.closed
    && (forall w :: 0 <= w < k ==> s.workers[w].Putting?)
    && (forall w :: k <= w < |s.workers| ==> s.workers[w].Handling? && s.workers[w].task.attempts == 0)
  }

  /** A failure, and the end of the backoff if there is one, make one more worker wait for room. */
  lemma OneMoreWaits(cfg: Config, workers: nat, s: State, k: nat) returns (s': State)
    requires Reachable(cfg, workers, s) && Retrying(s, k) && k < |s.workers| && cfg.maxAttempts > 1
    ensures Reachable(cfg, workers, s') && Retrying(s', k + 1) && |s'.workers| == |s.workers| && s'.q.items == s.q.items
  {
    s' := Apply(cfg, s, Fail(k));
    ReachNext(cfg, workers, s, Fail(k));
    if cfg.backoff {
      var s1 := s';
      s' := Apply(cfg, s1, Wake(k));
      ReachNext(cfg, workers, s1, Wake(k));
    }
  }

  lemma {:induction false} AllWait(cfg: Config, workers: nat, s: State, k: nat) returns (s': State)
    requires Reachable(cfg, workers, s) && Retrying(s, k) && cfg.maxAttempts > 1
    ensures Reachable(cfg, workers, s') && Retrying(s', |s'.workers|) && |s'.workers| == |s.workers| && s'.q.items == s.q.items
    decreases |s.workers| - k
  {
    if k == |s.workers| {
      s' := s;
    } else {
      var s1 := OneMoreWaits(cfg, workers, s, k);
      s' := AllWait(cfg, workers, s1, k + 1);
    }
  }

  lemma StuckHappens(cfg: Config, workers: nat)
    requires cfg.maxSize > 0 && cfg.maxAttempts > 1 && workers > 0
    ensures exists s :: Reachable(cfg, workers, s) && Stuck(cfg, s)
  {
    ReachInitial(cfg, workers);
    var s1 := AllServed(cfg, workers, Initial(workers), 0);
    var s2 := Filled(cfg, workers, s1);
    var s3 := AllWait(cfg, workers, s2, 0);
    assert Stuck(cfg, s3);
  }

  /** Such a state can be reached exactly when the queue is bounded, there is a second attempt, and a worker. */
  lemma RetriesCanGetStuck(cfg: Config, workers: nat)
    ensures (exists s :: Reachable(cfg, workers, s) && Stuck(cfg, s))
      <==> cfg.maxSize > 0 && cfg.maxAttempts > 1 && workers > 0
  {
    if s :| Reachable(cfg, workers, s) && Stuck(cfg, s) {
      var events :| Run(cfg, Initial(workers), events) == s;
      EveryRunKeepsInv(cfg, workers, events);
      PoolSize(cfg, workers, events);
      assert s.workers[0] in s.workers;
    }
    if cfg.maxSize > 0 && cfg.maxAttempts > 1 && workers > 0 {
      StuckHappens(cfg, workers);
    }
  }

  // ---------------------------------------------------------------- workers ended by their handlers

  /** A handler's cancellation is no failure to the worker: the task is neither retried nor dead-lettered, and
      nothing else loses one. */
  lemma LostWithItsWorker(cfg: Config, s: State, e: Event)
    requires Enabled(cfg, s, e)
    ensures Next(cfg, s, e).lost != s.lost <==> e.HandlerCancels?
    ensures e.HandlerCancels? ==>
      && Next(cfg, s, e).lost == s.lost + [s.workers[e.w].task]
      && Next(cfg, s, e).workers[e.w] == Stopped
      && Next(cfg, s, e).q.unfinished == s.q.unfinished - 1
  {
    if e.HandlerCancels? {
      assert |s.lost + [s.workers[e.w].task]| == |s.lost| + 1;
    }
  }

  /** All workers are gone though nobody closed or stopped anything, and a task waits. */
  ghost predicate Deserted(s: State) {
    && s.workers != [] && !s.q.closed && !s.stopping && s.q.items != []
    && forall w :: 0 <= w < |s.workers| ==> s.workers[w] == Stopped
  }

  /** The first `k` workers are gone, the others still handle tasks. */
  ghost predicate Leaving(s: State, k: nat) {
    && k <= |s.workers| && !s.q.closed && !s.stopping && s.offered == [] && s.q.items == []
    && (forall w :: 0 <= w < k ==> s.workers[w] == Stopped)
    && (forall w :: k <= w < |s.workers| ==> s.workers[w].Handling?)
  }

  lemma {:induction false} AllLeave(cfg: Config, workers: nat, s: State, k: nat) returns (s': State)
    requires Reachable(cfg, workers, s) && Leaving(s, k)
    ensures Reachable(cfg, workers, s') && Leaving(s', |s'.workers|) && |s'.workers| == |s.workers|
    decreases |s.workers| - k
  {
    if k == |s.workers| {
      s' := s;
    } else {
      var s1 := Apply(cfg, s, HandlerCancels(k));
      ReachNext(cfg, workers, s, HandlerCancels(k));
      s' := AllLeave(cfg, workers, s1, k + 1);
    }
  }

  lemma DesertedHappens(cfg: Config, workers: nat)
    requires workers > 0
    ensures exists s :: Reachable(cfg, workers, s) && Deserted(s)
  {
    ReachInitial(cfg, workers);
    var s1 := AllServed(cfg, workers, Initial(workers), 0);
    var s2 := AllLeave(cfg, workers, s1, 0);
    var s3 := Apply(cfg, s2, Offer(0, 0));
    ReachNext(cfg, workers, s2, Offer(0, 0));
    var s4 := Apply(cfg, s3, Admit(0));
    ReachNext(cfg, workers, s3, Admit(0));
    assert Deserted(s4);
  }

  /** Handlers that cancel can desert an open queue exactly when there is a worker to lose. */
  lemma HandlersCanDesert(cfg: Config, workers: nat)
    ensures (exists s :: Reachable(cfg, workers, s) && Deserted(s)) <==> workers > 0
  {
    if s :| Reachable(cfg, workers, s) && Deserted(s) {
      var events :| Run(cfg, Initial(workers), events) == s;
      PoolSize(cfg, workers, events);
    }
    if workers > 0 {
      DesertedHappens(cfg, workers);
    }
  }

  /** No task leaves a queue whose workers are gone, so that its unfinished count never falls. */
  lemma {:induction false} GoneForGood(cfg: Config, s: State, events: seq<Event>)
    requires forall w :: 0 <= w < |s.workers| ==> s.workers[w] == Stopped
    ensures var s' := Run(cfg, s, events);
      s'.workers == s.workers && s.q.items <= s'.q.items && s'.q.unfinished >= s.q.unfinished
  {
    if events != [] {
      var n := |events| - 1;
      GoneForGood(cfg, s, events[..n]);
      GoneStep(cfg, Run(cfg, s, events[..n]), events[n]);
    }
  }

  lemma GoneStep(cfg: Config, s: State, e: Event)
    requires forall w :: 0 <= w < |s.workers| ==> s.workers[w] == Stopped
    ensures var s' := Apply(cfg, s, e);
      s'.workers == s.workers && s.q.items <= s'.q.items && s'.q.unfinished >= s.q.unfinished
  {
  }
}
