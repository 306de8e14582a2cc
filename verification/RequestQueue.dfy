/** The API's bounded request queue: futures, retrying workers, draining and cancellation, as a transition
    system over the awaits. */
module RequestQueue {
  import opened Wrappers
  import opened Sequences

  /** `attempts` is the configured maximum; at least one call is always made. */
  datatype Config = Config(workerCount: nat, maxSize: nat, attempts: int, backoff: bool)

  /** A future: set with the number of the call that decided it, or cancelled by its caller. */
  datatype Future = Pending | Answered(calls: nat) | Failed(calls: nat) | CallerGone

  datatype Phase = Idle | Calling(id: nat, attempt: nat) | Backoff(id: nat, attempt: nat) | Stopped

  /** A finished service call. */
  datatype Call = Call(id: nat, ok: bool)

  /** Where a `stop` is: waiting for the queue to drain, or for the workers it cancelled. */
  datatype Stopping = Joining | Gathering(lo: nat, hi: nat)

  /** Workers are numbered as they are created; the list of the queue holds those from `base` on. */
  datatype State = State(
    accepting: bool,
    base: nat,
    stops: seq<Stopping>,
    requested: set<nat>,
    queue: seq<nat>,
    unfinished: int,
    futures: seq<Future>,
    workers: seq<Phase>,
    log: seq<Call>,
    settled: seq<nat>,
    abandoned: seq<nat>)

  datatype Event =
    | Start
    | Moderate
    | Take(w: nat)
    | CallOk(w: nat)
    | CallFail(w: nat)
    | Wake(w: nat)
    | ServiceCancels(w: nat)
    | CallerCancels(id: nat)
    | Stop
    | CancelAll(i: nat)
    | CancelWorker(w: nat)
    | Clear(i: nat)
    | StopLeaves(i: nat)

  const EMPTY: State := State(false, 0, [], {}, [], 0, [], [], [], [], [])

  /** The numbers of the workers from `lo` to `hi`. */
  function Range(lo: nat, hi: nat): (r: set<nat>)
    ensures forall w :: w in r <==> lo <= w < hi
  {
    if hi <= lo then {} else Range(lo, hi - 1) + {hi - 1}
  }

  predicate AllStopped(workers: seq<Phase>, lo: nat, hi: nat) {
    forall w :: lo <= w < hi && w < |workers| ==> workers[w] == Stopped
  }

  function MaxAttempts(cfg: Config): nat {
    if cfg.attempts > 1 then cfg.attempts else 1
  }

  predicate Full(cfg: Config, s: State) {
    cfg.maxSize > 0 && |s.queue| >= cfg.maxSize
  }

  predicate Holds(p: Phase) {
    p.Calling? || p.Backoff?
  }

  predicate Enabled(cfg: Config, s: State, e: Event) {
    match e
    case Start => s.base >= |s.workers|
    case Moderate => s.accepting && !Full(cfg, s)
    case Take(w) => w < |s.workers| && s.workers[w] == Idle && s.queue != []
    case CallOk(w) => w < |s.workers| && s.workers[w].Calling? && s.workers[w].id < |s.futures|
    case CallFail(w) => w < |s.workers| && s.workers[w].Calling? && s.workers[w].id < |s.futures|
    case Wake(w) => w < |s.workers| && s.workers[w].Backoff?
    case ServiceCancels(w) => w < |s.workers| && s.workers[w].Calling?
    case CallerCancels(id) => id < |s.futures| && s.futures[id] == Pending
    case Stop => true
    case CancelAll(i) => i < |s.stops| && s.stops[i].Joining?
    case CancelWorker(w) => w < |s.workers| && w in s.requested && s.workers[w] != Stopped
    case Clear(i) => i < |s.stops| && s.stops[i].Gathering? && AllStopped(s.workers, s.stops[i].lo, s.stops[i].hi)
    case StopLeaves(i) => i < |s.stops|
  }

  /** A future is set only when it is not done. */
  function Set(futures: seq<Future>, id: nat, f: Future): seq<Future>
    requires id < |futures|
  {
    if futures[id] == Pending then futures[id := f] else futures
  }

  function AtWorker(s: State, w: nat, p: Phase): State
    requires w < |s.workers|
  {
    s.(workers := s.workers[w := p])
  }

  /** The worker reports and marks the item done. */
  function Settle(s: State, w: nat, f: Future): State
    requires w < |s.workers| && Holds(s.workers[w]) && s.workers[w].id < |s.futures|
  {
    var id := s.workers[w].id;
    AtWorker(s, w, Idle)
      .(futures := Set(s.futures, id, f), unfinished := s.unfinished - 1, settled := s.settled + [id])
  }

  /** A cancelled worker marks its item done without reporting. */
  function Abandon(s: State, w: nat): State
    requires w < |s.workers|
  {
    if Holds(s.workers[w])
    then AtWorker(s, w, Stopped).(unfinished := s.unfinished - 1, abandoned := s.abandoned + [s.workers[w].id])
    else AtWorker(s, w, Stopped)
  }

  function Logged(s: State, w: nat, ok: bool): State
    requires w < |s.workers| && s.workers[w].Calling?
  {
    s.(log := s.log + [Call(s.workers[w].id, ok)])
  }

  /** After a failed call: report it when it was the last one, otherwise try again, after the backoff if any. */
  function AfterFailure(cfg: Config, s: State, w: nat): State
    requires w < |s.workers| && s.workers[w].Calling? && s.workers[w].id < |s.futures|
  {
    var id, attempt := s.workers[w].id, s.workers[w].attempt;
    if attempt == MaxAttempts(cfg) then Settle(s, w, Failed(attempt))
    else AtWorker(s, w, if cfg.backoff then Backoff(id, attempt) else Calling(id, attempt + 1))
  }

  function Next(cfg: Config, s: State, e: Event): State
    requires Enabled(cfg, s, e)
  {
    match e
    case Start => s.(accepting := true, base := |s.workers|, workers := s.workers + Fresh(cfg.workerCount))
    case Moderate =>
      s.(queue := s.queue + [|s.futures|], futures := s.futures + [Pending], unfinished := s.unfinished + 1)
    case Take(w) => AtWorker(s, w, Calling(s.queue[0], 1)).(queue := s.queue[1..])
    case CallOk(w) => Settle(Logged(s, w, true), w, Answered(s.workers[w].attempt))
    case CallFail(w) => AfterFailure(cfg, Logged(s, w, false), w)
    case Wake(w) => AtWorker(s, w, Calling(s.workers[w].id, s.workers[w].attempt + 1))
    case ServiceCancels(w) => Abandon(s, w)
    case CallerCancels(id) => s.(futures := s.futures[id := CallerGone])
    case Stop => s.(accepting := false, stops := s.stops + [Joining])
    case CancelAll(i) =>
      s.(stops := s.stops[i := Gathering(s.base, |s.workers|)], requested := s.requested + Range(s.base, |s.workers|))
    case CancelWorker(w) => Abandon(s, w)
    case Clear(i) => s.(base := |s.workers|, stops := RemoveAt(s.stops, i))
    case StopLeaves(i) => s.(stops := RemoveAt(s.stops, i))
  }

  function Fresh(n: nat): (r: seq<Phase>)
    ensures |r| == n && forall w :: 0 <= w < n ==> r[w] == Idle
  {
    seq(n, _ => Idle)
  }

  /** A disabled event does nothing: a queue that is closed or full refuses the request. */
  function Apply(cfg: Config, s: State, e: Event): State {
    if Enabled(cfg, s, e) then Next(cfg, s, e) else s
  }

  function Run(cfg: Config, s: State, events: seq<Event>): State {
    if events == [] then s else Apply(cfg, Run(cfg, s, events[..|events| - 1]), events[|events| - 1])
  }

  // ---------------------------------------------------------------- one place for every request

  function Is(id: nat): nat -> int {
    (x: nat) => if x == id then 1 else 0
  }

  function HeldIs(id: nat): Phase -> int {
    (p: Phase) => if Holds(p) && p.id == id then 1 else 0
  }

  function Held(): Phase -> int {
    (p: Phase) => if Holds(p) then 1 else 0
  }

  function Places(s: State, id: nat): int {
    SumOf(s.queue, Is(id)) + SumOf(s.workers, HeldIs(id)) + SumOf(s.settled, Is(id)) + SumOf(s.abandoned, Is(id))
  }

  /** Every accepted request is queued, held by a worker, settled, or abandoned by a cancelled worker. */
  ghost predicate InOnePlace(s: State, id: nat) {
    Places(s, id) == if id < |s.futures| then 1 else 0
  }

  /** The count that `join` waits for. */
  ghost predicate CountsUnfinished(s: State) {
    s.unfinished == |s.queue| + SumOf(s.workers, Held())
  }

  lemma PhaseUpdate(s: State, w: nat, p: Phase, f: Phase -> int)
    requires w < |s.workers|
    ensures SumOf(s.workers[w := p], f) == SumOf(s.workers, f) - f(s.workers[w]) + f(p)
  {
    SumUpdate(s.workers, w, p, f);
  }

  lemma PlacesOfTake(cfg: Config, s: State, w: nat, id: nat)
    requires Enabled(cfg, s, Take(w))
    ensures Places(Next(cfg, s, Take(w)), id) == Places(s, id)
  {
    PhaseUpdate(s, w, Calling(s.queue[0], 1), HeldIs(id));
    SumRemove(s.queue, 0, Is(id));
    assert RemoveAt(s.queue, 0) == s.queue[1..];
  }

  lemma PlacesOfSettle(s: State, w: nat, f: Future, id: nat)
    requires w < |s.workers| && Holds(s.workers[w]) && s.workers[w].id < |s.futures|
    ensures Places(Settle(s, w, f), id) == Places(s, id)
  {
    PhaseUpdate(s, w, Idle, HeldIs(id));
    SumAppend(s.settled, s.workers[w].id, Is(id));
  }

  lemma PlacesOfAbandon(s: State, w: nat, id: nat)
    requires w < |s.workers|
    ensures Places(Abandon(s, w), id) == Places(s, id)
  {
    PhaseUpdate(s, w, Stopped, HeldIs(id));
    if Holds(s.workers[w]) {
      SumAppend(s.abandoned, s.workers[w].id, Is(id));
    }
  }

  lemma PlacesOfPhase(s: State, w: nat, p: Phase, id: nat)
    requires w < |s.workers| && Holds(s.workers[w]) && Holds(p) && p.id == s.workers[w].id
    ensures Places(AtWorker(s, w, p), id) == Places(s, id)
  {
    PhaseUpdate(s, w, p, HeldIs(id));
  }

  lemma PlacesOfCall(cfg: Config, s: State, w: nat, e: Event, id: nat)
    requires Enabled(cfg, s, e) && (e == CallOk(w) || e == CallFail(w))
    ensures Places(Next(cfg, s, e), id) == Places(s, id)
  {
    var logged := Logged(s, w, e.CallOk?);
    var attempt, x := s.workers[w].attempt, s.workers[w].id;
    assert Places(logged, id) == Places(s, id);
    if e.CallOk? {
      PlacesOfSettle(logged, w, Answered(attempt), id);
    } else if attempt == MaxAttempts(cfg) {
      PlacesOfSettle(logged, w, Failed(attempt), id);
    } else {
      PlacesOfPhase(logged, w, if cfg.backoff then Backoff(x, attempt) else Calling(x, attempt + 1), id);
    }
  }

  lemma PlacesOfWake(cfg: Config, s: State, w: nat, id: nat)
    requires Enabled(cfg, s, Wake(w))
    ensures Places(Next(cfg, s, Wake(w)), id) == Places(s, id)
  {
    PlacesOfPhase(s, w, Calling(s.workers[w].id, s.workers[w].attempt + 1), id);
  }

  lemma PlacesOfModerate(cfg: Config, s: State, id: nat)
    requires Enabled(cfg, s, Moderate)
    ensures Places(Next(cfg, s, Moderate), id) == Places(s, id) + (if id == |s.futures| then 1 else 0)
  {
    SumAppend<nat>(s.queue, |s.futures|, Is(id));
  }

  lemma NobodyHolds(workers: seq<Phase>, f: Phase -> int)
    requires forall w :: 0 <= w < |workers| ==> !Holds(workers[w])
    requires forall p :: !Holds(p) ==> f(p) == 0
    ensures SumOf(workers, f) == 0
  {
    SumZero(workers, f);
  }

  lemma FreshHold(s: State, n: nat, f: Phase -> int)
    requires forall p :: !Holds(p) ==> f(p) == 0
    ensures SumOf(s.workers + Fresh(n), f) == SumOf(s.workers, f)
  {
    SumConcat(s.workers, Fresh(n), f);
    NobodyHolds(Fresh(n), f);
  }

  lemma PlacesStep(cfg: Config, s: State, e: Event, id: nat)
    requires Enabled(cfg, s, e)
    ensures Places(Next(cfg, s, e), id) == Places(s, id) + (if e.Moderate? && id == |s.futures| then 1 else 0)
  {
    match e {
      case Start => FreshHold(s, cfg.workerCount, HeldIs(id));
      case Moderate => PlacesOfModerate(cfg, s, id);
      case Take(w) => PlacesOfTake(cfg, s, w, id);
      case CallOk(w) => PlacesOfCall(cfg, s, w, e, id);
      case CallFail(w) => PlacesOfCall(cfg, s, w, e, id);
      case Wake(w) => PlacesOfWake(cfg, s, w, id);
      case ServiceCancels(w) => PlacesOfAbandon(s, w, id);
      case CancelWorker(w) => PlacesOfAbandon(s, w, id);
      case _ =>
    }
  }

  lemma FutureCount(cfg: Config, s: State, e: Event)
    requires Enabled(cfg, s, e)
    ensures |Next(cfg, s, e).futures| == |s.futures| + (if e.Moderate? then 1 else 0)
  {
  }

  lemma OnePlaceStep(cfg: Config, s: State, e: Event, id: nat)
    requires Enabled(cfg, s, e) && InOnePlace(s, id)
    ensures InOnePlace(Next(cfg, s, e), id)
  {
    PlacesStep(cfg, s, e, id);
    FutureCount(cfg, s, e);
  }

  lemma UnfinishedOfSettle(s: State, w: nat, f: Future)
    requires w < |s.workers| && Holds(s.workers[w]) && s.workers[w].id < |s.futures| && CountsUnfinished(s)
    ensures CountsUnfinished(Settle(s, w, f))
  {
    PhaseUpdate(s, w, Idle, Held());
  }

  lemma UnfinishedOfAbandon(s: State, w: nat)
    requires w < |s.workers| && CountsUnfinished(s)
    ensures CountsUnfinished(Abandon(s, w))
  {
    PhaseUpdate(s, w, Stopped, Held());
  }

  lemma UnfinishedOfPhase(s: State, w: nat, p: Phase)
    requires w < |s.workers| && Holds(s.workers[w]) && Holds(p) && CountsUnfinished(s)
    ensures CountsUnfinished(AtWorker(s, w, p))
  {
    PhaseUpdate(s, w, p, Held());
  }

  lemma UnfinishedOfFailure(cfg: Config, s: State, w: nat)
    requires w < |s.workers| && s.workers[w].Calling? && s.workers[w].id < |s.futures| && CountsUnfinished(s)
    ensures CountsUnfinished(AfterFailure(cfg, s, w))
  {
    var id, attempt := s.workers[w].id, s.workers[w].attempt;
    if attempt == MaxAttempts(cfg) {
      UnfinishedOfSettle(s, w, Failed(attempt));
    } else {
      UnfinishedOfPhase(s, w, if cfg.backoff then Backoff(id, attempt) else Calling(id, attempt + 1));
    }
  }

  lemma UnfinishedOfTake(cfg: Config, s: State, w: nat)
    requires Enabled(cfg, s, Take(w)) && CountsUnfinished(s)
    ensures CountsUnfinished(Next(cfg, s, Take(w)))
  {
    PhaseUpdate(s, w, Calling(s.queue[0], 1), Held());
  }

  lemma UnfinishedStep(cfg: Config, s: State, e: Event)
    requires Enabled(cfg, s, e) && CountsUnfinished(s)
    ensures CountsUnfinished(Next(cfg, s, e))
  {
    match e {
      case Start => FreshHold(s, cfg.workerCount, Held());
      case Take(w) => UnfinishedOfTake(cfg, s, w);
      case CallOk(w) => UnfinishedOfSettle(Logged(s, w, true), w, Answered(s.workers[w].attempt));
      case CallFail(w) => UnfinishedOfFailure(cfg, Logged(s, w, false), w);
      case Wake(w) => UnfinishedOfPhase(s, w, Calling(s.workers[w].id, s.workers[w].attempt + 1));
      case ServiceCancels(w) => UnfinishedOfAbandon(s, w);
      case CancelWorker(w) => UnfinishedOfAbandon(s, w);
      case _ =>
    }
  }

  // ---------------------------------------------------------------- what happened to a request

  /** The results of the finished calls for a request, in order. */
  function CallsOf(log: seq<Call>, id: nat): seq<bool> {
    if log == [] then []
    else
      var n := |log| - 1;
      CallsOf(log[..n], id) + (if log[n].id == id then [log[n].ok] else [])
  }

  lemma CallsAppend(log: seq<Call>, c: Call, id: nat)
    ensures CallsOf(log + [c], id) == CallsOf(log, id) + (if c.id == id then [c.ok] else [])
  {
    assert (log + [c])[..|log|] == log;
  }

  function Failures(n: nat): seq<bool> {
    seq(n, _ => false)
  }

  lemma FailuresStep(n: nat)
    ensures Failures(n) + [false] == Failures(n + 1)
  {
  }

  predicate Unset(f: Future) {
    f == Pending || f == CallerGone
  }

  /** A request in the queue was never tried. */
  ghost predicate Waits(s: State, id: nat) {
    id < |s.futures| && Unset(s.futures[id]) && CallsOf(s.log, id) == []
  }

  /** A held request has only failed so far, and calls are left. */
  ghost predicate InProgress(cfg: Config, s: State, p: Phase) {
    match p
    case Calling(id, n) =>
      1 <= n <= MaxAttempts(cfg) && id < |s.futures| && Unset(s.futures[id]) && CallsOf(s.log, id) == Failures(n - 1)
    case Backoff(id, n) =>
      1 <= n < MaxAttempts(cfg) && id < |s.futures| && Unset(s.futures[id]) && CallsOf(s.log, id) == Failures(n)
    case _ => true
  }

  /** The calls of a settled request: failures up to the first success, or all the failures allowed. */
  ghost predicate Decided(cfg: Config, calls: seq<bool>, n: nat, ok: bool) {
    if ok then 1 <= n <= MaxAttempts(cfg) && calls == Failures(n - 1) + [true]
    else n == MaxAttempts(cfg) && calls == Failures(n)
  }

  /** The future of a settled request reports how its calls went, unless the caller went first. */
  ghost predicate Reported(cfg: Config, s: State, id: nat) {
    id < |s.futures| &&
    match s.futures[id]
    case Pending => false
    case Answered(n) => Decided(cfg, CallsOf(s.log, id), n, true)
    case Failed(n) => Decided(cfg, CallsOf(s.log, id), n, false)
    case CallerGone => exists n, ok :: Decided(cfg, CallsOf(s.log, id), n, ok)
  }

  ghost predicate Lost(s: State, id: nat) {
    id < |s.futures| && Unset(s.futures[id])
  }

  ghost predicate Histories(cfg: Config, s: State) {
    && (forall i :: 0 <= i < |s.queue| ==> Waits(s, s.queue[i]))
    && (forall w :: 0 <= w < |s.workers| ==> InProgress(cfg, s, s.workers[w]))
    && (forall i :: 0 <= i < |s.settled| ==> Reported(cfg, s, s.settled[i]))
    && (forall i :: 0 <= i < |s.abandoned| ==> Lost(s, s.abandoned[i]))
    && (forall i :: 0 <= i < |s.log| ==> s.log[i].id < |s.futures|)
  }

  /** Nothing is new about request `id`. */
  ghost predicate Same(s: State, s': State, id: nat) {
    && (id < |s.futures| ==> id < |s'.futures| && s'.futures[id] == s.futures[id])
    && CallsOf(s'.log, id) == CallsOf(s.log, id)
  }

  lemma SameKeeps(cfg: Config, s: State, s': State, id: nat)
    requires Same(s, s', id)
    ensures Waits(s, id) ==> Waits(s', id)
    ensures Reported(cfg, s, id) ==> Reported(cfg, s', id)
    ensures Lost(s, id) ==> Lost(s', id)
    ensures forall p :: Holds(p) && p.id == id && InProgress(cfg, s, p) ==> InProgress(cfg, s', p)
  {
  }

  lemma AloneIn(ids: seq<nat>, id: nat)
    requires SumOf(ids, Is(id)) == 0
    ensures forall i :: 0 <= i < |ids| ==> ids[i] != id
  {
    SumNonNegative(ids, Is(id));
    forall i | 0 <= i < |ids| ensures ids[i] != id {
      assert Is(id)(ids[i]) <= 0;
    }
  }

  lemma AloneAmong(workers: seq<Phase>, w: nat, id: nat)
    requires w < |workers| && HeldIs(id)(workers[w]) == 1 && SumOf(workers, HeldIs(id)) <= 1
    ensures forall v :: 0 <= v < |workers| && v != w ==> !(Holds(workers[v]) && workers[v].id == id)
  {
    forall v | 0 <= v < |workers| && v != w ensures HeldIs(id)(workers[v]) == 0 {
      if v < w {
        SumOfTwo(workers, v, w, HeldIs(id));
      } else {
        SumOfTwo(workers, w, v, HeldIs(id));
      }
    }
  }

  ghost predicate NotIn(ids: seq<nat>, id: nat) {
    forall i :: 0 <= i < |ids| ==> ids[i] != id
  }

  /** The request a worker holds is nowhere else. */
  lemma HeldIsAlone(s: State, w: nat, id: nat)
    requires w < |s.workers| && Holds(s.workers[w]) && s.workers[w].id == id && InOnePlace(s, id)
    ensures id < |s.futures| && NotIn(s.queue, id) && NotIn(s.settled, id) && NotIn(s.abandoned, id)
    ensures forall v :: 0 <= v < |s.workers| && v != w ==> !(Holds(s.workers[v]) && s.workers[v].id == id)
  {
    SumNonNegative(s.queue, Is(id));
    SumNonNegative(s.settled, Is(id));
    SumNonNegative(s.abandoned, Is(id));
    SumNonNegative(s.workers, HeldIs(id));
    assert HeldIs(id)(s.workers[w]) == 1;
    AloneIn(s.queue, id);
    AloneIn(s.settled, id);
    AloneIn(s.abandoned, id);
    AloneAmong(s.workers, w, id);
  }

  /** What a step at one request leaves to be shown: that request's own history in its new place. */
  lemma HistoriesElsewhere(cfg: Config, s: State, s': State, w: nat, id: nat)
    requires Histories(cfg, s) && w < |s.workers| && Holds(s.workers[w]) && s.workers[w].id == id && InOnePlace(s, id)
    requires forall x: nat :: x != id ==> Same(s, s', x)
    ensures forall i :: 0 <= i < |s.queue| ==> Waits(s', s.queue[i])
    ensures forall v :: 0 <= v < |s.workers| && v != w ==> InProgress(cfg, s', s.workers[v])
    ensures forall i :: 0 <= i < |s.settled| ==> Reported(cfg, s', s.settled[i])
    ensures forall i :: 0 <= i < |s.abandoned| ==> Lost(s', s.abandoned[i])
  {
    HeldIsAlone(s, w, id);
    forall i | 0 <= i < |s.queue| ensures Waits(s', s.queue[i]) {
      SameKeeps(cfg, s, s', s.queue[i]);
    }
    forall v | 0 <= v < |s.workers| && v != w ensures InProgress(cfg, s', s.workers[v]) {
      assert InProgress(cfg, s, s.workers[v]);
      if Holds(s.workers[v]) {
        SameKeeps(cfg, s, s', s.workers[v].id);
      }
    }
    forall i | 0 <= i < |s.settled| ensures Reported(cfg, s', s.settled[i]) {
      SameKeeps(cfg, s, s', s.settled[i]);
    }
    forall i | 0 <= i < |s.abandoned| ensures Lost(s', s.abandoned[i]) {
      SameKeeps(cfg, s, s', s.abandoned[i]);
    }
  }

  lemma LoggedSame(s: State, w: nat, ok: bool)
    requires w < |s.workers| && s.workers[w].Calling?
    ensures forall x: nat :: x != s.workers[w].id ==> Same(s, Logged(s, w, ok), x)
    ensures CallsOf(Logged(s, w, ok).log, s.workers[w].id) == CallsOf(s.log, s.workers[w].id) + [ok]
  {
    forall x: nat ensures CallsOf(Logged(s, w, ok).log, x) == CallsOf(s.log, x) + (if x == s.workers[w].id then [ok] else []) {
      CallsAppend(s.log, Call(s.workers[w].id, ok), x);
    }
  }

  /** The future is set to what the calls decided. */
  lemma SettleReports(cfg: Config, s: State, w: nat, ok: bool)
    requires Histories(cfg, s) && w < |s.workers| && s.workers[w].Calling?
    requires !ok ==> s.workers[w].attempt == MaxAttempts(cfg)
    requires s.workers[w].id < |s.futures|
    ensures var n := s.workers[w].attempt;
      Reported(cfg, Settle(Logged(s, w, ok), w, if ok then Answered(n) else Failed(n)), s.workers[w].id)
  {
    var id, n := s.workers[w].id, s.workers[w].attempt;
    var s' := Settle(Logged(s, w, ok), w, if ok then Answered(n) else Failed(n));
    CallsAppend(s.log, Call(id, ok), id);
    assert InProgress(cfg, s, s.workers[w]);
    FailuresStep(n - 1);
    assert Decided(cfg, CallsOf(s'.log, id), n, ok);
  }

  /** A finished call concerns the request it was for and nothing else. */
  lemma HistoriesOfCall(cfg: Config, s: State, s': State, w: nat, id: nat, ok: bool)
    requires Histories(cfg, s) && w < |s.workers| && Holds(s.workers[w]) && s.workers[w].id == id && InOnePlace(s, id)
    requires forall x: nat :: x != id ==> Same(s, s', x)
    requires s'.queue == s.queue && s'.abandoned == s.abandoned && |s'.futures| == |s.futures|
    requires |s'.workers| == |s.workers| && s'.workers == s.workers[w := s'.workers[w]] && s'.log == s.log + [Call(id, ok)]
    requires InProgress(cfg, s', s'.workers[w])
    requires s'.settled == s.settled || (s'.settled == s.settled + [id] && Reported(cfg, s', id))
    ensures Histories(cfg, s')
  {
    HeldIsAlone(s, w, id);
    HistoriesElsewhere(cfg, s, s', w, id);
  }

  /** Settling with the future that the calls decided. */
  lemma HistoriesOfSettle(cfg: Config, s: State, w: nat, ok: bool)
    requires Histories(cfg, s) && w < |s.workers| && s.workers[w].Calling? && InOnePlace(s, s.workers[w].id)
    requires !ok ==> s.workers[w].attempt == MaxAttempts(cfg)
    requires s.workers[w].id < |s.futures|
    ensures var n := s.workers[w].attempt;
      Histories(cfg, Settle(Logged(s, w, ok), w, if ok then Answered(n) else Failed(n)))
  {
    var id, n := s.workers[w].id, s.workers[w].attempt;
    var s' := Settle(Logged(s, w, ok), w, if ok then Answered(n) else Failed(n));
    LoggedSame(s, w, ok);
    SettleReports(cfg, s, w, ok);
    HistoriesOfCall(cfg, s, s', w, id, ok);
  }

  /** The request is one failure further. */
  lemma RetryProgresses(cfg: Config, s: State, w: nat)
    requires Histories(cfg, s) && w < |s.workers| && s.workers[w].Calling?
    requires s.workers[w].attempt != MaxAttempts(cfg) && s.workers[w].id < |s.futures|
    ensures var s' := AfterFailure(cfg, Logged(s, w, false), w); InProgress(cfg, s', s'.workers[w])
  {
    var id := s.workers[w].id;
    CallsAppend(s.log, Call(id, false), id);
    assert InProgress(cfg, s, s.workers[w]);
    FailuresStep(s.workers[w].attempt - 1);
  }

  lemma HistoriesOfRetry(cfg: Config, s: State, w: nat)
    requires Histories(cfg, s) && w < |s.workers| && s.workers[w].Calling? && InOnePlace(s, s.workers[w].id)
    requires s.workers[w].attempt != MaxAttempts(cfg) && s.workers[w].id < |s.futures|
    ensures Histories(cfg, AfterFailure(cfg, Logged(s, w, false), w))
  {
    var s' := AfterFailure(cfg, Logged(s, w, false), w);
    LoggedSame(s, w, false);
    RetryProgresses(cfg, s, w);
    HistoriesOfCall(cfg, s, s', w, s.workers[w].id, false);
  }

  lemma HistoriesOfTake(cfg: Config, s: State, w: nat)
    requires Enabled(cfg, s, Take(w)) && Histories(cfg, s)
    ensures Histories(cfg, Next(cfg, s, Take(w)))
  {
    var s' := Next(cfg, s, Take(w));
    assert Waits(s, s.queue[0]);
    assert InProgress(cfg, s', s'.workers[w]);
    MovedOnly(cfg, s, s', w);
  }

  /** Moving a worker on without calls or futures. */
  lemma MovedOnly(cfg: Config, s: State, s': State, w: nat)
    requires Histories(cfg, s) && w < |s.workers| == |s'.workers| && s'.workers == s.workers[w := s'.workers[w]]
    requires s'.futures == s.futures && s'.log == s.log && s'.settled == s.settled
    requires forall i :: 0 <= i < |s'.queue| ==> s'.queue[i] in s.queue
    requires InProgress(cfg, s', s'.workers[w])
    requires forall i :: 0 <= i < |s'.abandoned| ==> s'.abandoned[i] in s.abandoned || Lost(s, s'.abandoned[i])
    ensures Histories(cfg, s')
  {
    forall i | 0 <= i < |s'.queue| ensures Waits(s', s'.queue[i]) {
      assert s'.queue[i] in s.queue;
      var j :| 0 <= j < |s.queue| && s.queue[j] == s'.queue[i];
      SameKeeps(cfg, s, s', s'.queue[i]);
    }
    forall v | 0 <= v < |s'.workers| ensures InProgress(cfg, s', s'.workers[v]) {
      assert InProgress(cfg, s, s.workers[v]);
      if v != w && Holds(s.workers[v]) {
        SameKeeps(cfg, s, s', s.workers[v].id);
      }
    }
    forall i | 0 <= i < |s'.settled| ensures Reported(cfg, s', s'.settled[i]) {
      SameKeeps(cfg, s, s', s'.settled[i]);
    }
  }

  lemma HistoriesOfWake(cfg: Config, s: State, w: nat)
    requires Enabled(cfg, s, Wake(w)) && Histories(cfg, s)
    ensures Histories(cfg, Next(cfg, s, Wake(w)))
  {
    assert InProgress(cfg, s, s.workers[w]);
    MovedOnly(cfg, s, Next(cfg, s, Wake(w)), w);
  }

  lemma HistoriesOfAbandon(cfg: Config, s: State, w: nat)
    requires w < |s.workers| && Histories(cfg, s)
    ensures Histories(cfg, Abandon(s, w))
  {
    assert InProgress(cfg, s, s.workers[w]);
    MovedOnly(cfg, s, Abandon(s, w), w);
  }

  lemma HistoriesOfCallerCancels(cfg: Config, s: State, id: nat)
    requires Enabled(cfg, s, CallerCancels(id)) && Histories(cfg, s)
    ensures Histories(cfg, Next(cfg, s, CallerCancels(id)))
  {
    var s' := Next(cfg, s, CallerCancels(id));
    forall i | 0 <= i < |s.settled| ensures Reported(cfg, s', s.settled[i]) {
      assert Reported(cfg, s, s.settled[i]);
    }
    forall w | 0 <= w < |s.workers| ensures InProgress(cfg, s', s.workers[w]) {
      assert InProgress(cfg, s, s.workers[w]);
    }
  }

  lemma {:induction false} NoCalls(log: seq<Call>, id: nat)
    requires forall i :: 0 <= i < |log| ==> log[i].id != id
    ensures CallsOf(log, id) == []
  {
    if log != [] {
      NoCalls(log[..|log| - 1], id);
    }
  }

  lemma HistoriesOfModerate(cfg: Config, s: State)
    requires Enabled(cfg, s, Moderate) && Histories(cfg, s)
    ensures Histories(cfg, Next(cfg, s, Moderate))
  {
    var s' := Next(cfg, s, Moderate);
    NoCalls(s.log, |s.futures|);
    forall i | 0 <= i < |s'.queue| ensures Waits(s', s'.queue[i]) {
      if i < |s.queue| {
        assert Waits(s, s.queue[i]);
      }
    }
    forall w | 0 <= w < |s.workers| ensures InProgress(cfg, s', s.workers[w]) {
      assert InProgress(cfg, s, s.workers[w]);
    }
    forall i | 0 <= i < |s.settled| ensures Reported(cfg, s', s.settled[i]) {
      SameKeeps(cfg, s, s', s.settled[i]);
    }
  }

  lemma HistoriesStep(cfg: Config, s: State, e: Event)
    requires Enabled(cfg, s, e) && Histories(cfg, s) && forall id: nat :: InOnePlace(s, id)
    ensures Histories(cfg, Next(cfg, s, e))
  {
    match e {
      case Moderate => HistoriesOfModerate(cfg, s);
      case Take(w) => HistoriesOfTake(cfg, s, w);
      case CallOk(w) => HistoriesOfSettle(cfg, s, w, true);
      case CallFail(w) => HistoriesOfFailure(cfg, s, w);
      case Wake(w) => HistoriesOfWake(cfg, s, w);
      case ServiceCancels(w) => HistoriesOfAbandon(cfg, s, w);
      case CancelWorker(w) => HistoriesOfAbandon(cfg, s, w);
      case CallerCancels(id) => HistoriesOfCallerCancels(cfg, s, id);
      case _ => HistoriesOfStaff(cfg, s, e);
    }
  }

  lemma HistoriesOfFailure(cfg: Config, s: State, w: nat)
    requires Enabled(cfg, s, CallFail(w)) && Histories(cfg, s) && InOnePlace(s, s.workers[w].id)
    ensures Histories(cfg, Next(cfg, s, CallFail(w)))
  {
    if s.workers[w].attempt == MaxAttempts(cfg) {
      HistoriesOfSettle(cfg, s, w, false);
    } else {
      HistoriesOfRetry(cfg, s, w);
    }
  }

  predicate Staffs(e: Event) {
    e.Start? || e.Stop? || e.CancelAll? || e.Clear? || e.StopLeaves?
  }

  lemma HistoriesOfStaff(cfg: Config, s: State, e: Event)
    requires Enabled(cfg, s, e) && Histories(cfg, s) && Staffs(e)
    ensures Histories(cfg, Next(cfg, s, e))
  {
    var s' := Next(cfg, s, e);
    assert s'.futures == s.futures && s'.log == s.log && s'.queue == s.queue;
    forall i | 0 <= i < |s.queue| ensures Waits(s', s.queue[i]) {
      assert Waits(s, s.queue[i]);
    }
    forall w | 0 <= w < |s'.workers| ensures InProgress(cfg, s', s'.workers[w]) {
      if w < |s.workers| {
        assert InProgress(cfg, s, s.workers[w]);
      }
    }
    forall i | 0 <= i < |s.settled| ensures Reported(cfg, s', s.settled[i]) {
      SameKeeps(cfg, s, s', s.settled[i]);
    }
  }

  // ---------------------------------------------------------------- every run

  ghost predicate Inv(cfg: Config, s: State) {
    && (forall id: nat :: InOnePlace(s, id))
    && CountsUnfinished(s)
    && Histories(cfg, s)
    && (cfg.maxSize > 0 ==> |s.queue| <= cfg.maxSize)
    && Shaped(s)
  }

  /** Cancellations are requested of created workers only, and a stop waits for workers it asked. */
  ghost predicate Shaped(s: State) {
    && s.base <= |s.workers|
    && (forall w :: w in s.requested ==> w < |s.workers|)
    && (forall i :: 0 <= i < |s.stops| ==> ShapedStop(s, s.stops[i]))
  }

  ghost predicate ShapedStop(s: State, stop: Stopping) {
    stop.Gathering? ==> stop.hi <= |s.workers| && forall w :: stop.lo <= w < stop.hi ==> w in s.requested
  }

  lemma ShapedStep(cfg: Config, s: State, e: Event)
    requires Enabled(cfg, s, e) && Shaped(s)
    ensures Shaped(Next(cfg, s, e))
  {
    var s' := Next(cfg, s, e);
    if e.Clear? || e.StopLeaves? {
      ShapedWithout(s, s', e.i);
    } else {
      forall i | 0 <= i < |s'.stops| ensures ShapedStop(s', s'.stops[i]) {
        if i < |s.stops| {
          assert ShapedStop(s, s.stops[i]);
        }
      }
    }
  }

  lemma ShapedWithout(s: State, s': State, i: nat)
    requires Shaped(s) && i < |s.stops| && s'.stops == RemoveAt(s.stops, i)
    requires s'.workers == s.workers && s'.requested == s.requested && s'.base <= |s'.workers|
    ensures Shaped(s')
  {
    forall j | 0 <= j < |s'.stops| ensures ShapedStop(s', s'.stops[j]) {
      assert ShapedStop(s, s.stops[if j < i then j else j + 1]);
    }
  }

  lemma CapacityStep(cfg: Config, s: State, e: Event)
    requires Enabled(cfg, s, e) && (cfg.maxSize > 0 ==> |s.queue| <= cfg.maxSize)
    ensures cfg.maxSize > 0 ==> |Next(cfg, s, e).queue| <= cfg.maxSize
  {
  }

  lemma StepKeepsInv(cfg: Config, s: State, e: Event)
    requires Inv(cfg, s)
    ensures Inv(cfg, Apply(cfg, s, e))
  {
    if Enabled(cfg, s, e) {
      forall id: nat ensures InOnePlace(Next(cfg, s, e), id) {
        OnePlaceStep(cfg, s, e, id);
      }
      UnfinishedStep(cfg, s, e);
      HistoriesStep(cfg, s, e);
      CapacityStep(cfg, s, e);
      ShapedStep(cfg, s, e);
    }
  }

  /** What every run of callers, workers, stops and restarts keeps. */
  lemma {:induction false} EveryRunKeepsInv(cfg: Config, events: seq<Event>)
    ensures Inv(cfg, Run(cfg, EMPTY, events))
  {
    if events != [] {
      var n := |events| - 1;
      EveryRunKeepsInv(cfg, events[..n]);
      StepKeepsInv(cfg, Run(cfg, EMPTY, events[..n]), events[n]);
    }
  }

  // ---------------------------------------------------------------- first come, first served

  /** Queued requests are in the order in which they were accepted. */
  ghost predicate InOrder(s: State) {
    && (forall i, j :: 0 <= i < j < |s.queue| ==> s.queue[i] < s.queue[j])
    && (forall i :: 0 <= i < |s.queue| ==> s.queue[i] < |s.futures|)
  }

  lemma InOrderStep(cfg: Config, s: State, e: Event)
    requires Enabled(cfg, s, e) && InOrder(s)
    ensures InOrder(Next(cfg, s, e))
  {
  }

  lemma {:induction false} QueueIsInOrder(cfg: Config, events: seq<Event>)
    ensures InOrder(Run(cfg, EMPTY, events))
  {
    if events != [] {
      var n := |events| - 1;
      QueueIsInOrder(cfg, events[..n]);
      if Enabled(cfg, Run(cfg, EMPTY, events[..n]), events[n]) {
        InOrderStep(cfg, Run(cfg, EMPTY, events[..n]), events[n]);
      }
    }
  }

  /** The request a worker takes was accepted before all that stay behind. */
  lemma TakenInOrder(cfg: Config, events: seq<Event>, w: nat)
    requires Enabled(cfg, Run(cfg, EMPTY, events), Take(w))
    ensures var s := Run(cfg, EMPTY, events);
      var s' := Next(cfg, s, Take(w));
      && s'.workers[w].Calling? && s'.workers[w].attempt == 1 && s'.workers[w].id in s.queue
      && (forall id :: id in s'.queue ==> s'.workers[w].id < id)
      && (forall id :: id in s.queue ==> id == s'.workers[w].id || id in s'.queue)
  {
    QueueIsInOrder(cfg, events);
  }

  // ---------------------------------------------------------------- futures

  /** A worker never finds a future that another one has set. */
  lemma SetAtMostOnce(cfg: Config, events: seq<Event>, w: nat)
    requires var s := Run(cfg, EMPTY, events); w < |s.workers| && Holds(s.workers[w])
    ensures var s := Run(cfg, EMPTY, events); s.workers[w].id < |s.futures| && Unset(s.futures[s.workers[w].id])
  {
    var s := Run(cfg, EMPTY, events);
    EveryRunKeepsInv(cfg, events);
    assert InProgress(cfg, s, s.workers[w]);
  }

  lemma DoneStays(cfg: Config, s: State, e: Event, id: nat)
    requires id < |s.futures| && s.futures[id] != Pending
    ensures var s' := Apply(cfg, s, e); id < |s'.futures| && s'.futures[id] == s.futures[id]
  {
  }

  /** Once done, a future keeps its outcome. */
  lemma {:induction false} DoneIsFinal(cfg: Config, s: State, events: seq<Event>, id: nat)
    requires id < |s.futures| && s.futures[id] != Pending
    ensures var s' := Run(cfg, s, events); id < |s'.futures| && s'.futures[id] == s.futures[id]
  {
    if events != [] {
      var n := |events| - 1;
      DoneIsFinal(cfg, s, events[..n], id);
      DoneStays(cfg, Run(cfg, s, events[..n]), events[n], id);
    }
  }

  /** An answered request failed until its last call; a failed one failed as often as allowed. */
  lemma ReportsWhatHappened(cfg: Config, events: seq<Event>, id: nat)
    requires id < |Run(cfg, EMPTY, events).futures|
    ensures var s := Run(cfg, EMPTY, events);
      match s.futures[id]
      case Answered(n) => 1 <= n && (n == 1 || n <= cfg.attempts) && CallsOf(s.log, id) == Failures(n - 1) + [true]
      case Failed(n) => 1 <= n && (n == 1 || n == cfg.attempts) && n >= cfg.attempts && CallsOf(s.log, id) == Failures(n)
      case _ => true
  {
    var s := Run(cfg, EMPTY, events);
    EveryRunKeepsInv(cfg, events);
    if !Unset(s.futures[id]) {
      SetIsSettled(cfg, s, id);
      var i :| 0 <= i < |s.settled| && s.settled[i] == id;
      assert Reported(cfg, s, s.settled[i]);
    }
  }

  lemma SetIsSettled(cfg: Config, s: State, id: nat)
    requires Inv(cfg, s) && id < |s.futures| && !Unset(s.futures[id])
    ensures id in s.settled
  {
    assert InOnePlace(s, id);
    forall i | 0 <= i < |s.queue| ensures Is(id)(s.queue[i]) == 0 {
      assert Waits(s, s.queue[i]);
    }
    SumZero(s.queue, Is(id));
    forall w | 0 <= w < |s.workers| ensures HeldIs(id)(s.workers[w]) == 0 {
      assert InProgress(cfg, s, s.workers[w]);
    }
    SumZero(s.workers, HeldIs(id));
    forall i | 0 <= i < |s.abandoned| ensures Is(id)(s.abandoned[i]) == 0 {
      assert Lost(s, s.abandoned[i]);
    }
    SumZero(s.abandoned, Is(id));
    if id !in s.settled {
      SumZero(s.settled, Is(id));
    }
  }

  // ---------------------------------------------------------------- draining

  lemma NothingHeld(workers: seq<Phase>)
    ensures SumOf(workers, Held()) >= 0
    ensures SumOf(workers, Held()) <= 0 ==> forall w :: 0 <= w < |workers| ==> !Holds(workers[w])
  {
    SumNonNegative(workers, Held());
    if SumOf(workers, Held()) <= 0 {
      forall w | 0 <= w < |workers| ensures !Holds(workers[w]) {
        assert Held()(workers[w]) <= 0;
      }
    }
  }

  /** When `join` returns, an accepted request whose future is still pending was abandoned by a cancelled
      worker; without such a cancellation every accepted request is done. */
  lemma DrainCompletes(cfg: Config, events: seq<Event>, id: nat)
    requires var s := Run(cfg, EMPTY, events); s.unfinished <= 0 && id < |s.futures|
    ensures var s := Run(cfg, EMPTY, events);
      && s.queue == []
      && (s.futures[id] == Pending ==> id in s.abandoned)
      && (id in s.abandoned ==> Unset(s.futures[id]))
      && (s.abandoned == [] ==> s.futures[id] != Pending && id in s.settled)
  {
    var s := Run(cfg, EMPTY, events);
    EveryRunKeepsInv(cfg, events);
    NothingHeld(s.workers);
    assert InOnePlace(s, id);
    NobodyHolds(s.workers, HeldIs(id));
    if id !in s.abandoned {
      SumZero(s.abandoned, Is(id));
      if id !in s.settled {
        SumZero(s.settled, Is(id));
      }
      var i :| 0 <= i < |s.settled| && s.settled[i] == id;
      assert Reported(cfg, s, s.settled[i]);
    } else {
      var i :| 0 <= i < |s.abandoned| && s.abandoned[i] == id;
      assert Lost(s, s.abandoned[i]);
    }
  }

  predicate Cancels(e: Event) {
    e.CancelWorker? || e.ServiceCancels?
  }

  /** Only a cancellation abandons a request. */
  lemma {:induction false} NobodyAbandoned(cfg: Config, events: seq<Event>)
    requires forall i :: 0 <= i < |events| ==> !Cancels(events[i])
    ensures Run(cfg, EMPTY, events).abandoned == []
  {
    if events != [] {
      NobodyAbandoned(cfg, events[..|events| - 1]);
    }
  }

  // ---------------------------------------------------------------- forced cancellation

  /** An abandoned request stays pending whatever the queue does next; only its caller can end the wait. */
  lemma {:induction false} AbandonedStaysPending(cfg: Config, s: State, events: seq<Event>, id: nat)
    requires Inv(cfg, s) && id in s.abandoned && id < |s.futures| && s.futures[id] == Pending
    requires forall i :: 0 <= i < |events| ==> events[i] != CallerCancels(id)
    ensures var s' := Run(cfg, s, events);
      Inv(cfg, s') && id in s'.abandoned && id < |s'.futures| && s'.futures[id] == Pending
  {
    if events != [] {
      var n := |events| - 1;
      AbandonedStaysPending(cfg, s, events[..n], id);
      StepKeepsInv(cfg, Run(cfg, s, events[..n]), events[n]);
      AbandonedStep(cfg, Run(cfg, s, events[..n]), events[n], id);
    }
  }

  lemma AbandonedStep(cfg: Config, s: State, e: Event, id: nat)
    requires Inv(cfg, s) && Enabled(cfg, s, e) ==> Inv(cfg, Next(cfg, s, e))
    requires Inv(cfg, s) && id in s.abandoned && id < |s.futures| && s.futures[id] == Pending && e != CallerCancels(id)
    ensures var s' := Apply(cfg, s, e); id in s'.abandoned && id < |s'.futures| && s'.futures[id] == Pending
  {
    if Enabled(cfg, s, e) && (e.CallOk? || e.CallFail?) {
      assert InOnePlace(s, s.workers[e.w].id);
      HeldIsAlone(s, e.w, s.workers[e.w].id);
    }
  }

  /** The state is reached although neither the service nor a caller cancels anything. */
  ghost predicate Reachable(cfg: Config, s: State) {
    exists events :: Unforced(events) && Run(cfg, EMPTY, events) == s
  }

  predicate Unforced(events: seq<Event>) {
    forall i :: 0 <= i < |events| ==> !events[i].ServiceCancels? && !events[i].CallerCancels?
  }

  lemma ReachEmpty(cfg: Config)
    ensures Reachable(cfg, EMPTY)
  {
    assert Unforced([]) && Run(cfg, EMPTY, []) == EMPTY;
  }

  lemma ReachNext(cfg: Config, s: State, e: Event) returns (s': State)
    requires Reachable(cfg, s) && Enabled(cfg, s, e) && !e.ServiceCancels? && !e.CallerCancels?
    ensures s' == Next(cfg, s, e) && Reachable(cfg, s')
  {
    var events :| Unforced(events) && Run(cfg, EMPTY, events) == s;
    RunAppend(cfg, EMPTY, events, e);
    assert Unforced(events + [e]);
    s' := Next(cfg, s, e);
  }

  /** A request that nobody holds any more and that nobody will ever report on. */
  ghost predicate LeavesPending(s: State) {
    exists id :: id in s.abandoned && id < |s.futures| && s.futures[id] == Pending
  }

  lemma {:induction false} NobodyWithoutWorkers(cfg: Config, events: seq<Event>)
    requires cfg.workerCount == 0
    ensures var s := Run(cfg, EMPTY, events); s.workers == [] && s.abandoned == []
  {
    if events != [] {
      NobodyWithoutWorkers(cfg, events[..|events| - 1]);
    }
  }

  /** A stop that gives up while a worker is in a call leaves such a request, in every queue with workers. */
  lemma ForcedStopLeavesPending(cfg: Config)
    ensures (exists s :: Reachable(cfg, s) && LeavesPending(s)) <==> cfg.workerCount > 0
  {
    if cfg.workerCount > 0 {
      ReachEmpty(cfg);
      var s := ReachNext(cfg, EMPTY, Start);
      s := ReachNext(cfg, s, Moderate);
      s := ReachNext(cfg, s, Take(0));
      s := ReachNext(cfg, s, Stop);
      s := ReachNext(cfg, s, CancelAll(0));
      s := ReachNext(cfg, s, CancelWorker(0));
      assert s.abandoned == [0] && s.futures == [Pending];
      assert 0 in s.abandoned;
      assert LeavesPending(s);
    } else if s :| Reachable(cfg, s) && LeavesPending(s) {
      var events :| Unforced(events) && Run(cfg, EMPTY, events) == s;
      NobodyWithoutWorkers(cfg, events);
    }
  }

  // ---------------------------------------------------------------- whether anybody serves an accepting queue

  /** A listed worker that is still there and not asked to go. */
  predicate Live(s: State, w: nat) {
    s.base <= w < |s.workers| && s.workers[w] != Stopped && w !in s.requested
  }

  /** An accepting queue has such a worker. */
  ghost predicate Served(s: State) {
    s.accepting ==> exists w :: Live(s, w)
  }

  /** What takes the last one away: a stop that acts after the next start, or the service cancelling the call of
      the only live worker. */
  ghost predicate Strands(s: State, e: Event) {
    s.accepting && (e.CancelAll? || e.Clear? || (e.ServiceCancels? && forall w :: Live(s, w) ==> w == e.w))
  }

  /** Exactly these events leave an accepting queue unserved. */
  lemma UnservedExactly(cfg: Config, s: State, e: Event)
    requires cfg.workerCount > 0 && Shaped(s) && Served(s) && Enabled(cfg, s, e)
    ensures Served(Next(cfg, s, e)) <==> !Strands(s, e)
  {
    if s.accepting {
      var v :| Live(s, v);
      LiveAfter(cfg, s, e, v);
    } else if e.Start? {
      assert Live(Next(cfg, s, e), |s.workers|);
    }
  }

  lemma LiveAfter(cfg: Config, s: State, e: Event, v: nat)
    requires Shaped(s) && s.accepting && Live(s, v) && Enabled(cfg, s, e)
    ensures Served(Next(cfg, s, e)) <==> !Strands(s, e)
  {
    var s' := Next(cfg, s, e);
    if e.ServiceCancels? {
      forall w ensures Live(s', w) <==> Live(s, w) && w != e.w {
      }
    } else if e.CancelAll? || e.Clear? {
      assert forall w :: !Live(s', w);
    } else if e != Stop {
      assert Live(s', v);
    }
  }

  /** No event of the run strands the queue where it happens. */
  ghost predicate StrandsNowhere(cfg: Config, s: State, events: seq<Event>) {
    if events == [] then true
    else
      var n := |events| - 1;
      var before := Run(cfg, s, events[..n]);
      StrandsNowhere(cfg, s, events[..n]) && (Enabled(cfg, before, events[n]) ==> !Strands(before, events[n]))
  }

  ghost predicate ServedThroughout(cfg: Config, s: State, events: seq<Event>) {
    Served(Run(cfg, s, events)) && (events != [] ==> ServedThroughout(cfg, s, events[..|events| - 1]))
  }

  /** A queue is served in every state of a run exactly when no event strands it. */
  lemma {:induction false} ServedThroughoutIff(cfg: Config, events: seq<Event>)
    requires cfg.workerCount > 0
    ensures ServedThroughout(cfg, EMPTY, events) <==> StrandsNowhere(cfg, EMPTY, events)
  {
    if events != [] {
      var n := |events| - 1;
      var s := Run(cfg, EMPTY, events[..n]);
      ServedThroughoutIff(cfg, events[..n]);
      EveryRunKeepsInv(cfg, events[..n]);
      if Served(s) && Enabled(cfg, s, events[n]) {
        UnservedExactly(cfg, s, events[n]);
      }
    }
  }

  // ---------------------------------------------------------------- a stop that outlasts the next start

  /** Every start that happens finds no stop in progress. */
  predicate CarefulRun(cfg: Config, s: State, events: seq<Event>) {
    if events == [] then true
    else
      var n := |events| - 1;
      var before := Run(cfg, s, events[..n]);
      CarefulRun(cfg, s, events[..n]) && (events[n] == Start && Enabled(cfg, before, Start) ==> before.stops == [])
  }

  /** While the queue accepts, it lists workers, none of them is asked to go, and no stop is in progress. */
  ghost predicate Calm(s: State) {
    s.accepting ==> s.stops == [] && s.base < |s.workers| && forall w :: w in s.requested ==> w < s.base
  }

  lemma CalmStep(cfg: Config, s: State, e: Event)
    requires cfg.workerCount > 0 && Shaped(s) && Calm(s) && Enabled(cfg, s, e) && (e.Start? ==> s.stops == [])
    ensures Calm(Next(cfg, s, e))
  {
  }

  /** The listed workers that are gone were ended by a cancellation of the service. */
  ghost predicate EndedByService(s: State, events: seq<Event>) {
    forall w :: s.base <= w < |s.workers| && s.workers[w] == Stopped ==> ServiceCancels(w) in events
  }

  lemma EndedStep(cfg: Config, s: State, events: seq<Event>, e: Event)
    requires Calm(s) && s.accepting ==> EndedByService(s, events)
    requires Calm(s)
    ensures Apply(cfg, s, e).accepting ==> EndedByService(Apply(cfg, s, e), events + [e])
  {
    var s' := Apply(cfg, s, e);
    if s'.accepting {
      forall w | s'.base <= w < |s'.workers| && s'.workers[w] == Stopped ensures ServiceCancels(w) in events + [e] {
        if e != ServiceCancels(w) {
          assert ServiceCancels(w) in events;
        }
      }
    }
  }

  /** A queue that is started only after every stop has returned has a live worker whenever it accepts, unless the
      service has cancelled the calls of all listed workers. */
  lemma {:induction false} CarefulRunsAreServed(cfg: Config, events: seq<Event>)
    requires cfg.workerCount > 0 && CarefulRun(cfg, EMPTY, events)
    ensures var s := Run(cfg, EMPTY, events);
      && Calm(s)
      && (s.accepting ==> EndedByService(s, events))
      && (s.accepting ==> (exists w :: Live(s, w)) || forall w :: s.base <= w < |s.workers| ==> ServiceCancels(w) in events)
  {
    if events != [] {
      var n := |events| - 1;
      var s := Run(cfg, EMPTY, events[..n]);
      CarefulRunsAreServed(cfg, events[..n]);
      EveryRunKeepsInv(cfg, events[..n]);
      EndedStep(cfg, s, events[..n], events[n]);
      assert events[..n] + [events[n]] == events;
      if Enabled(cfg, s, events[n]) {
        CalmStep(cfg, s, events[n]);
      }
    }
    LiveOrEnded(Run(cfg, EMPTY, events), events);
  }

  lemma LiveOrEnded(s: State, events: seq<Event>)
    requires s.accepting ==> Calm(s) && EndedByService(s, events)
    ensures s.accepting ==> (exists w :: Live(s, w)) || forall w :: s.base <= w < |s.workers| ==> ServiceCancels(w) in events
  {
    if s.accepting && !exists w :: Live(s, w) {
      forall w | s.base <= w < |s.workers| ensures ServiceCancels(w) in events {
        assert !Live(s, w);
      }
    }
  }

  /** Neither started nor stopped, and no call cancelled by the service. */
  predicate Quiet(events: seq<Event>) {
    forall i :: 0 <= i < |events| ==> events[i] != Start && events[i] != Stop && !events[i].ServiceCancels?
  }

  lemma {:induction false} NoStopNoHarm(cfg: Config, s: State, events: seq<Event>)
    requires cfg.workerCount > 0 && Shaped(s) && Served(s) && s.stops == [] && Quiet(events)
    ensures var s' := Run(cfg, s, events); Shaped(s') && Served(s') && s'.stops == []
  {
    if events != [] {
      var n := |events| - 1;
      var before := Run(cfg, s, events[..n]);
      NoStopNoHarm(cfg, s, events[..n]);
      if Enabled(cfg, before, events[n]) {
        UnservedExactly(cfg, before, events[n]);
        ShapedStep(cfg, before, events[n]);
      }
    }
  }

  /** Cancelling the workers from `lo` to `hi`. */
  function CancelRange(lo: nat, hi: nat): (r: seq<Event>)
    ensures Quiet(r) && Unforced(r)
  {
    if hi <= lo then [] else CancelRange(lo, hi - 1) + [CancelWorker(hi - 1)]
  }

  /** Only workers changed, and those from `lo` to `hi` have stopped. */
  ghost predicate Stops(s: State, s': State, lo: nat, hi: nat) {
    && AllStopped(s'.workers, lo, hi) && |s'.workers| == |s.workers|
    && (forall w :: 0 <= w < |s.workers| && !(lo <= w < hi) ==> s'.workers[w] == s.workers[w])
    && s'.base == s.base && s'.accepting == s.accepting && s'.stops == s.stops && s'.requested == s.requested
    && s'.queue == s.queue && s'.futures == s.futures
  }

  lemma StopsNext(s: State, s': State, cfg: Config, lo: nat, hi: nat)
    requires lo < hi <= |s.workers| && hi - 1 in s.requested && Stops(s, s', lo, hi - 1)
    ensures Stops(s, Apply(cfg, s', CancelWorker(hi - 1)), lo, hi)
  {
  }

  lemma RangeStep(cfg: Config, s: State, lo: nat, hi: nat)
    requires lo < hi
    ensures Run(cfg, s, CancelRange(lo, hi)) == Apply(cfg, Run(cfg, s, CancelRange(lo, hi - 1)), CancelWorker(hi - 1))
  {
    RunAppend(cfg, s, CancelRange(lo, hi - 1), CancelWorker(hi - 1));
  }

  lemma {:induction false} RangeStops(cfg: Config, s: State, lo: nat, hi: nat)
    requires hi <= |s.workers| && forall w :: lo <= w < hi ==> w in s.requested
    ensures Stops(s, Run(cfg, s, CancelRange(lo, hi)), lo, hi)
  {
    if lo < hi {
      RangeStops(cfg, s, lo, hi - 1);
      StopsNext(s, Run(cfg, s, CancelRange(lo, hi - 1)), cfg, lo, hi);
      RangeStep(cfg, s, lo, hi);
    }
  }

  lemma RunAppend(cfg: Config, s: State, events: seq<Event>, e: Event)
    ensures Run(cfg, s, events + [e]) == Apply(cfg, Run(cfg, s, events), e)
  {
    assert (events + [e])[..|events|] == events;
  }

  /** After a start, and until the next start or stop, the queue stays served whatever happens short of a
      cancellation by the service, exactly when no stop was in progress. */
  lemma StartIsServedIffNoStop(cfg: Config, s: State)
    requires cfg.workerCount > 0 && Shaped(s) && Enabled(cfg, s, Start)
    ensures (forall events :: Quiet(events) ==> Served(Run(cfg, Next(cfg, s, Start), events))) <==> s.stops == []
  {
    var s1 := Next(cfg, s, Start);
    ShapedStep(cfg, s, Start);
    assert Live(s1, |s.workers|);
    if s.stops == [] {
      forall events | Quiet(events) ensures Served(Run(cfg, s1, events)) {
        NoStopNoHarm(cfg, s1, events);
      }
    } else {
      var events := LateStop(cfg, s1);
      assert Quiet(events) && !Served(Run(cfg, s1, events));
    }
  }

  /** The events that the first stop in progress still has ahead. */
  lemma LateStop(cfg: Config, s: State) returns (events: seq<Event>)
    requires cfg.workerCount > 0 && Shaped(s) && Served(s) && s.accepting && s.stops != []
    ensures Quiet(events) && !Served(Run(cfg, s, events))
  {
    if s.stops[0].Joining? {
      events := [CancelAll(0)];
      assert events[..0] == [];
      UnservedExactly(cfg, s, CancelAll(0));
    } else {
      var lo, hi := s.stops[0].lo, s.stops[0].hi;
      assert ShapedStop(s, s.stops[0]);
      RangeStops(cfg, s, lo, hi);
      RunAppend(cfg, s, CancelRange(lo, hi), Clear(0));
      events := CancelRange(lo, hi) + [Clear(0)];
    }
  }

  lemma {:induction false} RunConcat(cfg: Config, s: State, a: seq<Event>, b: seq<Event>)
    ensures Run(cfg, s, a + b) == Run(cfg, Run(cfg, s, a), b)
  {
    if b == [] {
      assert a + b == a;
    } else {
      var n := |b| - 1;
      assert (a + b)[..|a| + n] == a + b[..n];
      RunConcat(cfg, s, a, b[..n]);
    }
  }

  lemma ReachRun(cfg: Config, s: State, more: seq<Event>)
    requires Reachable(cfg, s) && Unforced(more)
    ensures Reachable(cfg, Run(cfg, s, more))
  {
    var events :| Unforced(events) && Run(cfg, EMPTY, events) == s;
    RunConcat(cfg, EMPTY, events, more);
    assert Unforced(events + more);
  }

  predicate NobodyServes(s: State) {
    s.accepting && s.base == |s.workers| && AllStopped(s.workers, 0, |s.workers|)
  }

  /** It happens in every queue with workers: of two stops one gives up first, the queue is started again, and
      the other stop then cancels the new workers; the accepted request is left to nobody. */
  lemma LateStopLeavesNobody(cfg: Config)
    requires cfg.workerCount > 0
    ensures exists s :: Reachable(cfg, s) && NobodyServes(s) && s.queue == [0] && s.futures == [Pending]
  {
    var n := cfg.workerCount;
    ReachEmpty(cfg);
    var s := ReachNext(cfg, EMPTY, Start);
    s := ReachNext(cfg, s, Moderate);
    s := ReachNext(cfg, s, Stop);
    s := ReachNext(cfg, s, Stop);
    var s1 := StopTurn(cfg, s, 1);
    var s2 := ReachNext(cfg, s1, Start);
    var s3 := StopTurn(cfg, s2, 0);
    assert NobodyServes(s3);
  }

  /** A joining stop gives up, cancels the listed workers, waits for them and clears the list. */
  lemma StopTurn(cfg: Config, s: State, i: nat) returns (s': State)
    requires Reachable(cfg, s) && Enabled(cfg, s, CancelAll(i)) && s.base <= |s.workers|
    ensures Reachable(cfg, s') && s'.accepting == s.accepting && |s'.workers| == |s.workers| == s'.base
    ensures AllStopped(s'.workers, s.base, |s.workers|)
    ensures forall w :: 0 <= w < s.base ==> s'.workers[w] == s.workers[w]
    ensures s'.stops == RemoveAt(s.stops, i) && s'.queue == s.queue && s'.futures == s.futures
  {
    var s1 := ReachNext(cfg, s, CancelAll(i));
    RangeStops(cfg, s1, s.base, |s.workers|);
    ReachRun(cfg, s1, CancelRange(s.base, |s.workers|));
    var s2 := Run(cfg, s1, CancelRange(s.base, |s.workers|));
    s' := ReachNext(cfg, s2, Clear(i));
  }

  // ---------------------------------------------------------------- workers ended by the service

  /** Requests wait in an accepting queue whose listed workers are all gone; a start would not replace them. */
  predicate Deserted(s: State) {
    s.accepting && s.base < |s.workers| && AllStopped(s.workers, s.base, |s.workers|) && s.queue != []
  }

  /** Only requests, workers that take them, and calls that the service cancels. */
  predicate ServiceOnly(events: seq<Event>) {
    forall i :: 0 <= i < |events| ==> events[i].Moderate? || events[i].Take? || events[i].ServiceCancels?
  }

  /** The workers from `lo` to `hi` are idle in `s` and gone in `s'`, and nobody else has moved. */
  ghost predicate Ended(s: State, s': State, lo: nat, hi: nat) {
    && s'.accepting == s.accepting && s'.base == s.base && |s'.workers| == |s.workers| && AllStopped(s'.workers, lo, hi)
    && forall w :: 0 <= w < |s.workers| && !(lo <= w < hi) ==> s'.workers[w] == s.workers[w]
  }

  /** A request to take, if none waits. */
  lemma SomeRequest(cfg: Config, s: State) returns (events: seq<Event>)
    requires s.accepting
    ensures ServiceOnly(events)
    ensures var s' := Run(cfg, s, events); s'.queue != [] && s'.accepting && s'.base == s.base && s'.workers == s.workers
  {
    events := [];
    if s.queue == [] {
      events := [Moderate];
      assert events[..0] == [];
    }
  }

  /** An idle worker takes a request and is ended by the service's cancellation. */
  lemma EndOne(cfg: Config, s: State, w: nat) returns (events: seq<Event>)
    requires s.accepting && w < |s.workers| && s.workers[w] == Idle
    ensures ServiceOnly(events) && Ended(s, Run(cfg, s, events), w, w + 1)
  {
    var first := SomeRequest(cfg, s);
    RunAppend(cfg, s, first, Take(w));
    RunAppend(cfg, s, first + [Take(w)], ServiceCancels(w));
    events := first + [Take(w)] + [ServiceCancels(w)];
  }

  lemma {:induction false} EndRange(cfg: Config, s: State, lo: nat, hi: nat) returns (events: seq<Event>)
    requires s.accepting && lo <= hi <= |s.workers| && forall w :: lo <= w < hi ==> s.workers[w] == Idle
    ensures ServiceOnly(events) && Ended(s, Run(cfg, s, events), lo, hi)
    decreases hi
  {
    events := [];
    if lo < hi {
      var before := EndRange(cfg, s, lo, hi - 1);
      var last := EndOne(cfg, Run(cfg, s, before), hi - 1);
      RunConcat(cfg, s, before, last);
      events := before + last;
    }
  }

  /** After any start the service can end every worker, so that the accepting queue is deserted. */
  lemma StartCanBeDeserted(cfg: Config, s: State) returns (events: seq<Event>)
    requires cfg.workerCount > 0 && Shaped(s) && Enabled(cfg, s, Start)
    ensures ServiceOnly(events) && Deserted(Run(cfg, Next(cfg, s, Start), events))
  {
    var s1 := Next(cfg, s, Start);
    var ending := EndRange(cfg, s1, |s.workers|, |s1.workers|);
    var more := SomeRequest(cfg, Run(cfg, s1, ending));
    RunConcat(cfg, s1, ending, more);
    events := ending + more;
  }

  predicate NeverStopped(events: seq<Event>) {
    forall i :: 0 <= i < |events| ==> events[i] != Stop
  }

  /** Without any stop, a deserted queue can be reached exactly when there are workers to lose. */
  lemma DesertedWithoutStop(cfg: Config)
    ensures (exists events :: NeverStopped(events) && Deserted(Run(cfg, EMPTY, events))) <==> cfg.workerCount > 0
  {
    if cfg.workerCount > 0 {
      var more := StartCanBeDeserted(cfg, EMPTY);
      assert [Start][..0] == [];
      RunConcat(cfg, EMPTY, [Start], more);
      assert NeverStopped([Start] + more);
    } else if events :| NeverStopped(events) && Deserted(Run(cfg, EMPTY, events)) {
      NobodyWithoutWorkers(cfg, events);
    }
  }

  /** Until the next stop nobody comes back and no request leaves the queue. */
  lemma {:induction false} NobodyComesBack(cfg: Config, s: State, events: seq<Event>)
    requires Deserted(s) && AllStopped(s.workers, 0, |s.workers|) && s.stops == [] && NeverStopped(events)
    ensures var s' := Run(cfg, s, events);
      Deserted(s') && AllStopped(s'.workers, 0, |s'.workers|) && s'.stops == [] && s.queue <= s'.queue
  {
    if events != [] {
      NobodyComesBack(cfg, s, events[..|events| - 1]);
    }
  }

  // ---------------------------------------------------------------- the queue itself

  /** The queue's state between awaits. */
  class ModerationRequestQueue {
    const cfg: Config
    var accepting: bool
    var queue: seq<nat>
    var unfinished: int
    var futures: seq<Future>
    var workers: seq<Phase>
    var base: nat
    var requested: set<nat>
    ghost var stops: seq<Stopping>
    ghost var log: seq<Call>
    ghost var settled: seq<nat>
    ghost var abandoned: seq<nat>

    ghost function Abs(): State
      reads this
    {
      State(accepting, base, stops, requested, queue, unfinished, futures, workers, log, settled, abandoned)
    }

    constructor (workerCount: nat, maxSize: int, attempts: int, backoff: bool)
      ensures cfg == Config(workerCount, if maxSize > 0 then maxSize else 0, attempts, backoff)
      ensures Abs() == EMPTY
    {
      cfg := Config(workerCount, if maxSize > 0 then maxSize else 0, attempts, backoff);
      accepting, queue, unfinished, futures := false, [], 0, [];
      workers, base, requested := [], 0, {};
      stops, log, settled, abandoned := [], [], [], [];
    }

    method Start()
      modifies this
      ensures Abs() == Apply(cfg, old(Abs()), Event.Start)
      ensures old(base) < |old(workers)| ==> accepting == old(accepting) && workers == old(workers)
      ensures old(base) >= |old(workers)| ==>
        && accepting && base == |old(workers)| && |workers| == |old(workers)| + cfg.workerCount
        && workers[..|old(workers)|] == old(workers) && forall w :: base <= w < |workers| ==> workers[w] == Idle
    {
      if base < |workers| {
        return;
      }
      accepting := true;
      base := |workers|;
      workers := workers + Fresh(cfg.workerCount);
    }

    /** The part of `stop` before its first await. */
    method BeginStop()
      modifies this
      ensures Abs() == Next(cfg, old(Abs()), Stop)
      ensures !accepting && workers == old(workers) && queue == old(queue)
    {
      accepting := false;
      stops := stops + [Joining];
    }

    /** The queue has drained or the time is up: every listed worker is asked to go. */
    method CancelListed(ghost i: nat)
      requires Enabled(cfg, Abs(), CancelAll(i)) && base <= |workers|
      modifies this
      ensures Abs() == Next(cfg, old(Abs()), CancelAll(i))
      ensures forall w: nat :: w in requested <==> w in old(requested) || base <= w < |workers|
    {
      ghost var before := requested;
      for w := base to |workers|
        invariant requested == before + Range(base, w)
        invariant Abs() == old(Abs()).(requested := requested)
      {
        requested := requested + {w};
      }
      stops := stops[i := Gathering(base, |workers|)];
    }

    /** All of them are gone: the list is cleared, whoever is on it now. */
    method EndStop(ghost i: nat)
      requires Enabled(cfg, Abs(), Clear(i))
      modifies this
      ensures Abs() == Next(cfg, old(Abs()), Clear(i))
      ensures base == |workers| && workers == old(workers)
    {
      base := |workers|;
      stops := RemoveAt(stops, i);
    }

    /** `put_nowait`, which raises on a full queue. */
    method PutNowait(id: nat)
      requires !Full(cfg, Abs())
      modifies this`queue, this`unfinished
      ensures queue == old(queue) + [id] && unfinished == old(unfinished) + 1
    {
      queue := queue + [id];
      unfinished := unfinished + 1;
    }

    /** Accept a request or refuse it; nothing comes between the check for room and the put. */
    method Accept() returns (r: Result<nat>)
      modifies this
      ensures Abs() == Apply(cfg, old(Abs()), Moderate)
      ensures r == if old(Enabled(cfg, Abs(), Moderate)) then Ok(|old(futures)|) else Err(RuntimeError)
      ensures r.Err? <==> !old(accepting) || (cfg.maxSize > 0 && |old(queue)| >= cfg.maxSize)
      ensures r.Err? ==> queue == old(queue) && futures == old(futures) && unfinished == old(unfinished)
      ensures r.Ok? ==>
        queue == old(queue) + [r.value] && futures == old(futures) + [Pending] && unfinished == old(unfinished) + 1
    {
      if !accepting {
        return Err(RuntimeError);
      }
      if cfg.maxSize > 0 && |queue| >= cfg.maxSize {
        return Err(RuntimeError);
      }
      var id := |futures|;
      futures := futures + [Pending];
      PutNowait(id);
      return Ok(id);
    }

    /** A worker's `get` returns. */
    method Get(w: nat)
      requires Enabled(cfg, Abs(), Take(w))
      modifies this
      ensures Abs() == Next(cfg, old(Abs()), Take(w))
    {
      workers := workers[w := Calling(queue[0], 1)];
      queue := queue[1..];
    }

    /** The rest of the worker's turn once the item is decided: set the future unless it is done, mark the item done. */
    method Finish(w: nat, outcome: Future)
      requires w < |workers| && Holds(workers[w]) && workers[w].id < |futures|
      modifies this
      ensures Abs() == Settle(old(Abs()), w, outcome)
      ensures var id := old(workers)[w].id;
        && futures == (if old(futures)[id] == Pending then old(futures)[id := outcome] else old(futures))
        && unfinished == old(unfinished) - 1 && workers == old(workers)[w := Idle] && queue == old(queue)
    {
      var id := workers[w].id;
      if futures[id] == Pending {
        futures := futures[id := outcome];
      }
      unfinished := unfinished - 1;
      settled := settled + [id];
      workers := workers[w := Idle];
    }

    /** The service call returns or raises an ordinary exception. */
    method CallEnds(w: nat, ok: bool)
      requires Enabled(cfg, Abs(), CallOk(w))
      modifies this
      ensures Abs() == Next(cfg, old(Abs()), if ok then CallOk(w) else CallFail(w))
    {
      var id, attempt := workers[w].id, workers[w].attempt;
      log := log + [Call(id, ok)];
      if ok {
        Finish(w, Answered(attempt));
      } else if attempt == MaxAttempts(cfg) {
        Finish(w, Failed(attempt));
      } else if cfg.backoff {
        workers := workers[w := Backoff(id, attempt)];
      } else {
        workers := workers[w := Calling(id, attempt + 1)];
      }
    }

    /** A cancellation reaches a worker: its item is marked done, its future is left alone. */
    method Cancelled(w: nat)
      requires w < |workers|
      modifies this
      ensures Abs() == Abandon(old(Abs()), w)
    {
      if workers[w].Calling? || workers[w].Backoff? {
        unfinished := unfinished - 1;
        abandoned := abandoned + [workers[w].id];
      }
      workers := workers[w := Stopped];
    }
  }
}
