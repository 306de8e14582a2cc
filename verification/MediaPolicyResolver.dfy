/** The effective-policy resolver and its read cache, interleaved at every await with writers and
    with other resolves. */
module MediaPolicyResolver {
  import opened Wrappers
  import opened MediaPolicyStore

  datatype Source = DATABASE | YAML_DEFAULT

  datatype Effective = Effective(
    guild: string,
    media: Policy,
    source: Source,
    schemaVersion: string,
    defaultsVersion: string,
    revision: nat,
    updatedAt: Option<int>,
    updatedBy: Option<string>)

  datatype CacheKey = CacheKey(scope: Scope, revision: nat, ocrVersion: string, yoloVersion: string)

  type Cache = map<CacheKey, Effective>

  function DefaultsVersion(policy: Policy): string {
    policy.ocrVersion + ":" + policy.yoloVersion
  }

  function KeyOf(scope: Scope, row: Row): CacheKey {
    CacheKey(scope, row.revision, row.policy.ocrVersion, row.policy.yoloVersion)
  }

  function FromRow(scope: Scope, row: Row): Effective {
    Effective(scope.guild, row.policy, DATABASE, row.schemaVersion, row.defaultsVersion, row.revision,
              Some(row.updatedAt), Some(row.updatedBy))
  }

  function FromDefaults(scope: Scope, defaults: Policy): Effective {
    Effective(scope.guild, defaults, YAML_DEFAULT, SCHEMA_VERSION, DefaultsVersion(defaults), 0, None, None)
  }

  /** The policy in effect for a database read. */
  function InEffect(scope: Scope, snapshot: Option<Row>, defaults: Policy): Effective {
    match snapshot
    case Some(row) => FromRow(scope, row)
    case None => FromDefaults(scope, defaults)
  }

  /** An active row is in effect with its own policy, revision and versions, and says who wrote it. */
  lemma InEffectOfRow(scope: Scope, row: Row, defaults: Policy)
    ensures var e := InEffect(scope, Some(row), defaults);
      && e.guild == scope.guild && e.media == row.policy && e.source == DATABASE && e.revision == row.revision
      && e.schemaVersion == row.schemaVersion && e.defaultsVersion == row.defaultsVersion
      && e.updatedAt == Some(row.updatedAt) && e.updatedBy == Some(row.updatedBy)
  {
  }

  /** Without one the defaults are, at revision zero, with their versions joined, and nobody wrote them. */
  lemma InEffectByDefault(scope: Scope, defaults: Policy)
    ensures var e := InEffect(scope, None, defaults);
      && e.guild == scope.guild && e.media == defaults && e.source == YAML_DEFAULT && e.revision == 0
      && e.schemaVersion == SCHEMA_VERSION && e.defaultsVersion == defaults.ocrVersion + ":" + defaults.yoloVersion
      && e.updatedAt == None && e.updatedBy == None
  {
  }

  predicate ValidScope(scope: Scope) {
    && scope.platform == "discord"
    && 0 < |scope.guild| <= 32
    && forall i :: 0 <= i < |scope.guild| ==> '0' <= scope.guild[i] <= '9'
  }

  lemma ValidScopeMeaning(scope: Scope)
    ensures ValidScope(scope) <==>
      scope.platform == "discord" && scope.guild != "" && |scope.guild| <= 32 && forall c :: c in scope.guild ==> c in "0123456789"
  {
    forall i | 0 <= i < |scope.guild| ensures scope.guild[i] in "0123456789" <==> '0' <= scope.guild[i] <= '9' {
    }
    if forall c :: c in scope.guild ==> c in "0123456789" {
      forall i | 0 <= i < |scope.guild| ensures '0' <= scope.guild[i] <= '9' {
        assert scope.guild[i] in scope.guild;
      }
    }
  }

  /** What `resolve` returns once its read is back: the cache answers first. */
  function Answer(cache: Cache, scope: Scope, snapshot: Option<Row>, defaults: Policy): Effective {
    if snapshot.Some? && KeyOf(scope, snapshot.value) in cache then cache[KeyOf(scope, snapshot.value)]
    else InEffect(scope, snapshot, defaults)
  }

  function Filled(cache: Cache, scope: Scope, snapshot: Option<Row>): Cache {
    if snapshot.Some? && KeyOf(scope, snapshot.value) !in cache
    then cache[KeyOf(scope, snapshot.value) := FromRow(scope, snapshot.value)]
    else cache
  }

  function Invalidated(cache: Cache, scope: Scope): Cache {
    map k | k in cache && k.scope != scope :: cache[k]
  }

  class EffectiveMediaPolicyResolver {
    const repository: PostgresqlMediaPolicyRepository
    const defaults: Policy
    var cache: Cache

    constructor (repository: PostgresqlMediaPolicyRepository, defaults: Policy)
      ensures this.repository == repository && this.defaults == defaults && cache == map[]
    {
      this.repository, this.defaults, cache := repository, defaults, map[];
    }

    /** The part of `resolve` before its await. */
    method BeginResolve(scope: Scope) returns (r: Result<Option<Row>>)
      ensures r == if ValidScope(scope) then Ok(Active(repository.rows, scope)) else Err(ValueError)
      ensures r.Ok? <==>
        scope.platform == "discord" && scope.guild != "" && |scope.guild| <= 32 && forall c :: c in scope.guild ==> c in "0123456789"
    {
      ValidScopeMeaning(scope);
      if !ValidScope(scope) {
        return Err(ValueError);
      }
      var snapshot := repository.GetActive(scope);
      return Ok(snapshot);
    }

    /** The part of `resolve` after its await. */
    method EndResolve(scope: Scope, snapshot: Option<Row>) returns (r: Effective)
      modifies this`cache
      ensures r == Answer(old(cache), scope, snapshot, defaults)
      ensures cache == Filled(old(cache), scope, snapshot)
    {
      if snapshot.Some? {
        var row := snapshot.value;
        var key := CacheKey(scope, row.revision, row.policy.ocrVersion, row.policy.yoloVersion);
        if key in cache {
          return cache[key];
        }
        var effective := Effective(scope.guild, row.policy, DATABASE, row.schemaVersion, row.defaultsVersion, row.revision,
                                   Some(row.updatedAt), Some(row.updatedBy));
        cache := cache[key := effective];
        return effective;
      }
      return Effective(scope.guild, defaults, YAML_DEFAULT, SCHEMA_VERSION, DefaultsVersion(defaults), 0, None, None);
    }

    method Invalidate(scope: Scope)
      modifies this`cache
      ensures cache == Invalidated(old(cache), scope)
      ensures forall k :: k in cache <==> k in old(cache) && k.scope != scope
      ensures forall k :: k in cache ==> cache[k] == old(cache)[k]
    {
      cache := map k | k in cache && k.scope != scope :: cache[k];
    }

    /** `save` when nothing else runs between its awaits. */
    method Save(scope: Scope, policy: Policy, expected: int, updatedBy: string, now: int) returns (r: Result<Effective>)
      modifies repository, this`cache
      ensures !ValidScope(scope) ==> r == Err(ValueError)
      ensures ValidScope(scope) && !SaveAccepted(old(repository.rows), scope, expected) ==>
        r == Err(RuntimeError)
      ensures r.Err? ==>
        repository.rows == old(repository.rows) && repository.audit == old(repository.audit) && cache == old(cache)
      ensures ValidScope(scope) && SaveAccepted(old(repository.rows), scope, expected) ==>
        var row := SavedRow(old(repository.rows), scope, policy, DefaultsVersion(defaults), updatedBy, now);
        && r == Ok(FromRow(scope, row))
        && repository.rows == old(repository.rows)[scope := row]
        && repository.audit == old(repository.audit) + [Audited(scope, row)]
        && cache == Invalidated(old(cache), scope)[KeyOf(scope, row) := FromRow(scope, row)]
      ensures r.Ok? ==>
        && r.value.media == policy && r.value.updatedBy == Some(updatedBy) && r.value.updatedAt == Some(now)
        && r.value.guild == scope.guild && r.value.source == DATABASE
        && r.value.revision == (if scope in old(repository.rows) then old(repository.rows)[scope].revision else 0) + 1
    {
      if !ValidScope(scope) {
        return Err(ValueError);
      }
      var saved := repository.Save(scope, policy, DefaultsVersion(defaults), expected, updatedBy, now);
      if saved.None? {
        return Err(RuntimeError);
      }
      Invalidate(scope);
      var snapshot := BeginResolve(scope);
      var effective := EndResolve(scope, snapshot.value);
      return Ok(effective);
    }

    /** `reset` when nothing else runs between its awaits. */
    method Reset(scope: Scope, expected: int, updatedBy: string, now: int) returns (r: Result<Effective>)
      modifies repository, this`cache
      ensures !ValidScope(scope) ==> r == Err(ValueError)
      ensures ValidScope(scope) && !ResetAccepted(old(repository.rows), scope, expected) ==>
        r == Err(RuntimeError)
      ensures r.Err? ==>
        repository.rows == old(repository.rows) && repository.audit == old(repository.audit) && cache == old(cache)
      ensures ValidScope(scope) && ResetAccepted(old(repository.rows), scope, expected) ==>
        var row := ResetRow(old(repository.rows)[scope], updatedBy, now);
        && r == Ok(FromDefaults(scope, defaults))
        && repository.rows == old(repository.rows)[scope := row]
        && repository.audit == old(repository.audit) + [Audited(scope, row)]
        && cache == Invalidated(old(cache), scope)
    {
      if !ValidScope(scope) {
        return Err(ValueError);
      }
      var changed := repository.Reset(scope, expected, updatedBy, now);
      if !changed {
        return Err(RuntimeError);
      }
      Invalidate(scope);
      var snapshot := BeginResolve(scope);
      var effective := EndResolve(scope, snapshot.value);
      return Ok(effective);
    }
  }

  // ---------------------------------------------------------------- interleavings

  /** A resolve waiting for its continuation, with the snapshot its read returned. */
  datatype Pending = Pending(scope: Scope, snapshot: Option<Row>)

  /** The system between two steps. `written` records the row of every revision ever written. */
  datatype State = State(
    rows: Rows,
    audit: seq<AuditEntry>,
    cache: Cache,
    pending: map<nat, Pending>,
    written: map<Scope, seq<Row>>)

  /** What may happen next: a resolve reads, continues or is cancelled; anybody writes; a cache is cleared for a scope. */
  datatype Step =
    | Read(task: nat, scope: Scope)
    | Continue(task: nat)
    | Cancel(task: nat)
    | SaveRow(scope: Scope, policy: Policy, defaultsVersion: string, expected: int, updatedBy: string, now: int)
    | ResetRowStep(scope: Scope, expected: int, updatedBy: string, now: int)
    | Clear(scope: Scope)

  const INITIAL := State(map[], [], map[], map[], map[])

  function History(s: State, scope: Scope): seq<Row> {
    if scope in s.written then s.written[scope] else []
  }

  predicate Accepted(s: State, step: Step) {
    match step
    case SaveRow(scope, _, _, expected, _, _) => SaveAccepted(s.rows, scope, expected)
    case ResetRowStep(scope, expected, _, _) => ResetAccepted(s.rows, scope, expected)
    case _ => false
  }

  /** The row an accepted write leaves behind. */
  function RowAfter(s: State, step: Step): Row
    requires Accepted(s, step)
  {
    match step
    case SaveRow(scope, policy, defaultsVersion, _, updatedBy, now) =>
      SavedRow(s.rows, scope, policy, defaultsVersion, updatedBy, now)
    case ResetRowStep(scope, _, updatedBy, now) => ResetRow(s.rows[scope], updatedBy, now)
  }

  function Wrote(s: State, scope: Scope, row: Row): State {
    s.(rows := s.rows[scope := row],
       audit := s.audit + [Audited(scope, row)],
       written := s.written[scope := History(s, scope) + [row]])
  }

  function Next(s: State, step: Step): State {
    match step
    case Read(task, scope) =>
      if task in s.pending then s else s.(pending := s.pending[task := Pending(scope, Active(s.rows, scope))])
    case Continue(task) =>
      if task !in s.pending then s
      else s.(cache := Filled(s.cache, s.pending[task].scope, s.pending[task].snapshot), pending := s.pending - {task})
    case Cancel(task) => s.(pending := s.pending - {task})
    case SaveRow(scope, _, _, _, _, _) => if Accepted(s, step) then Wrote(s, scope, RowAfter(s, step)) else s
    case ResetRowStep(scope, _, _, _) => if Accepted(s, step) then Wrote(s, scope, RowAfter(s, step)) else s
    case Clear(scope) => s.(cache := Invalidated(s.cache, scope))
  }

  function Run(s: State, steps: seq<Step>): State {
    if steps == [] then s else Next(Run(s, steps[..|steps| - 1]), steps[|steps| - 1])
  }

  // ---------------------------------------------------------------- the invariant

  /** Revisions are the positions in the history, and the row is its last entry. */
  ghost predicate HistoryOk(s: State, scope: Scope) {
    var h := History(s, scope);
    && (scope in s.rows <==> h != [])
    && (h != [] ==> s.rows[scope] == h[|h| - 1])
    && forall i :: 0 <= i < |h| ==> h[i].revision == i + 1
  }

  /** The row was written to the scope at its revision. */
  ghost predicate WasWritten(s: State, scope: Scope, row: Row) {
    var h := History(s, scope);
    1 <= row.revision <= |h| && h[row.revision - 1] == row
  }

  function AuditOf(audit: seq<AuditEntry>, scope: Scope): seq<AuditEntry> {
    if audit == [] then []
    else
      var n := |audit| - 1;
      AuditOf(audit[..n], scope) + (if audit[n].scope == scope then [audit[n]] else [])
  }

  function AuditTrail(scope: Scope, h: seq<Row>): seq<AuditEntry> {
    seq(|h|, i requires 0 <= i < |h| => Audited(scope, h[i]))
  }

  ghost predicate CacheEntryOk(s: State, key: CacheKey) {
    key in s.cache ==> exists row :: WasWritten(s, key.scope, row) && row.active && key == KeyOf(key.scope, row) && s.cache[key] == FromRow(key.scope, row)
  }

  ghost predicate PendingOk(s: State, task: nat) {
    task in s.pending && s.pending[task].snapshot.Some? ==>
      s.pending[task].snapshot.value.active && WasWritten(s, s.pending[task].scope, s.pending[task].snapshot.value)
  }

  ghost predicate Inv(s: State) {
    && (forall scope :: HistoryOk(s, scope))
    && (forall scope :: AuditOf(s.audit, scope) == AuditTrail(scope, History(s, scope)))
    && (forall key :: CacheEntryOk(s, key))
    && (forall task :: PendingOk(s, task))
  }

  /** Histories only grow. */
  lemma WasWrittenStays(s: State, step: Step, scope: Scope, row: Row)
    requires WasWritten(s, scope, row)
    ensures WasWritten(Next(s, step), scope, row)
  {
  }

  lemma HistoryStep(s: State, step: Step, scope: Scope)
    requires HistoryOk(s, scope)
    ensures HistoryOk(Next(s, step), scope)
    ensures History(Next(s, step), scope) ==
      if Accepted(s, step) && step.scope == scope then History(s, scope) + [RowAfter(s, step)] else History(s, scope)
  {
  }

  lemma AuditOfAppend(audit: seq<AuditEntry>, e: AuditEntry, scope: Scope)
    ensures AuditOf(audit + [e], scope) == AuditOf(audit, scope) + (if e.scope == scope then [e] else [])
  {
    assert (audit + [e])[..|audit|] == audit;
  }

  lemma TrailAppend(scope: Scope, h: seq<Row>, row: Row)
    ensures AuditTrail(scope, h + [row]) == AuditTrail(scope, h) + [Audited(scope, row)]
  {
  }

  lemma AuditStep(s: State, step: Step, scope: Scope)
    requires HistoryOk(s, scope) && AuditOf(s.audit, scope) == AuditTrail(scope, History(s, scope))
    ensures AuditOf(Next(s, step).audit, scope) == AuditTrail(scope, History(Next(s, step), scope))
  {
    HistoryStep(s, step, scope);
    if Accepted(s, step) {
      AuditOfAppend(s.audit, Audited(step.scope, RowAfter(s, step)), scope);
      TrailAppend(scope, History(s, scope), RowAfter(s, step));
    }
  }

  lemma PendingStep(s: State, step: Step, task: nat)
    requires PendingOk(s, task) && (forall scope :: HistoryOk(s, scope))
    ensures PendingOk(Next(s, step), task)
  {
    var s' := Next(s, step);
    if task in s'.pending && s'.pending[task].snapshot.Some? {
      if task in s.pending {
        WasWrittenStays(s, step, s.pending[task].scope, s.pending[task].snapshot.value);
      } else {
        assert HistoryOk(s, step.scope);
      }
    }
  }

  lemma CacheStep(s: State, step: Step, key: CacheKey)
    requires CacheEntryOk(s, key) && (forall task :: PendingOk(s, task))
    ensures CacheEntryOk(Next(s, step), key)
  {
    var s' := Next(s, step);
    if key in s'.cache {
      if key in s.cache {
        var row :| WasWritten(s, key.scope, row) && row.active && key == KeyOf(key.scope, row) && s.cache[key] == FromRow(key.scope, row);
        WasWrittenStays(s, step, key.scope, row);
        assert s'.cache[key] == s.cache[key];
      } else {
        var row := s.pending[step.task].snapshot.value;
        assert PendingOk(s, step.task);
        assert WasWritten(s', key.scope, row);
      }
    }
  }

  lemma StepKeepsInv(s: State, step: Step)
    requires Inv(s)
    ensures Inv(Next(s, step))
  {
    var s' := Next(s, step);
    forall scope ensures HistoryOk(s', scope) {
      HistoryStep(s, step, scope);
    }
    forall scope ensures AuditOf(s'.audit, scope) == AuditTrail(scope, History(s', scope)) {
      AuditStep(s, step, scope);
    }
    forall key ensures CacheEntryOk(s', key) {
      CacheStep(s, step, key);
    }
    forall task ensures PendingOk(s', task) {
      PendingStep(s, step, task);
    }
  }

  /** What every interleaving keeps. */
  lemma {:induction false} RunKeepsInv(s: State, steps: seq<Step>)
    requires Inv(s)
    ensures Inv(Run(s, steps))
  {
    if steps != [] {
      RunKeepsInv(s, steps[..|steps| - 1]);
      StepKeepsInv(Run(s, steps[..|steps| - 1]), steps[|steps| - 1]);
    }
  }

  lemma EveryRunKeepsInv(steps: seq<Step>)
    ensures Inv(Run(INITIAL, steps))
  {
    assert Inv(INITIAL);
    RunKeepsInv(INITIAL, steps);
  }

  // ---------------------------------------------------------------- resolve

  /** In every reachable state, the answer of a waiting resolve is the policy in effect at its own read:
      the cache can never answer otherwise. */
  lemma CacheNeverLies(steps: seq<Step>, task: nat, defaults: Policy)
    requires task in Run(INITIAL, steps).pending
    ensures var s := Run(INITIAL, steps); var p := s.pending[task];
      Answer(s.cache, p.scope, p.snapshot, defaults) == InEffect(p.scope, p.snapshot, defaults)
  {
    EveryRunKeepsInv(steps);
    var s := Run(INITIAL, steps);
    var p := s.pending[task];
    if p.snapshot.Some? {
      var key := KeyOf(p.scope, p.snapshot.value);
      assert PendingOk(s, task);
      assert CacheEntryOk(s, key);
    }
  }

  predicate Leaves(step: Step, task: nat) {
    !(step.Continue? && step.task == task) && !(step.Cancel? && step.task == task)
  }

  lemma {:induction false} PendingStays(s: State, steps: seq<Step>, task: nat)
    requires task in s.pending && forall i :: 0 <= i < |steps| ==> Leaves(steps[i], task)
    ensures task in Run(s, steps).pending && Run(s, steps).pending[task] == s.pending[task]
  {
    if steps != [] {
      PendingStays(s, steps[..|steps| - 1], task);
    }
  }

  lemma {:induction false} RunConcat(s: State, a: seq<Step>, b: seq<Step>)
    ensures Run(s, a + b) == Run(Run(s, a), b)
  {
    if b == [] {
      assert a + b == a;
    } else {
      var n := |b| - 1;
      assert (a + b)[..|a| + n] == a + b[..n];
      RunConcat(s, a, b[..n]);
    }
  }

  /** A resolve takes effect at its read: whatever runs before it, and whatever reads, writes, cache fills
      and invalidations land between its read and its continuation, it returns the policy that was in
      effect when it read. */
  lemma ResolveIsAtomicAtItsRead(before: seq<Step>, between: seq<Step>, task: nat, scope: Scope, defaults: Policy)
    requires task !in Run(INITIAL, before).pending
    requires forall i :: 0 <= i < |between| ==> Leaves(between[i], task)
    ensures var s, s' := Run(INITIAL, before), Run(INITIAL, before + [Read(task, scope)] + between);
      && task in s'.pending
      && Answer(s'.cache, s'.pending[task].scope, s'.pending[task].snapshot, defaults)
         == InEffect(scope, Active(s.rows, scope), defaults)
  {
    var read := before + [Read(task, scope)];
    assert read[..|read| - 1] == before;
    RunConcat(INITIAL, read, between);
    PendingStays(Run(INITIAL, read), between, task);
    CacheNeverLies(read + between, task, defaults);
  }

  // ---------------------------------------------------------------- revisions and the audit log

  function Revision(s: State, scope: Scope): nat {
    if scope in s.rows then s.rows[scope].revision else 0
  }

  /** The successful writes to a scope during some steps. */
  function Writes(s: State, steps: seq<Step>, scope: Scope): nat {
    if steps == [] then 0
    else
      var n := |steps| - 1;
      var before := Run(s, steps[..n]);
      Writes(s, steps[..n], scope) + (if Accepted(before, steps[n]) && steps[n].scope == scope then 1 else 0)
  }

  /** A scope's revision rises by exactly one per successful write, and by nothing else. */
  lemma {:induction false} RevisionCountsWrites(s: State, steps: seq<Step>, scope: Scope)
    ensures Revision(Run(s, steps), scope) == Revision(s, scope) + Writes(s, steps, scope)
    ensures Writes(s, steps, scope) == 0 ==> (scope in Run(s, steps).rows <==> scope in s.rows)
    ensures Writes(s, steps, scope) == 0 && scope in s.rows ==> Run(s, steps).rows[scope] == s.rows[scope]
    ensures scope in s.rows ==> scope in Run(s, steps).rows
  {
    if steps != [] {
      RevisionCountsWrites(s, steps[..|steps| - 1], scope);
    }
  }

  /** The row a write left, once some steps have followed it. */
  lemma AfterWrite(before: seq<Step>, write: Step, wait: seq<Step>)
    requires Accepted(Run(INITIAL, before), write)
    ensures var row, s1 := RowAfter(Run(INITIAL, before), write), Run(INITIAL, before + [write]);
      var s2 := Run(INITIAL, before + [write] + wait);
      && write.scope in s2.rows
      && s2.rows[write.scope].revision == row.revision + Writes(s1, wait, write.scope)
      && (Writes(s1, wait, write.scope) == 0 ==> s2.rows[write.scope] == row)
  {
    var s1 := Run(INITIAL, before + [write]);
    assert (before + [write])[..|before|] == before;
    RunConcat(INITIAL, before + [write], wait);
    RevisionCountsWrites(s1, wait, write.scope);
  }

  /** What a save or a reset returns when anything lands between its awaits: the policy in effect at its own
      later read, which is its own write unless another one came in between, and then a later one. */
  lemma WriterReturnsItsOwnRead(
      before: seq<Step>, write: Step, wait: seq<Step>, between: seq<Step>, task: nat, defaults: Policy)
    requires Accepted(Run(INITIAL, before), write)
    requires task !in Run(INITIAL, before + [write] + wait).pending
    requires forall i :: 0 <= i < |between| ==> Leaves(between[i], task)
    ensures var scope, row := write.scope, RowAfter(Run(INITIAL, before), write);
      var others := Writes(Run(INITIAL, before + [write]), wait, scope);
      var s := Run(INITIAL, before + [write] + wait);
      var s' := Run(INITIAL, before + [write] + wait + [Read(task, scope)] + between);
      && task in s'.pending
      && var answer := Answer(s'.cache, s'.pending[task].scope, s'.pending[task].snapshot, defaults);
      && answer == InEffect(scope, Active(s.rows, scope), defaults)
      && (others == 0 ==> answer == if row.active then FromRow(scope, row) else FromDefaults(scope, defaults))
      && (answer.source == DATABASE ==> answer.revision == row.revision + others)
      && (answer.source == YAML_DEFAULT ==> !row.active || others > 0)
  {
    AfterWrite(before, write, wait);
    ResolveIsAtomicAtItsRead(before + [write] + wait, between, task, write.scope, defaults);
  }

  /** A saved policy is what everybody resolves to until the next write to its scope. */
  lemma SavedPolicyIsResolved(
      before: seq<Step>, scope: Scope, policy: Policy, defaultsVersion: string, expected: int, updatedBy: string, now: int,
      wait: seq<Step>, between: seq<Step>, task: nat, defaults: Policy)
    requires var write := SaveRow(scope, policy, defaultsVersion, expected, updatedBy, now);
      && Accepted(Run(INITIAL, before), write)
      && Writes(Run(INITIAL, before + [write]), wait, scope) == 0
      && task !in Run(INITIAL, before + [write] + wait).pending
    requires forall i :: 0 <= i < |between| ==> Leaves(between[i], task)
    ensures var write := SaveRow(scope, policy, defaultsVersion, expected, updatedBy, now);
      var s := Run(INITIAL, before + [write] + wait + [Read(task, scope)] + between);
      && task in s.pending
      && var answer := Answer(s.cache, s.pending[task].scope, s.pending[task].snapshot, defaults);
      && answer.media == policy && answer.defaultsVersion == defaultsVersion && answer.source == DATABASE
      && answer.updatedBy == Some(updatedBy) && answer.updatedAt == Some(now)
      && answer.guild == scope.guild && answer.revision == Revision(Run(INITIAL, before), scope) + 1
  {
    var write := SaveRow(scope, policy, defaultsVersion, expected, updatedBy, now);
    WriterReturnsItsOwnRead(before, write, wait, between, task, defaults);
  }

  /** The audit log of a scope lists revisions 1, 2, ..., r in order, with the operation, policy and
      author of the row each of them wrote. */
  lemma AuditListsEveryRevision(steps: seq<Step>, scope: Scope)
    ensures var s := Run(INITIAL, steps); var log := AuditOf(s.audit, scope);
      && |log| == |History(s, scope)| == Revision(s, scope) == Writes(INITIAL, steps, scope)
      && forall i :: 0 <= i < |log| ==> log[i].revision == i + 1 && log[i] == Audited(scope, History(s, scope)[i])
  {
    EveryRunKeepsInv(steps);
    RevisionCountsWrites(INITIAL, steps, scope);
    assert HistoryOk(Run(INITIAL, steps), scope);
  }

  // ---------------------------------------------------------------- optimistic concurrency

  /** A client that saves with the revision its resolve reported, after any further steps: from an active
      row it succeeds exactly when no write came in between; from no active row it succeeds exactly when
      there still is none. */
  lemma EchoedRevision(before: seq<Step>, between: seq<Step>, scope: Scope, defaults: Policy)
    ensures var s, s' := Run(INITIAL, before), Run(Run(INITIAL, before), between);
      var reported := InEffect(scope, Active(s.rows, scope), defaults).revision;
      SaveAccepted(s'.rows, scope, reported)
      == if reported > 0 then Writes(s, between, scope) == 0 else Active(s'.rows, scope).None?
  {
    var s := Run(INITIAL, before);
    EveryRunKeepsInv(before);
    RevisionCountsWrites(s, between, scope);
    RunConcat(INITIAL, before, between);
    EveryRunKeepsInv(before + between);
    assert HistoryOk(s, scope);
    assert HistoryOk(Run(s, between), scope);
  }

  /** Of all writes ever made to an existing row with the same positive expected revision, one succeeds at most. */
  lemma OneWinnerPerRevision(steps: seq<Step>, i: nat, j: nat)
    requires i < j < |steps|
    requires steps[i].SaveRow? || steps[i].ResetRowStep?
    requires steps[j].SaveRow? || steps[j].ResetRowStep?
    requires steps[i].scope == steps[j].scope && steps[i].expected == steps[j].expected > 0
    requires steps[i].scope in Run(INITIAL, steps[..i]).rows
    ensures !(Accepted(Run(INITIAL, steps[..i]), steps[i]) && Accepted(Run(INITIAL, steps[..j]), steps[j]))
  {
    var s := Run(INITIAL, steps[..i]);
    if Accepted(s, steps[i]) {
      assert steps[..i + 1][..i] == steps[..i];
      assert steps[..j] == steps[..i + 1] + steps[i + 1..j];
      RunConcat(INITIAL, steps[..i + 1], steps[i + 1..j]);
      LaterIsRefused(s, steps[i], steps[i + 1..j], steps[j]);
    }
  }

  lemma LaterIsRefused(s: State, won: Step, between: seq<Step>, lost: Step)
    requires (won.SaveRow? || won.ResetRowStep?) && (lost.SaveRow? || lost.ResetRowStep?)
    requires won.scope == lost.scope && won.expected == lost.expected > 0 && won.scope in s.rows && Accepted(s, won)
    ensures !Accepted(Run(Next(s, won), between), lost)
  {
    RevisionCountsWrites(Next(s, won), between, won.scope);
  }

  /** Expected revision zero is weaker: a save, a reset and the same save again all succeed. */
  lemma ZeroIsAcceptedAgainAfterReset(scope: Scope, policy: Policy)
    ensures var save := SaveRow(scope, policy, "d", 0, "a", 0);
      var steps := [save, ResetRowStep(scope, 1, "b", 1), save];
      && Accepted(Run(INITIAL, steps[..0]), steps[0])
      && Accepted(Run(INITIAL, steps[..1]), steps[1])
      && Accepted(Run(INITIAL, steps[..2]), steps[2])
  {
    var save := SaveRow(scope, policy, "d", 0, "a", 0);
    var steps := [save, ResetRowStep(scope, 1, "b", 1), save];
    assert steps[..1][..0] == steps[..0] && steps[..2][..1] == steps[..1];
  }
}
