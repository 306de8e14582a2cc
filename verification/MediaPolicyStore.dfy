/** The media policy repository: one row per scope, guarded by revisions, with an audit log. Each
    statement runs as one atomic step. */
module MediaPolicyStore {
  import opened Wrappers

  datatype Scope = Scope(platform: string, guild: string)

  /** A media policy: the two versions that cache keys mention, and everything else. */
  datatype Policy = Policy(ocrVersion: string, yoloVersion: string, settings: string)

  datatype Row = Row(
    schemaVersion: string,
    defaultsVersion: string,
    revision: nat,
    policy: Policy,
    active: bool,
    updatedAt: int,
    updatedBy: string)

  datatype Operation = SAVE | RESET

  datatype AuditEntry = AuditEntry(scope: Scope, operation: Operation, revision: nat, policy: Option<Policy>, updatedBy: string)

  type Rows = map<Scope, Row>

  const SCHEMA_VERSION := "media-policy-v1"

  function Active(rows: Rows, scope: Scope): Option<Row> {
    if scope in rows && rows[scope].active then Some(rows[scope]) else None
  }

  /** The insert has no revision check; the conflict update takes the current revision, or zero for a reset row. */
  predicate SaveAccepted(rows: Rows, scope: Scope, expected: int) {
    scope !in rows || rows[scope].revision == expected || (!rows[scope].active && expected == 0)
  }

  predicate ResetAccepted(rows: Rows, scope: Scope, expected: int) {
    scope in rows && rows[scope].active && rows[scope].revision == expected
  }

  function NextRevision(rows: Rows, scope: Scope): nat {
    if scope in rows then rows[scope].revision + 1 else 1
  }

  function SavedRow(rows: Rows, scope: Scope, policy: Policy, defaultsVersion: string, updatedBy: string, now: int): Row {
    Row(SCHEMA_VERSION, defaultsVersion, NextRevision(rows, scope), policy, true, now, updatedBy)
  }

  function ResetRow(row: Row, updatedBy: string, now: int): Row {
    row.(active := false, revision := row.revision + 1, updatedBy := updatedBy, updatedAt := now)
  }

  /** The audit entry that goes with a row as it is written. */
  function Audited(scope: Scope, row: Row): AuditEntry {
    AuditEntry(scope, if row.active then SAVE else RESET, row.revision, if row.active then Some(row.policy) else None, row.updatedBy)
  }

  class PostgresqlMediaPolicyRepository {
    var rows: Rows
    var audit: seq<AuditEntry>

    constructor ()
      ensures rows == map[] && audit == []
    {
      rows, audit := map[], [];
    }

    method GetActive(scope: Scope) returns (r: Option<Row>)
      ensures r == Active(rows, scope)
      ensures r.Some? <==> scope in rows && rows[scope].active
      ensures r.Some? ==> r.value == rows[scope]
    {
      if scope in rows && rows[scope].active {
        return Some(rows[scope]);
      }
      return None;
    }

    method Save(scope: Scope, policy: Policy, defaultsVersion: string, expected: int, updatedBy: string, now: int)
        returns (r: Option<Row>)
      modifies this
      ensures r.Some? <==> SaveAccepted(old(rows), scope, expected)
      ensures r.Some? <==>
        || scope !in old(rows) || old(rows)[scope].revision == expected
        || (!old(rows)[scope].active && expected == 0)
      ensures r.Some? ==>
        && r.value.policy == policy && r.value.active
        && r.value.schemaVersion == SCHEMA_VERSION && r.value.defaultsVersion == defaultsVersion
        && r.value.updatedBy == updatedBy && r.value.updatedAt == now
        && r.value.revision == (if scope in old(rows) then old(rows)[scope].revision else 0) + 1
        && rows == old(rows)[scope := r.value]
        && audit == old(audit) + [AuditEntry(scope, SAVE, r.value.revision, Some(policy), updatedBy)]
      ensures r.Some? ==> r.value == SavedRow(old(rows), scope, policy, defaultsVersion, updatedBy, now)
      ensures r.None? ==> rows == old(rows) && audit == old(audit)
    {
      var saved: Row;
      if scope !in rows {
        saved := Row(SCHEMA_VERSION, defaultsVersion, 1, policy, true, now, updatedBy);
      } else {
        var existing := rows[scope];
        if existing.revision == expected || (!existing.active && expected == 0) {
          saved := Row(SCHEMA_VERSION, defaultsVersion, existing.revision + 1, policy, true, now, updatedBy);
        } else {
          return None;
        }
      }
      rows := rows[scope := saved];
      audit := audit + [AuditEntry(scope, SAVE, saved.revision, Some(saved.policy), saved.updatedBy)];
      return Some(saved);
    }

    method Reset(scope: Scope, expected: int, updatedBy: string, now: int) returns (changed: bool)
      modifies this
      ensures changed <==> ResetAccepted(old(rows), scope, expected)
      ensures changed <==> scope in old(rows) && old(rows)[scope].active && old(rows)[scope].revision == expected
      ensures changed ==>
        && scope in rows && rows == old(rows)[scope := rows[scope]]
        && var row, was := rows[scope], old(rows)[scope];
        && !row.active && row.revision == was.revision + 1 && row.updatedBy == updatedBy && row.updatedAt == now
        && row.policy == was.policy && row.schemaVersion == was.schemaVersion && row.defaultsVersion == was.defaultsVersion
        && audit == old(audit) + [AuditEntry(scope, RESET, row.revision, None, updatedBy)]
      ensures changed ==> rows == old(rows)[scope := ResetRow(old(rows)[scope], updatedBy, now)]
      ensures !changed ==> rows == old(rows) && audit == old(audit)
    {
      if scope !in rows || !rows[scope].active || rows[scope].revision != expected {
        return false;
      }
      var row := rows[scope].(active := false, revision := rows[scope].revision + 1, updatedBy := updatedBy, updatedAt := now);
      rows := rows[scope := row];
      audit := audit + [AuditEntry(scope, RESET, row.revision, None, updatedBy)];
      return true;
    }
  }
}
