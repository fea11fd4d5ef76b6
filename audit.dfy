/** The audit sink: `AuthAuditService.logAsync` builds one audit record and
    saves it. The model runs the call synchronously and keeps the audit table
    as a sequence that only ever grows at its end. */
module Audit {
  import opened Entities

  class AuthAuditService {
    /** The `auth_audit_logs` table, in insertion order. */
    var logs: seq<AuthAuditLog>

    constructor ()
      ensures logs == []
    {
      logs := [];
    }

    /** Records that `username` performed `action` at time `now`. */
    method LogAsync(username: string, action: string, now: Timestamp)
      modifies this
      ensures logs == old(logs) + [AuthAuditLog(username, action, now)]
      ensures |logs| == |old(logs)| + 1
      ensures logs[..|old(logs)|] == old(logs)
      ensures logs[|logs| - 1].username == username && logs[|logs| - 1].action == action
      ensures logs[|logs| - 1].timestamp == now
    {
      var log := AuthAuditLog(username, action, now);
      logs := logs + [log];
    }
  }
}
